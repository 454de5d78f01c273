/** The migration generator's statement splitter: cut DDL at its real statement
    terminators and keep every other byte. */
module SqlSplitter {
  import opened Splitting
  import opened Trimming

  // ------------------------------------------------------------- the lexer --

  datatype Mode = Normal | Line | Block | Str

  predicate StartsWith(s: string, p: string) { p <= s }

  /** How many characters the loop consumes at the head of `s`. */
  function StepLength(s: string, mode: Mode): (n: nat)
    requires s != ""
    ensures 1 <= n <= |s|
  {
    match mode
    case Normal => if StartsWith(s, "--") || StartsWith(s, "/*") then 2 else 1
    case Line => 1
    case Block => if StartsWith(s, "*/") then 2 else 1
    case Str => if StartsWith(s, "''") then 2 else 1
  }

  function StepMode(s: string, mode: Mode): Mode
    requires s != ""
  {
    match mode
    case Normal =>
      if StartsWith(s, "--") then Line
      else if StartsWith(s, "/*") then Block
      else if s[0] == '\'' then Str
      else Normal
    case Line => if s[0] == '\n' then Normal else Line
    case Block => if StartsWith(s, "*/") then Normal else Block
    case Str => if StartsWith(s, "''") || s[0] != '\'' then Str else Normal
  }

  predicate CutsHere(s: string, mode: Mode)
    requires s != ""
  {
    mode == Normal && s[0] == ';'
  }

  /** The text between real terminators, untrimmed. */
  function Pieces(s: string, mode: Mode): (r: seq<string>)
    ensures |r| >= 1
    decreases |s|
  {
    if s == "" then [""]
    else if CutsHere(s, mode) then [""] + Pieces(s[1..], Normal)
    else
      var n := StepLength(s, mode);
      Prepend(s[..n], Pieces(s[n..], StepMode(s, mode)))
  }

  function Prepend(head: string, pieces: seq<string>): (r: seq<string>)
    requires |pieces| >= 1
    ensures |r| == |pieces|
  {
    [head + pieces[0]] + pieces[1..]
  }

  lemma PrependNothing(pieces: seq<string>)
    requires |pieces| >= 1
    ensures Prepend("", pieces) == pieces
  {
    assert "" + pieces[0] == pieces[0];
  }

  lemma PrependTwice(a: string, b: string, pieces: seq<string>)
    requires |pieces| >= 1
    ensures Prepend(a, Prepend(b, pieces)) == Prepend(a + b, pieces)
  {
    assert a + (b + pieces[0]) == a + b + pieces[0];
  }

  /** Trim every piece and drop the blank ones. */
  function Statements(pieces: seq<string>): seq<string> {
    if pieces == [] then []
    else
      var first := Trim(pieces[0], Python);
      (if first != "" then [first] else []) + Statements(pieces[1..])
  }

  function Split(sql: string): seq<string> { Statements(Pieces(sql, Normal)) }

  /** The generator's loop. */
  method SplitStatements(sql: string) returns (statements: seq<string>)
    ensures statements == Split(sql)
  {
    hide Pieces, Statements, Prepend, StepLength, StepMode, Trim;
    statements := [];
    var current := "";
    var index := 0;
    var state := Normal;
    LoopEntry(sql);
    while index < |sql|
      invariant 0 <= index <= |sql|
      invariant statements + Statements(Prepend(current, Pieces(sql[index..], state))) == Split(sql)
    {
      var c, pair := sql[index], sql[index..if index + 2 <= |sql| then index + 2 else |sql|];
      Lookahead(sql, index, state);
      if state == Normal && c == ';' {
        CutStep(statements, current, sql, index);
        var statement := Trim(current, Python);
        if statement != "" {
          statements := statements + [statement];
        }
        current := "";
        index := index + 1;
      } else {
        StepKeeps(current, sql, index, state);
        if state == Normal && (pair == "--" || pair == "/*") {
          state := if pair == "--" then Line else Block;
          current := current + pair;
          index := index + 2;
        } else if (state == Block && pair == "*/") || (state == Str && pair == "''") {
          state := if state == Block then Normal else Str;
          current := current + pair;
          index := index + 2;
        } else {
          if state == Normal && c == '\'' {
            state := Str;
          } else if (state == Line && c == '\n') || (state == Str && c == '\'') {
            state := Normal;
          }
          current := current + [c];
          index := index + 1;
        }
      }
    }
    LoopExit(current, sql[index..], state);
    var tail := Trim(current, Python);
    if tail != "" {
      statements := statements + [tail];
    }
  }

  lemma LoopEntry(sql: string)
    ensures Prepend("", Pieces(sql[0..], Normal)) == Pieces(sql, Normal)
  {
    assert sql[0..] == sql;
    PrependNothing(Pieces(sql, Normal));
  }

  lemma LoopExit(current: string, rest: string, mode: Mode)
    requires rest == ""
    ensures Statements(Prepend(current, Pieces(rest, mode))) == if Trim(current, Python) != "" then [Trim(current, Python)] else []
  {
    assert current + "" == current;
    assert Prepend(current, [""]) == [current];
  }

  /** The two-character window decides the step as the text ahead does. */
  lemma Lookahead(sql: string, index: nat, mode: Mode)
    requires index < |sql|
    ensures var rest, c := sql[index..], sql[index];
            var pair := sql[index..if index + 2 <= |sql| then index + 2 else |sql|];
            && rest[0] == c
            && (if StepLength(rest, mode) == 2 then pair == rest[..2] && index + 2 <= |sql|
                else StepLength(rest, mode) == 1 && [c] == rest[..1])
            && (StepLength(rest, mode) == 2 <==>
                (mode == Normal && (pair == "--" || pair == "/*")) || (mode == Block && pair == "*/")
                || (mode == Str && pair == "''"))
            && StepMode(rest, mode) ==
               if mode == Normal && pair == "--" then Line
               else if mode == Normal && pair == "/*" then Block
               else if mode == Block && pair == "*/" then Normal
               else if mode == Str && pair == "''" then Str
               else if mode == Normal && c == '\'' then Str
               else if (mode == Line && c == '\n') || (mode == Str && c == '\'') then Normal
               else mode
  {
    var rest := sql[index..];
    if |rest| >= 2 {
      assert sql[index..index + 2] == rest[..2];
    }
  }

  lemma CutStep(done: seq<string>, current: string, sql: string, index: nat)
    requires index < |sql| && sql[index] == ';'
    ensures var statement := Trim(current, Python);
            done + Statements(Prepend(current, Pieces(sql[index..], Normal)))
            == (if statement != "" then done + [statement] else done)
               + Statements(Prepend("", Pieces(sql[index + 1..], Normal)))
  {
    var rest := sql[index..];
    assert rest[1..] == sql[index + 1..];
    var after := Pieces(rest[1..], Normal);
    PrependNothing(after);
    assert current + "" == current;
    assert Prepend(current, Pieces(rest, Normal)) == [current] + after;
  }

  lemma StepKeeps(current: string, sql: string, index: nat, mode: Mode)
    requires index < |sql| && !CutsHere(sql[index..], mode)
    ensures var rest := sql[index..];
            var n := StepLength(rest, mode);
            && rest[..n] == sql[index..index + n]
            && Prepend(current, Pieces(rest, mode))
               == Prepend(current + rest[..n], Pieces(sql[index + n..], StepMode(rest, mode)))
  {
    var rest := sql[index..];
    var n := StepLength(rest, mode);
    assert rest[n..] == sql[index + n..];
    PrependTwice(current, rest[..n], Pieces(rest[n..], StepMode(rest, mode)));
  }

  // ------------------------------- the reference: one character at a time --

  /** A scanner without lookahead: it remembers instead a dash or slash that may
      open a comment, a star that may close one, and a quote that may be the
      first half of an escaped one. */
  datatype Scan = Plain | Dash | Slash | Quote | InLine | InBlock | Star | InString {
    /** Outside comments and strings. */
    predicate Outside() { Plain? || Dash? || Slash? || Quote? }
  }

  function Next(q: Scan, c: char): Scan {
    match q
    case InLine => if c == '\n' then Plain else InLine
    case InBlock => if c == '*' then Star else InBlock
    case Star => if c == '/' then Plain else if c == '*' then Star else InBlock
    case InString => if c == '\'' then Quote else InString
    case _ =>
      if q == Dash && c == '-' then InLine
      else if q == Slash && c == '*' then InBlock
      else if c == '\'' then InString
      else if c == '-' then Dash
      else if c == '/' then Slash
      else Plain
  }

  function ScanAll(q: Scan, s: string): Scan
    decreases |s|
  {
    if s == "" then q else ScanAll(Next(q, s[0]), s[1..])
  }

  predicate Terminates(q: Scan, c: char) { c == ';' && q.Outside() }

  /** Cut at every semicolon outside comments and strings. */
  function Cut(s: string, q: Scan): (r: seq<string>)
    ensures |r| >= 1
  {
    if s == "" then [""]
    else if Terminates(q, s[0]) then [""] + Cut(s[1..], Plain)
    else Prepend([s[0]], Cut(s[1..], Next(q, s[0])))
  }

  /** The scanner state a lexer mode stands for, when `s` is what follows. */
  predicate Agrees(mode: Mode, q: Scan, s: string) {
    match mode
    case Normal =>
      q.Outside() && (s != "" ==> !(q == Dash && s[0] == '-') && !(q == Slash && s[0] == '*') && !(q == Quote && s[0] == '\''))
    case Line => q == InLine
    case Block => q == InBlock || (q == Star && (s != "" ==> s[0] != '/'))
    case Str => q == InString
  }

  /** The lexer's two-character lookahead and the one-character scanner cut at
      the same places, from any agreeing state. */
  lemma {:induction false} PiecesAreCut(s: string, mode: Mode, q: Scan)
    requires Agrees(mode, q, s)
    ensures Pieces(s, mode) == Cut(s, q)
    decreases |s|
  {
    if s != "" {
      if CutsHere(s, mode) {
        PiecesAreCut(s[1..], Normal, Plain);
      } else {
        var n := StepLength(s, mode);
        AgreementKept(s, mode, q);
        hide Agrees, Next, StepMode, StepLength;
        PiecesAreCut(s[n..], StepMode(s, mode), ScanAll(q, s[..n]));
        if n == 1 {
          assert s[..1] == [s[0]];
        } else {
          var q1 := Next(q, s[0]);
          CutTwice(s, q, q1);
        }
      }
    }
  }

  /** One step of the lexer and the scan of the characters it consumed keep the
      two in agreement, and a two-character step hides no terminator. */
  lemma AgreementKept(s: string, mode: Mode, q: Scan)
    requires s != "" && Agrees(mode, q, s) && !CutsHere(s, mode)
    ensures var n := StepLength(s, mode);
            && n <= 2
            && Agrees(StepMode(s, mode), ScanAll(q, s[..n]), s[n..])
            && !Terminates(q, s[0])
            && ScanAll(q, s[..n]) == (if n == 1 then Next(q, s[0]) else Next(Next(q, s[0]), s[1]))
            && (n == 2 ==> !Terminates(Next(q, s[0]), s[1]))
  {
    var n := StepLength(s, mode);
    assert s[..1] == [s[0]];
    assert [s[0]][1..] == "";
    if n == 2 {
      assert s[..2] == [s[0], s[1]] && s[..2][1..] == [s[1]];
      assert [s[1]][1..] == "";
      assert s[0] == s[..2][0] && s[1] == s[..2][1];
    } else if |s| >= 2 {
      assert s[..2] == [s[0], s[1]];
    }
  }

  lemma CutTwice(s: string, q: Scan, q1: Scan)
    requires |s| >= 2 && q1 == Next(q, s[0]) && !Terminates(q, s[0]) && !Terminates(q1, s[1])
    ensures Cut(s, q) == Prepend(s[..2], Cut(s[2..], Next(q1, s[1])))
  {
    assert s[1..][0] == s[1] && s[1..][1..] == s[2..];
    PrependTwice([s[0]], [s[1]], Cut(s[2..], Next(q1, s[1])));
    assert s[..2] == [s[0]] + [s[1]];
  }

  // ------------------------------------------------------- where it cuts --

  /** Nothing but the terminators is lost. */
  lemma {:induction false} CutLosesOnlyTerminators(s: string, q: Scan)
    ensures Join(Cut(s, q), ";") == s
  {
    if s != "" {
      if Terminates(q, s[0]) {
        CutLosesOnlyTerminators(s[1..], Plain);
        assert [s[0]] + s[1..] == s;
      } else {
        var rest := Cut(s[1..], Next(q, s[0]));
        CutLosesOnlyTerminators(s[1..], Next(q, s[0]));
        JoinPrepend([s[0]], rest);
      }
    }
  }

  lemma Regroup(a: string, b: string, c: string, d: string)
    ensures a + b + c + d == a + (b + c + d)
  {
  }

  lemma JoinPrepend(head: string, pieces: seq<string>)
    requires |pieces| >= 1
    ensures Join(Prepend(head, pieces), ";") == head + Join(pieces, ";")
  {
    var p := Prepend(head, pieces);
    assert p[0] == head + pieces[0] && p[1..] == pieces[1..];
    if |pieces| > 1 {
      Regroup(head, pieces[0], ";", Join(pieces[1..], ";"));
    }
  }

  /** The position of the k-th removed terminator in the joined text. */
  function CutPosition(pieces: seq<string>, k: nat): nat
    requires k < |pieces|
  {
    if k == 0 then |pieces[0]| else |pieces[0]| + 1 + CutPosition(pieces[1..], k - 1)
  }

  lemma CutPositionPrepend(head: string, pieces: seq<string>, k: nat)
    requires k < |pieces|
    ensures CutPosition(Prepend(head, pieces), k) == |head| + CutPosition(pieces, k)
  {
    assert Prepend(head, pieces)[1..] == pieces[1..];
  }

  /** Some terminator was removed at position `i`. */
  ghost predicate CutAt(pieces: seq<string>, i: int) {
    exists k :: 0 <= k < |pieces| - 1 && CutPosition(pieces, k) == i
  }

  lemma CutAtPrepend(c: char, pieces: seq<string>, i: int)
    requires |pieces| >= 1
    ensures CutAt(Prepend([c], pieces), i) <==> CutAt(pieces, i - 1)
  {
    var here := Prepend([c], pieces);
    forall k | 0 <= k < |pieces| ensures CutPosition(here, k) == 1 + CutPosition(pieces, k) {
      CutPositionPrepend([c], pieces, k);
    }
  }

  lemma CutAtAfter(pieces: seq<string>, i: int)
    requires |pieces| >= 1
    ensures CutAt([""] + pieces, i) <==> i == 0 || CutAt(pieces, i - 1)
  {
    var here := [""] + pieces;
    assert here[1..] == pieces;
    assert CutPosition(here, 0) == 0;
    forall k | 0 <= k < |pieces| ensures CutPosition(here, k + 1) == 1 + CutPosition(pieces, k) {}
    if CutAt(pieces, i - 1) {
      var k :| 0 <= k < |pieces| - 1 && CutPosition(pieces, k) == i - 1;
      assert CutPosition(here, k + 1) == i;
    }
    if CutAt(here, i) {
      var k :| 0 <= k < |here| - 1 && CutPosition(here, k) == i;
      if k > 0 {
        assert CutPosition(pieces, k - 1) == i - 1;
      }
    }
  }

  /** A position is cut exactly when it holds a semicolon and everything before
      it scans to a state outside comments and strings. */
  lemma {:induction false} CutsExactlyAtTerminators(s: string, q: Scan, i: nat)
    requires i < |s|
    ensures CutAt(Cut(s, q), i) <==> s[i] == ';' && ScanAll(q, s[..i]).Outside()
  {
    var q1 := Next(q, s[0]);
    var rest := Cut(s[1..], q1);
    if Terminates(q, s[0]) {
      CutAtAfter(rest, i);
    } else {
      CutAtPrepend(s[0], rest, i);
    }
    if i > 0 {
      CutsExactlyAtTerminators(s[1..], q1, i - 1);
      assert s[..i][0] == s[0] && s[..i][1..] == s[1..][..i - 1];
    } else {
      assert s[..0] == "";
    }
  }

  /** The splitter's result, by the reference scanner. */
  lemma SplitIsCut(sql: string)
    ensures Split(sql) == Statements(Cut(sql, Plain))
  {
    PiecesAreCut(sql, Normal, Plain);
  }

  // ------------------------------------------- splitting what was split --

  /** No terminator anywhere in `s`, scanned from `q`. */
  predicate NoCut(q: Scan, s: string)
    decreases |s|
  {
    s == "" || (!Terminates(q, s[0]) && NoCut(Next(q, s[0]), s[1..]))
  }

  lemma {:induction false} NoCutConcat(q: Scan, a: string, b: string)
    ensures NoCut(q, a + b) <==> NoCut(q, a) && NoCut(ScanAll(q, a), b)
    ensures ScanAll(q, a + b) == ScanAll(ScanAll(q, a), b)
    decreases |a|
  {
    if a == "" {
      assert a + b == b;
    } else {
      assert (a + b)[1..] == a[1..] + b;
      NoCutConcat(Next(q, a[0]), a[1..], b);
    }
  }

  lemma {:induction false} NoCutIsOnePiece(q: Scan, s: string)
    requires NoCut(q, s)
    ensures Cut(s, q) == [s]
    decreases |s|
  {
    if s != "" {
      NoCutIsOnePiece(Next(q, s[0]), s[1..]);
      assert [s[0]] + s[1..] == s;
    }
  }

  lemma {:induction false} CutAfterPiece(q: Scan, a: string, b: string)
    requires NoCut(q, a) && ScanAll(q, a).Outside()
    ensures Cut(a + ";" + b, q) == [a] + Cut(b, Plain)
    decreases |a|
  {
    var s := a + ";" + b;
    if a == "" {
      assert s[1..] == b;
    } else {
      assert s[1..] == a[1..] + ";" + b;
      CutAfterPiece(Next(q, a[0]), a[1..], b);
      assert [a[0]] + a[1..] == a;
      assert Prepend([a[0]], [a[1..]] + Cut(b, Plain)) == [a] + Cut(b, Plain);
    }
  }

  /** Every piece is free of terminators, and all but the last end outside. */
  lemma {:induction false} PiecesAreClean(s: string, q: Scan)
    ensures NoCut(q, Cut(s, q)[0])
    ensures |Cut(s, q)| > 1 ==> ScanAll(q, Cut(s, q)[0]).Outside()
    ensures forall j :: 1 <= j < |Cut(s, q)| ==> NoCut(Plain, Cut(s, q)[j])
    ensures forall j :: 1 <= j < |Cut(s, q)| - 1 ==> ScanAll(Plain, Cut(s, q)[j]).Outside()
    decreases |s|
  {
    if s != "" {
      var rest := Cut(s[1..], Next(q, s[0]));
      PiecesAreClean(s[1..], Next(q, s[0]));
      if Terminates(q, s[0]) {
        assert forall j :: 1 <= j < |Cut(s, q)| ==> Cut(s, q)[j] == rest[j - 1];
      } else {
        NoCutConcat(q, [s[0]], rest[0]);
        assert NoCut(q, [s[0]]) && ScanAll(q, [s[0]]) == Next(q, s[0]);
      }
    }
  }

  lemma {:induction false} TrimStartKeepsScan(s: string)
    ensures NoCut(Plain, s) ==> NoCut(Plain, TrimStart(s, Python))
    ensures ScanAll(Plain, TrimStart(s, Python)) == ScanAll(Plain, s)
    ensures TrimStart(s, Python) != "" ==> !IsBlank(TrimStart(s, Python)[0], Python)
  {
    if s != "" && IsBlank(s[0], Python) {
      assert Next(Plain, s[0]) == Plain;
      TrimStartKeepsScan(s[1..]);
    }
  }

  lemma {:induction false} TrimEndCuts(s: string) returns (w: string)
    ensures s == TrimEnd(s, Python) + w && AllBlank(w, Python)
    ensures TrimEnd(s, Python) != "" ==> !IsBlank(TrimEnd(s, Python)[|TrimEnd(s, Python)| - 1], Python)
  {
    if s != "" && IsBlank(s[|s| - 1], Python) {
      w := TrimEndCuts(s[..|s| - 1]);
      w := w + [s[|s| - 1]];
    } else {
      w := "";
    }
  }

  /** Whitespace closes nothing but a line comment. */
  lemma {:induction false} SpaceClosesOnlyLines(q: Scan, w: string)
    requires AllBlank(w, Python) && ScanAll(q, w).Outside()
    ensures Next(q, '\n').Outside()
    decreases |w|
  {
    if w != "" && (q == InBlock || q == Star || q == InString) {
      SpaceClosesOnlyLines(Next(q, w[0]), w[1..]);
    }
  }

  /** A statement as the splitter returns it, and one that a newline leaves
      outside comments and strings. */
  predicate Clean(st: string) { st != "" && Trimmed(st, Python) && NoCut(Plain, st) }

  predicate Closed(st: string) { Next(ScanAll(Plain, st), '\n').Outside() }

  predicate Separable(sts: seq<string>) {
    && (forall i :: 0 <= i < |sts| ==> Clean(sts[i]))
    && (forall i :: 0 <= i < |sts| - 1 ==> Closed(sts[i]))
  }

  lemma TrimIsClean(piece: string)
    requires NoCut(Plain, piece) && Trim(piece, Python) != ""
    ensures Clean(Trim(piece, Python))
    ensures ScanAll(Plain, piece).Outside() ==> Closed(Trim(piece, Python))
  {
    TrimStartKeepsScan(piece);
    var t := TrimStart(piece, Python);
    var w := TrimEndCuts(t);
    NoCutConcat(Plain, TrimEnd(t, Python), w);
    assert TrimEnd(t, Python)[0] == t[0];
    if ScanAll(Plain, piece).Outside() {
      SpaceClosesOnlyLines(ScanAll(Plain, TrimEnd(t, Python)), w);
    }
  }

  lemma {:induction false} StatementsAreSeparable(pieces: seq<string>)
    requires forall j :: 0 <= j < |pieces| ==> NoCut(Plain, pieces[j])
    requires forall j :: 0 <= j < |pieces| - 1 ==> ScanAll(Plain, pieces[j]).Outside()
    ensures Separable(Statements(pieces))
  {
    if pieces != [] {
      StatementsAreSeparable(pieces[1..]);
      if Trim(pieces[0], Python) != "" {
        TrimIsClean(pieces[0]);
        if |pieces| == 1 {
          assert Statements(pieces[1..]) == [];
        }
      }
    }
  }

  /** Splitting a returned statement returns that statement alone. */
  lemma StatementIsOneStatement(sql: string, st: string)
    requires st in Split(sql)
    ensures Split(st) == [st]
  {
    SplitIsCut(sql);
    PiecesAreClean(sql, Plain);
    StatementsAreSeparable(Cut(sql, Plain));
    SplitIsCut(st);
    NoCutIsOnePiece(Plain, st);
    TrimOfPadded("", st, "", Python);
    assert "" + st + "" == st;
    assert Statements([st]) == [st] + Statements([st][1..]);
  }

  lemma {:induction false} RejoinFrom(lead: string, sts: seq<string>)
    requires Separable(sts) && lead in ["", "\n"]
    ensures Statements(Cut(lead + Join(sts, "\n;\n"), Plain)) == sts
    decreases |sts|
  {
    hide Trim, Trimmed, NoCut, ScanAll, Cut;
    LeadIsPlain(lead);
    if sts == [] {
      assert lead + "" == lead;
      NoCutIsOnePiece(Plain, lead);
    } else {
      var st := sts[0];
      NoCutConcat(Plain, lead, st);
      if |sts| == 1 {
        NoCutIsOnePiece(Plain, lead + st);
        TrimOfPadded(lead, st, "", Python);
        assert lead + st + "" == lead + st;
        OneStatement(lead + st, []);
      } else {
        FirstThenRest(lead, sts);
        RejoinFrom("\n", sts[1..]);
      }
    }
  }

  lemma FirstThenRest(lead: string, sts: seq<string>)
    requires |sts| > 1 && Separable(sts) && lead in ["", "\n"]
    ensures Statements(Cut(lead + Join(sts, "\n;\n"), Plain))
         == [sts[0]] + Statements(Cut("\n" + Join(sts[1..], "\n;\n"), Plain))
  {
    hide Trim, Trimmed, NoCut, ScanAll, Cut, Join, Statements;
    var st := sts[0];
    var piece, rest := lead + st + "\n", "\n" + Join(sts[1..], "\n;\n");
    LeadIsPlain(lead);
    NoCutConcat(Plain, lead, st);
    NoCutConcat(Plain, lead + st, "\n");
    EndOfLine(ScanAll(Plain, st));
    JoinFirst(lead, sts);
    CutAfterPiece(Plain, piece, rest);
    TrimOfPadded(lead, st, "\n", Python);
    OneStatement(piece, Cut(rest, Plain));
  }

  lemma LeadIsPlain(lead: string)
    requires lead in ["", "\n"]
    ensures ScanAll(Plain, lead) == Plain && NoCut(Plain, lead) && Trim(lead, Python) == ""
  {
    if lead == "\n" {
      assert lead[1..] == "";
    }
  }

  lemma OneStatement(piece: string, rest: seq<string>)
    requires Trim(piece, Python) != ""
    ensures Statements([piece] + rest) == [Trim(piece, Python)] + Statements(rest)
  {
    assert ([piece] + rest)[1..] == rest;
  }

  lemma JoinFirst(lead: string, sts: seq<string>)
    requires |sts| > 1
    ensures lead + Join(sts, "\n;\n") == lead + sts[0] + "\n" + ";" + ("\n" + Join(sts[1..], "\n;\n"))
  {
    var tail := Join(sts[1..], "\n;\n");
    Regroup(lead, sts[0], "\n;\n", tail);
    Separator(lead + sts[0], tail);
  }

  lemma Separator(a: string, b: string)
    ensures a + "\n;\n" + b == a + "\n" + ";" + ("\n" + b)
  {
  }

  lemma EndOfLine(q: Scan)
    ensures NoCut(q, "\n") && ScanAll(q, "\n") == Next(q, '\n')
  {
  }

  /** Joining the statements back with a semicolon on its own line loses
      nothing: the list splits out again, in the same order. */
  lemma {:induction false} SplitInvertsRejoin(sql: string)
    ensures Split(Join(Split(sql), "\n;\n")) == Split(sql)
  {
    SplitIsCut(sql);
    PiecesAreClean(sql, Plain);
    StatementsAreSeparable(Cut(sql, Plain));
    var joined := Join(Split(sql), "\n;\n");
    assert "" + joined == joined;
    RejoinFrom("", Split(sql));
    SplitIsCut(joined);
  }
}
