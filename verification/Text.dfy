/** Optional values, as the Rust code's `Option` with `?`. */
module Wrappers {

  datatype Option<+T> = None | Some(value: T) {
    predicate IsFailure() { None? }

    function PropagateFailure<U>(): Option<U>
      requires None?
    {
      None
    }

    function Extract(): T
      requires Some?
    {
      value
    }
  }
}

/** Success or a reason, as Rust's `Result`. */
module Results {

  datatype Result<+T, +E> = Ok(value: T) | Err(error: E)
}

/** Splitting sequences at a separator: `str::split`, `str::split_once`,
    `slice::join`. */
module Splitting {
  import opened Wrappers

  /** All pieces between separators; never empty. */
  function SplitOn<T(==)>(s: seq<T>, c: T): (r: seq<seq<T>>)
    ensures |r| >= 1
  {
    if s == [] then [[]]
    else if s[0] == c then [[]] + SplitOn(s[1..], c)
    else var rest := SplitOn(s[1..], c); [[s[0]] + rest[0]] + rest[1..]
  }

  /** The text before and after the first separator. */
  function SplitOnce<T(==)>(s: seq<T>, c: T): Option<(seq<T>, seq<T>)> {
    if s == [] then None
    else if s[0] == c then Some(([], s[1..]))
    else
      var (before, after) :- SplitOnce(s[1..], c);
      Some(([s[0]] + before, after))
  }

  function Join<T>(pieces: seq<seq<T>>, c: seq<T>): seq<T> {
    if |pieces| == 0 then []
    else if |pieces| == 1 then pieces[0]
    else pieces[0] + c + Join(pieces[1..], c)
  }

  lemma {:induction false} SplitFirst<T>(a: seq<T>, c: T, b: seq<T>)
    requires c !in a
    ensures SplitOn(a + [c] + b, c) == [a] + SplitOn(b, c)
    ensures SplitOnce(a + [c] + b, c) == Some((a, b))
  {
    var s := a + [c] + b;
    if a == [] {
      assert s[1..] == b;
    } else {
      assert s[1..] == a[1..] + [c] + b;
      SplitFirst(a[1..], c, b);
      assert [s[0]] + a[1..] == a;
    }
  }

  lemma {:induction false} SplitNone<T>(a: seq<T>, c: T)
    requires c !in a
    ensures SplitOn(a, c) == [a]
    ensures SplitOnce(a, c) == None
  {
    if a != [] {
      SplitNone(a[1..], c);
      assert [a[0]] + a[1..] == a;
    }
  }

  /** The parts stand where they were, the separator between them. */
  lemma {:induction false} SplitOnceParts<T>(s: seq<T>, c: T)
    ensures SplitOnce(s, c).Some? ==>
              var (before, after) := SplitOnce(s, c).value;
              s == before + [c] + after && c !in before
    decreases |s|
  {
    if s != [] && s[0] != c {
      SplitOnceParts(s[1..], c);
    }
  }

  /** Joining undoes splitting, and no piece holds the separator. */
  lemma {:induction false} JoinInvertsSplit<T>(s: seq<T>, c: T)
    ensures Join(SplitOn(s, c), [c]) == s
    ensures forall p :: p in SplitOn(s, c) ==> c !in p
    decreases |s|
  {
    if s != [] {
      var rest := SplitOn(s[1..], c);
      JoinInvertsSplit(s[1..], c);
      if s[0] == c {
        assert ([[]] + rest)[1..] == rest;
        assert Join([[]] + rest, [c]) == [] + [c] + s[1..];
      } else {
        var pieces := [[s[0]] + rest[0]] + rest[1..];
        assert pieces[1..] == rest[1..];
        assert Join(pieces, [c]) == [s[0]] + s[1..];
      }
    }
  }

  /** Splitting undoes joining when no piece holds the separator. */
  lemma {:induction false} SplitInvertsJoin<T>(pieces: seq<seq<T>>, c: T)
    requires |pieces| >= 1
    requires forall p :: p in pieces ==> c !in p
    ensures SplitOn(Join(pieces, [c]), c) == pieces
    decreases |pieces|
  {
    if |pieces| == 1 {
      SplitNone(pieces[0], c);
    } else {
      var rest := Join(pieces[1..], [c]);
      assert Join(pieces, [c]) == pieces[0] + [c] + rest;
      SplitInvertsJoin(pieces[1..], c);
      hide Join, SplitOn;
      SplitFirst(pieces[0], c, rest);
      assert pieces == [pieces[0]] + pieces[1..];
    }
  }
}

/** Whitespace at the ends of text. */
module Trimming {

  /** Rust's `trim` and `split_whitespace` use Unicode White_Space; Python's
      `strip` removes the four information separators too. */
  datatype Language = Rust | Python

  predicate IsBlank(c: char, language: Language) {
    var n := c as int;
    9 <= n <= 13 || n == 0x20 || (language == Python && 0x1C <= n <= 0x1F) || n == 0x85 || n == 0xA0 || n == 0x1680
    || 0x2000 <= n <= 0x200A || n == 0x2028 || n == 0x2029 || n == 0x202F || n == 0x205F || n == 0x3000
  }

  predicate AllBlank(s: string, language: Language) { forall i :: 0 <= i < |s| ==> IsBlank(s[i], language) }

  function TrimStart(s: string, language: Language): string {
    if s != "" && IsBlank(s[0], language) then TrimStart(s[1..], language) else s
  }

  function TrimEnd(s: string, language: Language): string {
    if s != "" && IsBlank(s[|s| - 1], language) then TrimEnd(s[..|s| - 1], language) else s
  }

  function Trim(s: string, language: Language): string { TrimEnd(TrimStart(s, language), language) }

  /** No whitespace at either end. */
  predicate Trimmed(s: string, language: Language) {
    s != "" ==> !IsBlank(s[0], language) && !IsBlank(s[|s| - 1], language)
  }

  lemma {:induction false} TrimStartSkips(blank: string, s: string, language: Language)
    requires AllBlank(blank, language) && (s != "" ==> !IsBlank(s[0], language))
    ensures TrimStart(blank + s, language) == s
  {
    if blank == "" {
      assert blank + s == s;
    } else {
      assert (blank + s)[1..] == blank[1..] + s;
      TrimStartSkips(blank[1..], s, language);
    }
  }

  lemma {:induction false} TrimEndSkips(s: string, blank: string, language: Language)
    requires AllBlank(blank, language) && (s != "" ==> !IsBlank(s[|s| - 1], language))
    ensures TrimEnd(s + blank, language) == s
  {
    if blank == "" {
      assert s + blank == s;
    } else {
      var n := |blank| - 1;
      assert (s + blank)[..|s| + n] == s + blank[..n];
      TrimEndSkips(s, blank[..n], language);
    }
  }

  /** Trimming removes exactly the blank ends. */
  lemma TrimOfPadded(lead: string, s: string, trail: string, language: Language)
    requires AllBlank(lead, language) && AllBlank(trail, language)
    requires s != "" && Trimmed(s, language)
    ensures Trim(lead + s + trail, language) == s
  {
    assert lead + s + trail == lead + (s + trail);
    TrimStartSkips(lead, s + trail, language);
    TrimEndSkips(s, trail, language);
  }
}

/** `str::split_whitespace`. */
module Whitespace {
  import opened Trimming

  predicate IsWhitespace(c: char) { IsBlank(c, Rust) }

  function WordLength(s: string): (n: nat)
    ensures n <= |s|
    ensures forall i :: 0 <= i < n ==> !IsWhitespace(s[i])
    ensures n < |s| ==> IsWhitespace(s[n])
  {
    if s == "" || IsWhitespace(s[0]) then 0 else 1 + WordLength(s[1..])
  }

  /** `split_whitespace`: maximal runs without whitespace. */
  function Words(s: string): seq<string>
    decreases |s|
  {
    if s == "" then []
    else if IsWhitespace(s[0]) then Words(s[1..])
    else var n := WordLength(s); assert n > 0; [s[..n]] + Words(s[n..])
  }

  predicate NoWhitespace(s: string) { forall i :: 0 <= i < |s| ==> !IsWhitespace(s[i]) }

  lemma {:induction false} WordEnds(w: string, rest: string)
    requires NoWhitespace(w) && (rest == "" || IsWhitespace(rest[0]))
    ensures WordLength(w + rest) == |w|
  {
    if w == "" {
      assert w + rest == rest;
    } else {
      assert (w + rest)[1..] == w[1..] + rest;
      WordEnds(w[1..], rest);
    }
  }

  lemma {:induction false} FirstWord(w: string, rest: string)
    requires w != "" && NoWhitespace(w) && (rest == "" || IsWhitespace(rest[0]))
    ensures Words(w + rest) == [w] + Words(rest)
  {
    WordEnds(w, rest);
    assert (w + rest)[..|w|] == w && (w + rest)[|w|..] == rest;
  }

  lemma AfterSpace(s: string)
    ensures Words(" " + s) == Words(s)
  {
    assert (" " + s)[1..] == s;
  }

  lemma ThreeWords(a: string, b: string, c: string)
    requires a != "" && b != "" && c != ""
    requires NoWhitespace(a) && NoWhitespace(b) && NoWhitespace(c)
    ensures Words(a + " " + (b + (" " + c))) == [a, b, c]
    ensures Words(" " + (a + " " + (b + (" " + c)))) == [a, b, c]
  {
    hide Words;
    assert Words(c) == [c] by {
      FirstWord(c, "");
      NoWords();
      assert c + "" == c;
    }
    FirstWord(b, " " + c);
    AfterSpace(c);
    FirstWord(a, " " + (b + (" " + c)));
    AfterSpace(b + (" " + c));
    assert a + " " + (b + (" " + c)) == a + (" " + (b + (" " + c)));
    AfterSpace(a + " " + (b + (" " + c)));
  }

  lemma NoWords()
    ensures Words("") == []
  {
  }
}

/** Byte order on text, as Rust's `str` comparison and SQLite's BINARY
    collation have it. */
module TextOrder {

  predicate Less(a: string, b: string) {
    if b == "" then false
    else if a == "" then true
    else a[0] < b[0] || (a[0] == b[0] && Less(a[1..], b[1..]))
  }

  predicate AtMost(a: string, b: string) { a == b || Less(a, b) }

  lemma {:induction false} LessIsStrict(a: string, b: string)
    ensures !(Less(a, b) && Less(b, a))
    ensures !Less(a, a)
  {
    if a != "" {
      LessIsStrict(a[1..], if b != "" then b[1..] else "");
    }
  }

  /** A common prefix does not matter; a smaller one of equal length decides. */
  lemma {:induction false} LessThroughPrefix(p: string, q: string, a: string, b: string)
    requires |p| == |q|
    ensures Less(p + a, q + b) <==> Less(p, q) || (p == q && Less(a, b))
  {
    if p == "" {
      assert p + a == a && q + b == b;
    } else {
      assert (p + a)[1..] == p[1..] + a && (q + b)[1..] == q[1..] + b;
      LessThroughPrefix(p[1..], q[1..], a, b);
      assert p == q <==> p[0] == q[0] && p[1..] == q[1..];
    }
  }
}

/** ASCII letters and hexadecimal digits. */
module Letters {
  import opened Wrappers

  function HexValue(c: char): (r: Option<nat>)
    ensures r.Some? ==> r.value < 16
  {
    if '0' <= c <= '9' then Some(c as int - '0' as int)
    else if 'a' <= c <= 'f' then Some(c as int - 'a' as int + 10)
    else if 'A' <= c <= 'F' then Some(c as int - 'A' as int + 10)
    else None
  }

  function Lower(c: char): char { if 'A' <= c <= 'Z' then (c as int + 32) as char else c }
}

/** Decimal text: Rust's `{:0w}` formatting and `parse` for u32 and i64. */
module Decimal {
  import opened Wrappers
  import opened TextOrder

  predicate IsDigit(c: char) { '0' <= c <= '9' }

  predicate AllDigits(s: string) { forall i :: 0 <= i < |s| ==> IsDigit(s[i]) }

  function DigitChar(n: nat): (c: char)
    requires n < 10
    ensures IsDigit(c)
  {
    '0' + n as char
  }

  function Digits(n: nat): (s: string)
    ensures |s| >= 1 && AllDigits(s)
  {
    if n < 10 then [DigitChar(n)] else Digits(n / 10) + [DigitChar(n % 10)]
  }

  function ZeroFill(s: string, width: nat): (r: string)
    ensures AllDigits(s) ==> AllDigits(r)
    ensures |r| >= |s| && |r| >= width
    decreases width - |s|
  {
    if |s| >= width then s else ZeroFill("0" + s, width)
  }

  /** `format!("{:0width}", n)`: the sign counts toward the width. */
  function Padded(n: int, width: nat): (s: string)
    ensures n >= 0 ==> AllDigits(s) && |s| >= 1
    ensures n < 0 ==> |s| >= 1 && s[0] == '-'
  {
    if n < 0 then "-" + ZeroFill(Digits(-n), if width == 0 then 0 else width - 1)
    else ZeroFill(Digits(n), width)
  }

  function DigitValue(c: char): nat
    requires IsDigit(c)
  {
    c as int - '0' as int
  }

  function ValueOf(s: string): nat
    requires AllDigits(s)
  {
    if s == "" then 0 else 10 * ValueOf(s[..|s| - 1]) + DigitValue(s[|s| - 1])
  }

  function ParseDigits(s: string): (r: Option<int>)
    ensures r.Some? ==> r.value >= 0
  {
    if s != "" && AllDigits(s) then Some(ValueOf(s)) else None
  }

  const U32_MAX: nat := 0xFFFF_FFFF
  const I64_MAX: nat := 0x7FFF_FFFF_FFFF_FFFF

  /** `str::parse` for an unsigned type: an optional plus, digits, no overflow. */
  function ParseUnsigned(s: string, max: nat): (r: Option<int>)
    ensures r.Some? ==> 0 <= r.value <= max
  {
    var n :- ParseDigits(if s != "" && s[0] == '+' then s[1..] else s);
    if n <= max then Some(n) else None
  }

  function ParseU32(s: string): (r: Option<int>)
    ensures r.Some? ==> 0 <= r.value <= U32_MAX
  {
    ParseUnsigned(s, U32_MAX)
  }

  /** `str::parse::<i64>`: an optional sign, digits, no overflow. */
  function ParseI64(s: string): Option<int> {
    if s != "" && s[0] == '-' then
      match ParseDigits(s[1..])
      case Some(n) => if n <= I64_MAX + 1 then Some(-n) else None
      case None => None
    else
      match ParseDigits(if s != "" && s[0] == '+' then s[1..] else s)
      case Some(n) => if n <= I64_MAX then Some(n) else None
      case None => None
  }

  lemma {:induction false} ValueOfDigits(n: nat)
    ensures ValueOf(Digits(n)) == n
  {
    if n < 10 {
      assert Digits(n)[..0] == "";
    } else {
      ValueOfDigits(n / 10);
      assert Digits(n)[..|Digits(n)| - 1] == Digits(n / 10);
    }
  }

  lemma {:induction false} ValueOfZero(s: string)
    requires AllDigits(s)
    ensures AllDigits("0" + s) && ValueOf("0" + s) == ValueOf(s)
  {
    var t := "0" + s;
    if s == "" {
      assert t[..0] == "";
    } else {
      assert t[..|t| - 1] == "0" + s[..|s| - 1];
      ValueOfZero(s[..|s| - 1]);
    }
  }

  lemma {:induction false} ValueOfZeroFill(s: string, width: nat)
    requires AllDigits(s)
    ensures ValueOf(ZeroFill(s, width)) == ValueOf(s)
    decreases width - |s|
  {
    if |s| < width {
      ValueOfZero(s);
      ValueOfZeroFill("0" + s, width);
    }
  }

  /** Parsing reads back what formatting wrote. */
  lemma ParsePadded(n: nat, width: nat)
    ensures ParseDigits(Padded(n, width)) == Some(n)
    ensures n <= U32_MAX ==> ParseU32(Padded(n, width)) == Some(n)
    ensures n <= I64_MAX ==> ParseI64(Padded(n, width)) == Some(n)
  {
    ValueOfDigits(n);
    ValueOfZeroFill(Digits(n), width);
  }

  function Power10(w: nat): (p: nat)
    ensures p >= 1
  {
    if w == 0 then 1 else 10 * Power10(w - 1)
  }

  /** A number below 10^w takes exactly w digits. */
  lemma {:induction false} DigitsFit(n: nat, w: nat)
    requires w >= 1 && n < Power10(w)
    ensures |Digits(n)| <= w
  {
    if n >= 10 {
      DigitsFit(n / 10, w - 1);
    }
  }

  lemma {:induction false} ZeroFillLength(s: string, width: nat)
    requires |s| <= width
    ensures |ZeroFill(s, width)| == width
    decreases width - |s|
  {
    if |s| < width {
      ZeroFillLength("0" + s, width);
    }
  }

  lemma PaddedWidth(n: nat, w: nat)
    requires w >= 1 && n < Power10(w)
    ensures |Padded(n, w)| == w
  {
    DigitsFit(n, w);
    ZeroFillLength(Digits(n), w);
  }

  /** Between digit strings of one length, text order is numeric order. */
  lemma {:induction false} DigitOrder(a: string, b: string)
    requires AllDigits(a) && AllDigits(b) && |a| == |b|
    ensures Less(a, b) <==> ValueOf(a) < ValueOf(b)
    ensures a == b <==> ValueOf(a) == ValueOf(b)
  {
    if a != "" {
      var n := |a| - 1;
      DigitOrder(a[..n], b[..n]);
      assert a == a[..n] + [a[n]] && b == b[..n] + [b[n]];
      LessThroughPrefix(a[..n], b[..n], [a[n]], [b[n]]);
      assert Less([a[n]], [b[n]]) <==> a[n] < b[n];
    }
  }

  lemma ShiftDigits(a: int, p: int, b: int, d: int)
    ensures 10 * (a * p + b) + d == a * (10 * p) + (10 * b + d)
  {
  }

  lemma LastDigit(s: string)
    requires AllDigits(s) && s != ""
    ensures ValueOf(s) == 10 * ValueOf(s[..|s| - 1]) + DigitValue(s[|s| - 1])
  {
  }

  /** Digits read left to right: the left part counts for the places on its
      right. */
  lemma {:induction false} ValueOfConcat(a: string, b: string)
    requires AllDigits(a) && AllDigits(b)
    ensures AllDigits(a + b) && ValueOf(a + b) == ValueOf(a) * Power10(|b|) + ValueOf(b)
    decreases |b|
  {
    if b == "" {
      assert a + b == a;
    } else {
      var n := |b| - 1;
      assert (a + b)[..|a + b| - 1] == a + b[..n];
      LastDigit(a + b);
      LastDigit(b);
      hide ValueOf;
      ValueOfConcat(a, b[..n]);
      ShiftDigits(ValueOf(a), Power10(n), ValueOf(b[..n]), DigitValue(b[n]));
    }
  }

  lemma {:induction false} ValueIsBelow(s: string)
    requires AllDigits(s)
    ensures ValueOf(s) < Power10(|s|)
    decreases |s|
  {
    if s != "" {
      ValueIsBelow(s[..|s| - 1]);
    }
  }

  lemma {:induction false} PowerSum(m: nat, n: nat)
    ensures Power10(m + n) == Power10(m) * Power10(n)
  {
    if n > 0 {
      PowerSum(m, n - 1);
      assert 10 * (Power10(m) * Power10(n - 1)) == Power10(m) * (10 * Power10(n - 1));
    }
  }

  lemma ZeroFillIsWide(s: string, width: nat)
    ensures |ZeroFill(s, width)| == if |s| < width then width else |s|
    ensures |s| >= width ==> ZeroFill(s, width) == s
    decreases width - |s|
  {
  }

  /** More digits only for larger numbers. */
  lemma {:induction false} DigitsGrow(m: nat, n: nat)
    requires m <= n
    ensures |Digits(m)| <= |Digits(n)|
    decreases n
  {
    if m >= 10 {
      DigitsGrow(m / 10, n / 10);
    }
  }

  /** One more digit than the number before: a power of ten after nines. */
  lemma {:induction false} DigitStep(n: nat)
    requires n >= 1 && |Digits(n - 1)| != |Digits(n)|
    ensures Digits(n)[0] == '1' && Digits(n - 1)[0] == '9' && |Digits(n)| == |Digits(n - 1)| + 1
    ensures n >= 2 ==> |Digits(n - 2)| == |Digits(n - 1)|
    decreases n
  {
    if n > 10 {
      assert n / 10 == (n - 1) / 10 || (n % 10 == 0 && (n - 1) / 10 == n / 10 - 1 && (n - 2) / 10 == (n - 1) / 10);
      DigitStep(n / 10);
    } else {
      assert n == 10;
      assert Digits(10) == Digits(1) + ['0'] && Digits(9) == ['9'] && Digits(8) == ['8'];
    }
  }

  /** Numbers of one printed width sort as text as they sort as numbers. */
  lemma SameWidthOrder(m: nat, n: nat, w: nat)
    requires |Padded(m, w)| == |Padded(n, w)|
    ensures Less(Padded(m, w), Padded(n, w)) <==> m < n
  {
    ParsePadded(m, w);
    ParsePadded(n, w);
    DigitOrder(Padded(m, w), Padded(n, w));
  }

  lemma PaddedOrder(m: nat, n: nat, w: nat)
    requires w >= 1 && m < Power10(w) && n < Power10(w)
    ensures Less(Padded(m, w), Padded(n, w)) <==> m < n
    ensures Padded(m, w) == Padded(n, w) <==> m == n
    ensures |Padded(m, w)| == |Padded(n, w)|
  {
    PaddedWidth(m, w);
    PaddedWidth(n, w);
    ParsePadded(m, w);
    ParsePadded(n, w);
    DigitOrder(Padded(m, w), Padded(n, w));
  }
}
