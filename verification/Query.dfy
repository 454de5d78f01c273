/** The query string between the shell's proxy, which writes it, and the
    server, which reads it. Strings are their UTF-8 bytes; a URL is text. */
module Query {
  import opened Wrappers
  import opened Letters
  import opened Splitting
  import opened TextOrder
  import opened Utf8

  type Str = seq<byte>

  // -------------------------------------------------------------- writing --

  predicate Unreserved(b: byte) {
    65 <= b <= 90 || 97 <= b <= 122 || 48 <= b <= 57 || b in [45, 95, 46, 126]
  }

  function HexUpper(n: int): char
    requires 0 <= n < 16
  {
    if n < 10 then ('0' as int + n) as char else ('A' as int + n - 10) as char
  }

  function EncodeByte(b: byte): (s: string)
    ensures forall i :: 0 <= i < |s| ==> s[i] !in "&=?#+" && s[i] as int < 128
  {
    if Unreserved(b) then [b as char] else ['%', HexUpper(b / 16), HexUpper(b % 16)]
  }

  function PercentEncode(s: Str): (r: string)
    ensures forall i :: 0 <= i < |r| ==> r[i] !in "&=?#+" && r[i] as int < 128
  {
    if s == [] then "" else EncodeByte(s[0]) + PercentEncode(s[1..])
  }

  method PercentEncodeLoop(input: Str) returns (out: string)
    ensures out == PercentEncode(input)
  {
    out := "";
    for i := 0 to |input|
      invariant out + PercentEncode(input[i..]) == PercentEncode(input)
    {
      EncodeNext(out, input, i);
      hide PercentEncode;
      var b := input[i];
      if Unreserved(b) {
        out := out + [b as char];
      } else {
        out := out + ['%', HexUpper(b / 16), HexUpper(b % 16)];
      }
    }
  }

  /** Letters, digits and `-_.~` stay as they are; every other byte becomes a
      percent sign and its two upper-case hexadecimal digits. */
  lemma EscapesWhatItMust(b: byte, rest: Str)
    ensures var c, hex := b as char, "0123456789ABCDEF";
            var plain := 'A' <= c <= 'Z' || 'a' <= c <= 'z' || '0' <= c <= '9' || c == '-' || c == '_' || c == '.' || c == '~';
            PercentEncode([b] + rest) == (if plain then [c] else ['%', hex[b / 16], hex[b % 16]]) + PercentEncode(rest)
  {
    var s := [b] + rest;
    assert s[1..] == rest && s[0] == b;
    HexLetter(b / 16);
    HexLetter(b % 16);
  }

  lemma HexLetter(n: int)
    requires 0 <= n < 16
    ensures HexUpper(n) == "0123456789ABCDEF"[n]
  {
  }

  lemma EncodeNext(out: string, input: Str, i: nat)
    requires i < |input|
    ensures out + PercentEncode(input[i..]) == out + EncodeByte(input[i]) + PercentEncode(input[i + 1..])
  {
    assert input[i..][1..] == input[i + 1..];
  }

  function PairText(key: Str, value: Str): string { PercentEncode(key) + "=" + PercentEncode(value) }

  /** The text of the pair of one of these keys. */
  ghost predicate IsPairOf(text: string, keys: set<Str>, query: map<Str, Str>)
    requires keys <= query.Keys
  {
    exists k :: k in keys && text == PairText(k, query[k])
  }

  predicate StrictlySorted(pairs: seq<string>) {
    forall i, j :: 0 <= i < j < |pairs| ==> Less(pairs[i], pairs[j])
  }

  /** The pairs of a query map, each once, in text order. */
  ghost predicate Renders(pairs: seq<string>, query: map<Str, Str>) {
    && StrictlySorted(pairs)
    && (forall i :: 0 <= i < |pairs| ==> IsPairOf(pairs[i], query.Keys, query))
    && (forall k :: k in query ==> PairText(k, query[k]) in pairs)
  }

  function Insert(pair: string, sorted: seq<string>): seq<string> {
    if sorted == [] || Less(pair, sorted[0]) then [pair] + sorted
    else [sorted[0]] + Insert(pair, sorted[1..])
  }

  function Sort(pairs: seq<string>): seq<string> {
    if pairs == [] then [] else Insert(pairs[0], Sort(pairs[1..]))
  }

  /** Pairs for exactly these keys, in any order, none twice. */
  ghost predicate Collected(pairs: seq<string>, keys: set<Str>, query: map<Str, Str>)
    requires keys <= query.Keys
  {
    && (forall i :: 0 <= i < |pairs| ==> IsPairOf(pairs[i], keys, query))
    && (forall k :: k in keys ==> PairText(k, query[k]) in pairs)
    && (forall i, j :: 0 <= i < j < |pairs| ==> pairs[i] != pairs[j])
  }

  lemma CollectNext(pairs: seq<string>, keys: set<Str>, k: Str, query: map<Str, Str>)
    requires keys <= query.Keys && Collected(pairs, keys, query) && k in query && k !in keys
    requires forall x :: x in query ==> ValidUtf8(x)
    ensures Collected(pairs + [PairText(k, query[k])], keys + {k}, query)
  {
    hide PairText;
    var pair := PairText(k, query[k]);
    forall other | other in keys ensures PairText(other, query[other]) != pair {
      PairsDiffer(k, query[k], other, query[other]);
    }
    var more := pairs + [pair];
    forall i | 0 <= i < |more| ensures IsPairOf(more[i], keys + {k}, query) {
      if i < |pairs| {
        assert IsPairOf(pairs[i], keys, query);
        var x :| x in keys && pairs[i] == PairText(x, query[x]);
        assert x in keys + {k} && more[i] == PairText(x, query[x]);
      } else {
        assert k in keys + {k} && more[i] == PairText(k, query[k]);
      }
    }
  }

  lemma SortedRenders(pairs: seq<string>, query: map<Str, Str>)
    requires Collected(pairs, query.Keys, query)
    ensures Renders(Sort(pairs), query)
  {
    hide PairText, Sort;
    SortSorts(pairs);
    var sorted := Sort(pairs);
    forall i | 0 <= i < |sorted| ensures IsPairOf(sorted[i], query.Keys, query) {
      assert sorted[i] in pairs;
      var j :| 0 <= j < |pairs| && pairs[j] == sorted[i];
    }
  }

  /** Path plus the encoded query. */
  method WithQuery(path: string, query: Option<map<Str, Str>>) returns (url: string, ghost pairs: seq<string>)
    requires query.Some? ==> forall k :: k in query.value ==> ValidUtf8(k)
    ensures query == None || query.value == map[] ==> url == path
    ensures query.Some? && query.value != map[] ==>
              && Renders(pairs, query.value)
              && url == path + (if '?' in path then "&" else "?") + Join(pairs, "&")
  {
    pairs := [];
    if query == None || query.value == map[] {
      return path, [];
    }
    var q := query.value;
    var unsorted: seq<string> := [];
    var keys := q.Keys;
    assert q.Keys - keys == {};
    while keys != {}
      invariant keys <= q.Keys
      invariant Collected(unsorted, q.Keys - keys, q)
      decreases |keys|
    {
      hide Collected, PercentEncode;
      var k :| k in keys;
      CollectNext(unsorted, q.Keys - keys, k, q);
      assert q.Keys - keys + {k} == q.Keys - (keys - {k});
      var encodedKey := PercentEncodeLoop(k);
      var encodedValue := PercentEncodeLoop(q[k]);
      unsorted := unsorted + [encodedKey + "=" + encodedValue];
      keys := keys - {k};
    }
    assert q.Keys - keys == q.Keys;
    hide Collected, Sort, Renders;
    SortedRenders(unsorted, q);
    var sorted := Sort(unsorted);
    pairs := sorted;
    var separator := if '?' in path then "&" else "?";
    url := path + separator + Join(sorted, "&");
  }

  // -------------------------------------------------------------- reading --

  function HexByte(b: byte): Option<byte> {
    match HexValue(b as char)
    case Some(n) => Some(n)
    case None => None
  }

  /** The byte of the escape at the head of `s`, when it is a valid one. */
  function EscapeAt(s: seq<byte>): (r: Option<byte>) {
    if |s| < 3 || HexByte(s[1]) == None || HexByte(s[2]) == None then None
    else
      HexBelow16(s[1]);
      HexBelow16(s[2]);
      var v: byte := HexByte(s[1]).value * 16 + HexByte(s[2]).value;
      Some(v)
  }

  lemma HexBelow16(b: byte)
    ensures HexByte(b).Some? ==> HexByte(b).value < 16
  {
  }

  /** The decoded bytes, or nothing when an escape is malformed. */
  function DecodeBytes(s: seq<byte>): Option<seq<byte>> {
    if s == [] then Some([])
    else if s[0] == 43 then
      var rest :- DecodeBytes(s[1..]);
      Some([32] + rest)
    else if s[0] == 37 then
      var b :- EscapeAt(s);
      var rest :- DecodeBytes(s[3..]);
      Some([b] + rest)
    else
      var rest :- DecodeBytes(s[1..]);
      Some([s[0]] + rest)
  }

  /** A malformed escape, or bytes that are not UTF-8, leave the raw text. */
  function Decoded(raw: string): Str {
    if '%' !in raw && '+' !in raw then Encode(raw)
    else match DecodeBytes(Encode(raw))
      case None => Encode(raw)
      case Some(out) => if ValidUtf8(out) then out else Encode(raw)
  }

  method DecodeComponent(raw: string) returns (text: Str)
    ensures text == Decoded(raw)
  {
    if '%' !in raw && '+' !in raw {
      return Encode(raw);
    }
    var input := Encode(raw);
    var out: seq<byte> := [];
    var index := 0;
    assert input[0..] == input && forall rest: seq<byte> :: [] + rest == rest;
    while index < |input|
      invariant 0 <= index <= |input|
      invariant DecodeBytes(input) == match DecodeBytes(input[index..])
                                      case None => None
                                      case Some(rest) => Some(out + rest)
    {
      DecodeStep(out, input[index..]);
      if input[index] == 43 {
        assert input[index..][1..] == input[index + 1..];
        out := out + [32];
        index := index + 1;
      } else if input[index] == 37 {
        var decoded := EscapeAt(input[index..]);
        if decoded == None {
          return Encode(raw);
        }
        assert input[index..][3..] == input[index + 3..];
        out := out + [decoded.value];
        index := index + 3;
      } else {
        assert input[index..][1..] == input[index + 1..];
        out := out + [input[index]];
        index := index + 1;
      }
    }
    assert input[index..] == [] && out + [] == out;
    if ValidUtf8(out) {
      return out;
    }
    return Encode(raw);
  }

  lemma DecodeStep(out: seq<byte>, s: seq<byte>)
    requires s != []
    ensures s[0] == 43 ==>
              match DecodeBytes(s[1..])
              case None => DecodeBytes(s) == None
              case Some(rest) => DecodeBytes(s).Some? && out + DecodeBytes(s).value == out + [32] + rest
    ensures s[0] == 37 && EscapeAt(s).Some? ==>
              match DecodeBytes(s[3..])
              case None => DecodeBytes(s) == None
              case Some(rest) => DecodeBytes(s).Some? && out + DecodeBytes(s).value == out + [EscapeAt(s).value] + rest
    ensures s[0] != 43 && s[0] != 37 ==>
              match DecodeBytes(s[1..])
              case None => DecodeBytes(s) == None
              case Some(rest) => DecodeBytes(s).Some? && out + DecodeBytes(s).value == out + [s[0]] + rest
  {
  }

  /** What follows the first question mark, up to a fragment. */
  function UriQuery(url: string): Option<string> {
    match SplitOnce(SplitOn(url, '#')[0], '?')
    case None => None
    case Some((_, query)) => Some(query)
  }

  function ParsePair(piece: string): (Str, Str) {
    match SplitOnce(piece, '=')
    case Some((name, value)) => (Decoded(name), Decoded(value))
    case None => (Decoded(piece), [])
  }

  function ParsePieces(pieces: seq<string>): seq<(Str, Str)> {
    if pieces == [] then []
    else (if pieces[0] == "" then [] else [ParsePair(pieces[0])]) + ParsePieces(pieces[1..])
  }

  /** Decoded pairs in the order the query carried them. */
  function Parse(url: string): seq<(Str, Str)> {
    match UriQuery(url)
    case None => []
    case Some(query) => ParsePieces(SplitOn(query, '&'))
  }

  /** The last value for a name. */
  function Get(pairs: seq<(Str, Str)>, name: Str): Option<Str> {
    if pairs == [] then None
    else if pairs[|pairs| - 1].0 == name then Some(pairs[|pairs| - 1].1)
    else Get(pairs[..|pairs| - 1], name)
  }

  // ---------------------------------------------------------- round trips --

  lemma EscapeReads(b: byte, tail: seq<byte>)
    requires !Unreserved(b)
    ensures EscapeAt([37, HexUpper(b / 16) as int, HexUpper(b % 16) as int] + tail) == Some(b)
  {
  }

  lemma {:induction false} EncodedBytes(s: Str)
    ensures DecodeBytes(Encode(PercentEncode(s))) == Some(s)
    ensures '%' !in PercentEncode(s) ==> Encode(PercentEncode(s)) == s
  {
    if s != [] {
      EncodedBytes(s[1..]);
      assert [s[0]] + s[1..] == s;
      OneEncodedByte(s[0], PercentEncode(s[1..]));
    }
  }

  lemma OneEncodedByte(b: byte, rest: string)
    ensures DecodeBytes(Encode(EncodeByte(b) + rest)) ==
            match DecodeBytes(Encode(rest)) case None => None case Some(out) => Some([b] + out)
    ensures if Unreserved(b) then Encode(EncodeByte(b) + rest) == [b as int] + Encode(rest)
            else '%' in EncodeByte(b) + rest
  {
    hide Encode;
    if Unreserved(b) {
      EncodeAscii([b as char], rest);
      assert Encode([b as char]) == [b];
      assert ([b] + Encode(rest))[1..] == Encode(rest);
    } else {
      var esc := EncodeByte(b);
      assert esc[0] == '%' && (esc + rest)[0] == '%';
      EncodeEscape(esc, rest);
      EscapeReads(b, Encode(rest));
      assert ([37, HexUpper(b / 16) as int, HexUpper(b % 16) as int] + Encode(rest))[3..] == Encode(rest);
    }
  }

  lemma {:induction false} EncodeAscii(a: string, b: string)
    requires forall i :: 0 <= i < |a| ==> a[i] as int < 128
    ensures Encode(a + b) == Encode(a) + Encode(b)
    ensures |Encode(a)| == |a| && forall i :: 0 <= i < |a| ==> Encode(a)[i] == a[i] as int
  {
    if a == "" {
      assert a + b == b;
    } else {
      assert (a + b)[1..] == a[1..] + b;
      EncodeAscii(a[1..], b);
    }
  }

  lemma EncodeEscape(esc: string, rest: string)
    requires |esc| == 3 && forall i :: 0 <= i < 3 ==> esc[i] as int < 128
    ensures Encode(esc + rest) == [esc[0] as int, esc[1] as int, esc[2] as int] + Encode(rest)
  {
    EncodeAscii(esc, rest);
    assert Encode(esc) == [esc[0] as int, esc[1] as int, esc[2] as int];
  }

  /** A percent-encoded string decodes to itself, whatever characters it had. */
  lemma DecodeInvertsEncode(s: Str)
    requires ValidUtf8(s)
    ensures Decoded(PercentEncode(s)) == s
  {
    EncodedBytes(s);
  }

  lemma PercentFirst(a: Str, rest: string)
    ensures a == [] ==> PercentEncode(a) + rest == rest
    ensures a != [] ==> PercentEncode(a) + rest == EncodeByte(a[0]) + (PercentEncode(a[1..]) + rest)
  {
  }

  /** What decoding gives, behind what was decoded before. */
  function Behind(a: Str, out: Option<Str>): Option<Str> {
    match out
    case None => None
    case Some(rest) => Some(a + rest)
  }

  lemma BehindFirst(a: Str, out: Option<Str>)
    ensures a == [] ==> Behind(a, out) == out
    ensures a != [] ==> Behind([a[0]], Behind(a[1..], out)) == Behind(a, out)
  {
    match out
    case None =>
    case Some(rest) =>
      assert a == [] ==> a + rest == rest;
      assert a != [] ==> [a[0]] + (a[1..] + rest) == a + rest;
  }

  lemma {:induction false} EncodedThen(a: Str, rest: string)
    ensures DecodeBytes(Encode(PercentEncode(a) + rest)) == Behind(a, DecodeBytes(Encode(rest)))
    decreases |a|
  {
    hide Encode, DecodeBytes, PercentEncode, EncodeByte;
    PercentFirst(a, rest);
    BehindFirst(a, DecodeBytes(Encode(rest)));
    if a != [] {
      EncodedThen(a[1..], rest);
      OneEncodedByte(a[0], PercentEncode(a[1..]) + rest);
    }
  }

  lemma PlusFirst(rest: string)
    ensures DecodeBytes(Encode("+" + rest)) == Behind([32], DecodeBytes(Encode(rest)))
  {
    EncodeAscii("+", rest);
    assert Encode("+") == [43];
    hide Encode;
    assert ([43] + Encode(rest))[1..] == Encode(rest);
  }

  lemma SpaceBetween(a: Str, b: Str)
    requires ValidUtf8(a) && ValidUtf8(b)
    ensures ValidUtf8(a + [32] + b) && a + ([32] + b) == a + [32] + b
  {
    assert ValidUtf8([32]) by { assert [32][1..] == []; }
    hide ValidUtf8;
    ValidThenValid(a, [32]);
    ValidThenValid(a + [32], b);
  }

  /** A plus between two encoded texts reads as a space. */
  lemma PlusIsSpace(a: Str, b: Str)
    requires ValidUtf8(a) && ValidUtf8(b)
    ensures Decoded(PercentEncode(a) + "+" + PercentEncode(b)) == a + [32] + b
  {
    hide Encode, PercentEncode, DecodeBytes, ValidUtf8;
    var left, right := PercentEncode(a), PercentEncode(b);
    var raw := left + "+" + right;
    assert raw == left + ("+" + right) && raw[|left|] == '+';
    EncodedBytes(b);
    PlusFirst(right);
    EncodedThen(a, "+" + right);
    SpaceBetween(a, b);
  }

  /** A percent sign without two hexadecimal digits behind it leaves the whole
      text as it was. */
  lemma MalformedIsRaw(a: Str, bad: string)
    requires EscapeAt([37] + Encode(bad)) == None
    ensures Decoded(PercentEncode(a) + "%" + bad) == Encode(PercentEncode(a) + "%" + bad)
  {
    EncodeAscii("%", bad);
    assert Encode("%") == [37];
    hide Encode, PercentEncode;
    assert DecodeBytes([37] + Encode(bad)) == None;
    EncodedThen(a, "%" + bad);
    assert PercentEncode(a) + "%" + bad == PercentEncode(a) + ("%" + bad);
  }

  lemma PairSplits(key: Str, value: Str)
    ensures SplitOnce(PairText(key, value), '=') == Some((PercentEncode(key), PercentEncode(value)))
    ensures forall c :: c in PairText(key, value) ==> c !in "&?#"
  {
    SplitFirst(PercentEncode(key), '=', PercentEncode(value));
  }

  lemma PairsDiffer(k1: Str, v1: Str, k2: Str, v2: Str)
    requires ValidUtf8(k1) && ValidUtf8(k2) && k1 != k2
    ensures PairText(k1, v1) != PairText(k2, v2)
  {
    PairSplits(k1, v1);
    PairSplits(k2, v2);
    DecodeInvertsEncode(k1);
    DecodeInvertsEncode(k2);
  }

  // -------------------------------------------------------------- sorting --

  lemma {:induction false} LessIsTotal(a: string, b: string)
    ensures Less(a, b) || a == b || Less(b, a)
  {
    if a != "" && b != "" && a[0] == b[0] {
      LessIsTotal(a[1..], b[1..]);
      assert [a[0]] + a[1..] == a && [b[0]] + b[1..] == b;
    }
  }

  lemma {:induction false} LessIsTransitive(a: string, b: string, c: string)
    requires Less(a, b) && Less(b, c)
    ensures Less(a, c)
  {
    if a != "" && a[0] == b[0] == c[0] {
      LessIsTransitive(a[1..], b[1..], c[1..]);
    }
  }

  lemma {:induction false} InsertSorts(pair: string, sorted: seq<string>)
    requires StrictlySorted(sorted) && pair !in sorted
    ensures StrictlySorted(Insert(pair, sorted))
    ensures forall x :: x in Insert(pair, sorted) <==> x == pair || x in sorted
  {
    if sorted != [] {
      if Less(pair, sorted[0]) {
        forall j | 0 < j < |sorted| ensures Less(pair, sorted[j]) {
          LessIsTransitive(pair, sorted[0], sorted[j]);
        }
      } else {
        LessIsTotal(pair, sorted[0]);
        InsertSorts(pair, sorted[1..]);
        forall x | x in Insert(pair, sorted[1..]) ensures Less(sorted[0], x) {}
        assert sorted == [sorted[0]] + sorted[1..];
      }
    }
  }

  lemma {:induction false} SortSorts(pairs: seq<string>)
    requires forall i, j :: 0 <= i < j < |pairs| ==> pairs[i] != pairs[j]
    ensures StrictlySorted(Sort(pairs))
    ensures forall x :: x in Sort(pairs) <==> x in pairs
  {
    if pairs != [] {
      SortSorts(pairs[1..]);
      assert pairs == [pairs[0]] + pairs[1..];
      assert pairs[0] !in pairs[1..];
      InsertSorts(pairs[0], Sort(pairs[1..]));
    }
  }

  lemma {:induction false} SortedIsUnique(a: seq<string>, b: seq<string>)
    requires StrictlySorted(a) && StrictlySorted(b)
    requires forall x :: x in a <==> x in b
    ensures a == b
  {
    EmptyTogether(a, b);
    if a != [] {
      assert a[0] in b;
      FirstIsLeast(a, b);
      FirstIsLeast(b, a);
      LessIsStrict(a[0], b[0]);
      forall x ensures x in a[1..] <==> x in b[1..] {
        NotFirst(a, x);
        NotFirst(b, x);
      }
      SortedIsUnique(a[1..], b[1..]);
    }
  }

  lemma EmptyTogether(a: seq<string>, b: seq<string>)
    requires forall x :: x in a <==> x in b
    ensures a == [] <==> b == []
  {
    if a != [] { assert a[0] in b; }
    if b != [] { assert b[0] in a; }
  }

  lemma FirstIsLeast(a: seq<string>, b: seq<string>)
    requires a != [] && b != [] && StrictlySorted(a) && b[0] in a
    ensures a[0] == b[0] || Less(a[0], b[0])
  {
  }

  lemma NotFirst(a: seq<string>, x: string)
    requires a != [] && StrictlySorted(a)
    ensures x in a[1..] <==> x in a && x != a[0]
  {
    LessIsStrict(a[0], a[0]);
    assert a == [a[0]] + a[1..];
  }

  /** A retry writes the same URL: one query map has one rendering. */
  lemma RenderingIsUnique(a: seq<string>, b: seq<string>, query: map<Str, Str>)
    requires Renders(a, query) && Renders(b, query)
    ensures a == b
  {
    forall x ensures x in a <==> x in b {
      if x in a {
        var i :| 0 <= i < |a| && a[i] == x;
        assert IsPairOf(a[i], query.Keys, query);
      }
      if x in b {
        var i :| 0 <= i < |b| && b[i] == x;
        assert IsPairOf(b[i], query.Keys, query);
      }
    }
    SortedIsUnique(a, b);
  }

  // ------------------------------------------------------ through the URL --

  lemma {:induction false} ParsePiecesConcat(a: seq<string>, b: seq<string>)
    ensures ParsePieces(a + b) == ParsePieces(a) + ParsePieces(b)
    decreases |a|
  {
    hide ParsePair;
    if a == [] {
      assert a + b == b;
    } else {
      ParsePiecesConcat(a[1..], b);
      assert (a + b)[1..] == a[1..] + b && (a + b)[0] == a[0];
      var first := if a[0] == "" then [] else [ParsePair(a[0])];
      assert ParsePieces(a) == first + ParsePieces(a[1..]);
      assert ParsePieces(a + b) == first + ParsePieces(a[1..] + b);
    }
  }

  lemma {:induction false} GetConcat(a: seq<(Str, Str)>, b: seq<(Str, Str)>, name: Str)
    ensures Get(a + b, name) == if Get(b, name).Some? then Get(b, name) else Get(a, name)
  {
    if b == [] {
      assert a + b == a;
    } else {
      assert (a + b)[..|a + b| - 1] == a + b[..|b| - 1];
      GetConcat(a, b[..|b| - 1], name);
    }
  }

  lemma {:induction false} GetFrom(pairs: seq<(Str, Str)>, query: map<Str, Str>, name: Str)
    requires forall i :: 0 <= i < |pairs| ==> pairs[i].0 in query && pairs[i].1 == query[pairs[i].0]
    ensures Get(pairs, name).Some? ==> name in query && Get(pairs, name) == Some(query[name])
    ensures Get(pairs, name).Some? <==> exists i :: 0 <= i < |pairs| && pairs[i].0 == name
  {
    if pairs != [] {
      GetFrom(pairs[..|pairs| - 1], query, name);
    }
  }

  lemma {:induction false} SplitConcat(a: string, c: char, b: string)
    ensures SplitOn(a + [c] + b, c) == SplitOn(a, c) + SplitOn(b, c)
  {
    var s := a + [c] + b;
    if a == "" {
      assert s[1..] == b;
    } else {
      assert s[1..] == a[1..] + [c] + b;
      SplitConcat(a[1..], c, b);
    }
  }

  lemma {:induction false} JoinHolds(pieces: seq<string>, sep: string, c: char)
    requires forall p :: p in pieces ==> c !in p
    requires c !in sep
    ensures c !in Join(pieces, sep)
  {
    if |pieces| > 1 {
      JoinHolds(pieces[1..], sep, c);
      assert pieces == [pieces[0]] + pieces[1..];
    }
  }

  lemma OnePair(text: string, query: map<Str, Str>) returns (k: Str)
    requires IsPairOf(text, query.Keys, query)
    requires forall k :: k in query ==> ValidUtf8(k) && ValidUtf8(query[k])
    ensures k in query && text == PairText(k, query[k]) && text != "" && ParsePair(text) == (k, query[k])
  {
    k :| k in query && text == PairText(k, query[k]);
    PairSplits(k, query[k]);
    DecodeInvertsEncode(k);
    DecodeInvertsEncode(query[k]);
  }

  ghost predicate Matches(text: string, pair: (Str, Str), query: map<Str, Str>) {
    pair.0 in query && pair.1 == query[pair.0] && text == PairText(pair.0, pair.1)
  }

  /** The server's view of the shell's pairs: the map itself. */
  lemma {:induction false} ParsedPairs(pairs: seq<string>, query: map<Str, Str>)
    requires forall i :: 0 <= i < |pairs| ==> IsPairOf(pairs[i], query.Keys, query)
    requires forall k :: k in query ==> ValidUtf8(k) && ValidUtf8(query[k])
    ensures |ParsePieces(pairs)| == |pairs|
    ensures forall i :: 0 <= i < |pairs| ==> Matches(pairs[i], ParsePieces(pairs)[i], query)
  {
    if pairs != [] {
      hide ParsePair, PairText, ValidUtf8;
      assert IsPairOf(pairs[0], query.Keys, query);
      var k := OnePair(pairs[0], query);
      ParsedPairs(pairs[1..], query);
    }
  }

  lemma {:induction false} ReadPairs(pairs: seq<string>, query: map<Str, Str>, name: Str)
    requires Renders(pairs, query)
    requires forall k :: k in query ==> ValidUtf8(k) && ValidUtf8(query[k])
    ensures Get(ParsePieces(pairs), name) == if name in query then Some(query[name]) else None
  {
    hide PairText;
    ParsedPairs(pairs, query);
    var parsed := ParsePieces(pairs);
    GetFrom(parsed, query, name);
    if name in query {
      var pair := PairText(name, query[name]);
      assert pair in pairs;
      var i :| 0 <= i < |pairs| && pairs[i] == pair;
      if parsed[i].0 != name {
        PairsDiffer(name, query[name], parsed[i].0, parsed[i].1);
        assert false;
      }
    }
  }

  /** Where the proxy's query lands among the server's pieces. */
  lemma UrlPieces(path: string, joined: string)
    requires '#' !in path && '#' !in joined && '?' !in joined
    ensures var url := path + (if '?' in path then "&" else "?") + joined;
            if '?' in path then
              && UriQuery(path).Some?
              && UriQuery(url) == Some(UriQuery(path).value + "&" + joined)
            else UriQuery(path) == None && UriQuery(url) == Some(joined)
  {
    SplitNone(path, '#');
    var url := path + (if '?' in path then "&" else "?") + joined;
    SplitNone(url, '#');
    if '?' in path {
      var a, b := SplitAtFirst(path, '?');
      assert url == a + ['?'] + (b + "&" + joined);
      SplitFirst(a, '?', b);
      SplitFirst(a, '?', b + "&" + joined);
    } else {
      SplitNone(path, '?');
      SplitFirst(path, '?', joined);
      assert url == path + ['?'] + joined;
    }
  }

  lemma {:induction false} SplitAtFirst(s: string, c: char) returns (a: string, b: string)
    requires c in s
    ensures s == a + [c] + b && c !in a
  {
    if s[0] == c {
      a, b := "", s[1..];
    } else {
      a, b := SplitAtFirst(s[1..], c);
      a := [s[0]] + a;
    }
  }

  /** What the web side asked for is what the server reads: every key of the
      map with its value, over arbitrary UTF-8, and otherwise whatever the
      path's own query said. */
  lemma QueryRoundTrip(path: string, query: map<Str, Str>, pairs: seq<string>, name: Str)
    requires '#' !in path && query != map[] && Renders(pairs, query)
    requires forall k :: k in query ==> ValidUtf8(k) && ValidUtf8(query[k])
    ensures var url := path + (if '?' in path then "&" else "?") + Join(pairs, "&");
            Get(Parse(url), name) == if name in query then Some(query[name]) else Get(Parse(path), name)
  {
    hide Get, PairText, UriQuery, SplitOn, Join, ParsePieces;
    PairsArePlain(pairs, query);
    var joined := Join(pairs, "&");
    UrlPieces(path, joined);
    SplitInvertsJoin(pairs, '&');
    ReadPairs(pairs, query, name);
    if '?' in path {
      var own := UriQuery(path).value;
      SplitConcat(own, '&', joined);
      ParsePiecesConcat(SplitOn(own, '&'), pairs);
      GetConcat(ParsePieces(SplitOn(own, '&')), ParsePieces(pairs), name);
    } else {
      NothingToGet(name);
    }
  }

  /** One item of a query: a name, with a value or without. */
  datatype Asked = Asked(name: Str, value: Option<Str>) {
    predicate Valid() { ValidUtf8(name) && (value.Some? ==> ValidUtf8(value.value)) && (value == None ==> name != []) }

    function Text(): string { if value == None then PercentEncode(name) else PairText(name, value.value) }

    function Read(): (Str, Str) { (name, if value == None then [] else value.value) }
  }

  function Texts(items: seq<Asked>): seq<string> { if items == [] then [] else [items[0].Text()] + Texts(items[1..]) }

  function Reads(items: seq<Asked>): seq<(Str, Str)> { if items == [] then [] else [items[0].Read()] + Reads(items[1..]) }

  lemma ItemIsRead(a: Asked)
    requires a.Valid()
    ensures a.Text() != "" && ParsePair(a.Text()) == a.Read() && '&' !in a.Text() && '#' !in a.Text()
  {
    DecodeInvertsEncode(a.name);
    if a.value == None {
      SplitNone(PercentEncode(a.name), '=');
      assert PercentEncode(a.name) != "" by { PercentFirst(a.name, ""); }
    } else {
      PairSplits(a.name, a.value.value);
      DecodeInvertsEncode(a.value.value);
    }
  }

  lemma {:induction false} ItemsAreRead(items: seq<Asked>)
    requires forall i :: 0 <= i < |items| ==> items[i].Valid()
    ensures ParsePieces(Texts(items)) == Reads(items) && |Texts(items)| == |items|
    ensures forall p :: p in Texts(items) ==> '&' !in p && '#' !in p
    decreases |items|
  {
    if items != [] {
      ItemIsRead(items[0]);
      hide Asked.Text, Asked.Read, ParsePair;
      ItemsAreRead(items[1..]);
    }
  }

  /** A query's items are read in their order, a bare name with an empty value;
      a name given twice is there twice. */
  lemma ItemsInOrder(path: string, items: seq<Asked>)
    requires '#' !in path && '?' !in path && items != []
    requires forall i :: 0 <= i < |items| ==> items[i].Valid()
    ensures Parse(path + "?" + Join(Texts(items), "&")) == Reads(items)
  {
    hide Texts, Reads, ParsePieces, Join, SplitOn, UriQuery;
    ItemsAreRead(items);
    var texts := Texts(items);
    SplitInvertsJoin(texts, '&');
    JoinHolds(texts, "&", '#');
    QueryOf(path, Join(texts, "&"));
  }

  lemma QueryOf(path: string, query: string)
    requires '#' !in path && '#' !in query && '?' !in path
    ensures UriQuery(path + "?" + query) == Some(query)
  {
    var url := path + "?" + query;
    assert url == path + ['?'] + query;
    SplitFirst(path, '?', query);
    SplitNone(url, '#');
  }

  /** The value got is the last one given for the name. */
  lemma {:induction false} LastValueWins(pairs: seq<(Str, Str)>, name: Str, value: Str)
    ensures Get(pairs, name) == Some(value)
       <==> exists i :: 0 <= i < |pairs| && pairs[i] == (name, value) && forall j :: i < j < |pairs| ==> pairs[j].0 != name
    decreases |pairs|
  {
    if pairs != [] {
      var n := |pairs| - 1;
      LastValueWins(pairs[..n], name, value);
      if pairs[n].0 != name {
        assert forall i :: 0 <= i < n ==> pairs[..n][i] == pairs[i];
      }
    }
  }

  lemma NothingToGet(name: Str)
    ensures Get([], name) == None
  {
  }

  lemma PairsArePlain(pairs: seq<string>, query: map<Str, Str>)
    requires query != map[] && Renders(pairs, query)
    ensures |pairs| >= 1
    ensures forall p :: p in pairs ==> '&' !in p
    ensures '#' !in Join(pairs, "&") && '?' !in Join(pairs, "&")
  {
    var some :| some in query;
    assert PairText(some, query[some]) in pairs;
    forall p | p in pairs ensures '&' !in p && '#' !in p && '?' !in p {
      var i :| 0 <= i < |pairs| && pairs[i] == p;
      assert IsPairOf(pairs[i], query.Keys, query);
      var k :| k in query && pairs[i] == PairText(k, query[k]);
      PairSplits(k, query[k]);
    }
    JoinHolds(pairs, "&", '#');
    JoinHolds(pairs, "&", '?');
  }
}
