/** Bytes and UTF-8: validity as `String::from_utf8` checks it, and the lossy
    decoding of `String::from_utf8_lossy`. */
module Utf8 {
  import opened Division

  type byte = b: int | 0 <= b < 256

  predicate Continuation(b: byte) { 0x80 <= b < 0xC0 }

  /** How many bytes a sequence with this lead byte has; 0 for no lead byte. */
  function LeadLength(lead: byte): nat {
    if lead < 0x80 then 1
    else if 0xC2 <= lead < 0xE0 then 2
    else if 0xE0 <= lead < 0xF0 then 3
    else if 0xF0 <= lead < 0xF5 then 4
    else 0
  }

  predicate SecondByteOk(lead: byte, second: byte) {
    Continuation(second)
    && (lead == 0xE0 ==> second >= 0xA0)
    && (lead == 0xED ==> second < 0xA0)
    && (lead == 0xF0 ==> second >= 0x90)
    && (lead == 0xF4 ==> second < 0x90)
  }

  /** How many bytes at the head of `s` agree with a well-formed sequence. */
  function GoodLength(s: seq<byte>): (n: nat)
    requires s != []
    ensures n <= LeadLength(s[0]) && n <= |s|
  {
    var want := LeadLength(s[0]);
    if want == 0 then 0
    else if want == 1 || |s| < 2 || !SecondByteOk(s[0], s[1]) then 1
    else if want == 2 || |s| < 3 || !Continuation(s[2]) then 2
    else if want == 3 || |s| < 4 || !Continuation(s[3]) then 3
    else 4
  }

  /** A whole character starts here. */
  predicate WholeCharacter(s: seq<byte>)
    requires s != []
  {
    GoodLength(s) > 0 && GoodLength(s) == LeadLength(s[0])
  }

  function Decode(s: seq<byte>): char
    requires s != [] && WholeCharacter(s)
  {
    var n := GoodLength(s);
    var b0: int := s[0];
    var b1: int := if n > 1 then s[1] else 0x80;
    var b2: int := if n > 2 then s[2] else 0x80;
    var b3: int := if n > 3 then s[3] else 0x80;
    if n == 1 then b0 as char
    else if n == 2 then ((b0 - 0xC0) * 64 + (b1 - 0x80)) as char
    else if n == 3 then ((b0 - 0xE0) * 4096 + (b1 - 0x80) * 64 + (b2 - 0x80)) as char
    else ((b0 - 0xF0) * 262_144 + (b1 - 0x80) * 4096 + (b2 - 0x80) * 64 + (b3 - 0x80)) as char
  }

  /** `String::from_utf8(s).is_ok()`. */
  predicate ValidUtf8(s: seq<byte>) {
    s == [] || (WholeCharacter(s) && ValidUtf8(s[GoodLength(s)..]))
  }

  const REPLACEMENT: char := '\U{FFFD}'

  /** `String::from_utf8_lossy`: each maximal ill-formed part becomes one
      replacement character. */
  function Lossy(s: seq<byte>): string {
    if s == [] then ""
    else if WholeCharacter(s) then [Decode(s)] + Lossy(s[GoodLength(s)..])
    else [REPLACEMENT] + Lossy(s[if GoodLength(s) == 0 then 1 else GoodLength(s)..])
  }

  // ------------------------------------------------------------------ ASCII --

  predicate IsAscii(s: seq<byte>) { forall i :: 0 <= i < |s| ==> s[i] < 0x80 }

  function Chars(s: seq<byte>): string
    requires IsAscii(s)
  {
    seq(|s|, i requires 0 <= i < |s| => s[i] as char)
  }

  lemma LossyAscii(s: seq<byte>)
    requires s != [] && s[0] < 0x80
    ensures Lossy(s) == [s[0] as char] + Lossy(s[1..])
  {
    assert GoodLength(s) == 1;
  }

  /** An ASCII prefix decodes character by character, whatever follows. */
  lemma {:induction false} LossyAsciiPrefix(a: seq<byte>, b: seq<byte>)
    requires IsAscii(a)
    ensures Lossy(a + b) == Chars(a) + Lossy(b)
    decreases |a|
  {
    hide Lossy;
    if a == [] {
      assert a + b == b;
      assert Chars(a) + Lossy(b) == Lossy(b);
    } else {
      LossyAscii(a + b);
      assert (a + b)[1..] == a[1..] + b;
      LossyAsciiPrefix(a[1..], b);
      CharsFirst(a, Lossy(b));
    }
  }

  lemma CharsFirst(a: seq<byte>, tail: string)
    requires IsAscii(a) && a != []
    ensures [a[0] as char] + (Chars(a[1..]) + tail) == Chars(a) + tail
  {
  }

  lemma LossyOfNothing(s: seq<byte>)
    ensures Lossy(s) == "" <==> s == []
  {
  }

  // --------------------------------------------------------------- encoding --

  function EncodeChar(c: char): (s: seq<byte>)
    ensures s != []
  {
    var n := c as int;
    if n < 0x80 then [n]
    else if n < 0x800 then [0xC0 + n / 64, 0x80 + n % 64]
    else if n < 0x1_0000 then [0xE0 + n / 4096, 0x80 + n / 64 % 64, 0x80 + n % 64]
    else [0xF0 + n / 262_144, 0x80 + n / 4096 % 64, 0x80 + n / 64 % 64, 0x80 + n % 64]
  }

  /** The bytes of a Rust string. */
  function Encode(s: string): seq<byte> {
    if s == "" then [] else EncodeChar(s[0]) + Encode(s[1..])
  }

  /** The bytes of the lossily decoded text. */
  function LossyBytes(s: seq<byte>): seq<byte> { Encode(Lossy(s)) }

  lemma SixBits(a: int, b: int, c: int, d: int)
    requires 0 <= b < 64 && 0 <= c < 64 && 0 <= d < 64
    ensures var n := a * 262_144 + b * 4096 + c * 64 + d;
            n / 262_144 == a && n / 4096 % 64 == b && n / 64 % 64 == c && n % 64 == d
            && n / 4096 == a * 64 + b && n / 64 == a * 4096 + b * 64 + c
  {
    var n := a * 262_144 + b * 4096 + c * 64 + d;
    QuotientIsUnique(n, 262_144, a, b * 4096 + c * 64 + d);
    QuotientIsUnique(n, 4096, a * 64 + b, c * 64 + d);
    QuotientIsUnique(n, 64, a * 4096 + b * 64 + c, d);
    QuotientIsUnique(a * 64 + b, 64, a, b);
    QuotientIsUnique(a * 4096 + b * 64 + c, 64, a * 64 + b, c);
  }

  lemma EncodeInvertsDecode(s: seq<byte>)
    requires s != [] && WholeCharacter(s)
    ensures EncodeChar(Decode(s)) == s[..GoodLength(s)]
  {
    var n := GoodLength(s);
    if n == 2 {
      SixBits(0, 0, s[0] - 0xC0, s[1] - 0x80);
    } else if n == 3 {
      SixBits(0, s[0] - 0xE0, s[1] - 0x80, s[2] - 0x80);
    } else if n == 4 {
      SixBits(s[0] - 0xF0, s[1] - 0x80, s[2] - 0x80, s[3] - 0x80);
    }
  }

  /** One step of lossy decoding: a whole character gives its own bytes. */
  lemma LossyFirst(s: seq<byte>)
    requires s != [] && WholeCharacter(s)
    ensures var n := GoodLength(s);
            0 < n <= |s| && LossyBytes(s) == s[..n] + LossyBytes(s[n..])
  {
    EncodeInvertsDecode(s);
    var rest := Lossy(s[GoodLength(s)..]);
    assert Lossy(s) == [Decode(s)] + rest;
    assert ([Decode(s)] + rest)[1..] == rest;
    hide Lossy, EncodeChar, Decode, GoodLength;
  }

  /** Ill-formed bytes give the replacement character's bytes. */
  lemma LossyFirstBad(s: seq<byte>)
    requires s != [] && !WholeCharacter(s)
    ensures var n := if GoodLength(s) == 0 then 1 else GoodLength(s);
            0 < n <= |s| && LossyBytes(s) == [0xEF, 0xBF, 0xBD] + LossyBytes(s[n..])
  {
    var rest := Lossy(s[if GoodLength(s) == 0 then 1 else GoodLength(s)..]);
    assert Lossy(s) == [REPLACEMENT] + rest;
    assert ([REPLACEMENT] + rest)[1..] == rest;
    assert EncodeChar(REPLACEMENT) == [0xEF, 0xBF, 0xBD];
    hide Lossy, EncodeChar, Decode, GoodLength;
  }

  lemma LossyBytesOfNothing()
    ensures LossyBytes([]) == []
  {
  }

  /** Valid UTF-8 survives lossy decoding byte for byte. */
  lemma {:induction false} LossyKeepsValid(s: seq<byte>)
    requires ValidUtf8(s)
    ensures LossyBytes(s) == s
    decreases |s|
  {
    LossyBytesOfNothing();
    hide LossyBytes, GoodLength, WholeCharacter;
    if s != [] {
      LossyFirst(s);
      LossyKeepsValid(s[GoodLength(s)..]);
    }
  }

  lemma FirstOfBoth(a: seq<byte>, b: seq<byte>)
    requires a != [] && WholeCharacter(a)
    ensures GoodLength(a + b) == GoodLength(a) && WholeCharacter(a + b)
    ensures (a + b)[GoodLength(a)..] == a[GoodLength(a)..] + b
  {
  }

  /** Valid text followed by valid text is valid text. */
  lemma {:induction false} ValidThenValid(a: seq<byte>, b: seq<byte>)
    requires ValidUtf8(a) && ValidUtf8(b)
    ensures ValidUtf8(a + b)
    decreases |a|
  {
    if a == [] {
      assert a + b == b;
    } else {
      FirstOfBoth(a, b);
      var n := GoodLength(a);
      assert n > 0;
      hide GoodLength, WholeCharacter;
      ValidThenValid(a[n..], b);
    }
  }

  /** Lossy decoding gives its input back, or the input with one carriage return
      more, only when the input was valid UTF-8 and gives itself. */
  lemma {:induction false} LossyKeepsOnlyValid(s: seq<byte>, more: seq<byte>)
    requires LossyBytes(s) == s + more && (more == [] || more == [13])
    ensures ValidUtf8(s) && more == []
    decreases |s|
  {
    LossyBytesOfNothing();
    hide LossyBytes, GoodLength, WholeCharacter;
    if s != [] {
      if WholeCharacter(s) {
        LossyFirst(s);
        var n := GoodLength(s);
        assert (s + more)[n..] == s[n..] + more;
        assert (s[..n] + LossyBytes(s[n..]))[n..] == LossyBytes(s[n..]);
        LossyKeepsOnlyValid(s[n..], more);
      } else {
        ReplacementShows(s, more);
      }
    } else {
      assert [] + more == more;
    }
  }

  /** The replacement character is well-formed, so it never stands where the
      bytes were ill-formed. */
  lemma ReplacementShows(s: seq<byte>, more: seq<byte>)
    requires s != [] && !WholeCharacter(s) && (more == [] || more == [13])
    ensures LossyBytes(s) != s + more
  {
    LossyFirstBad(s);
    hide LossyBytes;
    var out := LossyBytes(s);
    assert out[0] == 0xEF && out[1] == 0xBF && out[2] == 0xBD;
  }

  lemma {:induction false} LossyAddsNo(s: seq<byte>, b: byte)
    requires b !in s && b < 0x80
    ensures b !in LossyBytes(s)
    decreases |s|
  {
    LossyBytesOfNothing();
    hide LossyBytes, GoodLength, WholeCharacter;
    if s != [] {
      if WholeCharacter(s) {
        LossyFirst(s);
        LossyAddsNo(s[GoodLength(s)..], b);
      } else {
        LossyFirstBad(s);
        LossyAddsNo(s[if GoodLength(s) == 0 then 1 else GoodLength(s)..], b);
      }
    }
  }
}
