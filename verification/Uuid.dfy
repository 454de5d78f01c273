/** Account and request identifiers: the server's strict UUID codec, and the
    web client's fallback generator that has to satisfy it. */
module Uuid {
  import opened Wrappers
  import opened Letters
  import opened Trimming
  import opened Utf8
  import opened Division

  /** The sixteen bytes. */
  type Id = s: seq<byte> | |s| == 16 witness seq(16, _ => 0)

  // ------------------------------------------------------------ positions --

  /** Where byte `i` starts in the 8-4-4-4-12 form. */
  function StartOf(i: nat): nat {
    2 * i + (if i >= 4 then 1 else 0) + (if i >= 6 then 1 else 0) + (if i >= 8 then 1 else 0) + (if i >= 10 then 1 else 0)
  }

  predicate HyphenAt(index: nat) { index in {8, 13, 18, 23} }

  /** How many hexadecimal digits stand before a position. */
  function DigitsBefore(index: nat): nat {
    if index == 0 then 0 else DigitsBefore(index - 1) + if HyphenAt(index - 1) then 0 else 1
  }

  // -------------------------------------------------------------- reading --

  /** Hyphens and hexadecimal digits where the 8-4-4-4-12 form has them. */
  predicate Canonical(raw: string) { |raw| == 36 && forall i :: 0 <= i < 36 ==> CharOk(raw, i) }

  predicate CharOk(raw: string, i: nat)
    requires i < |raw|
  {
    if HyphenAt(i) then raw[i] == '-' else HexValue(raw[i]).Some?
  }

  function ByteAt(raw: string, i: nat): byte
    requires Canonical(raw) && i < 16
  {
    HexPlaces(i);
    assert CharOk(raw, StartOf(i)) && CharOk(raw, StartOf(i) + 1);
    HexValue(raw[StartOf(i)]).value * 16 + HexValue(raw[StartOf(i) + 1]).value
  }

  lemma HexPlaces(i: nat)
    requires i < 16
    ensures StartOf(i) + 1 < 36 && !HyphenAt(StartOf(i)) && !HyphenAt(StartOf(i) + 1)
  {
  }

  function Parsed(raw: string): Option<Id> {
    if Canonical(raw) then Some(seq(16, i requires 0 <= i < 16 => ByteAt(raw, i))) else None
  }

  lemma {:induction false} DigitPlace(index: nat)
    requires index < 36
    ensures DigitsBefore(index) <= 32
    ensures !HyphenAt(index) ==>
              var n := DigitsBefore(index);
              n < 32 && index == StartOf(n / 2) + n % 2
    ensures DigitsBefore(36) == 32
  {
    hide DigitsBefore;
    Run(index);
    Run(36);
  }

  lemma {:induction false} Run(index: nat)
    requires index <= 36
    ensures DigitsBefore(index) == index - (if index > 8 then 1 else 0) - (if index > 13 then 1 else 0)
                                   - (if index > 18 then 1 else 0) - (if index > 23 then 1 else 0)
  {
    if index > 0 {
      Run(index - 1);
    }
  }

  /** Byte `i` has been read: both its digits are there and make `b`. */
  predicate ByteIs(raw: string, i: nat, b: byte)
    requires |raw| == 36 && i < 16
  {
    HexPlaces(i);
    var (high, low) := (HexValue(raw[StartOf(i)]), HexValue(raw[StartOf(i) + 1]));
    high.Some? && low.Some? && b == high.value * 16 + low.value
  }

  predicate HighIs(raw: string, i: nat, b: byte)
    requires |raw| == 36 && i < 16
  {
    HexPlaces(i);
    var high := HexValue(raw[StartOf(i)]);
    high.Some? && b == high.value * 16
  }

  /** What the first `nibbles` digits have filled in. */
  predicate Filled(raw: string, out: seq<byte>, nibbles: nat) {
    && |raw| == 36 && |out| == 16 && nibbles <= 32
    && (forall i :: 0 <= i < nibbles / 2 ==> ByteIs(raw, i, out[i]))
    && (nibbles % 2 == 1 ==> HighIs(raw, nibbles / 2, out[nibbles / 2]))
  }

  /** The server's parsing loop. */
  method ParseStrict(raw: string) returns (r: Option<Id>)
    ensures r == Parsed(raw)
  {
    if |raw| != 36 {
      return None;
    }
    hide HexValue, DigitsBefore, Filled, HyphenAt, Parsed, StartOf, OkBefore;
    var out := new byte[16](_ => 0);
    var nibbles := 0;
    NothingFilled(raw, out[..]);
    for index := 0 to 36
      invariant nibbles == DigitsBefore(index) && Filled(raw, out[..], nibbles)
      invariant OkBefore(raw, index)
    {
      NextDigit(index);
      OkStep(raw, index);
      if HyphenAt(index) {
        if raw[index] != '-' {
          return None;
        }
      } else {
        var value := HexValue(raw[index]);
        if value == None {
          return None;
        }
        var slot := nibbles / 2;
        ghost var before := out[..];
        DigitFills(raw, before, index, nibbles, value.value);
        if nibbles % 2 == 0 {
          out[slot] := value.value * 16;
          assert out[..] == before[slot := value.value * 16];
        } else {
          out[slot] := out[slot] + value.value;
          assert out[..] == before[slot := before[slot] + value.value];
        }
        nibbles := nibbles + 1;
      }
    }
    AllFilled(raw, out[..]);
    if nibbles != 32 {
      return None;
    }
    return Some(out[..]);
  }

  predicate OkBefore(raw: string, n: nat) { n <= |raw| && forall i :: 0 <= i < n ==> CharOk(raw, i) }

  lemma OkStep(raw: string, n: nat)
    requires |raw| == 36 && n < 36 && OkBefore(raw, n)
    ensures if (if HyphenAt(n) then raw[n] == '-' else HexValue(raw[n]).Some?) then OkBefore(raw, n + 1) else Parsed(raw) == None
  {
    assert CharOk(raw, n) <==> (if HyphenAt(n) then raw[n] == '-' else HexValue(raw[n]).Some?);
    hide HyphenAt, HexValue;
  }

  lemma NothingFilled(raw: string, out: seq<byte>)
    requires |raw| == 36 && |out| == 16
    ensures DigitsBefore(0) == 0 && Filled(raw, out, 0) && OkBefore(raw, 0)
  {
  }

  /** Digit `n` of the text belongs to the high or the low half of byte `n / 2`. */
  lemma DigitIsAt(index: nat, n: nat)
    requires index < 36 && !HyphenAt(index) && n == DigitsBefore(index)
    ensures n < 32 && index == StartOf(n / 2) + n % 2
  {
    DigitPlace(index);
  }

  lemma HighFills(raw: string, out: seq<byte>, index: nat, slot: nat, v: nat)
    requires |raw| == 36 && index < 36 && slot < 16 && index == StartOf(slot) && HexValue(raw[index]) == Some(v)
    requires Filled(raw, out, 2 * slot)
    ensures v < 16 && Filled(raw, out[slot := v * 16], 2 * slot + 1)
  {
    hide Filled, HighIs;
    HighRead(raw, index, slot);
    FillHigh(raw, out, slot, v * 16);
  }

  lemma LowFills(raw: string, out: seq<byte>, index: nat, slot: nat, v: nat)
    requires |raw| == 36 && index < 36 && slot < 16 && index == StartOf(slot) + 1 && HexValue(raw[index]) == Some(v)
    requires |out| == 16 && Filled(raw, out, 2 * slot + 1)
    ensures out[slot] + v < 256 && Filled(raw, out[slot := out[slot] + v], 2 * slot + 2)
  {
    hide Filled, HighIs, ByteIs;
    HalfFilled(raw, out, slot);
    LowRead(raw, index, slot, out[slot]);
    FillLow(raw, out, slot, out[slot] + v);
  }

  lemma DigitFills(raw: string, out: seq<byte>, index: nat, n: nat, v: nat)
    requires |raw| == 36 && |out| == 16 && index < 36 && !HyphenAt(index) && n == DigitsBefore(index)
    requires HexValue(raw[index]) == Some(v) && Filled(raw, out, n)
    ensures n < 32
    ensures if n % 2 == 0 then v < 16 && Filled(raw, out[n / 2 := v * 16], n + 1)
            else out[n / 2] + v < 256 && Filled(raw, out[n / 2 := out[n / 2] + v], n + 1)
  {
    hide Filled, HexValue, DigitsBefore, StartOf, HyphenAt;
    DigitIsAt(index, n);
    if n % 2 == 0 {
      HighFills(raw, out, index, n / 2, v);
    } else {
      LowFills(raw, out, index, n / 2, v);
    }
  }

  lemma FillHigh(raw: string, out: seq<byte>, slot: nat, b: byte)
    requires |raw| == 36 && slot < 16 && Filled(raw, out, 2 * slot) && HighIs(raw, slot, b)
    ensures Filled(raw, out[slot := b], 2 * slot + 1)
  {
    hide ByteIs, HighIs;
  }

  lemma HalfFilled(raw: string, out: seq<byte>, slot: nat)
    requires |raw| == 36 && slot < 16 && Filled(raw, out, 2 * slot + 1)
    ensures |out| == 16 && HighIs(raw, slot, out[slot])
  {
    hide HighIs;
  }

  lemma FillLow(raw: string, out: seq<byte>, slot: nat, b: byte)
    requires |raw| == 36 && slot < 16 && Filled(raw, out, 2 * slot + 1) && ByteIs(raw, slot, b)
    ensures Filled(raw, out[slot := b], 2 * slot + 2)
  {
    hide ByteIs, HighIs;
  }

  lemma AllFilled(raw: string, out: seq<byte>)
    requires |raw| == 36 && Filled(raw, out, DigitsBefore(36)) && OkBefore(raw, 36)
    ensures DigitsBefore(36) == 32 && Parsed(raw) == Some(out)
  {
    DigitPlace(35);
    AllBytesRead(raw, out);
  }

  lemma HighRead(raw: string, index: nat, slot: nat)
    requires |raw| == 36 && index < 36 && slot < 16 && index == StartOf(slot) && HexValue(raw[index]).Some?
    ensures HighIs(raw, slot, HexValue(raw[index]).value * 16)
  {
  }

  lemma LowRead(raw: string, index: nat, slot: nat, b: byte)
    requires |raw| == 36 && index < 36 && slot < 16 && index == StartOf(slot) + 1 && HexValue(raw[index]).Some?
    requires HighIs(raw, slot, b)
    ensures b + HexValue(raw[index]).value < 256 && ByteIs(raw, slot, b + HexValue(raw[index]).value)
  {
    hide HexValue;
  }

  lemma NextDigit(index: nat)
    ensures DigitsBefore(index + 1) == DigitsBefore(index) + if HyphenAt(index) then 0 else 1
  {
  }

  lemma AllBytesRead(raw: string, out: seq<byte>)
    requires Canonical(raw) && |out| == 16
    requires forall i :: 0 <= i < 16 ==> ByteIs(raw, i, out[i])
    ensures Parsed(raw) == Some(out)
  {
    hide HexValue, StartOf;
    assert Parsed(raw).value == out;
  }

  // -------------------------------------------------------------- writing --

  function HexLower(n: int): char
    requires 0 <= n < 16
  {
    if n < 10 then ('0' as int + n) as char else ('a' as int + n - 10) as char
  }

  function HexPair(b: byte): string { [HexLower(b / 16), HexLower(b % 16)] }

  /** The text of the first `n` bytes. */
  function WirePrefix(u: Id, n: nat): string
    requires n <= 16
  {
    if n == 0 then ""
    else WirePrefix(u, n - 1) + (if n - 1 in {4, 6, 8, 10} then "-" else "") + HexPair(u[n - 1])
  }

  /** Lowercase, hyphenated. */
  function WireString(u: Id): string { WirePrefix(u, 16) }

  method ToWireString(u: Id) returns (out: string)
    ensures out == WireString(u)
  {
    out := "";
    for index := 0 to 16
      invariant out == WirePrefix(u, index)
    {
      if index in {4, 6, 8, 10} {
        out := out + "-";
      }
      out := out + HexPair(u[index]);
    }
  }

  lemma HexRoundTrip(n: int)
    requires 0 <= n < 16
    ensures HexValue(HexLower(n)) == Some(n)
  {
  }

  /** The text written so far: its length, its hyphens and its digits. */
  predicate Written(s: string, u: Id, n: nat)
    requires n <= 16
  {
    && |s| == (if n == 0 then 0 else StartOf(n - 1) + 2)
    && (forall i :: 0 <= i < |s| && HyphenAt(i) ==> s[i] == '-')
    && (forall i :: 0 <= i < n ==> StartOf(i) + 1 < |s| && s[StartOf(i)..StartOf(i) + 2] == HexPair(u[i]))
  }

  lemma {:induction false} WireIsWritten(u: Id, n: nat)
    requires n <= 16
    ensures Written(WirePrefix(u, n), u, n)
  {
    if n > 0 {
      WireIsWritten(u, n - 1);
      hide Written, HexPair;
      WrittenStep(WirePrefix(u, n - 1), u, n - 1);
    }
  }

  lemma WrittenStep(before: string, u: Id, n: nat)
    requires n < 16 && Written(before, u, n)
    ensures Written(before + (if n in {4, 6, 8, 10} then "-" else "") + HexPair(u[n]), u, n + 1)
  {
    var hyphen := if n in {4, 6, 8, 10} then "-" else "";
    var s := before + hyphen + HexPair(u[n]);
    Spacing(n);
    assert |before + hyphen| == StartOf(n);
    hide HexPair, StartOf, HyphenAt;
    assert s[StartOf(n)..StartOf(n) + 2] == HexPair(u[n]);
    forall i | 0 <= i < n + 1 ensures StartOf(i) + 1 < |s| && s[StartOf(i)..StartOf(i) + 2] == HexPair(u[i]) {
      if i < n {
        assert s[StartOf(i)..StartOf(i) + 2] == before[StartOf(i)..StartOf(i) + 2];
      }
    }
  }

  /** Each byte starts after the previous one and, at four places, a hyphen. */
  lemma Spacing(n: nat)
    requires n < 16
    ensures n > 0 ==> StartOf(n) == StartOf(n - 1) + 2 + if n in {4, 6, 8, 10} then 1 else 0
    ensures n == 0 ==> StartOf(n) == 0
    ensures n > 0 && n in {4, 6, 8, 10} <==> n > 0 && HyphenAt(StartOf(n) - 1)
    ensures !HyphenAt(StartOf(n)) && !HyphenAt(StartOf(n) + 1)
  {
  }

  /** A text is this identifier's, in lower case, exactly when it is written so. */
  lemma WrittenDigits(s: string, u: Id, i: nat)
    requires Written(s, u, 16) && i < 16
    ensures |s| == 36 && s[StartOf(i)] == HexLower(u[i] / 16) && s[StartOf(i) + 1] == HexLower(u[i] % 16)
  {
    var pair := s[StartOf(i)..StartOf(i) + 2];
    assert pair[0] == s[StartOf(i)] && pair[1] == s[StartOf(i) + 1];
  }

  /** Every position is a hyphen or a digit of some byte. */
  lemma PlaceOf(index: nat) returns (i: nat)
    requires index < 36 && !HyphenAt(index)
    ensures i < 16 && (index == StartOf(i) || index == StartOf(i) + 1)
  {
    DigitPlace(index);
    i := DigitsBefore(index) / 2;
  }

  /** Every identifier survives its own wire form. */
  lemma WireRoundTrip(u: Id)
    ensures Parsed(WireString(u)) == Some(u)
  {
    var s := WireString(u);
    WireIsWritten(u, 16);
    hide HexLower, HexValue, StartOf, WirePrefix;
    forall i | 0 <= i < 16
      ensures HexValue(s[StartOf(i)]) == Some((u[i] / 16) as int) && HexValue(s[StartOf(i) + 1]) == Some((u[i] % 16) as int)
    {
      WrittenDigits(s, u, i);
      HexRoundTrip(u[i] / 16);
      HexRoundTrip(u[i] % 16);
    }
    forall index | 0 <= index < 36 ensures CharOk(s, index) {
      if !HyphenAt(index) {
        var i := PlaceOf(index);
      }
    }
    forall i | 0 <= i < 16 ensures ByteIs(s, i, u[i]) {}
    AllBytesRead(s, u);
  }

  lemma HexIsLowered(c: char)
    requires HexValue(c).Some?
    ensures Lower(c) == HexLower(HexValue(c).value)
  {
  }

  lemma LoweredAt(raw: string, u: Id, s: string, index: nat)
    requires Canonical(raw) && Parsed(raw) == Some(u) && Written(s, u, 16) && index < 36
    ensures |s| == 36 && s[index] == Lower(raw[index])
  {
    hide Written, HexLower, HexValue, StartOf;
    assert CharOk(raw, index);
    WrittenDigits(s, u, 0);
    if HyphenAt(index) {
      WrittenHyphen(s, u, index);
    } else {
      var i := PlaceOf(index);
      HexPlaces(i);
      assert CharOk(raw, StartOf(i)) && CharOk(raw, StartOf(i) + 1);
      assert u[i] == ByteAt(raw, i);
      WrittenDigits(s, u, i);
      HexIsLowered(raw[index]);
    }
  }

  lemma WrittenHyphen(s: string, u: Id, index: nat)
    requires Written(s, u, 16) && index < |s| && HyphenAt(index)
    ensures s[index] == '-'
  {
  }

  /** What was accepted is written back in lower case, and nothing else of it
      changes: the wire form is a normal form of the accepted spellings. */
  lemma ParsedIsLowered(raw: string)
    requires Canonical(raw)
    ensures |WireString(Parsed(raw).value)| == 36
    ensures forall i :: 0 <= i < 36 ==> WireString(Parsed(raw).value)[i] == Lower(raw[i])
  {
    var u := Parsed(raw).value;
    hide Written, WirePrefix, Canonical, Parsed;
    WireIsWritten(u, 16);
    LoweredAt(raw, u, WireString(u), 0);
    forall index | 0 <= index < 36 ensures WireString(u)[index] == Lower(raw[index]) {
      LoweredAt(raw, u, WireString(u), index);
    }
  }

  // ------------------------------------------------- stored spellings --

  predicate IsBrace(c: char) { c == '{' || c == '}' }

  function TrimBraces(s: string): string
    decreases |s|
  {
    if s != "" && IsBrace(s[0]) then TrimBraces(s[1..])
    else if s != "" && IsBrace(s[|s| - 1]) then TrimBraces(s[..|s| - 1])
    else s
  }

  /** Sixteen raw bytes, or a text spelling in braces and blanks. */
  function FromStored(raw: seq<byte>): Option<Id> {
    if |raw| == 16 then Some(raw)
    else if !ValidUtf8(raw) then None
    else Parsed(TrimBraces(Trim(Lossy(raw), Rust)))
  }

  lemma {:induction false} BracesTrimmed(open: string, s: string, close: string)
    requires open in ["", "{"] && close in ["", "}"]
    requires s != "" && !IsBrace(s[0]) && !IsBrace(s[|s| - 1])
    ensures TrimBraces(open + s + close) == s
  {
    assert TrimBraces(s) == s;
    assert (s + close)[0] == s[0];
    if close == "}" {
      assert (s + close)[..|s + close| - 1] == s;
      assert (s + close)[|s + close| - 1] == '}';
    } else {
      assert s + close == s;
    }
    assert TrimBraces(s + close) == s;
    if open == "{" {
      assert (open + s + close)[1..] == s + close;
    } else {
      assert open + s + close == s + close;
    }
  }

  predicate Ascii(s: string) { forall i :: 0 <= i < |s| ==> s[i] as int < 128 }

  lemma WireIsPlain(u: Id)
    ensures var s := WireString(u);
            |s| == 36 && Ascii(s)
            && Trimmed(s, Rust) && !IsBrace(s[0]) && !IsBrace(s[35])
  {
    WireRoundTrip(u);
    var s := WireString(u);
    hide WireString, HyphenAt, HexValue;
    forall i | 0 <= i < 36 ensures s[i] as int < 128 && !IsBlank(s[i], Rust) && !IsBrace(s[i]) {
      CharIsPlain(s, i);
    }
  }

  lemma CharIsPlain(s: string, i: nat)
    requires i < |s| && CharOk(s, i)
    ensures s[i] as int < 128 && !IsBlank(s[i], Rust) && !IsBrace(s[i])
  {
  }

  lemma {:induction false} AsciiText(s: string)
    requires Ascii(s)
    ensures |Encode(s)| == |s| && ValidUtf8(Encode(s)) && Lossy(Encode(s)) == s
  {
    if s != "" {
      AsciiText(s[1..]);
      var b := Encode(s);
      assert b == [s[0] as int] + Encode(s[1..]);
      assert b[1..] == Encode(s[1..]);
      LossyAscii(b);
      assert GoodLength(b) == 1 && WholeCharacter(b);
      assert [s[0]] + s[1..] == s;
    }
  }

  lemma StoredTextReads(u: Id, text: string)
    requires |text| != 16 && Ascii(text)
    ensures FromStored(Encode(text)) == Parsed(TrimBraces(Trim(text, Rust)))
  {
    hide TrimBraces, Trim, Parsed, Lossy, ValidUtf8, Encode;
    AsciiText(text);
  }

  /** The raw bytes and every tolerated text form give the identifier back. */
  lemma StoredRoundTrip(u: Id, lead: string, open: string, close: string, trail: string)
    requires open in ["", "{"] && close in ["", "}"]
    requires AllBlank(lead, Rust) && AllBlank(trail, Rust)
    requires Ascii(lead) && Ascii(trail)
    ensures FromStored(u) == Some(u)
    ensures FromStored(Encode(lead + (open + WireString(u) + close) + trail)) == Some(u)
  {
    assert FromStored(u) == Some(u);
    hide WireString, Encode, FromStored, TrimBraces, Parsed;
    WireIsPlain(u);
    var text := lead + (open + WireString(u) + close) + trail;
    assert Ascii(open + WireString(u) + close);
    assert Ascii(text);
    hide Ascii;
    StoredTextReads(u, text);
    BracesComeOff(lead, open, WireString(u), close, trail);
    WireRoundTrip(u);
  }

  lemma BracesComeOff(lead: string, open: string, s: string, close: string, trail: string)
    requires open in ["", "{"] && close in ["", "}"]
    requires AllBlank(lead, Rust) && AllBlank(trail, Rust)
    requires s != "" && Trimmed(s, Rust) && !IsBrace(s[0]) && !IsBrace(s[|s| - 1])
    ensures TrimBraces(Trim(lead + (open + s + close) + trail, Rust)) == s
  {
    hide TrimBraces, Trim;
    BracedIsTrimmed(open, s, close);
    TrimOfPadded(lead, open + s + close, trail, Rust);
    BracesTrimmed(open, s, close);
  }

  lemma BracedIsTrimmed(open: string, s: string, close: string)
    requires open in ["", "{"] && close in ["", "}"] && s != "" && Trimmed(s, Rust)
    ensures Trimmed(open + s + close, Rust) && open + s + close != ""
  {
  }

  // --------------------------------------------- the client's request id --

  /** Random bytes with the version and variant bits of section 5.4 of RFC 9562. */
  function Version4(random: Id): Id {
    random[6 := random[6] % 16 + 0x40][8 := random[8] % 64 + 0x80]
  }

  function HexAll(u: seq<byte>): string {
    if u == [] then "" else HexPair(u[0]) + HexAll(u[1..])
  }

  /** The fallback of `newRequestId`: slices of one run of digits. */
  function NewRequestId(random: Id): string {
    var hex := HexAll(Version4(random));
    HexAllPairs(Version4(random));
    hex[..8] + "-" + hex[8..12] + "-" + hex[12..16] + "-" + hex[16..20] + "-" + hex[20..]
  }

  lemma {:induction false} HexAllPairs(u: seq<byte>)
    ensures |HexAll(u)| == 2 * |u|
    ensures forall i :: 0 <= i < |u| ==> HexAll(u)[2 * i..2 * i + 2] == HexPair(u[i])
  {
    if u != [] {
      HexAllPairs(u[1..]);
      var h, t := HexPair(u[0]), HexAll(u[1..]);
      forall i | 0 <= i < |u| ensures (h + t)[2 * i..2 * i + 2] == HexPair(u[i]) {
        if i > 0 {
          assert (h + t)[2 * i..2 * i + 2] == t[2 * (i - 1)..2 * (i - 1) + 2];
        }
      }
    }
  }

  lemma SliceOfSlices(s: string, hex: string, i: nat)
    requires |s| == 36 && |hex| == 32 && i < 16
    requires s[0..8] == hex[0..8] && s[9..13] == hex[8..12] && s[14..18] == hex[12..16] && s[19..23] == hex[16..20] && s[24..36] == hex[20..32]
    ensures s[StartOf(i)..StartOf(i) + 2] == hex[2 * i..2 * i + 2]
  {
    if i < 4 {
      SubSlice(s, hex, 0, 0, 8, 2 * i);
    } else if i < 6 {
      SubSlice(s, hex, 9, 8, 4, 2 * i - 8);
    } else if i < 8 {
      SubSlice(s, hex, 14, 12, 4, 2 * i - 12);
    } else if i < 10 {
      SubSlice(s, hex, 19, 16, 4, 2 * i - 16);
    } else {
      SubSlice(s, hex, 24, 20, 12, 2 * i - 20);
    }
  }

  /** Equal stretches hold equal pairs. */
  lemma SubSlice(s: string, t: string, i: nat, j: nat, n: nat, k: nat)
    requires i + n <= |s| && j + n <= |t| && k + 2 <= n && s[i..i + n] == t[j..j + n]
    ensures s[i + k..i + k + 2] == t[j + k..j + k + 2]
  {
    var a, b := s[i..i + n], t[j..j + n];
    assert a[k] == s[i + k] && a[k + 1] == s[i + k + 1];
    assert b[k] == t[j + k] && b[k + 1] == t[j + k + 1];
  }

  lemma SlicesAreWritten(u: Id, hex: string)
    requires |hex| == 32 && forall i :: 0 <= i < 16 ==> hex[2 * i..2 * i + 2] == HexPair(u[i])
    ensures Written(hex[..8] + "-" + hex[8..12] + "-" + hex[12..16] + "-" + hex[16..20] + "-" + hex[20..], u, 16)
  {
    hide HexPair;
    var first := hex[..8] + "-";
    var second := first + hex[8..12] + "-";
    var third := second + hex[12..16] + "-";
    var fourth := third + hex[16..20] + "-";
    var s := fourth + hex[20..];
    assert s[..24] == fourth && fourth[..19] == third && third[..14] == second && second[..9] == first;
    assert s[0..8] == hex[0..8] && s[9..13] == hex[8..12] && s[14..18] == hex[12..16] && s[19..23] == hex[16..20] && s[24..36] == hex[20..32];
    forall i | 0 <= i < 16 ensures s[StartOf(i)..StartOf(i) + 2] == HexPair(u[i]) {
      assert hex[2 * i..2 * i + 2] == HexPair(u[i]);
      SliceOfSlices(s, hex, i);
    }
  }

  lemma WrittenIsUnique(s: string, t: string, u: Id)
    requires Written(s, u, 16) && Written(t, u, 16)
    ensures s == t
  {
    hide Written;
    WrittenDigits(s, u, 0);
    WrittenDigits(t, u, 0);
    forall index | 0 <= index < 36 ensures s[index] == t[index] {
      if HyphenAt(index) {
        WrittenHyphen(s, u, index);
        WrittenHyphen(t, u, index);
      } else {
        var i := PlaceOf(index);
        WrittenDigits(s, u, i);
        WrittenDigits(t, u, i);
      }
    }
  }

  /** For any sixteen random bytes the client's id is the wire form of a
      version-4 identifier, so the server accepts it and keys it by those bytes. */
  lemma RequestIdIsAccepted(random: Id)
    ensures NewRequestId(random) == WireString(Version4(random))
    ensures Parsed(NewRequestId(random)) == Some(Version4(random))
    ensures Version4(random)[6] / 16 == 4 && Version4(random)[8] / 64 == 2
    ensures Version4(random)[6] % 16 == random[6] % 16 && Version4(random)[8] % 64 == random[8] % 64
    ensures forall i :: 0 <= i < 16 && i != 6 && i != 8 ==> Version4(random)[i] == random[i]
  {
    var u := Version4(random);
    HexAllPairs(u);
    SlicesAreWritten(u, HexAll(u));
    WireIsWritten(u, 16);
    WrittenIsUnique(NewRequestId(random), WireString(u), u);
    WireRoundTrip(u);
  }
}
