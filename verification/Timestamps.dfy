/** The store's timestamp text (`yyyy-MM-dd HH:mm:ss.SSS`) and its wire form
    (ISO-8601), written and read by `lagoon-api`'s timefmt module. */
module Timestamps {
  import opened Wrappers
  import opened Splitting
  import opened TextOrder
  import opened Decimal
  import opened Division
  import opened Calendar

  /** Milliseconds since the epoch, as the source's `i64`. */
  type Instant = t: int | -0x8000_0000_0000_0000 <= t <= 0x7FFF_FFFF_FFFF_FFFF

  function DayOf(t: int): int { t / 1000 / 86_400 }

  function SecondOfDay(t: int): (s: nat)
    ensures s < 86_400
  {
    t / 1000 % 86_400
  }

  /** The calendar year an instant falls in. */
  function YearOf(t: int): int { CivilFromDays(DayOf(t)).year }

  function FloorToSecond(t: int): int { t - t % 1000 }

  // -------------------------------------------------------------- writing --

  function DateText(d: Date): string {
    Padded(d.year, 4) + "-" + (Padded(d.month, 2) + "-" + Padded(d.day, 2))
  }

  function ClockText(secondOfDay: nat): string {
    Padded(secondOfDay / 3600, 2) + ":"
    + (Padded(secondOfDay % 3600 / 60, 2) + ":" + Padded(secondOfDay % 60, 2))
  }

  function ToStored(t: int): string {
    DateText(CivilFromDays(DayOf(t))) + " " + (ClockText(SecondOfDay(t)) + "." + Padded(t % 1000, 3))
  }

  function ToIso8601(t: int): string {
    DateText(CivilFromDays(DayOf(t))) + "T" + (ClockText(SecondOfDay(t)) + "Z")
  }

  // -------------------------------------------------------------- reading --

  function MakeTimestamp(d: Date, hour: int, minute: int, second: int): Option<int> {
    if !(1 <= d.month <= 12) || d.day < 1 || d.day > DaysInMonth(d.year, d.month) then None
    else if hour > 23 || minute > 59 || second > 59 then None
    else Some((DaysOf(d) * 86_400 + hour * 3600 + minute * 60 + second) * 1000)
  }

  /** Three hyphen-separated numbers; not yet checked against the calendar. */
  function ParseDate(text: string): Option<Date> {
    var parts := SplitOn(text, '-');
    if |parts| != 3 then None
    else
      var year :- ParseI64(parts[0]);
      var month :- ParseU32(parts[1]);
      var day :- ParseU32(parts[2]);
      Some(Date(year, month, day))
  }

  function ParseStored(raw: string): Option<int> {
    var (date, clock) :- SplitOnce(raw, ' ');
    var d :- ParseDate(date);
    var parts := SplitOn(clock, ':');
    if |parts| != 3 then None
    else
      var hour :- ParseU32(parts[0]);
      var minute :- ParseU32(parts[1]);
      var (secondText, millisText) :- SplitOnce(parts[2], '.');
      var second :- ParseU32(secondText);
      var millis :- ParseU32(millisText);
      if |millisText| != 3 then None
      else
        var base :- MakeTimestamp(d, hour, minute, second);
        Some(base + millis)
  }

  /** The last position holding one of two characters. */
  function LastOf(s: string, a: char, b: char): Option<nat> {
    if s == "" then None
    else if s[|s| - 1] == a || s[|s| - 1] == b then Some(|s| - 1)
    else LastOf(s[..|s| - 1], a, b)
  }

  function Signed(positive: bool, n: int): int { if positive then n else -n }

  /** Clock text and offset in seconds of what follows the `T`. */
  function SplitZone(rest: string): Option<(string, int)> {
    if rest != "" && rest[|rest| - 1] == 'Z' then Some((rest[..|rest| - 1], 0))
    else
      LastOfInRange(rest, '+', '-');
      var at :- LastOf(rest, '+', '-');
      var (hoursText, minutesText) :- SplitOnce(rest[at + 1..], ':');
      var hours :- ParseI64(hoursText);
      var minutes :- ParseI64(minutesText);
      Some((rest[..at], Signed(rest[at] != '-', hours * 3600 + minutes * 60)))
  }

  lemma LastOfInRange(s: string, a: char, b: char)
    ensures LastOf(s, a, b).Some? ==> LastOf(s, a, b).value < |s|
  {
  }

  /** A fraction padded and cut to exactly milliseconds. */
  function Millis3(fraction: string): string { (fraction + "000")[..3] }

  /** The reader's padding loop. */
  method PadFraction(fraction: string) returns (digits: string)
    ensures digits == Millis3(fraction)
  {
    digits := fraction;
    while |digits| < 3
      invariant |fraction| <= |digits| && (|digits| > |fraction| ==> |digits| <= 3)
      invariant digits == fraction + "000"[..|digits| - |fraction|]
    {
      digits := digits + "0";
    }
    digits := digits[..3];
  }

  function SplitFraction(clock: string): Option<(string, int)> {
    match SplitOnce(clock, '.')
    case None => Some((clock, 0))
    case Some((whole, fraction)) =>
      var millis :- ParseU32(Millis3(fraction));
      Some((whole, millis))
  }

  function ParseIso8601(raw: string): Option<int> {
    var (date, rest) :- SplitOnce(raw, 'T');
    var d :- ParseDate(date);
    var (zoned, offset) :- SplitZone(rest);
    var (clock, millis) :- SplitFraction(zoned);
    var parts := SplitOn(clock, ':');
    if |parts| != 3 then None
    else
      var hour :- ParseU32(parts[0]);
      var minute :- ParseU32(parts[1]);
      var second :- ParseU32(parts[2]);
      var base :- MakeTimestamp(d, hour, minute, second);
      Some(base + millis - offset * 1000)
  }

  /** The stored form first, ISO-8601 as the fallback; an empty or missing
      column is no timestamp. */
  function Parse(raw: Option<string>): Option<int> {
    var text :- raw;
    if text == "" then None
    else match ParseStored(text)
      case Some(t) => Some(t)
      case None => ParseIso8601(text)
  }

  // ----------------------------------------------------- field by field --

  lemma DigitsHoldNo(s: string, c: char)
    requires AllDigits(s) && !IsDigit(c)
    ensures c !in s
  {
    assert forall i :: 0 <= i < |s| ==> s[i] != c;
  }

  lemma ParseThree(a: string, b: string, c: string, sep: char)
    requires sep !in a && sep !in b && sep !in c
    ensures SplitOn(a + [sep] + (b + [sep] + c), sep) == [a, b, c]
  {
    SplitFirst(a, sep, b + [sep] + c);
    SplitFirst(b, sep, c);
    SplitNone(c, sep);
  }

  lemma ParseDateText(d: Date)
    requires 0 <= d.year <= I64_MAX && Valid(d)
    ensures ParseDate(DateText(d)) == Some(d)
  {
    var y, m, n := Padded(d.year, 4), Padded(d.month, 2), Padded(d.day, 2);
    DigitsHoldNo(y, '-');
    DigitsHoldNo(m, '-');
    DigitsHoldNo(n, '-');
    ParseThree(y, m, n, '-');
    ParsePadded(d.year, 4);
    ParsePadded(d.month, 2);
    ParsePadded(d.day, 2);
  }

  /** A negative year starts with a hyphen, so its first piece is empty. */
  lemma NegativeYearFails(d: Date)
    requires d.year < 0
    ensures ParseDate(DateText(d)) == None
  {
    var tail := DateText(d)[1..];
    assert DateText(d) == [] + ['-'] + tail;
    SplitFirst([], '-', tail);
  }

  lemma DateTextHoldsNo(d: Date, c: char)
    requires !IsDigit(c) && c != '-'
    ensures c !in DateText(d)
  {
    var y := Padded(d.year, 4);
    DigitsHoldNo(Padded(d.month, 2), c);
    DigitsHoldNo(Padded(d.day, 2), c);
    if d.year < 0 {
      DigitsHoldNo(y[1..], c);
      assert y == [y[0]] + y[1..];
    } else {
      DigitsHoldNo(y, c);
    }
  }

  lemma ClockFields(s: nat)
    requires s < 86_400
    ensures s / 3600 < 24 && s % 3600 / 60 < 60 && s % 60 < 60
    ensures s == s / 3600 * 3600 + s % 3600 / 60 * 60 + s % 60
  {
  }

  lemma MakeTimestampOfFields(d: Date, s: nat)
    requires Valid(d) && s < 86_400
    ensures MakeTimestamp(d, s / 3600, s % 3600 / 60, s % 60) == Some((DaysOf(d) * 86_400 + s) * 1000)
  {
    ClockFields(s);
  }

  /** Years of instants are far inside `i64`. */
  lemma YearInRange(t: Instant)
    ensures YearOf(t) <= I64_MAX
  {
    var era, y, doy := LocateDay(DayOf(t));
    CivilAt(era, y, doy);
  }

  lemma InstantParts(t: int)
    ensures t == (DayOf(t) * 86_400 + SecondOfDay(t)) * 1000 + t % 1000
  {
    assert t / 1000 == DayOf(t) * 86_400 + SecondOfDay(t);
  }

  // ---------------------------------------------------------- round trips --

  lemma SplitStoredClock(s: nat, ms: nat)
    requires s < 86_400 && ms < 1000
    ensures var sec := Padded(s % 60, 2) + "." + Padded(ms, 3);
            && SplitOn(ClockText(s) + "." + Padded(ms, 3), ':')
               == [Padded(s / 3600, 2), Padded(s % 3600 / 60, 2), sec]
            && SplitOnce(sec, '.') == Some((Padded(s % 60, 2), Padded(ms, 3)))
  {
    hide Padded, IsDigit;
    var h, m, sec, last := Padded(s / 3600, 2), Padded(s % 3600 / 60, 2), Padded(s % 60, 2), Padded(ms, 3);
    assert ClockText(s) + "." + last == h + [':'] + (m + [':'] + (sec + ['.'] + last));
    forall c | c in [':', '.'] ensures c !in h && c !in m && c !in sec && c !in last {
      NotDigit(c);
      DigitsHoldNo(h, c);
      DigitsHoldNo(m, c);
      DigitsHoldNo(sec, c);
      DigitsHoldNo(last, c);
    }
    ParseThree(h, m, sec + ['.'] + last, ':');
    SplitFirst(sec, '.', last);
  }

  lemma NotDigit(c: char)
    requires c in [':', '.', '-', ' ', 'T', 'Z']
    ensures !IsDigit(c)
  {
  }

  /** The reader's steps over a stored timestamp, once the date is known. */
  lemma ParseStoredClock(d: Date, s: nat, ms: nat)
    requires Valid(d) && 0 <= d.year <= I64_MAX && s < 86_400 && ms < 1000
    ensures ParseStored(DateText(d) + " " + (ClockText(s) + "." + Padded(ms, 3)))
         == Some((DaysOf(d) * 86_400 + s) * 1000 + ms)
  {
    hide DaysOf, DateText, ClockText, MakeTimestamp, Padded, ParseU32, ParseDate;
    SplitStoredClock(s, ms);
    DateTextHoldsNo(d, ' ');
    SplitFirst(DateText(d), ' ', ClockText(s) + "." + Padded(ms, 3));
    ParseDateText(d);
    ReadClock(s);
    ParsePadded(ms, 3);
    PaddedWidth(ms, 3) by { MillisFit(); }
    MakeTimestampOfFields(d, s);
  }

  lemma MillisFit()
    ensures Power10(2) == 100 && Power10(3) == 1000 && Power10(4) == 10_000
  {
  }

  /** A stored timestamp reads back as the instant it was written from, exactly
      when the instant's year is not negative. */
  lemma StoredRoundTrip(t: Instant)
    ensures ParseStored(ToStored(t)) == Some(t) <==> YearOf(t) >= 0
    ensures YearOf(t) >= 0 ==> Parse(Some(ToStored(t))) == Some(t)
  {
    hide CivilFromDays, DaysOf, DateText, ClockText, Padded, ParseDate, Valid;
    var d, s := CivilFromDays(DayOf(t)), SecondOfDay(t);
    if d.year < 0 {
      DateTextHoldsNo(d, ' ');
      SplitFirst(DateText(d), ' ', ClockText(s) + "." + Padded(t % 1000, 3));
      NegativeYearFails(d);
    } else {
      DayRoundTrip(DayOf(t));
      YearInRange(t);
      ParseStoredClock(d, s, t % 1000);
      InstantParts(t);
    }
  }

  lemma ReadClock(s: nat)
    requires s < 86_400
    ensures ParseU32(Padded(s / 3600, 2)) == Some(s / 3600)
    ensures ParseU32(Padded(s % 3600 / 60, 2)) == Some(s % 3600 / 60)
    ensures ParseU32(Padded(s % 60, 2)) == Some(s % 60)
  {
    ParsePadded(s / 3600, 2);
    ParsePadded(s % 3600 / 60, 2);
    ParsePadded(s % 60, 2);
  }

  lemma SplitClockText(s: nat)
    requires s < 86_400
    ensures SplitOn(ClockText(s), ':') == [Padded(s / 3600, 2), Padded(s % 3600 / 60, 2), Padded(s % 60, 2)]
    ensures forall c :: !IsDigit(c) && c != ':' ==> c !in ClockText(s)
  {
    var h, m, sec := Padded(s / 3600, 2), Padded(s % 3600 / 60, 2), Padded(s % 60, 2);
    DigitsHoldNo(h, ':');
    DigitsHoldNo(m, ':');
    DigitsHoldNo(sec, ':');
    ParseThree(h, m, sec, ':');
    assert ClockText(s) == h + [':'] + (m + [':'] + sec);
  }

  lemma ParseIsoClock(d: Date, s: nat)
    requires Valid(d) && 0 <= d.year <= I64_MAX && s < 86_400
    ensures ParseIso8601(DateText(d) + "T" + (ClockText(s) + "Z")) == Some((DaysOf(d) * 86_400 + s) * 1000)
  {
    hide DaysOf, DateText, ClockText, MakeTimestamp, Padded, ParseU32, ParseDate;
    var rest := ClockText(s) + "Z";
    DateTextHoldsNo(d, 'T');
    SplitFirst(DateText(d), 'T', rest);
    ParseDateText(d);
    SplitClockText(s);
    assert rest[..|rest| - 1] == ClockText(s);
    SplitNone(ClockText(s), '.');
    ReadClock(s);
    MakeTimestampOfFields(d, s);
  }

  /** The wire form keeps the instant down to the second and drops the rest
      toward the past, before the epoch too. */
  lemma IsoRoundTrip(t: Instant)
    ensures ParseIso8601(ToIso8601(t)) == Some(FloorToSecond(t)) <==> YearOf(t) >= 0
    ensures YearOf(t) >= 0 ==> Parse(Some(ToIso8601(t))) == Some(FloorToSecond(t))
  {
    hide CivilFromDays, DaysOf, DateText, ClockText, Padded, ParseDate, Valid;
    var d, s := CivilFromDays(DayOf(t)), SecondOfDay(t);
    if d.year < 0 {
      DateTextHoldsNo(d, 'T');
      SplitFirst(DateText(d), 'T', ClockText(s) + "Z");
      NegativeYearFails(d);
    } else {
      DayRoundTrip(DayOf(t));
      YearInRange(t);
      ParseIsoClock(d, s);
      InstantParts(t);
      IsoIsNotStored(d, s);
    }
  }

  lemma IsoIsNotStored(d: Date, s: nat)
    requires s < 86_400
    ensures ParseStored(DateText(d) + "T" + (ClockText(s) + "Z")) == None
  {
    hide DateText, ClockText;
    DateTextHoldsNo(d, ' ');
    SplitClockText(s);
    SplitNone(DateText(d) + "T" + (ClockText(s) + "Z"), ' ');
  }

  // ------------------------------------------------- numeric offsets --

  /** `+hh:mm` or `-hh:mm`. */
  datatype Offset = Offset(east: bool, hours: nat, minutes: nat) {
    function Seconds(): int {
      Signed(east, hours * 3600 + minutes * 60)
    }

    function Sign(): char { if east then '+' else '-' }

    function Clock(): string { Padded(hours, 2) + ":" + Padded(minutes, 2) }

    function Text(): string { [Sign()] + Clock() }
  }

  /** The instant written as local time, with milliseconds and its offset. */
  function LocalIso8601(t: int, zone: Offset): string {
    var local := t + zone.Seconds() * 1000;
    DateText(CivilFromDays(DayOf(local))) + "T"
    + (ClockText(SecondOfDay(local)) + "." + Padded(local % 1000, 3) + zone.Text())
  }

  lemma LastOfSkips(s: string, tail: string, a: char, b: char)
    requires a !in tail && b !in tail
    ensures LastOf(s + tail, a, b) == LastOf(s, a, b)
  {
    if tail == "" {
      assert s + tail == s;
    } else {
      var n := |tail| - 1;
      assert (s + tail)[..|s + tail| - 1] == s + tail[..n];
      LastOfSkips(s, tail[..n], a, b);
    }
  }

  lemma SplitHoursMinutes(zone: Offset)
    requires zone.hours <= I64_MAX && zone.minutes <= I64_MAX
    ensures var tail := zone.Clock();
            && SplitOnce(tail, ':') == Some((Padded(zone.hours, 2), Padded(zone.minutes, 2)))
            && '+' !in tail && '-' !in tail && tail != "" && tail[|tail| - 1] != 'Z'
    ensures ParseI64(Padded(zone.hours, 2)) == Some(zone.hours)
    ensures ParseI64(Padded(zone.minutes, 2)) == Some(zone.minutes)
  {
    hide Padded;
    var h, m := Padded(zone.hours, 2), Padded(zone.minutes, 2);
    forall c | c in [':', '+', '-'] ensures c !in h && c !in m {
      DigitsHoldNo(h, c);
      DigitsHoldNo(m, c);
    }
    assert zone.Clock() == h + [':'] + m;
    SplitFirst(h, ':', m);
    ParsePadded(zone.hours, 2);
    ParsePadded(zone.minutes, 2);
  }

  lemma {:induction false} SignPosition(clock: string, sign: char, tail: string)
    requires sign == '+' || sign == '-'
    requires '+' !in tail && '-' !in tail
    ensures LastOf(clock + [sign] + tail, '+', '-') == Some(|clock|)
  {
    LastOfSkips(clock + [sign], tail, '+', '-');
  }

  lemma SplitZoneAt(rest: string, at: nat, h: string, m: string, hours: int, minutes: int)
    requires at < |rest| && LastOf(rest, '+', '-') == Some(at) && rest[|rest| - 1] != 'Z'
    requires SplitOnce(rest[at + 1..], ':') == Some((h, m))
    requires ParseI64(h) == Some(hours) && ParseI64(m) == Some(minutes)
    ensures SplitZone(rest) == Some((rest[..at], Signed(rest[at] != '-', hours * 3600 + minutes * 60)))
  {
  }

  lemma SplitOffset(clock: string, zone: Offset)
    requires zone.hours <= I64_MAX && zone.minutes <= I64_MAX
    ensures SplitZone(clock + zone.Text()) == Some((clock, zone.Seconds()))
  {
    hide Padded, ParseI64, SplitOnce, SplitZone, LastOf, Offset.Clock;
    SplitHoursMinutes(zone);
    var sign, tail := zone.Sign(), zone.Clock();
    var rest := clock + [sign] + tail;
    assert clock + zone.Text() == rest;
    SignPosition(clock, sign, tail);
    assert rest[|clock| + 1..] == tail && rest[..|clock|] == clock;
    assert rest[|rest| - 1] == tail[|tail| - 1];
    SplitZoneAt(rest, |clock|, Padded(zone.hours, 2), Padded(zone.minutes, 2), zone.hours, zone.minutes);
  }

  lemma LongFraction(f: string)
    requires AllDigits(f) && |f| >= 3
    ensures ValueOf(f[..3]) == ValueOf(f) * 1000 / Power10(|f|)
  {
    MillisFit();
    var head, tail := f[..3], f[3..];
    assert f == head + tail;
    ValueOfConcat(head, tail);
    ValueIsBelow(tail);
    PowerSum(3, |f| - 3);
    hide ValueOf, Power10;
    CutPlaces(ValueOf(head), ValueOf(tail), Power10(|f| - 3));
  }

  lemma ShortFraction(f: string)
    requires AllDigits(f) && |f| < 3
    ensures AllDigits(f + "000"[|f|..]) && ValueOf(f + "000"[|f|..]) == ValueOf(f) * 1000 / Power10(|f|)
  {
    MillisFit();
    var n := |f|;
    ValueOfZeros(3 - n);
    ValueOfConcat(f, "000"[n..]);
    PowerSum(n, 3 - n);
    hide ValueOf, Power10;
    FillPlaces(ValueOf(f), Power10(n), Power10(3 - n));
  }

  /** Milliseconds are the first three places of the fraction, missing places
      being zeros at its end. */
  lemma FractionOfSecond(f: string)
    requires AllDigits(f)
    ensures AllDigits(Millis3(f)) && |Millis3(f)| == 3
    ensures ValueOf(Millis3(f)) == ValueOf(f) * 1000 / Power10(|f|)
  {
    hide ValueOf, Power10;
    if |f| >= 3 {
      LongFraction(f);
      assert Millis3(f) == f[..3];
    } else {
      ShortFraction(f);
      assert Millis3(f) == f + "000"[|f|..];
    }
  }

  lemma CutPlaces(head: nat, tail: nat, p: nat)
    requires tail < p
    ensures (head * p + tail) * 1000 / (1000 * p) == head
  {
    QuotientIsUnique((head * p + tail) * 1000, 1000 * p, head, tail * 1000);
  }

  lemma FillPlaces(v: nat, p: nat, q: nat)
    requires p > 0 && p * q == 1000
    ensures v * 1000 / p == v * q
  {
    assert v * 1000 == v * q * p;
    QuotientIsUnique(v * 1000, p, v * q, 0);
  }

  lemma ValueOfZeros(n: nat)
    requires n <= 3
    ensures var zeros := "000"[3 - n..];
            AllDigits(zeros) && |zeros| == n && ValueOf(zeros) == 0
  {
    assert "000"[0..] == "000" && "000"[1..] == "00" && "000"[2..] == "0" && "000"[3..] == "";
    assert "000"[..2] == "00" && "00"[..1] == "0" && "0"[..0] == "";
    assert ValueOf("0") == 0 && ValueOf("00") == 0 && ValueOf("000") == 0;
  }

  lemma ReadFraction(s: nat, f: string)
    requires s < 86_400 && AllDigits(f)
    ensures SplitFraction(ClockText(s) + "." + f) == Some((ClockText(s), ValueOf(f) * 1000 / Power10(|f|)))
  {
    SplitClockText(s);
    SplitFirst(ClockText(s), '.', f);
    FractionOfSecond(f);
    ValueIsBelow(Millis3(f));
    MillisFit();
    hide ValueOf, Millis3;
    assert Millis3(f)[0] != '+';
  }

  /** `Z`, or a numeric offset. */
  function ZoneSuffix(zone: Option<Offset>): string { if zone == None then "Z" else zone.value.Text() }

  function ZoneSeconds(zone: Option<Offset>): int { if zone == None then 0 else zone.value.Seconds() }

  lemma SplitAnyZone(clock: string, zone: Option<Offset>)
    requires zone.Some? ==> zone.value.hours <= I64_MAX && zone.value.minutes <= I64_MAX
    ensures SplitZone(clock + ZoneSuffix(zone)) == Some((clock, ZoneSeconds(zone)))
  {
    if zone.Some? {
      SplitOffset(clock, zone.value);
    } else {
      assert (clock + "Z")[..|clock|] == clock;
    }
  }

  lemma ParsesAs(raw: string, date: string, rest: string, d: Date, zoned: string, offset: int, s: nat, millis: int)
    requires SplitOnce(raw, 'T') == Some((date, rest)) && ParseDate(date) == Some(d)
    requires SplitZone(rest) == Some((zoned, offset)) && SplitFraction(zoned) == Some((ClockText(s), millis))
    requires Valid(d) && s < 86_400
    ensures ParseIso8601(raw) == Some((DaysOf(d) * 86_400 + s) * 1000 + millis - offset * 1000)
  {
    hide DaysOf, ClockText, MakeTimestamp, Padded, ParseU32, ParseDate, SplitZone, SplitFraction, SplitOnce, Valid;
    SplitClockText(s);
    ReadClock(s);
    MakeTimestampOfFields(d, s);
  }

  /** A second with any decimal fraction, however many digits it has, and any
      zone: the instant is the second plus the fraction's whole milliseconds,
      less the offset. */
  lemma FractionIsRead(d: Date, s: nat, f: string, zone: Option<Offset>)
    requires Valid(d) && 0 <= d.year <= I64_MAX && s < 86_400 && AllDigits(f)
    requires zone.Some? ==> zone.value.hours <= I64_MAX && zone.value.minutes <= I64_MAX
    ensures ParseIso8601(DateText(d) + "T" + (ClockText(s) + "." + f + ZoneSuffix(zone)))
         == Some((DaysOf(d) * 86_400 + s) * 1000 + ValueOf(f) * 1000 / Power10(|f|) - ZoneSeconds(zone) * 1000)
  {
    hide DaysOf, DateText, ClockText, ParseIso8601, ParseDate, ZoneSuffix, ZoneSeconds, SplitZone, SplitFraction, SplitOnce,
         ValueOf, Power10, Valid;
    var zoned := ClockText(s) + "." + f;
    var rest := zoned + ZoneSuffix(zone);
    DateTextHoldsNo(d, 'T');
    SplitFirst(DateText(d), 'T', rest);
    assert DateText(d) + ['T'] + rest == DateText(d) + "T" + rest;
    ParseDateText(d);
    SplitAnyZone(zoned, zone);
    ReadFraction(s, f);
    var millis := ValueOf(f) * 1000 / Power10(|f|);
    ParsesAs(DateText(d) + "T" + rest, DateText(d), rest, d, zoned, ZoneSeconds(zone), s, millis);
  }

  /** Local time with any numeric offset names the same instant, to the
      millisecond, whatever the sign and size of the offset. */
  lemma OffsetRoundTrip(t: Instant, zone: Offset)
    requires zone.hours <= I64_MAX && zone.minutes <= I64_MAX
    requires 0 <= YearOf(t + zone.Seconds() * 1000) <= I64_MAX
    ensures ParseIso8601(LocalIso8601(t, zone)) == Some(t)
  {
    hide CivilFromDays, DaysOf, DateText, ClockText, Padded, Valid, Offset.Text, Offset.Seconds, ParseIso8601, ValueOf, Power10;
    var local := t + zone.Seconds() * 1000;
    var d, s, ms := CivilFromDays(DayOf(local)), SecondOfDay(local), local % 1000;
    DayRoundTrip(DayOf(local));
    InstantParts(local);
    MillisFit();
    PaddedWidth(ms, 3);
    ParsePadded(ms, 3);
    FractionIsRead(d, s, Padded(ms, 3), Some(zone));
  }

  /** Only real dates and clock times make an instant, and then it falls on that
      date at that time. */
  lemma OnlyRealTimes(d: Date, hour: nat, minute: nat, second: nat)
    ensures MakeTimestamp(d, hour, minute, second).Some? <==> Valid(d) && hour < 24 && minute < 60 && second < 60
    ensures MakeTimestamp(d, hour, minute, second).Some? ==>
              var t := MakeTimestamp(d, hour, minute, second).value;
              CivilFromDays(DayOf(t)) == d && SecondOfDay(t) == hour * 3600 + minute * 60 + second
  {
    hide CivilFromDays, DaysOf;
    if MakeTimestamp(d, hour, minute, second).Some? {
      CivilRoundTrip(d);
      var day, clock := DaysOf(d), hour * 3600 + minute * 60 + second;
      assert (day * 86_400 + clock) * 1000 / 1000 == day * 86_400 + clock;
    }
  }

  /** The six numbers of a stored timestamp, as text. */
  datatype StoredText = StoredText(year: string, month: string, day: string, hour: string, minute: string, second: string,
                                   millis: string) {
    function Text(): string {
      year + "-" + (month + "-" + day) + " " + (hour + ":" + (minute + ":" + (second + "." + millis)))
    }

    /** Seven numbers naming a real date and clock time, the last of three
        digits. */
    predicate Names(t: int) {
      && ParseI64(year).Some? && ParseU32(month).Some? && ParseU32(day).Some?
      && ParseU32(hour).Some? && ParseU32(minute).Some? && ParseU32(second).Some? && ParseU32(millis).Some? && |millis| == 3
      && var d := Date(ParseI64(year).value, ParseU32(month).value, ParseU32(day).value);
         Valid(d) && ParseU32(hour).value < 24 && ParseU32(minute).value < 60 && ParseU32(second).value < 60
         && t == (DaysOf(d) * 86_400 + ParseU32(hour).value * 3600 + ParseU32(minute).value * 60 + ParseU32(second).value) * 1000
                 + ParseU32(millis).value
    }
  }

  lemma ThreePieces(s: string, c: char)
    requires |SplitOn(s, c)| == 3
    ensures var p := SplitOn(s, c); s == p[0] + [c] + (p[1] + [c] + p[2])
  {
    var p := SplitOn(s, c);
    JoinInvertsSplit(s, c);
    assert p[1..][1..] == [p[2]] && p[1..][0] == p[1];
    assert Join([p[2]], [c]) == p[2];
    assert Join(p[1..], [c]) == p[1] + [c] + p[2];
  }

  lemma DateIsShaped(text: string) returns (year: string, month: string, day: string)
    requires ParseDate(text).Some?
    ensures text == year + "-" + (month + "-" + day)
    ensures ParseI64(year).Some? && ParseU32(month).Some? && ParseU32(day).Some?
    ensures ParseDate(text) == Some(Date(ParseI64(year).value, ParseU32(month).value, ParseU32(day).value))
  {
    hide ParseI64, ParseU32, SplitOn;
    ThreePieces(text, '-');
    year, month, day := SplitOn(text, '-')[0], SplitOn(text, '-')[1], SplitOn(text, '-')[2];
  }

  /** Whatever reads as a stored timestamp was written as one: seven numbers in
      their places, the last of three digits, naming the instant read. */
  lemma StoredIsShaped(raw: string) returns (x: StoredText)
    requires ParseStored(raw).Some?
    ensures raw == x.Text() && x.Names(ParseStored(raw).value)
  {
    hide ParseI64, ParseU32, SplitOn, SplitOnce, DaysOf, ParseDate, Valid;
    SplitOnceParts(raw, ' ');
    var (date, clock) := SplitOnce(raw, ' ').value;
    var year, month, day := DateIsShaped(date);
    ThreePieces(clock, ':');
    var parts := SplitOn(clock, ':');
    SplitOnceParts(parts[2], '.');
    var (second, millis) := SplitOnce(parts[2], '.').value;
    x := StoredText(year, month, day, parts[0], parts[1], second, millis);
    OnlyValidDates(ParseDate(date).value, ParseU32(parts[0]).value, ParseU32(parts[1]).value, ParseU32(second).value);
    ClockJoins(parts[0], parts[1], second, millis);
  }

  lemma OnlyValidDates(d: Date, hour: int, minute: int, second: int)
    ensures MakeTimestamp(d, hour, minute, second).Some? ==>
              Valid(d) && hour < 24 && minute < 60 && second < 60
              && MakeTimestamp(d, hour, minute, second).value == (DaysOf(d) * 86_400 + hour * 3600 + minute * 60 + second) * 1000
  {
    hide DaysOf;
  }

  lemma ClockJoins(h: string, m: string, s: string, ms: string)
    ensures h + [':'] + (m + [':'] + (s + ['.'] + ms)) == h + ":" + (m + ":" + (s + "." + ms))
  {
  }

  // ----------------------------------------- text order is time order --

  lemma JoinOrder(p: string, q: string, sep: string, a: string, b: string)
    requires |p| == |q|
    ensures Less(p + sep + a, q + sep + b) <==> Less(p, q) || (p == q && Less(a, b))
    ensures p == q && a == b ==> p + sep + a == q + sep + b
    ensures |a| == |b| ==> |p + sep + a| == |q + sep + b|
  {
    LessThroughPrefix(p + sep, q + sep, a, b);
    LessThroughPrefix(p, q, sep, sep);
    LessIsStrict(sep, sep);
    assert p + sep == q + sep <==> p == q by {
      assert (p + sep)[..|p|] == p && (q + sep)[..|q|] == q;
    }
  }

  lemma DateOrder(a: Date, b: Date)
    requires Valid(a) && Valid(b) && a.year == b.year
    ensures |DateText(a)| == |DateText(b)|
    ensures Before(a, b) ==> Less(DateText(a), DateText(b))
  {
    hide Padded, Less;
    MillisFit();
    PaddedOrder(a.month, b.month, 2);
    PaddedOrder(a.day, b.day, 2);
    var restA, restB := Padded(a.month, 2) + "-" + Padded(a.day, 2), Padded(b.month, 2) + "-" + Padded(b.day, 2);
    JoinOrder(Padded(a.month, 2), Padded(b.month, 2), "-", Padded(a.day, 2), Padded(b.day, 2));
    JoinOrder(Padded(a.year, 4), Padded(b.year, 4), "-", restA, restB);
  }

  lemma {:induction false} ClockOrder(s: nat, r: nat)
    requires s < 86_400 && r < 86_400
    ensures |ClockText(s)| == |ClockText(r)|
    ensures s < r ==> Less(ClockText(s), ClockText(r))
  {
    hide Padded, Less;
    MillisFit();
    ClockFields(s);
    ClockFields(r);
    PaddedOrder(s / 3600, r / 3600, 2);
    PaddedOrder(s % 3600 / 60, r % 3600 / 60, 2);
    PaddedOrder(s % 60, r % 60, 2);
    JoinOrder(Padded(s % 3600 / 60, 2), Padded(r % 3600 / 60, 2), ":", Padded(s % 60, 2), Padded(r % 60, 2));
    JoinOrder(Padded(s / 3600, 2), Padded(r / 3600, 2), ":",
              Padded(s % 3600 / 60, 2) + ":" + Padded(s % 60, 2), Padded(r % 3600 / 60, 2) + ":" + Padded(r % 60, 2));
  }

  /** Within one year the stored text sorts by time, whatever the year. */
  lemma EarlierInYear(a: Instant, b: Instant)
    requires YearOf(a) == YearOf(b) && a < b
    ensures Less(ToStored(a), ToStored(b))
  {
    hide CivilFromDays, DateText, ClockText, Padded, Less, Valid, Before;
    var dA, dB := CivilFromDays(DayOf(a)), CivilFromDays(DayOf(b));
    var sA, sB := SecondOfDay(a), SecondOfDay(b);
    InstantParts(a);
    InstantParts(b);
    DayRoundTrip(DayOf(a));
    DayRoundTrip(DayOf(b));
    DateOrder(dA, dB);
    ClockOrder(sA, sB);
    MillisFit();
    PaddedOrder(a % 1000, b % 1000, 3);
    if DayOf(a) < DayOf(b) {
      CivilIsMonotone(DayOf(a), DayOf(b));
    }
    JoinOrder(ClockText(sA), ClockText(sB), ".", Padded(a % 1000, 3), Padded(b % 1000, 3));
    JoinOrder(DateText(dA), DateText(dB), " ",
              ClockText(sA) + "." + Padded(a % 1000, 3), ClockText(sB) + "." + Padded(b % 1000, 3));
  }

  // ------------------------------------------------- across the years --

  /** A printed year that sorts before another, whatever follows either. */
  predicate Leads(y: int, z: int) {
    exists k | 0 <= k <= |Padded(y, 4)| && k <= |Padded(z, 4)| :: Less(Padded(y, 4)[..k], Padded(z, 4)[..k])
  }

  lemma LeadsDecides(y: int, z: int, a: string, b: string)
    requires Leads(y, z)
    ensures Less(Padded(y, 4) + a, Padded(z, 4) + b)
  {
    hide Less, Padded;
    var p, q := Padded(y, 4), Padded(z, 4);
    var k :| 0 <= k <= |p| && k <= |q| && Less(p[..k], q[..k]);
    LessThroughPrefix(p[..k], q[..k], p[k..] + a, q[k..] + b);
    assert p + a == p[..k] + (p[k..] + a) && q + b == q[..k] + (q[k..] + b);
  }

  lemma YearComesFirst(t: int) returns (rest: string)
    ensures ToStored(t) == Padded(YearOf(t), 4) + rest
  {
    hide CivilFromDays, ClockText, Padded;
    var d := CivilFromDays(DayOf(t));
    var tail := " " + (ClockText(SecondOfDay(t)) + "." + Padded(t % 1000, 3));
    var date := "-" + (Padded(d.month, 2) + "-" + Padded(d.day, 2));
    rest := date + tail;
    assert DateText(d) == Padded(d.year, 4) + date;
    assert ToStored(t) == DateText(d) + tail;
    assert Padded(d.year, 4) + date + tail == Padded(d.year, 4) + rest;
  }

  lemma LeadingYear(a: int, b: int)
    requires Leads(YearOf(a), YearOf(b))
    ensures Less(ToStored(a), ToStored(b))
  {
    var x := YearComesFirst(a);
    var y := YearComesFirst(b);
    hide Leads, ToStored, YearOf;
    LeadsDecides(YearOf(a), YearOf(b), x, y);
  }

  lemma YearsGrow(a: int, b: int)
    requires a <= b
    ensures YearOf(a) <= YearOf(b)
  {
    hide CivilFromDays;
    if DayOf(a) < DayOf(b) {
      CivilIsMonotone(DayOf(a), DayOf(b));
    }
  }

  /** Two instants sort by time when their printed years lead in their order. */
  lemma EarlierIsLess(a: Instant, b: Instant)
    requires a < b && (YearOf(a) < YearOf(b) ==> Leads(YearOf(a), YearOf(b)))
    ensures Less(ToStored(a), ToStored(b))
  {
    YearsGrow(a, b);
    hide YearOf, ToStored, Leads;
    if YearOf(a) == YearOf(b) {
      EarlierInYear(a, b);
    } else {
      LeadingYear(a, b);
    }
  }

  /** All instants of these years sort as text as they do in time. */
  ghost predicate SortsAsTime(lo: int, hi: int) {
    forall a: Instant, b: Instant ::
      lo <= YearOf(a) <= hi && lo <= YearOf(b) <= hi ==> (Less(ToStored(a), ToStored(b)) <==> a < b)
  }

  lemma LeadingYearsSort(lo: int, hi: int)
    requires forall y, z :: lo <= y < z <= hi ==> Leads(y, z)
    ensures SortsAsTime(lo, hi)
  {
    hide YearOf, ToStored, Leads, Less;
    forall a: Instant, b: Instant | lo <= YearOf(a) <= hi && lo <= YearOf(b) <= hi
      ensures Less(ToStored(a), ToStored(b)) <==> a < b
    {
      LessIsStrict(ToStored(a), ToStored(b));
      if a < b {
        EarlierIsLess(a, b);
      } else if b < a {
        EarlierIsLess(b, a);
      }
    }
  }

  /** The first instant of a year. */
  function NewYear(y: int): int { DaysFromCivil(y, 1, 1) * 86_400_000 }

  lemma AroundNewYear(y: int)
    ensures YearOf(NewYear(y)) == y && YearOf(NewYear(y) - 1) == y - 1
  {
    hide CivilFromDays, DaysFromCivil;
    var d, e := Date(y, 1, 1), Date(y - 1, 12, 31);
    var day := DaysFromCivil(y, 1, 1);
    assert Valid(d) && Valid(e) && NextDay(e) == d;
    CivilRoundTrip(d);
    CivilRoundTrip(e);
    NextDayAddsOne(e);
    assert DayOf(NewYear(y)) == day && DayOf(NewYear(y) - 1) == day - 1;
  }

  ghost predicate Reachable(y: int) { exists t: Instant :: YearOf(t) == y }

  /** New year divides the instants by year. */
  lemma NewYearDivides(t: int, y: int)
    ensures t < NewYear(y) <==> YearOf(t) < y
  {
    hide YearOf, NewYear;
    AroundNewYear(y);
    if t < NewYear(y) {
      YearsGrow(t, NewYear(y) - 1);
    } else {
      YearsGrow(NewYear(y), t);
    }
  }

  /** New year between two reachable years is an instant, and so is the
      millisecond before it. */
  lemma NewYearIsInstant(lo: int, y: int, hi: int)
    requires Reachable(lo) && Reachable(hi) && lo < y <= hi
    ensures -0x8000_0000_0000_0000 <= NewYear(y) - 1 && NewYear(y) <= 0x7FFF_FFFF_FFFF_FFFF
  {
    hide YearOf, NewYear;
    var a: Instant :| YearOf(a) == lo;
    var b: Instant :| YearOf(b) == hi;
    NewYearDivides(a, y);
    NewYearDivides(b, y);
  }

  /** Two neighbouring years printed the wrong way round: the text order fails
      across their new year. */
  lemma WrongAtNewYear(lo: int, y: int, hi: int)
    requires Reachable(lo) && Reachable(hi) && lo < y <= hi && Leads(y, y - 1)
    ensures !SortsAsTime(lo, hi)
  {
    hide YearOf, NewYear, ToStored, Leads, Less;
    NewYearIsInstant(lo, y, hi);
    AroundNewYear(y);
    var before: Instant, after: Instant := NewYear(y) - 1, NewYear(y);
    LeadingYear(after, before);
    LessIsStrict(ToStored(before), ToStored(after));
    assert lo <= YearOf(before) <= hi && lo <= YearOf(after) <= hi;
  }

  // ------------------------------------------- which years lead which --

  lemma WidthOf(y: int)
    ensures |Padded(y, 4)| == if y < 0 then 1 + (if |Digits(-y)| < 3 then 3 else |Digits(-y)|)
                              else if |Digits(y)| < 4 then 4 else |Digits(y)|
    ensures y >= 0 && |Digits(y)| >= 4 ==> Padded(y, 4) == Digits(y)
    ensures y < 0 && |Digits(-y)| >= 3 ==> Padded(y, 4) == "-" + Digits(-y)
  {
    if y < 0 {
      ZeroFillIsWide(Digits(-y), 3);
    } else {
      ZeroFillIsWide(Digits(y), 4);
    }
  }

  lemma FourWide(y: nat)
    ensures |Padded(y, 4)| == 4 <==> y <= 9999
  {
    WidthOf(y);
    MillisFit();
    if y <= 9999 {
      DigitsFit(y, 4);
    } else {
      DigitsGrow(10_000, y);
      assert |Digits(10)| == 2 && |Digits(100)| == 3 && |Digits(1000)| == 4 && |Digits(10_000)| == 5;
    }
  }

  lemma LeadsAt(y: int, z: int, k: nat)
    requires k <= |Padded(y, 4)| && k <= |Padded(z, 4)| && Less(Padded(y, 4)[..k], Padded(z, 4)[..k])
    ensures Leads(y, z)
  {
  }

  /** Of one width, the smaller year leads; a negative one is led by its
      successor. */
  lemma SameWidthLeads(y: int, z: int)
    requires y < z && |Padded(y, 4)| == |Padded(z, 4)|
    ensures 0 <= y ==> Leads(y, z)
    ensures z < 0 ==> Leads(z, y)
  {
    var n := |Padded(y, 4)|;
    assert Padded(y, 4)[..n] == Padded(y, 4) && Padded(z, 4)[..n] == Padded(z, 4);
    if 0 <= y {
      SameWidthOrder(y, z, 4);
      LeadsAt(y, z, n);
    } else if z < 0 {
      NegativeOrder(z, y);
      LeadsAt(z, y, n);
    }
  }

  /** Behind the minus sign the larger number is the earlier year. */
  lemma NegativeOrder(z: int, y: int)
    requires y < z < 0 && |Padded(y, 4)| == |Padded(z, 4)|
    ensures Less(Padded(z, 4), Padded(y, 4))
  {
    var p, q := ZeroFill(Digits(-z), 3), ZeroFill(Digits(-y), 3);
    ValueOfDigits(-z);
    ValueOfDigits(-y);
    ValueOfZeroFill(Digits(-z), 3);
    ValueOfZeroFill(Digits(-y), 3);
    DigitOrder(p, q);
    LessThroughPrefix("-", "-", p, q);
  }

  lemma MinusLeads(y: int, z: int)
    requires y < 0 <= z
    ensures Leads(y, z)
  {
    var p, q := Padded(y, 4), Padded(z, 4);
    assert p[..1] == "-" && IsDigit(q[0]) && q[..1] == [q[0]];
    LeadsAt(y, z, 1);
  }

  /** Where the year grows a digit, the order is the text's: wrong from 9999 on,
      right before -999. */
  lemma WiderLeads(y: int)
    requires y >= 1 && |Padded(y, 4)| != |Padded(y - 1, 4)|
    ensures Leads(y, y - 1)
  {
    WidthOf(y);
    WidthOf(y - 1);
    DigitsGrow(y - 1, y);
    DigitStep(y);
    assert Padded(y, 4)[..1] == "1" && Padded(y - 1, 4)[..1] == "9";
    LeadsAt(y, y - 1, 1);
  }

  lemma NegativeWidths(y: int)
    requires y + 1 < 0 && |Padded(y, 4)| != |Padded(y + 1, 4)|
    ensures |Digits(-y)| > 3 && |Digits(-y - 1)| + 1 == |Digits(-y)|
    ensures |Padded(y + 2, 4)| == |Padded(y + 1, 4)| && y + 2 < 0
  {
    hide Padded;
    WidthOf(y);
    WidthOf(y + 1);
    DigitsGrow(-y - 1, -y);
    DigitStep(-y);
    assert -y >= 10;
    WidthOf(y + 2);
  }

  lemma NegativeWiderLeads(y: int)
    requires y + 1 < 0 && |Padded(y, 4)| != |Padded(y + 1, 4)|
    ensures Leads(y, y + 1)
  {
    hide Padded, Less;
    NegativeWidths(y);
    WidthOf(y);
    WidthOf(y + 1);
    DigitStep(-y);
    var p, q := Padded(y, 4), Padded(y + 1, 4);
    assert p[..2] == "-" + "1" && q[..2] == "-" + "9";
    LessThroughPrefix("-", "-", "1", "9");
    OneBeforeNine();
    LeadsAt(y, y + 1, 2);
  }

  lemma OneBeforeNine()
    ensures Less("1", "9")
  {
  }

  /** The spans of years whose instants sort as text: one year; -1 to 9999; years
      of one number of digits; and the last year of a digit count before zero
      with the first of the next. */
  predicate SortableYears(lo: int, hi: int) {
    lo == hi
    || (-1 <= lo && hi <= 9999)
    || (0 <= lo <= hi && |Digits(lo)| == |Digits(hi)|)
    || (hi == lo + 1 < 0 && |Digits(-lo)| > 3 && |Digits(-hi)| < |Digits(-lo)|)
  }

  lemma SortableLeads(lo: int, hi: int, y: int, z: int)
    requires SortableYears(lo, hi) && lo <= y < z <= hi
    ensures Leads(y, z)
  {
    hide Leads, Padded, Digits;
    if y < 0 <= z {
      MinusLeads(y, z);
    } else if 0 <= y {
      WidthOf(y);
      WidthOf(z);
      if hi <= 9999 {
        FourWide(y);
        FourWide(z);
      } else {
        DigitsGrow(lo, y);
        DigitsGrow(y, z);
        DigitsGrow(z, hi);
      }
      SameWidthLeads(y, z);
    } else {
      WidthOf(y);
      WidthOf(z);
      NegativeWiderLeads(y);
    }
  }

  lemma {:induction false} FindWider(lo: nat, hi: nat) returns (y: nat)
    requires lo < hi && |Padded(lo, 4)| != |Padded(hi, 4)|
    ensures lo < y <= hi && |Padded(y, 4)| != |Padded(y - 1, 4)|
    decreases hi
  {
    if |Padded(hi, 4)| != |Padded(hi - 1, 4)| {
      y := hi;
    } else {
      y := FindWider(lo, hi - 1);
    }
  }

  lemma WrongPastNines(lo: int, hi: int)
    requires Reachable(lo) && Reachable(hi) && -1 <= lo < hi && !SortableYears(lo, hi)
    ensures !SortsAsTime(lo, hi)
  {
    hide Padded, Leads, Reachable, SortsAsTime, Digits;
    var from := if lo < 0 then 0 else lo;
    FourWide(hi);
    FourWide(from);
    WidthOf(hi);
    WidthOf(from);
    var y := FindWider(from, hi);
    WiderLeads(y);
    WrongAtNewYear(lo, y, hi);
  }

  lemma WrongBeforeZero(lo: int, hi: int)
    requires Reachable(lo) && Reachable(hi) && lo < -1 && lo < hi && !SortableYears(lo, hi)
    ensures !SortsAsTime(lo, hi)
  {
    hide Padded, Leads, Reachable, SortsAsTime, Digits;
    if |Padded(lo, 4)| == |Padded(lo + 1, 4)| {
      SameWidthLeads(lo, lo + 1);
      WrongAtNewYear(lo, lo + 1, hi);
    } else {
      NegativeWidths(lo);
      SameWidthLeads(lo + 1, lo + 2);
      WrongAtNewYear(lo, lo + 2, hi);
    }
  }

  /** Over any span of years an instant can have, the stored text sorts as time
      exactly when the span is one of those above. */
  lemma StoredOrderExactly(lo: int, hi: int)
    requires lo <= hi && Reachable(lo) && Reachable(hi)
    ensures SortsAsTime(lo, hi) <==> SortableYears(lo, hi)
  {
    hide Leads, Reachable, SortsAsTime, Digits;
    if SortableYears(lo, hi) {
      forall y, z | lo <= y < z <= hi ensures Leads(y, z) {
        SortableLeads(lo, hi, y, z);
      }
      LeadingYearsSort(lo, hi);
    } else if lo < -1 {
      WrongBeforeZero(lo, hi);
    } else {
      WrongPastNines(lo, hi);
    }
  }

  /** In the years 0000 to 9999 the expiry test `expires_at <= now` on two texts
      compares the two instants. */
  lemma StoredOrder(a: Instant, b: Instant)
    requires 0 <= YearOf(a) <= 9999 && 0 <= YearOf(b) <= 9999
    ensures Less(ToStored(a), ToStored(b)) <==> a < b
    ensures AtMost(ToStored(a), ToStored(b)) <==> a <= b
  {
    hide Less, YearOf, ToStored, Leads;
    LessIsStrict(ToStored(a), ToStored(b));
    if a < b {
      if YearOf(a) < YearOf(b) {
        SortableLeads(0, 9999, YearOf(a), YearOf(b));
      }
      EarlierIsLess(a, b);
    } else if b < a {
      if YearOf(b) < YearOf(a) {
        SortableLeads(0, 9999, YearOf(b), YearOf(a));
      }
      EarlierIsLess(b, a);
    }
  }

  /** The nearest failures on either side: the new years of 10000 and of -1. */
  lemma OrderFails()
    ensures Less(ToStored(NewYear(10_000)), ToStored(NewYear(10_000) - 1))
    ensures Less(ToStored(NewYear(-1)), ToStored(NewYear(-1) - 1))
  {
    hide Leads, ToStored, NewYear, YearOf;
    AroundNewYear(10_000);
    AroundNewYear(-1);
    FourWide(9999);
    FourWide(10_000);
    WiderLeads(10_000);
    WidthOf(-1);
    WidthOf(-2);
    SameWidthLeads(-2, -1);
    LeadingYear(NewYear(10_000), NewYear(10_000) - 1);
    LeadingYear(NewYear(-1), NewYear(-1) - 1);
  }
}
