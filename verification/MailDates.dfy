/** The mail crate's dates: the RFC 5322 `Date` header it writes and the IMAP
    `INTERNALDATE` it reads. Its civil arithmetic is the same as the API
    crate's, so both use module Calendar. */
module MailDates {
  import opened Wrappers
  import opened Letters
  import opened Splitting
  import opened Decimal
  import opened Division
  import opened Calendar
  import opened Timestamps
  import opened Whitespace

  const WEEKDAYS: seq<string> := ["Sun", "Mon", "Tue", "Wed", "Thu", "Fri", "Sat"]
  const MONTHS: seq<string> :=
    ["Jan", "Feb", "Mar", "Apr", "May", "Jun", "Jul", "Aug", "Sep", "Oct", "Nov", "Dec"]

  // ------------------------------------------------------ RFC 5322 dates --

  function WeekdayOfDay(days: int): (w: nat)
    ensures w < 7
  {
    (days + 4) % 7
  }

  /** The header's parts: the day-name, the date and the second of the day. */
  function HeaderText(weekday: nat, d: Date, s: nat): string
    requires weekday < 7 && 1 <= d.month <= 12
  {
    WEEKDAYS[weekday] + ", " + Padded(d.day, 2) + " " + MONTHS[d.month - 1] + " " + Padded(d.year, 4)
    + " " + ClockText(s) + " +0000"
  }

  function FormatRfc5322Date(unix: int): string {
    var days := unix / 86_400;
    DayRoundTrip(days);
    HeaderText(WeekdayOfDay(days), CivilFromDays(days), unix % 86_400)
  }

  /** Zeller's congruence, counted from Sunday: the weekday from the printed
      year, month and day alone. */
  function Zeller(d: Date): (w: nat)
    ensures w < 7
  {
    var y := if d.month <= 2 then d.year - 1 else d.year;
    var m := if d.month <= 2 then d.month + 12 else d.month;
    (d.day + 13 * (m + 1) / 5 + y + y / 4 - y / 100 + y / 400 + 6) % 7
  }

  lemma CenturyTerms(era: int, y: int)
    requires 0 <= y < 400
    ensures var year := y + era * 400;
            year + year / 4 - year / 100 + year / 400 == 497 * era + y + y / 4 - y / 100
  {
    var year := y + era * 400;
    QuotientIsUnique(year, 400, era, y);
    QuotientIsUnique(year, 100, 4 * era + y / 100, y % 100);
    QuotientIsUnique(year, 4, 100 * era + y / 4, y % 4);
  }

  lemma MonthTerms(m: int)
    requires 0 <= m <= 11
    ensures 13 * (m + 4) / 5 == 2 * m + 10 + (3 * m + 2) / 5
    ensures (153 * m + 2) / 5 == 30 * m + (3 * m + 2) / 5
  {
  }

  lemma ZellerAt(era: int, y: int, doy: int)
    requires 0 <= y < 400 && 0 <= doy <= 365
    ensures Zeller(DateAt(era, y, doy)) == WeekdayOfDay(DayAt(era, y, doy))
  {
    MonthOfYear(doy);
    var d := DateAt(era, y, doy);
    var m := (5 * doy + 2) / 153;
    CenturyTerms(era, y);
    MonthTerms(m);
    ZellerSum(d, era, y, m);
    ModRepeats(d.day + 2 * m + (3 * m + 2) / 5 + y + y / 4 - y / 100 + 16, 7, 71 * era);
    ModRepeats(d.day + 2 * m + (3 * m + 2) / 5 + y + y / 4 - y / 100 + 16, 7,
               20_871 * era + 52 * y + 4 * m - 102_783);
  }

  lemma ZellerSum(d: Date, era: int, y: int, m: int)
    requires 0 <= y < 400 && 0 <= m <= 11
    requires d.month == (if m < 10 then m + 3 else m - 9)
    requires d.year == y + era * 400 + (if m < 10 then 0 else 1)
    ensures Zeller(d) == (d.day + 2 * m + (3 * m + 2) / 5 + y + y / 4 - y / 100 + 16 + 7 * (71 * era)) % 7
  {
    CenturyTerms(era, y);
    MonthTerms(m);
  }

  /** The day-name printed is the day implied by the date printed, as section
      3.3 of RFC 5322 requires, and the date is the instant's own. */
  lemma HeaderNamesItsDay(unix: int)
    ensures var d := CivilFromDays(unix / 86_400);
            && Valid(d)
            && FormatRfc5322Date(unix) == HeaderText(Zeller(d), d, unix % 86_400)
            && DaysOf(d) * 86_400 + unix % 86_400 == unix
  {
    hide CivilFromDays, DaysOf, Zeller, DateAt, HeaderText, WeekdayOfDay, YearLength, Valid;
    var days := unix / 86_400;
    DayRoundTrip(days);
    var era, y, doy := LocateDay(days);
    CivilAt(era, y, doy);
    ZellerAt(era, y, doy);
  }

  // ------------------------------------------------------ IMAP dates --

  predicate SameIgnoringCase(a: string, b: string) {
    |a| == |b| && forall i :: 0 <= i < |a| ==> Lower(a[i]) == Lower(b[i])
  }

  function MonthFrom(text: string, m: nat): (r: Option<nat>)
    requires 1 <= m <= 13
    ensures r.Some? ==> 1 <= r.value <= 12
    decreases 13 - m
  {
    if m == 13 then None
    else if SameIgnoringCase(MONTHS[m - 1], text) then Some(m)
    else MonthFrom(text, m + 1)
  }

  function MonthNumber(text: string): Option<nat> { MonthFrom(text, 1) }

  function UtcOffsetSeconds(text: string): Option<int> {
    if |text| != 5 || !AllDigits(text[1..]) then None
    else if text[0] != '+' && text[0] != '-' then None
    else
      var hours := DigitValue(text[1]) * 10 + DigitValue(text[2]);
      var minutes := DigitValue(text[3]) * 10 + DigitValue(text[4]);
      Some(Signed(text[0] == '+', hours * 3600 + minutes * 60))
  }

  function UnixFromUtc(d: Date, hour: int, minute: int, second: int): int {
    DaysOf(d) * 86_400 + hour * 3600 + minute * 60 + second
  }

  function ParseImapInternalDate(text: string): Option<int> {
    var parts := Words(text);
    if |parts| != 3 then None
    else
      var date, time := SplitOn(parts[0], '-'), SplitOn(parts[1], ':');
      if |date| != 3 || |time| != 3 then None
      else
        var day :- ParseU32(date[0]);
        var month :- MonthNumber(date[1]);
        var year :- ParseI64(date[2]);
        var hour :- ParseU32(time[0]);
        var minute :- ParseU32(time[1]);
        var second :- ParseU32(time[2]);
        var offset :- UtcOffsetSeconds(parts[2]);
        Some(UnixFromUtc(Date(year, month, day), hour, minute, second) - offset)
  }

  /** A numeric zone of RFC 3501: a sign and four digits. */
  function ZoneText(zone: Offset): string {
    (if zone.east then "+" else "-") + (Padded(zone.hours, 2) + Padded(zone.minutes, 2))
  }

  predicate FourDigits(zone: Offset) { zone.hours < 100 && zone.minutes < 100 }

  /** The section 9 `date-time` of an instant: the day may be padded with a
      space, and the month name may be in any case. */
  function InternalDate(unix: int, zone: Offset, spacePadded: bool, month: string): string {
    var local := unix + zone.Seconds();
    var d := CivilFromDays(local / 86_400);
    (if spacePadded && d.day < 10 then " " + Digits(d.day) else Padded(d.day, 2))
    + "-" + (month + "-" + Padded(d.year, 4))
    + " " + (ClockText(local % 86_400) + (" " + ZoneText(zone)))
  }

  lemma MonthReads(m: nat, text: string)
    requires 1 <= m <= 12 && SameIgnoringCase(MONTHS[m - 1], text)
    ensures MonthNumber(text) == Some(m)
    ensures '-' !in text && text != "" && NoWhitespace(text)
  {
    FirstMonth(m, text, 1);
    assert |text| == 3;
    var name := MONTHS[m - 1];
    assert forall i :: 0 <= i < |name| ==> 'a' <= Lower(name[i]) <= 'z';
    assert forall i :: 0 <= i < |text| ==> Lower(name[i]) == Lower(text[i]);
  }

  lemma {:induction false} FirstMonth(m: nat, text: string, from: nat)
    requires 1 <= from <= m <= 12 && SameIgnoringCase(MONTHS[m - 1], text)
    ensures MonthFrom(text, from) == Some(m)
    decreases m - from
  {
    if from < m {
      MonthsDiffer(from, m, text);
      FirstMonth(m, text, from + 1);
    }
  }

  lemma MonthsDiffer(i: nat, j: nat, text: string)
    requires 1 <= i < j <= 12 && SameIgnoringCase(MONTHS[j - 1], text)
    ensures !SameIgnoringCase(MONTHS[i - 1], text)
  {
    var a, b := MONTHS[i - 1], MONTHS[j - 1];
    assert Lower(text[0]) == Lower(b[0]) && Lower(text[1]) == Lower(b[1]) && Lower(text[2]) == Lower(b[2]);
    assert Lower(a[0]) != Lower(b[0]) || Lower(a[1]) != Lower(b[1]) || Lower(a[2]) != Lower(b[2]);
  }

  lemma ZoneReads(zone: Offset)
    requires FourDigits(zone)
    ensures UtcOffsetSeconds(ZoneText(zone)) == Some(zone.Seconds())
    ensures ZoneText(zone) != "" && NoWhitespace(ZoneText(zone))
  {
    TwoDigits(zone.hours);
    TwoDigits(zone.minutes);
    var h, m := Padded(zone.hours, 2), Padded(zone.minutes, 2);
    assert ZoneText(zone)[1..] == h + m;
    assert AllDigits(h + m);
  }

  lemma TwoDigits(n: nat)
    requires n < 100
    ensures var s := Padded(n, 2);
            |s| == 2 && AllDigits(s) && DigitValue(s[0]) * 10 + DigitValue(s[1]) == n
  {
    if n < 10 {
      assert Digits(n) == [DigitChar(n)];
      assert ZeroFill("0" + Digits(n), 2) == "0" + Digits(n);
    } else {
      assert Digits(n) == [DigitChar(n / 10), DigitChar(n % 10)];
    }
  }

  lemma DigitsAreOneWord(s: string)
    requires AllDigits(s)
    ensures NoWhitespace(s)
  {
  }

  lemma ReadDay(d: Date, spacePadded: bool, month: string)
    requires Valid(d) && 0 <= d.year <= 9999 && SameIgnoringCase(MONTHS[d.month - 1], month)
    ensures var day := if spacePadded && d.day < 10 then Digits(d.day) else Padded(d.day, 2);
            var text := day + "-" + (month + "-" + Padded(d.year, 4));
            && text != "" && NoWhitespace(text)
            && SplitOn(text, '-') == [day, month, Padded(d.year, 4)]
            && ParseU32(day) == Some(d.day) && ParseI64(Padded(d.year, 4)) == Some(d.year)
  {
    hide Padded, Digits, MONTHS;
    var day := if spacePadded && d.day < 10 then Digits(d.day) else Padded(d.day, 2);
    var year := Padded(d.year, 4);
    MonthReads(d.month, month);
    DigitsHoldNo(day, '-');
    DigitsHoldNo(year, '-');
    ParseThree(day, month, year, '-');
    DigitsAreOneWord(day);
    DigitsAreOneWord(year);
    ParsePadded(d.day, 2);
    ValueOfDigits(d.day);
    ParsePadded(d.year, 4);
  }

  lemma ClockIsOneWord(s: nat)
    requires s < 86_400
    ensures ClockText(s) != "" && NoWhitespace(ClockText(s))
  {
    SplitClockText(s);
    var t := ClockText(s);
    forall i | 0 <= i < |t| ensures !IsWhitespace(t[i]) {
      assert t[i] in t;
    }
  }

  lemma ParseLocalParts(d: Date, s: nat, zone: Offset, spacePadded: bool, month: string)
    requires Valid(d) && 0 <= d.year <= 9999 && s < 86_400 && FourDigits(zone)
    requires SameIgnoringCase(MONTHS[d.month - 1], month)
    ensures ParseImapInternalDate(
              (if spacePadded && d.day < 10 then " " + Digits(d.day) else Padded(d.day, 2))
              + "-" + (month + "-" + Padded(d.year, 4)) + " " + (ClockText(s) + (" " + ZoneText(zone))))
         == Some(DaysOf(d) * 86_400 + s - zone.Seconds())
  {
    hide Padded, Digits, ClockText, DaysOf, Words, SplitOn, ZoneText, Offset.Seconds, UtcOffsetSeconds, MonthNumber, ParseU32, ParseI64, MONTHS;
    ReadDay(d, spacePadded, month);
    MonthReads(d.month, month);
    ClockIsOneWord(s);
    SplitClockText(s);
    ReadClock(s);
    ClockFields(s);
    ZoneReads(zone);
    var day := if spacePadded && d.day < 10 then Digits(d.day) else Padded(d.day, 2);
    var date := day + "-" + (month + "-" + Padded(d.year, 4));
    var rest := ClockText(s) + (" " + ZoneText(zone));
    ThreeWords(date, ClockText(s), ZoneText(zone));
    assert (" " + day) + "-" + (month + "-" + Padded(d.year, 4)) + " " + rest == " " + (date + " " + rest);
  }

  /** Reading inverts the section 9 `date-time` of RFC 3501 for any instant at
      any numeric zone, in either padding of the day and any letter case. */
  lemma InternalDateRoundTrip(unix: int, zone: Offset, spacePadded: bool, month: string)
    requires FourDigits(zone)
    requires var d := CivilFromDays((unix + zone.Seconds()) / 86_400);
             0 <= d.year <= 9999 && 1 <= d.month <= 12 && SameIgnoringCase(MONTHS[d.month - 1], month)
    ensures ParseImapInternalDate(InternalDate(unix, zone, spacePadded, month)) == Some(unix)
  {
    hide CivilFromDays, DaysOf, Padded, Digits, ClockText, Offset.Seconds, ZoneText, ParseImapInternalDate, MONTHS;
    var local := unix + zone.Seconds();
    DayRoundTrip(local / 86_400);
    ParseLocalParts(CivilFromDays(local / 86_400), local % 86_400, zone, spacePadded, month);
  }

  /** The header is six words: the day-name and a comma, and a day, month, year,
      clock and zone that the reader above takes back to the instant. */
  lemma HeaderIsReadBack(unix: int)
    requires 0 <= CivilFromDays(unix / 86_400).year <= 9999
    ensures var w := Words(FormatRfc5322Date(unix));
            && |w| == 6 && w[0] == WEEKDAYS[(unix / 86_400 + 4) % 7] + ","
            && ParseImapInternalDate(w[1] + "-" + w[2] + "-" + w[3] + " " + w[4] + " " + w[5]) == Some(unix)
  {
    hide CivilFromDays, DaysOf, Padded, Digits, ClockText, ZoneText, ParseImapInternalDate, Words, HeaderText;
    var days := unix / 86_400;
    DayRoundTrip(days);
    var d, clock := CivilFromDays(days), ClockText(unix % 86_400);
    HeaderWords(WeekdayOfDay(days), d, unix % 86_400);
    var day, month, year := Padded(d.day, 2), MONTHS[d.month - 1], Padded(d.year, 4);
    ZoneOfNothing();
    InternalDateRoundTrip(unix, Offset(true, 0, 0), false, month);
    assert InternalDate(unix, Offset(true, 0, 0), false, month)
        == day + "-" + (month + "-" + year) + " " + (clock + (" " + "+0000"));
    Rejoined(day, month, year, clock, "+0000");
  }

  lemma Rejoined(day: string, month: string, year: string, clock: string, zone: string)
    ensures day + "-" + month + "-" + year + " " + clock + " " + zone
         == day + "-" + (month + "-" + year) + " " + (clock + (" " + zone))
  {
    var date := day + "-" + month + "-" + year;
    assert date == day + "-" + (month + "-" + year);
    Regroup(date, clock, " " + zone);
    assert date + " " + clock + " " + zone == date + " " + clock + (" " + zone);
  }

  lemma ZoneOfNothing()
    ensures ZoneText(Offset(true, 0, 0)) == "+0000" && Offset(true, 0, 0).Seconds() == 0
  {
    assert Digits(0) == "0";
    assert ZeroFill("0", 2) == ZeroFill("00", 2) == "00";
  }

  lemma HeaderWords(weekday: nat, d: Date, s: nat)
    requires weekday < 7 && Valid(d) && d.year >= 0 && s < 86_400
    ensures Words(HeaderText(weekday, d, s))
         == [WEEKDAYS[weekday] + ",", Padded(d.day, 2), MONTHS[d.month - 1], Padded(d.year, 4), ClockText(s), "+0000"]
  {
    var name, month := WEEKDAYS[weekday], MONTHS[d.month - 1];
    assert NoWhitespace(name + ",");
    MonthReads(d.month, month);
    hide Padded, ClockText, Words, MonthNumber, SameIgnoringCase, MONTHS, WEEKDAYS;
    var day, year, clock := Padded(d.day, 2), Padded(d.year, 4), ClockText(s);
    ParsePadded(d.day, 2);
    ParsePadded(d.year, 4);
    DigitsAreOneWord(day);
    DigitsAreOneWord(year);
    ClockIsOneWord(s);
    hide NoWhitespace, AllDigits;
    SixWords(name, day, month, year, clock);
  }

  lemma SixWords(name: string, day: string, month: string, year: string, clock: string)
    requires NoWhitespace(name + ",") && NoWhitespace(day) && NoWhitespace(month) && NoWhitespace(year) && NoWhitespace(clock)
    requires day != "" && month != "" && year != "" && clock != ""
    ensures Words(name + ", " + day + " " + month + " " + year + " " + clock + " +0000")
         == [name + ",", day, month, year, clock, "+0000"]
  {
    Grouped(name, day, month, year, clock);
    hide Words;
    var behind := year + (" " + (clock + (" " + "+0000")));
    assert year + " " + (clock + (" " + "+0000")) == behind;
    ThreeWords(year, clock, "+0000");
    hide NoWhitespace;
    WordsBefore(name + ",", day, month, behind);
    assert [name + ",", day, month] + [year, clock, "+0000"] == [name + ",", day, month, year, clock, "+0000"];
  }

  lemma WordsBefore(a: string, b: string, c: string, behind: string)
    requires NoWhitespace(a) && NoWhitespace(b) && NoWhitespace(c) && a != "" && b != "" && c != ""
    ensures Words(a + (" " + (b + (" " + (c + (" " + behind)))))) == [a, b, c] + Words(behind)
  {
    hide Words, NoWhitespace;
    var second := c + (" " + behind);
    var first := b + (" " + second);
    WordBefore(c, behind);
    WordBefore(b, second);
    WordBefore(a, first);
  }

  lemma Grouped(name: string, day: string, month: string, year: string, clock: string)
    ensures name + ", " + day + " " + month + " " + year + " " + clock + " +0000"
         == name + "," + (" " + (day + (" " + (month + (" " + (year + (" " + (clock + (" " + "+0000")))))))))
  {
    var last := " " + (clock + (" " + "+0000"));
    assert " +0000" == " " + "+0000";
    Regroup(name + ", " + day + " " + month + " " + year, clock, " +0000");
    GroupedBefore(name, day, month, year, last);
  }

  lemma GroupedBefore(name: string, day: string, month: string, year: string, last: string)
    ensures name + ", " + day + " " + month + " " + year + last
         == name + "," + (" " + (day + (" " + (month + (" " + (year + last))))))
  {
    Regroup(name + ", " + day + " " + month, year, last);
    Regroup(name + ", " + day, month, " " + (year + last));
    var rest := " " + (month + (" " + (year + last)));
    assert name + ", " == name + "," + " ";
    Regroup(name + ",", day, rest);
  }

  lemma Regroup(a: string, b: string, c: string)
    ensures a + " " + b + c == a + (" " + (b + c))
  {
  }

  lemma WordBefore(word: string, behind: string)
    requires word != "" && NoWhitespace(word)
    ensures Words(word + (" " + behind)) == [word] + Words(behind)
  {
    FirstWord(word, " " + behind);
    AfterSpace(behind);
  }
}
