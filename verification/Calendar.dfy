/** Quotients and remainders by a positive divisor. */
module Division {

  lemma QuotientIsUnique(n: int, b: int, q: int, r: int)
    requires b > 0 && n == b * q + r && 0 <= r < b
    ensures n / b == q
  {
    var d := n / b - q;
    assert b * d == r - n % b;
    if d >= 1 {
      MulAtLeast(b, d);
      assert false;
    } else if d <= -1 {
      MulAtLeast(b, -d);
      assert false;
    }
  }

  lemma MulAtLeast(b: int, d: int)
    requires b > 0 && d >= 1
    ensures b * d >= b
  {
  }

  lemma ModRepeats(a: int, b: int, k: int)
    requires b > 0
    ensures (a + b * k) % b == a % b
  {
    assert a + b * k == b * (a / b + k) + a % b;
    QuotientIsUnique(a + b * k, b, a / b + k, a % b);
  }
}

/** The proleptic Gregorian day arithmetic both crates carry by hand
    (`days_from_civil`, `civil_from_days`, `days_in_month`), over all of `int`. */
module Calendar {
  import opened Division

  datatype Date = Date(year: int, month: nat, day: nat)

  // ------------------------------------------------------------ arithmetic --

  /** Rust's `/` on signed integers: truncates toward zero. */
  function Quot(a: int, b: int): int
    requires b > 0
  {
    if a >= 0 then a / b else -((-a) / b)
  }

  /** The `- 399` and `- 146_096` guards turn truncation into floor division,
      which is what Dafny's `/` is for a positive divisor. */
  lemma GuardMakesFloor(a: int, b: int)
    requires b > 0
    ensures Quot(if a >= 0 then a else a - (b - 1), b) == a / b
  {
    if a < 0 {
      var q, r := a / b, a % b;
      assert a == b * q + r;
      var n := -(a - (b - 1));
      assert n == b * (-q) + (b - 1 - r);
      QuotientIsUnique(n, b, -q, b - 1 - r);
    }
  }

  // ------------------------------------------------------------ the source --

  predicate IsLeapYear(year: int) {
    (year % 4 == 0 && year % 100 != 0) || year % 400 == 0
  }

  function DaysInMonth(year: int, month: nat): nat {
    match month
    case 1 | 3 | 5 | 7 | 8 | 10 | 12 => 31
    case 4 | 6 | 9 | 11 => 30
    case 2 => if IsLeapYear(year) then 29 else 28
    case _ => 0
  }

  predicate Valid(d: Date) {
    1 <= d.month <= 12 && 1 <= d.day <= DaysInMonth(d.year, d.month)
  }

  function EraOfYear(y: int): int {
    Quot(if y >= 0 then y else y - 399, 400)
  }

  function DaysFromCivil(year: int, month: nat, day: nat): int {
    var y := if month <= 2 then year - 1 else year;
    var era := EraOfYear(y);
    var yearOfEra := y - era * 400;
    var monthIndex := (month + 9) % 12;
    var dayOfYear := (153 * monthIndex + 2) / 5 + day - 1;
    var dayOfEra := yearOfEra * 365 + Quot(yearOfEra, 4) - Quot(yearOfEra, 100) + dayOfYear;
    era * 146_097 + dayOfEra - 719_468
  }

  function DaysOf(d: Date): int { DaysFromCivil(d.year, d.month, d.day) }

  function YearOfEra(dayOfEra: int): int {
    Quot(dayOfEra - Quot(dayOfEra, 1460) + Quot(dayOfEra, 36_524) - Quot(dayOfEra, 146_096), 365)
  }

  /** The year, month and day of one day of an era. */
  function CivilInEra(era: int, dayOfEra: int): Date
    requires 0 <= dayOfEra < 146_097
  {
    EraSplit(dayOfEra);
    var yearOfEra := YearOfEra(dayOfEra);
    var year := yearOfEra + era * 400;
    var dayOfYear := dayOfEra - (365 * yearOfEra + Quot(yearOfEra, 4) - Quot(yearOfEra, 100));
    var monthIndex := Quot(5 * dayOfYear + 2, 153);
    var day := dayOfYear - Quot(153 * monthIndex + 2, 5) + 1;
    var month := if monthIndex < 10 then monthIndex + 3 else monthIndex - 9;
    Date(if month <= 2 then year + 1 else year, month, day)
  }

  function EraOf(z: int): int {
    Quot(if z >= 0 then z else z - 146_096, 146_097)
  }

  lemma EraIsFloor(z: int)
    ensures EraOf(z) == z / 146_097
    ensures z - EraOf(z) * 146_097 == z % 146_097
  {
    GuardMakesFloor(z, 146_097);
  }

  function CivilFromDays(days: int): Date {
    var z := days + 719_468;
    EraIsFloor(z);
    CivilInEra(EraOf(z), z - EraOf(z) * 146_097)
  }

  // --------------------------------------------------- one 400-year era --

  /** The first day of a March-based year within its era. */
  function YearStart(y: int): int { 365 * y + y / 4 - y / 100 }

  /** A March-based year ends in the February of the next calendar year. */
  function YearLength(y: int): (n: int)
    ensures 365 <= n <= 366
  {
    if IsLeapYear(y + 1) then 366 else 365
  }

  /** Century, four-year cycle and year within the cycle of a year of the era. */
  lemma YearParts(y: int, c: int, q: int, r: int)
    requires 0 <= c < 4 && 0 <= q < 25 && 0 <= r < 4 && y == 100 * c + 4 * q + r
    ensures YearStart(y) == 36_524 * c + 1461 * q + 365 * r
    ensures YearLength(y) == if r == 3 && (q == 24 ==> c == 3) then 366 else 365
  {
    QuotientIsUnique(y, 100, c, 4 * q + r);
    QuotientIsUnique(y, 4, 25 * c + q, r);
    QuotientIsUnique(y + 1, 4, 25 * c + q + (if r == 3 then 1 else 0), if r == 3 then 0 else r + 1);
    var turn := q == 24 && r == 3;
    QuotientIsUnique(y + 1, 100, if turn then c + 1 else c, if turn then 0 else 4 * q + r + 1);
    var wrap := turn && c == 3;
    QuotientIsUnique(y + 1, 400, if wrap then 1 else 0, if wrap then 0 else y + 1);
  }

  lemma YearOfEraInverts(c: int, q: int, r: int, d: int)
    requires 0 <= c < 4 && 0 <= q < 25 && 0 <= r < 4
    requires 0 <= d < if r == 3 && (q == 24 ==> c == 3) then 366 else 365
    ensures var doe := 36_524 * c + 1461 * q + 365 * r + d;
            0 <= doe < 146_097 && YearOfEra(doe) == 100 * c + 4 * q + r
  {
    var doe := 36_524 * c + 1461 * q + 365 * r + d;
    var rest := 1461 * q + 365 * r + d;
    var last := if doe == 146_096 then 1 else 0;
    QuotientIsUnique(doe, 146_096, last, doe - 146_096 * last);
    QuotientIsUnique(doe, 36_524, c + last, rest - 36_524 * last);
    var part := 24 * c + q + 365 * r + d;
    var carry := if part >= 1460 then 1 else 0;
    QuotientIsUnique(doe, 1460, 25 * c + q + carry, part - 1460 * carry);
    QuotientIsUnique(365 * (100 * c + 4 * q + r) + (d - carry), 365, 100 * c + 4 * q + r, d - carry);
  }

  /** Every day of an era belongs to exactly the year the formula names. */
  lemma EraSplit(doe: int)
    requires 0 <= doe < 146_097
    ensures 0 <= YearOfEra(doe) < 400
    ensures 0 <= doe - YearStart(YearOfEra(doe)) < YearLength(YearOfEra(doe))
  {
    var c := if doe < 109_572 then doe / 36_524 else 3;
    var inCentury := doe - 36_524 * c;
    var q := inCentury / 1461;
    var inCycle := inCentury - 1461 * q;
    var r := if inCycle < 1095 then inCycle / 365 else 3;
    YearParts(100 * c + 4 * q + r, c, q, r);
    YearOfEraInverts(c, q, r, inCycle - 365 * r);
  }

  lemma MonthOfYear(d: int)
    requires 0 <= d <= 365
    ensures var m := (5 * d + 2) / 153;
            && 0 <= m <= 11
            && 1 <= d - (153 * m + 2) / 5 + 1 <= (if m == 11 then 29 else if m in {1, 3, 6, 8} then 30 else 31)
            && (m == 11 && d - (153 * m + 2) / 5 + 1 == 29 ==> d == 365)
  {
  }

  // --------------------------------------------------------- main theorems --

  lemma YearInEra(y: int, doy: int)
    requires 0 <= y < 400 && 0 <= doy < YearLength(y)
    ensures 0 <= YearStart(y) + doy < 146_097 && YearOfEra(YearStart(y) + doy) == y
  {
    var c, q, r := y / 100, y % 100 / 4, y % 4;
    YearParts(y, c, q, r);
    YearOfEraInverts(c, q, r, doy);
  }

  /** The calendar date at day `doy` of March-based year `y` of an era. */
  function DateAt(era: int, y: int, doy: int): Date
    requires 0 <= doy <= 365
  {
    MonthOfYear(doy);
    var m := (5 * doy + 2) / 153;
    var year := y + era * 400;
    if m < 10 then Date(year, m + 3, doy - (153 * m + 2) / 5 + 1)
    else Date(year + 1, m - 9, doy - (153 * m + 2) / 5 + 1)
  }

  function DayAt(era: int, y: int, doy: int): int {
    era * 146_097 + YearStart(y) + doy - 719_468
  }

  /** Both conversions in the same coordinates: era, March-based year of the
      era, day of that year. */
  lemma CivilAt(era: int, y: int, doy: int)
    requires 0 <= y < 400 && 0 <= doy < YearLength(y)
    ensures CivilFromDays(DayAt(era, y, doy)) == DateAt(era, y, doy)
  {
    hide CivilFromDays, CivilInEra, YearOfEra, YearLength, DateAt;
    YearInEra(y, doy);
    SameEra(era, YearStart(y) + doy);
    CivilInEraAt(era, y, doy);
  }

  lemma EraOfSplit(era: int, dayOfEra: int)
    requires 0 <= dayOfEra < 146_097
    ensures EraOf(era * 146_097 + dayOfEra) == era
  {
    hide EraOf;
    EraIsFloor(era * 146_097 + dayOfEra);
    QuotientIsUnique(era * 146_097 + dayOfEra, 146_097, era, dayOfEra);
  }

  lemma SameEra(era: int, dayOfEra: int)
    requires 0 <= dayOfEra < 146_097
    ensures CivilFromDays(era * 146_097 + dayOfEra - 719_468) == CivilInEra(era, dayOfEra)
  {
    hide EraOf, CivilInEra;
    EraOfSplit(era, dayOfEra);
  }

  lemma CivilInEraAt(era: int, y: int, doy: int)
    requires 0 <= y < 400 && 0 <= doy <= 365
    requires 0 <= YearStart(y) + doy < 146_097 && YearOfEra(YearStart(y) + doy) == y
    ensures CivilInEra(era, YearStart(y) + doy) == DateAt(era, y, doy)
  {
    MonthOfYear(doy);
  }

  lemma DaysAt(era: int, y: int, doy: int)
    requires 0 <= y < 400 && 0 <= doy < YearLength(y)
    ensures Valid(DateAt(era, y, doy))
    ensures DaysOf(DateAt(era, y, doy)) == DayAt(era, y, doy)
  {
    ValidAt(era, y, doy);
    DayNumberAt(era, y, doy);
  }

  lemma ValidAt(era: int, y: int, doy: int)
    requires 0 <= y < 400 && 0 <= doy < YearLength(y)
    ensures Valid(DateAt(era, y, doy))
  {
    MonthOfYear(doy);
    LeapRepeats(y + 1, era);
    assert (y + era * 400) + 1 == (y + 1) + era * 400;
  }

  lemma DayNumberAt(era: int, y: int, doy: int)
    requires 0 <= y < 400 && 0 <= doy <= 365
    ensures DaysOf(DateAt(era, y, doy)) == DayAt(era, y, doy)
  {
    EraOfYearAt(era, y);
    hide EraOfYear;
    MonthOfYear(doy);
  }

  lemma EraOfYearAt(era: int, y: int)
    requires 0 <= y < 400
    ensures EraOfYear(y + era * 400) == era
  {
    GuardMakesFloor(y + era * 400, 400);
    QuotientIsUnique(y + era * 400, 400, era, y);
  }

  /** Every date has such coordinates. */
  lemma Locate(d: Date) returns (era: int, y: int, doy: int)
    requires Valid(d)
    ensures 0 <= y < 400 && 0 <= doy < YearLength(y)
    ensures d == DateAt(era, y, doy)
    ensures d.month > 2 ==> d.year == y + era * 400
  {
    var marchYear := if d.month <= 2 then d.year - 1 else d.year;
    era, y := marchYear / 400, marchYear % 400;
    assert marchYear == y + era * 400;
    var m := (d.month + 9) % 12;
    doy := (153 * m + 2) / 5 + d.day - 1;
    LeapRepeats(y + 1, era);
    assert marchYear + 1 == (y + 1) + era * 400;
    DayOfMonth(m, d.day, if IsLeapYear(y + 1) then 29 else 28);
  }

  lemma DayOfMonth(m: int, day: int, february: int)
    requires 0 <= m <= 11 && 28 <= february <= 29
    requires 1 <= day <= (if m == 11 then february else if m in {1, 3, 6, 8} then 30 else 31)
    ensures var doy := (153 * m + 2) / 5 + day - 1;
            && 0 <= doy < 337 + february
            && (5 * doy + 2) / 153 == m
  {
  }

  lemma LeapRepeats(y: int, era: int)
    ensures IsLeapYear(y + era * 400) <==> IsLeapYear(y)
  {
    assert y + era * 400 == y + 4 * (100 * era) == y + 100 * (4 * era);
    ModRepeats(y, 4, 100 * era);
    ModRepeats(y, 100, 4 * era);
    ModRepeats(y, 400, era);
  }

  /** Every day number has coordinates too. */
  lemma LocateDay(days: int) returns (era: int, y: int, doy: int)
    ensures 0 <= y < 400 && 0 <= doy < YearLength(y)
    ensures days == DayAt(era, y, doy)
  {
    var z := days + 719_468;
    era := z / 146_097;
    var doe := z % 146_097;
    EraSplit(doe);
    hide YearOfEra, YearStart, YearLength;
    y := YearOfEra(doe);
    doy := doe - YearStart(y);
  }

  /** Every day number is a real calendar date, and maps back to itself. */
  lemma DayRoundTrip(days: int)
    ensures Valid(CivilFromDays(days))
    ensures DaysOf(CivilFromDays(days)) == days
  {
    hide CivilFromDays, DaysOf, Valid, YearLength, DateAt, DayAt;
    var era, y, doy := LocateDay(days);
    CivilAt(era, y, doy);
    DaysAt(era, y, doy);
  }

  /** Every real calendar date, negative years included, survives the trip
      through its day number. */
  lemma CivilRoundTrip(d: Date)
    requires Valid(d)
    ensures CivilFromDays(DaysOf(d)) == d
  {
    var era, y, doy := Locate(d);
    hide CivilFromDays, DaysOf, Valid, YearLength, DateAt;
    DaysAt(era, y, doy);
    CivilAt(era, y, doy);
  }

  // ------------------------------------------- counting days one at a time --

  predicate Before(a: Date, b: Date) {
    a.year < b.year || (a.year == b.year && (a.month < b.month || (a.month == b.month && a.day < b.day)))
  }

  /** The day after, by `days_in_month` alone. */
  function NextDay(d: Date): Date {
    if d.day < DaysInMonth(d.year, d.month) then d.(day := d.day + 1)
    else if d.month < 12 then Date(d.year, d.month + 1, 1)
    else Date(d.year + 1, 1, 1)
  }

  lemma NextDayAddsOne(d: Date)
    requires Valid(d)
    ensures Valid(NextDay(d)) && Before(d, NextDay(d))
    ensures DaysOf(NextDay(d)) == DaysOf(d) + 1
  {
    NextDayIsNext(d);
    hide DaysOf, Valid, YearLength, YearStart, NextDay, DateAt;
    var era, y, doy := Locate(d);
    DaysAt(era, y, doy);
    if doy + 1 < YearLength(y) {
      NextWithinYear(era, y, doy);
      DaysAt(era, y, doy + 1);
    } else {
      NewYearGap(y);
      LastOfFebruary(era, y, doy);
    }
  }

  lemma LastOfFebruary(era: int, y: int, doy: int)
    requires 0 <= y < 400 && doy == YearLength(y) - 1
    ensures var next := NextDay(DateAt(era, y, doy));
            if y < 399 then DaysOf(next) == DayAt(era, y + 1, 0) else DaysOf(next) == DayAt(era + 1, 0, 0)
  {
    EndOfFebruary(era, y, doy);
    if y < 399 {
      DayNumberAt(era, y + 1, 0);
    } else {
      DayNumberAt(era + 1, 0, 0);
    }
  }

  lemma EndOfFebruary(era: int, y: int, doy: int)
    requires 0 <= y < 400 && doy == YearLength(y) - 1
    ensures NextDay(DateAt(era, y, doy)) == Date(y + era * 400 + 1, 3, 1)
  {
    LeapRepeats(y + 1, era);
    assert (y + era * 400) + 1 == (y + 1) + era * 400;
  }

  lemma NextDayIsNext(d: Date)
    requires Valid(d)
    ensures Valid(NextDay(d)) && Before(d, NextDay(d))
  {
  }

  lemma NextWithinYear(era: int, y: int, doy: int)
    requires 0 <= y < 400 && 0 <= doy && doy + 1 < YearLength(y)
    ensures NextDay(DateAt(era, y, doy)) == DateAt(era, y, doy + 1)
  {
    LeapRepeats(y + 1, era);
    assert (y + era * 400) + 1 == (y + 1) + era * 400;
    MonthOfYear(doy);
    NextDayOfMonth(doy, YearLength(y));
  }

  /** Stepping the day of a March-based year moves within its month or to the
      first of the next. */
  lemma NextDayOfMonth(doy: int, length: int)
    requires 365 <= length <= 366 && 0 <= doy && doy + 1 < length
    ensures var m, n := (5 * doy + 2) / 153, (5 * doy + 7) / 153;
            var day := doy - (153 * m + 2) / 5 + 1;
            var last := if m == 11 then length - 337 else if m in {1, 3, 6, 8} then 30 else 31;
            if day < last then n == m else day == last && n == m + 1 && doy + 1 == (153 * n + 2) / 5
  {
  }

  lemma NewYearGap(y: int)
    requires 0 <= y < 400
    ensures y < 399 ==> YearStart(y + 1) == YearStart(y) + YearLength(y)
    ensures y == 399 ==> YearStart(y) + YearLength(y) == 146_097 && YearStart(0) == 0
  {
    if y < 399 {
      var c, q, r := y / 100, y % 100 / 4, y % 4;
      YearParts(y, c, q, r);
      if r < 3 {
        YearParts(y + 1, c, q, r + 1);
      } else if q < 24 {
        YearParts(y + 1, c, q + 1, 0);
      } else {
        YearParts(y + 1, c + 1, 0, 0);
      }
    }
  }

  /** The date `n` steps after 1970-01-01, counted with the calendar only. */
  ghost predicate Counted(n: int, d: Date)
    decreases if n < 0 then -n else n
  {
    if n == 0 then d == Date(1970, 1, 1)
    else if n > 0 then exists p :: Valid(p) && Counted(n - 1, p) && d == NextDay(p)
    else Valid(d) && Counted(n + 1, NextDay(d))
  }

  /** `civil_from_days(n)` is the one date reached by counting `n` days from the
      epoch, in either direction. */
  lemma {:induction false} CivilIsCounting(n: int, d: Date)
    ensures Counted(n, d) <==> d == CivilFromDays(n)
    decreases if n < 0 then -n else n
  {
    hide CivilFromDays, DaysOf, Valid, NextDay;
    var here := CivilFromDays(n);
    DayRoundTrip(n);
    if n == 0 {
      EpochIsDayZero();
    } else if n > 0 {
      var p := CivilFromDays(n - 1);
      DayRoundTrip(n - 1);
      NextDayAddsOne(p);
      CivilRoundTrip(NextDay(p));
      CivilIsCounting(n - 1, p);
      if Counted(n, d) {
        var q :| Valid(q) && Counted(n - 1, q) && d == NextDay(q);
        CivilIsCounting(n - 1, q);
      }
    } else {
      NextDayAddsOne(here);
      CivilRoundTrip(NextDay(here));
      CivilIsCounting(n + 1, NextDay(d));
      if Valid(d) && NextDay(d) == NextDay(here) {
        NextDayAddsOne(d);
        CivilRoundTrip(d);
      }
    }
  }

  lemma EpochIsDayZero()
    ensures CivilFromDays(0) == Date(1970, 1, 1)
  {
    YearParts(369, 3, 17, 1);
    CivilAt(4, 369, 306);
  }

  lemma {:induction false} CivilIsMonotone(a: int, b: int)
    requires a < b
    ensures Before(CivilFromDays(a), CivilFromDays(b))
    decreases b - a
  {
    DayRoundTrip(b - 1);
    NextDayAddsOne(CivilFromDays(b - 1));
    CivilRoundTrip(NextDay(CivilFromDays(b - 1)));
    if a < b - 1 {
      CivilIsMonotone(a, b - 1);
    }
  }

  /** Day numbers order dates exactly as (year, month, day) does. */
  lemma DaysAreMonotone(a: Date, b: Date)
    requires Valid(a) && Valid(b)
    ensures Before(a, b) <==> DaysOf(a) < DaysOf(b)
  {
    CivilRoundTrip(a);
    CivilRoundTrip(b);
    if DaysOf(a) < DaysOf(b) {
      CivilIsMonotone(DaysOf(a), DaysOf(b));
    } else if DaysOf(b) < DaysOf(a) {
      CivilIsMonotone(DaysOf(b), DaysOf(a));
    }
  }
}
