/**
 The calendar arithmetic behind the build timestamp (`format_rfc3339_utc` in the
 `magnetarctl` build script), proved against a plain day-by-day Gregorian calendar.
 */
module Calendar {

  // ----- The reference calendar -----

  datatype Date = Date(year: int, month: int, day: int)

  predicate IsLeap(y: int) {
    y % 4 == 0 && (y % 100 != 0 || y % 400 == 0)
  }

  function DaysInMonth(y: int, m: int): int {
    if m == 2 then (if IsLeap(y) then 29 else 28)
    else if m == 4 || m == 6 || m == 9 || m == 11 then 30
    else 31
  }

  predicate ValidDate(d: Date) {
    1 <= d.month <= 12 && 1 <= d.day <= DaysInMonth(d.year, d.month)
  }

  /** The day after `d`. */
  function Next(d: Date): Date {
    if d.day < DaysInMonth(d.year, d.month) then Date(d.year, d.month, d.day + 1)
    else if d.month < 12 then Date(d.year, d.month + 1, 1)
    else Date(d.year + 1, 1, 1)
  }

  predicate Earlier(a: Date, b: Date) {
    a.year < b.year || (a.year == b.year && (a.month < b.month || (a.month == b.month && a.day < b.day)))
  }

  function DaysInYear(y: int): int {
    if IsLeap(y) then 366 else 365
  }

  /** Days from 1970-01-01 to the first of January of `y`, year by year in either direction. */
  function DaysBeforeYear(y: int): int
    decreases if y >= 1_970 then y - 1_970 else 1_970 - y
  {
    if y == 1_970 then 0
    else if y > 1_970 then DaysBeforeYear(y - 1) + DaysInYear(y - 1)
    else DaysBeforeYear(y + 1) - DaysInYear(y)
  }

  function DaysBeforeMonth(y: int, m: int): int
    decreases m
  {
    if m <= 1 then 0 else DaysBeforeMonth(y, m - 1) + DaysInMonth(y, m - 1)
  }

  /** Days since 1970-01-01: whole years, then whole months, then days. */
  function DaysFromCivil(d: Date): int {
    DaysBeforeYear(d.year) + DaysBeforeMonth(d.year, d.month) + d.day - 1
  }

  // ----- The fast form -----

  /** Rust's `/` on signed integers rounds toward zero. */
  function TruncDiv(a: int, b: int): int
    requires b > 0
  {
    if a >= 0 then a / b else -((-a) / b)
  }

  function Era(days: int): int {
    TruncDiv(if days >= 0 then days else days - 146_096, 146_097)
  }

  function DayOfEra(days: int): int {
    days - Era(days) * 146_097
  }

  function YearOfEra(doe: int): int {
    (doe - doe / 1_460 + doe / 36_524 - doe / 146_096) / 365
  }

  function DayOfYear(doe: int): int {
    var yoe := YearOfEra(doe);
    doe - (365 * yoe + yoe / 4 - yoe / 100)
  }

  function MonthIndex(doy: int): int {
    (5 * doy + 2) / 153
  }

  /** The date arithmetic of `format_rfc3339_utc`, after the shift to days since 0000-03-01. */
  function CivilFromDays(unixDays: int): Date {
    var days := unixDays + 719_468;
    var doe := DayOfEra(days);
    var y := YearOfEra(doe) + Era(days) * 400;
    MarchDate(y, DayOfYear(doe))
  }

  /** Month and day of day `doy` of the year that starts on the first of March of `y`. */
  function MarchDate(y: int, doy: int): Date {
    var mp := MonthIndex(doy);
    var d := doy - (153 * mp + 2) / 5 + 1;
    var m := if mp < 10 then mp + 3 else mp - 9;
    Date(if m <= 2 then y + 1 else y, m, d)
  }

  // ----- Ranges -----

  lemma EraRange(days: int)
    ensures 0 <= DayOfEra(days) <= 146_096
    ensures days == Era(days) * 146_097 + DayOfEra(days)
  {
  }

  /**
   Centuries, four-year cycles and years of a day of the era. The capped last year of each
   cycle and the capped last century absorb the leap days.
   */
  function Century(doe: int): int {
    if doe == 146_096 then 3 else doe / 36_524
  }

  function Cycle(doe: int): int {
    (doe - 36_524 * Century(doe)) / 1_461
  }

  function DayOfCycle(doe: int): int {
    doe - 36_524 * Century(doe) - 1_461 * Cycle(doe)
  }

  function YearOfCycle(doe: int): int {
    if DayOfCycle(doe) == 1_460 then 3 else DayOfCycle(doe) / 365
  }

  lemma CycleRanges(doe: int)
    requires 0 <= doe <= 146_096
    ensures 0 <= Century(doe) <= 3
    ensures 0 <= Cycle(doe) <= 24
    ensures 0 <= DayOfCycle(doe) <= 1_460
    ensures 0 <= YearOfCycle(doe) <= 3
    ensures DayOfCycle(doe) == 1_460 && Cycle(doe) == 24 ==> Century(doe) == 3
  {
  }

  /** The nested divisions recover the year although 1460 and 36524 are not multiples of 365. */
  lemma YearOfEraSplits(doe: int)
    requires 0 <= doe <= 146_096
    ensures YearOfEra(doe) == 100 * Century(doe) + 4 * Cycle(doe) + YearOfCycle(doe)
    ensures DayOfYear(doe) == DayOfCycle(doe) - 365 * YearOfCycle(doe)
  {
    CycleRanges(doe);
    var c, q, s, a := Century(doe), Cycle(doe), DayOfCycle(doe), YearOfCycle(doe);
    var e := if 24 * c + q + s >= 1_460 then 1 else 0;
    assert doe == 1_460 * (25 * c + q) + (24 * c + q + s);
    assert doe / 1_460 == 25 * c + q + e;
    assert doe - doe / 1_460 + doe / 36_524 - doe / 146_096 == 36_500 * c + 1_460 * q + (s - e);
    assert 365 * a <= s - e < 365 * (a + 1);
    var y := 100 * c + 4 * q + a;
    assert YearOfEra(doe) == y;
    assert y / 4 == 25 * c + q;
    assert y / 100 == c;
  }

  lemma YearRanges(doe: int)
    requires 0 <= doe <= 146_096
    ensures 0 <= YearOfEra(doe) <= 399
    ensures 0 <= DayOfYear(doe) <= 365
  {
    CycleRanges(doe);
    YearOfEraSplits(doe);
  }

  /** The ranges commented in the source; none of its unsigned subtractions goes below zero. */
  lemma FieldRanges(days: int)
    ensures var doe := DayOfEra(days);
            var yoe := YearOfEra(doe);
            var doy := DayOfYear(doe);
            var mp := MonthIndex(doy);
            && 0 <= doe <= 146_096
            && 0 <= doe - doe / 1_460
            && 0 <= doe - doe / 1_460 + doe / 36_524 - doe / 146_096
            && 0 <= yoe <= 399
            && 0 <= doy <= 365
            && 0 <= mp <= 11
            && 1 <= doy - (153 * mp + 2) / 5 + 1 <= 31
  {
    EraRange(days);
    YearRanges(DayOfEra(days));
    MonthOfDay(DayOfYear(DayOfEra(days)));
  }

  // ----- Days to dates and back -----

  /** First day of each month in a year that starts in March. */
  function MarchMonthStart(mp: int): int {
    (153 * mp + 2) / 5
  }

  predicate IsI64(n: int) {
    -0x8000_0000_0000_0000 <= n < 0x8000_0000_0000_0000
  }

  predicate IsU32(n: int) {
    0 <= n < 0x1_0000_0000
  }

  /** For every day number of a 64-bit count of seconds, no step leaves the machine integer it is computed in. */
  lemma NoStepOverflows(n: int)
    requires IsI64(n * 86_400) || IsI64(n * 86_400 + 86_399)
    ensures var days := n + 719_468;
            var era, doe := Era(days), DayOfEra(days);
            var yoe, doy := YearOfEra(doe), DayOfYear(doe);
            && IsI64(days) && IsI64(days - 146_096) && IsI64(era * 146_097) && IsI64(yoe + era * 400 + 1)
            && IsU32(doe) && IsU32(doe - doe / 1_460 + doe / 36_524) && IsU32(365 * yoe + yoe / 4)
            && IsU32(5 * doy + 2) && IsU32(153 * MonthIndex(doy) + 2)
  {
    EraRange(n + 719_468);
    FieldRanges(n + 719_468);
  }

  lemma MonthOfDay(doy: int)
    requires 0 <= doy <= 365
    ensures 0 <= MonthIndex(doy) <= 11
    ensures MarchMonthStart(MonthIndex(doy)) <= doy < MarchMonthStart(MonthIndex(doy) + 1)
  {
  }

  lemma MonthTable(y: int, m: int)
    requires 1 <= m <= 12
    ensures m >= 3 ==> DaysBeforeMonth(y, m) == 59 + (if IsLeap(y) then 1 else 0) + MarchMonthStart(m - 3)
    ensures m <= 2 ==> DaysBeforeMonth(y, m) == MarchMonthStart(m + 9) - 306
    ensures 3 <= m ==> DaysInMonth(y, m) == MarchMonthStart(m - 2) - MarchMonthStart(m - 3)
    decreases m
  {
    if m > 1 { MonthTable(y, m - 1); }
  }

  lemma QuotientStep(y: int, k: int)
    requires k == 4 || k == 100 || k == 400
    ensures y / k == (y - 1) / k + (if y % k == 0 then 1 else 0)
  {
  }

  lemma LeapDays(y: int)
    ensures (if IsLeap(y) then 1 else 0)
         == (if y % 4 == 0 then 1 else 0) - (if y % 100 == 0 then 1 else 0) + (if y % 400 == 0 then 1 else 0)
  {
    if y % 400 == 0 { assert y == 100 * (4 * (y / 400)); }
    if y % 100 == 0 { assert y == 4 * (25 * (y / 100)); }
  }

  /** The closed form of the year count, which the nested divisions rely on. */
  function YearStart(y: int): int {
    365 * (y - 1) + (y - 1) / 4 - (y - 1) / 100 + (y - 1) / 400
  }

  lemma YearStartStep(y: int)
    ensures YearStart(y + 1) == YearStart(y) + DaysInYear(y)
  {
    LeapDays(y);
    QuotientStep(y, 4);
    QuotientStep(y, 100);
    QuotientStep(y, 400);
    calc {
      YearStart(y + 1) - YearStart(y);
      365 + (y / 4 - (y - 1) / 4) - (y / 100 - (y - 1) / 100) + (y / 400 - (y - 1) / 400);
    }
  }

  lemma YearClosedForm(y: int)
    ensures DaysBeforeYear(y) == YearStart(y) - 719_162
    decreases if y >= 1_970 then y - 1_970 else 1_970 - y
  {
    if y > 1_970 {
      YearClosedForm(y - 1);
      YearStartStep(y - 1);
    } else if y < 1_970 {
      YearClosedForm(y + 1);
      YearStartStep(y);
    }
  }

  lemma EraYears(era: int, yoe: int)
    requires 0 <= yoe <= 399
    ensures DaysBeforeYear(yoe + era * 400 + 1) == 146_097 * era + 365 * yoe + yoe / 4 - yoe / 100 - 719_162
  {
    var y := yoe + era * 400;
    YearClosedForm(y + 1);
    assert y / 4 == 100 * era + yoe / 4;
    assert y / 100 == 4 * era + yoe / 100;
    assert y / 400 == era;
  }

  lemma YearLength(y: int)
    ensures DaysBeforeYear(y + 1) == DaysBeforeYear(y) + DaysInYear(y)
  {
  }

  lemma LeapEveryFour(j: int, i: int)
    requires 1 <= i <= 24
    ensures IsLeap(100 * j + 4 * i)
  {
    var y := 100 * j + 4 * i;
    assert y / 100 == j;
    assert y / 4 == 25 * j + i;
  }

  lemma LeapEveryEra(k: int)
    ensures IsLeap(400 * k)
  {
    assert 400 * k == 4 * (100 * k);
  }

  /** A 366th day exists only when the following February has 29 days. */
  lemma LastDayNeedsLeapYear(era: int, doe: int)
    requires 0 <= doe <= 146_096
    requires DayOfYear(doe) == 365
    ensures IsLeap(YearOfEra(doe) + era * 400 + 1)
  {
    CycleRanges(doe);
    YearOfEraSplits(doe);
    var c, q := Century(doe), Cycle(doe);
    assert YearOfEra(doe) == 100 * c + 4 * q + 3;
    if q == 24 {
      LeapEveryEra(era + 1);
    } else {
      LeapEveryFour(4 * era + c, q + 1);
    }
  }

  lemma MarchDateIsDate(y: int, doy: int)
    requires 0 <= doy <= 365 && (doy == 365 ==> IsLeap(y + 1))
    ensures ValidDate(MarchDate(y, doy))
    ensures DaysFromCivil(MarchDate(y, doy)) == DaysBeforeYear(y + 1) - 306 + doy
  {
    MonthOfDay(doy);
    var d := MarchDate(y, doy);
    MonthTable(d.year, d.month);
    if d.month >= 3 { YearLength(y); }
  }

  lemma EraDateIsDate(era: int, yoe: int, doy: int, n: int)
    requires 0 <= yoe <= 399 && 0 <= doy <= 365 && (doy == 365 ==> IsLeap(yoe + era * 400 + 1))
    requires n + 719_468 == era * 146_097 + (365 * yoe + yoe / 4 - yoe / 100) + doy
    ensures ValidDate(MarchDate(yoe + era * 400, doy))
    ensures DaysFromCivil(MarchDate(yoe + era * 400, doy)) == n
  {
    EraYears(era, yoe);
    MarchDateIsDate(yoe + era * 400, doy);
  }

  lemma DayOfEraIsDate(era: int, doe: int, n: int)
    requires 0 <= doe <= 146_096 && n + 719_468 == era * 146_097 + doe
    ensures ValidDate(MarchDate(YearOfEra(doe) + era * 400, DayOfYear(doe)))
    ensures DaysFromCivil(MarchDate(YearOfEra(doe) + era * 400, DayOfYear(doe))) == n
  {
    YearRanges(doe);
    if DayOfYear(doe) == 365 { LastDayNeedsLeapYear(era, doe); }
    EraDateIsDate(era, YearOfEra(doe), DayOfYear(doe), n);
  }

  /** The computed date is a real date, and counting its days gives the input back. */
  lemma CivilFromDaysIsDate(n: int)
    ensures ValidDate(CivilFromDays(n))
    ensures DaysFromCivil(CivilFromDays(n)) == n
  {
    EraRange(n + 719_468);
    DayOfEraIsDate(Era(n + 719_468), DayOfEra(n + 719_468), n);
  }

  lemma YearsAreOrdered(a: int, b: int)
    requires a <= b
    ensures DaysBeforeYear(a) <= DaysBeforeYear(b)
    decreases b - a
  {
    if a < b {
      YearLength(a);
      YearsAreOrdered(a + 1, b);
    }
  }

  lemma MonthsAreOrdered(y: int, a: int, b: int)
    requires 1 <= a <= b
    ensures DaysBeforeMonth(y, a) <= DaysBeforeMonth(y, b)
    decreases b - a
  {
    if a < b { MonthsAreOrdered(y, a + 1, b); }
  }

  lemma MonthFitsYear(y: int, m: int)
    requires 1 <= m <= 12
    ensures 0 <= DaysBeforeMonth(y, m)
    ensures DaysBeforeMonth(y, m) + DaysInMonth(y, m) <= DaysInYear(y)
  {
    MonthTable(y, m);
  }

  lemma DateFallsInYear(d: Date)
    requires ValidDate(d)
    ensures DaysBeforeYear(d.year) <= DaysFromCivil(d) < DaysBeforeYear(d.year + 1)
  {
    MonthFitsYear(d.year, d.month);
    YearLength(d.year);
  }

  /** Counting days respects the order of dates, so two dates never share a day number. */
  lemma DaysAreOrdered(a: Date, b: Date)
    requires ValidDate(a) && ValidDate(b)
    requires Earlier(a, b)
    ensures DaysFromCivil(a) < DaysFromCivil(b)
  {
    if a.year < b.year {
      DateFallsInYear(a);
      DateFallsInYear(b);
      YearsAreOrdered(a.year + 1, b.year);
    } else if a.month < b.month {
      MonthsAreOrdered(a.year, a.month + 1, b.month);
    }
  }

  lemma DayNumberIdentifiesDate(a: Date, b: Date)
    requires ValidDate(a) && ValidDate(b)
    requires DaysFromCivil(a) == DaysFromCivil(b)
    ensures a == b
  {
    if a != b {
      if Earlier(a, b) { DaysAreOrdered(a, b); } else { DaysAreOrdered(b, a); }
    }
  }

  /** The other half of the bijection between day numbers and dates. */
  lemma CivilFromDaysInverts(d: Date, n: int)
    requires ValidDate(d)
    requires DaysFromCivil(d) == n
    ensures CivilFromDays(n) == d
  {
    CivilFromDaysIsDate(n);
    DayNumberIdentifiesDate(CivilFromDays(n), d);
  }

  lemma NextIsOneDayLater(d: Date)
    requires ValidDate(d)
    ensures ValidDate(Next(d))
    ensures DaysFromCivil(Next(d)) == DaysFromCivil(d) + 1
  {
    if d.day == DaysInMonth(d.year, d.month) && d.month == 12 {
      YearLength(d.year);
      MonthTable(d.year, 12);
    }
  }

  lemma StepFrom(n: int, d: Date)
    requires ValidDate(d)
    requires DaysFromCivil(d) == n
    ensures CivilFromDays(n + 1) == Next(d)
  {
    NextIsOneDayLater(d);
    CivilFromDaysInverts(Next(d), n + 1);
  }

  lemma Epoch()
    ensures CivilFromDays(0) == Date(1970, 1, 1)
  {
    CivilFromDaysInverts(Date(1970, 1, 1), 0);
  }

  /** The fast form walks the day-by-day calendar from 1970-01-01, in both directions. */
  lemma FastFormWalksTheCalendar(n: int)
    ensures CivilFromDays(0) == Date(1970, 1, 1)
    ensures CivilFromDays(n + 1) == Next(CivilFromDays(n))
  {
    Epoch();
    CivilFromDaysIsDate(n);
    StepFrom(n, CivilFromDays(n));
  }
}
