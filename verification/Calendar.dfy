/**
 The proleptic Gregorian calendar as day numbers, counted from 0000-01-01, in both directions.
 Dates before year 0 exist as results only: a time just after midnight of year 0 can lie before it in UTC.
 */
module Calendar {
  datatype Date = Date(year: int, month: int, day: int)

  predicate IsLeap(year: int) {
    year % 4 == 0 && (year % 100 != 0 || year % 400 == 0)
  }

  function YearDays(year: int): int {
    if IsLeap(year) then 366 else 365
  }

  function MonthDays(year: int, month: int): int {
    if month == 2 then (if IsLeap(year) then 29 else 28)
    else if month in {4, 6, 9, 11} then 30
    else 31
  }

  predicate ValidDate(d: Date) {
    1 <= d.month <= 12 && 1 <= d.day <= MonthDays(d.year, d.month)
  }

  function DaysBeforeYear(year: nat): nat {
    365 * year + (year + 3) / 4 - (year + 99) / 100 + (year + 399) / 400
  }

  function DaysBeforeMonth(year: int, month: int): int
    requires 1 <= month <= 13
    decreases month
  {
    if month == 1 then 0 else DaysBeforeMonth(year, month - 1) + MonthDays(year, month - 1)
  }

  function DayNumber(d: Date): int
    requires d.year >= 0 && ValidDate(d)
  {
    DaysBeforeYear(d.year) + DayOfYear(d)
  }

  function DayOfYear(d: Date): int
    requires ValidDate(d)
  {
    DaysBeforeMonth(d.year, d.month) + d.day - 1
  }

  lemma QuarterStep(year: nat)
    ensures (year + 4) / 4 == (year + 3) / 4 + (if year % 4 == 0 then 1 else 0)
  {
  }

  lemma CenturyStep(year: nat)
    ensures (year + 100) / 100 == (year + 99) / 100 + (if year % 100 == 0 then 1 else 0)
  {
    var century, rest := year / 100, year % 100;
    assert year == 100 * century + rest;
    assert (year + 100) / 100 == century + 1;
  }

  lemma CycleStep(year: nat)
    ensures (year + 400) / 400 == (year + 399) / 400 + (if year % 400 == 0 then 1 else 0)
  {
    var cycle, rest := year / 400, year % 400;
    assert year == 400 * cycle + rest;
    assert (year + 400) / 400 == cycle + 1;
  }

  lemma LeapDivisors(year: nat)
    ensures year % 400 == 0 ==> year % 100 == 0
    ensures year % 100 == 0 ==> year % 4 == 0
  {
    if year % 100 == 0 { assert year == 4 * (25 * (year / 100)); }
    if year % 400 == 0 { assert year == 100 * (4 * (year / 400)); }
  }

  lemma YearStep(year: nat)
    ensures DaysBeforeYear(year + 1) == DaysBeforeYear(year) + YearDays(year)
  {
    var quarters, centuries, cycles := (year + 3) / 4, (year + 99) / 100, (year + 399) / 400;
    QuarterStep(year);
    CenturyStep(year);
    CycleStep(year);
    LeapDivisors(year);
    assert DaysBeforeYear(year) == 365 * year + quarters - centuries + cycles;
    assert DaysBeforeYear(year + 1) == 365 * year + 365 + (year + 4) / 4 - (year + 100) / 100 + (year + 400) / 400;
  }

  lemma MonthsFillTheYear(year: int)
    ensures DaysBeforeMonth(year, 13) == YearDays(year)
  {
    assert DaysBeforeMonth(year, 5) == DaysBeforeMonth(year, 2) + MonthDays(year, 2) + 31 + 30;
    assert DaysBeforeMonth(year, 9) == DaysBeforeMonth(year, 5) + 31 + 30 + 31 + 31;
    assert DaysBeforeMonth(year, 13) == DaysBeforeMonth(year, 9) + 30 + 31 + 30 + 31;
  }

  /** The year a day falls in, searched upwards from one it does not precede. */
  function YearFrom(n: int, year: nat): (y: nat)
    requires DaysBeforeYear(year) <= n
    ensures y >= year && DaysBeforeYear(y) <= n < DaysBeforeYear(y + 1)
    decreases n - DaysBeforeYear(year)
  {
    YearStep(year);
    if n < DaysBeforeYear(year + 1) then year else YearFrom(n, year + 1)
  }

  function MonthFrom(n: int, year: int, month: int): (m: int)
    requires 1 <= month <= 12 && DaysBeforeMonth(year, month) <= n < DaysBeforeMonth(year, 13)
    ensures month <= m <= 12 && DaysBeforeMonth(year, m) <= n < DaysBeforeMonth(year, m + 1)
    decreases 12 - month
  {
    if n < DaysBeforeMonth(year, month + 1) then month else MonthFrom(n, year, month + 1)
  }

  function DateInYear(year: int, rest: int): (d: Date)
    requires 0 <= rest < YearDays(year)
    ensures ValidDate(d) && d.year == year && DayOfYear(d) == rest
  {
    MonthsFillTheYear(year);
    var month := MonthFrom(rest, year, 1);
    assert DaysBeforeMonth(year, month + 1) == DaysBeforeMonth(year, month) + MonthDays(year, month);
    Date(year, month, rest - DaysBeforeMonth(year, month) + 1)
  }

  /** Days of one 400-year cycle of the calendar. */
  const CYCLE_DAYS := 146097

  function LateDate(n: nat): (d: Date)
    ensures ValidDate(d) && d.year >= 0 && DayNumber(d) == n
  {
    var year := YearFrom(n, 0);
    YearStep(year);
    DateInYear(year, n - DaysBeforeYear(year))
  }

  function OneCycleBack(d: Date): (e: Date)
    requires ValidDate(d)
    ensures ValidDate(e) && e.year == d.year - 400
  {
    CycleKeepsLeaps(d.year);
    d.(year := d.year - 400)
  }

  /** The date of a day; before year 0 it is read one or more cycles later and moved back. */
  function DateOf(n: int): (d: Date)
    ensures ValidDate(d)
    ensures n >= 0 ==> d.year >= 0 && DayNumber(d) == n
    ensures n < 0 ==> d.year < 0
    decreases if n < 0 then -n else 0
  {
    if n >= 0 then LateDate(n) else
    var later := DateOf(n + CYCLE_DAYS);
    EarlyYears(n + CYCLE_DAYS, later);
    OneCycleBack(later)
  }

  lemma CycleKeepsLeaps(year: int)
    ensures IsLeap(year - 400) == IsLeap(year)
  {
    assert (year - 400) % 4 == year % 4;
    assert (year - 400) % 100 == year % 100;
    assert (year - 400) % 400 == year % 400;
  }

  lemma EarlyYears(n: int, d: Date)
    requires n < CYCLE_DAYS && ValidDate(d)
    requires n >= 0 ==> d.year >= 0 && DayNumber(d) == n
    requires n < 0 ==> d.year < 0
    ensures d.year < 400
  {
    if d.year >= 400 {
      YearsAreOrdered(400, d.year);
      assert DaysBeforeYear(400) == CYCLE_DAYS;
      DayOfYearBounds(d);
    }
  }

  lemma {:induction false} YearsAreOrdered(a: nat, b: nat)
    requires a <= b
    ensures DaysBeforeYear(a) <= DaysBeforeYear(b)
    ensures a < b ==> DaysBeforeYear(a + 1) <= DaysBeforeYear(b)
    decreases b - a
  {
    if a < b {
      YearStep(a);
      YearsAreOrdered(a + 1, b);
    }
  }

  lemma {:induction false} MonthsAreOrdered(year: int, a: int, b: int)
    requires 1 <= a <= b <= 13
    ensures DaysBeforeMonth(year, a) <= DaysBeforeMonth(year, b)
    ensures a < b ==> DaysBeforeMonth(year, a + 1) <= DaysBeforeMonth(year, b)
    decreases b - a
  {
    if a < b {
      MonthsAreOrdered(year, a + 1, b);
    }
  }

  lemma DayOfYearBounds(d: Date)
    requires ValidDate(d)
    ensures 0 <= DayOfYear(d) < YearDays(d.year)
    ensures DaysBeforeMonth(d.year, d.month) <= DayOfYear(d) < DaysBeforeMonth(d.year, d.month + 1)
  {
    MonthsAreOrdered(d.year, 1, d.month);
    MonthsAreOrdered(d.year, d.month + 1, 13);
    MonthsFillTheYear(d.year);
  }

  lemma SameDaySameYear(n: int, a: nat, b: nat)
    requires DaysBeforeYear(a) <= n < DaysBeforeYear(a + 1) && DaysBeforeYear(b) <= n < DaysBeforeYear(b + 1)
    ensures a == b
  {
    if a < b { YearsAreOrdered(a, b); }
    if b < a { YearsAreOrdered(b, a); }
  }

  lemma SameDaySameMonth(n: int, year: int, a: int, b: int)
    requires 1 <= a <= 12 && DaysBeforeMonth(year, a) <= n < DaysBeforeMonth(year, a + 1)
    requires 1 <= b <= 12 && DaysBeforeMonth(year, b) <= n < DaysBeforeMonth(year, b + 1)
    ensures a == b
  {
    if a < b { MonthsAreOrdered(year, a, b); }
    if b < a { MonthsAreOrdered(year, b, a); }
  }

  lemma SameDayOfYear(d: Date, e: Date)
    requires ValidDate(d) && ValidDate(e) && d.year == e.year && DayOfYear(d) == DayOfYear(e)
    ensures d == e
  {
    DayOfYearBounds(d);
    DayOfYearBounds(e);
    SameDaySameMonth(DayOfYear(d), d.year, d.month, e.month);
  }

  lemma SameDaySameDate(d: Date, e: Date)
    requires d.year >= 0 && ValidDate(d) && e.year >= 0 && ValidDate(e)
    requires DayNumber(d) == DayNumber(e)
    ensures d == e
  {
    DayOfYearBounds(d);
    DayOfYearBounds(e);
    YearStep(d.year);
    YearStep(e.year);
    SameDaySameYear(DayNumber(d), d.year, e.year);
    SameDayOfYear(d, e);
  }

  /** Day numbers and dates from year 0 on are in bijection. */
  lemma DateOfDayNumber(d: Date)
    requires d.year >= 0 && ValidDate(d) && DayNumber(d) >= 0
    ensures DateOf(DayNumber(d)) == d
  {
    SameDaySameDate(d, DateOf(DayNumber(d)));
  }

  // The calendar against tables

  lemma FoursGoAway(k: int, rest: int)
    ensures (4 * k + rest) % 4 == rest % 4
  {
  }

  lemma HundredsGoAway(k: int, rest: int)
    ensures (100 * k + rest) % 100 == rest % 100
  {
  }

  lemma WithinCycle(cycle: int, rest: int)
    requires 0 <= rest < 400
    ensures (400 * cycle + rest) % 4 == rest % 4
    ensures (400 * cycle + rest) % 100 == rest % 100
    ensures (400 * cycle + rest) % 400 == rest
  {
    FoursGoAway(100 * cycle, rest);
    HundredsGoAway(4 * cycle, rest);
  }

  lemma CenturiesOfCycle(rest: int)
    requires 0 <= rest < 400
    ensures rest % 100 == 0 <==> rest in {0, 100, 200, 300}
  {
  }

  /** Of every 400 years those divisible by 4 are leap years, but for three centuries. */
  lemma LeapYears(year: int)
    ensures IsLeap(year) <==> year % 400 % 4 == 0 && year % 400 !in {100, 200, 300}
  {
    WithinCycle(year / 400, year % 400);
    CenturiesOfCycle(year % 400);
  }

  function ExtraDay(year: int): int {
    if year % 400 % 4 == 0 && year % 400 !in {100, 200, 300} then 1 else 0
  }

  /** The dates there are, month by month. */
  lemma DatesOfTheYear(d: Date)
    ensures ValidDate(d) <==>
            && 1 <= d.month <= 12
            && 1 <= d.day <= [31, 28 + ExtraDay(d.year), 31, 30, 31, 30, 31, 31, 30, 31, 30, 31][d.month - 1]
  {
    LeapYears(d.year);
  }

  lemma MonthBegins(year: int, month: int)
    requires 1 <= month <= 12
    ensures DaysBeforeMonth(year, month) ==
            [0, 31, 59, 90, 120, 151, 181, 212, 243, 273, 304, 334][month - 1]
            + (if month > 2 then ExtraDay(year) else 0)
  {
    LeapYears(year);
    assert DaysBeforeMonth(year, 3) == 59 + ExtraDay(year);
    if month >= 6 { assert DaysBeforeMonth(year, 6) == DaysBeforeMonth(year, 3) + 31 + 30 + 31; }
    if month >= 9 { assert DaysBeforeMonth(year, 9) == DaysBeforeMonth(year, 6) + 30 + 31 + 31; }
    if month >= 11 { assert DaysBeforeMonth(year, 11) == DaysBeforeMonth(year, 9) + 30 + 31; }
  }

  /** Years follow each other, from day 0 on. */
  lemma YearsFollow(year: nat)
    ensures DaysBeforeYear(0) == 0 && DaysBeforeYear(year + 1) == DaysBeforeYear(year) + 365 + ExtraDay(year)
  {
    YearStep(year);
    LeapYears(year);
  }

  /** The number of a day from the year, the table of months and the day of the month. */
  lemma DayNumberByTable(d: Date)
    requires d.year >= 0 && ValidDate(d)
    ensures 1 <= d.month <= 12
    ensures DayNumber(d) ==
            DaysBeforeYear(d.year) + (if d.month > 2 then ExtraDay(d.year) else 0) + d.day - 1
            + [0, 31, 59, 90, 120, 151, 181, 212, 243, 273, 304, 334][d.month - 1]
  {
    MonthBegins(d.year, d.month);
  }
}
