/**
 The proleptic Gregorian calendar, defined by counting: month and year lengths
 are added up one at a time.  The closed forms of the time library are proved
 against these counts.
 */
module Calendar {
  import opened Machine

  predicate IsLeap(year: int) {
    (year % 4 == 0 && year % 100 != 0) || year % 400 == 0
  }

  function YearLength(year: int): int {
    if IsLeap(year) then 366 else 365
  }

  // Months are numbered from 0 (January) to 11 (December).
  function MonthLength(year: int, month: int): (n: int)
    requires 0 <= month < 12
  {
    if month == 1 then (if IsLeap(year) then 29 else 28)
    else if month == 3 || month == 5 || month == 8 || month == 10 then 30
    else 31
  }

  function DaysBeforeMonth(year: int, month: int): (n: int)
    requires 0 <= month <= 12
  {
    if month == 0 then 0 else DaysBeforeMonth(year, month - 1) + MonthLength(year, month - 1)
  }

  // Days from 1 January of year 1 to 1 January of `year`, negative before year 1.
  function DaysBeforeYear(year: int): (n: int)
    decreases if year > 1 then year - 1 else 1 - year
  {
    if year == 1 then 0
    else if year > 1 then DaysBeforeYear(year - 1) + YearLength(year - 1)
    else DaysBeforeYear(year + 1) - YearLength(year)
  }

  datatype Date = Date(year: int, month: int, day: int) {
    predicate Valid() {
      0 <= month < 12 && 1 <= day <= MonthLength(year, month)
    }

    predicate Before(other: Date) {
      year < other.year ||
      (year == other.year && (month < other.month || (month == other.month && day < other.day)))
    }

    // The next calendar day.
    function Next(): (d: Date)
      requires Valid()
      ensures d.Valid()
    {
      if day < MonthLength(year, month) then Date(year, month, day + 1)
      else if month < 11 then Date(year, month + 1, 1)
      else Date(year + 1, 0, 1)
    }

    // The calendar day before.
    function Previous(): (d: Date)
      requires Valid()
      ensures d.Valid() && d.Next() == this
    {
      if day > 1 then Date(year, month, day - 1)
      else if month > 0 then Date(year, month - 1, MonthLength(year, month - 1))
      else Date(year - 1, 11, 31)
    }
  }

  // 0 is 1 January.
  function DayOfYear(d: Date): (n: int)
    requires 0 <= d.month < 12
  {
    DaysBeforeMonth(d.year, d.month) + d.day - 1
  }

  // Days from 1 January of year 1 to 1 January 1970.
  const EPOCH: int := 719162

  // Days since 1 January 1970; `day` may lie outside the month.
  function EpochDay(year: int, month: int, day: int): (n: int)
    requires 0 <= month < 12
  {
    DaysBeforeYear(year) - EPOCH + DaysBeforeMonth(year, month) + day - 1
  }

  // Days are counted one by one from the epoch.
  lemma EpochDayCounts(d: Date)
    requires d.Valid()
    ensures d == Date(1970, 0, 1) ==> EpochDay(d.year, d.month, d.day) == 0
    ensures var e := d.Next(); EpochDay(e.year, e.month, e.day) == EpochDay(d.year, d.month, d.day) + 1
  {
    YearIsItsMonths(d.year);
    if d == Date(1970, 0, 1) {
      DaysBeforeYearClosed(d.year);
    }
  }

  // Every day number is a calendar date's.
  lemma {:induction false} DateOfDay(n: int) returns (d: Date)
    ensures d.Valid() && EpochDay(d.year, d.month, d.day) == n
    decreases if n < 0 then -n else n
  {
    hide EpochDay;
    if n == 0 {
      d := Date(1970, 0, 1);
      EpochDayCounts(d);
    } else if n > 0 {
      var before := DateOfDay(n - 1);
      EpochDayCounts(before);
      d := before.Next();
    } else {
      var after := DateOfDay(n + 1);
      d := after.Previous();
      EpochDayCounts(d);
    }
  }

  // The day of the year counts up, and starts again with the year.
  lemma DayOfYearCounts(d: Date)
    requires d.Valid()
    ensures 0 <= DayOfYear(d) < YearLength(d.year)
    ensures var e := d.Next(); DayOfYear(e) == if e.year == d.year then DayOfYear(d) + 1 else 0
    ensures d.month == 11 && d.day == 31 ==> DayOfYear(d) == YearLength(d.year) - 1
  {
    DayOfYearBounds(d);
    YearIsItsMonths(d.year);
  }

  lemma YearIsItsMonths(year: int)
    ensures DaysBeforeMonth(year, 12) == YearLength(year)
    ensures DaysBeforeYear(year + 1) == DaysBeforeYear(year) + YearLength(year)
  {
    MonthTable(year);
  }

  // Cumulative month lengths, as a table.
  lemma MonthTable(year: int)
    ensures var l := if IsLeap(year) then 1 else 0;
            && DaysBeforeMonth(year, 0) == 0 && DaysBeforeMonth(year, 1) == 31
            && DaysBeforeMonth(year, 2) == 59 + l && DaysBeforeMonth(year, 3) == 90 + l
            && DaysBeforeMonth(year, 4) == 120 + l && DaysBeforeMonth(year, 5) == 151 + l
            && DaysBeforeMonth(year, 6) == 181 + l && DaysBeforeMonth(year, 7) == 212 + l
            && DaysBeforeMonth(year, 8) == 243 + l && DaysBeforeMonth(year, 9) == 273 + l
            && DaysBeforeMonth(year, 10) == 304 + l && DaysBeforeMonth(year, 11) == 334 + l
            && DaysBeforeMonth(year, 12) == 365 + l
  {
    assert DaysBeforeMonth(year, 2) == DaysBeforeMonth(year, 1) + MonthLength(year, 1);
    assert DaysBeforeMonth(year, 4) == DaysBeforeMonth(year, 3) + MonthLength(year, 3);
    assert DaysBeforeMonth(year, 6) == DaysBeforeMonth(year, 5) + MonthLength(year, 5);
    assert DaysBeforeMonth(year, 8) == DaysBeforeMonth(year, 7) + MonthLength(year, 7);
    assert DaysBeforeMonth(year, 10) == DaysBeforeMonth(year, 9) + MonthLength(year, 9);
  }

  // Passing from `y - 1` to `y` moves a flooring quotient exactly at the multiples.
  lemma QuotientSteps(y: int, k: int)
    requires k in {4, 100, 400}
    ensures y / k - (y - 1) / k == if y % k == 0 then 1 else 0
  {
  }

  function LeapsClosed(y: int): (n: int) {
    y / 4 - y / 100 + y / 400
  }

  lemma DivisibilityChain(y: int)
    ensures y % 400 == 0 ==> y % 100 == 0
    ensures y % 100 == 0 ==> y % 4 == 0
  {
    if y % 400 == 0 {
      DivModUnique(y, 100, 4 * (y / 400), 0);
    }
    if y % 100 == 0 {
      DivModUnique(y, 4, 25 * (y / 100), 0);
    }
  }

  lemma LeapsClosedSteps(y: int)
    ensures LeapsClosed(y) - LeapsClosed(y - 1) == if IsLeap(y) then 1 else 0
  {
    DivisibilityChain(y);
    QuotientSteps(y, 4);
    QuotientSteps(y, 100);
    QuotientSteps(y, 400);
  }

  // Counting year by year agrees with the flooring closed form, for every year.
  lemma {:induction false} DaysBeforeYearClosed(year: int)
    ensures DaysBeforeYear(year) == 365 * (year - 1) + LeapsClosed(year - 1)
    decreases if year > 1 then year - 1 else 1 - year
  {
    if year > 1 {
      DaysBeforeYearClosed(year - 1);
      LeapsClosedSteps(year - 1);
    } else if year < 1 {
      DaysBeforeYearClosed(year + 1);
      LeapsClosedSteps(year);
    }
  }

  lemma {:induction false} YearsApart(y1: int, y2: int)
    requires y1 <= y2
    ensures DaysBeforeYear(y2) - DaysBeforeYear(y1) >= 365 * (y2 - y1)
    decreases y2 - y1
  {
    if y1 < y2 {
      YearsApart(y1, y2 - 1);
      YearIsItsMonths(y2 - 1);
    }
  }

  lemma {:induction false} MonthsApart(year: int, m1: int, m2: int)
    requires 0 <= m1 <= m2 <= 12
    ensures m1 < m2 ==> DaysBeforeMonth(year, m1) + MonthLength(year, m1) <= DaysBeforeMonth(year, m2)
    ensures DaysBeforeMonth(year, m1) <= DaysBeforeMonth(year, m2)
    decreases m2 - m1
  {
    if m1 < m2 {
      MonthsApart(year, m1, m2 - 1);
    }
  }

  // A valid date lies inside its year.
  lemma DayOfYearBounds(d: Date)
    requires d.Valid()
    ensures 0 <= DayOfYear(d) < YearLength(d.year)
  {
    MonthsApart(d.year, d.month, 12);
    MonthsApart(d.year, 0, d.month);
    YearIsItsMonths(d.year);
  }

  // Day numbers order dates as the calendar does.
  lemma EpochDayIsMonotone(a: Date, b: Date)
    requires a.Valid() && b.Valid() && a.Before(b)
    ensures EpochDay(a.year, a.month, a.day) < EpochDay(b.year, b.month, b.day)
  {
    DayOfYearBounds(a);
    DayOfYearBounds(b);
    if a.year < b.year {
      YearsApart(a.year + 1, b.year);
      YearIsItsMonths(a.year);
    } else if a.month < b.month {
      MonthsApart(a.year, a.month, b.month);
    }
  }

  lemma EpochDayIsInjective(a: Date, b: Date)
    requires a.Valid() && b.Valid()
    requires EpochDay(a.year, a.month, a.day) == EpochDay(b.year, b.month, b.day)
    ensures a == b
  {
    if a.Before(b) {
      EpochDayIsMonotone(a, b);
    } else if b.Before(a) {
      EpochDayIsMonotone(b, a);
    }
  }

  // 0 is Sunday; 1 January 1970 was a Thursday.
  function Weekday(epochDay: int): (w: int)
    ensures 0 <= w < 7
  {
    FloorMod(epochDay + 4, 7)
  }
}
