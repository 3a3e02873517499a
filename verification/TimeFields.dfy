/**
 Broken-down time: the record of c_src/prtime.h, what it denotes, and the
 closed-form day counts of c_src/prtime.cc measured against the calendar.
 */
module TimeFields {
  import opened Machine
  import opened Calendar

  datatype Params = Params(gmtOffset: int32, dstOffset: int32) {
    function Total(): int { gmtOffset + dstOffset }
  }

  const GMT: Params := Params(0, 0)

  // The fields of one broken-down time, as a value.
  datatype Exploded = Exploded(
    usec: int, sec: int, min: int, hour: int,
    mday: int, month: int, year: int,
    wday: int, yday: int,
    params: Params)
  {
    // The day on which the date fields fall, whatever their size or sign.
    function Day(): int {
      EpochDay(year + month / 12, month % 12, mday)
    }

    function ClockMicros(): int {
      ((hour * 60 + min) * 60 + sec) * 1_000_000 + usec
    }

    // Microseconds since the epoch, on the clock of the record's own zone.
    function LocalMicros(): int {
      Day() * 86_400_000_000 + ClockMicros()
    }

    // The instant the record denotes.
    function UtcMicros(): int {
      LocalMicros() - params.Total() * 1_000_000
    }

    predicate ClockInRange() {
      0 <= usec < 1_000_000 && 0 <= sec < 60 && 0 <= min < 60 && 0 <= hour < 24
    }

    predicate DateInRange() {
      Date(year, month, mday).Valid()
    }

    // Every field lies in its calendar range and yday is the day of the year.
    predicate InRange() {
      && ClockInRange()
      && DateInRange()
      && yday == DayOfYear(Date(year, month, mday))
      && 0 <= wday < 7
    }

    predicate LexBefore(other: Exploded) {
      Date(year, month, mday).Before(Date(other.year, other.month, other.mday)) ||
      (year == other.year && month == other.month && mday == other.mday &&
       (hour < other.hour || (hour == other.hour &&
       (min < other.min || (min == other.min &&
       (sec < other.sec || (sec == other.sec && usec < other.usec)))))))
    }
  }

  /* ----- The day tables ----- */

  const DAYS_IN_MONTH: seq<seq<int8>> := [
    [31, 28, 31, 30, 31, 30, 31, 31, 30, 31, 30, 31],
    [31, 29, 31, 30, 31, 30, 31, 31, 30, 31, 30, 31]
  ]

  const LAST_DAY_OF_MONTH: seq<seq<int>> := [
    [-1, 30, 58, 89, 119, 150, 180, 211, 242, 272, 303, 333, 364],
    [-1, 30, 59, 90, 120, 151, 181, 212, 243, 273, 304, 334, 365]
  ]

  method IsLeapYear(year: int16) returns (leap: int)
    ensures leap == if IsLeap(year) then 1 else 0
  {
    TruncRepair(year, 4);
    TruncRepair(year, 100);
    TruncRepair(year, 400);
    if (TruncMod(year, 4) == 0 && TruncMod(year, 100) != 0) || TruncMod(year, 400) == 0 {
      leap := 1;
    } else {
      leap := 0;
    }
  }

  // The table lookups `nDays[IsLeapYear(year)][month]` and
  // `lastDayOfMonth[IsLeapYear(year)][month]`.
  method DaysInMonth(year: int16, month: int) returns (n: int8)
    requires 0 <= month < 12
    ensures n == MonthLength(year, month)
  {
    var leap := IsLeapYear(year);
    n := DAYS_IN_MONTH[leap][month];
  }

  method LastDayOfMonth(year: int16, month: int) returns (n: int)
    requires 0 <= month < 12
    ensures n == DaysBeforeMonth(year, month) - 1
  {
    MonthTable(year);
    var leap := IsLeapYear(year);
    n := LAST_DAY_OF_MONTH[leap][month];
  }

  /* ----- The COUNT_ macros ----- */

  function CountLeaps(y: int): (n: int) {
    TruncDiv(y - 1, 4) - TruncDiv(y - 1, 100) + TruncDiv(y - 1, 400)
  }

  function CountDays(y: int): (n: int) {
    (y - 1) * 365 + CountLeaps(y)
  }

  function DaysBetweenYears(a: int, b: int): (n: int) {
    CountDays(b) - CountDays(a)
  }

  // The years for which the closed form is right: all from year 1 on, and
  // before that only those that follow a leap year.
  predicate ClosedFormIsExact(y: int) {
    y >= 1 || IsLeap(y - 1)
  }

  // By how many days the closed form runs ahead of the calendar.
  function Skew(y: int): (n: int)
    ensures 0 <= n <= 1
  {
    if ClosedFormIsExact(y) then 0 else 1
  }

  // The weekday that the closed form gives the day `epochDay` of year `y`.
  function ClosedWeekday(epochDay: int, y: int): (w: int)
    ensures 0 <= w < 7
  {
    FloorMod(Weekday(epochDay) + Skew(y), 7)
  }

  lemma TruncAboveFloor(a: int, b: int)
    requires b > 0
    ensures a >= 0 || a % b == 0 ==> TruncDiv(a, b) == a / b
    ensures a < 0 && a % b != 0 ==> TruncDiv(a, b) == a / b + 1
  {
    TruncRepair(a, b);
  }

  lemma CountDaysSkew(y: int)
    ensures CountDays(y) == DaysBeforeYear(y) + Skew(y)
  {
    DaysBeforeYearClosed(y);
    DivisibilityChain(y - 1);
    TruncAboveFloor(y - 1, 4);
    TruncAboveFloor(y - 1, 100);
    TruncAboveFloor(y - 1, 400);
  }

  lemma CountDaysExactly(y: int)
    ensures CountDays(y) == DaysBeforeYear(y) <==> ClosedFormIsExact(y)
  {
    CountDaysSkew(y);
  }

  /* ----- Canonicity of the normal form ----- */

  lemma DayOfDate(e: Exploded)
    requires 0 <= e.month < 12
    ensures e.Day() == EpochDay(e.year, e.month, e.mday)
  {
    hide EpochDay;
  }

  lemma MicrosSplit(e: Exploded)
    requires e.ClockInRange()
    ensures 0 <= e.ClockMicros() < 86_400_000_000
    ensures FloorDiv(e.LocalMicros(), 86_400_000_000) == e.Day()
  {
    DivModUnique(e.LocalMicros(), 86_400_000_000, e.Day(), e.ClockMicros());
  }

  lemma LocalMicrosAreMonotone(a: Exploded, b: Exploded)
    requires a.InRange() && b.InRange() && a.LexBefore(b)
    ensures a.LocalMicros() < b.LocalMicros()
  {
    hide EpochDay, DayOfYear, MonthLength, Exploded.Day;
    MicrosSplit(a);
    MicrosSplit(b);
    DayOfDate(a);
    DayOfDate(b);
    if Date(a.year, a.month, a.mday).Before(Date(b.year, b.month, b.mday)) {
      EpochDayIsMonotone(Date(a.year, a.month, a.mday), Date(b.year, b.month, b.mday));
      assert a.Day() + 1 <= b.Day();
    } else {
      assert a.Day() == b.Day();
      assert a.ClockMicros() < b.ClockMicros();
    }
  }

  // Two in-range records of one zone whose weekdays follow the same rule are
  // the same record exactly when they denote the same instant.
  lemma NormalFormIsCanonical(a: Exploded, b: Exploded)
    requires a.InRange() && b.InRange() && a.params == b.params
    requires a.wday == ClosedWeekday(a.Day(), a.year)
    requires b.wday == ClosedWeekday(b.Day(), b.year)
    ensures a == b <==> a.UtcMicros() == b.UtcMicros()
  {
    if a.UtcMicros() == b.UtcMicros() {
      MicrosSplit(a);
      MicrosSplit(b);
      EpochDayIsInjective(Date(a.year, a.month, a.mday), Date(b.year, b.month, b.mday));
    }
  }
}
