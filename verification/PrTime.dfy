/**
 c_src/prtime.cc: normalising a broken-down time in place, shifting it by a
 zone offset, and turning it into microseconds since the epoch.
 */
module PrTime {
  import opened Machine
  import opened Calendar
  import opened TimeFields

  /* ----- When no 16- or 32-bit field overflows ----- */

  ghost predicate CarryFits(high: int, low: int, base: int)
    requires base > 0
  {
    FitsInt32(high + TruncDiv(low, base)) && FitsInt32(high + FloorDiv(low, base))
  }

  // The first day of the 16-bit years, and the day after the last one.
  const FIRST_DAY: int := -12687794
  const END_DAY: int := 11248738

  ghost predicate DayHasYear(day: int) {
    FIRST_DAY <= day < END_DAY
  }

  lemma YearStart(y: int)
    ensures EpochDay(y, 0, 1) == 365 * (y - 1) + LeapsClosed(y - 1) - EPOCH
  {
    DaysBeforeYearClosed(y);
  }

  lemma YearsOfDays(first: int, end: int)
    requires first == -0x8000 && end == 0x8000
    ensures EpochDay(first, 0, 1) == FIRST_DAY && EpochDay(end, 0, 1) == END_DAY
  {
    YearStart(first);
    YearStart(end);
  }

  ghost predicate ClockFits(usec: int, sec: int, min: int, hour: int, mday: int) {
    var s1 := sec + FloorDiv(usec, 1_000_000);
    var m1 := min + FloorDiv(s1, 60);
    var h1 := hour + FloorDiv(m1, 60);
    && CarryFits(sec, usec, 1_000_000)
    && CarryFits(min, s1, 60)
    && CarryFits(hour, m1, 60)
    && CarryFits(mday, h1, 24)
  }

  datatype Clock = Clock(mday: int, hour: int, min: int, sec: int, usec: int)

  // The clock fields and the day after the carries.
  function Carried(c: Clock): (r: Clock)
  {
    var s1 := c.sec + FloorDiv(c.usec, 1_000_000);
    var m1 := c.min + FloorDiv(s1, 60);
    var h1 := c.hour + FloorDiv(m1, 60);
    Clock(c.mday + FloorDiv(h1, 24), FloorMod(h1, 24), FloorMod(m1, 60), FloorMod(s1, 60), FloorMod(c.usec, 1_000_000))
  }

  ghost predicate MonthFits(year: int, month: int) {
    FitsInt16(TruncDiv(month, 12)) && FitsInt16(year + TruncDiv(month, 12)) && FitsInt16(year + month / 12)
  }

  // No step of the normalisation to GMT leaves its field's width.
  ghost predicate Fits(e: Exploded) {
    && FitsInt32(e.params.Total()) && FitsInt32(e.sec - e.params.Total())
    && ClockFits(e.usec, e.sec - e.params.Total(), e.min, e.hour, e.mday)
    && MonthFits(e.year, e.month)
    && DayHasYear(FloorDiv(e.UtcMicros(), 86_400_000_000))
  }

  /* ----- What normalising must achieve ----- */

  // `g` is the GMT normal form of `e`: in range, the same instant, and the
  // weekday the closed form yields.
  ghost predicate GmtForm(e: Exploded, g: Exploded) {
    && g.InRange()
    && g.params == GMT
    && g.UtcMicros() == e.UtcMicros()
    && g.wday == ClosedWeekday(g.Day(), g.year)
  }

  // What PR_ImplodeTime makes of a record whose GMT form is `g`.
  function ImplodedMicros(g: Exploded): (usecs: int) {
    g.UtcMicros() + Skew(g.year) * 86_400_000_000
  }

  // Two records normalise to the same fields exactly when they denote the same instant.
  lemma NormalizeIsCanonical(a: Exploded, b: Exploded, x: Exploded, y: Exploded)
    requires GmtForm(a, x) && GmtForm(b, y)
    ensures x == y <==> a.UtcMicros() == b.UtcMicros()
  {
    hide ClosedWeekday, Exploded.InRange, Exploded.UtcMicros, Exploded.Day;
    NormalFormIsCanonical(x, y);
  }

  lemma NormalizeIsIdempotent(a: Exploded, x: Exploded, y: Exploded)
    requires GmtForm(a, x) && GmtForm(x, y)
    ensures y == x
  {
    hide ClosedWeekday, Exploded.InRange, Exploded.UtcMicros, Exploded.Day;
    NormalizeIsCanonical(a, x, x, y);
  }

  // The last day of a leap year before year 1 and the first day of the next year,
  // when the clock of the second is not the later one.
  predicate NewYearReversed(x: Exploded, y: Exploded) {
    && x.year <= 0 && IsLeap(x.year) && x.month == 11 && x.mday == 31
    && y.year == x.year + 1 && y.month == 0 && y.mday == 1
    && y.ClockMicros() <= x.ClockMicros()
  }

  // PR_ImplodeTime orders normal forms as their fields do, but for such pairs.
  lemma ImplodeOrders(a: Exploded, b: Exploded, x: Exploded, y: Exploded)
    requires GmtForm(a, x) && GmtForm(b, y) && x.LexBefore(y)
    ensures ImplodedMicros(x) < ImplodedMicros(y) <==> !NewYearReversed(x, y)
  {
    hide GmtForm, ImplodedMicros, Skew, NewYearReversed, Exploded.LexBefore, Exploded.InRange;
    hide Exploded.Day, Exploded.ClockMicros, Exploded.LocalMicros, Exploded.UtcMicros;
    GmtFormMeans(a, x);
    GmtFormMeans(b, y);
    ImplodedSplit(x);
    ImplodedSplit(y);
    LocalMicrosAreMonotone(x, y);
    SkewedPairs(x, y);
    OrderOfSums(x.Day(), Skew(x.year), x.ClockMicros(), y.Day(), Skew(y.year), y.ClockMicros());
  }

  // The pairs whose days are counted from different starts.
  lemma SkewedPairs(x: Exploded, y: Exploded)
    requires x.InRange() && y.InRange() && x.LexBefore(y)
    ensures Skew(y.year) < Skew(x.year) ==> x.Day() < y.Day()
    ensures Skew(y.year) < Skew(x.year) && y.Day() == x.Day() + 1 && y.ClockMicros() <= x.ClockMicros() <==>
            NewYearReversed(x, y)
  {
    hide Skew, Exploded.Day, Exploded.ClockMicros, Exploded.InRange, Exploded.LexBefore;
    SkewDrops(x.year, y.year);
    if Skew(y.year) < Skew(x.year) {
      DaysBetween(x, y);
    }
  }

  // Times whose days are counted one ahead at most.
  lemma OrderOfSums(dx: int, kx: int, cx: int, dy: int, ky: int, cy: int)
    requires 0 <= kx <= 1 && 0 <= ky <= 1 && 0 <= cx < 86_400_000_000 && 0 <= cy < 86_400_000_000
    requires dx * 86_400_000_000 + cx < dy * 86_400_000_000 + cy && (ky < kx ==> dx < dy)
    ensures (dx + kx) * 86_400_000_000 + cx < (dy + ky) * 86_400_000_000 + cy <==>
            !(ky < kx && dy == dx + 1 && cy <= cx)
  {
  }

  lemma ImplodedSplit(x: Exploded)
    requires x.InRange() && x.params == GMT
    ensures ImplodedMicros(x) == (x.Day() + Skew(x.year)) * 86_400_000_000 + x.ClockMicros()
    ensures x.LocalMicros() == x.Day() * 86_400_000_000 + x.ClockMicros()
    ensures 0 <= x.ClockMicros() < 86_400_000_000
  {
    hide Exploded.Day, Exploded.ClockMicros, Exploded.InRange, Exploded.UtcMicros, Skew;
    ClockWithinDay(x);
    GmtUtc(x);
  }

  lemma ClockWithinDay(x: Exploded)
    requires x.InRange()
    ensures 0 <= x.ClockMicros() < 86_400_000_000
  {
    hide DayOfYear, MonthLength;
  }

  // The closed form falls back into step with the calendar at the end of a leap
  // year before year 1.
  lemma SkewDrops(x: int, y: int)
    ensures x <= 0 && IsLeap(x) ==> Skew(x) == 1 && Skew(x + 1) == 0
    ensures y == x + 1 && Skew(y) < Skew(x) ==> x <= 0 && IsLeap(x)
    ensures x == y ==> Skew(x) == Skew(y)
  {
    LeapsAreApart(x);
    assert IsLeap(0);
  }

  // Normal forms of different years are a day apart only at New Year.
  lemma DaysBetween(x: Exploded, y: Exploded)
    requires x.InRange() && y.InRange() && x.LexBefore(y) && x.year != y.year
    ensures x.Day() < y.Day()
    ensures y.Day() == x.Day() + 1 <==>
            x.month == 11 && x.mday == 31 && y.year == x.year + 1 && y.month == 0 && y.mday == 1
  {
    var d, e := Date(x.year, x.month, x.mday), Date(y.year, y.month, y.mday);
    DayOfDate(x);
    DayOfDate(y);
    EpochDayIsMonotone(d, e);
    EpochDayCounts(d);
    hide EpochDay, DayOfYear, Exploded.Day;
    var n := d.Next();
    if y.Day() == x.Day() + 1 {
      EpochDayIsInjective(n, e);
    }
  }

  // In particular it is strictly increasing from year 1 on ...
  lemma ImplodeIsMonotone(a: Exploded, b: Exploded, x: Exploded, y: Exploded)
    requires GmtForm(a, x) && GmtForm(b, y) && x.year >= 1 && x.LexBefore(y)
    ensures ImplodedMicros(x) < ImplodedMicros(y)
  {
    ImplodeOrders(a, b, x, y);
  }

  // ... and it is the instant itself exactly when the closed form is exact.
  lemma ImplodeIsExact(a: Exploded, x: Exploded)
    requires GmtForm(a, x)
    ensures ImplodedMicros(x) == a.UtcMicros() <==> ClosedFormIsExact(x.year)
  {
    hide Exploded.UtcMicros, Exploded.InRange;
  }

  // The same years get the right weekday.
  lemma WeekdayIsExact(a: Exploded, x: Exploded)
    requires GmtForm(a, x)
    ensures x.wday == Weekday(x.Day()) <==> ClosedFormIsExact(x.year)
  {
    hide Exploded.UtcMicros, Exploded.InRange, Exploded.Day;
    var w := Weekday(x.Day());
    assert FloorMod(w + 1, 7) != w;
  }

  // Before year 1 two moments a day apart can be imploded alike, or in the wrong
  // order: the same or an earlier moment of New Year's Day after one of New
  // Year's Eve, exactly when the old year is a leap year.
  lemma ImplodeCollides(x: Exploded, y: Exploded)
    requires GmtForm(x, x) && GmtForm(y, y)
    requires x.month == 11 && x.mday == 31
    requires y.year == x.year + 1 && y.month == 0 && y.mday == 1 && y.ClockMicros() <= x.ClockMicros()
    ensures x.LexBefore(y)
    ensures ImplodedMicros(y) <= ImplodedMicros(x) <==> x.year <= 0 && IsLeap(x.year)
  {
    hide Exploded.InRange, ClosedWeekday, Exploded.UtcMicros, Exploded.ClockMicros, Exploded.Day;
    ImplodeOrders(x, y, x, y);
  }

  lemma LeapsAreApart(y: int)
    ensures IsLeap(y) ==> !IsLeap(y - 1)
  {
    DivisibilityChain(y);
    DivisibilityChain(y - 1);
  }

  // `f` is `g` with its clock moved on by `offset` seconds, in range again.
  ghost predicate Moved(g: Exploded, f: Exploded, offset: int) {
    && f.InRange()
    && f.LocalMicros() == g.LocalMicros() + offset * 1_000_000
    && f.wday == FloorMod(g.wday + f.Day() - g.Day(), 7)
  }

  // An offset of less than a day leaves the instant in a 16-bit year.
  ghost predicate ShiftFits(micros: int, offset: int) {
    -86400 < offset < 86400 && DayHasYear(FloorDiv(micros + offset * 1_000_000, 86_400_000_000))
  }

  lemma ShiftIsSmall(micros: int, offset: int)
    requires ShiftFits(micros, offset)
    ensures -86400 < offset < 86400
  {
    hide FloorDiv;
  }

  // The parameter function may be asked about the GMT form of `e`.
  ghost predicate ParamsFit(e: Exploded, params: Exploded -> Params) {
    forall g | GmtForm(e, g) ::
      ShiftFits(g.LocalMicros(), params(g).Total())
  }

  // A day before the month is a later day of the previous month ...
  lemma DayInPreviousMonth(year: int, month: int, day: int)
    requires 0 <= month < 12
    ensures month > 0 ==> EpochDay(year, month - 1, day + MonthLength(year, month - 1)) == EpochDay(year, month, day)
    ensures month == 0 ==> EpochDay(year - 1, 11, day + 31) == EpochDay(year, month, day)
  {
    YearIsItsMonths(year - 1);
  }

  // ... and a day after it an earlier day of the next one.
  lemma DayInNextMonth(year: int, month: int, day: int)
    requires 0 <= month < 12
    ensures month < 11 ==> EpochDay(year, month + 1, day - MonthLength(year, month)) == EpochDay(year, month, day)
    ensures month == 11 ==> EpochDay(year + 1, 0, day - 31) == EpochDay(year, month, day)
  {
    YearIsItsMonths(year);
  }

  // The year changes only while a 16-bit year is left to change to.
  lemma YearLeftBefore(year: int, day: int)
    requires day < 1 && DayHasYear(EpochDay(year, 0, day))
    ensures year > -0x8000
  {
    var first, end := -0x8000, 0x8000;
    YearsOfDays(first, end);
    if year <= first {
      YearsApart(year, first);
    }
  }

  lemma YearLeftAfter(year: int, day: int)
    requires day > 31 && DayHasYear(EpochDay(year, 11, day))
    ensures year < 0x7FFF
  {
    var first, end := -0x8000, 0x8000;
    YearsOfDays(first, end);
    if year + 1 >= end {
      YearsApart(end, year + 1);
      DayInNextMonth(year, 11, day);
    }
  }

  // Carrying seconds to minutes, hours and days keeps the instant.
  lemma CarryKeepsInstant(e: Exploded, s0: int, f: Exploded)
    requires s0 == e.sec - e.params.Total()
    requires Clock(f.mday, f.hour, f.min, f.sec, f.usec) == Carried(Clock(e.mday, e.hour, e.min, s0, e.usec))
    requires f.month == e.month && f.year == e.year
    ensures f.ClockInRange() && f.LocalMicros() == e.UtcMicros()
    ensures f.Day() == FloorDiv(e.UtcMicros(), 86_400_000_000)
  {
    var s1 := e.sec - e.params.Total() + e.usec / 1_000_000;
    var m1 := e.min + s1 / 60;
    var h1 := e.hour + m1 / 60;
    var k := h1 / 24;
    assert f.Day() == e.Day() + k;
    assert h1 == 24 * k + f.hour;
    assert f.hour * 60 + f.min + 1440 * k == e.hour * 60 + e.min + s1 / 60;
    assert (f.hour * 60 + f.min) * 60 + f.sec + 86400 * k == (e.hour * 60 + e.min) * 60 + s1;
    MicrosSplit(f);
  }

  ghost predicate SameClock(c: Exploded, f: Exploded) {
    f.usec == c.usec && f.sec == c.sec && f.min == c.min && f.hour == c.hour && f.params == c.params
  }

  // The record `c` with its clock carried becomes the GMT form of `e` once its
  // date is brought into range.
  lemma GmtReached(e: Exploded, c: Exploded, f: Exploded)
    requires SameClock(c, f)
    requires c.ClockInRange() && c.LocalMicros() == e.UtcMicros() && c.params == GMT
    requires f.DateInRange() && EpochDay(f.year, f.month, f.mday) == c.Day()
    requires f.yday == DayOfYear(Date(f.year, f.month, f.mday))
    requires f.wday == ClosedWeekday(EpochDay(f.year, f.month, f.mday), f.year)
    ensures GmtForm(e, f)
  {
    hide EpochDay, ClosedWeekday, DayOfYear, MonthLength, Exploded.Day, Exploded.LocalMicros, Exploded.UtcMicros;
    DayOfDate(f);
    SameInstant(e, c, f);
  }

  lemma SameInstant(e: Exploded, c: Exploded, f: Exploded)
    requires SameClock(c, f) && f.Day() == c.Day() && c.params == GMT && c.LocalMicros() == e.UtcMicros()
    ensures f.UtcMicros() == e.UtcMicros()
  {
    hide Exploded.Day;
    var u := e.UtcMicros();
    hide Exploded.UtcMicros;
    GmtUtc(f);
  }

  lemma GmtFormMeans(e: Exploded, g: Exploded)
    requires GmtForm(e, g)
    ensures g.InRange() && g.params == GMT && g.UtcMicros() == e.UtcMicros()
  {
    hide Exploded.InRange, Exploded.UtcMicros, ClosedWeekday;
  }

  lemma GmtUtc(f: Exploded)
    requires f.params == GMT
    ensures f.UtcMicros() == f.LocalMicros()
  {
    hide Exploded.Day, Exploded.LocalMicros;
  }

  lemma PreviousDayFits(d: Date)
    requires d.Valid() && FitsInt16(d.year) && DayHasYear(EpochDay(d.year, d.month, d.day) - 1)
    ensures var p := d.Previous();
            FitsInt16(p.year) && EpochDay(p.year, p.month, p.day) == EpochDay(d.year, d.month, d.day) - 1
  {
    EpochDayCounts(d.Previous());
    if d.month == 0 && d.day == 1 {
      YearLeftBefore(d.year, 0);
    }
  }

  lemma NextDayFits(d: Date)
    requires d.Valid() && FitsInt16(d.year) && DayHasYear(EpochDay(d.year, d.month, d.day) + 1)
    ensures var n := d.Next();
            FitsInt16(n.year) && EpochDay(n.year, n.month, n.day) == EpochDay(d.year, d.month, d.day) + 1
  {
    EpochDayCounts(d);
    if d.month == 11 && d.day == 31 {
      YearLeftAfter(d.year, 32);
    }
  }

  // The carry of `low` into `high` that the source repeats for each clock field.
  method Carry(high: int32, low: int32, base: int) returns (h: int32, l: int32)
    requires base > 0 && CarryFits(high, low, base) && FitsInt32(base)
    ensures h == high + FloorDiv(low, base) && l == FloorMod(low, base)
  {
    h, l := high, low;
    TruncRepair(low, base);
    if low < 0 || low >= base {
      h := h + TruncDiv(low, base);
      l := TruncMod(low, base);
      if l < 0 {
        l := l + base;
        h := h - 1;
      }
    } else {
      DivModUnique(low, base, 0, low);
    }
  }

  // Where an offset of less than a day leaves the clock.
  lemma ShiftedClock(g: Exploded, offset: int, h: int, m: int, s: int)
    requires g.ClockInRange() && -86400 < offset < 86400
    requires h == g.hour + (g.min + (g.sec + offset) / 60) / 60
    requires m == (g.min + (g.sec + offset) / 60) % 60 && s == (g.sec + offset) % 60
    ensures -24 <= h < 48
    ensures (h * 60 + m) * 60 + s == (g.hour * 60 + g.min) * 60 + g.sec + offset
  {
    var m1 := g.min + (g.sec + offset) / 60;
    assert (g.sec + offset) == 60 * ((g.sec + offset) / 60) + s;
    assert m1 == 60 * (m1 / 60) + m;
  }

  // The day number by closed form ...
  lemma ClosedFormDay(year: int, month: int, mday: int)
    requires Date(year, month, mday).Valid()
    ensures DaysBetweenYears(1970, year) + DayOfYear(Date(year, month, mday)) == EpochDay(year, month, mday) + Skew(year)
  {
    hide Skew, CountDays;
    CountDaysSkew(year);
    assert CountDays(1970) == EPOCH by { EpochByClosedForm(); }
  }

  lemma EpochByClosedForm()
    ensures CountDays(1970) == EPOCH
  {
  }

  // ... and the weekday it gives.
  lemma SkewedWeekday(day: int, k: int)
    ensures FloorMod(day + k + 4, 7) == FloorMod(Weekday(day) + k, 7)
  {
    var q := FloorDiv(day + 4, 7);
    assert day + 4 == 7 * q + Weekday(day);
    assert (7 * q + (Weekday(day) + k)) % 7 == (Weekday(day) + k) % 7;
  }

  // A shift starts from the clock and the date, whatever the parameters say.
  lemma ParamsDoNotMatter(e: Exploded, g: Exploded)
    requires g.usec == e.usec && g.sec == e.sec && g.min == e.min && g.hour == e.hour
    requires g.mday == e.mday && g.month == e.month && g.year == e.year && g.wday == e.wday && g.yday == e.yday
    ensures g.LocalMicros() == e.LocalMicros() && g.Day() == e.Day() && g.InRange() == e.InRange()
  {
    hide EpochDay;
  }

  // A weekday that was right is still right after a shift, without being
  // recomputed from the date.
  lemma ShiftedWeekday(g: Exploded, f: Exploded, offset: int)
    requires Moved(g, f, offset) && g.wday == Weekday(g.Day())
    ensures f.wday == Weekday(f.Day())
  {
    hide EpochDay, Exploded.Day, Exploded.InRange, Exploded.LocalMicros;
    var a, b := g.Day() + 4, f.Day() - g.Day();
    var q := a / 7;
    assert a % 7 == a - 7 * q;
    assert (a % 7 + b) % 7 == (a + b) % 7 by {
      DivModUnique(a % 7 + b, 7, (a + b) / 7 - q, (a + b) % 7);
    }
  }

  lemma MovedFromGmt(gmt: Exploded, g: Exploded, f: Exploded, offset: int)
    requires g.LocalMicros() == gmt.LocalMicros() && g.Day() == gmt.Day() && g.wday == gmt.wday
    requires Moved(g, f, offset)
    ensures Moved(gmt, f, offset)
  {
    hide EpochDay, FloorMod, Exploded.Day, Exploded.LocalMicros, Exploded.InRange;
    assert g.wday + f.Day() - g.Day() == gmt.wday + f.Day() - gmt.Day();
  }

  // Moving the clock by its own parameters' offset keeps the instant.
  lemma MovedKeepsInstant(gmt: Exploded, f: Exploded, offset: int)
    requires gmt.params == GMT && Moved(gmt, f, offset) && offset == f.params.Total()
    ensures f.UtcMicros() == gmt.UtcMicros()
  {
    hide EpochDay, Moved, Exploded.LocalMicros;
    MovedMicros(gmt, f, offset);
    GmtUtc(gmt);
  }

  lemma MovedMicros(gmt: Exploded, f: Exploded, offset: int)
    requires Moved(gmt, f, offset)
    ensures f.LocalMicros() == gmt.LocalMicros() + offset * 1_000_000
  {
    hide Exploded.LocalMicros, Exploded.InRange, Exploded.Day, FloorMod;
  }

  // `c` is `g` after the clock part of a shift: the hour still counts the days
  // gone over.
  ghost predicate ClockShifted(g: Exploded, c: Exploded, offset: int) {
    && g.ClockInRange() && g.DateInRange()
    && c.usec == g.usec && c.mday == g.mday && c.month == g.month && c.year == g.year
    && c.wday == g.wday && c.yday == g.yday
    && 0 <= c.sec < 60 && 0 <= c.min < 60 && -24 <= c.hour < 48
    && (c.hour * 60 + c.min) * 60 + c.sec == (g.hour * 60 + g.min) * 60 + g.sec + offset
  }

  // The day on which the shifted clock falls ...
  lemma ShiftedDay(g: Exploded, c: Exploded, offset: int)
    requires ClockShifted(g, c, offset)
    ensures FloorDiv(g.LocalMicros() + offset * 1_000_000, 86_400_000_000) == EpochDay(g.year, g.month, g.mday) + c.hour / 24
  {
    var k := c.hour / 24;
    var r := ((c.hour % 24 * 60 + c.min) * 60 + c.sec) * 1_000_000 + c.usec;
    assert g.LocalMicros() + offset * 1_000_000 == (g.Day() + k) * 86_400_000_000 + r;
    DivModUnique(g.LocalMicros() + offset * 1_000_000, 86_400_000_000, g.Day() + k, r);
  }

  // ... and the record once the date has followed.
  lemma ShiftFinished(g: Exploded, c: Exploded, f: Exploded, offset: int)
    requires ClockShifted(g, c, offset)
    requires f.usec == c.usec && f.sec == c.sec && f.min == c.min && f.hour == c.hour % 24
    requires f.DateInRange() && f.yday == DayOfYear(Date(f.year, f.month, f.mday))
    requires f.wday == (g.wday + c.hour / 24) % 7
    requires EpochDay(f.year, f.month, f.mday) == EpochDay(g.year, g.month, g.mday) + c.hour / 24
    ensures Moved(g, f, offset)
  {
    var k := c.hour / 24;
    assert c.hour == 24 * k + f.hour;
    assert f.Day() == g.Day() + k;
  }

  // PR_GMTParameters.
  function GmtParameters(e: Exploded): Params {
    Params(0, 0)
  }

  lemma GmtParamsFit(e: Exploded)
    requires Fits(e)
    ensures ParamsFit(e, GmtParameters)
  {
    hide GmtForm, Exploded.UtcMicros, Exploded.LocalMicros, FloorDiv, DayHasYear, ShiftFits;
    forall g | GmtForm(e, g)
      ensures ShiftFits(g.LocalMicros(), GmtParameters(g).Total())
    {
      GmtFormMeans(e, g);
      GmtUtc(g);
      ShiftByNothing(g.LocalMicros());
    }
  }

  lemma ShiftByNothing(micros: int)
    requires DayHasYear(FloorDiv(micros, 86_400_000_000))
    ensures ShiftFits(micros, 0)
  {
    hide FloorDiv;
    assert micros + 0 * 1_000_000 == micros;
  }

  // Under GMT the final shift changes nothing.
  lemma MovedByNothing(g: Exploded, f: Exploded)
    requires g.InRange() && Moved(g, f, 0) && f.params == g.params
    ensures f == g
  {
    hide EpochDay, DayOfYear, FloorDiv, MonthLength, Exploded.LocalMicros, Exploded.UtcMicros;
    MovedMicros(g, f, 0);
    SameMicrosSameFields(g, f);
    assert FloorMod(g.wday + f.Day() - g.Day(), 7) == g.wday by { WeekdayStays(g.wday, f.Day() - g.Day()); }
  }

  lemma WeekdayStays(w: int, k: int)
    requires 0 <= w < 7 && k == 0
    ensures FloorMod(w + k, 7) == w
  {
  }

  lemma SameMicrosSameFields(g: Exploded, f: Exploded)
    requires g.InRange() && f.InRange() && f.LocalMicros() == g.LocalMicros()
    ensures f.Day() == g.Day() && f.usec == g.usec && f.sec == g.sec && f.min == g.min && f.hour == g.hour
    ensures f.mday == g.mday && f.month == g.month && f.year == g.year && f.yday == g.yday
  {
    hide EpochDay, DayOfYear, FloorDiv, MonthLength;
    MicrosSplit(g);
    MicrosSplit(f);
    DayOfDate(g);
    DayOfDate(f);
    EpochDayIsInjective(Date(g.year, g.month, g.mday), Date(f.year, f.month, f.mday));
  }

  // The closed-form seconds and microseconds of a GMT record.
  lemma Imploded(e: Exploded, f: Exploded, numDays: int, numSecs: int)
    requires GmtForm(e, f) && DayHasYear(FloorDiv(e.UtcMicros(), 86_400_000_000))
    requires numDays == DaysBetweenYears(1970, f.year)
    requires numSecs == f.yday * 86400 + f.hour * 3600 + f.min * 60 + f.sec
    ensures FIRST_DAY - 366 <= numDays <= END_DAY && 0 <= f.yday < 366
    ensures (numSecs + numDays * 86400) * 1_000_000 + f.usec == e.UtcMicros() + Skew(f.year) * 86_400_000_000
  {
    hide EpochDay, DaysBetweenYears, DayOfYear, FloorDiv, Skew, YearLength, GmtForm, MonthLength, Exploded.UtcMicros;
    GmtFormMeans(e, f);
    GmtUtc(f);
    DayOfYearBounds(Date(f.year, f.month, f.mday));
    YearLengthBounds(f.year);
    ClosedFormDay(f.year, f.month, f.mday);
    DayOfDate(f);
    MicrosSplit(f);
    assert numDays + f.yday == f.Day() + Skew(f.year);
    ImplodedSum(f, numDays, numSecs, f.Day(), Skew(f.year));
  }

  lemma YearLengthBounds(year: int)
    ensures YearLength(year) <= 366
  {
  }

  lemma ImplodedSum(f: Exploded, numDays: int, numSecs: int, day: int, k: int)
    requires numDays + f.yday == day + k
    requires numSecs == f.yday * 86400 + f.hour * 3600 + f.min * 60 + f.sec
    ensures (numSecs + numDays * 86400) * 1_000_000 + f.usec == day * 86_400_000_000 + f.ClockMicros() + k * 86_400_000_000
  {
  }

  lemma FitsMeans(e: Exploded)
    requires Fits(e)
    ensures DayHasYear(FloorDiv(e.UtcMicros(), 86_400_000_000))
  {
    hide ClockFits, MonthFits, FloorDiv, Exploded.UtcMicros;
  }

  method WeekdayOf(numDays: int32) returns (w: int8)
    requires FitsInt32(numDays + 4)
    ensures w == FloorMod(numDays + 4, 7)
  {
    TruncRepair(numDays + 4, 7);
    w := TruncMod(numDays + 4, 7);
    if w < 0 {
      w := w + 7;
    }
  }

  class ExplodedTime {
    var usec: int32
    var sec: int32
    var min: int32
    var hour: int32
    var mday: int32
    var month: int32
    var year: int16
    var wday: int8
    var yday: int16
    var params: Params

    constructor (e: Exploded)
      requires FitsInt32(e.usec) && FitsInt32(e.sec) && FitsInt32(e.min) && FitsInt32(e.hour)
      requires FitsInt32(e.mday) && FitsInt32(e.month) && FitsInt16(e.year)
      requires -0x80 <= e.wday < 0x80 && FitsInt16(e.yday)
      ensures Value() == e
    {
      usec, sec, min, hour := e.usec, e.sec, e.min, e.hour;
      mday, month, year := e.mday, e.month, e.year;
      wday, yday, params := e.wday, e.yday, e.params;
    }

    function Value(): Exploded
      reads this
    {
      Exploded(usec, sec, min, hour, mday, month, year, wday, yday, params)
    }

    // Carry from the microseconds up to the days.
    method CarryClock()
      requires ClockFits(usec, sec, min, hour, mday)
      modifies `usec, `sec, `min, `hour, `mday
      ensures Clock(mday, hour, min, sec, usec) == Carried(old(Clock(mday, hour, min, sec, usec)))
      ensures month == old(month) && year == old(year) && params == old(params)
    {
      hide FloorDiv, FloorMod, TruncDiv;
      var d, h, m, s, u := mday, hour, min, sec, usec;
      s, u := Carry(s, u, 1_000_000);
      m, s := Carry(m, s, 60);
      h, m := Carry(h, m, 60);
      d, h := Carry(d, h, 24);
      mday, hour, min, sec, usec := d, h, m, s, u;
    }

    // Carry the month into the year.
    method CarryMonth()
      requires MonthFits(year, month)
      modifies `month, `year
      ensures 0 <= month < 12
      ensures EpochDay(year, month, mday) == old(Value().Day())
      ensures SameClock(old(Value()), Value())
    {
      if month < 0 || month >= 12 {
        TruncRepair(month, 12);
        year := year + TruncDiv(month, 12);
        month := TruncMod(month, 12);
        if month < 0 {
          month := month + 12;
          year := year - 1;
        }
      }
    }

    // One turn of the loop for a day before the month.
    method ToPreviousMonth()
      requires 0 <= month < 12 && mday < 1 && DayHasYear(EpochDay(year, month, mday))
      modifies `mday, `month, `year
      ensures 0 <= month < 12 && old(mday) < mday <= MonthLength(year, month)
      ensures EpochDay(year, month, mday) == old(EpochDay(year, month, mday))
    {
      DayInPreviousMonth(year, month, mday);
      if month == 0 {
        YearLeftBefore(year, mday);
      }
      month := month - 1;
      if month < 0 {
        month := 11;
        year := year - 1;
      }
      var daysInMonth := DaysInMonth(year, month);
      mday := mday + daysInMonth;
    }

    // One turn of the loop for a day after the month.
    method ToNextMonth(daysInMonth: int) returns (next: int)
      requires 0 <= month < 12 && mday > daysInMonth == MonthLength(year, month)
      requires DayHasYear(EpochDay(year, month, mday))
      modifies `mday, `month, `year
      ensures 0 <= month < 12 && 1 <= mday < old(mday) && next == MonthLength(year, month)
      ensures EpochDay(year, month, mday) == old(EpochDay(year, month, mday))
    {
      DayInNextMonth(year, month, mday);
      if month == 11 {
        YearLeftAfter(year, mday);
      }
      mday := mday - daysInMonth;
      month := month + 1;
      if month > 11 {
        month := 0;
        year := year + 1;
      }
      next := DaysInMonth(year, month);
    }

    // Bring the day of the month into its month, one month at a time.
    method CarryDay()
      requires 0 <= month < 12 && DayHasYear(EpochDay(year, month, mday))
      modifies `mday, `month, `year
      ensures Value().DateInRange()
      ensures EpochDay(year, month, mday) == old(EpochDay(year, month, mday))
      ensures SameClock(old(Value()), Value())
    {
      if mday < 1 {
        while mday < 1
          invariant 0 <= month < 12 && mday <= MonthLength(year, month)
          invariant EpochDay(year, month, mday) == old(EpochDay(year, month, mday))
          decreases 1 - mday
        {
          ToPreviousMonth();
        }
      } else {
        var daysInMonth: int := DaysInMonth(year, month);
        while mday > daysInMonth
          invariant 0 <= month < 12 && 1 <= mday && daysInMonth == MonthLength(year, month)
          invariant EpochDay(year, month, mday) == old(EpochDay(year, month, mday))
          decreases mday
        {
          daysInMonth := ToNextMonth(daysInMonth);
        }
      }
    }

    // The clock part of a shift: the hour may leave its range by a day.
    method ShiftClock(secOffset: int32)
      requires Value().ClockInRange() && Value().DateInRange() && -86400 < secOffset < 86400
      modifies `sec, `min, `hour
      ensures ClockShifted(old(Value()), Value(), secOffset)
    {
      var h, m, s := hour, min, sec + secOffset;
      m, s := Carry(m, s, 60);
      h, m := Carry(h, m, 60);
      ShiftedClock(Value(), secOffset, h, m, s);
      hour, min, sec := h, m, s;
    }

    // Shift the clock of an in-range record by less than a day; the date, yday
    // and wday move by at most one day and are not recomputed.
    method ApplySecOffset(secOffset: int32)
      requires Value().InRange() && ShiftFits(Value().LocalMicros(), secOffset)
      modifies `sec, `min, `hour, `mday, `month, `year, `wday, `yday
      ensures Moved(old(Value()), Value(), secOffset)
    {
      hide EpochDay, DayOfYear, FloorDiv, Moved, Exploded.Day, Exploded.LocalMicros;
      ghost var g := Value();
      ShiftClock(secOffset);
      ghost var c := Value();
      ShiftedDay(g, c, secOffset);
      if hour < 0 {
        PreviousDayFits(Today());
      } else if hour > 23 {
        NextDayFits(Today());
      }
      AdjustDay();
      ShiftFinished(g, c, Value(), secOffset);
    }

    // Hand an hour out of range over to the date.
    method AdjustDay()
      requires DateAgrees() && -24 <= hour < 48
      requires hour < 0 ==> FitsInt16(Today().Previous().year)
      requires hour > 23 ==> FitsInt16(Today().Next().year)
      modifies `hour, `mday, `month, `year, `wday, `yday
      ensures DateAgrees() && hour == old(hour) % 24
      ensures usec == old(usec) && sec == old(sec) && min == old(min) && params == old(params)
      ensures wday == (old(wday) + old(hour) / 24) % 7
      ensures Today() == if old(hour) < 0 then old(Today().Previous())
                         else if old(hour) > 23 then old(Today().Next())
                         else old(Today())
    {
      if hour < 0 {
        hour := hour + 24;
        StepDayBack();
      } else if hour > 23 {
        hour := hour - 24;
        StepDayOn();
      }
    }

    function Today(): Date
      reads `year, `month, `mday
    {
      Date(year, month, mday)
    }

    predicate DateAgrees()
      reads `year, `month, `mday, `wday, `yday
    {
      Today().Valid() && yday == DayOfYear(Today()) && 0 <= wday < 7
    }

    method StepDayBack()
      requires DateAgrees() && FitsInt16(Today().Previous().year)
      modifies `mday, `month, `year, `wday, `yday
      ensures DateAgrees() && Today() == old(Today().Previous())
      ensures wday == (old(wday) - 1) % 7
    {
      ghost var p := Today().Previous();
      DayOfYearCounts(p);
      DayOfYearBounds(Today());
      mday := mday - 1;
      yday := yday - 1;
      if mday < 1 {
        month := month - 1;
        if month < 0 {
          month := 11;
          year := year - 1;
          var leap := IsLeapYear(year);
          yday := if leap == 1 then 365 else 364;
        }
        mday := DaysInMonth(year, month);
      }
      assert Today() == p;
      wday := wday - 1;
      if wday < 0 {
        wday := 6;
      }
    }

    method StepDayOn()
      requires DateAgrees() && FitsInt16(Today().Next().year)
      modifies `mday, `month, `year, `wday, `yday
      ensures DateAgrees() && Today() == old(Today().Next())
      ensures wday == (old(wday) + 1) % 7
    {
      DayOfYearCounts(Today());
      mday := mday + 1;
      yday := yday + 1;
      var daysInMonth := DaysInMonth(year, month);
      if mday > daysInMonth {
        mday := 1;
        month := month + 1;
        if month > 11 {
          month := 0;
          year := year + 1;
          yday := 0;
        }
      }
      wday := wday + 1;
      if wday > 6 {
        wday := 0;
      }
    }

    // PR_NormalizeTime.  `gmt` is the record handed to the parameter function.
    method NormalizeTime(paramFn: Exploded -> Params) returns (ghost gmt: Exploded)
      requires Fits(Value()) && ParamsFit(Value(), paramFn)
      modifies this
      ensures GmtForm(old(Value()), gmt) && params == paramFn(gmt)
      ensures Moved(gmt, Value(), params.Total())
      ensures Value().UtcMicros() == old(Value().UtcMicros())
    {
      hide EpochDay, ClosedWeekday, GmtForm, Moved, Fits, ShiftFits;
      hide Exploded.InRange, Exploded.Day, Exploded.LocalMicros, Exploded.UtcMicros;
      ghost var e := Value();
      NormalizeToGmt();
      gmt := Value();
      GmtFormMeans(e, gmt);
      params := paramFn(Value());
      ghost var g := Value();
      ParamsDoNotMatter(gmt, g);
      ShiftIsSmall(gmt.LocalMicros(), params.Total());
      ApplySecOffset(params.gmtOffset + params.dstOffset);
      MovedFromGmt(gmt, g, Value(), params.Total());
      MovedKeepsInstant(gmt, Value(), params.Total());
    }

    // The part of PR_NormalizeTime up to the call of the parameter function.
    method NormalizeToGmt()
      requires Fits(Value())
      modifies this
      ensures GmtForm(old(Value()), Value())
    {
      hide EpochDay, ClosedWeekday, GmtForm, FloorDiv, TruncDiv, ClockFits;
      hide Exploded.Day, Exploded.LocalMicros, Exploded.UtcMicros;
      ghost var e := Value();
      ClockToGmt();
      ghost var c := Value();
      CarryMonth();
      assert EpochDay(year, month, mday) == c.Day();
      CarryDay();
      RecomputeDays();
      GmtReached(e, c, Value());
    }

    // Get back to GMT and carry the clock.
    method ClockToGmt()
      requires FitsInt32(params.Total()) && FitsInt32(sec - params.Total())
      requires ClockFits(usec, sec - params.Total(), min, hour, mday)
      modifies `usec, `sec, `min, `hour, `mday, `params
      ensures params == GMT && Value().ClockInRange()
      ensures month == old(month) && year == old(year)
      ensures Value().LocalMicros() == old(Value().UtcMicros())
      ensures Value().Day() == FloorDiv(old(Value().UtcMicros()), 86_400_000_000)
    {
      hide EpochDay, FloorDiv, TruncDiv, ClockFits, Carried, Exploded.Day, Exploded.LocalMicros, Exploded.UtcMicros;
      ghost var e := Value();
      sec := sec - (params.gmtOffset + params.dstOffset);
      params := Params(0, 0);
      ghost var s0 := sec;
      assert s0 == e.sec - e.params.Total();
      CarryClock();
      CarryKeepsInstant(e, s0, Value());
    }

    // Recompute yday and wday from the date.
    method RecomputeDays()
      requires Value().DateInRange() && DayHasYear(EpochDay(year, month, mday))
      modifies `wday, `yday
      ensures DateAgrees() && SameClock(old(Value()), Value()) && Today() == old(Today())
      ensures wday == ClosedWeekday(EpochDay(year, month, mday), year)
    {
      DayOfYearBounds(Today());
      var last := LastDayOfMonth(year, month);
      yday := mday + last;

      ClosedFormDay(year, month, mday);
      var numDays: int32 := DaysBetweenYears(1970, year) + yday;
      SkewedWeekday(EpochDay(year, month, mday), Skew(year));
      wday := WeekdayOf(numDays);
    }

    // A copy of the record, in GMT normal form.
    method NormalizedCopy() returns (copy: ExplodedTime)
      requires Fits(Value())
      ensures GmtForm(Value(), copy.Value())
    {
      hide EpochDay, GmtForm, Moved, FloorDiv, Exploded.Day, Exploded.LocalMicros, Exploded.UtcMicros;
      GmtParamsFit(Value());
      copy := new ExplodedTime(Value());
      ghost var gmt := copy.NormalizeTime(GmtParameters);
      GmtFormMeans(Value(), gmt);
      MovedByNothing(gmt, copy.Value());
    }

    // PR_ImplodeTime: microseconds since the epoch, off by a day in the years
    // for which the closed form is.
    method ImplodeTime() returns (usecs: int64)
      requires Fits(Value())
      ensures exists gmt :: GmtForm(Value(), gmt) && usecs == ImplodedMicros(gmt)
    {
      hide EpochDay, GmtForm, FloorDiv, Exploded.Day, Exploded.LocalMicros, Exploded.UtcMicros, DaysBetweenYears;
      FitsMeans(Value());
      var copy := NormalizedCopy();
      ghost var gmt := copy.Value();
      Imploded(Value(), gmt, DaysBetweenYears(1970, copy.year),
               copy.yday * 86400 + copy.hour * 3600 + copy.min * 60 + copy.sec);
      GmtFormMeans(Value(), gmt);
      var numDays: int32 := DaysBetweenYears(1970, copy.year);
      var numSecs: int32 := copy.yday * 86400 + copy.hour * 3600 + copy.min * 60 + copy.sec;
      var numSecs64: int64 := numSecs + numDays * 86400;
      numSecs64 := numSecs64 - copy.params.gmtOffset;
      numSecs64 := numSecs64 - copy.params.dstOffset;
      usecs := numSecs64 * 1_000_000 + copy.usec;
    }
  }
}
