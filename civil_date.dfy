/**
 * Civil (calendar) dates in the proleptic Gregorian calendar, as ECMAScript's
 * Date object counts them, without time of day or time zone.
 *
 * `DayNumber` plays the part of ECMAScript's `Day(t)`: two dates compare as
 * their time values at midnight compare. `Normalize` is how `MakeDay` resolves
 * a day-of-month that overflows its month (the rule behind `setDate` and
 * `setMonth`).
 */
module CivilDates {

  datatype CivilDate = CivilDate(year: int, month: int, day: int)

  /** Gregorian leap-year rule; `%` is the mathematical modulo, as in ECMAScript's DaysInYear. */
  predicate IsLeapYear(y: int) {
    y % 4 == 0 && (y % 100 != 0 || y % 400 == 0)
  }

  function DaysInYear(y: int): (n: int)
    ensures n == 365 || n == 366
  {
    if IsLeapYear(y) then 366 else 365
  }

  function DaysInMonth(y: int, m: int): (n: int)
    requires 1 <= m <= 12
    ensures 28 <= n <= 31
    ensures n == 29 <==> (m == 2 && IsLeapYear(y))
  {
    if m == 2 then (if IsLeapYear(y) then 29 else 28)
    else if m == 4 || m == 6 || m == 9 || m == 11 then 30
    else 31
  }

  /** A date that names a real day: a month 1..12 and a day that exists in it. */
  predicate IsValid(c: CivilDate) {
    1 <= c.month <= 12 && 1 <= c.day <= DaysInMonth(c.year, c.month)
  }

  /** Calendar order of two dates: year, then month, then day. */
  predicate Before(a: CivilDate, b: CivilDate) {
    a.year < b.year
    || (a.year == b.year && (a.month < b.month || (a.month == b.month && a.day < b.day)))
  }

  /** The first day of the month after month `m` of year `y` (December rolls into January). */
  function FirstOfNextMonth(y: int, m: int): (f: CivilDate)
    requires 1 <= m <= 12
    ensures IsValid(f) && f.day == 1
    ensures Before(CivilDate(y, m, DaysInMonth(y, m)), f)
  {
    if m == 12 then CivilDate(y + 1, 1, 1) else CivilDate(y, m + 1, 1)
  }

  /**
   * The date `dt - 1` days after the first of month `m` of year `y`. For
   * `dt >= 1` this is what ECMAScript's MakeDay(y, m - 1, dt) denotes: a
   * day-of-month beyond the month's length carries into the following months.
   */
  function Normalize(y: int, m: int, dt: int): (r: CivilDate)
    requires 1 <= m <= 12 && 1 <= dt
    ensures IsValid(r)
    decreases dt
  {
    if dt <= DaysInMonth(y, m) then CivilDate(y, m, dt)
    else
      var f := FirstOfNextMonth(y, m);
      Normalize(f.year, f.month, dt - DaysInMonth(y, m))
  }

  /**
   * Days from 0000-01-01 to January 1 of year `y` (negative before year 0):
   * 365 per year, plus one for each leap year in between, counted as the
   * multiples of 4, less those of 100, plus those of 400. `/` is floor
   * division here, since every divisor is positive.
   */
  function YearStart(y: int): int {
    365 * y + (y + 3) / 4 - (y + 99) / 100 + (y + 399) / 400
  }

  /** Days in year `y` before the first of month `m`. */
  function DaysBeforeMonth(y: int, m: int): int
    requires 1 <= m <= 12
    decreases m
  {
    if m == 1 then 0 else DaysBeforeMonth(y, m - 1) + DaysInMonth(y, m - 1)
  }

  /**
   * Days from 0000-01-01 to `c`. It differs from ECMAScript's Day(t) of
   * the date's midnight only by a constant, so it orders dates as their
   * time values do.
   */
  function DayNumber(c: CivilDate): int
    requires 1 <= c.month <= 12
  {
    YearStart(c.year) + DaysBeforeMonth(c.year, c.month) + c.day - 1
  }

  /** How many multiples of `n` lie in [0, y + 1) compared with [0, y). */
  lemma MultiplesStep(y: int, n: int)
    requires n == 4 || n == 100 || n == 400
    ensures (y + n) / n == (y + n - 1) / n + (if y % n == 0 then 1 else 0)
  {
    var q, r := y / n, y % n;
    assert y == n * q + r && 0 <= r < n;
    assert y + n == n * (q + 1) + r;
    if r == 0 {
      assert (y + n) / n == q + 1;
      assert y + n - 1 == n * q + (n - 1);
      assert (y + n - 1) / n == q;
    } else {
      assert y + n - 1 == n * (q + 1) + (r - 1);
      assert (y + n) / n == q + 1;
      assert (y + n - 1) / n == q + 1;
    }
  }

  lemma DivisorChain(y: int)
    ensures y % 100 == 0 ==> y % 4 == 0
    ensures y % 400 == 0 ==> y % 100 == 0
  {
    if y % 100 == 0 {
      assert y == 4 * (25 * (y / 100));
    }
    if y % 400 == 0 {
      assert y == 100 * (4 * (y / 400));
    }
  }

  /** Consecutive years start `DaysInYear` days apart: the closed form counts leap days correctly. */
  lemma YearStep(y: int)
    ensures YearStart(y + 1) == YearStart(y) + DaysInYear(y)
  {
    MultiplesStep(y, 4);
    MultiplesStep(y, 100);
    MultiplesStep(y, 400);
    DivisorChain(y);
  }

  lemma {:induction false} YearStartMonotone(y1: int, y2: int)
    requires y1 < y2
    ensures YearStart(y1) + DaysInYear(y1) <= YearStart(y2)
    decreases y2 - y1
  {
    YearStep(y1);
    if y1 + 1 < y2 {
      YearStartMonotone(y1 + 1, y2);
    }
  }

  lemma {:induction false} MonthsBefore(y: int, m1: int, m2: int)
    requires 1 <= m1 < m2 <= 12
    ensures DaysBeforeMonth(y, m1) + DaysInMonth(y, m1) <= DaysBeforeMonth(y, m2)
    decreases m2 - m1
  {
    if m1 + 1 < m2 {
      MonthsBefore(y, m1, m2 - 1);
    }
  }

  lemma MonthsFillYear(y: int)
    ensures DaysBeforeMonth(y, 12) + DaysInMonth(y, 12) == DaysInYear(y)
  {
    assert DaysBeforeMonth(y, 12) == 334 + (if IsLeapYear(y) then 1 else 0);
  }

  /** A valid date lies inside its own year's span of day numbers. */
  lemma {:induction false} DayNumberInYear(c: CivilDate)
    requires IsValid(c)
    ensures YearStart(c.year) <= DayNumber(c) < YearStart(c.year) + DaysInYear(c.year)
  {
    MonthsFillYear(c.year);
    if c.month < 12 {
      MonthsBefore(c.year, c.month, 12);
    }
  }

  /** The first of the next month is exactly the month's length after the first of this month. */
  lemma {:induction false} NextMonthDayNumber(y: int, m: int)
    requires 1 <= m <= 12
    ensures DayNumber(FirstOfNextMonth(y, m)) == DayNumber(CivilDate(y, m, 1)) + DaysInMonth(y, m)
  {
    if m == 12 {
      YearStep(y);
      MonthsFillYear(y);
    }
  }

  /** `Normalize` agrees with ECMAScript's MakeDay: the first of the month plus `dt - 1` days. */
  lemma {:induction false} NormalizeIsMakeDay(y: int, m: int, dt: int)
    requires 1 <= m <= 12 && 1 <= dt
    ensures DayNumber(Normalize(y, m, dt)) == DayNumber(CivilDate(y, m, 1)) + dt - 1
    decreases dt
  {
    if dt > DaysInMonth(y, m) {
      var f := FirstOfNextMonth(y, m);
      NormalizeIsMakeDay(f.year, f.month, dt - DaysInMonth(y, m));
      NextMonthDayNumber(y, m);
    }
  }

  /** Calendar order and day-number order coincide on valid dates. */
  lemma {:induction false} BeforeIsEarlierDay(a: CivilDate, b: CivilDate)
    requires IsValid(a) && IsValid(b)
    ensures Before(a, b) ==> DayNumber(a) < DayNumber(b)
  {
    if a.year < b.year {
      DayNumberInYear(a);
      DayNumberInYear(b);
      YearStartMonotone(a.year, b.year);
    } else if a.year == b.year && a.month < b.month {
      MonthsBefore(a.year, a.month, b.month);
    }
  }

  /** Valid dates compare by day number exactly as they compare in the calendar. */
  lemma {:induction false} DayNumberOrder(a: CivilDate, b: CivilDate)
    requires IsValid(a) && IsValid(b)
    ensures DayNumber(a) < DayNumber(b) <==> Before(a, b)
    ensures DayNumber(a) == DayNumber(b) <==> a == b
  {
    BeforeIsEarlierDay(a, b);
    BeforeIsEarlierDay(b, a);
  }
}
