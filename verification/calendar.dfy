/**
 * The proleptic Gregorian calendar as the pages use it through JavaScript's
 * `Date`: a date is a year, a month counted from 0 (as `getMonth()` returns
 * it) and a day of the month counted from 1. Dates are numbered by days
 * since 1970-01-01, a Thursday, which gives the weekday `getDay()` reports
 * (0 = Sunday). Time of day, time zones and daylight saving are not modelled.
 */
module Calendar {

  datatype Date = Date(year: int, month: int, day: int)

  predicate IsLeapYear(y: int) {
    y % 4 == 0 && (y % 100 != 0 || y % 400 == 0)
  }

  /** `new Date(y, m + 1, 0).getDate()`: the number of days in month m of year y. */
  function DaysInMonth(y: int, m: int): (n: int)
    requires 0 <= m < 12
    ensures 28 <= n <= 31
    ensures n == 29 <==> m == 1 && IsLeapYear(y)
    ensures n == 28 <==> m == 1 && !IsLeapYear(y)
    ensures n == 30 <==> m == 3 || m == 5 || m == 8 || m == 10
  {
    if m == 1 then (if IsLeapYear(y) then 29 else 28)
    else if m == 3 || m == 5 || m == 8 || m == 10 then 30
    else 31
  }

  predicate Valid(d: Date) {
    0 <= d.month < 12 && 1 <= d.day <= DaysInMonth(d.year, d.month)
  }

  /** Days in the months of year y before month m. */
  function DaysBeforeMonth(y: int, m: int): int
    requires 0 <= m < 12
  {
    var table := [0, 31, 59, 90, 120, 151, 181, 212, 243, 273, 304, 334];
    table[m] + (if m >= 2 && IsLeapYear(y) then 1 else 0)
  }

  lemma DaysBeforeNextMonth(y: int, m: int)
    requires 0 <= m < 11
    ensures DaysBeforeMonth(y, m + 1) == DaysBeforeMonth(y, m) + DaysInMonth(y, m)
  {
  }

  /** Leap years in 1..x, extended to every integer x by floor division. */
  function Leaps(x: int): int {
    x / 4 - x / 100 + x / 400
  }

  lemma LeapStep(y: int)
    ensures Leaps(y) - Leaps(y - 1) == if IsLeapYear(y) then 1 else 0
  {
    FloorStep(y, 4);
    FloorStep(y, 100);
    FloorStep(y, 400);
    if y % 100 == 0 { MultipleOf(y, 100, 4); }
    if y % 400 == 0 { MultipleOf(y, 400, 100); }
  }

  /** Floor division by d steps up by one exactly at the multiples of d. */
  lemma FloorStep(y: int, d: int)
    requires d > 0
    ensures y / d == (y - 1) / d + (if y % d == 0 then 1 else 0)
  {
    var q, r := (y - 1) / d, (y - 1) % d;
    assert y == d * q + (r + 1);
    if r + 1 == d {
      assert y == d * (q + 1) + 0;
      DivisionOf(y, d, q + 1, 0);
    } else {
      DivisionOf(y, d, q, r + 1);
    }
  }

  /** Quotient and remainder are determined by y == d * q + r with 0 <= r < d. */
  lemma DivisionOf(y: int, d: int, q: int, r: int)
    requires d > 0 && 0 <= r < d && y == d * q + r
    ensures y / d == q && y % d == r
  {
    var q', r' := y / d, y % d;
    assert d * (q - q') == r' - r;
    assert d * (q' - q) == r - r';
    if q > q' {
      MulAtLeast(d, q - q');
    } else if q < q' {
      MulAtLeast(d, q' - q);
    }
  }

  lemma {:induction false} MulAtLeast(d: int, k: int)
    requires d > 0 && k >= 1
    ensures d * k >= d
    decreases k
  {
    if k > 1 {
      MulAtLeast(d, k - 1);
      assert d * k == d * (k - 1) + d;
    }
  }

  /** A multiple of big is a multiple of every divisor of big. */
  lemma MultipleOf(y: int, big: int, small: int)
    requires small > 0 && big > 0 && big % small == 0
    requires y % big == 0
    ensures y % small == 0
  {
    var a, b := y / big, big / small;
    assert y == big * a;
    assert big == small * b;
    assert y == small * (b * a);
    DivisionOf(y, small, b * a, 0);
  }

  /** Days from 1970-01-01 to January 1st of year y. */
  function DaysBeforeYear(y: int): int {
    365 * (y - 1970) + Leaps(y - 1) - Leaps(1969)
  }

  lemma DaysBeforeNextYear(y: int)
    ensures DaysBeforeYear(y + 1) == DaysBeforeYear(y) + (if IsLeapYear(y) then 366 else 365)
  {
    LeapStep(y);
  }

  /** Days from 1970-01-01 to d: the day number of a date. */
  function DayNumber(d: Date): int
    requires 0 <= d.month < 12
  {
    DaysBeforeYear(d.year) + DaysBeforeMonth(d.year, d.month) + d.day - 1
  }

  /** `getDay()` of day number n: 0 = Sunday .. 6 = Saturday. */
  function DayOfWeek(n: int): (w: int)
    ensures 0 <= w < 7
  {
    (n + 4) % 7
  }

  /** Weekdays repeat every seven days, forwards and backwards. */
  lemma DayOfWeekPeriodic(n: int, k: int)
    ensures DayOfWeek(n + 7 * k) == DayOfWeek(n)
  {
    assert (n + 7 * k + 4) == (n + 4) + 7 * k;
  }

  /** The date after d, as `setDate(getDate() + 1)` rolls it over. */
  function NextDay(d: Date): Date
    requires Valid(d)
  {
    if d.day < DaysInMonth(d.year, d.month) then Date(d.year, d.month, d.day + 1)
    else if d.month < 11 then Date(d.year, d.month + 1, 1)
    else Date(d.year + 1, 0, 1)
  }

  /** The date before d, as `setDate(getDate() - 1)` rolls it back. */
  function PrevDay(d: Date): Date
    requires Valid(d)
  {
    if d.day > 1 then Date(d.year, d.month, d.day - 1)
    else if d.month > 0 then Date(d.year, d.month - 1, DaysInMonth(d.year, d.month - 1))
    else Date(d.year - 1, 11, 31)
  }

  lemma NextDayNumber(d: Date)
    requires Valid(d)
    ensures Valid(NextDay(d)) && DayNumber(NextDay(d)) == DayNumber(d) + 1
  {
    if d.day == DaysInMonth(d.year, d.month) {
      if d.month < 11 {
        DaysBeforeNextMonth(d.year, d.month);
      } else {
        DaysBeforeNextYear(d.year);
      }
    }
  }

  lemma PrevDayNumber(d: Date)
    requires Valid(d)
    ensures Valid(PrevDay(d)) && DayNumber(PrevDay(d)) == DayNumber(d) - 1
  {
    if d.day == 1 {
      if d.month > 0 {
        DaysBeforeNextMonth(d.year, d.month - 1);
      } else {
        DaysBeforeNextYear(d.year - 1);
      }
    }
  }

  /**
   * `date.setDate(date.getDate() + k)`: the date k days later (earlier for
   * negative k), rolling over months and years one day at a time.
   */
  function AddDays(d: Date, k: int): (r: Date)
    requires Valid(d)
    ensures Valid(r)
    ensures DayNumber(r) == DayNumber(d) + k
    decreases if k < 0 then -k else k
  {
    if k == 0 then d
    else if k > 0 then
      NextDayNumber(d);
      AddDays(NextDay(d), k - 1)
    else
      PrevDayNumber(d);
      AddDays(PrevDay(d), k + 1)
  }

  /** Valid dates with the same day number are the same date. */
  lemma DayNumberInjective(a: Date, b: Date)
    requires Valid(a) && Valid(b)
    requires DayNumber(a) == DayNumber(b)
    ensures a == b
  {
    SameDayNumberSameYear(a, b);
    SameDayNumberSameMonth(a, b);
  }

  lemma SameDayNumberSameYear(a: Date, b: Date)
    requires Valid(a) && Valid(b)
    requires DayNumber(a) == DayNumber(b)
    ensures a.year == b.year
  {
    YearBounds(a);
    YearBounds(b);
    OneYearPerDay(DayNumber(a), a.year, b.year);
  }

  /** A day number lies within exactly one year. */
  lemma OneYearPerDay(n: int, y1: int, y2: int)
    requires DaysBeforeYear(y1) <= n < DaysBeforeYear(y1 + 1)
    requires DaysBeforeYear(y2) <= n < DaysBeforeYear(y2 + 1)
    ensures y1 == y2
  {
    if y1 < y2 {
      DaysBeforeYearMonotone(y1 + 1, y2);
    } else if y2 < y1 {
      DaysBeforeYearMonotone(y2 + 1, y1);
    }
  }

  lemma SameDayNumberSameMonth(a: Date, b: Date)
    requires Valid(a) && Valid(b) && a.year == b.year
    requires DayNumber(a) == DayNumber(b)
    ensures a.month == b.month
  {
    if a.month < b.month {
      MonthBounds(a.year, a.month, b.month);
    } else if b.month < a.month {
      MonthBounds(a.year, b.month, a.month);
    }
  }

  /** A date's day number lies within its year. */
  lemma YearBounds(d: Date)
    requires Valid(d)
    ensures DaysBeforeYear(d.year) <= DayNumber(d) < DaysBeforeYear(d.year + 1)
  {
    DaysBeforeNextYear(d.year);
  }

  lemma {:induction false} DaysBeforeYearMonotone(a: int, b: int)
    requires a <= b
    ensures DaysBeforeYear(a) <= DaysBeforeYear(b)
    decreases b - a
  {
    if a < b {
      DaysBeforeNextYear(a);
      DaysBeforeYearMonotone(a + 1, b);
    }
  }

  lemma MonthBounds(y: int, m1: int, m2: int)
    requires 0 <= m1 < m2 < 12
    ensures DaysBeforeMonth(y, m1) + DaysInMonth(y, m1) <= DaysBeforeMonth(y, m2)
  {
  }

  /** The first and the last day of month m of year y. */
  function FirstOfMonth(y: int, m: int): (d: Date)
    requires 0 <= m < 12
    ensures Valid(d)
  {
    Date(y, m, 1)
  }

  function LastOfMonth(y: int, m: int): (d: Date)
    requires 0 <= m < 12
    ensures Valid(d)
  {
    Date(y, m, DaysInMonth(y, m))
  }

  /** The day after the last of a month is the first of the next one. */
  lemma MonthsAreContiguous(y: int, m: int)
    requires 0 <= m < 12
    ensures NextDay(LastOfMonth(y, m)) == (if m < 11 then FirstOfMonth(y, m + 1) else FirstOfMonth(y + 1, 0))
    ensures DayNumber(LastOfMonth(y, m)) - DayNumber(FirstOfMonth(y, m)) + 1 == DaysInMonth(y, m)
  {
  }
}
