/**
 * The proleptic Gregorian calendar that JavaScript's `Date` uses, reduced to what the
 * booking core needs: calendar dates with a 0-based month (as `Date.getMonth()` returns),
 * a day number that orders them, the day of the week (`Date.getDay()`, 0 = Sunday), and
 * the calendar successor and predecessor that `setDate(getDate() + 1)` and
 * `setDate(getDate() - 1)` move a date by.
 */
module Calendar {

  /** A calendar day; `month` is 0-based (0 = January), as in JavaScript. */
  datatype CalDate = CalDate(year: int, month: int, day: int)

  predicate IsLeapYear(y: int)
  {
    (y % 4 == 0 && y % 100 != 0) || y % 400 == 0
  }

  function DaysInMonth(y: int, m: int): (n: int)
    ensures 28 <= n <= 31
  {
    if m == 1 then (if IsLeapYear(y) then 29 else 28)
    else if m == 3 || m == 5 || m == 8 || m == 10 then 30
    else 31
  }

  /** The date names a real day: month 0..11 and day 1..length of that month. */
  predicate ValidDate(d: CalDate)
  {
    0 <= d.month <= 11 && 1 <= d.day <= DaysInMonth(d.year, d.month)
  }

  function YearDays(y: int): int
  {
    if IsLeapYear(y) then 366 else 365
  }

  /** Days from 0001-01-01 to 1 January of year `y` (negative before year 1). */
  function DaysBeforeYear(y: int): int
    decreases if y < 1 then 1 - y else y - 1
  {
    if y == 1 then 0
    else if y > 1 then DaysBeforeYear(y - 1) + YearDays(y - 1)
    else DaysBeforeYear(y + 1) - YearDays(y)
  }

  /** Days from 1 January to the first day of month `m` of year `y`. */
  function DaysBeforeMonth(y: int, m: int): int
    requires 0 <= m <= 11
  {
    [0, 31, 59, 90, 120, 151, 181, 212, 243, 273, 304, 334][m]
      + (if m >= 2 && IsLeapYear(y) then 1 else 0)
  }

  /** The number of days from 0001-01-01 (day 0, a Monday) to `d`. */
  function DayNumber(d: CalDate): int
    requires 0 <= d.month <= 11
  {
    DaysBeforeYear(d.year) + DaysBeforeMonth(d.year, d.month) + d.day - 1
  }

  /** `Date.getDay()`: 0 = Sunday, 1 = Monday, ..., 6 = Saturday. */
  function WeekdayOfNumber(n: int): (w: int)
    ensures 0 <= w <= 6
  {
    (n + 1) % 7
  }

  function DayOfWeek(d: CalDate): (w: int)
    requires 0 <= d.month <= 11
    ensures 0 <= w <= 6
  {
    WeekdayOfNumber(DayNumber(d))
  }

  /** Monday to Friday. */
  predicate IsWeekdayNumber(n: int)
  {
    WeekdayOfNumber(n) != 0 && WeekdayOfNumber(n) != 6
  }

  predicate IsWeekday(d: CalDate)
    requires 0 <= d.month <= 11
  {
    IsWeekdayNumber(DayNumber(d))
  }

  /** The next calendar day (`setDate(getDate() + 1)`). */
  function NextDate(d: CalDate): CalDate
  {
    if d.day < DaysInMonth(d.year, d.month) then d.(day := d.day + 1)
    else if d.month < 11 then CalDate(d.year, d.month + 1, 1)
    else CalDate(d.year + 1, 0, 1)
  }

  /** The previous calendar day (`setDate(getDate() - 1)`). */
  function PrevDate(d: CalDate): CalDate
  {
    if d.day > 1 then d.(day := d.day - 1)
    else if d.month > 0 then CalDate(d.year, d.month - 1, DaysInMonth(d.year, d.month - 1))
    else CalDate(d.year - 1, 11, 31)
  }

  lemma {:induction false} YearLength(y: int)
    ensures DaysBeforeYear(y + 1) - DaysBeforeYear(y) == YearDays(y)
  {
  }

  /** The next day of a real date is a real date, one day number later. */
  lemma {:induction false} NextDateStep(d: CalDate)
    requires ValidDate(d)
    ensures ValidDate(NextDate(d))
    ensures DayNumber(NextDate(d)) == DayNumber(d) + 1
  {
    if d.day < DaysInMonth(d.year, d.month) {
    } else if d.month < 11 {
      MonthLength(d.year, d.month);
    } else {
      YearLength(d.year);
      DecemberEnds(d.year);
    }
  }

  /** Each month but December ends where the next one starts. */
  lemma MonthLength(y: int, m: int)
    requires 0 <= m < 11
    ensures DaysBeforeMonth(y, m + 1) == DaysBeforeMonth(y, m) + DaysInMonth(y, m)
  {
  }

  /** December's 31 days close the year. */
  lemma DecemberEnds(y: int)
    ensures DaysBeforeMonth(y, 11) + 31 == YearDays(y)
  {
  }

  /** Stepping back undoes stepping forward. */
  lemma {:induction false} PrevNext(d: CalDate)
    requires ValidDate(d)
    ensures PrevDate(NextDate(d)) == d
  {
  }

  /** The weekday advances by one, modulo seven, from one day to the next. */
  lemma {:induction false} NextWeekday(d: CalDate)
    requires ValidDate(d)
    ensures DayOfWeek(NextDate(d)) == (DayOfWeek(d) + 1) % 7
  {
    NextDateStep(d);
    WeekdayAfter(d, NextDate(d));
  }

  lemma WeekdayAfter(d: CalDate, e: CalDate)
    requires 0 <= d.month <= 11 && 0 <= e.month <= 11 && DayNumber(e) == DayNumber(d) + 1
    ensures DayOfWeek(e) == (DayOfWeek(d) + 1) % 7
  {
    WeekdayStep(DayNumber(d));
  }

  lemma {:induction false} WeekdayStep(n: int)
    ensures WeekdayOfNumber(n + 1) == (WeekdayOfNumber(n) + 1) % 7
  {
  }

  /** Stepping forward undoes stepping back, and the previous day of a real date is one day earlier. */
  lemma {:induction false} PrevDateStep(d: CalDate)
    requires ValidDate(d)
    ensures ValidDate(PrevDate(d)) && NextDate(PrevDate(d)) == d
    ensures DayNumber(PrevDate(d)) == DayNumber(d) - 1
  {
    NextDateStep(PrevDate(d));
  }

  /**
   * `setDate(getDate() + 1)` on a `Date` object: a real date one day number later, which
   * by `DayNumberInjective` is `NextDate(d)`.
   */
  method StepForward(d: CalDate) returns (e: CalDate)
    requires ValidDate(d)
    ensures ValidDate(e) && DayNumber(e) == DayNumber(d) + 1
  {
    e := NextDate(d);
    NextDateStep(d);
  }

  /** `setDate(getDate() - 1)`: a real date one day number earlier, `PrevDate(d)`. */
  method StepBack(d: CalDate) returns (e: CalDate)
    requires ValidDate(d)
    ensures ValidDate(e) && DayNumber(e) == DayNumber(d) - 1
  {
    e := PrevDate(d);
    PrevDateStep(d);
  }

  /** Later years start later, by at least a common year each. */
  lemma {:induction false} YearsOrdered(a: int, b: int)
    ensures a < b ==> DaysBeforeYear(a + 1) <= DaysBeforeYear(b)
    decreases b - a
  {
    if a + 1 < b {
      YearsOrdered(a, b - 1);
      YearLength(b - 1);
    }
  }

  /** A later month of a year starts no earlier than the end of an earlier one. */
  lemma {:induction false} MonthsOrdered(y: int, m1: int, m2: int)
    requires 0 <= m1 <= 11 && 0 <= m2 <= 11
    ensures m1 < m2 ==> DaysBeforeMonth(y, m1) + DaysInMonth(y, m1) <= DaysBeforeMonth(y, m2)
  {
  }

  /** The day number of a real date falls within its year. */
  lemma {:induction false} DayNumberInYear(d: CalDate)
    requires ValidDate(d)
    ensures DaysBeforeYear(d.year) <= DayNumber(d) < DaysBeforeYear(d.year + 1)
  {
    YearLength(d.year);
    MonthsOrdered(d.year, d.month, 11);
  }

  /** Distinct real dates have distinct day numbers, so day numbers identify dates. */
  lemma {:induction false} DayNumberInjective(a: CalDate, b: CalDate)
    requires ValidDate(a) && ValidDate(b)
    ensures DayNumber(a) == DayNumber(b) ==> a == b
  {
    DayNumberInYear(a);
    DayNumberInYear(b);
    YearsOrdered(a.year, b.year);
    YearsOrdered(b.year, a.year);
    MonthsOrdered(a.year, a.month, b.month);
    MonthsOrdered(a.year, b.month, a.month);
  }
}
