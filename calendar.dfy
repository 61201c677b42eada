/**
 * A small model of proleptic Gregorian calendar dates, the part of the
 * JavaScript `Date` and of date-fns (`differenceInCalendarDays`, `addDays`)
 * that the duty rotation relies on. A date is a local calendar day with no
 * time of day; the month is numbered 0..11, as `Date.getMonth` numbers it.
 */
module CivilCalendar {

  datatype Date = Date(year: int, month: int, day: int)

  predicate IsLeapYear(y: int) {
    y % 4 == 0 && (y % 100 != 0 || y % 400 == 0)
  }

  function DaysInYear(y: int): (n: int)
    ensures n == 365 || n == 366
    ensures n == 366 <==> IsLeapYear(y)
  {
    if IsLeapYear(y) then 366 else 365
  }

  function DaysInMonth(y: int, m: int): (n: int)
    requires 0 <= m < 12
    ensures 28 <= n <= 31
    ensures m == 1 ==> (n == 29 <==> IsLeapYear(y))
  {
    if m == 1 then (if IsLeapYear(y) then 29 else 28)
    else if m == 3 || m == 5 || m == 8 || m == 10 then 30
    else 31
  }

  /** A date that a JavaScript `Date` can denote: a real month and day. */
  predicate Valid(d: Date) {
    0 <= d.month < 12 && 1 <= d.day <= DaysInMonth(d.year, d.month)
  }

  /** Days of year `y` that lie before the first day of month `m`. */
  function DaysBeforeMonth(y: int, m: int): (n: int)
    requires 0 <= m < 12
    ensures 0 <= n <= 335
  {
    var common := [0, 31, 59, 90, 120, 151, 181, 212, 243, 273, 304, 334][m];
    common + (if m >= 2 && IsLeapYear(y) then 1 else 0)
  }

  /** Leap years strictly before year `y`, counted from year 0 (floor division). */
  function LeapYearsBefore(y: int): int {
    (y - 1) / 4 - (y - 1) / 100 + (y - 1) / 400 + 1
  }

  /** Days from 1 January of year 0 to 1 January of year `y`. */
  function DaysBeforeYear(y: int): int {
    365 * y + LeapYearsBefore(y)
  }

  /** The serial number of a calendar day: consecutive days get consecutive numbers. */
  function DayNumber(d: Date): int
    requires Valid(d)
  {
    DaysBeforeYear(d.year) + DaysBeforeMonth(d.year, d.month) + d.day - 1
  }

  /** `differenceInCalendarDays(a, b)`: whole calendar days from `b` to `a`. */
  function DifferenceInCalendarDays(a: Date, b: Date): int
    requires Valid(a) && Valid(b)
  {
    DayNumber(a) - DayNumber(b)
  }

  /** `addDays(d, 1)`: the following calendar day, rolling over month and year. */
  function NextDay(d: Date): (r: Date)
    requires Valid(d)
    ensures Valid(r)
    ensures r.year == d.year || (r.year == d.year + 1 && d.month == 11 && d.day == 31 && r.month == 0 && r.day == 1)
  {
    if d.day < DaysInMonth(d.year, d.month) then Date(d.year, d.month, d.day + 1)
    else if d.month < 11 then Date(d.year, d.month + 1, 1)
    else Date(d.year + 1, 0, 1)
  }

  /** `addDays(d, n)` for a non-negative `n`. */
  function AddDays(d: Date, n: nat): (r: Date)
    requires Valid(d)
    ensures Valid(r)
    decreases n
  {
    if n == 0 then d else AddDays(NextDay(d), n - 1)
  }

  /** Floor division by 4, 100 or 400 steps by one exactly at multiples. */
  lemma DivStep(y: int, k: int)
    requires k == 4 || k == 100 || k == 400
    ensures y / k - (y - 1) / k == (if y % k == 0 then 1 else 0)
  {
    if k == 4 {
      assert y == 4 * (y / 4) + y % 4;
    } else if k == 100 {
      assert y == 100 * (y / 100) + y % 100;
    } else {
      assert y == 400 * (y / 400) + y % 400;
    }
  }

  /** A multiple of 400 is a multiple of 100, and a multiple of 100 one of 4. */
  lemma MultipleChain(y: int)
    ensures y % 400 == 0 ==> y % 100 == 0
    ensures y % 100 == 0 ==> y % 4 == 0
  {
    if y % 400 == 0 {
      MultipleOf(y, 400, 100);
    }
    if y % 100 == 0 {
      MultipleOf(y, 100, 4);
    }
  }

  lemma MultipleOf(y: int, big: int, small: int)
    requires (big == 400 && small == 100) || (big == 100 && small == 4)
    requires y % big == 0
    ensures y % small == 0
  {
    var q := y / big;
    assert y == big * q;
    var k := big / small;
    assert big == small * k;
    assert y == small * (k * q);
  }

  lemma YearLength(y: int)
    ensures DaysBeforeYear(y + 1) == DaysBeforeYear(y) + DaysInYear(y)
  {
    DivStep(y, 4);
    DivStep(y, 100);
    DivStep(y, 400);
    MultipleChain(y);
    var a, b, c := y / 4 - (y - 1) / 4, y / 100 - (y - 1) / 100, y / 400 - (y - 1) / 400;
    assert LeapYearsBefore(y + 1) - LeapYearsBefore(y) == a - b + c;
    assert a - b + c == (if IsLeapYear(y) then 1 else 0);
  }

  /** The day after `d` has the next day number: `addDays` and
      `differenceInCalendarDays` agree. */
  lemma NextDayNumber(d: Date)
    requires Valid(d)
    ensures DayNumber(NextDay(d)) == DayNumber(d) + 1
    ensures DifferenceInCalendarDays(NextDay(d), d) == 1
  {
    if d.day == DaysInMonth(d.year, d.month) && d.month == 11 {
      YearLength(d.year);
    }
  }

  lemma {:induction false} AddDaysNumber(d: Date, n: nat)
    requires Valid(d)
    ensures DayNumber(AddDays(d, n)) == DayNumber(d) + n
    decreases n
  {
    if n > 0 {
      var e := NextDay(d);
      assert AddDays(d, n) == AddDays(e, n - 1);
      NextDayNumber(d);
      AddDaysNumber(e, n - 1);
    }
  }

  /** Day numbers order dates lexicographically, so distinct dates never share one. */
  lemma {:induction false} DayNumberOrdered(a: Date, b: Date)
    requires Valid(a) && Valid(b)
    requires a.year < b.year || (a.year == b.year && (a.month < b.month || (a.month == b.month && a.day < b.day)))
    ensures DayNumber(a) < DayNumber(b)
  {
    if a.year < b.year {
      YearAtLeast(a.year, b.year);
      YearLength(a.year);
      assert DayNumber(a) < DaysBeforeYear(a.year) + DaysInYear(a.year);
    } else if a.month < b.month {
      MonthAtLeast(a.year, a.month, b.month);
    }
  }

  lemma {:induction false} YearAtLeast(y: int, z: int)
    requires y < z
    ensures DaysBeforeYear(y + 1) <= DaysBeforeYear(z)
    decreases z - y
  {
    if y + 1 < z {
      YearAtLeast(y + 1, z);
      YearLength(y + 1);
    }
  }

  lemma MonthAtLeast(y: int, m: int, n: int)
    requires 0 <= m < n < 12
    ensures DaysBeforeMonth(y, m) + DaysInMonth(y, m) <= DaysBeforeMonth(y, n)
  {
  }

  lemma DayNumberInjective(a: Date, b: Date)
    requires Valid(a) && Valid(b)
    ensures DayNumber(a) == DayNumber(b) <==> a == b
  {
    if a.year < b.year || (a.year == b.year && (a.month < b.month || (a.month == b.month && a.day < b.day))) {
      DayNumberOrdered(a, b);
    } else if a != b {
      DayNumberOrdered(b, a);
    }
  }

  /** 31 December rolls over to 1 January of the next year. */
  lemma YearRollover(y: int)
    ensures NextDay(Date(y, 11, 31)) == Date(y + 1, 0, 1)
    ensures DifferenceInCalendarDays(Date(y + 1, 0, 1), Date(y, 11, 31)) == 1
  {
    NextDayNumber(Date(y, 11, 31));
  }
}
