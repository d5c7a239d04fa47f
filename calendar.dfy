/** Calendar dates with the arithmetic of JavaScript's `Date` setters.
    `setDate(getDate() + n)` moves a date by n days across month and year
    ends; `setMonth(getMonth() + n)` and `setFullYear(getFullYear() + n)` keep
    the day of the month and let a day the target month does not have spill
    over into the following month (31 January plus one month is 3 March in a
    common year). Times of day and time zones are not part of this model. */
module Calendar {

  /** A Gregorian date; `month` runs from 1 to 12. */
  datatype Date = Date(year: int, month: int, day: int)

  predicate IsLeapYear(y: int)
  {
    (y % 4 == 0 && y % 100 != 0) || y % 400 == 0
  }

  function DaysInMonth(y: int, m: int): (n: int)
    requires 1 <= m <= 12
    ensures 28 <= n <= 31
  {
    if m == 2 then (if IsLeapYear(y) then 29 else 28)
    else if m == 4 || m == 6 || m == 9 || m == 11 then 30
    else 31
  }

  predicate Valid(d: Date)
  {
    1 <= d.month <= 12 && 1 <= d.day <= DaysInMonth(d.year, d.month)
  }

  /** `a < b` on the dates' time values. */
  predicate Before(a: Date, b: Date)
  {
    a.year < b.year
    || (a.year == b.year && (a.month < b.month || (a.month == b.month && a.day < b.day)))
  }

  /** Months counted from January of year 0. */
  function MonthIndex(d: Date): int
  {
    d.year * 12 + d.month - 1
  }

  /** The first day of the month with the given index. */
  function FirstOfMonth(k: int): (r: Date)
    ensures Valid(r) && r.day == 1 && MonthIndex(r) == k
  {
    Date(k / 12, k % 12 + 1, 1)
  }

  lemma FirstOfOwnMonth(d: Date)
    requires Valid(d)
    ensures FirstOfMonth(MonthIndex(d)) == Date(d.year, d.month, 1)
  {
    var k := MonthIndex(d);
    assert k == d.year * 12 + (d.month - 1);
    assert k / 12 == d.year && k % 12 == d.month - 1;
  }

  /** A strictly increasing numbering of valid dates, used to order them and
      to bound loops that move a date forward. */
  function Ordinal(d: Date): int
  {
    MonthIndex(d) * 31 + d.day
  }

  lemma BeforeOrdinal(a: Date, b: Date)
    requires Valid(a) && Valid(b)
    ensures Before(a, b) <==> Ordinal(a) < Ordinal(b)
  {
    if a.year < b.year {
      assert MonthIndex(a) + 1 <= MonthIndex(b);
    } else if a.year > b.year {
      assert MonthIndex(b) + 1 <= MonthIndex(a);
    }
  }

  /** `Before` is a strict total order on valid dates. */
  lemma BeforeTotal(a: Date, b: Date)
    requires Valid(a) && Valid(b)
    ensures a == b || Before(a, b) || Before(b, a)
    ensures !(Before(a, b) && Before(b, a))
  {
  }

  lemma BeforeTransitive(a: Date, b: Date, c: Date)
    requires Before(a, b) && Before(b, c)
    ensures Before(a, c)
  {
  }

  /** `date.setDate(date.getDate() + n)`. */
  function AddDays(d: Date, n: nat): (r: Date)
    requires Valid(d)
    ensures Valid(r)
    ensures n == 0 ==> r == d
    ensures n > 0 ==> Before(d, r)
    decreases n
  {
    var dim := DaysInMonth(d.year, d.month);
    if d.day + n <= dim then Date(d.year, d.month, d.day + n)
    else AddDays(FirstOfMonth(MonthIndex(d) + 1), n - (dim - d.day + 1))
  }

  /** `date.setMonth(date.getMonth() + n)`: the same day in the month n
      months later, spilling into the month after when that month is shorter. */
  function AddMonths(d: Date, n: nat): (r: Date)
    requires Valid(d)
    ensures Valid(r)
  {
    AddDays(FirstOfMonth(MonthIndex(d) + n), d.day - 1)
  }

  /** `date.setFullYear(date.getFullYear() + n)`: the same month and day n
      years later, 29 February spilling into 1 March. */
  function AddYears(d: Date, n: nat): (r: Date)
    requires Valid(d)
    ensures Valid(r)
  {
    AddDays(Date(d.year + n, d.month, 1), d.day - 1)
  }

  /** Adding fewer days than the month has left stays in the first day's month. */
  lemma AddDaysWithinMonth(first: Date, k: nat)
    requires Valid(first) && first.day == 1
    requires k < DaysInMonth(first.year, first.month)
    ensures AddDays(first, k) == Date(first.year, first.month, 1 + k)
  {
  }

  /** Past the end of the month, the excess lands in the next month. */
  lemma AddDaysIntoNextMonth(first: Date, k: nat)
    requires Valid(first) && first.day == 1
    requires DaysInMonth(first.year, first.month) <= k <= 30
    ensures var next := FirstOfMonth(MonthIndex(first) + 1);
            AddDays(first, k) == Date(next.year, next.month, 1 + k - DaysInMonth(first.year, first.month))
  {
    var next := FirstOfMonth(MonthIndex(first) + 1);
    var rest := k - DaysInMonth(first.year, first.month);
    assert AddDays(first, k) == AddDays(next, rest);
    AddDaysWithinMonth(next, rest);
  }

  /** What `setMonth` does: the day is kept when the target month has it and
      otherwise spills over by the missing days into the month after. */
  lemma AddMonthsDay(d: Date, n: nat)
    requires Valid(d)
    ensures var target := FirstOfMonth(MonthIndex(d) + n);
            var dim := DaysInMonth(target.year, target.month);
            var r := AddMonths(d, n);
            (d.day <= dim ==> MonthIndex(r) == MonthIndex(d) + n && r.day == d.day)
            && (d.day > dim ==> MonthIndex(r) == MonthIndex(d) + n + 1 && r.day == d.day - dim)
  {
    var target := FirstOfMonth(MonthIndex(d) + n);
    var dim := DaysInMonth(target.year, target.month);
    if d.day <= dim {
      AddDaysWithinMonth(target, d.day - 1);
    } else {
      AddDaysIntoNextMonth(target, d.day - 1);
    }
  }

  /** Adding zero months is the identity, adding any positive number of
      months moves the date strictly forward. */
  lemma AddMonthsAdvances(d: Date, n: nat)
    requires Valid(d)
    ensures n == 0 ==> AddMonths(d, n) == d
    ensures n > 0 ==> Before(d, AddMonths(d, n))
  {
    AddMonthsDay(d, n);
    var r := AddMonths(d, n);
    if n == 0 {
      FirstOfOwnMonth(d);
      AddDaysWithinMonth(Date(d.year, d.month, 1), d.day - 1);
    } else {
      assert MonthIndex(d) < MonthIndex(r);
      BeforeOrdinal(d, r);
    }
  }

  /** Adding n years is adding 12·n months, overflow included. */
  lemma AddYearsIsTwelveMonths(d: Date, n: nat)
    requires Valid(d)
    ensures AddYears(d, n) == AddMonths(d, 12 * n)
  {
    var k := MonthIndex(d) + 12 * n;
    assert k == (d.year + n) * 12 + (d.month - 1);
    assert k / 12 == d.year + n && k % 12 == d.month - 1;
  }

  lemma AddYearsAdvances(d: Date, n: nat)
    requires Valid(d)
    ensures n == 0 ==> AddYears(d, n) == d
    ensures n > 0 ==> Before(d, AddYears(d, n))
  {
    AddYearsIsTwelveMonths(d, n);
    AddMonthsAdvances(d, 12 * n);
  }

  // ---------------------------------------------------------------------
  // Day numbers: the Gregorian count of days, to state how far AddDays moves.

  function DaysBeforeYear(y: int): int
  {
    var p := y - 1;
    365 * p + p / 4 - p / 100 + p / 400
  }

  function DaysBeforeMonth(y: int, m: int): int
    requires 1 <= m <= 12
  {
    [0, 31, 59, 90, 120, 151, 181, 212, 243, 273, 304, 334][m - 1]
    + (if m > 2 && IsLeapYear(y) then 1 else 0)
  }

  function DayNumber(d: Date): int
    requires 1 <= d.month <= 12
  {
    DaysBeforeYear(d.year) + DaysBeforeMonth(d.year, d.month) + d.day
  }

  lemma StepDivision4(x: int)
    ensures (x + 1) / 4 == x / 4 + (if (x + 1) % 4 == 0 then 1 else 0)
  {
  }

  lemma StepDivision100(x: int)
    ensures (x + 1) / 100 == x / 100 + (if (x + 1) % 100 == 0 then 1 else 0)
  {
  }

  lemma StepDivision400(x: int)
    ensures (x + 1) / 400 == x / 400 + (if (x + 1) % 400 == 0 then 1 else 0)
  {
  }

  lemma DaysInYear(y: int)
    ensures DaysBeforeYear(y + 1) == DaysBeforeYear(y) + (if IsLeapYear(y) then 366 else 365)
  {
    var p := y - 1;
    StepDivision4(p);
    StepDivision100(p);
    StepDivision400(p);
    assert (p + 1) % 4 == y % 4 && (p + 1) % 100 == y % 100 && (p + 1) % 400 == y % 400;
    if y % 400 == 0 {
      assert y % 100 == 0 && y % 4 == 0 by {
        assert y == 400 * (y / 400);
        assert y == 100 * (4 * (y / 400));
        assert y == 4 * (100 * (y / 400));
      }
    } else if y % 100 == 0 {
      assert y % 4 == 0 by {
        assert y == 100 * (y / 100);
        assert y == 4 * (25 * (y / 100));
      }
    }
  }

  /** The first of the next month lies as many days on as this month has. */
  lemma NextMonthDayNumber(d: Date)
    requires Valid(d)
    ensures DayNumber(FirstOfMonth(MonthIndex(d) + 1))
            == DayNumber(d) - d.day + 1 + DaysInMonth(d.year, d.month)
  {
    var next := FirstOfMonth(MonthIndex(d) + 1);
    if d.month == 12 {
      assert MonthIndex(d) + 1 == (d.year + 1) * 12;
      assert next == Date(d.year + 1, 1, 1);
      DaysInYear(d.year);
    } else {
      assert MonthIndex(d) + 1 == d.year * 12 + d.month;
      assert next == Date(d.year, d.month + 1, 1);
    }
  }

  /** `AddDays` moves a date by exactly n days. */
  lemma {:induction false} AddDaysDayNumber(d: Date, n: nat)
    requires Valid(d)
    ensures DayNumber(AddDays(d, n)) == DayNumber(d) + n
    decreases n
  {
    var dim := DaysInMonth(d.year, d.month);
    if d.day + n <= dim {
      assert AddDays(d, n) == Date(d.year, d.month, d.day + n);
    } else {
      var next := FirstOfMonth(MonthIndex(d) + 1);
      var rest := n - (dim - d.day + 1);
      assert AddDays(d, n) == AddDays(next, rest);
      NextMonthDayNumber(d);
      AddDaysDayNumber(next, rest);
    }
  }
}
