/** The proleptic Gregorian calendar of Python's `datetime.date`, as far as the
    billing job uses it: `replace(day=1)` and subtraction of a one-day `timedelta`.
    Dates run from 0001-01-01 to 9999-12-31; `Ordinal` is the day number that
    `date.toordinal()` gives (0001-01-01 is day 1), and subtracting a `timedelta`
    is defined by Python as moving to the date whose ordinal is shifted by that
    many days. */
module Calendar {

  const MinYear := 1
  const MaxYear := 9999

  datatype Option<T> = None | Some(value: T)

  datatype Date = Date(year: int, month: int, day: int)

  /** Gregorian leap year: divisible by 4, except centuries not divisible by 400. */
  predicate IsLeapYear(y: int) {
    y % 4 == 0 && (y % 100 != 0 || y % 400 == 0)
  }

  /** Days in each month of a common year (index 0 unused). */
  const DaysInMonthTable: seq<int> := [0, 31, 28, 31, 30, 31, 30, 31, 31, 30, 31, 30, 31]

  /** Days before the first of each month in a common year (index 0 unused). */
  const DaysBeforeMonthTable: seq<int> := [0, 0, 31, 59, 90, 120, 151, 181, 212, 243, 273, 304, 334]

  function DaysInMonth(y: int, m: int): int
    requires 1 <= m <= 12
  {
    if m == 2 && IsLeapYear(y) then 29 else DaysInMonthTable[m]
  }

  function DaysInYear(y: int): int {
    if IsLeapYear(y) then 366 else 365
  }

  /** Days in year `y` before the first day of month `m`. */
  function DaysBeforeMonth(y: int, m: int): int
    requires 1 <= m <= 12
  {
    DaysBeforeMonthTable[m] + (if m > 2 && IsLeapYear(y) then 1 else 0)
  }

  /** Days before January 1st of year `y`, counted from 0001-01-01. */
  function DaysBeforeYear(y: int): int
    requires y >= 1
  {
    var p := y - 1;
    p * 365 + p / 4 - p / 100 + p / 400
  }

  predicate Valid(d: Date) {
    && MinYear <= d.year <= MaxYear
    && 1 <= d.month <= 12
    && 1 <= d.day <= DaysInMonth(d.year, d.month)
  }

  /** The day number of `d`, as `date.toordinal()`. */
  function Ordinal(d: Date): int
    requires Valid(d)
  {
    DaysBeforeYear(d.year) + DaysBeforeMonth(d.year, d.month) + d.day
  }

  /** Calendar order of dates: by year, then month, then day. */
  predicate Before(a: Date, b: Date) {
    || a.year < b.year
    || (a.year == b.year && a.month < b.month)
    || (a.year == b.year && a.month == b.month && a.day < b.day)
  }

  /** `d.replace(day=1)`: the first day of d's month. Day 1 exists in every month,
      so unlike a general `replace` this never raises. */
  function FirstOfMonth(d: Date): (r: Date)
    requires Valid(d)
    ensures Valid(r) && r.day == 1
    ensures r.year == d.year && r.month == d.month
    ensures !Before(d, r)
  {
    d.(day := 1)
  }

  /** `d - timedelta(days=1)`: the previous calendar day. Stepping back from the
      first of a month lands on the last day of the previous month (January goes
      to December 31st of the year before); stepping back from 0001-01-01 leaves
      the representable range, where Python raises OverflowError (`None`). */
  function SubtractDay(d: Date): (r: Option<Date>)
    requires Valid(d)
    ensures r.None? <==> d == Date(MinYear, 1, 1)
  {
    if d.day > 1 then Some(d.(day := d.day - 1))
    else if d.month > 1 then Some(Date(d.year, d.month - 1, DaysInMonth(d.year, d.month - 1)))
    else if d.year > MinYear then Some(Date(d.year - 1, 12, 31))
    else None
  }

  // ---------------------------------------------------------------------------
  // The two month tables agree with each other and with the length of a year.

  lemma DaysBeforeMonthStep(y: int, m: int)
    requires 1 <= m < 12
    ensures DaysBeforeMonth(y, m + 1) == DaysBeforeMonth(y, m) + DaysInMonth(y, m)
  {
  }

  lemma DaysOfYearSum(y: int)
    ensures DaysBeforeMonth(y, 12) + DaysInMonth(y, 12) == DaysInYear(y)
  {
  }

  /** Every month ends no later than the year does. */
  lemma {:induction false} MonthEndWithinYear(y: int, m: int)
    requires 1 <= m <= 12
    ensures DaysBeforeMonth(y, m) + DaysInMonth(y, m) <= DaysInYear(y)
    decreases 12 - m
  {
    if m < 12 {
      DaysBeforeMonthStep(y, m);
      MonthEndWithinYear(y, m + 1);
    } else {
      DaysOfYearSum(y);
    }
  }

  /** An earlier month of the same year ends no later than a later one starts. */
  lemma {:induction false} MonthsOrdered(y: int, m1: int, m2: int)
    requires 1 <= m1 < m2 <= 12
    ensures DaysBeforeMonth(y, m1) + DaysInMonth(y, m1) <= DaysBeforeMonth(y, m2)
    decreases m2 - m1
  {
    DaysBeforeMonthStep(y, m1);
    if m1 + 1 < m2 {
      MonthsOrdered(y, m1 + 1, m2);
      DaysBeforeMonthStep(y, m1 + 1);
    }
  }

  // ---------------------------------------------------------------------------
  // The closed form for the days before a year counts exactly the leap years.

  /** Stepping `y - 1` to `y` adds one to `y / k` exactly when `k` divides `y`. */
  lemma DivStep4(y: int)
    ensures y / 4 - (y - 1) / 4 == if y % 4 == 0 then 1 else 0
  {
    var q, r := y / 4, y % 4;
    if r == 0 {
      assert y - 1 == 4 * (q - 1) + 3;
    } else {
      assert y - 1 == 4 * q + (r - 1);
    }
  }

  lemma DivStep100(y: int)
    ensures y / 100 - (y - 1) / 100 == if y % 100 == 0 then 1 else 0
  {
    var q, r := y / 100, y % 100;
    if r == 0 {
      assert y - 1 == 100 * (q - 1) + 99;
    } else {
      assert y - 1 == 100 * q + (r - 1);
    }
  }

  lemma DivStep400(y: int)
    ensures y / 400 - (y - 1) / 400 == if y % 400 == 0 then 1 else 0
  {
    var q, r := y / 400, y % 400;
    if r == 0 {
      assert y - 1 == 400 * (q - 1) + 399;
    } else {
      assert y - 1 == 400 * q + (r - 1);
    }
  }

  lemma CenturyIsDivisibleBy4(y: int)
    ensures y % 100 == 0 ==> y % 4 == 0
  {
    if y % 100 == 0 {
      var q := y / 100;
      assert y == 4 * (25 * q);
    }
  }

  lemma QuadCenturyIsCentury(y: int)
    ensures y % 400 == 0 ==> y % 100 == 0
  {
    if y % 400 == 0 {
      var q := y / 400;
      assert y == 100 * (4 * q);
    }
  }

  /** January 1st of `y + 1` comes exactly one year-length after January 1st of `y`. */
  lemma DaysBeforeYearStep(y: int)
    requires y >= 1
    ensures DaysBeforeYear(y + 1) == DaysBeforeYear(y) + DaysInYear(y)
  {
    DivStep4(y);
    DivStep100(y);
    DivStep400(y);
    CenturyIsDivisibleBy4(y);
    QuadCenturyIsCentury(y);
  }

  /** A year ends no later than any later year starts. */
  lemma {:induction false} YearsOrdered(y1: int, y2: int)
    requires 1 <= y1 < y2
    ensures DaysBeforeYear(y1) + DaysInYear(y1) <= DaysBeforeYear(y2)
    decreases y2 - y1
  {
    DaysBeforeYearStep(y1);
    if y1 + 1 < y2 {
      YearsOrdered(y1 + 1, y2);
      assert DaysInYear(y1 + 1) > 0;
    }
  }

  // ---------------------------------------------------------------------------
  // Ordinals order dates as the calendar does.

  /** `toordinal` is strictly increasing in calendar order, so distinct valid
      dates have distinct ordinals. */
  lemma OrdinalMonotone(a: Date, b: Date)
    requires Valid(a) && Valid(b) && Before(a, b)
    ensures Ordinal(a) < Ordinal(b)
  {
    if a.year < b.year {
      MonthEndWithinYear(a.year, a.month);
      YearsOrdered(a.year, b.year);
    } else if a.month < b.month {
      MonthsOrdered(a.year, a.month, b.month);
    }
  }

  lemma OrdinalInjective(a: Date, b: Date)
    requires Valid(a) && Valid(b) && Ordinal(a) == Ordinal(b)
    ensures a == b
  {
    if Before(a, b) {
      OrdinalMonotone(a, b);
    } else if Before(b, a) {
      OrdinalMonotone(b, a);
    }
  }

  /** Only 0001-01-01 has day number 1. */
  lemma OrdinalOne(d: Date)
    requires Valid(d)
    ensures Ordinal(d) == 1 <==> d == Date(MinYear, 1, 1)
  {
    if d != Date(MinYear, 1, 1) {
      if d.day == 1 && d.month == 1 {
        YearsOrdered(MinYear, d.year);
      } else {
        assert Before(Date(MinYear, 1, 1), d);
        OrdinalMonotone(Date(MinYear, 1, 1), d);
      }
    }
  }

  /** The previous calendar day is a valid date one day number earlier. */
  lemma SubtractDayOrdinal(d: Date)
    requires Valid(d) && d != Date(MinYear, 1, 1)
    ensures Valid(SubtractDay(d).value)
    ensures Ordinal(SubtractDay(d).value) == Ordinal(d) - 1
  {
    if d.day == 1 && d.month > 1 {
      DaysBeforeMonthStep(d.year, d.month - 1);
    } else if d.day == 1 {
      DaysBeforeYearStep(d.year - 1);
      DaysOfYearSum(d.year - 1);
    }
  }

  /** No other valid date has the day number of the previous calendar day. */
  lemma SubtractDayUnique(d: Date, x: Date)
    requires Valid(d) && d != Date(MinYear, 1, 1)
    requires Valid(x) && Ordinal(x) == Ordinal(d) - 1
    ensures x == SubtractDay(d).value
  {
    SubtractDayOrdinal(d);
    OrdinalInjective(x, SubtractDay(d).value);
  }

  /** `SubtractDay` is Python's one-day `timedelta` subtraction: away from
      0001-01-01 (day number 1, see `OrdinalOne`) it yields a valid date exactly
      one day number earlier, and that date is the only one. */
  lemma SubtractDayIsOrdinalPredecessor(d: Date)
    requires Valid(d) && d != Date(MinYear, 1, 1)
    ensures Valid(SubtractDay(d).value)
    ensures Ordinal(SubtractDay(d).value) == Ordinal(d) - 1
    ensures forall x :: Valid(x) && Ordinal(x) == Ordinal(d) - 1 ==> x == SubtractDay(d).value
  {
    SubtractDayOrdinal(d);
    forall x | Valid(x) && Ordinal(x) == Ordinal(d) - 1
      ensures x == SubtractDay(d).value
    {
      SubtractDayUnique(d, x);
    }
  }
}
