/** Proleptic-Gregorian calendar arithmetic: the part of Python's `datetime.date`
    that the date kernel relies on. A date is identified with its ordinal, the
    day count in which 0001-01-01 is day 1 (`date.toordinal`). */
module Civil {

  datatype Date = Date(year: int, month: int, day: int)

  const MIN_YEAR := 1
  const MAX_YEAR := 9999
  /** Ordinal of 9999-12-31, the last date Python can represent. */
  const MAX_ORDINAL := 3652059

  predicate IsLeapYear(y: int) {
    y % 4 == 0 && (y % 100 != 0 || y % 400 == 0)
  }

  function DaysInYear(y: int): int {
    if IsLeapYear(y) then 366 else 365
  }

  function DaysInMonth(y: int, m: int): (r: int)
    requires 1 <= m <= 12
    ensures 28 <= r <= 31
    ensures r == 29 <==> m == 2 && IsLeapYear(y)
  {
    if m == 2 then (if IsLeapYear(y) then 29 else 28)
    else if m == 4 || m == 6 || m == 9 || m == 11 then 30
    else 31
  }

  /** Days in the months of year y that precede month m. */
  function DaysBeforeMonth(y: int, m: int): int
    requires 1 <= m <= 12
  {
    [0, 31, 59, 90, 120, 151, 181, 212, 243, 273, 304, 334][m - 1]
    + (if m > 2 && IsLeapYear(y) then 1 else 0)
  }

  /** Days in the years that precede year y, counted from 0001-01-01. */
  function DaysBeforeYear(y: int): int {
    var p := y - 1;
    365 * p + p / 4 - p / 100 + p / 400
  }

  /** A date Python's `datetime.date` accepts. */
  predicate ValidDate(d: Date) {
    MIN_YEAR <= d.year <= MAX_YEAR && 1 <= d.month <= 12 && 1 <= d.day <= DaysInMonth(d.year, d.month)
  }

  type CivilDate = d: Date | ValidDate(d) witness Date(1, 1, 1)

  /** d1 comes strictly before d2 in calendar order. */
  predicate Before(d1: Date, d2: Date) {
    d1.year < d2.year
    || (d1.year == d2.year && (d1.month < d2.month || (d1.month == d2.month && d1.day < d2.day)))
  }

  // ---------------------------------------------------------------------------
  // Lengths of years and months

  lemma YearLength(y: int)
    ensures DaysBeforeYear(y + 1) == DaysBeforeYear(y) + DaysInYear(y)
  {
    NextQuotient(y, 4);
    NextQuotient(y, 100);
    NextQuotient(y, 400);
    CenturyDivisors(y);
    var p := y - 1;
    assert DaysBeforeYear(y + 1) - DaysBeforeYear(y)
           == 365 + (y / 4 - p / 4) - (y / 100 - p / 100) + (y / 400 - p / 400);
  }

  /** A year divisible by 400 is divisible by 100, and one divisible by 100 is
      divisible by 4. */
  lemma CenturyDivisors(y: int)
    ensures y % 400 == 0 ==> y % 100 == 0
    ensures y % 100 == 0 ==> y % 4 == 0
  {
    if y % 400 == 0 {
      var q := y / 400;
      assert y == 100 * (4 * q);
    }
    if y % 100 == 0 {
      var q := y / 100;
      assert y == 4 * (25 * q);
    }
  }

  /** Going from y - 1 to y, the quotient by k grows exactly when k divides y. */
  lemma NextQuotient(y: int, k: int)
    requires k == 4 || k == 100 || k == 400
    ensures y / k == (y - 1) / k + (if y % k == 0 then 1 else 0)
  {
    var q, r := (y - 1) / k, (y - 1) % k;
    assert y == k * q + r + 1;
    if r == k - 1 {
      assert y == k * (q + 1);
    } else {
      assert y == k * q + (r + 1) && 0 <= r + 1 < k;
    }
  }

  lemma {:induction false} DaysBeforeYearIncreasing(a: int, b: int)
    requires a < b
    ensures DaysBeforeYear(a) + 365 * (b - a) <= DaysBeforeYear(b)
    decreases b - a
  {
    YearLength(a);
    if a + 1 < b {
      DaysBeforeYearIncreasing(a + 1, b);
    }
  }

  lemma DaysBeforeYearMonotone(a: int, b: int)
    requires a <= b
    ensures DaysBeforeYear(a) <= DaysBeforeYear(b)
  {
    if a < b {
      DaysBeforeYearIncreasing(a, b);
    }
  }

  lemma MonthLength(y: int, m: int)
    requires 1 <= m <= 12
    ensures DaysBeforeMonth(y, m) + DaysInMonth(y, m)
            == if m == 12 then DaysInYear(y) else DaysBeforeMonth(y, m + 1)
  {
  }

  lemma {:induction false} DaysBeforeMonthIncreasing(y: int, m1: int, m2: int)
    requires 1 <= m1 < m2 <= 12
    ensures DaysBeforeMonth(y, m1) + DaysInMonth(y, m1) <= DaysBeforeMonth(y, m2)
    decreases m2 - m1
  {
    MonthLength(y, m1);
    if m1 + 1 < m2 {
      DaysBeforeMonthIncreasing(y, m1 + 1, m2);
    }
  }

  /** The days of month m of year y all fall within year y. */
  lemma MonthWithinYear(y: int, m: int)
    requires 1 <= m <= 12
    ensures 0 <= DaysBeforeMonth(y, m)
    ensures DaysBeforeMonth(y, m) + DaysInMonth(y, m) <= DaysInYear(y)
  {
    MonthLength(y, 12);
    if m < 12 {
      DaysBeforeMonthIncreasing(y, m, 12);
    }
  }

  // ---------------------------------------------------------------------------
  // Date <-> ordinal

  /** `date.toordinal()`: 0001-01-01 is 1, and each later day one more. */
  function Ordinal(d: Date): (o: int)
    requires ValidDate(d)
    ensures DaysBeforeYear(d.year) < o <= DaysBeforeYear(d.year + 1)
    ensures 1 <= o <= MAX_ORDINAL
  {
    MonthWithinYear(d.year, d.month);
    YearLength(d.year);
    DaysBeforeYearMonotone(d.year + 1, MAX_YEAR + 1);
    DaysBeforeYearMonotone(1, d.year);
    DaysBeforeYear(d.year) + DaysBeforeMonth(d.year, d.month) + d.day
  }

  /** Python's `date.weekday()`: Monday is 0, Sunday is 6. */
  function Weekday(d: Date): (w: int)
    requires ValidDate(d)
    ensures 0 <= w < 7
  {
    OrdinalWeekday(Ordinal(d))
  }

  /** The weekday of the day with ordinal o: ordinal 1 (0001-01-01) is a Monday. */
  function OrdinalWeekday(o: int): (w: int)
    ensures 0 <= w < 7
  {
    (o + 6) % 7
  }

  /** The year whose days include ordinal o, found by a linear search that
      starts at year y and ends before year stop. */
  function YearSearch(o: int, y: int, stop: int): (r: int)
    requires y < stop
    requires DaysBeforeYear(y) < o <= DaysBeforeYear(stop)
    ensures y <= r < stop
    ensures DaysBeforeYear(r) < o <= DaysBeforeYear(r + 1)
    decreases stop - y
  {
    if o <= DaysBeforeYear(y + 1) then y else YearSearch(o, y + 1, stop)
  }

  /** The year of ordinal o, searched from year 1. */
  function YearOf(o: int): (y: int)
    requires 1 <= o <= MAX_ORDINAL
    ensures MIN_YEAR <= y <= MAX_YEAR
    ensures DaysBeforeYear(y) < o <= DaysBeforeYear(y + 1)
  {
    YearSearch(o, MIN_YEAR, MAX_YEAR + 1)
  }

  /** The month of year y that holds day-of-year doy, searched from month m. */
  function MonthSearch(y: int, doy: int, m: int): (r: int)
    requires 1 <= m <= 12
    requires DaysBeforeMonth(y, m) < doy <= DaysInYear(y)
    ensures m <= r <= 12
    ensures DaysBeforeMonth(y, r) < doy <= DaysBeforeMonth(y, r) + DaysInMonth(y, r)
    decreases 12 - m
  {
    MonthLength(y, m);
    if m == 12 || doy <= DaysBeforeMonth(y, m + 1) then m else MonthSearch(y, doy, m + 1)
  }

  /** `date.fromordinal(o)`: the valid date whose ordinal is o. */
  function FromOrdinal(o: int): (d: Date)
    requires 1 <= o <= MAX_ORDINAL
    ensures ValidDate(d) && Ordinal(d) == o
  {
    var y := YearOf(o);
    YearLength(y);
    var doy := o - DaysBeforeYear(y);
    var m := MonthSearch(y, doy, 1);
    Date(y, m, doy - DaysBeforeMonth(y, m))
  }

  // ---------------------------------------------------------------------------
  // Ordinals respect calendar order

  lemma OrdinalIncreasing(d1: Date, d2: Date)
    requires ValidDate(d1) && ValidDate(d2)
    requires Before(d1, d2)
    ensures Ordinal(d1) < Ordinal(d2)
  {
    if d1.year < d2.year {
      if d1.year + 1 < d2.year {
        DaysBeforeYearIncreasing(d1.year + 1, d2.year);
      }
    } else if d1.month < d2.month {
      DaysBeforeMonthIncreasing(d1.year, d1.month, d2.month);
    }
  }

  lemma OrdinalInjective(d1: Date, d2: Date)
    requires ValidDate(d1) && ValidDate(d2)
    requires Ordinal(d1) == Ordinal(d2)
    ensures d1 == d2
  {
    if Before(d1, d2) {
      OrdinalIncreasing(d1, d2);
    } else if Before(d2, d1) {
      OrdinalIncreasing(d2, d1);
    }
  }

  /** Round trip through the ordinal, date first. */
  lemma FromOrdinalOfOrdinal(d: Date)
    requires ValidDate(d)
    ensures FromOrdinal(Ordinal(d)) == d
  {
    OrdinalInjective(FromOrdinal(Ordinal(d)), d);
  }
}
