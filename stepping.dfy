/** `create_relativedelta` and `date_step`: moving a serial date by a tenor.
    Month and year offsets follow dateutil's `relativedelta`: move the
    (year, month) pair, then clamp the day to the length of the target month.
    Day offsets move the serial by exactly that many days. */
module Stepping {
  import opened Outcome
  import opened Civil
  import opened ExcelDate
  import opened Tenors

  /** The units `create_relativedelta` accepts. */
  const STEP_UNITS: set<string> := {"M", "B", "Y", "Q", "F"}

  /** A `relativedelta` built from a single keyword argument. */
  datatype RelativeDelta = Days(days: int) | Months(months: int) | Years(years: int) {
    /** The signed number of units the offset moves by. */
    function Size(): int {
      match this
      case Days(k) => k
      case Months(k) => k
      case Years(k) => k
    }
  }

  /** `create_relativedelta(n, unit)`. The "F" unit is provisionally an alias
      of "Q" (three months per unit). */
  function CreateRelativeDelta(n: int, unit: string): (r: Result<RelativeDelta>)
    ensures r.Ok? <==> unit in STEP_UNITS
    ensures r.Err? ==> r.error == UnknownUnit(unit)
    ensures r.Ok? ==> r.value.Size() == if unit == "Q" || unit == "F" then 3 * n else n
  {
    if unit == "M" then Ok(Months(n))
    else if unit == "B" then Ok(Days(n))
    else if unit == "Y" then Ok(Years(n))
    else if unit == "Q" then Ok(Months(3 * n))
    else if unit == "F" then Ok(Months(3 * n))
    else Err(UnknownUnit(unit))
  }

  function Min(a: int, b: int): int {
    if a <= b then a else b
  }

  /** `date + relativedelta(months=k)`: the month index moves by k, the day is
      clamped to the target month, and a year outside 1..9999 fails. */
  function AddMonths(d: Date, k: int): (r: Result<Date>)
    requires ValidDate(d)
    ensures r.Ok? ==> ValidDate(r.value)
    ensures r.Ok? ==> 12 * r.value.year + r.value.month == 12 * d.year + d.month + k
    ensures r.Ok? ==> r.value.day == Min(d.day, DaysInMonth(r.value.year, r.value.month))
    ensures r.Err? ==> r.error == OutOfRange
    ensures r.Err? <==> !(MIN_YEAR <= (12 * d.year + (d.month - 1) + k) / 12 <= MAX_YEAR)
  {
    var t := 12 * d.year + (d.month - 1) + k;
    var y := t / 12;
    var m := t % 12 + 1;
    if y < MIN_YEAR || y > MAX_YEAR then Err(OutOfRange)
    else Ok(Date(y, m, Min(d.day, DaysInMonth(y, m))))
  }

  /** `date + relativedelta(years=k)`: the year moves by k and the day is
      clamped (29 February becomes 28 February in a common year). */
  function AddYears(d: Date, k: int): (r: Result<Date>)
    requires ValidDate(d)
    ensures r.Ok? ==> ValidDate(r.value) && r.value.year == d.year + k && r.value.month == d.month
    ensures r.Err? <==> !(MIN_YEAR <= d.year + k <= MAX_YEAR)
  {
    var y := d.year + k;
    if y < MIN_YEAR || y > MAX_YEAR then Err(OutOfRange)
    else Ok(Date(y, d.month, Min(d.day, DaysInMonth(y, d.month))))
  }

  /** `date + relativedelta(days=k)`: the date k days later. */
  function AddDays(d: Date, k: int): (r: Result<Date>)
    requires ValidDate(d)
    ensures r.Ok? ==> ValidDate(r.value) && Ordinal(r.value) == Ordinal(d) + k
    ensures r.Err? <==> !(1 <= Ordinal(d) + k <= MAX_ORDINAL)
  {
    var o := Ordinal(d) + k;
    if 1 <= o <= MAX_ORDINAL then Ok(FromOrdinal(o)) else Err(OutOfRange)
  }

  /** `date + delta`: a valid date, or a failure because the result falls
      outside the years 1..9999. */
  function AddDelta(d: Date, delta: RelativeDelta): (r: Result<Date>)
    requires ValidDate(d)
    ensures r.Ok? ==> ValidDate(r.value)
    ensures r.Err? ==> r.error == OutOfRange
  {
    match delta
    case Days(k) => AddDays(d, k)
    case Months(k) => AddMonths(d, k)
    case Years(k) => AddYears(d, k)
  }

  /** Adding an offset to a serial date: convert, add, convert back. */
  function ApplyDelta(date: int, delta: RelativeDelta): (r: Result<int>)
    requires InRange(date)
    ensures r.Ok? ==> InRange(r.value)
  {
    match AddDelta(FromExcelDate(date), delta)
    case Err(e) => Err(e)
    case Ok(d) => Ok(ToExcelDate(d))
  }

  /** `date_step(date, tenor, preserve_eom)`. */
  function DateStep(date: int, tenor: Tenor, preserveEom: bool): (r: Result<int>)
    ensures r.Ok? ==> !preserveEom && tenor.unit in STEP_UNITS && InRange(date) && InRange(r.value)
    ensures tenor.unit == "E" ==> r.Err?
  {
    if preserveEom then Err(EomNotSupported)
    else if tenor.unit == "E" then Err(SentinelStep)
    else if !InRange(date) then Err(OutOfRange)
    else match CreateRelativeDelta(tenor.n, tenor.unit)
      case Err(e) => Err(e)
      case Ok(delta) => ApplyDelta(date, delta)
  }

  // ---------------------------------------------------------------------------
  // Properties of stepping

  /** A day offset adds exactly its size to the serial, and fails exactly when
      that leaves the supported years. */
  lemma ApplyDays(date: int, k: int)
    requires InRange(date)
    ensures ApplyDelta(date, Days(k)) == if InRange(date + k) then Ok(date + k) else Err(OutOfRange)
  {
    var d := FromExcelDate(date);
    var r := AddDays(d, k);
    assert r.Ok? ==> ToExcelDate(r.value) == date + k;
  }

  /** A "B" tenor adds exactly its magnitude to the serial. */
  lemma StepByDays(date: int, tenor: Tenor)
    requires tenor.unit == "B" && InRange(date)
    ensures DateStep(date, tenor, false) == if InRange(date + tenor.n) then Ok(date + tenor.n) else Err(OutOfRange)
  {
    assert CreateRelativeDelta(tenor.n, tenor.unit) == Ok(Days(tenor.n));
    ApplyDays(date, tenor.n);
  }

  /** Years are twelve months: `relativedelta(years=k)` and
      `relativedelta(months=12*k)` move every date alike. */
  lemma YearsAreTwelveMonths(d: Date, k: int)
    requires ValidDate(d)
    ensures AddYears(d, k) == AddMonths(d, 12 * k)
  {
    var t := 12 * d.year + (d.month - 1) + 12 * k;
    assert t == 12 * (d.year + k) + (d.month - 1);
    assert t / 12 == d.year + k;
    assert t % 12 + 1 == d.month;
  }

  /** "Q" and "F" tenors step by `relativedelta(months=3*n)`. */
  lemma StepQuarterIsThreeMonths(date: int, tenor: Tenor)
    requires tenor.unit == "Q" || tenor.unit == "F"
    ensures DateStep(date, tenor, false)
            == if InRange(date) then ApplyDelta(date, Months(3 * tenor.n)) else Err(OutOfRange)
  {
    assert CreateRelativeDelta(tenor.n, tenor.unit) == Ok(Months(3 * tenor.n));
  }

  /** A "Y" tenor steps like `relativedelta(months=12*n)`. */
  lemma StepYearIsTwelveMonths(date: int, tenor: Tenor)
    requires tenor.unit == "Y"
    ensures DateStep(date, tenor, false)
            == if InRange(date) then ApplyDelta(date, Months(12 * tenor.n)) else Err(OutOfRange)
  {
    if InRange(date) {
      YearsAreTwelveMonths(FromExcelDate(date), tenor.n);
    }
  }

  /** Moving the month index forward gives a later date, backward an earlier one. */
  lemma AddMonthsDirection(d: Date, k: int)
    requires ValidDate(d) && AddMonths(d, k).Ok?
    ensures k > 0 ==> Before(d, AddMonths(d, k).value)
    ensures k < 0 ==> Before(AddMonths(d, k).value, d)
    ensures k == 0 ==> AddMonths(d, k).value == d
  {
  }

  /** An offset moves a date in the direction of its sign; a zero offset
      leaves it where it is. */
  lemma ApplyDeltaDirection(date: int, delta: RelativeDelta)
    requires InRange(date) && ApplyDelta(date, delta).Ok?
    ensures delta.Size() > 0 ==> ApplyDelta(date, delta).value > date
    ensures delta.Size() < 0 ==> ApplyDelta(date, delta).value < date
    ensures delta.Size() == 0 ==> ApplyDelta(date, delta).value == date
  {
    var d := FromExcelDate(date);
    var e := AddDelta(d, delta).value;
    match delta
    case Days(x) =>
      ApplyDays(date, x);
    case Months(x) =>
      AddMonthsDirection(d, x);
      ToExcelDateIncreasing(d, e);
      ToExcelDateIncreasing(e, d);
    case Years(x) =>
      YearsAreTwelveMonths(d, x);
      AddMonthsDirection(d, 12 * x);
      ToExcelDateIncreasing(d, e);
      ToExcelDateIncreasing(e, d);
  }

  /** A successful step is the tenor's offset applied to the date. */
  lemma StepIsOffset(date: int, tenor: Tenor)
    requires DateStep(date, tenor, false).Ok?
    ensures InRange(date) && CreateRelativeDelta(tenor.n, tenor.unit).Ok?
    ensures DateStep(date, tenor, false) == ApplyDelta(date, CreateRelativeDelta(tenor.n, tenor.unit).value)
  {
  }

  /** A step moves a date in the direction of the tenor's sign; a zero step
      leaves it where it is. */
  lemma StepDirection(date: int, tenor: Tenor)
    requires DateStep(date, tenor, false).Ok?
    ensures tenor.n > 0 ==> DateStep(date, tenor, false).value > date
    ensures tenor.n < 0 ==> DateStep(date, tenor, false).value < date
    ensures tenor.n == 0 ==> DateStep(date, tenor, false).value == date
  {
    StepIsOffset(date, tenor);
    ApplyDeltaDirection(date, CreateRelativeDelta(tenor.n, tenor.unit).value);
  }

  /** No step goes back from the first representable day: every tenor of
      negative magnitude fails on it. */
  lemma NoStepBeforeFirstDay(tenor: Tenor)
    requires tenor.n < 0
    ensures DateStep(MIN_SERIAL, tenor, false).Err?
  {
    if DateStep(MIN_SERIAL, tenor, false).Ok? {
      StepDirection(MIN_SERIAL, tenor);
    }
  }

  /** On a calendar date, a "M" tenor is `relativedelta(months=n)`. */
  lemma StepMonthsOnCalendar(d: Date, tenor: Tenor)
    requires ValidDate(d) && tenor.unit == "M"
    ensures DateStep(ToExcelDate(d), tenor, false)
            == match AddMonths(d, tenor.n) case Ok(e) => Ok(ToExcelDate(e)) case Err(x) => Err(x)
  {
    FromToExcelDate(d);
  }

  /** The month-end clamp on the calendar: 2020-01-31 plus one month is
      2020-02-29, the last day of February in a leap year. */
  lemma JanuaryEndPlusOneMonth()
    ensures AddMonths(Date(2020, 1, 31), 1) == Ok(Date(2020, 2, 29))
  {
    assert (12 * 2020 + 1) / 12 == 2020 && (12 * 2020 + 1) % 12 == 1;
  }

  /** The same clamp through `date_step` on serial dates. */
  lemma MonthEndClamp()
    ensures DateStep(ToExcelDate(Date(2020, 1, 31)), Tenor("1M", 1, "M"), false)
            == Ok(ToExcelDate(Date(2020, 2, 29)))
  {
    JanuaryEndPlusOneMonth();
    StepMonthsOnCalendar(Date(2020, 1, 31), Tenor("1M", 1, "M"));
  }
}
