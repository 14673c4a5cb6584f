/** `WeekendCalendar`, `RollType` and `date_roll`: holidays and the
    business-day roll conventions. */
module Calendars {
  import opened Outcome
  import opened Civil
  import opened ExcelDate

  /** The holiday calendars of the kernel. Only the weekend calendar is
      concrete; the abstract `CalendarBase` is not modelled. */
  datatype Calendar = WeekendCalendar

  /** `RollType`; `NoRoll` is `RollType.NONE`. */
  datatype RollType = NoRoll | Following | Preceding | ModifiedFollowing | ModifiedPreceding

  /** `WeekendCalendar.is_holiday`: the weekday of the serial is Saturday (5)
      or Sunday (6), that is, the serial is 0 or 1 modulo 7 (serial 0 is a
      Saturday). The serial must be one `fromexceldate` can convert. */
  predicate IsHoliday(cal: Calendar, date: int): (holiday: bool)
    requires InRange(date)
    ensures holiday <==> date % 7 == 0 || date % 7 == 1
  {
    WeekendResidue(date % 7);
    match cal
    case WeekendCalendar => SerialWeekday(date) >= 5
  }

  /** `is_holiday` converts the serial to a calendar date and tests its
      weekday; that is exactly the test above. */
  lemma HolidayIsWeekend(cal: Calendar, date: int)
    requires InRange(date)
    ensures IsHoliday(cal, date) <==> Weekday(FromExcelDate(date)) >= 5
  {
    SerialWeekdayIsWeekday(date);
  }

  /** Saturday and Sunday are the residues 0 and 1 of the serial modulo 7. */
  lemma WeekendResidue(r: int)
    requires 0 <= r < 7
    ensures (r + 5) % 7 >= 5 <==> r < 2
  {
    assert (r + 5) % 7 == if r < 2 then r + 5 else r - 2;
  }

  /** The weekend calendar repeats every seven days. */
  lemma WeekendPeriodic(date: int)
    requires InRange(date) && InRange(date + 7)
    ensures IsHoliday(WeekendCalendar, date + 7) == IsHoliday(WeekendCalendar, date)
  {
  }

  /** The first and last representable days (a Monday and a Friday) are
      business days, so rolling never leaves the representable range. */
  lemma EndsAreBusinessDays(cal: Calendar, date: int)
    requires InRange(date)
    ensures IsHoliday(cal, date) ==> MIN_SERIAL < date < MAX_SERIAL
  {
  }

  /** The first business day on or after date. */
  function NextBusinessDay(cal: Calendar, date: int): (r: int)
    requires InRange(date)
    ensures date <= r && InRange(r) && !IsHoliday(cal, r)
    ensures forall k :: date <= k < r ==> IsHoliday(cal, k)
    decreases MAX_SERIAL - date
  {
    EndsAreBusinessDays(cal, date);
    if IsHoliday(cal, date) then NextBusinessDay(cal, date + 1) else date
  }

  /** The last business day on or before date. */
  function PreviousBusinessDay(cal: Calendar, date: int): (r: int)
    requires InRange(date)
    ensures r <= date && InRange(r) && !IsHoliday(cal, r)
    ensures forall k :: r < k <= date ==> IsHoliday(cal, k)
    decreases date - MIN_SERIAL
  {
    EndsAreBusinessDays(cal, date);
    if IsHoliday(cal, date) then PreviousBusinessDay(cal, date - 1) else date
  }

  /** What `date_roll` computes: FOLLOWING gives the first business day on or
      after the date, PRECEDING the last one on or before it, and every other
      roll type fails. A date `is_holiday` cannot convert fails as well. */
  function Roll(date: int, rollType: RollType, cal: Calendar): (r: Result<int>)
    ensures r.Ok? <==> (rollType == Following || rollType == Preceding) && InRange(date)
    ensures r.Ok? ==> InRange(r.value) && !IsHoliday(cal, r.value)
    ensures r.Ok? && rollType == Following ==>
      date <= r.value && forall k :: date <= k < r.value ==> IsHoliday(cal, k)
    ensures r.Ok? && rollType == Preceding ==>
      r.value <= date && forall k :: r.value < k <= date ==> IsHoliday(cal, k)
  {
    match rollType
    case Following => if InRange(date) then Ok(NextBusinessDay(cal, date)) else Err(OutOfRange)
    case Preceding => if InRange(date) then Ok(PreviousBusinessDay(cal, date)) else Err(OutOfRange)
    case _ => Err(RollNotImplemented)
  }

  /** `date_roll(date, roll_type, calendar)`: step one day at a time while the
      date is a holiday. */
  method DateRoll(date: int, rollType: RollType, cal: Calendar) returns (r: Result<int>)
    ensures r == Roll(date, rollType, cal)
  {
    if rollType == Following {
      if !InRange(date) {
        return Err(OutOfRange);
      }
      var d := date;
      while IsHoliday(cal, d)
        invariant InRange(d)
        invariant NextBusinessDay(cal, d) == NextBusinessDay(cal, date)
        decreases MAX_SERIAL - d
      {
        EndsAreBusinessDays(cal, d);
        d := d + 1;
      }
      return Ok(d);
    } else if rollType == Preceding {
      if !InRange(date) {
        return Err(OutOfRange);
      }
      var d := date;
      while IsHoliday(cal, d)
        invariant InRange(d)
        invariant PreviousBusinessDay(cal, d) == PreviousBusinessDay(cal, date)
        decreases d - MIN_SERIAL
      {
        EndsAreBusinessDays(cal, d);
        d := d - 1;
      }
      return Ok(d);
    } else {
      return Err(RollNotImplemented);
    }
  }

  /** A business day rolls to itself, so rolling twice is rolling once. */
  lemma RollIdempotent(date: int, rollType: RollType, cal: Calendar)
    requires Roll(date, rollType, cal).Ok?
    ensures Roll(Roll(date, rollType, cal).value, rollType, cal) == Roll(date, rollType, cal)
  {
  }

  /** On the weekend calendar FOLLOWING moves a Saturday two days and a Sunday
      one day, and leaves a weekday where it is. */
  lemma WeekendFollowing(date: int)
    requires InRange(date)
    ensures Roll(date, Following, WeekendCalendar)
            == Ok(date + (if date % 7 == 0 then 2 else if date % 7 == 1 then 1 else 0))
  {
    var cal := WeekendCalendar;
    if date % 7 == 0 {
      assert !IsHoliday(cal, date + 2) && NextBusinessDay(cal, date + 2) == date + 2;
      assert NextBusinessDay(cal, date + 1) == NextBusinessDay(cal, date + 2);
    } else if date % 7 == 1 {
      assert !IsHoliday(cal, date + 1) && NextBusinessDay(cal, date + 1) == date + 1;
    }
  }

  /** PRECEDING moves a Saturday one day back and a Sunday two, and leaves a
      weekday where it is. */
  lemma WeekendPreceding(date: int)
    requires InRange(date)
    ensures Roll(date, Preceding, WeekendCalendar)
            == Ok(date - (if date % 7 == 0 then 1 else if date % 7 == 1 then 2 else 0))
  {
    var cal := WeekendCalendar;
    if date % 7 == 0 {
      assert !IsHoliday(cal, date - 1) && PreviousBusinessDay(cal, date - 1) == date - 1;
    } else if date % 7 == 1 {
      assert !IsHoliday(cal, date - 2) && PreviousBusinessDay(cal, date - 2) == date - 2;
      assert PreviousBusinessDay(cal, date - 1) == PreviousBusinessDay(cal, date - 2);
    }
  }

  /** Saturday 2021-03-06 rolls FOLLOWING to Monday 2021-03-08. */
  lemma SaturdayRollsToMonday()
    ensures Roll(ToExcelDate(Date(2021, 3, 6)), Following, WeekendCalendar)
            == Ok(ToExcelDate(Date(2021, 3, 8)))
  {
    assert ToExcelDate(Date(2021, 3, 6)) == 44261;
    WeekendFollowing(44261);
  }
}
