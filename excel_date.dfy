/** The serial-date codec: `toexceldate` and `fromexceldate`. A serial date is
    the number of days since 1899-12-30 (the spreadsheet epoch), so serial 0 is
    1899-12-30 and serial 1 is 1899-12-31. Only the serials of the years
    1..9999 exist, because Python's `date` can represent no others. */
module ExcelDate {
  import opened Civil

  const EXCEL_BASE_DATE := Date(1899, 12, 30)
  /** Ordinal of the epoch 1899-12-30 (see EpochOrdinal). */
  const EXCEL_BASE_ORDINAL := 693594
  /** Serial of 0001-01-01. */
  const MIN_SERIAL := -693593
  /** Serial of 9999-12-31. */
  const MAX_SERIAL := 2958465

  predicate InRange(n: int) {
    MIN_SERIAL <= n <= MAX_SERIAL
  }

  /** `toexceldate(d)`: the days from the epoch to d. */
  function ToExcelDate(d: Date): (n: int)
    requires ValidDate(d)
    ensures InRange(n)
  {
    Ordinal(d) - EXCEL_BASE_ORDINAL
  }

  /** `fromexceldate(n)`: the epoch advanced by n days. */
  function FromExcelDate(n: int): (d: Date)
    requires InRange(n)
    ensures ValidDate(d) && ToExcelDate(d) == n
  {
    FromOrdinal(EXCEL_BASE_ORDINAL + n)
  }

  /** Round trip, calendar date first. */
  lemma FromToExcelDate(d: Date)
    requires ValidDate(d)
    ensures FromExcelDate(ToExcelDate(d)) == d
  {
    OrdinalInjective(FromExcelDate(ToExcelDate(d)), d);
  }

  /** The serial range starts at 0001-01-01 ... */
  lemma FirstSerial()
    ensures ToExcelDate(Date(MIN_YEAR, 1, 1)) == MIN_SERIAL
  {
  }

  /** ... and ends at 9999-12-31. */
  lemma LastSerial()
    ensures ToExcelDate(Date(MAX_YEAR, 12, 31)) == MAX_SERIAL
  {
  }

  /** Serial 0 is 1899-12-30, a Saturday. */
  lemma EpochIsSaturday()
    ensures ToExcelDate(EXCEL_BASE_DATE) == 0
    ensures Weekday(EXCEL_BASE_DATE) == 5
  {
  }

  /** `toexceldate(d)` is `(d - excelBaseDate).days`: the epoch's ordinal is
      the constant the codec subtracts. */
  lemma EpochOrdinal()
    ensures ValidDate(EXCEL_BASE_DATE) && Ordinal(EXCEL_BASE_DATE) == EXCEL_BASE_ORDINAL
    ensures forall d :: ValidDate(d) ==> ToExcelDate(d) == Ordinal(d) - Ordinal(EXCEL_BASE_DATE)
  {
  }

  /** Later calendar dates have larger serials, and the converse. */
  lemma ToExcelDateIncreasing(d1: Date, d2: Date)
    requires ValidDate(d1) && ValidDate(d2)
    ensures Before(d1, d2) <==> ToExcelDate(d1) < ToExcelDate(d2)
  {
    if Before(d1, d2) {
      OrdinalIncreasing(d1, d2);
    } else if Before(d2, d1) {
      OrdinalIncreasing(d2, d1);
    } else {
      assert d1 == d2;
    }
  }

  /** The weekday (Monday 0 ... Sunday 6) of serial n, read off the serial
      itself: serial 0 is a Saturday and weekdays repeat every seven serials. */
  function SerialWeekday(n: int): (w: int)
    ensures 0 <= w < 7
  {
    (n % 7 + 5) % 7
  }

  /** The weekday read off the serial is the weekday of `fromexceldate(n)`. */
  lemma SerialWeekdayIsWeekday(n: int)
    requires InRange(n)
    ensures SerialWeekday(n) == Weekday(FromExcelDate(n))
  {
    var d := FromExcelDate(n);
    assert Ordinal(d) == EXCEL_BASE_ORDINAL + n;
    EpochResidue(n);
  }

  /** The epoch's ordinal is 5 modulo 7, so ordinal weekdays and serial
      weekdays differ by a whole number of weeks. */
  lemma EpochResidue(n: int)
    ensures OrdinalWeekday(EXCEL_BASE_ORDINAL + n) == SerialWeekday(n)
  {
    var q, r := n / 7, n % 7;
    assert EXCEL_BASE_ORDINAL + n + 6 == (r + 5) + 7 * (q + 99085);
    ModShift(r + 5, q + 99085);
  }

  lemma ModShift(a: int, k: int)
    ensures (a + 7 * k) % 7 == a % 7
  {
  }
}
