# PYBOR date kernel (`yc_date.py`) in Dafny

This project models the date kernel of the PYBOR yield-curve library: the
serial-date codec (`toexceldate` / `fromexceldate`, days since 1899-12-30),
the `Tenor` value ("3M", "-1B", "E"), calendar stepping by a tenor
(`create_relativedelta`, `date_step`), the weekend holiday calendar, the
FOLLOWING / PRECEDING business-day roll (`date_roll`), date resolution from
ints, calendar dates and "+"-joined tenor expressions (`create_date`), and
schedule generation with a short back stub (`generate_schedule`).

Modules, one per part of the kernel:

- `Outcome` (outcome.dfy): `Option`, `Result` and the failure kinds. Every
  Python exception the kernel raises becomes an `Err` value.
- `Civil` (civil.dfy): the proleptic-Gregorian arithmetic of Python's
  `datetime.date` that the codec relies on (ordinal, weekday, ordinal back to
  a date), restricted to years 1..9999 as Python's `date` is.
- `ExcelDate` (excel_date.dfy): the codec, its round trips, the serial range
  -693593..2958465, and the weekday of a serial.
- `Tenors` (tenors.dfy): parsing a tenor string into magnitude and unit.
- `Stepping` (stepping.dfy): `relativedelta` offsets (months and years clamp
  the day to the target month; days are plain addition) and `date_step`.
- `Calendars` (calendars.dfy): `WeekendCalendar.is_holiday`, `RollType`,
  `date_roll` as a loop proved against a specification of the first / last
  business day.
- `DateFactory` (date_factory.dfy): `str.split("+")`, the fold of
  `date_step` over the tokens, and `create_date` as a method proved against
  the function `ResolveDate`.
- `Schedules` (schedules.dfy): `generate_schedule` as a loop proved against a
  recursive walk, and the shape of the walk.

Behaviour of the code as written that a reader might not expect:

- A `Tenor` argument to `create_date` returns the reference date unchanged:
  the early return at yc_date.py:119 makes lines 120-122 unreachable; see
  Findings.
- `Tenor` accepts any unit character at construction; an unknown unit fails
  only when `date_step` builds the offset.
- Serial dates are checked against nothing but the range of Python's `date`
  (years 1..9999).

## Model

| member | source | states |
|---|---|---|
| `Civil.FromOrdinal` | yc_date.py:78-80 | the date `excelBaseDate + relativedelta(days=...)` lands on is a valid date whose ordinal is the requested one |
| `Civil.OrdinalIncreasing` | yc_date.py:75-76 | a later calendar date has a larger day count, so the subtraction in `toexceldate` preserves order |
| `Civil.Weekday` | yc_date.py:62 | `date.weekday()` is a number 0..6 (Monday 0); `EpochIsSaturday` and `SerialWeekdayIsWeekday` fix its value |
| `Civil.FromOrdinalOfOrdinal` | yc_date.py:75-80 | converting a date to its day count and back gives the same date |
| `ExcelDate.ToExcelDate` | yc_date.py:75-76 | every date of the years 1..9999 has a serial in -693593..2958465 |
| `ExcelDate.FromExcelDate` | yc_date.py:78-80 | every serial in range becomes a valid calendar date whose serial is that number |
| `ExcelDate.FromToExcelDate` | yc_date.py:73-80 | `fromexceldate(toexceldate(d)) == d` for every date |
| `ExcelDate.FirstSerial` | yc_date.py:73-76 | 0001-01-01 has serial -693593 |
| `ExcelDate.LastSerial` | yc_date.py:73-76 | 9999-12-31 has serial 2958465 |
| `ExcelDate.EpochIsSaturday` | yc_date.py:73-76 | serial 0 is 1899-12-30, and that day is a Saturday |
| `ExcelDate.EpochOrdinal` | yc_date.py:73-76 | the base constant is the day count of 1899-12-30, so `toexceldate` is the difference of day counts from the epoch |
| `ExcelDate.ToExcelDateIncreasing` | yc_date.py:75-76 | a date comes before another exactly when its serial is smaller |
| `ExcelDate.SerialWeekdayIsWeekday` | yc_date.py:59-63 | the weekday of `fromexceldate(n)` is `(n % 7 + 5) % 7`, read off the serial |
| `Tenors.ShowNat` | yc_date.py:36-37 | Python's `str(n)` for a natural number, the inverse of `int()` at line 37 used to state its round trip: a non-empty digit string whose value is n, with no leading zero when n > 0 |
| `Tenors.ParseInt` | yc_date.py:37 | `int(s)` succeeds exactly on an optional sign followed by one or more digits, and gives the digits' value, negated after "-" |
| `Tenors.ParseShowInt` | yc_date.py:36-37 | `int(str(n)) == n` for every integer magnitude |
| `Tenors.ParseTenor` | yc_date.py:32-40 | the text is kept, the unit is the last character (or empty), the magnitude is `int(s[:-1])` or 0 when that prefix is empty, and parsing fails, naming the string, exactly when a non-empty prefix is not an integer |
| `Tenors.ParseTenorOfParts` | yc_date.py:32-46 | any integer followed by any unit character parses to that magnitude and unit and prints back as the same string |
| `Tenors.ParseSentinel` | yc_date.py:36-38 | "E" has magnitude 0 and unit "E" |
| `Tenors.SameTenor` | yc_date.py:42-43 | `__eq__` compares the strings; equal tenors always compare equal |
| `Tenors.SameTenorIsEquality` | yc_date.py:42-46 | comparing the strings of two parsed tenors is comparing the tenors |
| `Stepping.CreateRelativeDelta` | yc_date.py:136-148 | an offset exists exactly for the units M, B, Y, Q, F; Q and F move three times the magnitude; any other unit fails naming the unit |
| `Stepping.AddMonths` | yc_date.py:137-138 | the month index moves by exactly k and the day is clamped to the length of the target month; it fails, out of range, exactly when the target year leaves 1..9999 |
| `Stepping.AddYears` | yc_date.py:141-142 | the year moves by k with the month kept; fails exactly when the year leaves 1..9999 |
| `Stepping.AddDays` | yc_date.py:139-140 | the day count moves by exactly k; fails exactly when it leaves the representable days |
| `Stepping.AddDelta` | yc_date.py:87 | `date + relativedelta(...)` gives a valid date or fails out of range |
| `Stepping.ApplyDelta` | yc_date.py:87 | a successful offset of a serial gives a serial in range |
| `Stepping.DateStep` | yc_date.py:82-87 | a step succeeds only without `preserve_eom`, with a known unit and in range; the unit "E" always fails |
| `Stepping.ApplyDays` | yc_date.py:87 | a day offset adds exactly its size to the serial, or fails when that leaves the range |
| `Stepping.StepByDays` | yc_date.py:82-87 | stepping by a "B" tenor adds exactly n to the serial |
| `Stepping.YearsAreTwelveMonths` | yc_date.py:137-142 | a k-year offset moves every date exactly like a 12k-month offset |
| `Stepping.StepQuarterIsThreeMonths` | yc_date.py:143-146 | a "Q" or "F" step is `relativedelta(months=3*n)` applied to the serial |
| `Stepping.StepYearIsTwelveMonths` | yc_date.py:141-142 | a "Y" step is `relativedelta(months=12*n)` applied to the serial |
| `Stepping.AddMonthsDirection` | yc_date.py:137-138 | a positive month offset gives a later date, a negative one an earlier date, zero the same date |
| `Stepping.ApplyDeltaDirection` | yc_date.py:87 | an offset moves a serial in the direction of its sign |
| `Stepping.StepDirection` | yc_date.py:82-87 | a step by a positive tenor gives a larger serial, a negative one a smaller, zero the same |
| `Stepping.NoStepBeforeFirstDay` | yc_date.py:82-87 | every tenor of negative magnitude fails on the first representable day |
| `Stepping.StepMonthsOnCalendar` | yc_date.py:82-87 | on a calendar date, an "M" step is the month offset of that date |
| `Stepping.JanuaryEndPlusOneMonth` | yc_date.py:137-138 | 2020-01-31 plus one month is 2020-02-29 |
| `Stepping.MonthEndClamp` | yc_date.py:82-87 | stepping the serial of 2020-01-31 by "1M" gives the serial of 2020-02-29 |
| `Calendars.IsHoliday` | yc_date.py:59-63 | on the weekend calendar a serial is a holiday exactly when it is 0 or 1 modulo 7 (Saturday or Sunday, as serial 0 is a Saturday) |
| `Calendars.HolidayIsWeekend` | yc_date.py:59-63 | a serial is a holiday exactly when `fromexceldate(n).weekday() >= 5` |
| `Calendars.WeekendPeriodic` | yc_date.py:59-63 | the weekend calendar repeats every 7 serials |
| `Calendars.EndsAreBusinessDays` | yc_date.py:89-98 | only serials strictly inside the range are holidays, so a roll never leaves the range |
| `Calendars.NextBusinessDay` | yc_date.py:93-95 | the result is the least non-holiday on or after the date: every day before it is a holiday |
| `Calendars.PreviousBusinessDay` | yc_date.py:96-98 | the result is the greatest non-holiday on or before the date |
| `Calendars.Roll` | yc_date.py:89-100 | FOLLOWING and PRECEDING succeed and give the nearest business day in their direction; every other roll type fails |
| `Calendars.DateRoll` | yc_date.py:89-100 | the stepping loops compute exactly `Roll` |
| `Calendars.RollIdempotent` | yc_date.py:89-98 | rolling a rolled date changes nothing |
| `Calendars.WeekendFollowing` | yc_date.py:93-95 | FOLLOWING moves a Saturday two days, a Sunday one, a weekday none |
| `Calendars.WeekendPreceding` | yc_date.py:96-98 | PRECEDING moves a Saturday one day back, a Sunday two, a weekday none |
| `Calendars.SaturdayRollsToMonday` | yc_date.py:93-95 | Saturday 2021-03-06 rolls FOLLOWING to Monday 2021-03-08 |
| `DateFactory.Split` | yc_date.py:112 | the pieces are never empty as a list, contain no separator, and joined with the separator give the input back |
| `DateFactory.SplitJoin` | yc_date.py:112 | splitting separator-free pieces joined by the separator gives the pieces back |
| `DateFactory.StepToken` | yc_date.py:114-115 | "E" leaves the date alone; any other token that succeeds ends in a known unit and steps an in-range serial to an in-range serial |
| `DateFactory.ApplyTokens` | yc_date.py:111-116 | folding the tokens from the reference date gives the reference date or an in-range serial |
| `DateFactory.StepTokens` | yc_date.py:111-116 | the for-loop over the tokens computes exactly `ApplyTokens`, returning the first failure |
| `DateFactory.ApplyTokensAppend` | yc_date.py:111-116 | folding two token lists in a row is folding the first, then the second from its result; a failure in the first is final |
| `DateFactory.FailureEndsFold` | yc_date.py:113-115 | a failing step fails the whole expression with the same error |
| `DateFactory.ApplyTokensSkipsSentinels` | yc_date.py:113-114 | "E" tokens have no effect: the fold equals the fold over the other tokens |
| `DateFactory.OnlySentinels` | yc_date.py:113-116 | an expression of "E" tokens only gives the reference date |
| `DateFactory.LooksAbsolute` | yc_date.py:107 | `arg[0:4].isdigit()`: a string of four or more characters goes to the date parser exactly when its first four are digits, a shorter one exactly when it is non-empty and all digits ("12" does, "3M", "10Y" and "E" do not) |
| `DateFactory.ResolveDate` | yc_date.py:102-123 | an int is returned as is; a calendar date becomes a serial that converts back to it; a missing reference date fails for expressions and tenors; an unparsable date string fails |
| `DateFactory.CreateDate` | yc_date.py:102-123 | the dispatch and the token loop compute exactly `ResolveDate` |
| `DateFactory.ResolveExpression` | yc_date.py:109-116 | a "+"-joined expression resolves to the fold of `date_step` over its tokens other than "E" |
| `DateFactory.ResolveSentinel` | yc_date.py:109-116 | `create_date("E", r) == r` |
| `DateFactory.ResolveSum` | yc_date.py:109-116 | "a+b" steps by a from the reference date, then by b from that result |
| `DateFactory.LongTenorGoesToParser` | yc_date.py:107-108 | "1000B" starts with four digits, so it goes to the date parser, not to stepping |
| `DateFactory.ResolveTenorAsWritten` | yc_date.py:117-119 | a `Tenor` argument returns the reference date whatever the tenor |
| `DateFactory.ResolveTenorAsText` | yc_date.py:117-122 | for a tenor text with no "+", not starting with four digits, and with unit "E" only when it is "E" itself, the intended tenor branch equals resolving the text as an expression |
| `DateFactory.SentinelUnitDiffers` | yc_date.py:114-122 | outside those conditions the two differ: "0E" gives r in the intended branch but fails as text, as `date_step` rejects the unit "E" |
| `DateFactory.TenorArgumentIgnored` | yc_date.py:117-122 | a "1B" tenor resolves to the reference date as written and to the next day as intended |
| `Schedules.StepByForward` | yc_date.py:157-159 | stepping by a tenor of positive magnitude always moves forward, so the loop ends |
| `Schedules.Walk` | yc_date.py:155-160 | a successful walk is non-empty and ends at end; a walk can fail only when start is before end |
| `Schedules.Schedule` | yc_date.py:151-161 | a successful schedule ends at end and strictly increases |
| `Schedules.GenerateSchedule` | yc_date.py:151-161 | the append-and-step loop computes exactly the schedule walk, failing when a step fails |
| `Schedules.WalkEnds` | yc_date.py:155-160 | the schedule is never empty and ends at end; it starts at start when start is before end, and is [end] otherwise |
| `Schedules.WalkWithinRange` | yc_date.py:157-158 | every date but the last lies in [start, end) |
| `Schedules.WalkSteps` | yc_date.py:157-160 | each date before the last two steps to the next one, and the last date before end steps to end or beyond (a short back stub) |
| `Schedules.WalkIncreasing` | yc_date.py:155-161 | the schedule strictly increases |
| `Schedules.WalkShape` | yc_date.py:151-161 | the schedule ends at end, starts at start when start is before end, stays in [start, end) before the last date and strictly increases |
| `Schedules.ScheduleSteps` | yc_date.py:157-159 | consecutive dates of a tenor schedule, up to the last one before end, are one `date_step` apart |

## Left out

- The date-string branch of `create_date` (yc_date.py:107-108) calls `dateutil.parser.parse`, a foreign library; the model takes it as the function parameter `parseAbsolute`, with `None` for a string it cannot parse.
- `calculate_dcf` and `calculate_dcfs` (yc_date.py:126-133): floating-point division by a denominator from a day-count convention that is not part of this model.
- `CalendarBase` (yc_date.py:48-53) is abstract; only `WeekendCalendar` is modelled.
- Python exceptions are `Err` values, and their messages are not modelled: `assert`, `BaseException`, `OverflowError` for a day offset outside the years 1..9999, and `ValueError` for a month or year offset outside them.
- Runtime type checks (`isinstance`, `assert_type`) are Dafny types; the final `assert False` of `create_date` cannot be reached because `DateArg` has only the four kinds.
- `ResolveDate`: the reference date is an int serial; a calendar date or a string passed as the reference date is not modelled.
- `IsHoliday`: computes the weekday from the serial's residue modulo 7; `HolidayIsWeekend` proves this equals the weekday of `fromexceldate(n)`, which is how `is_holiday` computes it. It requires an in-range serial, as `fromexceldate` fails on any other.
- `DateStep`: `preserve_eom=True` is rejected (yc_date.py:85), so end-of-month stickiness is not modelled.
- `Schedule` and `GenerateSchedule`: require a tenor of positive magnitude, so three behaviours of `generate_schedule` are not modelled. With a zero magnitude and a known unit, the loop never ends. From a start in −693593..2958465 and before end, with a negative magnitude, each step moves the date back (`StepDirection`) until a step's target falls before 0001-01-01, and that step fails (`NoStepBeforeFirstDay` for the first day itself). From a start in −693593..2958465 and before end, with an unknown unit, it raises on the first step. A start outside that range and before end fails on the first step whatever the step, because `DateStep` succeeds only from a date in range. When start is not before end, the result is [end] whatever the step.
- `ScheduleSteps`: does not restate the back-stub clause for tenor schedules; `WalkSteps` states it for every forward step function, and a tenor schedule is the walk by `StepBy(step)`.
- The `numpy` array that `generate_schedule` returns is a sequence.
- Python's `int()` also accepts surrounding whitespace, underscores and non-ASCII digits, and `str.isdigit` accepts non-ASCII digits; the model accepts ASCII digits with an optional sign only.
- `Tenor` objects are never changed after `__init__`, so a tenor is an immutable value built by `ParseTenor`.
- The `Civil` module computes the year of a day count by a search from year 1, not by Python's 400-year-cycle arithmetic; only the result is modelled.

## Findings

| source | as written | input that shows it | evidently intended | confidence | as-written member | corrected member |
|---|---|---|---|---|---|---|
| yc_date.py:117-122 | `create_date(t, r)` for a `Tenor` t returns `create_date(r, t)`, which is r itself; lines 120-122 are unreachable | `create_date(Tenor("1B"), r)` gives r | step r by t, or give r for the "E" tenor (lines 120-122) | not executed; the unreachable lines state the intent | `DateFactory.ResolveDate` (`DateFactory.TenorArgumentIgnored`) | `DateFactory.ResolveTenor` (`DateFactory.ResolveTenorAsText`) |
