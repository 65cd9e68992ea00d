/**
 * The part of `System.DateTime` the text-file reader relies on, at day
 * resolution: a date is its day number counted from 1 January of year 1 in
 * the proleptic Gregorian calendar, as `DateTime` counts its ticks.
 */
module Dates {
  import opened Wrappers

  datatype DateTime = DateTime(days: int)

  /** The day number of 31 December 9999, `DateTime.MaxValue`. */
  const MaxDays := 3652058
  const Unrepresentable := "Year, Month, and Day parameters describe an un-representable DateTime."
  const OutOfRange := "The added or subtracted value results in an un-representable DateTime."

  predicate IsLeapYear(year: int)
  {
    year % 4 == 0 && (year % 100 != 0 || year % 400 == 0)
  }

  function DaysInYear(year: int): int
  {
    if IsLeapYear(year) then 366 else 365
  }

  function DaysInMonth(year: int, month: int): (n: int)
    requires 1 <= month <= 12
    ensures 28 <= n <= 31
  {
    if month == 2 then (if IsLeapYear(year) then 29 else 28)
    else if month == 4 || month == 6 || month == 9 || month == 11 then 30
    else 31
  }

  /** The days of the years before `year`. */
  function DaysBeforeYear(year: int): int
    requires year >= 1
  {
    var y := year - 1;
    365 * y + y / 4 - y / 100 + y / 400
  }

  /** The days of the months of `year` before `month`. */
  function DaysBeforeMonth(year: int, month: int): (n: int)
    requires 1 <= month <= 13
    ensures 0 <= n <= 31 * (month - 1)
  {
    if month == 1 then 0 else DaysBeforeMonth(year, month - 1) + DaysInMonth(year, month - 1)
  }

  /** Consecutive years are `DaysInYear` apart. */
  lemma DaysBeforeNextYear(year: int)
    requires year >= 1
    ensures DaysBeforeYear(year + 1) == DaysBeforeYear(year) + DaysInYear(year)
  {
    var y := year - 1;
    assert (y + 1) / 4 == y / 4 + (if (y + 1) % 4 == 0 then 1 else 0);
    assert (y + 1) / 100 == y / 100 + (if (y + 1) % 100 == 0 then 1 else 0);
    assert (y + 1) / 400 == y / 400 + (if (y + 1) % 400 == 0 then 1 else 0);
  }

  /** All twelve months make up the year. */
  lemma MonthsMakeYear(year: int)
    ensures DaysBeforeMonth(year, 13) == DaysInYear(year)
  {
    assert DaysBeforeMonth(year, 3) == 31 + DaysInMonth(year, 2);
    assert DaysBeforeMonth(year, 5) == DaysBeforeMonth(year, 3) + 61;
    assert DaysBeforeMonth(year, 7) == DaysBeforeMonth(year, 3) + 122;
    assert DaysBeforeMonth(year, 9) == DaysBeforeMonth(year, 3) + 184;
    assert DaysBeforeMonth(year, 11) == DaysBeforeMonth(year, 3) + 245;
  }

  /** `new DateTime(year, month, day)`. */
  function FromYmd(year: int, month: int, day: int): (r: Result<DateTime>)
    ensures r.Success? <==> 1 <= year <= 9999 && 1 <= month <= 12 && 1 <= day <= DaysInMonth(year, month)
    ensures r.Success? ==> 0 <= r.value.days <= MaxDays
  {
    if 1 <= year <= 9999 && 1 <= month <= 12 && 1 <= day <= DaysInMonth(year, month) then
      DaysBeforeYearBound(year);
      Success(DateTime(DaysBeforeYear(year) + DaysBeforeMonth(year, month) + day - 1))
    else Failure(Unrepresentable)
  }

  lemma {:induction false} DaysBeforeYearBound(year: int)
    requires 1 <= year <= 9999
    ensures 0 <= DaysBeforeYear(year) && DaysBeforeYear(year) + DaysInYear(year) <= MaxDays + 1
    decreases 9999 - year
  {
    if year < 9999 {
      DaysBeforeYearBound(year + 1);
      DaysBeforeNextYear(year);
    }
  }

  /** `AddDays`: fails outside the representable range. */
  function AddDays(date: DateTime, n: int): (r: Result<DateTime>)
    ensures r.Success? <==> 0 <= date.days + n <= MaxDays
    ensures r.Success? ==> r.value.days - date.days == n
  {
    if 0 <= date.days + n <= MaxDays then Success(DateTime(date.days + n)) else Failure(OutOfRange)
  }

  /** The next day of a month is one day later; the day after a month's last is the next month's first. */
  lemma NextDay(year: int, month: int, day: int)
    requires FromYmd(year, month, day).Success?
    ensures day < DaysInMonth(year, month) ==>
      FromYmd(year, month, day + 1) == AddDays(FromYmd(year, month, day).value, 1)
    ensures day == DaysInMonth(year, month) && month < 12 ==>
      FromYmd(year, month + 1, 1) == AddDays(FromYmd(year, month, day).value, 1)
    ensures day == 31 && month == 12 && year < 9999 ==>
      FromYmd(year + 1, 1, 1) == AddDays(FromYmd(year, month, day).value, 1)
  {
    if day == 31 && month == 12 && year < 9999 {
      DaysBeforeNextYear(year);
      MonthsMakeYear(year);
      DaysBeforeYearBound(year + 1);
    }
  }

  /** Day `n` of a year counted from its 1 January. */
  lemma DayOfYear(year: int, month: int, day: int)
    requires FromYmd(year, month, day).Success?
    ensures AddDays(FromYmd(year, 1, 1).value, DaysBeforeMonth(year, month) + day - 1) == FromYmd(year, month, day)
  {
  }

  /** The last representable day is 31 December 9999. */
  lemma LastDay()
    ensures FromYmd(9999, 12, 31) == Success(DateTime(MaxDays))
  {
    assert DaysBeforeYear(9999) == 3651694;
  }
}
