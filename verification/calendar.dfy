/** The part of Python's `datetime.datetime` constructor the 12-hour path relies on. */
module Calendar {
  import opened Wrappers

  /** A timezone-naive date and time; microseconds are always zero here and are not kept. */
  datatype DateTime = DateTime(year: int, month: int, day: int, hour: int, minute: int, second: int)

  const MinYear: int := 1
  const MaxYear: int := 9999

  /** Gregorian leap years, as `calendar.isleap` decides them. */
  predicate IsLeapYear(year: int) {
    year % 4 == 0 && (year % 100 != 0 || year % 400 == 0)
  }

  /** The length of a month in the Gregorian calendar. */
  function DaysInMonth(year: int, month: int): (n: int)
    requires 1 <= month <= 12
    ensures 28 <= n <= 31
    ensures n == 31 <==> month in {1, 3, 5, 7, 8, 10, 12}
    ensures n == 30 <==> month in {4, 6, 9, 11}
    ensures n == 29 <==> month == 2 && IsLeapYear(year)
    ensures n == 28 <==> month == 2 && !IsLeapYear(year)
  {
    if month == 2 then (if IsLeapYear(year) then 29 else 28)
    else if month in {4, 6, 9, 11} then 30
    else 31
  }

  /** The range checks `datetime.datetime` performs on its arguments. */
  predicate IsValid(dt: DateTime) {
    && MinYear <= dt.year <= MaxYear
    && 1 <= dt.month <= 12
    && 1 <= dt.day <= DaysInMonth(dt.year, dt.month)
    && 0 <= dt.hour <= 23
    && 0 <= dt.minute <= 59
    && 0 <= dt.second <= 59
  }

  /**
   * `datetime.datetime(year, month, day, hour, minute)`: the value, or `None`
   * where the constructor raises `ValueError`.
   */
  function MakeDateTime(year: int, month: int, day: int, hour: int, minute: int): (r: Option<DateTime>)
    ensures r.Some? <==> IsValid(DateTime(year, month, day, hour, minute, 0))
    ensures r.Some? ==> r.value == DateTime(year, month, day, hour, minute, 0)
  {
    var dt := DateTime(year, month, day, hour, minute, 0);
    if IsValid(dt) then Some(dt) else None
  }

  /** The sum of the first `months` month lengths of `year`. */
  function DaysBefore(year: int, months: nat): nat
    requires months <= 12
  {
    if months == 0 then 0 else DaysBefore(year, months - 1) + DaysInMonth(year, months) as nat
  }

  /** The month lengths add up to 366 days in a leap year and 365 otherwise. */
  lemma {:induction false} YearLength(year: int)
    ensures DaysBefore(year, 12) == if IsLeapYear(year) then 366 else 365
  {
    assert DaysBefore(year, 1) == 31;
    assert DaysBefore(year, 2) == if IsLeapYear(year) then 60 else 59;
    assert DaysBefore(year, 3) == if IsLeapYear(year) then 91 else 90;
    assert DaysBefore(year, 4) == if IsLeapYear(year) then 121 else 120;
    assert DaysBefore(year, 5) == if IsLeapYear(year) then 152 else 151;
    assert DaysBefore(year, 6) == if IsLeapYear(year) then 182 else 181;
    assert DaysBefore(year, 7) == if IsLeapYear(year) then 213 else 212;
    assert DaysBefore(year, 8) == if IsLeapYear(year) then 244 else 243;
    assert DaysBefore(year, 9) == if IsLeapYear(year) then 274 else 273;
    assert DaysBefore(year, 10) == if IsLeapYear(year) then 305 else 304;
    assert DaysBefore(year, 11) == if IsLeapYear(year) then 335 else 334;
  }
}
