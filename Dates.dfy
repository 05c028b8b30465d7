/**
  Calendar dates of the proleptic Gregorian calendar, as Python's `datetime` and pandas'
  timestamps use them. Only the date part of a `Date-Time` value takes part in any computation,
  so the time of day is not represented.
*/
module Dates {
  import opened Wrappers

  datatype Date = Date(year: int, month: int, day: int)

  predicate IsLeapYear(y: int)
  {
    y % 4 == 0 && (y % 100 != 0 || y % 400 == 0)
  }

  function DaysInMonth(y: int, m: int): (n: int)
    ensures 28 <= n <= 31
  {
    if m == 2 then (if IsLeapYear(y) then 29 else 28)
    else if m == 4 || m == 6 || m == 9 || m == 11 then 30
    else 31
  }

  predicate IsValid(d: Date)
  {
    1 <= d.month <= 12 && 1 <= d.day <= DaysInMonth(d.year, d.month)
  }

  /** A date that exists in the calendar: what a successful parse of `Date-Time` yields. */
  type ValidDate = d: Date | IsValid(d) witness Date(2000, 1, 1)

  /**
    The timestamp parser (`pd.to_datetime(..., errors="coerce")` applied to one cell), reduced to
    the calendar date: None where the text does not parse (NaT).
  */
  type DateParser = string -> Option<ValidDate>
}
