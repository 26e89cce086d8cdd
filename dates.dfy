/**
 * Calendar dates as records of integers, and the range checks Python's
 * `datetime(year, month, day, hour, minute, second)` constructor applies.
 */
module Dates {
  import opened Wrappers

  predicate IsLeap(year: int) {
    year % 4 == 0 && (year % 100 != 0 || year % 400 == 0)
  }

  function DaysInMonth(year: int, month: int): (n: int)
    requires 1 <= month <= 12
    ensures 28 <= n <= 31
  {
    if month == 2 then (if IsLeap(year) then 29 else 28)
    else if month == 4 || month == 6 || month == 9 || month == 11 then 30
    else 31
  }

  /** A point in time to the second, as `datetime` exposes it (no time zone, no microseconds). */
  datatype Date = Date(year: int, month: int, day: int, hour: int, minute: int, second: int) {

    /** What `datetime(...)` accepts: MINYEAR 1 to MAXYEAR 9999 and the calendar. */
    predicate Valid() {
      && 1 <= year <= 9999
      && 1 <= month <= 12
      && 1 <= day <= DaysInMonth(year, month)
      && 0 <= hour < 24
      && 0 <= minute < 60
      && 0 <= second < 60
    }
  }

  /** The dates a `datetime` object can hold. */
  type DateTime = d: Date | d.Valid() witness Date(1970, 1, 1, 0, 0, 0)

  /** `datetime(y, m, d, h, mi, s)`, with `None` standing for the `ValueError` it raises. */
  function MakeDate(y: int, m: int, d: int, h: int, mi: int, s: int): (r: Option<DateTime>)
    ensures r.Some? <==> Date(y, m, d, h, mi, s).Valid()
    ensures r.Some? ==> r.value == Date(y, m, d, h, mi, s)
  {
    var date := Date(y, m, d, h, mi, s);
    if date.Valid() then Some(date) else None
  }
}
