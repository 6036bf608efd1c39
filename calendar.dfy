/**
 * The part of Python's `datetime` the organizer relies on: a date-time value,
 * the proleptic Gregorian month lengths, and the range checks that make the
 * constructor `datetime(y, m, d, h, mi, s)` raise `ValueError`.
 */
module Calendar {
  import opened Wrappers

  /** A `datetime` value; only the six fields the organizer reads. */
  datatype DateTime = DateTime(year: int, month: int, day: int, hour: int, minute: int, second: int)

  /** Gregorian leap years: every fourth year, except centuries not divisible by 400. */
  predicate IsLeapYear(y: int)
  {
    y % 4 == 0 && (y % 100 != 0 || y % 400 == 0)
  }

  function DaysInMonth(y: int, m: int): (n: int)
    requires 1 <= m <= 12
    ensures 28 <= n <= 31
    ensures n == 29 <==> m == 2 && IsLeapYear(y)
    ensures n == 28 <==> m == 2 && !IsLeapYear(y)
    ensures n == 30 <==> m in {4, 6, 9, 11}
  {
    if m == 2 then (if IsLeapYear(y) then 29 else 28)
    else if m in {4, 6, 9, 11} then 30
    else 31
  }

  /** Total number of days in months `1..m` of year `y`. */
  function DaysBeforeMonthEnd(y: int, m: nat): int
    requires m <= 12
  {
    if m == 0 then 0 else DaysBeforeMonthEnd(y, m - 1) + DaysInMonth(y, m)
  }

  /** The twelve month lengths add up to the length of a Gregorian year. */
  lemma YearLength(y: int)
    ensures DaysBeforeMonthEnd(y, 12) == if IsLeapYear(y) then 366 else 365
  {
    var feb := DaysInMonth(y, 2);
    assert DaysBeforeMonthEnd(y, 1) == 31;
    assert DaysBeforeMonthEnd(y, 2) == 31 + feb;
    assert DaysBeforeMonthEnd(y, 3) == 62 + feb;
    assert DaysBeforeMonthEnd(y, 4) == 92 + feb;
    assert DaysBeforeMonthEnd(y, 5) == 123 + feb;
    assert DaysBeforeMonthEnd(y, 6) == 153 + feb;
    assert DaysBeforeMonthEnd(y, 7) == 184 + feb;
    assert DaysBeforeMonthEnd(y, 8) == 215 + feb;
    assert DaysBeforeMonthEnd(y, 9) == 245 + feb;
    assert DaysBeforeMonthEnd(y, 10) == 276 + feb;
    assert DaysBeforeMonthEnd(y, 11) == 306 + feb;
  }

  /** What `datetime(y, m, d)` accepts: years 1 to 9999 and a day that exists in that month. */
  predicate IsCalendarDate(y: int, m: int, d: int)
  {
    1 <= y <= 9999 && 1 <= m <= 12 && 1 <= d <= DaysInMonth(y, m)
  }

  /** What `datetime` accepts for the time of day. */
  predicate IsTimeOfDay(h: int, mi: int, s: int)
  {
    0 <= h <= 23 && 0 <= mi <= 59 && 0 <= s <= 59
  }

  predicate IsDateTime(dt: DateTime)
  {
    IsCalendarDate(dt.year, dt.month, dt.day) && IsTimeOfDay(dt.hour, dt.minute, dt.second)
  }

  /** `datetime(y, m, d, h, mi, s)`, with `None` where the constructor raises `ValueError`. */
  function MakeDateTime(y: int, m: int, d: int, h: int, mi: int, s: int): (r: Option<DateTime>)
    ensures r.Some? <==> IsCalendarDate(y, m, d) && IsTimeOfDay(h, mi, s)
    ensures r.Some? ==> r.value == DateTime(y, m, d, h, mi, s) && IsDateTime(r.value)
  {
    if IsCalendarDate(y, m, d) && IsTimeOfDay(h, mi, s) then Some(DateTime(y, m, d, h, mi, s)) else None
  }
}
