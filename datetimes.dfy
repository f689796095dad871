/** UTC date-times at one-second resolution, with the proleptic Gregorian calendar of Python's `datetime`. */
module DateTimes {
  import opened Text

  datatype DateTime = DateTime(year: int, month: int, day: int, hour: int, minute: int, second: int)

  const MinYear := 1
  const MaxYear := 9999

  predicate IsLeapYear(y: int) {
    y % 4 == 0 && (y % 100 != 0 || y % 400 == 0)
  }

  function DaysInMonth(y: int, m: int): (d: int)
    requires 1 <= m <= 12
    ensures 28 <= d <= 31
    ensures m == 2 ==> (d == 29 <==> IsLeapYear(y))
  {
    if m == 2 then (if IsLeapYear(y) then 29 else 28)
    else if m == 4 || m == 6 || m == 9 || m == 11 then 30
    else 31
  }

  /** The values `datetime(...)` accepts without raising ValueError. */
  predicate Valid(t: DateTime) {
    && MinYear <= t.year <= MaxYear
    && 1 <= t.month <= 12
    && 1 <= t.day <= DaysInMonth(t.year, t.month)
    && 0 <= t.hour < 24 && 0 <= t.minute < 60 && 0 <= t.second < 60
  }

  /** A date-time `datetime` can represent. */
  type Instant = t: DateTime | Valid(t) witness DateTime(1970, 1, 1, 0, 0, 0)

  /** `a <= b` on date-times: lexicographic on the fields. */
  predicate AtOrBefore(a: DateTime, b: DateTime) {
    || a.year < b.year
    || (a.year == b.year && a.month < b.month)
    || (a.year == b.year && a.month == b.month && a.day < b.day)
    || (a.year == b.year && a.month == b.month && a.day == b.day && a.hour < b.hour)
    || (a.year == b.year && a.month == b.month && a.day == b.day && a.hour == b.hour && a.minute < b.minute)
    || (a.year == b.year && a.month == b.month && a.day == b.day && a.hour == b.hour && a.minute == b.minute
        && a.second <= b.second)
  }

  /** Midnight on the first day of month `m` of year `y`. */
  function MonthStart(y: int, m: int): DateTime {
    DateTime(y, m, 1, 0, 0, 0)
  }

  /** 23:59:59 on the last day of month `m` of year `y`. */
  function MonthEnd(y: int, m: int): DateTime
    requires 1 <= m <= 12
  {
    DateTime(y, m, DaysInMonth(y, m), 23, 59, 59)
  }

  /** A valid date-time lies in the window [MonthStart, MonthEnd] exactly when it falls in that month. */
  lemma MonthWindowExact(y: int, m: int, t: DateTime)
    requires 1 <= m <= 12
    requires Valid(t)
    ensures AtOrBefore(MonthStart(y, m), t) && AtOrBefore(t, MonthEnd(y, m)) <==> t.year == y && t.month == m
  {
  }

  /** `dt.isoformat()` of a UTC date-time without microseconds. */
  function IsoFormat(t: DateTime): string
    requires Valid(t)
  {
    ZeroPad(t.year, 4) + "-" + ZeroPad(t.month, 2) + "-" + ZeroPad(t.day, 2) + "T"
    + ZeroPad(t.hour, 2) + ":" + ZeroPad(t.minute, 2) + ":" + ZeroPad(t.second, 2) + "+00:00"
  }
}
