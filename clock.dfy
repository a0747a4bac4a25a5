/**
 * The value `datetime.utcnow()` returns: a proleptic Gregorian date and time of
 * day with microseconds, in the range Python's `datetime` allows. The clock
 * itself is not modelled; a timestamp is always an input.
 */
module Clock {

  datatype Timestamp = Timestamp(
    year: int, month: int, day: int,
    hour: int, minute: int, second: int, microsecond: int)

  predicate IsLeapYear(y: int)
  {
    y % 4 == 0 && (y % 100 != 0 || y % 400 == 0)
  }

  function DaysInMonth(y: int, m: int): int
    requires 1 <= m <= 12
  {
    if m == 2 then (if IsLeapYear(y) then 29 else 28)
    else if m == 4 || m == 6 || m == 9 || m == 11 then 30
    else 31
  }

  /** A value `datetime` can hold: years 1 to 9999, a real calendar day, no leap second. */
  predicate Valid(t: Timestamp)
  {
    && 1 <= t.year <= 9999
    && 1 <= t.month <= 12
    && 1 <= t.day <= DaysInMonth(t.year, t.month)
    && 0 <= t.hour < 24
    && 0 <= t.minute < 60
    && 0 <= t.second < 60
    && 0 <= t.microsecond < 1000000
  }

  /** Days in the months of year `y` that come before month `m`. */
  function DaysBeforeMonth(y: int, m: int): nat
    requires 1 <= m <= 13
  {
    if m == 1 then 0 else DaysBeforeMonth(y, m - 1) + DaysInMonth(y, m - 1)
  }

  function DaysInYear(y: int): nat
  {
    DaysBeforeMonth(y, 13)
  }

  /** Days from 0001-01-01 to the first day of year `y`. */
  function DaysBeforeYear(y: int): nat
    requires y >= 1
  {
    if y == 1 then 0 else DaysBeforeYear(y - 1) + DaysInYear(y - 1)
  }

  /** Days from 0001-01-01 to the date of `t`. */
  function DayNumber(t: Timestamp): int
    requires Valid(t)
  {
    DaysBeforeYear(t.year) + DaysBeforeMonth(t.year, t.month) + t.day - 1
  }

  function SecondOfDay(t: Timestamp): int
  {
    t.hour * 3600 + t.minute * 60 + t.second
  }

  /** Seconds from 0001-01-01 00:00:00 to `t`, microseconds dropped: the time line at second resolution. */
  function EpochSecond(t: Timestamp): int
    requires Valid(t)
  {
    DayNumber(t) * 86400 + SecondOfDay(t)
  }

  /** Microseconds from 0001-01-01 00:00:00 to `t`: the full resolution of `datetime`. */
  function EpochMicrosecond(t: Timestamp): int
    requires Valid(t)
  {
    EpochSecond(t) * 1000000 + t.microsecond
  }

  /** `t1`'s calendar fields down to the second come first in dictionary order. */
  predicate FieldsBefore(t1: Timestamp, t2: Timestamp)
  {
    || t1.year < t2.year
    || (t1.year == t2.year && t1.month < t2.month)
    || (t1.year == t2.year && t1.month == t2.month && t1.day < t2.day)
    || (t1.year == t2.year && t1.month == t2.month && t1.day == t2.day && SecondsBefore(t1, t2))
  }

  predicate SecondsBefore(t1: Timestamp, t2: Timestamp)
  {
    || t1.hour < t2.hour
    || (t1.hour == t2.hour && t1.minute < t2.minute)
    || (t1.hour == t2.hour && t1.minute == t2.minute && t1.second < t2.second)
  }

  /** The two timestamps fall in the same second. */
  predicate SameSecond(t1: Timestamp, t2: Timestamp)
  {
    && t1.year == t2.year && t1.month == t2.month && t1.day == t2.day
    && t1.hour == t2.hour && t1.minute == t2.minute && t1.second == t2.second
  }

  lemma {:induction false} DaysBeforeMonthGrows(y: int, m1: int, m2: int)
    requires 1 <= m1 < m2 <= 13
    ensures DaysBeforeMonth(y, m1) + DaysInMonth(y, m1) <= DaysBeforeMonth(y, m2)
  {
    if m1 < m2 - 1 {
      DaysBeforeMonthGrows(y, m1, m2 - 1);
    }
  }

  lemma {:induction false} DaysBeforeYearGrows(y1: int, y2: int)
    requires 1 <= y1 < y2
    ensures DaysBeforeYear(y1) + DaysInYear(y1) <= DaysBeforeYear(y2)
  {
    if y1 < y2 - 1 {
      DaysBeforeYearGrows(y1, y2 - 1);
    }
  }

  /** The day of the year of a valid date lies within that year. */
  lemma DayOfYearBound(t: Timestamp)
    requires Valid(t)
    ensures DaysBeforeMonth(t.year, t.month) + t.day - 1 < DaysInYear(t.year)
  {
    DaysBeforeMonthGrows(t.year, t.month, 13);
  }

  lemma DayNumberIncreases(t1: Timestamp, t2: Timestamp)
    requires Valid(t1) && Valid(t2)
    requires t1.year < t2.year || (t1.year == t2.year && t1.month < t2.month)
             || (t1.year == t2.year && t1.month == t2.month && t1.day < t2.day)
    ensures DayNumber(t1) < DayNumber(t2)
  {
    if t1.year < t2.year {
      DayOfYearBound(t1);
      DaysBeforeYearGrows(t1.year, t2.year);
    } else if t1.month < t2.month {
      DaysBeforeMonthGrows(t1.year, t1.month, t2.month);
    }
  }

  /**
   * Dictionary order on the calendar fields is chronological order: it agrees
   * with the order of the timestamps on the time line at second resolution.
   */
  lemma FieldsOrderIsChronological(t1: Timestamp, t2: Timestamp)
    requires Valid(t1) && Valid(t2)
    ensures FieldsBefore(t1, t2) <==> EpochSecond(t1) < EpochSecond(t2)
    ensures SameSecond(t1, t2) <==> EpochSecond(t1) == EpochSecond(t2)
  {
    var sameDay := t1.year == t2.year && t1.month == t2.month && t1.day == t2.day;
    if !sameDay {
      if FieldsBefore(t1, t2) {
        DayNumberIncreases(t1, t2);
      } else {
        DayNumberIncreases(t2, t1);
      }
    }
  }

  /** A later instant never falls in an earlier second. */
  lemma SecondsFollowMicroseconds(t1: Timestamp, t2: Timestamp)
    requires Valid(t1) && Valid(t2)
    requires EpochMicrosecond(t1) <= EpochMicrosecond(t2)
    ensures EpochSecond(t1) <= EpochSecond(t2)
  {
  }
}
