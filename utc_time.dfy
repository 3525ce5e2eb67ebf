/**
  UTC day and week boundaries. An instant is a whole number of seconds since
  1970-01-01T00:00:00Z; Dafny's `/` and `%` on `int` round towards minus
  infinity for a positive divisor, as Python's datetime arithmetic does, so
  instants before the epoch land on the right day as well.
 */
module UtcTime {
  const SecondsPerDay: int := 86400
  const DaysPerWeek: int := 7

  /** True of an instant that is exactly 00:00:00 UTC of some day. */
  predicate IsMidnight(t: int) {
    t % SecondsPerDay == 0
  }

  /** Python's `datetime.weekday()`: Monday is 0 and Sunday is 6. Day 0 of the epoch was a Thursday. */
  function Weekday(t: int): (w: int)
    ensures 0 <= w < DaysPerWeek
  {
    (t / SecondsPerDay + 3) % DaysPerWeek
  }

  /** `start_of_today_utc`: midnight of the UTC day that contains `t`. */
  function StartOfToday(t: int): (s: int)
    ensures IsMidnight(s)
    ensures s <= t < s + SecondsPerDay
  {
    t - t % SecondsPerDay
  }

  /** `start_of_week_utc`: midnight of the most recent Monday (today, when today is a Monday). */
  function StartOfWeek(t: int): (s: int)
    ensures IsMidnight(s) && Weekday(s) == 0
    ensures s <= StartOfToday(t) <= s + 6 * SecondsPerDay
    ensures s <= t < s + DaysPerWeek * SecondsPerDay
    ensures Weekday(t) == 0 ==> s == StartOfToday(t)
  {
    var d := t / SecondsPerDay;
    var w := (d + 3) % DaysPerWeek;
    assert StartOfToday(t) == d * SecondsPerDay;
    var s := (d - w) * SecondsPerDay;
    assert s / SecondsPerDay == d - w;
    assert (d - w + 3) % DaysPerWeek == 0;
    s
  }

  /** Midnight is the only midnight within a day of the instants following it. */
  lemma StartOfTodayUnique(t: int, s: int)
    requires IsMidnight(s) && s <= t < s + SecondsPerDay
    ensures s == StartOfToday(t)
  {
    var m := StartOfToday(t);
    assert m - s < SecondsPerDay && s - m < SecondsPerDay;
    assert (m - s) % SecondsPerDay == 0;
  }

  /** Every instant from a midnight up to the next one shares that day's start. */
  lemma SameUtcDay(t: int, u: int)
    requires StartOfToday(t) <= u < StartOfToday(t) + SecondsPerDay
    ensures StartOfToday(u) == StartOfToday(t)
  {
    StartOfTodayUnique(u, StartOfToday(t));
  }

  /** Two Monday day numbers less than a week apart are the same day. */
  lemma MondaysAWeekApart(dm: int, ds: int)
    requires (dm + 3) % DaysPerWeek == 0 && (ds + 3) % DaysPerWeek == 0
    requires dm < ds + DaysPerWeek
    ensures dm <= ds
  {
    var a, b := (dm + 3) / DaysPerWeek, (ds + 3) / DaysPerWeek;
    assert dm + 3 == DaysPerWeek * a && ds + 3 == DaysPerWeek * b;
  }

  /** The week's start is the latest Monday midnight not after `t`. */
  lemma StartOfWeekIsLatestMonday(t: int, m: int)
    requires IsMidnight(m) && Weekday(m) == 0 && m <= t
    ensures m <= StartOfWeek(t)
  {
    var s := StartOfWeek(t);
    var d, dm, ds := t / SecondsPerDay, m / SecondsPerDay, s / SecondsPerDay;
    assert m == dm * SecondsPerDay;
    assert s == ds * SecondsPerDay;
    assert t == d * SecondsPerDay + t % SecondsPerDay;
    assert dm <= d;
    assert d < ds + DaysPerWeek;
    MondaysAWeekApart(dm, ds);
  }

  /** Every instant of a UTC day has that day's weekday: the weekday of its midnight. */
  lemma WeekdayOfItsDay(t: int)
    ensures Weekday(t) == Weekday(StartOfToday(t))
  {
    assert StartOfToday(t) / SecondsPerDay == t / SecondsPerDay;
  }

  /** The day after a given day falls on the next weekday, Sunday wrapping to Monday. */
  lemma WeekdayNextDay(t: int)
    ensures Weekday(t + SecondsPerDay) == (Weekday(t) + 1) % DaysPerWeek
  {
    assert (t + SecondsPerDay) / SecondsPerDay == t / SecondsPerDay + 1;
  }

  /** 1970-01-05 (day 4 of the epoch) was a Monday, and 1970-01-01 a Thursday. */
  lemma EpochWeekdays()
    ensures Weekday(0) == 3
    ensures Weekday(4 * SecondsPerDay) == 0
  {
  }
}
