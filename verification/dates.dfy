/**
  Calendar days as integers. Day 0 is Monday 29 December 1969, so the ISO 8601
  day-of-week offset from Monday of day `d` is `d % 7` (Dafny's `%` is
  Euclidean, which keeps this right for days before the epoch as well).
  Monday 1 January 2024 is day 19726.
 */
module Dates {

  /** True of the days on which an ISO 8601 week starts. */
  predicate IsMonday(d: int)
  {
    d % 7 == 0
  }

  /** Days since the Monday of `d`'s week: Python's `date.weekday()`. */
  function Weekday(d: int): (w: nat)
    ensures w < 7
    ensures IsMonday(d - w)
  {
    d % 7
  }

  /**
    The Monday on or before `d`: PostgreSQL's `DATE_TRUNC('week', d)` and
    the dashboard's `d - timedelta(d.weekday())`.
   */
  function WeekStart(d: int): (s: int)
    ensures IsMonday(s)
    ensures s <= d < s + 7
  {
    d - Weekday(d)
  }

  /** The last day of the week starting on `start`: `start + 6 days`. */
  function WeekEnd(start: int): int
  {
    start + 6
  }

  /** The week bucket is unique: a Monday `s` with `s <= d < s + 7` is `WeekStart(d)`. */
  lemma WeekStartUnique(d: int, s: int)
    requires IsMonday(s) && s <= d < s + 7
    ensures WeekStart(d) == s
  {
    var t := WeekStart(d);
    assert IsMonday(t) && t <= d < t + 7;
    assert (s - t) % 7 == 0 by { ModDifference(s, t); }
    assert -7 < s - t < 7;
  }

  /** Two Mondays differ by a multiple of seven. */
  lemma ModDifference(s: int, t: int)
    requires IsMonday(s) && IsMonday(t)
    ensures (s - t) % 7 == 0
  {
    var a := s / 7;
    var b := t / 7;
    assert s == 7 * a;
    assert t == 7 * b;
    assert s - t == 7 * (a - b);
  }

  /** Truncating a Monday leaves it where it is, so truncation is idempotent. */
  lemma WeekStartOfMonday(d: int)
    requires IsMonday(d)
    ensures WeekStart(d) == d
  {
  }

  /** Two days share a bucket exactly when they lie in the same seven-day window. */
  lemma SameWeek(d: int, e: int)
    ensures WeekStart(d) == WeekStart(e) <==> WeekStart(d) <= e < WeekStart(d) + 7
  {
    if WeekStart(d) <= e < WeekStart(d) + 7 {
      WeekStartUnique(e, WeekStart(d));
    }
  }
}
