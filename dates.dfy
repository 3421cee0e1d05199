/** Instants and calendar days.

    An instant is an integer number of milliseconds in the one fixed timezone
    in which the dashboard draws its calendar; that timezone has no daylight
    saving, so every calendar day is exactly DAY_MS long and starts at a
    multiple of DAY_MS. */
module Dates {

  type Timestamp = int

  const DAY_MS: int := 86_400_000

  /** A calendar day is identified by the instant at which it starts. */
  predicate IsDayStart(t: Timestamp) {
    t % DAY_MS == 0
  }

  /** date-fns `startOfDay`: midnight of the day that contains `t`. */
  function StartOfDay(t: Timestamp): (r: Timestamp)
    ensures IsDayStart(r)
    ensures r <= t < r + DAY_MS
  {
    t - t % DAY_MS
  }

  /** Two instants are on the same calendar day: what comparing their
      `format(_, "yyyy-MM-dd")` strings decides. */
  predicate SameDay(a: Timestamp, b: Timestamp) {
    StartOfDay(a) == StartOfDay(b)
  }

  /** date-fns `subDays`: `n` calendar days earlier. */
  function SubDays(t: Timestamp, n: int): Timestamp {
    t - n * DAY_MS
  }

  /** date-fns `subWeeks`: `n` weeks of seven calendar days earlier. */
  function SubWeeks(t: Timestamp, n: int): Timestamp {
    SubDays(t, 7 * n)
  }

  /** The day start `d` is the start of the day of `t` exactly when `t` lies
      in the day that begins at `d`. */
  lemma StartOfDayUnique(d: Timestamp, t: Timestamp)
    requires IsDayStart(d)
    ensures StartOfDay(t) == d <==> d <= t < d + DAY_MS
  {
    var s := StartOfDay(t);
    if d <= t < d + DAY_MS {
      if s < d {
        DayStartsApart(s, d);
      } else if d < s {
        DayStartsApart(d, s);
      }
    }
  }

  /** Two distinct day starts are at least one day apart. */
  lemma DayStartsApart(a: Timestamp, b: Timestamp)
    requires IsDayStart(a) && IsDayStart(b) && a < b
    ensures a + DAY_MS <= b
  {
    var qa, qb := a / DAY_MS, b / DAY_MS;
    assert a == qa * DAY_MS;
    assert b == qb * DAY_MS;
    if qb <= qa {
      MulMonotone(qb, qa);
      assert false;
    }
    MulMonotone(qa + 1, qb);
  }

  lemma MulMonotone(x: int, y: int)
    requires x <= y
    ensures x * DAY_MS <= y * DAY_MS
  {
  }

  /** A day start is at or before `t` exactly when it is at or before the
      start of `t`'s day: this is why a record of today passes `<= now`. */
  lemma DayStartBefore(d: Timestamp, t: Timestamp)
    requires IsDayStart(d)
    ensures d <= t <==> d <= StartOfDay(t)
  {
    var s := StartOfDay(t);
    if d <= t && s < d {
      DayStartsApart(s, d);
    }
  }

  /** `StartOfDay` is idempotent. */
  lemma StartOfDayIdempotent(t: Timestamp)
    ensures StartOfDay(StartOfDay(t)) == StartOfDay(t)
  {
    StartOfDayUnique(StartOfDay(t), StartOfDay(t));
  }

  /** Shifting an instant by whole days shifts its day start by the same. */
  lemma StartOfDayShift(t: Timestamp, n: int)
    ensures StartOfDay(SubDays(t, n)) == StartOfDay(t) - n * DAY_MS
  {
    var d := StartOfDay(t) - n * DAY_MS;
    assert IsDayStart(d) by {
      assert StartOfDay(t) == (t / DAY_MS) * DAY_MS;
      assert d == (t / DAY_MS - n) * DAY_MS;
    }
    StartOfDayUnique(d, SubDays(t, n));
  }

  /** What is computed from the current instant. `now` is `new Date()`;
      `oneMonthAgo` is `subMonths(now, 1)` and `oneYearAgo` is
      `subYears(now, 1)`, whose calendar arithmetic is not modelled; and
      `yearViewStart` is `getStartDate("year")`, which the grid imports from
      src/utils/contributionsUtils.ts although that file does not define it. */
  datatype Clock = Clock(now: Timestamp, oneMonthAgo: Timestamp, oneYearAgo: Timestamp, yearViewStart: Timestamp)
  {
    /** All that is assumed of the calendar arithmetic: it goes back in time. */
    predicate Valid() {
      oneMonthAgo <= now && oneYearAgo <= now && yearViewStart <= now
    }
  }
}
