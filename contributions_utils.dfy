/** The period aggregation shared by the GitHub, Twitter and reading panels
    (src/utils/contributionsUtils.ts): the total of the last week, month or
    year, the cycling of the view, the normalisation of record dates to the
    start of their day, and the date range shown under each heatmap. */
module ContributionsUtils {
  import opened Dates
  import opened Sums

  /** The three views a panel can show, in the order the toggle visits them. */
  datatype View = Week | Month | Year

  /** One dated record of activity: `{ date, count }`. */
  datatype Contribution = Contribution(date: Timestamp, count: int)

  /** The start of the window `getContributionsForPeriod` sums over: seven
      whole days before now for the week, and never after now. */
  function WindowStart(period: View, clock: Clock): (start: Timestamp)
    ensures period == Week ==> start == clock.now - 7 * DAY_MS
    ensures clock.Valid() ==> start <= clock.now
  {
    match period
    case Week => SubWeeks(clock.now, 1)
    case Month => clock.oneMonthAgo
    case Year => clock.oneYearAgo
  }

  /** The filter test: the record's start of day lies in `[start, end]`.
      Its upper end compares a day start with an instant, so a record counts
      exactly when its day is not after the day of `end`. */
  predicate InWindow(c: Contribution, start: Timestamp, end: Timestamp)
    ensures InWindow(c, start, end) <==> start <= StartOfDay(c.date) && StartOfDay(c.date) <= StartOfDay(end)
  {
    DayStartBefore(StartOfDay(c.date), end);
    start <= StartOfDay(c.date) <= end
  }

  /** What a record adds to the total of the window `[start, end]`. */
  function WindowWeight(start: Timestamp, end: Timestamp): Contribution -> int {
    c => if InWindow(c, start, end) then c.count else 0
  }

  /** `data.filter(...)`: the records in the window, in their order. */
  function FilterInWindow(data: seq<Contribution>, start: Timestamp, end: Timestamp): (kept: seq<Contribution>)
    ensures |kept| <= |data|
    ensures forall c :: c in kept <==> c in data && InWindow(c, start, end)
  {
    if data == [] then []
    else if InWindow(data[0], start, end) then [data[0]] + FilterInWindow(data[1..], start, end)
    else FilterInWindow(data[1..], start, end)
  }

  function CountOf(c: Contribution): int {
    c.count
  }

  /** `.reduce((sum, day) => sum + day.count, 0)`: the sum of the counts,
      which is not negative when no count is. */
  function SumCounts(data: seq<Contribution>): (total: int)
    ensures total == SumBy(data, CountOf)
    ensures (forall i :: 0 <= i < |data| ==> data[i].count >= 0) ==> total >= 0
  {
    if data == [] then 0 else data[0].count + SumCounts(data[1..])
  }

  /** Filtering and then summing is summing the window weight of every record. */
  lemma {:induction false} FilteredSum(data: seq<Contribution>, start: Timestamp, end: Timestamp)
    ensures SumCounts(FilterInWindow(data, start, end)) == SumBy(data, WindowWeight(start, end))
  {
    if data != [] {
      FilteredSum(data[1..], start, end);
    }
  }

  /** `getContributionsForPeriod(period, data)` with `new Date()` read as
      `clock.now`: the sum of `count` over the records whose start of day
      lies between the window start and now, both ends included. */
  function ContributionsForPeriod(period: View, data: seq<Contribution>, clock: Clock): (total: int)
    ensures data == [] ==> total == 0
    ensures total == SumBy(data, WindowWeight(WindowStart(period, clock), clock.now))
  {
    var start := WindowStart(period, clock);
    FilteredSum(data, start, clock.now);
    SumCounts(FilterInWindow(data, start, clock.now))
  }

  /** The total does not depend on the order of the records. */
  lemma ContributionsForPeriodOrderFree(period: View, a: seq<Contribution>, b: seq<Contribution>, clock: Clock)
    requires multiset(a) == multiset(b)
    ensures ContributionsForPeriod(period, a, clock) == ContributionsForPeriod(period, b, clock)
  {
    SumByPermutation(a, b, WindowWeight(WindowStart(period, clock), clock.now));
  }

  /** Adding a record with a non-negative count, anywhere, never lowers the
      total; it raises it by exactly its count when it lies in the window. */
  lemma ContributionsForPeriodMonotone(period: View, a: seq<Contribution>, r: Contribution, b: seq<Contribution>, clock: Clock)
    requires r.count >= 0
    ensures ContributionsForPeriod(period, a + b, clock) <= ContributionsForPeriod(period, a + [r] + b, clock)
    ensures InWindow(r, WindowStart(period, clock), clock.now) ==>
      ContributionsForPeriod(period, a + [r] + b, clock) == ContributionsForPeriod(period, a + b, clock) + r.count
  {
    SumByInsert(a, r, b, WindowWeight(WindowStart(period, clock), clock.now));
  }

  /** The ends of the window: a record whose day starts exactly at the
      window start is counted, and records whose day starts before the
      window or after now are not. */
  lemma WindowBoundaries(period: View, clock: Clock, r: Contribution)
    requires clock.Valid()
    ensures StartOfDay(r.date) == WindowStart(period, clock) ==> ContributionsForPeriod(period, [r], clock) == r.count
    ensures StartOfDay(r.date) < WindowStart(period, clock) ==> ContributionsForPeriod(period, [r], clock) == 0
    ensures StartOfDay(r.date) > clock.now ==> ContributionsForPeriod(period, [r], clock) == 0
  {
    var w := WindowWeight(WindowStart(period, clock), clock.now);
    assert [r][1..] == [];
    assert SumBy([r], w) == w(r);
  }

  /** A record dated today is counted: its start of day is at most now. In
      the week view this needs nothing more; the month and year views need
      their window to start no later than today. */
  lemma TodayCounted(period: View, clock: Clock, r: Contribution)
    requires SameDay(r.date, clock.now)
    requires period == Week || WindowStart(period, clock) <= StartOfDay(clock.now)
    ensures ContributionsForPeriod(period, [r], clock) == r.count
  {
    var w := WindowWeight(WindowStart(period, clock), clock.now);
    assert [r][1..] == [];
    assert SumBy([r], w) == w(r);
    assert WindowStart(period, clock) <= StartOfDay(clock.now);
  }

  /** The days the week total covers: seven calendar days ending today, or
      eight when now is exactly midnight, because the window starts exactly
      seven days (of `DAY_MS`) before now. */
  lemma WeekWindowDays(clock: Clock, d: Timestamp)
    requires IsDayStart(d)
    ensures WindowStart(Week, clock) == clock.now - 7 * DAY_MS
    ensures WindowStart(Week, clock) <= d <= clock.now <==>
      StartOfDay(clock.now) - (if IsDayStart(clock.now) then 7 else 6) * DAY_MS <= d <= StartOfDay(clock.now)
  {
    var s := StartOfDay(clock.now);
    DayStartBefore(d, clock.now);
    if !IsDayStart(clock.now) {
      assert s < clock.now;
      StartOfDayShift(clock.now, 7);
      if clock.now - 7 * DAY_MS <= d && d < s - 6 * DAY_MS {
        DayStartsApart(s - 7 * DAY_MS, d);
      }
    } else {
      StartOfDayUnique(clock.now, clock.now);
    }
  }

  /** The views in toggle order: `["week", "month", "year"]`. */
  const VIEWS: seq<View> := [Week, Month, Year]

  /** `views.indexOf(v)`. */
  function IndexOf(v: View): (i: nat)
    ensures i < |VIEWS| && VIEWS[i] == v
  {
    match v
    case Week => 0
    case Month => 1
    case Year => 2
  }

  /** `toggleView`: the view handed to the setter, at the next index modulo
      the number of views. */
  function ToggleView(current: View): (next: View)
    ensures IndexOf(next) == (IndexOf(current) + 1) % |VIEWS|
  {
    VIEWS[(IndexOf(current) + 1) % |VIEWS|]
  }

  /** Week goes to month, month to year, year back to week; so the toggle
      always changes the view and three toggles return to the start. */
  lemma ToggleCycle(v: View)
    ensures ToggleView(Week) == Month && ToggleView(Month) == Year && ToggleView(Year) == Week
    ensures ToggleView(v) != v
    ensures ToggleView(ToggleView(ToggleView(v))) == v
  {
  }

  /** `preprocessContributions`: every record with its date moved to the
      start of its day and everything else kept. */
  function PreprocessContributions(cs: seq<Contribution>): (r: seq<Contribution>)
    ensures |r| == |cs|
    ensures forall i :: 0 <= i < |cs| ==>
      r[i].count == cs[i].count && IsDayStart(r[i].date) && r[i].date <= cs[i].date < r[i].date + DAY_MS
  {
    seq(|cs|, i requires 0 <= i < |cs| => cs[i].(date := StartOfDay(cs[i].date)))
  }

  /** Preprocessing twice is preprocessing once. */
  lemma PreprocessIdempotent(cs: seq<Contribution>)
    ensures PreprocessContributions(PreprocessContributions(cs)) == PreprocessContributions(cs)
  {
    var once := PreprocessContributions(cs);
    forall i | 0 <= i < |cs|
      ensures PreprocessContributions(once)[i] == once[i]
    {
      StartOfDayUnique(once[i].date, once[i].date);
    }
  }

  /** The total is the same on preprocessed data, because the filter
      normalises each date to the start of its day itself. */
  lemma ContributionsForPeriodIgnoresPreprocessing(period: View, data: seq<Contribution>, clock: Clock)
    ensures ContributionsForPeriod(period, PreprocessContributions(data), clock) == ContributionsForPeriod(period, data, clock)
  {
    var pre := PreprocessContributions(data);
    var w := WindowWeight(WindowStart(period, clock), clock.now);
    forall i | 0 <= i < |data|
      ensures w(pre[i]) == w(data[i])
    {
      StartOfDayIdempotent(data[i].date);
    }
    SumByPointwise(pre, w, data, w);
  }

  /** The start and end of the range `getContributionsPeriod` prints. */
  datatype Period = Period(start: Timestamp, end: Timestamp)

  /** `getContributionsPeriod`, before formatting: its own switch picks the
      same start as the aggregation's for every view, and it ends now. */
  function ContributionsPeriod(view: View, clock: Clock): (p: Period)
    ensures p.start == WindowStart(view, clock) && p.end == clock.now
  {
    var start :=
      match view
      case Week => SubWeeks(clock.now, 1)
      case Month => clock.oneMonthAgo
      case Year => clock.oneYearAgo;
    Period(start, clock.now)
  }
}
