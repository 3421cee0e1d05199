/** The heatmap grid (src/components/ContributionsGraph/ContributionsGraph.tsx):
    one cell per calendar day from the grid's start day to today, each with
    the count of the first record dated that day, laid out in 7 or 53
    columns. */
module ContributionsGraph {
  import opened Dates
  import opened Sums
  import opened ContributionsUtils
  import opened Text

  datatype Option<T> = None | Some(value: T)

  /** The grid's `startDate`: six days back for the week, thirty for the
      month, and `getStartDate("year")` for the year. These are not the
      windows of the aggregation, which go back one week, month or year. */
  function GridStart(view: View, clock: Clock): (start: Timestamp)
    ensures clock.Valid() ==> start <= clock.now
    ensures view != Year ==> StartOfDay(start) == StartOfDay(clock.now) - (if view == Week then 6 else 30) * DAY_MS
  {
    if view == Year then clock.yearViewStart
    else
      var n := if view == Week then 6 else 30;
      StartOfDayShift(clock.now, n);
      SubDays(clock.now, n)
  }

  /** The walk of `eachDayOfInterval`: from the day start `day`, one day at a
      time, while the day is not after `end`. */
  function DaysFrom(day: Timestamp, end: Timestamp): (days: seq<Timestamp>)
    ensures forall i :: 0 <= i < |days| ==> days[i] == day + i * DAY_MS
    ensures day <= end ==> |days| > 0 && days[|days| - 1] <= end < days[|days| - 1] + DAY_MS
    ensures day > end ==> days == []
    decreases end - day
  {
    if day > end then [] else [day] + DaysFrom(day + DAY_MS, end)
  }

  /** `eachDayOfInterval({ start, end })`: the start of every calendar day
      from the day of `start` to the day of `end`, one day apart. */
  function EachDayOfInterval(start: Timestamp, end: Timestamp): (days: seq<Timestamp>)
    ensures forall i :: 0 <= i < |days| ==> IsDayStart(days[i]) && days[i] == StartOfDay(start) + i * DAY_MS
    ensures |days| > 0 <==> StartOfDay(start) <= end
    ensures |days| > 0 ==> days[|days| - 1] == StartOfDay(end)
  {
    DaysFromDayStarts(StartOfDay(start), end);
    DaysFrom(StartOfDay(start), end)
  }

  /** Walking from a day start gives day starts, the last of them the day
      of `end`. */
  lemma DaysFromDayStarts(day: Timestamp, end: Timestamp)
    requires IsDayStart(day)
    ensures var days := DaysFrom(day, end);
      && (forall i :: 0 <= i < |days| ==> IsDayStart(days[i]))
      && (|days| > 0 ==> days[|days| - 1] == StartOfDay(end))
  {
    var days := DaysFrom(day, end);
    forall i | 0 <= i < |days|
      ensures IsDayStart(days[i])
    {
      assert days[i] == (day / DAY_MS + i) * DAY_MS;
    }
    if |days| > 0 {
      StartOfDayUnique(days[|days| - 1], end);
    }
  }

  /** The days the grid draws: from the grid's start day to today, one day
      apart, each a day start. */
  function GridDays(view: View, clock: Clock): (days: seq<Timestamp>)
    ensures forall i :: 0 <= i < |days| ==> IsDayStart(days[i])
    ensures forall i :: 0 <= i < |days| - 1 ==> days[i + 1] == days[i] + DAY_MS
    ensures clock.Valid() ==>
      && |days| > 0
      && days[0] == StartOfDay(GridStart(view, clock))
      && days[|days| - 1] == StartOfDay(clock.now)
  {
    EachDayOfInterval(GridStart(view, clock), clock.now)
  }

  /** The days of the walk are exactly the day starts from its first day to
      the day of `end`. */
  lemma DaysFromMembers(day: Timestamp, end: Timestamp, d: Timestamp)
    requires IsDayStart(day) && IsDayStart(d)
    ensures d in DaysFrom(day, end) <==> day <= d <= end
  {
    var days := DaysFrom(day, end);
    if day <= d <= end {
      var k := (d - day) / DAY_MS;
      assert d - day == k * DAY_MS by {
        assert d == (d / DAY_MS) * DAY_MS && day == (day / DAY_MS) * DAY_MS;
        assert d - day == (d / DAY_MS - day / DAY_MS) * DAY_MS;
      }
      assert k < |days|;
      assert days[k] == d;
    }
  }

  /** The week grid has 7 cells and the month grid 31: six and thirty days
      back, plus today. */
  lemma WeekAndMonthGridLength(clock: Clock)
    ensures |GridDays(Week, clock)| == 7
    ensures |GridDays(Month, clock)| == 31
  {
    GridLength(clock, 6);
    GridLength(clock, 30);
  }

  lemma GridLength(clock: Clock, n: nat)
    ensures |EachDayOfInterval(SubDays(clock.now, n), clock.now)| == n + 1
  {
    var s := StartOfDay(clock.now);
    StartOfDayShift(clock.now, n);
    var days := EachDayOfInterval(SubDays(clock.now, n), clock.now);
    var m := |days|;
    assert days[m - 1] == s - n * DAY_MS + (m - 1) * DAY_MS;
    if m < n + 1 {
      MulMonotone(m, n);
      assert false;
    } else if m > n + 1 {
      MulMonotone(n + 1, m - 1);
      assert false;
    }
  }

  /** `data.find(...)`: the first record on the same calendar day as `day`. */
  function FindOnDay(data: seq<Contribution>, day: Timestamp): (found: Option<Contribution>)
    ensures found.Some? ==> found.value in data && SameDay(found.value.date, day)
    ensures found.None? <==> forall c :: c in data ==> !SameDay(c.date, day)
  {
    if data == [] then None
    else if SameDay(data[0].date, day) then Some(data[0])
    else FindOnDay(data[1..], day)
  }

  /** The record `find` returns is the first one of that day in `data` order. */
  lemma {:induction false} FindReturnsFirst(data: seq<Contribution>, k: nat, day: Timestamp)
    requires k < |data| && SameDay(data[k].date, day)
    requires forall j :: 0 <= j < k ==> !SameDay(data[j].date, day)
    ensures FindOnDay(data, day) == Some(data[k])
  {
    if k > 0 {
      FindReturnsFirst(data[1..], k - 1, day);
    }
  }

  /** `getDayData`: a record of the day when there is one, and a zero record
      for the day otherwise. */
  function DayData(data: seq<Contribution>, day: Timestamp): (c: Contribution)
    ensures (exists r :: r in data && SameDay(r.date, day)) ==> c in data && SameDay(c.date, day)
    ensures (forall r :: r in data ==> !SameDay(r.date, day)) ==> c == Contribution(day, 0)
  {
    match FindOnDay(data, day)
    case Some(c) => c
    case None => Contribution(day, 0)
  }

  /** One `ContributionCell` of the grid: its day and its count. */
  datatype Cell = Cell(day: Timestamp, count: int)

  function CellCount(c: Cell): int {
    c.count
  }

  /** `days.map(day => ...)`: one cell per day, in the same order. */
  function CellsFor(days: seq<Timestamp>, data: seq<Contribution>): (cells: seq<Cell>)
    ensures |cells| == |days|
    ensures forall i :: 0 <= i < |days| ==> cells[i] == Cell(days[i], DayData(data, days[i]).count)
  {
    if days == [] then [] else [Cell(days[0], DayData(data, days[0]).count)] + CellsFor(days[1..], data)
  }

  /** The cells the grid renders for `view`: 7 for the week, 31 for the
      month, and always ending with today's cell. */
  function BuildGrid(view: View, data: seq<Contribution>, clock: Clock): (cells: seq<Cell>)
    ensures |cells| == |GridDays(view, clock)|
    ensures view == Week ==> |cells| == 7
    ensures view == Month ==> |cells| == 31
    ensures clock.Valid() ==> |cells| > 0 && cells[|cells| - 1].day == StartOfDay(clock.now)
  {
    WeekAndMonthGridLength(clock);
    CellsFor(GridDays(view, clock), data)
  }

  /** The sum of the counts the cells show. */
  function SumCells(cells: seq<Cell>): int {
    SumBy(cells, CellCount)
  }

  /** A cell shows the count of the first record of its day, and 0 when no
      record is dated that day; later records of the same day are ignored. */
  lemma GridCellCount(view: View, data: seq<Contribution>, clock: Clock, i: nat)
    requires i < |GridDays(view, clock)|
    ensures var cell := BuildGrid(view, data, clock)[i];
      && cell.day == GridDays(view, clock)[i]
      && ((forall c :: c in data ==> !SameDay(c.date, cell.day)) ==> cell.count == 0)
      && (forall k :: (0 <= k < |data| && SameDay(data[k].date, cell.day)
                       && (forall j :: 0 <= j < k ==> !SameDay(data[j].date, cell.day)))
                      ==> cell.count == data[k].count)
  {
    var day := GridDays(view, clock)[i];
    forall k | 0 <= k < |data| && SameDay(data[k].date, day) && (forall j :: 0 <= j < k ==> !SameDay(data[j].date, day))
      ensures DayData(data, day).count == data[k].count
    {
      FindReturnsFirst(data, k, day);
    }
  }

  /** Two records of one day are not summed: the cell shows the first. */
  lemma DuplicateDayShowsFirst(day: Timestamp, a: Contribution, b: Contribution)
    requires SameDay(a.date, day) && SameDay(b.date, day)
    ensures CellsFor([day], [a, b]) == [Cell(day, a.count)]
  {
  }

  /** At most one record per calendar day. */
  predicate AtMostOnePerDay(data: seq<Contribution>) {
    forall i, j :: 0 <= i < j < |data| ==> !SameDay(data[i].date, data[j].date)
  }

  /** Day starts in strictly ascending order. */
  predicate AscendingDays(days: seq<Timestamp>) {
    (forall i :: 0 <= i < |days| ==> IsDayStart(days[i])) &&
    (forall i, j :: 0 <= i < j < |days| ==> days[i] < days[j])
  }

  lemma {:induction false} CellsWithoutData(days: seq<Timestamp>)
    ensures SumCells(CellsFor(days, [])) == 0
  {
    if days != [] {
      CellsWithoutData(days[1..]);
    }
  }

  /** Putting a record of a day no other record has in front of the data
      adds its count to the grid total exactly when its day is drawn. */
  lemma {:induction false} CellsSumCons(days: seq<Timestamp>, r: Contribution, rest: seq<Contribution>)
    requires AscendingDays(days)
    requires forall c :: c in rest ==> !SameDay(c.date, r.date)
    ensures SumCells(CellsFor(days, [r] + rest)) ==
      SumCells(CellsFor(days, rest)) + (if StartOfDay(r.date) in days then r.count else 0)
  {
    if days != [] {
      var d := days[0];
      assert ([r] + rest)[0] == r && ([r] + rest)[1..] == rest;
      StartOfDayUnique(d, d);
      CellsSumCons(days[1..], r, rest);
      assert days == [d] + days[1..];
      assert StartOfDay(r.date) in days <==> StartOfDay(r.date) == d || StartOfDay(r.date) in days[1..];
      if SameDay(r.date, d) {
        assert FindOnDay(rest, d).None?;
        assert StartOfDay(r.date) !in days[1..];
      }
    }
  }

  /** With at most one record per day, the grid total is the total of the
      records whose day is drawn. */
  lemma {:induction false} CellsSumMatchesWindow(days: seq<Timestamp>, data: seq<Contribution>, lo: Timestamp, hi: Timestamp)
    requires AscendingDays(days)
    requires forall d :: IsDayStart(d) ==> (d in days <==> lo <= d <= hi)
    requires AtMostOnePerDay(data)
    ensures SumCells(CellsFor(days, data)) == SumBy(data, WindowWeight(lo, hi))
  {
    if data == [] {
      CellsWithoutData(days);
    } else {
      var r, rest := data[0], data[1..];
      assert data == [r] + rest;
      forall c | c in rest
        ensures !SameDay(c.date, r.date)
      {
        var j :| 0 <= j < |rest| && rest[j] == c;
        assert data[j + 1] == c;
      }
      assert AtMostOnePerDay(rest) by {
        forall i, j | 0 <= i < j < |rest|
          ensures !SameDay(rest[i].date, rest[j].date)
        {
          assert rest[i] == data[i + 1] && rest[j] == data[j + 1];
        }
      }
      CellsSumCons(days, r, rest);
      CellsSumMatchesWindow(days, rest, lo, hi);
    }
  }

  /** With at most one record per day, the counts the grid shows add up to
      the counts of the records dated from the grid's start day through
      today. */
  lemma GridTotal(view: View, data: seq<Contribution>, clock: Clock)
    requires AtMostOnePerDay(data)
    ensures SumCells(BuildGrid(view, data, clock)) ==
      SumCounts(FilterInWindow(data, StartOfDay(GridStart(view, clock)), clock.now))
  {
    var first := StartOfDay(GridStart(view, clock));
    var days := GridDays(view, clock);
    assert AscendingDays(days) by {
      forall i | 0 <= i < |days|
        ensures IsDayStart(days[i])
      {
        assert days[i] == (first / DAY_MS + i) * DAY_MS;
      }
    }
    forall d | IsDayStart(d)
      ensures d in days <==> first <= d <= clock.now
    {
      DaysFromMembers(first, clock.now, d);
    }
    CellsSumMatchesWindow(days, data, first, clock.now);
    FilteredSum(data, first, clock.now);
  }

  /** When now is not exactly midnight and there is at most one record per
      day, the week grid adds up to the week total the panel prints. */
  lemma WeekGridMatchesWeekTotal(data: seq<Contribution>, clock: Clock)
    requires AtMostOnePerDay(data)
    requires !IsDayStart(clock.now)
    ensures SumCells(BuildGrid(Week, data, clock)) == ContributionsForPeriod(Week, data, clock)
  {
    var first := StartOfDay(GridStart(Week, clock));
    StartOfDayShift(clock.now, 6);
    GridTotal(Week, data, clock);
    FilteredSum(data, first, clock.now);
    var wGrid := WindowWeight(first, clock.now);
    var wTotal := WindowWeight(WindowStart(Week, clock), clock.now);
    forall i | 0 <= i < |data|
      ensures wGrid(data[i]) == wTotal(data[i])
    {
      WeekWindowDays(clock, StartOfDay(data[i].date));
    }
    SumByPointwise(data, wGrid, data, wTotal);
  }

  /** When now is exactly midnight the two disagree: a record of the day
      seven days back is in the week total but has no cell. */
  lemma MidnightWeekMismatch(clock: Clock, r: Contribution)
    requires IsDayStart(clock.now)
    requires SameDay(r.date, clock.now - 7 * DAY_MS)
    ensures ContributionsForPeriod(Week, [r], clock) == r.count
    ensures SumCells(BuildGrid(Week, [r], clock)) == 0
  {
    var w := WindowWeight(WindowStart(Week, clock), clock.now);
    assert [r][1..] == [];
    assert SumBy([r], w) == w(r);
    StartOfDayUnique(clock.now, clock.now);
    StartOfDayShift(clock.now, 7);
    WeekWindowDays(clock, StartOfDay(r.date));
    GridTotal(Week, [r], clock);
    StartOfDayShift(clock.now, 6);
    assert FilterInWindow([r], StartOfDay(GridStart(Week, clock)), clock.now) == [];
  }

  /** The column class of the grid: 7 columns, or 53 for the year. */
  function ColumnsClass(view: View): (cls: string)
    ensures |cls| > 10 && cls[..10] == "grid-cols-" && ' ' !in cls
  {
    if view == Year then "grid-cols-[repeat(53,_1fr)]" else "grid-cols-7"
  }

  /** The digit of the grid's `gap-` class. */
  function GapSize(view: View): (digit: string)
    ensures |digit| == 1 && ' ' !in digit
  {
    match view
    case Week => "3"
    case Month => "2"
    case Year => "1"
  }

  /** `getGridClasses`: the column class, then the gap between cells. */
  function GridClasses(view: View): (classes: string)
    ensures |classes| >= 16 && classes[..10] == "grid-cols-" && classes[|classes| - 6..|classes| - 1] == " gap-"
  {
    ColumnsClass(view) + " gap-" + GapSize(view)
  }

  /** The digits of the `px-` and `py-` classes around the grid. */
  function PaddingSizes(view: View): (sizes: (string, string))
    ensures |sizes.0| == 2 && ' ' !in sizes.0 && |sizes.1| > 0 && ' ' !in sizes.1
  {
    match view
    case Week => ("24", "16")
    case Month => ("28", "14")
    case Year => ("10", "8")
  }

  /** `getContainerClasses`: the horizontal, then the vertical padding around
      the grid. */
  function ContainerClasses(view: View): (classes: string)
    ensures |classes| >= 10 && classes[..3] == "px-" && classes[5..9] == " py-"
  {
    var (x, y) := PaddingSizes(view);
    "px-" + x + " py-" + y
  }

  /** The number a Tailwind class `<prefix>N` names, and 0 for a class with
      another prefix. */
  function ClassValue(cls: string, prefix: string): int {
    if |prefix| <= |cls| && cls[..|prefix|] == prefix then ParseNat(cls[|prefix|..]) else 0
  }

  /** The gap, in Tailwind spacing units, named by the second class of the
      grid classes. */
  function Gap(gridClasses: string): int {
    ClassValue(BeforeFirst(AfterFirst(gridClasses, ' '), ' '), "gap-")
  }

  /** The horizontal and vertical padding, in Tailwind spacing units, named
      by the first and second classes of the container classes. */
  function Padding(containerClasses: string): (int, int) {
    (ClassValue(BeforeFirst(containerClasses, ' '), "px-"),
     ClassValue(BeforeFirst(AfterFirst(containerClasses, ' '), ' '), "py-"))
  }

  /** The gap between cells shrinks with the cells, from 3 units for the
      week to 1 for the year. */
  lemma GapByView()
    ensures Gap(GridClasses(Week)) == 3 && Gap(GridClasses(Month)) == 2 && Gap(GridClasses(Year)) == 1
  {
    GapReads(Week);
    GapReads(Month);
    GapReads(Year);
    OneDigit(GapSize(Week));
    OneDigit(GapSize(Month));
    OneDigit(GapSize(Year));
  }

  /** The padding around the grid: 24×16 for the week, 28×14 for the month
      and 10×8, the least, for the year. */
  lemma PaddingByView()
    ensures Padding(ContainerClasses(Week)) == (24, 16)
    ensures Padding(ContainerClasses(Month)) == (28, 14)
    ensures Padding(ContainerClasses(Year)) == (10, 8)
  {
    PaddingReads(Week);
    PaddingReads(Month);
    PaddingReads(Year);
    TwoDigits("24");
    TwoDigits("16");
    TwoDigits("28");
    TwoDigits("14");
    TwoDigits("10");
  }

  /** The gap read back from the grid's class string. */
  lemma GapReads(view: View)
    ensures Gap(GridClasses(view)) == ParseNat(GapSize(view))
  {
    var columns, digit := ColumnsClass(view), GapSize(view);
    assert GridClasses(view) == columns + " " + ("gap-" + digit);
    TwoClasses(columns, "gap-" + digit);
    PrefixedValue("gap-", digit);
  }

  /** The padding read back from the container's class string. */
  lemma PaddingReads(view: View)
    ensures Padding(ContainerClasses(view)) == (ParseNat(PaddingSizes(view).0), ParseNat(PaddingSizes(view).1))
  {
    var (x, y) := PaddingSizes(view);
    assert ContainerClasses(view) == ("px-" + x) + " " + ("py-" + y);
    TwoClasses("px-" + x, "py-" + y);
    PrefixedValue("px-", x);
    PrefixedValue("py-", y);
  }

  /** The first and second of two space-separated classes. */
  lemma TwoClasses(a: string, b: string)
    requires ' ' !in a && ' ' !in b
    ensures BeforeFirst(a + " " + b, ' ') == a
    ensures BeforeFirst(AfterFirst(a + " " + b, ' '), ' ') == b
  {
    assert a + " " + b == a + (" " + b);
    BeforeFirstOfJoin(a, " " + b, ' ');
    AfterFirstOfJoin(a, b, ' ');
    BeforeFirstWhole(b, ' ');
  }

  lemma PrefixedValue(prefix: string, n: string)
    ensures ClassValue(prefix + n, prefix) == ParseNat(n)
  {
    assert (prefix + n)[..|prefix|] == prefix && (prefix + n)[|prefix|..] == n;
  }

  lemma OneDigit(s: string)
    requires |s| == 1
    ensures ParseNat(s) == DigitValue(s[0])
  {
    assert s[..0] == [];
  }

  lemma TwoDigits(s: string)
    requires |s| == 2
    ensures ParseNat(s) == 10 * DigitValue(s[0]) + DigitValue(s[1])
  {
    var first := s[..1];
    assert first[..0] == [] && first[0] == s[0];
    assert ParseNat(first) == DigitValue(s[0]);
  }


  /** The number of columns `GridClasses` asks for. */
  function GridColumns(view: View): (columns: nat)
    ensures columns == 7 || columns == 53
    ensures columns == 53 <==> view == Year
  {
    if view == Year then 53 else 7
  }

  /** The class string names exactly `GridColumns` columns; the week grid
      fills one row of seven. */
  lemma GridClassesMatchColumns(view: View, clock: Clock)
    ensures GridColumns(view) == 7 ==> GridClasses(view)[..12] == "grid-cols-7 "
    ensures GridColumns(view) == 53 ==> GridClasses(view)[..27] == "grid-cols-[repeat(53,_1fr)]"
    ensures |GridDays(Week, clock)| == GridColumns(Week)
  {
    WeekAndMonthGridLength(clock);
  }
}
