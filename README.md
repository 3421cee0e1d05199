# Contribution heatmaps: period totals, the day grid and the backend's day records

This project models, in Dafny, the date-bucketing core of a personal
dashboard. The dashboard draws GitHub, Twitter and reading activity as
heatmaps. The core has four parts:

- **Period aggregation** (`src/utils/contributionsUtils.ts`). It computes the
  total of the last week, month or year. It also cycles the view, moves record
  dates to the start of their day, and gives the range printed under a panel.
  Modelled in `contributions_utils.dfy`.
- **The grid** (`src/components/ContributionsGraph/ContributionsGraph.tsx`).
  There is one cell per calendar day from the grid's first day to today. Each
  cell shows the count of the first record dated that day. The grid has 7 or
  53 columns. Modelled in `contributions_graph.dfy`.
- **One cell** (`src/components/ContributionsGraph/ContributionCell.tsx`).
  This covers its colour band, its size and tooltip offset per view, the
  tooltip text, and the show/hide state of the tooltip. Modelled in
  `contribution_cell.dfy`. The tooltip state is a class with one mutable
  field.
- **The backend's reshaping** (`api-backend/server.js`). GitHub's calendar
  weeks become flat `{ date, count }` records. Stored tweets become one record
  per UTC day. That record counts the day's tweets, and the records are sorted
  newest first. Modelled in `api_server.dfy`. The grouping reduce is an
  imperative loop over a map and the list of its keys.

Three supporting modules hold shared material:

- `dates.dfy` covers instants and days. A `Timestamp` is an integer number of
  milliseconds in one fixed timezone with no daylight saving. `StartOfDay(t)`
  is `t - t % DAY_MS`; Dafny's `%` is Euclidean, so this floors for negative
  instants too. `Clock` carries the values computed from "now":
  - `subMonths(now, 1)` and `subYears(now, 1)`, from the date library;
  - `getStartDate("year")`, the year grid's first day. The grid imports it
    from `src/utils/contributionsUtils.ts`
    (`src/components/ContributionsGraph/ContributionsGraph.tsx:5`), but that
    file does not define it, so its value is an input here.

  `Clock.Valid()` assumes only that each of these lies at or before now.
- `sums.dfy` has `SumBy`, a sum of a weight over a sequence. It comes with
  lemmas for concatenation, permutation, pointwise equality and insertion.
- `text.dfy` has decimal numerals as JavaScript writes them, their reading
  back, and the text before the first separator (`split(sep)[0]`).

Facts about the code that the model makes precise:

- The grid does not sum the records of one day. `data.find` picks the first
  record of the day, and the cell shows its count
  (`ContributionsGraph.DuplicateDayShowsFirst`).
- The grid's sum equals the week total only with at most one record per day
  and now not exactly midnight (`ContributionsGraph.WeekGridMatchesWeekTotal`).
  At midnight the week total reaches back one more day than the grid
  (`ContributionsGraph.MidnightWeekMismatch`).
- The grid's windows (6 and 30 days back, and `getStartDate` for the year) are
  not the aggregation's windows (one week, month or year back).
- The week grid has 7 cells and the month grid 31
  (`ContributionsGraph.WeekAndMonthGridLength`).

## Model

| member | source | states |
|---|---|---|
| Dates.StartOfDay | src/utils/contributionsUtils.ts:26 | the start of a record's day is a day start at or before the instant, less than one day before it |
| Dates.StartOfDayUnique | src/utils/contributionsUtils.ts:26 | a day start is the start of `t`'s day exactly when `t` lies in the day it begins |
| Dates.DayStartBefore | src/utils/contributionsUtils.ts:27 | a day start is at or before an instant exactly when it is at or before that instant's day start |
| Dates.StartOfDayShift | src/components/ContributionsGraph/ContributionsGraph.tsx:27 | going back `n` whole days moves the day start back by exactly `n` days |
| ContributionsUtils.WindowStart | src/utils/contributionsUtils.ts:10-22 | the week window starts exactly seven days before now, and no window starts after now |
| ContributionsUtils.InWindow | src/utils/contributionsUtils.ts:26-27 | a record passes the filter exactly when its day start is at or after the window start and its day is not after the day of now |
| ContributionsUtils.FilterInWindow | src/utils/contributionsUtils.ts:24-28 | a record is kept exactly when it is in the data and its day start lies between the window start and now |
| ContributionsUtils.SumCounts | src/utils/contributionsUtils.ts:29 | the reduce is the sum of the counts, and it is not negative when no count is |
| ContributionsUtils.FilteredSum | src/utils/contributionsUtils.ts:24-29 | filtering then summing counts equals summing each record's in-window count over all the data |
| ContributionsUtils.ContributionsForPeriod | src/utils/contributionsUtils.ts:3-30 | the total is the sum of the counts of the records whose day lies in the period's window; no data gives 0 |
| ContributionsUtils.ContributionsForPeriodOrderFree | src/utils/contributionsUtils.ts:24-29 | the total does not depend on the order of the records |
| ContributionsUtils.ContributionsForPeriodMonotone | src/utils/contributionsUtils.ts:24-29 | inserting a record with a non-negative count never lowers the total, and raises it by exactly its count when it lies in the window |
| ContributionsUtils.WindowBoundaries | src/utils/contributionsUtils.ts:10-28 | a record whose day starts exactly at the window start counts; one whose day starts before the window start or after now does not |
| ContributionsUtils.TodayCounted | src/utils/contributionsUtils.ts:7-27 | a record dated today is counted, though its day start is compared with the instant now |
| ContributionsUtils.WeekWindowDays | src/utils/contributionsUtils.ts:11-13 | the week window covers the seven calendar days ending today, or eight when now is exactly midnight |
| ContributionsUtils.IndexOf | src/utils/contributionsUtils.ts:38-39 | each view sits at its index in the list week, month, year |
| ContributionsUtils.ToggleView | src/utils/contributionsUtils.ts:32-42 | the next view is the one at the next index, wrapping around |
| ContributionsUtils.ToggleCycle | src/utils/contributionsUtils.ts:32-42 | week to month to year to week: the toggle always changes the view and three toggles return to the start |
| ContributionsUtils.PreprocessContributions | src/utils/contributionsUtils.ts:44-57 | same length; every record keeps its count and gets the start of its day as date |
| ContributionsUtils.PreprocessIdempotent | src/utils/contributionsUtils.ts:44-57 | preprocessing twice is preprocessing once |
| ContributionsUtils.ContributionsForPeriodIgnoresPreprocessing | src/utils/contributionsUtils.ts:24-29 | preprocessed data has the same period total as the raw data |
| ContributionsUtils.ContributionsPeriod | src/utils/contributionsUtils.ts:59-79 | the printed range starts where the aggregation's window starts for every view, and ends now |
| ContributionsGraph.GridStart | src/components/ContributionsGraph/ContributionsGraph.tsx:23-27 | no grid starts after now, and the week and month grids start 6 and 30 calendar days before today |
| ContributionsGraph.DaysFrom | src/components/ContributionsGraph/ContributionsGraph.tsx:29 | day `i` of the walk is `i` days after the first; the last is today's day start; a start after the end gives no days |
| ContributionsGraph.EachDayOfInterval | src/components/ContributionsGraph/ContributionsGraph.tsx:29 | day `i` is the day start `i` days after the start's day; there are days exactly when the start's day is not after the end, and the last is the end's day |
| ContributionsGraph.DaysFromMembers | src/components/ContributionsGraph/ContributionsGraph.tsx:29 | a day start is in the walk exactly when it lies between the first day and the end |
| ContributionsGraph.GridDays | src/components/ContributionsGraph/ContributionsGraph.tsx:23-29 | the grid's days are day starts one day apart, from the start day to today |
| ContributionsGraph.WeekAndMonthGridLength | src/components/ContributionsGraph/ContributionsGraph.tsx:24-29 | the week grid has 7 days and the month grid 31 |
| ContributionsGraph.GridLength | src/components/ContributionsGraph/ContributionsGraph.tsx:27-29 | going back `n` days and walking to today gives `n + 1` days |
| ContributionsGraph.FindOnDay | src/components/ContributionsGraph/ContributionsGraph.tsx:33-35 | a found record is in the data and on the day; nothing is found exactly when no record is on the day |
| ContributionsGraph.FindReturnsFirst | src/components/ContributionsGraph/ContributionsGraph.tsx:33-35 | the record found is the first one of that day in data order |
| ContributionsGraph.DayData | src/components/ContributionsGraph/ContributionsGraph.tsx:31-37 | a record of the day when the data has one, and a zero-count record for the day when it has none |
| ContributionsGraph.CellsFor | src/components/ContributionsGraph/ContributionsGraph.tsx:65-76 | one cell per day, in order, each with the count of its day's record or 0 |
| ContributionsGraph.BuildGrid | src/components/ContributionsGraph/ContributionsGraph.tsx:65-76 | one cell per drawn day: 7 for the week, 31 for the month, the last one today's |
| ContributionsGraph.GridCellCount | src/components/ContributionsGraph/ContributionsGraph.tsx:31-37 | a cell shows 0 when no record is on its day, and otherwise the count of the first such record |
| ContributionsGraph.DuplicateDayShowsFirst | src/components/ContributionsGraph/ContributionsGraph.tsx:33-36 | two records on one day are not summed: the cell shows the first one's count |
| ContributionsGraph.CellsSumMatchesWindow | src/components/ContributionsGraph/ContributionsGraph.tsx:65-76 | with at most one record per day, the cells add up to the counts of the records whose day is drawn |
| ContributionsGraph.GridTotal | src/components/ContributionsGraph/ContributionsGraph.tsx:23-37 | with at most one record per day, the grid adds up to the records dated from its start day through now |
| ContributionsGraph.WeekGridMatchesWeekTotal | src/components/ContributionsGraph/ContributionsGraph.tsx:27 | with at most one record per day and now not at midnight, the week grid adds up to the week total |
| ContributionsGraph.MidnightWeekMismatch | src/components/ContributionsGraph/ContributionsGraph.tsx:27 | at midnight, a record from seven days back is in the week total but has no cell |
| ContributionsGraph.GridClasses | src/components/ContributionsGraph/ContributionsGraph.tsx:39-48 | the column class comes first and a `gap-` class last |
| ContributionsGraph.ContainerClasses | src/components/ContributionsGraph/ContributionsGraph.tsx:50-59 | a horizontal padding class, then a vertical one |
| ContributionsGraph.GapReads | src/components/ContributionsGraph/ContributionsGraph.tsx:39-48 | the number after `gap-` in the second space-separated class is the view's gap digit |
| ContributionsGraph.PaddingReads | src/components/ContributionsGraph/ContributionsGraph.tsx:50-59 | the numbers after `px-` in the first class and `py-` in the second are the view's padding |
| ContributionsGraph.GapByView | src/components/ContributionsGraph/ContributionsGraph.tsx:39-48 | gaps of 3, 2 and 1 units, shrinking with the cells |
| ContributionsGraph.PaddingByView | src/components/ContributionsGraph/ContributionsGraph.tsx:50-59 | padding 24×16, 28×14 and 10×8, least for the year |
| ContributionsGraph.GridColumns | src/components/ContributionsGraph/ContributionsGraph.tsx:39-48 | 53 columns for the year view and 7 for the others |
| ContributionsGraph.GridClassesMatchColumns | src/components/ContributionsGraph/ContributionsGraph.tsx:39-48 | the class names the column count, and the week's 7 days fill one row of 7 |
| ContributionCell.ContributionLevel | src/components/ContributionsGraph/ContributionCell.tsx:19-31 | the class is always one of the theme's four colours |
| ContributionCell.ContributionLevelIsBandColour | src/components/ContributionsGraph/ContributionCell.tsx:19-31 | the class is the theme's colour for the count's band: no activity, 1-4, 5-9, 10 or more |
| ContributionCell.ColourBands | src/components/ContributionsGraph/ContributionCell.tsx:19-31 | the exact class for each band in each theme; a negative count gets the first green |
| ContributionCell.BandMonotone | src/components/ContributionsGraph/ContributionCell.tsx:19-31 | among non-negative counts, more activity never gets a lower band |
| ContributionCell.SameColourSameBand | src/components/ContributionsGraph/ContributionCell.tsx:19-31 | two counts get the same class exactly when they are in the same band |
| ContributionCell.SizeClasses | src/components/ContributionsGraph/ContributionCell.tsx:33-42 | the width class comes first and the height class repeats its value, so cells are square |
| ContributionCell.CellWidthByView | src/components/ContributionsGraph/ContributionCell.tsx:33-42 | the width classes read as 3rem, 2rem and 1.05875rem: large cells for the week, medium for the month, small for the year |
| ContributionCell.TooltipOffset | src/components/ContributionsGraph/ContributionCell.tsx:44-53 | the offset is `calc(100% + ` followed by a pixel count and `px)` |
| ContributionCell.TooltipOffsetByView | src/components/ContributionsGraph/ContributionCell.tsx:44-53 | the offsets are 12, 10 and 8 pixels, larger for larger cells |
| ContributionCell.TooltipOffsetParses | src/components/ContributionsGraph/ContributionCell.tsx:44-53 | the pixel count reads back from the offset text |
| Text.NatRoundTrip | src/components/ContributionsGraph/ContributionCell.tsx:73 | the decimal text of a natural number reads back as that number |
| Text.IntRoundTrip | src/components/ContributionsGraph/ContributionCell.tsx:73 | the decimal text of any count, with its sign, reads back as that count |
| ContributionCell.TooltipText | src/components/ContributionsGraph/ContributionCell.tsx:73-76 | the text ends with " on " and the day's label |
| ContributionCell.TooltipPlural | src/components/ContributionsGraph/ContributionCell.tsx:73-76 | the tooltip starts with the count up to its first space, then "contribution", with an "s" exactly when the count is not 1 |
| ContributionCell.Tooltip.constructor | src/components/ContributionsGraph/ContributionCell.tsx:17 | the tooltip starts hidden |
| ContributionCell.Tooltip.MouseEnter | src/components/ContributionsGraph/ContributionCell.tsx:59 | entering the cell shows the tooltip |
| ContributionCell.Tooltip.MouseLeave | src/components/ContributionsGraph/ContributionCell.tsx:60 | leaving the cell hides it |
| ApiServer.FlatMapDays | api-backend/server.js:94-97 | the flattened list is as long as all the weeks' days together |
| ApiServer.FlatMapDaysIndex | api-backend/server.js:94-97 | day `j` of week `w` sits right after all the days of the earlier weeks |
| ApiServer.ToDayRecords | api-backend/server.js:99-104 | one record per day, in order, with the day's date and contribution count |
| ApiServer.GitHubContributions | api-backend/server.js:94-104 | one record for every day of every week |
| ApiServer.GitHubContributionsShape | api-backend/server.js:94-104 | the response has one record per calendar day, and the record for day `j` of week `w` carries that day's date and count |
| Text.BeforeFirst | api-backend/server.js:214 | `split(sep)[0]` is the longest prefix without `sep`, followed by the first `sep` when there is one |
| ApiServer.TweetDay | api-backend/server.js:214 | a tweet's day is the part of its ISO timestamp before the first "T" |
| ApiServer.DocsToRecords | api-backend/server.js:211-217 | one record per tweet, with the tweet's UTC day and count 1 |
| ApiServer.GroupByDate | api-backend/server.js:219-226 | the keys are the dates in the order first seen, once each; each date's record has the sum of its counts; the values add up to the input's total |
| ApiServer.AddCount | api-backend/server.js:221 | only the date's record changes, by exactly the added count |
| ApiServer.ObjectValues | api-backend/server.js:228 | the values, one per key, in key order |
| ApiServer.GroupMerge | api-backend/server.js:220-221 | adding to an existing date's record keeps the grouping invariant |
| ApiServer.GroupNew | api-backend/server.js:222-223 | a new date becomes a new last key, and the grouping invariant still holds |
| ApiServer.LexTransitive | api-backend/server.js:229 | the date order is transitive |
| ApiServer.LexTotal | api-backend/server.js:229 | any two different dates are ordered one way or the other |
| ApiServer.SortNewestFirst | api-backend/server.js:228-230 | the sort returns a permutation of its input, never older to newer, and strictly newest first when the dates are distinct |
| ApiServer.GroupedValues | api-backend/server.js:219-228 | the grouped values have distinct dates, exactly the input's dates, per-date sums, and the input's total |
| ApiServer.GroupTweets | api-backend/server.js:219-230 | the answer is strictly newest first, has the input's dates, each with the sum of its counts, and keeps the total |
| ApiServer.GetTweets | api-backend/server.js:208-231 | one record per day on which a tweet was posted, newest first, counting that day's tweets (at least 1); the counts add up to the number of tweets |
| ApiServer.DocsRecordsMatch | api-backend/server.js:211-217 | the records made from the tweets have the tweets' days, each day's tweet count, and the number of tweets in all |
| ApiServer.TweetsOnDayOfTweet | api-backend/server.js:211-226 | a day on which some tweet was posted counts at least one tweet |
| ApiServer.NewestFirstUnique | api-backend/server.js:228-230 | two strictly newest-first lists with the same dates and the same count per date are equal, so the sort algorithm does not matter |
| ApiServer.GroupingOrderFree | api-backend/server.js:219-230 | reordering the tweets does not change the response |

## Left out

- Network, storage and rendering are not modelled. This covers the HTTP
  routes and their error responses, the GitHub GraphQL request, the
  document-store reads, OAuth, uploads, and React rendering beyond the one
  piece of tooltip state. The model's inputs are what those calls return.
- `new Date()` is not modelled; it is the parameter `clock.now`. The source
  calls `new Date()` separately in `getContributionsForPeriod`,
  `getContributionsPeriod` and the grid (src/utils/contributionsUtils.ts:7
  and :60, src/components/ContributionsGraph/ContributionsGraph.tsx:23). The
  model takes all three to read one instant; `ContributionsPeriod`'s "same
  start" and `WeekGridMatchesWeekTotal` rely on that, and two calls that
  straddle a change of day or millisecond can disagree.
- The calendar arithmetic of `subMonths` and `subYears` is not modelled, and
  `getStartDate("year")` is imported from a file that does not define it.
  Their results are the fields of `Clock`, and all that is assumed of them is
  that they are not after now.
- Daylight saving is not modelled. Every calendar day is `DAY_MS` long, and
  `format(d, "yyyy-MM-dd")` equality is the same day start.
- Unparseable dates (an invalid `Date`) are not modelled, and neither is the
  `instanceof Date` conversion in `preprocessContributions`. Records carry an
  instant.
- Counts are unbounded integers, not JavaScript floating-point numbers.
- ContributionsForPeriod: the `default:` branch of the switch is left out,
  because a `View` is always one of the three cases.
- ContributionsUtils.ContributionsPeriod: returns the two instants of the
  range, not their `MMM d, yyyy` text, because date formatting is not
  modelled.
- ContributionCell.TooltipText: the `format(day, "MMM d")` label is a
  parameter, for the same reason.
- ContributionsGraph.DaysFrom: a start after the end gives no days. What the
  date library does with such an interval depends on its version, which is
  not part of this model. It cannot happen under `Clock.Valid()`.
- ContributionsGraph.GridClasses and ContainerClasses: only their class
  strings and the spacing they name are modelled, not the layout a browser
  draws from them. The same goes for ContributionCell.SizeClasses and for the
  tooltip's colour and position classes.
- ApiServer.GetTweets: each tweet is given as the text of
  `toDate().toISOString()`, so the conversion from a stored timestamp to UTC
  text is not modelled.
- ApiServer.SortNewestFirst: the comparator `new Date(b) - new Date(a)` is
  modelled as reverse lexicographic order on the `yyyy-MM-dd` keys. This
  matches date order for four-digit years. The sort is an insertion sort, not
  the engine's algorithm. `NewestFirstUnique` shows the result does not
  depend on the algorithm.
- ApiServer.GroupByDate: `acc[date] = tweet` stores the first tweet object
  itself, and later additions mutate that object. The model updates a map
  value instead, so that aliasing is not captured. The keys' order is the
  order in which `Object.values` returns them. This holds because date keys
  are never integer-like.
