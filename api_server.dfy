/** The reshaping the backend (api-backend/server.js) does before it answers:
    GitHub's contribution calendar flattened into `{ date, count }` records,
    and the stored tweets turned into one record per day, counted and sorted
    newest first. The requests to GitHub and to the document store are not
    part of this model: their results are the inputs here. */
module ApiServer {
  import opened Sums
  import opened Text

  /** One day of GitHub's calendar as the query asks for it. */
  datatype ContributionDay = ContributionDay(date: string, contributionCount: int)

  /** One week of GitHub's calendar. */
  datatype CalendarWeek = CalendarWeek(contributionDays: seq<ContributionDay>)

  /** A `{ date, count }` record as the backend sends it; `date` is the day's
      `yyyy-MM-dd` text. */
  datatype DayRecord = DayRecord(date: string, count: int)

  function WeekLength(w: CalendarWeek): int {
    |w.contributionDays|
  }

  /** `weeks.flatMap(week => week.contributionDays)`. */
  function FlatMapDays(weeks: seq<CalendarWeek>): (days: seq<ContributionDay>)
    ensures |days| == SumBy(weeks, WeekLength)
  {
    if weeks == [] then [] else weeks[0].contributionDays + FlatMapDays(weeks[1..])
  }

  /** The flattened days are the weeks' days one week after another: day `j`
      of week `w` comes after all the days of the weeks before it. */
  lemma {:induction false} FlatMapDaysIndex(weeks: seq<CalendarWeek>, w: nat, j: nat)
    requires w < |weeks| && j < |weeks[w].contributionDays|
    ensures var k := SumBy(weeks[..w], WeekLength) + j;
      0 <= k < |FlatMapDays(weeks)| && FlatMapDays(weeks)[k] == weeks[w].contributionDays[j]
  {
    var all := FlatMapDays(weeks);
    assert all == weeks[0].contributionDays + FlatMapDays(weeks[1..]);
    if w == 0 {
      assert weeks[..0] == [];
    } else {
      FlatMapDaysIndex(weeks[1..], w - 1, j);
      assert weeks[..w][1..] == weeks[1..][..w - 1];
      assert SumBy(weeks[..w], WeekLength) == WeekLength(weeks[0]) + SumBy(weeks[1..][..w - 1], WeekLength);
    }
  }

  /** `days.map(day => ({ date: day.date, count: day.contributionCount }))`. */
  function ToDayRecords(days: seq<ContributionDay>): (records: seq<DayRecord>)
    ensures |records| == |days|
    ensures forall i :: 0 <= i < |days| ==>
      records[i].date == days[i].date && records[i].count == days[i].contributionCount
  {
    seq(|days|, i requires 0 <= i < |days| => DayRecord(days[i].date, days[i].contributionCount))
  }

  /** The body of `/api/github-contributions`: one record for every day of
      every week. */
  function GitHubContributions(weeks: seq<CalendarWeek>): (records: seq<DayRecord>)
    ensures |records| == SumBy(weeks, WeekLength)
  {
    ToDayRecords(FlatMapDays(weeks))
  }

  /** One record per calendar day, in calendar order: the record of day `j`
      of week `w` carries that day's date and contribution count. */
  lemma GitHubContributionsShape(weeks: seq<CalendarWeek>, w: nat, j: nat)
    requires w < |weeks| && j < |weeks[w].contributionDays|
    ensures |GitHubContributions(weeks)| == SumBy(weeks, WeekLength)
    ensures var day, k := weeks[w].contributionDays[j], SumBy(weeks[..w], WeekLength) + j;
      0 <= k < |GitHubContributions(weeks)| &&
      GitHubContributions(weeks)[k] == DayRecord(day.date, day.contributionCount)
  {
    FlatMapDaysIndex(weeks, w, j);
  }

  /** A stored tweet, given by the text `data.date.toDate().toISOString()`. */
  datatype TweetDoc = TweetDoc(isoTimestamp: string)

  /** The UTC day of a tweet: `split("T")[0]`, the date part of its ISO
      timestamp, with no "T" in it. */
  function TweetDay(doc: TweetDoc): (day: string)
    ensures day <= doc.isoTimestamp && 'T' !in day
    ensures |day| < |doc.isoTimestamp| ==> doc.isoTimestamp[|day|] == 'T'
  {
    BeforeFirst(doc.isoTimestamp, 'T')
  }

  /** `tweetsSnapshot.docs.map(...)`: one record per tweet, counting 1. */
  function DocsToRecords(docs: seq<TweetDoc>): (tweets: seq<DayRecord>)
    ensures |tweets| == |docs|
    ensures forall i :: 0 <= i < |docs| ==> tweets[i].date == TweetDay(docs[i]) && tweets[i].count == 1
  {
    seq(|docs|, i requires 0 <= i < |docs| => DayRecord(TweetDay(docs[i]), 1))
  }

  function Count(r: DayRecord): int {
    r.count
  }

  /** What a record adds to the count of the day `d`. */
  function OnDate(d: string): DayRecord -> int {
    (r: DayRecord) => if r.date == d then r.count else 0
  }

  /** The dates that occur among the records. */
  function DatesOf(s: seq<DayRecord>): set<string> {
    set r | r in s :: r.date
  }

  predicate DistinctKeys(keys: seq<string>) {
    forall i, j :: 0 <= i < j < |keys| ==> keys[i] != keys[j]
  }

  /** The dates in the order they first occur: the order in which the
      grouping object receives its keys. */
  function FirstSeen(s: seq<DayRecord>): seq<string> {
    if s == [] then []
    else
      var earlier := FirstSeen(s[..|s| - 1]);
      if s[|s| - 1].date in earlier then earlier else earlier + [s[|s| - 1].date]
  }

  /** `Object.values(acc)`: the grouped records in key insertion order. */
  function ObjectValues(keys: seq<string>, acc: map<string, DayRecord>): (values: seq<DayRecord>)
    requires forall k :: k in keys ==> k in acc
    ensures |values| == |keys|
    ensures forall i :: 0 <= i < |keys| ==> values[i] == acc[keys[i]]
  {
    seq(|keys|, i requires 0 <= i < |keys| => acc[keys[i]])
  }

  /** What the grouping holds after the records `prefix`: `keys` lists the
      dates in the order they first occurred, `acc` maps each date to a
      record of that date whose count is the sum of the counts so far, and
      the values in key order add up to the total so far. */
  ghost predicate GroupedSoFar(prefix: seq<DayRecord>, acc: map<string, DayRecord>, keys: seq<string>) {
    && KeysInArrivalOrder(prefix, acc, keys)
    && DayTotals(prefix, acc)
    && ValuesTotal(prefix, acc, keys)
  }

  /** `keys` holds the dates of `prefix` once each, in first-seen order,
      and they are the keys of `acc`. */
  ghost predicate KeysInArrivalOrder(prefix: seq<DayRecord>, acc: map<string, DayRecord>, keys: seq<string>) {
    && keys == FirstSeen(prefix) && DistinctKeys(keys)
    && acc.Keys == DatesOf(prefix)
    && (forall k :: k in keys <==> k in acc)
  }

  /** Each date's record carries that date and the sum of its counts. */
  ghost predicate DayTotals(prefix: seq<DayRecord>, acc: map<string, DayRecord>) {
    forall d :: d in acc ==> acc[d].date == d && acc[d].count == SumBy(prefix, OnDate(d))
  }

  /** The values in key order add up to all the counts. */
  ghost predicate ValuesTotal(prefix: seq<DayRecord>, acc: map<string, DayRecord>, keys: seq<string>) {
    (forall k :: k in keys ==> k in acc) && SumBy(ObjectValues(keys, acc), Count) == SumBy(prefix, Count)
  }

  /** The `tweets.reduce(...)` of `/api/tweets`: the first record of each
      date becomes that date's entry and later ones add their count to it.
      The result is the dictionary `acc` and the order its keys arrived in. */
  method GroupByDate(tweets: seq<DayRecord>) returns (acc: map<string, DayRecord>, keys: seq<string>)
    ensures GroupedSoFar(tweets, acc, keys)
  {
    acc, keys := map[], [];
    GroupedAtStart(tweets);
    var i := 0;
    while i < |tweets|
      invariant 0 <= i <= |tweets|
      invariant GroupedSoFar(tweets[..i], acc, keys)
    {
      var tweet := tweets[i];
      assert tweets[..i + 1] == tweets[..i] + [tweet];
      if tweet.date in acc {
        GroupMerge(tweets[..i], tweet, acc, keys);
        acc := AddCount(acc, tweet);
      } else {
        GroupNew(tweets[..i], tweet, acc, keys);
        acc := acc[tweet.date := tweet];
        keys := keys + [tweet.date];
      }
      i := i + 1;
    }
    assert tweets[..i] == tweets;
  }

  /** The empty dictionary is the grouping of no records. */
  lemma GroupedAtStart(tweets: seq<DayRecord>)
    ensures GroupedSoFar(tweets[..0], map[], [])
  {
    assert tweets[..0] == [];
    assert ObjectValues([], map[]) == [];
  }

  /** `acc[date].count += count`: the record of `r`'s date, with `r`'s
      count added to it. */
  function AddCount(acc: map<string, DayRecord>, r: DayRecord): (acc': map<string, DayRecord>)
    requires r.date in acc
    ensures acc'.Keys == acc.Keys
    ensures acc'[r.date].date == acc[r.date].date && acc'[r.date].count == acc[r.date].count + r.count
    ensures forall d :: d in acc && d != r.date ==> acc'[d] == acc[d]
  {
    acc[r.date := acc[r.date].(count := acc[r.date].count + r.count)]
  }

  /** A record whose date is already a key adds its count to that key's
      record, and the grouping still holds. */
  lemma GroupMerge(prefix: seq<DayRecord>, tweet: DayRecord, acc: map<string, DayRecord>, keys: seq<string>)
    requires GroupedSoFar(prefix, acc, keys) && tweet.date in acc
    ensures GroupedSoFar(prefix + [tweet], AddCount(acc, tweet), keys)
  {
    KeysStep(prefix, tweet, acc, keys, AddCount(acc, tweet), keys);
    TotalsStep(prefix, tweet, acc, AddCount(acc, tweet));
    MergedTotal(keys, acc, tweet);
    SumBySnoc(prefix, tweet, Count);
  }

  /** A record with a new date becomes the record of a new, last key, and
      the grouping still holds. */
  lemma GroupNew(prefix: seq<DayRecord>, tweet: DayRecord, acc: map<string, DayRecord>, keys: seq<string>)
    requires GroupedSoFar(prefix, acc, keys) && tweet.date !in acc
    ensures GroupedSoFar(prefix + [tweet], acc[tweet.date := tweet], keys + [tweet.date])
  {
    KeysStep(prefix, tweet, acc, keys, acc[tweet.date := tweet], keys + [tweet.date]);
    TotalsStep(prefix, tweet, acc, acc[tweet.date := tweet]);
    ValuesAfterAdd(keys, acc, tweet.date, tweet);
    SumBySnoc(ObjectValues(keys, acc), tweet, Count);
    SumBySnoc(prefix, tweet, Count);
  }

  /** The keys stay the dates in first-seen order, each once, and the
      same as the dictionary's keys. */
  lemma KeysStep(prefix: seq<DayRecord>, tweet: DayRecord,
                 acc: map<string, DayRecord>, keys: seq<string>,
                 acc': map<string, DayRecord>, keys': seq<string>)
    requires KeysInArrivalOrder(prefix, acc, keys)
    requires tweet.date in acc ==> acc'.Keys == acc.Keys && keys' == keys
    requires tweet.date !in acc ==> acc'.Keys == acc.Keys + {tweet.date} && keys' == keys + [tweet.date]
    ensures KeysInArrivalOrder(prefix + [tweet], acc', keys')
  {
    FirstSeenSnoc(prefix, tweet);
    DatesSnoc(prefix, tweet);
    assert tweet.date in keys <==> tweet.date in acc;
  }

  lemma FirstSeenSnoc(prefix: seq<DayRecord>, tweet: DayRecord)
    ensures var keys := FirstSeen(prefix);
      FirstSeen(prefix + [tweet]) == if tweet.date in keys then keys else keys + [tweet.date]
  {
    assert (prefix + [tweet])[..|prefix|] == prefix;
  }

  lemma DatesSnoc(prefix: seq<DayRecord>, tweet: DayRecord)
    ensures DatesOf(prefix + [tweet]) == DatesOf(prefix) + {tweet.date}
  {
    assert forall r :: r in prefix + [tweet] <==> r in prefix || r == tweet;
  }

  /** Each date's total takes in the new record's count. */
  lemma TotalsStep(prefix: seq<DayRecord>, tweet: DayRecord, acc: map<string, DayRecord>, acc': map<string, DayRecord>)
    requires acc.Keys == DatesOf(prefix) && DayTotals(prefix, acc)
    requires tweet.date in acc ==> acc' == AddCount(acc, tweet)
    requires tweet.date !in acc ==> acc' == acc[tweet.date := tweet]
    ensures DayTotals(prefix + [tweet], acc')
  {
    forall d
      ensures SumBy(prefix + [tweet], OnDate(d)) == SumBy(prefix, OnDate(d)) + OnDate(d)(tweet)
    {
      SumBySnoc(prefix, tweet, OnDate(d));
    }
    if tweet.date !in acc {
      forall r | r in prefix
        ensures OnDate(tweet.date)(r) == 0
      {
        assert r.date in DatesOf(prefix);
      }
      SumByZero(prefix, OnDate(tweet.date));
    }
  }

  /** Adding to the count of one key adds as much to the total. */
  lemma MergedTotal(keys: seq<string>, acc: map<string, DayRecord>, r: DayRecord)
    requires forall k :: k in keys ==> k in acc
    requires DistinctKeys(keys) && r.date in keys
    ensures SumBy(ObjectValues(keys, AddCount(acc, r)), Count) == SumBy(ObjectValues(keys, acc), Count) + r.count
  {
    var p :| 0 <= p < |keys| && keys[p] == r.date;
    var before := ObjectValues(keys, acc);
    ValuesAfterUpdate(keys, acc, p, AddCount(acc, r)[r.date]);
    SumByReplace(before, p, AddCount(acc, r)[r.date], Count);
  }

  /** Replacing the value of one key replaces that value in place. */
  lemma ValuesAfterUpdate(keys: seq<string>, acc: map<string, DayRecord>, p: nat, v: DayRecord)
    requires forall k :: k in keys ==> k in acc
    requires DistinctKeys(keys) && p < |keys|
    ensures var before := ObjectValues(keys, acc);
      ObjectValues(keys, acc[keys[p] := v]) == before[..p] + [v] + before[p + 1..]
  {
    var before := ObjectValues(keys, acc);
    var after := ObjectValues(keys, acc[keys[p] := v]);
    var expected := before[..p] + [v] + before[p + 1..];
    assert |after| == |expected|;
    forall q | 0 <= q < |keys|
      ensures after[q] == expected[q]
    {
      if q < p {
        assert keys[q] != keys[p];
      } else if q > p {
        assert keys[p] != keys[q];
      }
    }
  }

  /** A new key appends its value. */
  lemma ValuesAfterAdd(keys: seq<string>, acc: map<string, DayRecord>, d: string, v: DayRecord)
    requires forall k :: k in keys ==> k in acc
    requires d !in acc
    ensures ObjectValues(keys + [d], acc[d := v]) == ObjectValues(keys, acc) + [v]
  {
    var after := ObjectValues(keys + [d], acc[d := v]);
    var expected := ObjectValues(keys, acc) + [v];
    forall q | 0 <= q < |keys| + 1
      ensures after[q] == expected[q]
    {
      if q < |keys| {
        assert (keys + [d])[q] == keys[q] && keys[q] in acc;
      }
    }
  }

  /** Lexicographic order on the date texts. For `yyyy-MM-dd` texts it is
      the order of the days, which is what comparing `new Date(date)` values
      decides. */
  predicate LexLess(a: string, b: string) {
    if a == [] then b != []
    else if b == [] then false
    else a[0] < b[0] || (a[0] == b[0] && LexLess(a[1..], b[1..]))
  }

  lemma {:induction false} LexIrreflexive(a: string)
    ensures !LexLess(a, a)
  {
    if a != [] {
      LexIrreflexive(a[1..]);
    }
  }

  lemma {:induction false} LexAsymmetric(a: string, b: string)
    requires LexLess(a, b)
    ensures !LexLess(b, a)
  {
    if a != [] && b != [] && a[0] == b[0] {
      LexAsymmetric(a[1..], b[1..]);
    }
  }

  lemma {:induction false} LexTransitive(a: string, b: string, c: string)
    requires LexLess(a, b) && LexLess(b, c)
    ensures LexLess(a, c)
  {
    if a != [] && a[0] == b[0] && b[0] == c[0] {
      LexTransitive(a[1..], b[1..], c[1..]);
    }
  }

  lemma {:induction false} LexTotal(a: string, b: string)
    requires a != b
    ensures LexLess(a, b) || LexLess(b, a)
  {
    if a != [] && b != [] && a[0] == b[0] {
      assert a == [a[0]] + a[1..] && b == [b[0]] + b[1..];
      LexTotal(a[1..], b[1..]);
    }
  }

  /** Never older further on: what the comparator `b - a` sorts into. */
  predicate NewestFirst(s: seq<DayRecord>) {
    forall i, j :: 0 <= i < j < |s| ==> !LexLess(s[i].date, s[j].date)
  }

  /** Strictly newer to older, so every date occurs once. */
  predicate StrictlyNewestFirst(s: seq<DayRecord>) {
    forall i, j :: 0 <= i < j < |s| ==> LexLess(s[j].date, s[i].date)
  }

  /** A newer-or-same date followed by a newer-or-same date: `!LexLess` is
      transitive. */
  lemma NotOlderTransitive(a: string, b: string, c: string)
    requires !LexLess(a, b) && !LexLess(b, c)
    ensures !LexLess(a, c)
  {
    if LexLess(a, c) {
      if a == b {
        assert false;
      } else if b == c {
        assert false;
      } else {
        LexTotal(a, b);
        LexTotal(b, c);
        LexTransitive(c, b, a);
        LexAsymmetric(a, c);
      }
    }
  }

  /** Insert `x` into a sequence sorted newest first. */
  function Insert(x: DayRecord, s: seq<DayRecord>): (r: seq<DayRecord>)
    requires NewestFirst(s)
    ensures NewestFirst(r)
    ensures multiset(r) == multiset(s) + multiset{x}
    ensures StrictlyNewestFirst(s) && x.date !in DatesOf(s) ==> StrictlyNewestFirst(r)
  {
    if s == [] || !LexLess(x.date, s[0].date) then
      InsertFront(x, s);
      [x] + s
    else
      assert s == [s[0]] + s[1..];
      assert NewestFirst(s[1..]) by {
        forall i, j | 0 <= i < j < |s[1..]|
          ensures !LexLess(s[1..][i].date, s[1..][j].date)
        {
          assert s[1..][i] == s[i + 1] && s[1..][j] == s[j + 1];
        }
      }
      var rest := Insert(x, s[1..]);
      InsertBehind(x, s, rest);
      [s[0]] + rest
  }

  lemma InsertFront(x: DayRecord, s: seq<DayRecord>)
    requires NewestFirst(s)
    requires s == [] || !LexLess(x.date, s[0].date)
    ensures NewestFirst([x] + s)
    ensures StrictlyNewestFirst(s) && x.date !in DatesOf(s) ==> StrictlyNewestFirst([x] + s)
  {
    var r := [x] + s;
    forall j | 0 < j < |r|
      ensures !LexLess(x.date, r[j].date)
    {
      if j > 1 {
        NotOlderTransitive(x.date, s[0].date, r[j].date);
      }
    }
    if StrictlyNewestFirst(s) && x.date !in DatesOf(s) {
      forall j | 0 < j < |r|
        ensures LexLess(r[j].date, x.date)
      {
        assert r[j] in s;
        LexTotal(x.date, r[j].date);
      }
    }
  }

  lemma InsertBehind(x: DayRecord, s: seq<DayRecord>, rest: seq<DayRecord>)
    requires NewestFirst(s) && s != [] && LexLess(x.date, s[0].date)
    requires NewestFirst(rest) && multiset(rest) == multiset(s[1..]) + multiset{x}
    requires StrictlyNewestFirst(s[1..]) && x.date !in DatesOf(s[1..]) ==> StrictlyNewestFirst(rest)
    ensures NewestFirst([s[0]] + rest)
    ensures StrictlyNewestFirst(s) && x.date !in DatesOf(s) ==> StrictlyNewestFirst([s[0]] + rest)
  {
    var r := [s[0]] + rest;
    forall j | 0 <= j < |rest|
      ensures LexLess(rest[j].date, s[0].date) || rest[j].date == s[0].date
      ensures StrictlyNewestFirst(s) ==> LexLess(rest[j].date, s[0].date)
    {
      assert rest[j] in multiset(rest);
      if rest[j] != x {
        assert rest[j] in s[1..];
        var k :| 0 <= k < |s[1..]| && s[1..][k] == rest[j];
        assert s[k + 1] == rest[j];
        if rest[j].date != s[0].date {
          LexTotal(rest[j].date, s[0].date);
        }
      }
    }
    forall j | 0 < j < |r|
      ensures !LexLess(s[0].date, r[j].date)
    {
      if LexLess(r[j].date, s[0].date) {
        LexAsymmetric(r[j].date, s[0].date);
      } else {
        LexIrreflexive(s[0].date);
      }
    }
    if StrictlyNewestFirst(s) && x.date !in DatesOf(s) {
      assert StrictlyNewestFirst(s[1..]) by {
        forall i, j | 0 <= i < j < |s[1..]|
          ensures LexLess(s[1..][j].date, s[1..][i].date)
        {
          assert s[1..][i] == s[i + 1] && s[1..][j] == s[j + 1];
        }
      }
      assert DatesOf(s[1..]) <= DatesOf(s);
    }
  }

  /** `Array.prototype.sort` with the newest-first comparator, as an
      insertion sort: a permutation of its input, newest first. */
  function SortNewestFirst(s: seq<DayRecord>): (r: seq<DayRecord>)
    ensures NewestFirst(r)
    ensures multiset(r) == multiset(s)
    ensures DistinctDates(s) ==> StrictlyNewestFirst(r)
  {
    if s == [] then []
    else
      var sortedRest := SortNewestFirst(s[1..]);
      SortedRestDates(s, sortedRest);
      Insert(s[0], sortedRest)
  }

  predicate DistinctDates(s: seq<DayRecord>) {
    forall i, j :: 0 <= i < j < |s| ==> s[i].date != s[j].date
  }

  lemma SortedRestDates(s: seq<DayRecord>, sortedRest: seq<DayRecord>)
    requires s != [] && multiset(sortedRest) == multiset(s[1..])
    ensures DatesOf(sortedRest) == DatesOf(s[1..])
    ensures multiset(s) == multiset(sortedRest) + multiset{s[0]}
    ensures DistinctDates(s) ==> DistinctDates(s[1..]) && s[0].date !in DatesOf(sortedRest)
  {
    assert s == [s[0]] + s[1..];
    assert forall r :: r in sortedRest <==> r in multiset(s[1..]);
    if DistinctDates(s) {
      forall r | r in s[1..]
        ensures r.date != s[0].date
      {
        var k :| 0 <= k < |s[1..]| && s[1..][k] == r;
        assert s[k + 1] == r;
      }
      forall i, j | 0 <= i < j < |s[1..]|
        ensures s[1..][i].date != s[1..][j].date
      {
        assert s[1..][i] == s[i + 1] && s[1..][j] == s[j + 1];
      }
    }
  }

  /** What `/api/tweets` promises about its grouped records: newest first
      with every date once, exactly the dates of the input, and each date's
      count the sum of the input's counts on it. */
  predicate GroupedNewestFirst(tweets: seq<DayRecord>, grouped: seq<DayRecord>) {
    && StrictlyNewestFirst(grouped)
    && DatesOf(grouped) == DatesOf(tweets)
    && (forall i :: 0 <= i < |grouped| ==> grouped[i].count == SumBy(tweets, OnDate(grouped[i].date)))
  }

  /** Group the tweet records by date, then sort the groups newest first. */
  method GroupTweets(tweets: seq<DayRecord>) returns (grouped: seq<DayRecord>)
    ensures GroupedNewestFirst(tweets, grouped)
    ensures SumBy(grouped, Count) == SumBy(tweets, Count)
  {
    var acc, keys := GroupByDate(tweets);
    var values := ObjectValues(keys, acc);
    GroupedValues(tweets, acc, keys);
    grouped := SortNewestFirst(values);
    SortedGrouping(tweets, values, grouped);
    SumByPermutation(grouped, values, Count);
  }

  /** The values of a finished grouping: one per date of the input, each
      with that date's total, adding up to the input's total. */
  lemma GroupedValues(tweets: seq<DayRecord>, acc: map<string, DayRecord>, keys: seq<string>)
    requires GroupedSoFar(tweets, acc, keys)
    ensures var values := ObjectValues(keys, acc);
      && DistinctDates(values)
      && DatesOf(values) == DatesOf(tweets)
      && (forall r :: r in values ==> r.count == SumBy(tweets, OnDate(r.date)))
      && SumBy(values, Count) == SumBy(tweets, Count)
  {
    var values := ObjectValues(keys, acc);
    forall i, j | 0 <= i < j < |values|
      ensures values[i].date != values[j].date
    {
      assert values[i].date == keys[i] && values[j].date == keys[j];
    }
    forall d | d in acc
      ensures d in DatesOf(values)
    {
      var p :| 0 <= p < |keys| && keys[p] == d;
      assert values[p] in values;
    }
  }

  /** Sorting a grouping keeps its dates and counts. */
  lemma SortedGrouping(tweets: seq<DayRecord>, values: seq<DayRecord>, grouped: seq<DayRecord>)
    requires DatesOf(values) == DatesOf(tweets)
    requires forall r :: r in values ==> r.count == SumBy(tweets, OnDate(r.date))
    requires multiset(grouped) == multiset(values) && StrictlyNewestFirst(grouped)
    ensures GroupedNewestFirst(tweets, grouped)
  {
    assert forall r :: r in grouped <==> r in values by {
      assert forall r :: r in grouped <==> r in multiset(values);
    }
    assert DatesOf(grouped) == DatesOf(values);
    forall i | 0 <= i < |grouped|
      ensures grouped[i].count == SumBy(tweets, OnDate(grouped[i].date))
    {
      assert grouped[i] in values;
    }
  }

  /** `/api/tweets` without the store: one record per tweet day, newest
      first, counting that day's tweets; the counts add up to the number of
      tweets. */
  method GetTweets(docs: seq<TweetDoc>) returns (response: seq<DayRecord>)
    ensures StrictlyNewestFirst(response)
    ensures DatesOf(response) == TweetDays(docs)
    ensures forall i :: 0 <= i < |response| ==> response[i].count == TweetsOn(docs, response[i].date) >= 1
    ensures SumBy(response, Count) == |docs|
  {
    var tweets := DocsToRecords(docs);
    DocsRecordsMatch(docs);
    response := GroupTweets(tweets);
    forall i | 0 <= i < |response|
      ensures TweetsOn(docs, response[i].date) >= 1
    {
      assert response[i].date in DatesOf(response);
      TweetsOnDayOfTweet(docs, response[i].date);
    }
  }

  /** The days on which some tweet was posted. */
  function TweetDays(docs: seq<TweetDoc>): set<string> {
    set doc | doc in docs :: TweetDay(doc)
  }

  /** The records made from the tweets have the tweets' days, count the
      tweets of each day, and count the tweets in all. */
  lemma DocsRecordsMatch(docs: seq<TweetDoc>)
    ensures DatesOf(DocsToRecords(docs)) == TweetDays(docs)
    ensures forall d :: SumBy(DocsToRecords(docs), OnDate(d)) == TweetsOn(docs, d)
    ensures SumBy(DocsToRecords(docs), Count) == |docs|
  {
    var tweets := DocsToRecords(docs);
    forall doc | doc in docs
      ensures TweetDay(doc) in DatesOf(tweets)
    {
      var i :| 0 <= i < |docs| && docs[i] == doc;
      assert tweets[i] in tweets;
    }
    forall d
      ensures SumBy(tweets, OnDate(d)) == TweetsOn(docs, d)
    {
      SumByPointwise(tweets, OnDate(d), docs, DocOnDate(d));
    }
    SumByPointwise(tweets, Count, docs, One);
    SumByOnes(docs);
  }

  /** A day on which some tweet was posted has at least one tweet. */
  lemma TweetsOnDayOfTweet(docs: seq<TweetDoc>, d: string)
    requires d in TweetDays(docs)
    ensures TweetsOn(docs, d) >= 1
  {
    var doc :| doc in docs && TweetDay(doc) == d;
    var k :| 0 <= k < |docs| && docs[k] == doc;
    assert docs == docs[..k] + [doc] + docs[k + 1..];
    SumByInsert(docs[..k], doc, docs[k + 1..], DocOnDate(d));
    SumByNonNegative(docs[..k] + docs[k + 1..], DocOnDate(d));
  }

  function One(doc: TweetDoc): int {
    1
  }

  function DocOnDate(d: string): TweetDoc -> int {
    (doc: TweetDoc) => if TweetDay(doc) == d then 1 else 0
  }

  /** The number of tweets on the day `d`. */
  function TweetsOn(docs: seq<TweetDoc>, d: string): int {
    SumBy(docs, DocOnDate(d))
  }

  lemma {:induction false} SumByOnes(docs: seq<TweetDoc>)
    ensures SumBy(docs, One) == |docs|
  {
    if docs != [] {
      SumByOnes(docs[1..]);
    }
  }

  /** Strictly newest-first sequences with the same dates and the same count
      on each date are the same sequence. */
  lemma {:induction false} NewestFirstUnique(a: seq<DayRecord>, b: seq<DayRecord>)
    requires StrictlyNewestFirst(a) && StrictlyNewestFirst(b)
    requires DatesOf(a) == DatesOf(b)
    requires forall i, j :: 0 <= i < |a| && 0 <= j < |b| && a[i].date == b[j].date ==> a[i].count == b[j].count
    ensures a == b
    decreases |a|
  {
    if a == [] {
      assert b != [] ==> b[0].date in DatesOf(b);
    } else {
      assert a[0].date in DatesOf(a);
      assert b != [];
      assert b[0].date in DatesOf(b);
      var k :| 0 <= k < |a| && a[k].date == b[0].date;
      var m :| 0 <= m < |b| && b[m].date == a[0].date;
      if k > 0 {
        if m > 0 {
          LexAsymmetric(b[0].date, b[m].date);
        } else {
          LexIrreflexive(b[0].date);
        }
        assert false;
      }
      assert a[0] == b[0];
      TailDates(a);
      TailDates(b);
      forall i, j | 0 <= i < |a[1..]| && 0 <= j < |b[1..]| && a[1..][i].date == b[1..][j].date
        ensures a[1..][i].count == b[1..][j].count
      {
        assert a[1..][i] == a[i + 1] && b[1..][j] == b[j + 1];
      }
      assert StrictlyNewestFirst(a[1..]) by {
        forall i, j | 0 <= i < j < |a[1..]|
          ensures LexLess(a[1..][j].date, a[1..][i].date)
        {
          assert a[1..][i] == a[i + 1] && a[1..][j] == a[j + 1];
        }
      }
      assert StrictlyNewestFirst(b[1..]) by {
        forall i, j | 0 <= i < j < |b[1..]|
          ensures LexLess(b[1..][j].date, b[1..][i].date)
        {
          assert b[1..][i] == b[i + 1] && b[1..][j] == b[j + 1];
        }
      }
      NewestFirstUnique(a[1..], b[1..]);
      assert a == [a[0]] + a[1..] && b == [b[0]] + b[1..];
    }
  }

  /** Removing the newest entry removes its date and no other. */
  lemma TailDates(s: seq<DayRecord>)
    requires StrictlyNewestFirst(s) && s != []
    ensures DatesOf(s[1..]) == DatesOf(s) - {s[0].date}
  {
    forall r | r in s[1..]
      ensures r.date != s[0].date
    {
      var j :| 0 <= j < |s[1..]| && s[1..][j] == r;
      assert s[j + 1] == r;
      LexIrreflexive(r.date);
    }
    assert s == [s[0]] + s[1..];
  }

  /** The grouped answer does not depend on the order of the input: two
      inputs with the same records group to the same sequence. */
  lemma GroupingOrderFree(t1: seq<DayRecord>, t2: seq<DayRecord>, g1: seq<DayRecord>, g2: seq<DayRecord>)
    requires multiset(t1) == multiset(t2)
    requires GroupedNewestFirst(t1, g1) && GroupedNewestFirst(t2, g2)
    ensures g1 == g2
  {
    assert forall r :: r in t1 <==> r in t2 by {
      assert forall r :: r in t1 <==> r in multiset(t1);
      assert forall r :: r in t2 <==> r in multiset(t2);
    }
    assert DatesOf(t1) == DatesOf(t2);
    forall d
      ensures SumBy(t1, OnDate(d)) == SumBy(t2, OnDate(d))
    {
      SumByPermutation(t1, t2, OnDate(d));
    }
    NewestFirstUnique(g1, g2);
  }
}
