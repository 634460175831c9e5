/** `MainViewModel`: loads the day's steps from Health Connect, copies the
    intervals into the local table, pushes unsynced rows to Firestore, and
    builds the dashboard's series: the intraday running total, per-day
    buckets for the last 7 or 30 days, and per-month buckets for the last 6
    or 12 months.

    The wall clock is a parameter (`today`, a local date, and `nowMinute`,
    the local minute of the day), and so are the signed-in user, the time
    zone, the calendar, Firestore and whether the local table refuses an
    insert. */
module MainScreen {
  import opened Options
  import opened Totals
  import opened Decimal
  import opened TimeModel
  import opened StepLogs
  import opened LocalStore
  import opened Remote
  import opened Health
  import opened Repository

  /** The daily step goal. */
  const DailyGoal: int := 10000

  /** `userId`: the signed-in user's uid, or "" when nobody is signed in. */
  function UserIdOf(user: Option<AuthUser>): (userId: string)
    ensures user.None? ==> userId == ""
    ensures user.Some? ==> userId == user.value.uid
  {
    match user
    case None => ""
    case Some(u) => u.uid
  }

  // ---------------------------------------------------------------------
  // Intervals to rows

  /** `loadTodaySteps`' mapping: one row per interval, keyed by the
      interval's start, every row dated `dateMillis` (today's midnight),
      whatever day the interval itself started on. */
  function TodayLogs(intervals: seq<StepInterval>, dateMillis: int, userId: string): (logs: seq<StepLog>)
    ensures |logs| == |intervals|
    ensures forall i :: 0 <= i < |logs| ==>
      logs[i] == NewStepLog(intervals[i].startTime, dateMillis, intervals[i].steps, userId)
    decreases |intervals|
  {
    if intervals == [] then []
    else
      var last := intervals[|intervals| - 1];
      TodayLogs(intervals[..|intervals| - 1], dateMillis, userId)
        + [NewStepLog(last.startTime, dateMillis, last.steps, userId)]
  }

  /** `syncRangeToRoom`'s mapping: one row per interval, dated the local
      midnight of the day the interval starts on. */
  function RangeLogs(intervals: seq<StepInterval>, z: Zone, userId: string): (logs: seq<StepLog>)
    ensures |logs| == |intervals|
    ensures forall i :: 0 <= i < |logs| ==>
      logs[i] == NewStepLog(intervals[i].startTime, z.startOfDay(z.dateOf(intervals[i].startTime)),
                            intervals[i].steps, userId)
    decreases |intervals|
  {
    if intervals == [] then []
    else
      var last := intervals[|intervals| - 1];
      RangeLogs(intervals[..|intervals| - 1], z, userId)
        + [NewStepLog(last.startTime, z.startOfDay(z.dateOf(last.startTime)), last.steps, userId)]
  }

  /** The rows written for a range carry the midnight that opens the day
      their interval starts in: `date <= timestamp` and the next midnight
      is later than `timestamp`. */
  lemma RangeLogsOwnDay(intervals: seq<StepInterval>, z: Zone, userId: string, i: int)
    requires 0 <= i < |intervals|
    requires InsideOwnDay(z, intervals[i].startTime)
    ensures RangeLogs(intervals, z, userId)[i].date <= RangeLogs(intervals, z, userId)[i].timestamp
    ensures RangeLogs(intervals, z, userId)[i].timestamp < z.startOfDay(z.dateOf(intervals[i].startTime) + 1)
  {
  }

  /** For an interval that starts today, the today loader and the range
      loader write the same row. */
  lemma TodayAndRangeAgree(intervals: seq<StepInterval>, z: Zone, today: int, userId: string, i: int)
    requires 0 <= i < |intervals|
    requires z.dateOf(intervals[i].startTime) == today
    ensures TodayLogs(intervals, z.startOfDay(today), userId)[i] == RangeLogs(intervals, z, userId)[i]
  {
  }

  /** The keys of the rows built from intervals are the intervals' starts. */
  lemma {:induction false} TodayLogsKeys(intervals: seq<StepInterval>, dateMillis: int, userId: string)
    ensures TimestampsOf(TodayLogs(intervals, dateMillis, userId)) == set i | 0 <= i < |intervals| :: intervals[i].startTime
  {
    var logs := TodayLogs(intervals, dateMillis, userId);
    forall ts | ts in TimestampsOf(logs)
      ensures ts in set i | 0 <= i < |intervals| :: intervals[i].startTime
    {
      var log :| log in logs && log.timestamp == ts;
      var i :| 0 <= i < |logs| && logs[i] == log;
    }
    forall ts | ts in set i | 0 <= i < |intervals| :: intervals[i].startTime
      ensures ts in TimestampsOf(logs)
    {
      var i :| 0 <= i < |intervals| && intervals[i].startTime == ts;
      assert logs[i] in logs;
    }
  }

  /** Ingesting the same intervals again changes nothing: every row they
      would add is already there, and rows already stored, synced or not,
      are never overwritten. */
  lemma ReloadKeepsTable(t: Table, intervals: seq<StepInterval>, dateMillis: int, userId: string)
    ensures InsertAllIfNew(InsertAllIfNew(t, TodayLogs(intervals, dateMillis, userId)),
                           TodayLogs(intervals, dateMillis, userId))
      == InsertAllIfNew(t, TodayLogs(intervals, dateMillis, userId))
    ensures forall ts :: ts in t ==> InsertAllIfNew(t, TodayLogs(intervals, dateMillis, userId))[ts] == t[ts]
  {
    InsertAllIfNewIdempotent(t, TodayLogs(intervals, dateMillis, userId));
  }

  // ---------------------------------------------------------------------
  // Intraday running total

  /** A point of the intraday chart: local minute of the day and the
      running total of steps at that minute. */
  datatype ChartPoint = ChartPoint(minute: int, cumulative: int)

  /** `sortedBy { it.startTime }` for one interval: it goes in front of the
      first interval that starts no earlier than it. `SortByStart` inserts
      each head in front of the already sorted rest of the list, so of two
      intervals with equal starts the earlier one in the input stays first. */
  function InsertByStart(x: StepInterval, s: seq<StepInterval>): seq<StepInterval>
    decreases |s|
  {
    if s == [] || x.startTime <= s[0].startTime then [x] + s
    else [s[0]] + InsertByStart(x, s[1..])
  }

  /** `sortedBy { it.startTime }`: a stable insertion sort. */
  function SortByStart(s: seq<StepInterval>): seq<StepInterval>
    decreases |s|
  {
    if s == [] then [] else InsertByStart(s[0], SortByStart(s[1..]))
  }

  predicate SortedByStart(s: seq<StepInterval>) {
    forall i, j :: 0 <= i < j < |s| ==> s[i].startTime <= s[j].startTime
  }

  /** A step count put in front of a list adds to its total. */
  lemma {:induction false} SumStepsCons(x: StepInterval, s: seq<StepInterval>)
    ensures SumSteps([x] + s) == x.steps + SumSteps(s)
    decreases |s|
  {
    if s != [] {
      var init := s[..|s| - 1];
      SumStepsCons(x, init);
      assert ([x] + s)[..|s|] == [x] + init;
    }
  }

  /** Inserting adds exactly `x` to the list and its steps to the total. */
  lemma {:induction false} InsertByStartAdds(x: StepInterval, s: seq<StepInterval>)
    ensures multiset(InsertByStart(x, s)) == multiset(s) + multiset{x}
    ensures SumSteps(InsertByStart(x, s)) == x.steps + SumSteps(s)
    decreases |s|
  {
    if s == [] || x.startTime <= s[0].startTime {
      SumStepsCons(x, s);
    } else {
      var rest := InsertByStart(x, s[1..]);
      InsertByStartAdds(x, s[1..]);
      assert s == [s[0]] + s[1..];
      SumStepsCons(s[0], rest);
      SumStepsCons(s[0], s[1..]);
    }
  }

  /** A sorted list stays sorted behind an interval that starts no later
      than any of its elements. */
  lemma SortedCons(y: StepInterval, rest: seq<StepInterval>)
    requires SortedByStart(rest)
    requires forall k :: 0 <= k < |rest| ==> y.startTime <= rest[k].startTime
    ensures SortedByStart([y] + rest)
  {
    var r := [y] + rest;
    forall a, b | 0 <= a < b < |r|
      ensures r[a].startTime <= r[b].startTime
    {
      assert r[b] == rest[b - 1];
      if a > 0 {
        assert r[a] == rest[a - 1];
      }
    }
  }

  /** Every element of a list drawn from `x` and the elements of `s` starts
      no earlier than a bound that `x` and all of `s` respect. */
  lemma BoundedByMembers(y: StepInterval, x: StepInterval, s: seq<StepInterval>, rest: seq<StepInterval>)
    requires multiset(rest) == multiset(s) + multiset{x}
    requires y.startTime <= x.startTime
    requires forall j :: 0 <= j < |s| ==> y.startTime <= s[j].startTime
    ensures forall k :: 0 <= k < |rest| ==> y.startTime <= rest[k].startTime
  {
    forall k | 0 <= k < |rest|
      ensures y.startTime <= rest[k].startTime
    {
      assert rest[k] in multiset(rest);
      if rest[k] != x {
        assert rest[k] in multiset(s);
        var j :| 0 <= j < |s| && s[j] == rest[k];
      }
    }
  }

  /** Inserting into a sorted list keeps it sorted. */
  lemma {:induction false} InsertByStartSorted(x: StepInterval, s: seq<StepInterval>)
    requires SortedByStart(s)
    ensures SortedByStart(InsertByStart(x, s))
    decreases |s|
  {
    if s == [] || x.startTime <= s[0].startTime {
      SortedCons(x, s);
    } else {
      var tail := s[1..];
      var rest := InsertByStart(x, tail);
      InsertByStartSorted(x, tail);
      InsertByStartAdds(x, tail);
      assert forall j :: 0 <= j < |tail| ==> s[0].startTime <= tail[j].startTime by {
        forall j | 0 <= j < |tail|
          ensures s[0].startTime <= tail[j].startTime
        {
          assert tail[j] == s[j + 1];
        }
      }
      BoundedByMembers(s[0], x, tail, rest);
      SortedCons(s[0], rest);
    }
  }

  /** Sorting gives a list in start order. */
  lemma {:induction false} SortByStartSorted(s: seq<StepInterval>)
    ensures SortedByStart(SortByStart(s))
    decreases |s|
  {
    if s != [] {
      SortByStartSorted(s[1..]);
      InsertByStartSorted(s[0], SortByStart(s[1..]));
    }
  }

  /** Sorting keeps the same intervals and the same total. */
  lemma {:induction false} SortByStartPermutes(s: seq<StepInterval>)
    ensures multiset(SortByStart(s)) == multiset(s)
    ensures SumSteps(SortByStart(s)) == SumSteps(s)
    decreases |s|
  {
    if s != [] {
      SortByStartPermutes(s[1..]);
      InsertByStartAdds(s[0], SortByStart(s[1..]));
      assert s == [s[0]] + s[1..];
      SumStepsCons(s[0], s[1..]);
    }
  }

  /** No interval has a negative step count. */
  ghost predicate NonNegativeSteps(intervals: seq<StepInterval>) {
    forall i :: 0 <= i < |intervals| ==> intervals[i].steps >= 0
  }

  /** The total of a prefix one longer adds the next interval's steps. */
  lemma SumStepsPrefix(s: seq<StepInterval>, i: int)
    requires 0 <= i < |s|
    ensures SumSteps(s[..i + 1]) == SumSteps(s[..i]) + s[i].steps
  {
    assert s[..i + 1][..i] == s[..i];
  }

  /** The shape of the intraday chart for intervals taken in order:
      it opens at (0, 0), has between one and two points per interval plus
      the opening point and at most one closing point, ends on the total
      of all intervals at or after `nowMinute`, and never goes down when no
      count is negative. */
  ghost predicate IsDailyChart(points: seq<ChartPoint>, sorted: seq<StepInterval>, nowMinute: int) {
    && |sorted| + 1 <= |points| <= 2 * |sorted| + 2
    && points[0] == ChartPoint(0, 0)
    && points[|points| - 1].cumulative == SumSteps(sorted)
    && points[|points| - 1].minute >= nowMinute
    && (NonNegativeSteps(sorted) ==>
          forall k :: 0 < k < |points| ==> points[k - 1].cumulative <= points[k].cumulative)
  }

  /** The chart of the sorted intervals ends on the total of the intervals
      as read. */
  lemma DailyChartTotal(points: seq<ChartPoint>, intervals: seq<StepInterval>, nowMinute: int)
    requires IsDailyChart(points, SortByStart(intervals), nowMinute)
    ensures points[|points| - 1].cumulative == SumSteps(intervals)
  {
    SortByStartPermutes(intervals);
  }

  /** `loadDailyData`'s loop over the sorted intervals: a flat point at an
      interval's start when that start is after the last point, then a
      point at its end with the new running total; finally a point at
      `nowMinute` with the final total when the clock is past the last
      point. */
  method DailyChartPoints(sorted: seq<StepInterval>, z: Zone, nowMinute: int) returns (points: seq<ChartPoint>)
    ensures |sorted| + 1 <= |points| <= 2 * |sorted| + 2
    ensures points[0] == ChartPoint(0, 0)
    ensures points[|points| - 1].cumulative == SumSteps(sorted)
    ensures points[|points| - 1].minute >= nowMinute
    ensures NonNegativeSteps(sorted) ==>
      forall k :: 0 < k < |points| ==> points[k - 1].cumulative <= points[k].cumulative
  {
    points := [ChartPoint(0, 0)];
    var cumulative := 0;
    ghost var rising := NonNegativeSteps(sorted);
    for i := 0 to |sorted|
      invariant i + 1 <= |points| <= 2 * i + 1
      invariant points[0] == ChartPoint(0, 0)
      invariant cumulative == SumSteps(sorted[..i])
      invariant points[|points| - 1].cumulative == cumulative
      invariant rising ==> forall k :: 0 < k < |points| ==> points[k - 1].cumulative <= points[k].cumulative
    {
      var interval := sorted[i];
      var startMinute := z.minuteOfDay(interval.startTime);
      if points[|points| - 1].minute < startMinute {
        points := points + [ChartPoint(startMinute, cumulative)];
      }
      var endMinute := z.minuteOfDay(interval.endTime);
      SumStepsPrefix(sorted, i);
      cumulative := cumulative + interval.steps;
      points := points + [ChartPoint(endMinute, cumulative)];
    }
    assert sorted[..|sorted|] == sorted;
    if points[|points| - 1].minute < nowMinute {
      points := points + [ChartPoint(nowMinute, cumulative)];
    }
  }

  // ---------------------------------------------------------------------
  // Day and month buckets

  /** A bar of the weekly, monthly, six-month or year view. */
  datatype Bucket = Bucket(title: string, steps: int)

  /** The sum of the bars' step counts. */
  function Total(buckets: seq<Bucket>): int
    decreases |buckets|
  {
    if buckets == [] then 0 else Total(buckets[..|buckets| - 1]) + buckets[|buckets| - 1].steps
  }

  /** A bar added at the end adds its steps to the total. */
  lemma TotalAppend(buckets: seq<Bucket>, b: Bucket)
    ensures Total(buckets + [b]) == Total(buckets) + b.steps
  {
    assert (buckets + [b])[..|buckets|] == buckets;
  }

  /** The 7-day view's titles: the weekday's name. */
  function WeekdayTitles(): int -> string {
    d => WeekdayLabel(d)
  }

  /** The 30-day view's titles: the day of the month. */
  function DayOfMonthTitles(cal: Calendar): int -> string {
    d => DayOfMonthLabel(cal, d)
  }

  /** Bar `j` holds day `first + j`: its title and its entry in `hcData`,
      or 0 when the day has none. */
  ghost predicate DayBucketsFrom(buckets: seq<Bucket>, hcData: map<int, int>, first: int, titleOf: int -> string) {
    forall j :: 0 <= j < |buckets| ==> buckets[j] == Bucket(titleOf(first + j), ValueOrZero(hcData, first + j))
  }

  /** The bars of the last `days` days up to `today`, oldest first. */
  ghost predicate DayBucketsOf(buckets: seq<Bucket>, hcData: map<int, int>, today: int, days: nat, titleOf: int -> string) {
    |buckets| == days && DayBucketsFrom(buckets, hcData, today - (days - 1), titleOf)
  }

  /** Appending the next day's bar keeps the bars in day order. */
  lemma DayBucketsFromAppend(buckets: seq<Bucket>, hcData: map<int, int>, first: int, titleOf: int -> string)
    requires DayBucketsFrom(buckets, hcData, first, titleOf)
    ensures DayBucketsFrom(buckets + [Bucket(titleOf(first + |buckets|), ValueOrZero(hcData, first + |buckets|))],
                           hcData, first, titleOf)
  {
  }

  /** One more day's bar keeps the bars in day order and their total the
      sum of the window so far. */
  lemma DayBucketsStep(buckets: seq<Bucket>, hcData: map<int, int>, first: int, titleOf: int -> string)
    requires DayBucketsFrom(buckets, hcData, first, titleOf)
    requires Total(buckets) == SumRange(hcData, first, first + |buckets| - 1)
    ensures var date := first + |buckets|;
      var next := buckets + [Bucket(titleOf(date), ValueOrZero(hcData, date))];
      DayBucketsFrom(next, hcData, first, titleOf) && Total(next) == SumRange(hcData, first, date)
  {
    var date := first + |buckets|;
    TotalAppend(buckets, Bucket(titleOf(date), ValueOrZero(hcData, date)));
    SumRangeStep(hcData, first, date);
    DayBucketsFromAppend(buckets, hcData, first, titleOf);
  }

  /** `for (i in days - 1 downTo 0)` over the dates `today - i`. The bars add
      up to the map summed over the window. */
  method DayBuckets(hcData: map<int, int>, today: int, days: nat, titleOf: int -> string) returns (buckets: seq<Bucket>)
    ensures DayBucketsOf(buckets, hcData, today, days, titleOf)
    ensures Total(buckets) == SumRange(hcData, today - (days - 1), today)
  {
    buckets := [];
    ghost var first := today - (days - 1);
    var i: int := days - 1;
    while i >= 0
      invariant -1 <= i <= days - 1
      invariant |buckets| == days - 1 - i
      invariant DayBucketsFrom(buckets, hcData, first, titleOf)
      invariant Total(buckets) == SumRange(hcData, first, today - i - 1)
      decreases i
    {
      var date := today - i;
      var steps := ValueOrZero(hcData, date);
      DayBucketsStep(buckets, hcData, first, titleOf);
      buckets := buckets + [Bucket(titleOf(date), steps)];
      i := i - 1;
    }
  }

  /** The last day a month's bar counts: the day before the next month
      starts, or `today` for the current month. */
  function MonthSpanEnd(cal: Calendar, today: int, ym: int): int {
    if ym == cal.monthOf(today) then today else cal.firstDayOf(ym + 1) - 1
  }

  /** A month's bar: labelled with the month's name, summing the days from
      the month's first day to `MonthSpanEnd`. */
  function MonthBar(hcData: map<int, int>, cal: Calendar, today: int, ym: int): Bucket {
    Bucket(MonthLabel(ym), SumRange(hcData, cal.firstDayOf(ym), MonthSpanEnd(cal, today, ym)))
  }

  /** The bars are those of consecutive months from `first` on. */
  ghost predicate MonthBarsFrom(buckets: seq<Bucket>, hcData: map<int, int>, cal: Calendar, today: int, first: int) {
    forall j :: 0 <= j < |buckets| ==> buckets[j] == MonthBar(hcData, cal, today, first + j)
  }

  /** The bars of the last `months` months up to today's, oldest first. */
  ghost predicate MonthBucketsOf(buckets: seq<Bucket>, hcData: map<int, int>, today: int, months: nat, cal: Calendar) {
    |buckets| == months && MonthBarsFrom(buckets, hcData, cal, today, cal.monthOf(today) - (months - 1))
  }

  /** Appending the next month's bar keeps the bars in month order. */
  lemma MonthBarsFromAppend(buckets: seq<Bucket>, hcData: map<int, int>, cal: Calendar, today: int, first: int)
    requires MonthBarsFrom(buckets, hcData, cal, today, first)
    ensures MonthBarsFrom(buckets + [MonthBar(hcData, cal, today, first + |buckets|)], hcData, cal, today, first)
  {
  }

  /** `for (i in months - 1 downTo 0)`, each month summed day by day in a
      `while (!currentDate.isAfter(monthEnd))` loop. */
  method MonthBuckets(hcData: map<int, int>, today: int, months: nat, cal: Calendar) returns (buckets: seq<Bucket>)
    ensures MonthBucketsOf(buckets, hcData, today, months, cal)
  {
    buckets := [];
    ghost var first := cal.monthOf(today) - (months - 1);
    var i: int := months - 1;
    while i >= 0
      invariant -1 <= i <= months - 1
      invariant |buckets| == months - 1 - i
      invariant MonthBarsFrom(buckets, hcData, cal, today, first)
      decreases i
    {
      var ym := cal.monthOf(today) - i;
      var monthStart := cal.firstDayOf(ym);
      var monthEnd := if i == 0 then today else cal.firstDayOf(ym + 1) - 1;
      var monthTotal := 0;
      var currentDate := monthStart;
      while currentDate <= monthEnd
        invariant currentDate == monthStart || monthStart < currentDate <= monthEnd + 1
        invariant monthTotal == SumRange(hcData, monthStart, currentDate - 1)
        decreases monthEnd - currentDate
      {
        monthTotal := monthTotal + ValueOrZero(hcData, currentDate);
        currentDate := currentDate + 1;
      }
      assert monthEnd == MonthSpanEnd(cal, today, ym);
      assert Bucket(MonthLabel(ym), monthTotal) == MonthBar(hcData, cal, today, first + |buckets|);
      MonthBarsFromAppend(buckets, hcData, cal, today, first);
      buckets := buckets + [Bucket(MonthLabel(ym), monthTotal)];
      i := i - 1;
    }
  }

  /** The first day of the month after `ym`. */
  function NextMonthStart(cal: Calendar, ym: int): int {
    cal.firstDayOf(ym + 1)
  }

  /** Each month starts before the next one. */
  ghost predicate MonthsAscend(cal: Calendar) {
    forall ym {:trigger NextMonthStart(cal, ym)} :: cal.firstDayOf(ym) < NextMonthStart(cal, ym)
  }

  /** Later months start on later days. */
  lemma {:induction false} FirstDaysAscend(cal: Calendar, a: int, b: int)
    requires MonthsAscend(cal)
    requires a <= b
    ensures cal.firstDayOf(a) <= cal.firstDayOf(b)
    decreases b - a
  {
    if a < b {
      FirstDaysAscend(cal, a, b - 1);
      assert cal.firstDayOf(b - 1) < NextMonthStart(cal, b - 1);
    }
  }

  /** The total of a longer prefix adds the next bar. */
  lemma TotalPrefix(buckets: seq<Bucket>, k: int)
    requires 0 <= k < |buckets|
    ensures Total(buckets[..k + 1]) == Total(buckets[..k]) + buckets[k].steps
  {
    assert buckets[..k + 1][..k] == buckets[..k];
  }

  /** The days of `k` whole months from month `a` on, summed month by month. */
  function FullMonthsSum(hcData: map<int, int>, cal: Calendar, a: int, k: nat): int
    decreases k
  {
    if k == 0 then 0
    else FullMonthsSum(hcData, cal, a, k - 1) + WholeMonthSteps(hcData, cal, a + k - 1)
  }

  /** `k` whole months tile the days from month `a`'s first day to the day
      before month `a + k` starts. */
  lemma {:induction false} FullMonthsTile(hcData: map<int, int>, cal: Calendar, a: int, k: nat)
    requires MonthsAscend(cal)
    ensures FullMonthsSum(hcData, cal, a, k) == SumRange(hcData, cal.firstDayOf(a), cal.firstDayOf(a + k) - 1)
    decreases k
  {
    if k > 0 {
      FullMonthsTile(hcData, cal, a, k - 1);
      FirstDaysAscend(cal, a, a + k - 1);
      assert cal.firstDayOf(a + k - 1) < NextMonthStart(cal, a + k - 1);
      SumRangeSplit(hcData, cal.firstDayOf(a), cal.firstDayOf(a + k - 1) - 1, cal.firstDayOf(a + k) - 1);
    }
  }

  /** The steps of every day of month `ym`. */
  function WholeMonthSteps(hcData: map<int, int>, cal: Calendar, ym: int): int {
    SumRange(hcData, cal.firstDayOf(ym), cal.firstDayOf(ym + 1) - 1)
  }

  /** The first `k` bars hold the steps of the whole months from `a` on. */
  ghost predicate FullMonthBarsFrom(buckets: seq<Bucket>, hcData: map<int, int>, cal: Calendar, a: int, k: int) {
    && k <= |buckets|
    && forall j :: 0 <= j < k ==>
         buckets[j].steps == WholeMonthSteps(hcData, cal, a + j)
  }

  /** The first `k` bars, each a whole month's steps, add up to those months. */
  lemma {:induction false} FullMonthBars(hcData: map<int, int>, cal: Calendar, buckets: seq<Bucket>, a: int, k: nat)
    requires FullMonthBarsFrom(buckets, hcData, cal, a, k)
    ensures Total(buckets[..k]) == FullMonthsSum(hcData, cal, a, k)
    decreases k
  {
    if k > 0 {
      FullMonthBars(hcData, cal, buckets, a, k - 1);
      TotalPrefix(buckets, k - 1);
    }
  }

  /** The steps of the month bars, read off `MonthBucketsOf`: full months
      before the current one, the current month up to today. */
  lemma MonthBucketSteps(hcData: map<int, int>, today: int, months: nat, cal: Calendar, buckets: seq<Bucket>)
    requires months >= 1
    requires MonthBucketsOf(buckets, hcData, today, months, cal)
    ensures FullMonthBarsFrom(buckets, hcData, cal, cal.monthOf(today) - (months - 1), months - 1)
    ensures buckets[months - 1].steps == SumRange(hcData, cal.firstDayOf(cal.monthOf(today)), today)
  {
    var a := cal.monthOf(today) - (months - 1);
    forall j | 0 <= j < months - 1
      ensures buckets[j].steps == WholeMonthSteps(hcData, cal, a + j)
    {
      assert buckets[j] == MonthBar(hcData, cal, today, a + j);
    }
    assert buckets[months - 1] == MonthBar(hcData, cal, today, a + (months - 1));
  }

  /** Full months from `a` up to `b`, then month `b` up to `today`, tile the
      days from month `a`'s first day through `today`. */
  lemma {:induction false} MonthsThenToday(hcData: map<int, int>, today: int, cal: Calendar, buckets: seq<Bucket>, a: int, b: int)
    requires MonthsAscend(cal)
    requires a <= b && |buckets| == b - a + 1
    requires cal.firstDayOf(b) <= today
    requires FullMonthBarsFrom(buckets, hcData, cal, a, b - a)
    requires buckets[b - a].steps == SumRange(hcData, cal.firstDayOf(b), today)
    ensures Total(buckets) == SumRange(hcData, cal.firstDayOf(a), today)
  {
    FullMonthBars(hcData, cal, buckets, a, b - a);
    FullMonthsTile(hcData, cal, a, b - a);
    TotalPrefix(buckets, b - a);
    assert buckets[..b - a + 1] == buckets;
    FirstDaysAscend(cal, a, b);
    SumRangeSplit(hcData, cal.firstDayOf(a), cal.firstDayOf(b) - 1, today);
  }

  /** The month bars add up to the map summed from the first bar's first
      day through today: no day is counted twice or left out. */
  lemma MonthBucketsTotal(hcData: map<int, int>, today: int, months: nat, cal: Calendar, buckets: seq<Bucket>)
    requires MonthsAscend(cal)
    requires InOwnMonth(cal, today)
    requires months >= 1
    requires MonthBucketsOf(buckets, hcData, today, months, cal)
    ensures Total(buckets) == SumRange(hcData, cal.firstDayOf(cal.monthOf(today) - (months - 1)), today)
  {
    MonthBucketSteps(hcData, today, months, cal, buckets);
    MonthsThenToday(hcData, today, cal, buckets, cal.monthOf(today) - (months - 1), cal.monthOf(today));
  }

  // ---------------------------------------------------------------------
  // The view model

  /** The message `syncUnsyncedData` posts: set only when some row was
      synced, otherwise the previous message stays. */
  function SyncStatusAfter(previous: Option<string>, syncedCount: int): (status: Option<string>)
    ensures syncedCount <= 0 ==> status == previous
    ensures syncedCount > 0 ==>
      && status.Some?
      && |status.value| >= 16
      && status.value[..7] == "Synced "
      && status.value[|status.value| - 8..] == " records"
      && ParseLong(status.value[7..|status.value| - 8]) == Some(syncedCount)
  {
    if syncedCount > 0 then
      var s := "Synced " + LongToString(syncedCount) + " records";
      assert s[7..|s| - 8] == LongToString(syncedCount);
      assert s[..7] == "Synced " && s[|s| - 8..] == " records";
      ParseLongToString(syncedCount);
      Some(s)
    else previous
  }

  class MainViewModel {
    const repository: StepRepository
    const healthConnectManager: HealthConnectManager

    var todaySteps: Option<int>
    var weeklySteps: Option<seq<Bucket>>
    var dailyChartData: Option<seq<ChartPoint>>
    var syncStatus: Option<string>

    ghost predicate Valid()
      reads this, repository.stepLogDao
    {
      repository.stepLogDao.Valid()
    }

    /** A fresh view model has posted nothing yet. */
    constructor (repository: StepRepository, healthConnectManager: HealthConnectManager)
      ensures this.repository == repository && this.healthConnectManager == healthConnectManager
      ensures todaySteps.None? && weeklySteps.None? && dailyChartData.None? && syncStatus.None?
    {
      this.repository := repository;
      this.healthConnectManager := healthConnectManager;
      todaySteps := None;
      weeklySteps := None;
      dailyChartData := None;
      syncStatus := None;
    }

    /** `syncUnsyncedData`. */
    method SyncUnsyncedData(user: Option<AuthUser>, now: int, remote: Firestore)
      requires Valid()
      modifies this, repository.stepLogDao
      ensures Valid()
      ensures repository.stepLogDao.table ==
        AfterSync(old(repository.stepLogDao.table), UserIdOf(user), user, now, remote)
      ensures syncStatus == SyncStatusAfter(old(syncStatus),
        |ConfirmedKeys(old(repository.stepLogDao.table), UserIdOf(user), user, now, remote)|)
      ensures todaySteps == old(todaySteps) && weeklySteps == old(weeklySteps)
      ensures dailyChartData == old(dailyChartData)
    {
      var syncedCount, _ := repository.SyncUnsyncedLogsToFirebase(UserIdOf(user), user, now, remote);
      syncStatus := SyncStatusAfter(syncStatus, syncedCount);
    }

    /** `loadFromLocalDatabase`: today's total as stored locally. */
    method LoadFromLocalDatabase(user: Option<AuthUser>, z: Zone, today: int)
      requires Valid()
      modifies this
      ensures Valid()
      ensures todaySteps == Some(MapSum(StepsOf(repository.stepLogDao.table,
        DayKeys(repository.stepLogDao.table, UserIdOf(user), z.startOfDay(today)))))
      ensures weeklySteps == old(weeklySteps) && dailyChartData == old(dailyChartData)
      ensures syncStatus == old(syncStatus)
    {
      var totalSteps := repository.GetTotalStepsForDate(UserIdOf(user), z.startOfDay(today));
      todaySteps := Some(totalSteps);
    }

    /** `loadTodaySteps`: today's intervals become rows dated today's
        midnight and are inserted if new; today's total is the sum of the
        intervals read, then unsynced rows are pushed. When there are rows to
        insert and the local table refuses them (`saveThrows`), nothing is
        stored and today's total is the stored one; with no intervals no
        insert is issued, so nothing can be refused. */
    method LoadTodaySteps(user: Option<AuthUser>, z: Zone, today: int, now: int, remote: Firestore,
                          saveThrows: bool)
      requires Valid()
      modifies this, repository.stepLogDao
      ensures Valid()
      ensures
        var intervals := GetStepIntervalsForDate(healthConnectManager, z, today);
        var stored := InsertAllIfNew(old(repository.stepLogDao.table),
                                     TodayLogs(intervals, z.startOfDay(today), UserIdOf(user)));
        if saveThrows && |intervals| != 0 then
          && repository.stepLogDao.table == old(repository.stepLogDao.table)
          && todaySteps == Some(MapSum(StepsOf(old(repository.stepLogDao.table),
               DayKeys(old(repository.stepLogDao.table), UserIdOf(user), z.startOfDay(today)))))
          && syncStatus == old(syncStatus)
        else
          && repository.stepLogDao.table == AfterSync(stored, UserIdOf(user), user, now, remote)
          && todaySteps == Some(SumSteps(intervals))
          && syncStatus == SyncStatusAfter(old(syncStatus),
               |ConfirmedKeys(stored, UserIdOf(user), user, now, remote)|)
      ensures weeklySteps == old(weeklySteps) && dailyChartData == old(dailyChartData)
    {
      var dateMillis := z.startOfDay(today);
      var intervals := GetStepIntervalsForDate(healthConnectManager, z, today);
      var stepLogs := TodayLogs(intervals, dateMillis, UserIdOf(user));
      if |stepLogs| != 0 {
        if saveThrows {
          LoadFromLocalDatabase(user, z, today);
          return;
        }
        repository.SaveStepLogsIfNew(stepLogs);
      }
      todaySteps := Some(SumSteps(intervals));
      SyncUnsyncedData(user, now, remote);
    }

    /** `syncRangeToRoom`: the intervals of `startDate..endDate` become rows
        dated by their own start day and are inserted if new; a refused
        insert is ignored. */
    method SyncRangeToRoom(user: Option<AuthUser>, z: Zone, startDate: int, endDate: int, saveThrows: bool)
      requires Valid()
      modifies repository.stepLogDao
      ensures Valid()
      ensures repository.stepLogDao.table ==
        if saveThrows then old(repository.stepLogDao.table)
        else InsertAllIfNew(old(repository.stepLogDao.table),
          RangeLogs(GetStepIntervalsForDateRange(healthConnectManager, z, startDate, endDate), z, UserIdOf(user)))
    {
      var intervals := GetStepIntervalsForDateRange(healthConnectManager, z, startDate, endDate);
      var stepLogs := RangeLogs(intervals, z, UserIdOf(user));
      if |stepLogs| != 0 && !saveThrows {
        repository.SaveStepLogsIfNew(stepLogs);
      }
    }

    /** `loadWeeklyData`: seven day bars ending today, labelled by weekday,
        then the week is copied into the local table. */
    method LoadWeeklyData(user: Option<AuthUser>, z: Zone, today: int, saveThrows: bool)
      requires Valid()
      modifies this, repository.stepLogDao
      ensures Valid()
      ensures weeklySteps.Some? &&
        DayBucketsOf(weeklySteps.value, GetStepsForDateRange(healthConnectManager, z, today - 6, today), today, 7, WeekdayTitles())
      ensures weeklySteps.Some? && Total(weeklySteps.value) ==
        SumRange(GetStepsForDateRange(healthConnectManager, z, today - 6, today), today - 6, today)
      ensures repository.stepLogDao.table ==
        if saveThrows then old(repository.stepLogDao.table)
        else InsertAllIfNew(old(repository.stepLogDao.table),
          RangeLogs(GetStepIntervalsForDateRange(healthConnectManager, z, today - 6, today), z, UserIdOf(user)))
      ensures todaySteps == old(todaySteps) && dailyChartData == old(dailyChartData)
      ensures syncStatus == old(syncStatus)
    {
      var hcData := GetStepsForDateRange(healthConnectManager, z, today - 6, today);
      var weekData := DayBuckets(hcData, today, 7, WeekdayTitles());
      weeklySteps := Some(weekData);
      SyncRangeToRoom(user, z, today - 6, today, saveThrows);
    }

    /** `loadMonthlyData`: thirty day bars ending today, labelled by day of
        the month, then the range is copied into the local table. */
    method LoadMonthlyData(user: Option<AuthUser>, z: Zone, cal: Calendar, today: int, saveThrows: bool)
      requires Valid()
      modifies this, repository.stepLogDao
      ensures Valid()
      ensures weeklySteps.Some? &&
        DayBucketsOf(weeklySteps.value, GetStepsForDateRange(healthConnectManager, z, today - 29, today), today, 30,
                     DayOfMonthTitles(cal))
      ensures weeklySteps.Some? && Total(weeklySteps.value) ==
        SumRange(GetStepsForDateRange(healthConnectManager, z, today - 29, today), today - 29, today)
      ensures repository.stepLogDao.table ==
        if saveThrows then old(repository.stepLogDao.table)
        else InsertAllIfNew(old(repository.stepLogDao.table),
          RangeLogs(GetStepIntervalsForDateRange(healthConnectManager, z, today - 29, today), z, UserIdOf(user)))
      ensures todaySteps == old(todaySteps) && dailyChartData == old(dailyChartData)
      ensures syncStatus == old(syncStatus)
    {
      var hcData := GetStepsForDateRange(healthConnectManager, z, today - 29, today);
      var monthData := DayBuckets(hcData, today, 30, DayOfMonthTitles(cal));
      weeklySteps := Some(monthData);
      SyncRangeToRoom(user, z, today - 29, today, saveThrows);
    }

    /** `loadSixMonthData` (`months == 6`) and `loadYearData`
        (`months == 12`): one bar per calendar month from the first day of
        the month `months - 1` months back through today. */
    method LoadMonthBars(user: Option<AuthUser>, z: Zone, cal: Calendar, today: int, months: nat, saveThrows: bool)
      requires Valid()
      modifies this, repository.stepLogDao
      ensures Valid()
      ensures
        var rangeStart := cal.firstDayOf(cal.monthOf(today) - (months - 1));
        weeklySteps.Some? &&
        MonthBucketsOf(weeklySteps.value, GetStepsForDateRange(healthConnectManager, z, rangeStart, today), today, months, cal)
      ensures MonthsAscend(cal) && InOwnMonth(cal, today) && months >= 1 ==>
        var rangeStart := cal.firstDayOf(cal.monthOf(today) - (months - 1));
        weeklySteps.Some? && Total(weeklySteps.value) ==
          SumRange(GetStepsForDateRange(healthConnectManager, z, rangeStart, today), rangeStart, today)
      ensures repository.stepLogDao.table ==
        if saveThrows then old(repository.stepLogDao.table)
        else InsertAllIfNew(old(repository.stepLogDao.table),
          RangeLogs(GetStepIntervalsForDateRange(healthConnectManager, z, cal.firstDayOf(cal.monthOf(today) - (months - 1)), today), z, UserIdOf(user)))
      ensures todaySteps == old(todaySteps) && dailyChartData == old(dailyChartData)
      ensures syncStatus == old(syncStatus)
    {
      var rangeStart := cal.firstDayOf(cal.monthOf(today) - (months - 1));
      var hcData := GetStepsForDateRange(healthConnectManager, z, rangeStart, today);
      var data := MonthBuckets(hcData, today, months, cal);
      if MonthsAscend(cal) && InOwnMonth(cal, today) && months >= 1 {
        MonthBucketsTotal(hcData, today, months, cal, data);
      }
      weeklySteps := Some(data);
      SyncRangeToRoom(user, z, rangeStart, today, saveThrows);
    }

    method LoadSixMonthData(user: Option<AuthUser>, z: Zone, cal: Calendar, today: int, saveThrows: bool)
      requires Valid()
      modifies this, repository.stepLogDao
      ensures Valid()
      ensures weeklySteps.Some? && MonthBucketsOf(weeklySteps.value,
        GetStepsForDateRange(healthConnectManager, z, cal.firstDayOf(cal.monthOf(today) - 5), today), today, 6, cal)
      ensures repository.stepLogDao.table ==
        if saveThrows then old(repository.stepLogDao.table)
        else InsertAllIfNew(old(repository.stepLogDao.table),
          RangeLogs(GetStepIntervalsForDateRange(healthConnectManager, z, cal.firstDayOf(cal.monthOf(today) - 5), today), z, UserIdOf(user)))
      ensures todaySteps == old(todaySteps) && dailyChartData == old(dailyChartData)
      ensures syncStatus == old(syncStatus)
    {
      LoadMonthBars(user, z, cal, today, 6, saveThrows);
    }

    method LoadYearData(user: Option<AuthUser>, z: Zone, cal: Calendar, today: int, saveThrows: bool)
      requires Valid()
      modifies this, repository.stepLogDao
      ensures Valid()
      ensures weeklySteps.Some? && MonthBucketsOf(weeklySteps.value,
        GetStepsForDateRange(healthConnectManager, z, cal.firstDayOf(cal.monthOf(today) - 11), today), today, 12, cal)
      ensures repository.stepLogDao.table ==
        if saveThrows then old(repository.stepLogDao.table)
        else InsertAllIfNew(old(repository.stepLogDao.table),
          RangeLogs(GetStepIntervalsForDateRange(healthConnectManager, z, cal.firstDayOf(cal.monthOf(today) - 11), today), z, UserIdOf(user)))
      ensures todaySteps == old(todaySteps) && dailyChartData == old(dailyChartData)
      ensures syncStatus == old(syncStatus)
    {
      LoadMonthBars(user, z, cal, today, 12, saveThrows);
    }

    /** `loadDailyData`: today's intervals sorted by start and turned into
        the running-total chart, ending at `nowMinute`. */
    method LoadDailyData(z: Zone, today: int, nowMinute: int)
      modifies this
      ensures dailyChartData.Some? &&
        IsDailyChart(dailyChartData.value, SortByStart(GetStepIntervalsForDate(healthConnectManager, z, today)), nowMinute)
      ensures dailyChartData.Some? && dailyChartData.value[|dailyChartData.value| - 1].cumulative ==
        GetStepsForDate(healthConnectManager, z, today)
      ensures todaySteps == old(todaySteps) && weeklySteps == old(weeklySteps)
      ensures syncStatus == old(syncStatus)
    {
      var intervals := GetStepIntervalsForDate(healthConnectManager, z, today);
      var sorted := SortByStart(intervals);
      var dataPoints := DailyChartPoints(sorted, z, nowMinute);
      DailyChartTotal(dataPoints, intervals, nowMinute);
      dailyChartData := Some(dataPoints);
    }
  }
}
