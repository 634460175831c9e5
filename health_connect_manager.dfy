/** `HealthConnectManager`: reads step records from Health Connect and shapes
    them into intervals, totals and per-day sums. The Health Connect client is
    an oracle: what a read returns and which permissions are granted are
    parameters. Every failure (no client, a read or a check that throws)
    turns into an empty list, an empty map, 0 or false. */
module Health {
  import opened Options
  import opened Totals
  import opened TimeModel

  /** A Health Connect `StepsRecord`: `count` steps between two instants. */
  datatype StepsRecord = StepsRecord(startTime: int, endTime: int, count: int)

  /** `HealthConnectManager.StepInterval`. */
  datatype StepInterval = StepInterval(startTime: int, endTime: int, steps: int)

  /** `TimeRangeFilter.between(start, end)`: the instants `start <= t < end`. */
  datatype TimeRange = TimeRange(start: int, end: int)

  predicate InRange(r: TimeRange, t: int) {
    r.start <= t < r.end
  }

  /** What a client call does: return a value or throw. */
  datatype Outcome<T> = Returned(value: T) | Threw

  /** The permissions a Health Connect client can grant. */
  datatype Permission = ReadSteps | WriteSteps | OtherPermission(name: string)

  /** The client handle: `readRecords` for step records over a range and
      `getGrantedPermissions`. */
  datatype HealthConnectClient = HealthConnectClient(
    readRecords: TimeRange -> Outcome<seq<StepsRecord>>,
    grantedPermissions: Outcome<set<Permission>>)

  /** The manager's only state: the client, absent when Health Connect is not
      available on the device. */
  datatype HealthConnectManager = HealthConnectManager(healthConnectClient: Option<HealthConnectClient>)

  /** The manager's `init`: the client is created only when the SDK status
      says Health Connect is available. */
  function NewHealthConnectManager(sdkAvailable: bool, client: HealthConnectClient): (m: HealthConnectManager)
    ensures m.healthConnectClient.Some? <==> sdkAvailable
    ensures m.healthConnectClient.Some? ==> m.healthConnectClient.value == client
  {
    HealthConnectManager(if sdkAvailable then Some(client) else None)
  }

  /** `permissions`: read and write access to step records. */
  const RequiredPermissions: set<Permission> := {ReadSteps, WriteSteps}

  /** `hasAllPermissions`: false without a client or when the check throws;
      otherwise whether both step permissions were granted. */
  function HasAllPermissions(m: HealthConnectManager): (b: bool)
    ensures m.healthConnectClient.None? ==> !b
    ensures m.healthConnectClient.Some? && m.healthConnectClient.value.grantedPermissions.Threw? ==> !b
    ensures b <==>
      && m.healthConnectClient.Some?
      && m.healthConnectClient.value.grantedPermissions.Returned?
      && ReadSteps in m.healthConnectClient.value.grantedPermissions.value
      && WriteSteps in m.healthConnectClient.value.grantedPermissions.value
  {
    match m.healthConnectClient
    case None => false
    case Some(client) =>
      match client.grantedPermissions
      case Threw => false
      case Returned(granted) => RequiredPermissions <= granted
  }

  /** The query window for the local dates `startDate..endDate`: from local
      midnight of `startDate` up to, not including, local midnight of the day
      after `endDate`. */
  function DayWindow(z: Zone, startDate: int, endDate: int): TimeRange {
    TimeRange(z.startOfDay(startDate), z.startOfDay(endDate + 1))
  }

  /** An instant lies in the window of `startDate..endDate` exactly when its
      local date is one of those dates. */
  lemma DayWindowContains(z: Zone, startDate: int, endDate: int, t: int)
    requires MidnightsAscend(z)
    requires InsideOwnDay(z, t)
    ensures InRange(DayWindow(z, startDate, endDate), t) <==> startDate <= z.dateOf(t) <= endDate
  {
    var d := z.dateOf(t);
    if startDate < d {
      MidnightsMonotone(z, startDate, d);
    }
    if d < startDate {
      if d + 1 < startDate {
        MidnightsMonotone(z, d + 1, startDate);
      }
    }
    if d < endDate {
      MidnightsMonotone(z, d + 1, endDate + 1);
    }
    if endDate < d {
      if endDate + 1 < d {
        MidnightsMonotone(z, endDate + 1, d);
      }
    }
  }

  /** The records a read returns, or `None` when there is no client or the
      read throws. */
  function ReadRecords(m: HealthConnectManager, window: TimeRange): (r: Option<seq<StepsRecord>>)
    ensures m.healthConnectClient.None? ==> r.None?
    ensures m.healthConnectClient.Some? ==>
      (r.None? <==> m.healthConnectClient.value.readRecords(window).Threw?)
    ensures r.Some? ==>
      && m.healthConnectClient.Some?
      && m.healthConnectClient.value.readRecords(window) == Returned(r.value)
  {
    match m.healthConnectClient
    case None => None
    case Some(client) =>
      match client.readRecords(window)
      case Threw => None
      case Returned(records) => Some(records)
  }

  /** `records.map { StepInterval(...) }`: one interval per record, in record
      order, with its start, end and count. */
  function ToIntervals(records: seq<StepsRecord>): (s: seq<StepInterval>)
    ensures |s| == |records|
    ensures forall i :: 0 <= i < |s| ==>
      s[i].startTime == records[i].startTime && s[i].endTime == records[i].endTime && s[i].steps == records[i].count
    decreases |records|
  {
    if records == [] then []
    else
      var last := records[|records| - 1];
      ToIntervals(records[..|records| - 1]) + [StepInterval(last.startTime, last.endTime, last.count)]
  }

  /** The intervals read for a window; empty on any failure. */
  function IntervalsIn(m: HealthConnectManager, window: TimeRange): (s: seq<StepInterval>)
    ensures ReadRecords(m, window).None? ==> s == []
    ensures ReadRecords(m, window).Some? ==> |s| == |ReadRecords(m, window).value|
  {
    match ReadRecords(m, window)
    case None => []
    case Some(records) => ToIntervals(records)
  }

  /** `getStepIntervalsForDate`. */
  function GetStepIntervalsForDate(m: HealthConnectManager, z: Zone, date: int): (s: seq<StepInterval>)
    ensures m.healthConnectClient.None? ==> s == []
    ensures ReadRecords(m, DayWindow(z, date, date)).None? ==> s == []
    ensures ReadRecords(m, DayWindow(z, date, date)).Some? ==>
      s == ToIntervals(ReadRecords(m, DayWindow(z, date, date)).value)
  {
    IntervalsIn(m, DayWindow(z, date, date))
  }

  /** `getStepIntervalsForDateRange`. */
  function GetStepIntervalsForDateRange(m: HealthConnectManager, z: Zone, startDate: int, endDate: int)
    : (s: seq<StepInterval>)
    ensures m.healthConnectClient.None? ==> s == []
    ensures ReadRecords(m, DayWindow(z, startDate, endDate)).None? ==> s == []
    ensures ReadRecords(m, DayWindow(z, startDate, endDate)).Some? ==>
      s == ToIntervals(ReadRecords(m, DayWindow(z, startDate, endDate)).value)
  {
    IntervalsIn(m, DayWindow(z, startDate, endDate))
  }

  /** `records.sumOf { it.count }`. */
  function SumCounts(records: seq<StepsRecord>): int
    decreases |records|
  {
    if records == [] then 0 else SumCounts(records[..|records| - 1]) + records[|records| - 1].count
  }

  /** `intervals.sumOf { it.steps }`. */
  function SumSteps(intervals: seq<StepInterval>): int
    decreases |intervals|
  {
    if intervals == [] then 0 else SumSteps(intervals[..|intervals| - 1]) + intervals[|intervals| - 1].steps
  }

  /** Shaping records into intervals keeps their total. */
  lemma {:induction false} SumStepsOfIntervals(records: seq<StepsRecord>)
    ensures SumSteps(ToIntervals(records)) == SumCounts(records)
    decreases |records|
  {
    if records != [] {
      var init := records[..|records| - 1];
      SumStepsOfIntervals(init);
      assert ToIntervals(records)[..|records| - 1] == ToIntervals(init);
    }
  }

  /** `getStepsBetween`: the total count of the records read, 0 on failure. */
  function GetStepsBetween(m: HealthConnectManager, window: TimeRange): (n: int)
    ensures ReadRecords(m, window).None? ==> n == 0
    ensures n == SumSteps(IntervalsIn(m, window))
  {
    match ReadRecords(m, window)
    case None => 0
    case Some(records) => SumStepsOfIntervals(records); SumCounts(records)
  }

  /** `getStepsForDate`: the total over the date's window. */
  function GetStepsForDate(m: HealthConnectManager, z: Zone, date: int): (n: int)
    ensures n == SumSteps(GetStepIntervalsForDate(m, z, date))
    ensures m.healthConnectClient.None? ==> n == 0
  {
    GetStepsBetween(m, DayWindow(z, date, date))
  }

  /** `getTodaySteps`, with the clock's local date passed in as `today`. */
  function GetTodaySteps(m: HealthConnectManager, z: Zone, today: int): (n: int)
    ensures n == SumSteps(GetStepIntervalsForDate(m, z, today))
    ensures m.healthConnectClient.None? ==> n == 0
  {
    GetStepsForDate(m, z, today)
  }

  /** `groupBy { local date of startTime }.mapValues { sumOf { count } }`. */
  function GroupByDate(z: Zone, records: seq<StepsRecord>): map<int, int>
    decreases |records|
  {
    if records == [] then map[]
    else
      var g := GroupByDate(z, records[..|records| - 1]);
      var last := records[|records| - 1];
      var d := z.dateOf(last.startTime);
      g[d := ValueOrZero(g, d) + last.count]
  }

  /** The local dates on which at least one record starts. */
  function StartDates(z: Zone, records: seq<StepsRecord>): set<int> {
    set i | 0 <= i < |records| :: z.dateOf(records[i].startTime)
  }

  /** The total count of the records that start on local date `d`. */
  function CountOn(z: Zone, records: seq<StepsRecord>, d: int): int
    decreases |records|
  {
    if records == [] then 0
    else
      var last := records[|records| - 1];
      CountOn(z, records[..|records| - 1], d) + (if z.dateOf(last.startTime) == d then last.count else 0)
  }

  /** The grouped map has a key for exactly the dates some record starts on
      (dates without records are absent, not 0), and each value is the total
      count of the records starting on that date. */
  lemma {:induction false} GroupByDateEntries(z: Zone, records: seq<StepsRecord>)
    ensures GroupByDate(z, records).Keys == StartDates(z, records)
    ensures forall d :: d in GroupByDate(z, records) ==> GroupByDate(z, records)[d] == CountOn(z, records, d)
    ensures forall d :: d !in GroupByDate(z, records) ==> CountOn(z, records, d) == 0
    decreases |records|
  {
    if records != [] {
      var init := records[..|records| - 1];
      GroupByDateEntries(z, init);
      var n := |records| - 1;
      assert StartDates(z, records) == StartDates(z, init) + {z.dateOf(records[n].startTime)} by {
        forall d | d in StartDates(z, records)
          ensures d in StartDates(z, init) + {z.dateOf(records[n].startTime)}
        {
          var i :| 0 <= i < |records| && z.dateOf(records[i].startTime) == d;
          if i < n {
            assert init[i] == records[i];
          }
        }
        forall d | d in StartDates(z, init)
          ensures d in StartDates(z, records)
        {
          var i :| 0 <= i < |init| && z.dateOf(init[i].startTime) == d;
          assert records[i] == init[i];
        }
      }
    }
  }

  /** The grouped map's values add up to the total count of all records. */
  lemma {:induction false} GroupByDateTotal(z: Zone, records: seq<StepsRecord>)
    ensures MapSum(GroupByDate(z, records)) == SumCounts(records)
    decreases |records|
  {
    if records != [] {
      var init := records[..|records| - 1];
      var last := records[|records| - 1];
      GroupByDateTotal(z, init);
      MapSumAdd(GroupByDate(z, init), z.dateOf(last.startTime), last.count);
    }
  }

  /** `getStepsForDateRange`: the per-date totals of the records read for the
      window of `startDate..endDate`; an empty map on failure. */
  function GetStepsForDateRange(m: HealthConnectManager, z: Zone, startDate: int, endDate: int)
    : (g: map<int, int>)
    ensures ReadRecords(m, DayWindow(z, startDate, endDate)).None? ==> g == map[]
    ensures ReadRecords(m, DayWindow(z, startDate, endDate)).Some? ==>
      var records := ReadRecords(m, DayWindow(z, startDate, endDate)).value;
      g.Keys == StartDates(z, records) &&
      (forall d :: d in g ==> g[d] == CountOn(z, records, d)) &&
      MapSum(g) == SumCounts(records)
  {
    match ReadRecords(m, DayWindow(z, startDate, endDate))
    case None => map[]
    case Some(records) =>
      GroupByDateEntries(z, records);
      GroupByDateTotal(z, records);
      GroupByDate(z, records)
  }

  /** When every record read starts on one of the queried dates, summing the
      per-date map over those dates gives the total count read, which is
      what `getStepsBetween` reports for the same window. */
  lemma StepsForDateRangeTotal(m: HealthConnectManager, z: Zone, startDate: int, endDate: int)
    requires ReadRecords(m, DayWindow(z, startDate, endDate)).Some? ==>
      forall r :: r in ReadRecords(m, DayWindow(z, startDate, endDate)).value ==>
        startDate <= z.dateOf(r.startTime) <= endDate
    ensures SumRange(GetStepsForDateRange(m, z, startDate, endDate), startDate, endDate) ==
      GetStepsBetween(m, DayWindow(z, startDate, endDate))
  {
    var g := GetStepsForDateRange(m, z, startDate, endDate);
    match ReadRecords(m, DayWindow(z, startDate, endDate))
    case None =>
      SumRangeOfAbsentDays(g, startDate, endDate);
    case Some(records) =>
      forall k | k in g
        ensures startDate <= k <= endDate
      {
        var i :| 0 <= i < |records| && z.dateOf(records[i].startTime) == k;
        assert records[i] in records;
      }
      SumRangeCoversMap(g, startDate, endDate);
  }
}
