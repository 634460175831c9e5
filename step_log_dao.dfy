/** The Room DAO over the `step_logs` table. The table is a map from primary
    key (`timestamp`) to row; every statement of the DAO is a method of
    `StepLogDao` that reads or rewrites that map. */
module LocalStore {
  import opened StepLogs
  import opened Totals

  type Table = map<int, StepLog>

  /** Every row is stored under its own primary key. */
  ghost predicate Keyed(t: Table) {
    forall ts :: ts in t ==> t[ts].timestamp == ts
  }

  /** `@Insert(onConflict = REPLACE)` of each log in list order: a log whose
      key is taken overwrites the row. */
  function ReplaceAll(t: Table, logs: seq<StepLog>): (r: Table)
    ensures r.Keys == t.Keys + TimestampsOf(logs)
    ensures forall ts :: ts in t && ts !in TimestampsOf(logs) ==> r[ts] == t[ts]
    ensures Keyed(t) ==> Keyed(r)
    decreases |logs|
  {
    if logs == [] then t
    else
      var init, last := logs[..|logs| - 1], logs[|logs| - 1];
      assert logs == init + [last];
      ReplaceAll(t, init)[last.timestamp := last]
  }

  /** `@Insert(onConflict = IGNORE)` of each log in list order: a log whose
      key is taken, by an earlier row or an earlier log of the list, is
      dropped. */
  function InsertAllIfNew(t: Table, logs: seq<StepLog>): (r: Table)
    ensures r.Keys == t.Keys + TimestampsOf(logs)
    ensures forall ts :: ts in t ==> r[ts] == t[ts]
    ensures Keyed(t) ==> Keyed(r)
    decreases |logs|
  {
    if logs == [] then t
    else
      var init, last := logs[..|logs| - 1], logs[|logs| - 1];
      assert logs == init + [last];
      var before := InsertAllIfNew(t, init);
      if last.timestamp in before then before else before[last.timestamp := last]
  }

  /** Logs whose keys are all taken change nothing. */
  lemma {:induction false} InsertAllIfNewOfTakenKeys(t: Table, logs: seq<StepLog>)
    requires TimestampsOf(logs) <= t.Keys
    ensures InsertAllIfNew(t, logs) == t
    decreases |logs|
  {
    if logs != [] {
      var init := logs[..|logs| - 1];
      assert logs == init + [logs[|logs| - 1]];
      TimestampsOfAppend(init, logs[|logs| - 1]);
      InsertAllIfNewOfTakenKeys(t, init);
    }
  }

  /** Inserting the same logs if new a second time changes nothing. */
  lemma InsertAllIfNewIdempotent(t: Table, logs: seq<StepLog>)
    ensures InsertAllIfNew(InsertAllIfNew(t, logs), logs) == InsertAllIfNew(t, logs)
  {
    InsertAllIfNewOfTakenKeys(InsertAllIfNew(t, logs), logs);
  }

  /** A key that was free is taken by the first log of the list that carries it. */
  lemma {:induction false} InsertAllIfNewFirstWins(t: Table, logs: seq<StepLog>, i: int)
    requires 0 <= i < |logs| && logs[i].timestamp !in t
    requires forall j :: 0 <= j < i ==> logs[j].timestamp != logs[i].timestamp
    ensures InsertAllIfNew(t, logs)[logs[i].timestamp] == logs[i]
    decreases |logs|
  {
    var init, last := logs[..|logs| - 1], logs[|logs| - 1];
    assert logs == init + [last];
    if i == |logs| - 1 {
      assert last.timestamp !in TimestampsOf(init);
    } else {
      assert init[i] == logs[i];
      InsertAllIfNewFirstWins(t, init, i);
    }
  }

  /** A replaced key holds the last log of the list that carries it. */
  lemma {:induction false} ReplaceAllLastWins(t: Table, logs: seq<StepLog>, i: int)
    requires 0 <= i < |logs|
    requires forall j :: i < j < |logs| ==> logs[j].timestamp != logs[i].timestamp
    ensures ReplaceAll(t, logs)[logs[i].timestamp] == logs[i]
    decreases |logs|
  {
    var init, last := logs[..|logs| - 1], logs[|logs| - 1];
    assert logs == init + [last];
    if i < |logs| - 1 {
      assert init[i] == logs[i];
      ReplaceAllLastWins(t, init, i);
    }
  }

  /** `@Update`: rewrites the row with the log's key; no row, no change. */
  function UpdateRow(t: Table, log: StepLog): (r: Table)
    ensures r.Keys == t.Keys
    ensures forall ts :: ts in t && ts != log.timestamp ==> r[ts] == t[ts]
    ensures log.timestamp in t ==> r[log.timestamp] == log
    ensures Keyed(t) ==> Keyed(r)
  {
    if log.timestamp in t then t[log.timestamp := log] else t
  }

  /** `UPDATE step_logs SET syncedToFirebase = 1 WHERE timestamp = :ts`. */
  function MarkSynced(t: Table, ts: int): (r: Table)
    ensures r.Keys == t.Keys
    ensures forall k :: k in t && k != ts ==> r[k] == t[k]
    ensures ts in t ==> r[ts] == t[ts].(syncedToFirebase := true)
    ensures Keyed(t) ==> Keyed(r)
  {
    if ts in t then t[ts := t[ts].(syncedToFirebase := true)] else t
  }

  /** `markAsSynced` for each key of the list in order. */
  function MarkAllSynced(t: Table, tss: seq<int>): (r: Table)
    decreases |tss|
  {
    if tss == [] then t else MarkSynced(MarkAllSynced(t, tss[..|tss| - 1]), tss[|tss| - 1])
  }

  /** Marking one more key of a list extends the marking of its prefix. */
  lemma MarkAllSyncedStep(t: Table, tss: seq<int>, i: int)
    requires 0 <= i < |tss|
    ensures MarkAllSynced(t, tss[..i + 1]) == MarkSynced(MarkAllSynced(t, tss[..i]), tss[i])
  {
    assert tss[..i + 1][..i] == tss[..i];
  }

  /** Marking the whole of a list as its full prefix. */
  lemma MarkAllSyncedWhole(t: Table, tss: seq<int>)
    ensures MarkAllSynced(t, tss[..|tss|]) == MarkAllSynced(t, tss)
  {
    assert tss[..|tss|] == tss;
  }

  /** Marking a list of keys sets the flag on exactly the rows those keys
      name, never clears a flag and changes no other field. */
  lemma {:induction false} MarkAllSyncedRows(t: Table, tss: seq<int>)
    ensures MarkAllSynced(t, tss).Keys == t.Keys
    ensures forall k :: k in t ==>
      MarkAllSynced(t, tss)[k] == (if k in tss then t[k].(syncedToFirebase := true) else t[k])
    decreases |tss|
  {
    if tss != [] {
      var init := tss[..|tss| - 1];
      MarkAllSyncedRows(t, init);
      assert tss == init + [tss[|tss| - 1]];
    }
  }

  /** `WHERE userId = :userId`. */
  function UserKeys(t: Table, userId: string): set<int> {
    set ts | ts in t && t[ts].userId == userId
  }

  /** `WHERE userId = :userId AND date = :date`. */
  function DayKeys(t: Table, userId: string, date: int): set<int> {
    set ts | ts in t && t[ts].userId == userId && t[ts].date == date
  }

  /** `WHERE userId = :userId AND date >= :startDate AND date <= :endDate`. */
  function RangeKeys(t: Table, userId: string, startDate: int, endDate: int): set<int> {
    set ts | ts in t && t[ts].userId == userId && startDate <= t[ts].date <= endDate
  }

  /** `WHERE userId = :userId AND syncedToFirebase = 0`. */
  function UnsyncedKeys(t: Table, userId: string): set<int> {
    set ts | ts in t && t[ts].userId == userId && !t[ts].syncedToFirebase
  }

  /** The `steps` of the rows with the given keys, keyed alike. */
  function StepsOf(t: Table, keys: set<int>): map<int, int> {
    map ts | ts in keys && ts in t :: t[ts].steps
  }

  /** `ORDER BY timestamp ASC` when `ascending`, `DESC` otherwise. */
  predicate Before(ascending: bool, a: int, b: int) {
    if ascending then a < b else a > b
  }

  predicate InOrder(logs: seq<StepLog>, ascending: bool) {
    forall i, j :: 0 <= i < j < |logs| ==> Before(ascending, logs[i].timestamp, logs[j].timestamp)
  }

  /** The list holds the stored rows with the given keys, each once. */
  predicate RowsOf(logs: seq<StepLog>, t: Table, keys: set<int>) {
    && DistinctTimestamps(logs)
    && TimestampsOf(logs) == keys
    && forall i :: 0 <= i < |logs| ==> logs[i].timestamp in t && t[logs[i].timestamp] == logs[i]
  }

  /** A non-empty set of keys has a least key. */
  lemma {:induction false} LeastExists(s: set<int>)
    requires s != {}
    ensures exists k :: k in s && forall x :: x in s ==> k <= x
    decreases |s|
  {
    HasElement(s);
    var y :| y in s;
    if s != {y} {
      var rest := s - {y};
      assert rest != {};
      assert forall x :: x in s ==> x == y || x in rest;
      LeastExists(rest);
      var k :| k in rest && forall x :: x in rest ==> k <= x;
      if y < k {
        assert forall x :: x in s ==> y <= x;
      } else {
        assert forall x :: x in s ==> k <= x;
      }
    } else {
      assert forall x :: x in s ==> y <= x;
    }
  }

  /** A non-empty set of keys has a greatest key. */
  lemma GreatestExists(s: set<int>)
    requires s != {}
    ensures exists k :: k in s && forall x :: x in s ==> x <= k
  {
    var negated := set x | x in s :: -x;
    HasElement(s);
    var y :| y in s;
    assert -y in negated;
    LeastExists(negated);
    var n :| n in negated && forall x :: x in negated ==> n <= x;
    forall x | x in s
      ensures x <= -n
    {
      assert -x in negated;
    }
  }

  /** A non-empty set of keys has a first key in either order. */
  lemma FirstExists(s: set<int>, ascending: bool)
    requires s != {}
    ensures exists k :: k in s && forall x :: x in s && x != k ==> Before(ascending, k, x)
  {
    if ascending {
      LeastExists(s);
      var k :| k in s && forall x :: x in s ==> k <= x;
      assert forall x :: x in s && x != k ==> Before(ascending, k, x);
    } else {
      GreatestExists(s);
      var k :| k in s && forall x :: x in s ==> x <= k;
      assert forall x :: x in s && x != k ==> Before(ascending, k, x);
    }
  }

  /** Appending a key later than every listed key keeps the list in order. */
  lemma InOrderAppend(logs: seq<StepLog>, log: StepLog, ascending: bool)
    requires InOrder(logs, ascending)
    requires forall i :: 0 <= i < |logs| ==> Before(ascending, logs[i].timestamp, log.timestamp)
    ensures InOrder(logs + [log], ascending)
  {
  }

  /** Rows listed in strict key order are listed once each. */
  lemma InOrderDistinct(logs: seq<StepLog>, ascending: bool)
    requires InOrder(logs, ascending)
    ensures DistinctTimestamps(logs)
  {
  }

  /** The state of a selection sort that has listed, in order, the rows
      whose keys are in `keys` but not in `rest`. */
  ghost predicate Selecting(t: Table, keys: set<int>, rest: set<int>, logs: seq<StepLog>, ascending: bool) {
    && SelectedKeys(keys, rest, logs)
    && (forall i :: 0 <= i < |logs| ==> logs[i].timestamp in t && t[logs[i].timestamp] == logs[i])
    && SelectedInOrder(rest, logs, ascending)
  }

  ghost predicate SelectedKeys(keys: set<int>, rest: set<int>, logs: seq<StepLog>) {
    && rest <= keys
    && |logs| + |rest| == |keys|
    && TimestampsOf(logs) !! rest
    && TimestampsOf(logs) + rest == keys
  }

  ghost predicate SelectedInOrder(rest: set<int>, logs: seq<StepLog>, ascending: bool) {
    && InOrder(logs, ascending)
    && (forall i, k :: 0 <= i < |logs| && k in rest ==> Before(ascending, logs[i].timestamp, k))
  }

  lemma SelectedKeysStep(keys: set<int>, rest: set<int>, logs: seq<StepLog>, log: StepLog)
    requires SelectedKeys(keys, rest, logs) && log.timestamp in rest
    ensures SelectedKeys(keys, rest - {log.timestamp}, logs + [log])
  {
    TimestampsOfAppend(logs, log);
  }

  lemma SelectedInOrderStep(rest: set<int>, logs: seq<StepLog>, ascending: bool, log: StepLog)
    requires SelectedInOrder(rest, logs, ascending)
    requires log.timestamp in rest
    requires forall x :: x in rest && x != log.timestamp ==> Before(ascending, log.timestamp, x)
    ensures SelectedInOrder(rest - {log.timestamp}, logs + [log], ascending)
  {
    InOrderAppend(logs, log, ascending);
    var logs' := logs + [log];
    forall i, x | 0 <= i < |logs'| && x in rest - {log.timestamp}
      ensures Before(ascending, logs'[i].timestamp, x)
    {
      if i < |logs| {
        assert logs'[i] == logs[i];
      }
    }
  }

  /** Listing the first remaining key next keeps the selection in order. */
  lemma SelectingStep(t: Table, keys: set<int>, rest: set<int>, logs: seq<StepLog>, ascending: bool, k: int)
    requires Keyed(t) && keys <= t.Keys
    requires Selecting(t, keys, rest, logs, ascending)
    requires k in rest && forall x :: x in rest && x != k ==> Before(ascending, k, x)
    ensures Selecting(t, keys, rest - {k}, logs + [t[k]], ascending)
  {
    assert t[k].timestamp == k;
    SelectedKeysStep(keys, rest, logs, t[k]);
    SelectedInOrderStep(rest, logs, ascending, t[k]);
  }

  class StepLogDao {
    var table: Table

    ghost predicate Valid()
      reads this
    {
      Keyed(table)
    }

    constructor ()
      ensures Valid() && table == map[]
    {
      table := map[];
    }

    /** The rows with the given keys, ordered by `timestamp`. */
    method SortedRows(keys: set<int>, ascending: bool) returns (logs: seq<StepLog>)
      requires Valid() && keys <= table.Keys
      ensures RowsOf(logs, table, keys) && InOrder(logs, ascending)
      ensures |logs| == |keys|
    {
      logs := [];
      var rest := keys;
      while rest != {}
        invariant Selecting(table, keys, rest, logs, ascending)
        decreases |rest|
      {
        FirstExists(rest, ascending);
        var k :| k in rest && forall x :: x in rest && x != k ==> Before(ascending, k, x);
        SelectingStep(table, keys, rest, logs, ascending, k);
        logs := logs + [table[k]];
        rest := rest - {k};
      }
      InOrderDistinct(logs, ascending);
    }

    /** `getAllStepLogs`, read once: the user's rows, newest first. */
    method GetAllStepLogs(userId: string) returns (logs: seq<StepLog>)
      requires Valid()
      ensures RowsOf(logs, table, UserKeys(table, userId)) && InOrder(logs, false)
    {
      logs := SortedRows(UserKeys(table, userId), false);
    }

    /** `getStepLogsByDate`: the user's rows filed under `date`, oldest first. */
    method GetStepLogsByDate(userId: string, date: int) returns (logs: seq<StepLog>)
      requires Valid()
      ensures RowsOf(logs, table, DayKeys(table, userId, date)) && InOrder(logs, true)
    {
      logs := SortedRows(DayKeys(table, userId, date), true);
    }

    /** `getTotalStepsForDate`: `COALESCE(SUM(steps), 0)` over the user's
        rows filed under `date`. */
    method GetTotalStepsForDate(userId: string, date: int) returns (total: int)
      requires Valid()
      ensures total == MapSum(StepsOf(table, DayKeys(table, userId, date)))
      ensures DayKeys(table, userId, date) == {} ==> total == 0
    {
      var keys := DayKeys(table, userId, date);
      total := 0;
      var rest := keys;
      while rest != {}
        invariant rest <= keys
        invariant total + MapSum(StepsOf(table, rest)) == MapSum(StepsOf(table, keys))
        decreases |rest|
      {
        HasElement(rest);
        var k :| k in rest;
        MapSumRemove(StepsOf(table, rest), k);
        assert StepsOf(table, rest) - {k} == StepsOf(table, rest - {k});
        total := total + table[k].steps;
        rest := rest - {k};
      }
      assert StepsOf(table, rest) == map[];
    }

    /** `getUnsyncedLogs`: the user's rows not yet synced. The query has no
        `ORDER BY`, so only the rows are promised, not their order. */
    method GetUnsyncedLogs(userId: string) returns (logs: seq<StepLog>)
      requires Valid()
      ensures RowsOf(logs, table, UnsyncedKeys(table, userId))
      ensures |logs| == |UnsyncedKeys(table, userId)|
    {
      logs := SortedRows(UnsyncedKeys(table, userId), true);
    }

    /** `insertStepLog`: insert, or replace the row with the same key. */
    method InsertStepLog(log: StepLog)
      requires Valid()
      modifies this
      ensures Valid()
      ensures table == old(table)[log.timestamp := log]
    {
      table := table[log.timestamp := log];
    }

    /** `insertStepLogs`: `insertStepLog` for each log in order. */
    method InsertStepLogs(logs: seq<StepLog>)
      requires Valid()
      modifies this
      ensures Valid()
      ensures table == ReplaceAll(old(table), logs)
    {
      for i := 0 to |logs|
        invariant Valid()
        invariant table == ReplaceAll(old(table), logs[..i])
      {
        assert logs[..i + 1][..i] == logs[..i];
        table := table[logs[i].timestamp := logs[i]];
      }
      assert logs[..|logs|] == logs;
    }

    /** `insertStepLogsIfNew`: each log is inserted only when its key is free. */
    method InsertStepLogsIfNew(logs: seq<StepLog>)
      requires Valid()
      modifies this
      ensures Valid()
      ensures table == InsertAllIfNew(old(table), logs)
    {
      for i := 0 to |logs|
        invariant Valid()
        invariant table == InsertAllIfNew(old(table), logs[..i])
      {
        assert logs[..i + 1][..i] == logs[..i];
        if logs[i].timestamp !in table {
          table := table[logs[i].timestamp := logs[i]];
        }
      }
      assert logs[..|logs|] == logs;
    }

    /** `updateStepLog`: rewrites the row with the log's key, if there is one. */
    method UpdateStepLog(log: StepLog)
      requires Valid()
      modifies this
      ensures Valid()
      ensures table == UpdateRow(old(table), log)
    {
      if log.timestamp in table {
        table := table[log.timestamp := log];
      }
    }

    /** `markAsSynced`: sets the flag of the row keyed `timestamp`, whoever
        owns it. */
    method MarkAsSynced(timestamp: int)
      requires Valid()
      modifies this
      ensures Valid()
      ensures table == MarkSynced(old(table), timestamp)
    {
      if timestamp in table {
        table := table[timestamp := table[timestamp].(syncedToFirebase := true)];
      }
    }

    /** `getStepLogsBetweenDates`: the user's rows filed under a date in
        `[startDate, endDate]`, oldest first. */
    method GetStepLogsBetweenDates(userId: string, startDate: int, endDate: int) returns (logs: seq<StepLog>)
      requires Valid()
      ensures RowsOf(logs, table, RangeKeys(table, userId, startDate, endDate)) && InOrder(logs, true)
    {
      logs := SortedRows(RangeKeys(table, userId, startDate, endDate), true);
    }

    /** `getRecentStepLogs`: the user's `limit` newest rows, newest first.
        SQLite reads a negative `LIMIT` as no limit. */
    method GetRecentStepLogs(userId: string, limit: int) returns (logs: seq<StepLog>)
      requires Valid()
      ensures InOrder(logs, false)
      ensures forall i :: 0 <= i < |logs| ==>
        logs[i].timestamp in UserKeys(table, userId) && table[logs[i].timestamp] == logs[i]
      ensures |logs| == if 0 <= limit < |UserKeys(table, userId)| then limit else |UserKeys(table, userId)|
      ensures forall i, k :: 0 <= i < |logs| && k in UserKeys(table, userId) && k !in TimestampsOf(logs) ==>
        k < logs[i].timestamp
    {
      var all := SortedRows(UserKeys(table, userId), false);
      if 0 <= limit < |all| {
        logs := all[..limit];
        forall i, k | 0 <= i < |logs| && k in UserKeys(table, userId) && k !in TimestampsOf(logs)
          ensures k < logs[i].timestamp
        {
          var j :| 0 <= j < |all| && all[j].timestamp == k;
        }
      } else {
        logs := all;
      }
    }
  }
}
