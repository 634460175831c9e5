/** `StepRepository`: the single entry point to the local table and the
    remote copy. Saves and queries pass straight through to the DAO; the
    sync pass pushes the user's unsynced rows to Firestore and flags the
    rows whose write completed. */
module Repository {
  import opened Options
  import opened StepLogs
  import opened LocalStore
  import opened Remote

  /** The keys of `userId`'s unsynced rows whose Firestore write completes. */
  function ConfirmedKeys(t: Table, userId: string, user: Option<AuthUser>, now: int, remote: Firestore): set<int> {
    set ts | ts in UnsyncedKeys(t, userId) && SyncStepLog(t[ts], user, now, remote)
  }

  /** The table with the flag set on the rows whose keys are in `keys`. */
  function FlagRows(t: Table, keys: set<int>): Table {
    map ts | ts in t :: if ts in keys then t[ts].(syncedToFirebase := true) else t[ts]
  }

  /** The table a sync pass leaves behind: the rows whose write completed
      are flagged, nothing else changes. */
  function AfterSync(t: Table, userId: string, user: Option<AuthUser>, now: int, remote: Firestore): Table {
    FlagRows(t, ConfirmedKeys(t, userId, user, now, remote))
  }

  /** A sync pass keeps every row, changes no field but the flag, never
      clears a flag, and leaves unsynced exactly the user's rows whose write
      did not complete (and every other user's unsynced rows). */
  lemma AfterSyncRows(t: Table, userId: string, user: Option<AuthUser>, now: int, remote: Firestore)
    ensures AfterSync(t, userId, user, now, remote).Keys == t.Keys
    ensures forall ts :: ts in t ==>
      AfterSync(t, userId, user, now, remote)[ts].(syncedToFirebase := t[ts].syncedToFirebase) == t[ts]
    ensures forall ts :: ts in t && t[ts].syncedToFirebase ==> AfterSync(t, userId, user, now, remote)[ts].syncedToFirebase
    ensures UnsyncedKeys(AfterSync(t, userId, user, now, remote), userId) ==
      UnsyncedKeys(t, userId) - ConfirmedKeys(t, userId, user, now, remote)
    ensures forall other :: other != userId ==>
      UnsyncedKeys(AfterSync(t, userId, user, now, remote), other) == UnsyncedKeys(t, other)
  {
    var r := AfterSync(t, userId, user, now, remote);
    assert forall ts :: ts in t ==> r[ts].userId == t[ts].userId;
  }

  /** When every write completes, the pass leaves the user nothing to sync. */
  lemma AfterSyncAllAccepted(t: Table, userId: string, user: Option<AuthUser>, now: int, remote: Firestore)
    requires forall ts :: ts in UnsyncedKeys(t, userId) ==> SyncStepLog(t[ts], user, now, remote)
    ensures UnsyncedKeys(AfterSync(t, userId, user, now, remote), userId) == {}
  {
    AfterSyncRows(t, userId, user, now, remote);
    forall ts | ts in UnsyncedKeys(t, userId)
      ensures ts in ConfirmedKeys(t, userId, user, now, remote)
    {
    }
  }

  /** Firestore's verdict on a log's write does not depend on the
      `syncedAt` clock reading the write carries. */
  ghost predicate IgnoresClock(remote: Firestore, user: Option<AuthUser>) {
    forall log: StepLog, at: int :: remote(WriteFor(log, user, at)) == remote(WriteFor(log, user, 0))
  }

  /** A second pass, at any later clock reading, against a Firestore whose
      verdicts do not depend on the clock confirms nothing new: the rows it
      finds unsynced are the ones whose write failed before, and those
      writes fail again. The table stays as the first pass left it. */
  lemma AfterSyncIdempotent(t: Table, userId: string, user: Option<AuthUser>, now: int, later: int, remote: Firestore)
    requires IgnoresClock(remote, user)
    ensures ConfirmedKeys(AfterSync(t, userId, user, now, remote), userId, user, later, remote) == {}
    ensures AfterSync(AfterSync(t, userId, user, now, remote), userId, user, later, remote) ==
      AfterSync(t, userId, user, now, remote)
  {
    var r := AfterSync(t, userId, user, now, remote);
    AfterSyncRows(t, userId, user, now, remote);
    forall ts | ts in UnsyncedKeys(r, userId)
      ensures !SyncStepLog(r[ts], user, later, remote)
    {
      assert r[ts] == t[ts];
      assert remote(WriteFor(t[ts], user, later)) == remote(WriteFor(t[ts], user, 0));
      assert remote(WriteFor(t[ts], user, now)) == remote(WriteFor(t[ts], user, 0));
    }
  }

  /** At the same clock reading no assumption on Firestore is needed: a
      second pass confirms nothing and changes nothing. */
  lemma AfterSyncSameInstant(t: Table, userId: string, user: Option<AuthUser>, now: int, remote: Firestore)
    ensures ConfirmedKeys(AfterSync(t, userId, user, now, remote), userId, user, now, remote) == {}
    ensures AfterSync(AfterSync(t, userId, user, now, remote), userId, user, now, remote) ==
      AfterSync(t, userId, user, now, remote)
  {
    var r := AfterSync(t, userId, user, now, remote);
    AfterSyncRows(t, userId, user, now, remote);
    forall ts | ts in UnsyncedKeys(r, userId)
      ensures !SyncStepLog(r[ts], user, now, remote)
    {
      assert r[ts] == t[ts];
    }
  }

  /** A list without repeats has as many distinct values as elements. */
  lemma {:induction false} NoDuplicatesCardinality(s: seq<int>)
    requires NoDuplicates(s)
    ensures |set x | x in s| == |s|
    decreases |s|
  {
    if s != [] {
      var init := s[..|s| - 1];
      NoDuplicatesCardinality(init);
      assert (set x | x in s) == (set x | x in init) + {s[|s| - 1]};
      assert s[|s| - 1] !in init;
    }
  }

  /** Filtering the rows listed for `keys` confirms exactly the keys whose
      row passes. */
  lemma ConfirmedMembers(logs: seq<StepLog>, t: Table, keys: set<int>, accepted: StepLog -> bool)
    requires RowsOf(logs, t, keys)
    ensures forall k :: k in Confirmed(logs, accepted) <==> k in keys && k in t && accepted(t[k])
    ensures NoDuplicates(Confirmed(logs, accepted))
  {
    ConfirmedFromLogs(logs, accepted);
    ConfirmedExactly(logs, accepted);
    forall k | k in keys && k in t && accepted(t[k])
      ensures k in Confirmed(logs, accepted)
    {
      assert k in TimestampsOf(logs);
      var log :| log in logs && log.timestamp == k;
      var i :| 0 <= i < |logs| && logs[i] == log;
    }
  }

  /** Every row listed for `keys` gets its write. */
  lemma WritesCoverRows(logs: seq<StepLog>, t: Table, keys: set<int>, writes: seq<WriteRequest>,
                        user: Option<AuthUser>, now: int)
    requires RowsOf(logs, t, keys)
    requires WritesFor(writes, logs, user, now)
    ensures forall ts :: ts in keys ==> ts in t && WriteFor(t[ts], user, now) in writes
  {
    forall ts | ts in keys
      ensures ts in t && WriteFor(t[ts], user, now) in writes
    {
      assert ts in TimestampsOf(logs);
      var log :| log in logs && log.timestamp == ts;
      var i :| 0 <= i < |logs| && logs[i] == log;
      assert writes[i] == WriteFor(t[ts], user, now);
    }
  }

  /** Marking a list of keys one by one flags the rows of the keys listed. */
  lemma MarkAllSyncedFlags(t: Table, tss: seq<int>, keys: set<int>)
    requires forall k :: k in tss <==> k in keys
    ensures MarkAllSynced(t, tss) == FlagRows(t, keys)
  {
    MarkAllSyncedRows(t, tss);
    var r := MarkAllSynced(t, tss);
    forall k | k in t
      ensures r[k] == FlagRows(t, keys)[k]
    {
    }
  }

  /** Marking the timestamps that `syncMultipleStepLogs` returns for the
      user's unsynced rows gives `AfterSync`, and there are as many of them
      as confirmed keys. */
  lemma SyncPass(t: Table, userId: string, user: Option<AuthUser>, now: int, remote: Firestore,
                 logs: seq<StepLog>, synced: seq<int>)
    requires RowsOf(logs, t, UnsyncedKeys(t, userId))
    requires synced == Confirmed(logs, Accepts(user, now, remote))
    ensures MarkAllSynced(t, synced) == AfterSync(t, userId, user, now, remote)
    ensures |synced| == |ConfirmedKeys(t, userId, user, now, remote)|
  {
    var confirmed := ConfirmedKeys(t, userId, user, now, remote);
    ConfirmedMembers(logs, t, UnsyncedKeys(t, userId), Accepts(user, now, remote));
    assert forall k :: k in synced <==> k in confirmed;
    assert (set x | x in synced) == confirmed;
    NoDuplicatesCardinality(synced);
    MarkAllSyncedFlags(t, synced, confirmed);
  }

  class StepRepository {
    const stepLogDao: StepLogDao

    constructor (stepLogDao: StepLogDao)
      ensures this.stepLogDao == stepLogDao
    {
      this.stepLogDao := stepLogDao;
    }

    /** `getAllStepLogs`, read once. */
    method GetAllStepLogs(userId: string) returns (logs: seq<StepLog>)
      requires stepLogDao.Valid()
      ensures RowsOf(logs, stepLogDao.table, UserKeys(stepLogDao.table, userId)) && InOrder(logs, false)
    {
      logs := stepLogDao.GetAllStepLogs(userId);
    }

    method GetStepLogsByDate(userId: string, date: int) returns (logs: seq<StepLog>)
      requires stepLogDao.Valid()
      ensures RowsOf(logs, stepLogDao.table, DayKeys(stepLogDao.table, userId, date)) && InOrder(logs, true)
    {
      logs := stepLogDao.GetStepLogsByDate(userId, date);
    }

    method GetTotalStepsForDate(userId: string, date: int) returns (total: int)
      requires stepLogDao.Valid()
      ensures total == Totals.MapSum(StepsOf(stepLogDao.table, DayKeys(stepLogDao.table, userId, date)))
    {
      total := stepLogDao.GetTotalStepsForDate(userId, date);
    }

    /** `saveStepLog`: insert or replace. */
    method SaveStepLog(stepLog: StepLog)
      requires stepLogDao.Valid()
      modifies stepLogDao
      ensures stepLogDao.Valid()
      ensures stepLogDao.table == old(stepLogDao.table)[stepLog.timestamp := stepLog]
    {
      stepLogDao.InsertStepLog(stepLog);
    }

    /** `saveStepLogs`: insert or replace, each in order. */
    method SaveStepLogs(stepLogs: seq<StepLog>)
      requires stepLogDao.Valid()
      modifies stepLogDao
      ensures stepLogDao.Valid()
      ensures stepLogDao.table == ReplaceAll(old(stepLogDao.table), stepLogs)
    {
      stepLogDao.InsertStepLogs(stepLogs);
    }

    /** `saveStepLogsIfNew`: insert the logs whose keys are free. */
    method SaveStepLogsIfNew(stepLogs: seq<StepLog>)
      requires stepLogDao.Valid()
      modifies stepLogDao
      ensures stepLogDao.Valid()
      ensures stepLogDao.table == InsertAllIfNew(old(stepLogDao.table), stepLogs)
    {
      stepLogDao.InsertStepLogsIfNew(stepLogs);
    }

    method GetStepLogsBetweenDates(userId: string, startDate: int, endDate: int) returns (logs: seq<StepLog>)
      requires stepLogDao.Valid()
      ensures RowsOf(logs, stepLogDao.table, RangeKeys(stepLogDao.table, userId, startDate, endDate))
      ensures InOrder(logs, true)
    {
      logs := stepLogDao.GetStepLogsBetweenDates(userId, startDate, endDate);
    }

    method GetRecentStepLogs(userId: string, limit: int) returns (logs: seq<StepLog>)
      requires stepLogDao.Valid()
      ensures InOrder(logs, false)
      ensures forall i :: 0 <= i < |logs| ==>
        logs[i].timestamp in UserKeys(stepLogDao.table, userId) && stepLogDao.table[logs[i].timestamp] == logs[i]
      ensures |logs| ==
        if 0 <= limit < |UserKeys(stepLogDao.table, userId)| then limit else |UserKeys(stepLogDao.table, userId)|
      ensures forall i, k :: 0 <= i < |logs| && k in UserKeys(stepLogDao.table, userId) && k !in TimestampsOf(logs) ==>
        k < logs[i].timestamp
    {
      logs := stepLogDao.GetRecentStepLogs(userId, limit);
    }

    /** `syncUnsyncedLogsToFirebase`: tries each of the user's unsynced rows
        once, flags the ones whose write completed and returns how many
        those were. `writes` lists the Firestore writes issued. */
    method SyncUnsyncedLogsToFirebase(userId: string, user: Option<AuthUser>, now: int, remote: Firestore)
      returns (count: int, ghost writes: seq<WriteRequest>)
      requires stepLogDao.Valid()
      modifies stepLogDao
      ensures stepLogDao.Valid()
      ensures stepLogDao.table == AfterSync(old(stepLogDao.table), userId, user, now, remote)
      ensures count == |ConfirmedKeys(old(stepLogDao.table), userId, user, now, remote)|
      ensures |writes| == |UnsyncedKeys(old(stepLogDao.table), userId)|
      ensures forall ts :: ts in UnsyncedKeys(old(stepLogDao.table), userId) ==>
        WriteFor(old(stepLogDao.table)[ts], user, now) in writes
    {
      ghost var t0 := stepLogDao.table;
      var unsyncedLogs := stepLogDao.GetUnsyncedLogs(userId);
      if |unsyncedLogs| == 0 {
        SyncPass(t0, userId, user, now, remote, unsyncedLogs, []);
        return 0, [];
      }
      var syncedTimestamps;
      syncedTimestamps, writes := SyncMultipleStepLogs(unsyncedLogs, user, now, remote);
      WritesCoverRows(unsyncedLogs, t0, UnsyncedKeys(t0, userId), writes, user, now);
      SyncPass(t0, userId, user, now, remote, unsyncedLogs, syncedTimestamps);
      for i := 0 to |syncedTimestamps|
        invariant stepLogDao.Valid()
        invariant stepLogDao.table == MarkAllSynced(t0, syncedTimestamps[..i])
      {
        MarkAllSyncedStep(t0, syncedTimestamps, i);
        stepLogDao.MarkAsSynced(syncedTimestamps[i]);
      }
      MarkAllSyncedWhole(t0, syncedTimestamps);
      count := |syncedTimestamps|;
    }
  }
}
