/** `FirebaseService`: copies local step logs into Cloud Firestore, one
    document per log. Firestore itself is an oracle: `remote` tells what the
    awaited `set(...)` call of a given write did. */
module Remote {
  import opened Options
  import opened Decimal
  import opened StepLogs

  /** The signed-in Firebase user (`FirebaseAuth.currentUser`). */
  datatype AuthUser = AuthUser(uid: string, displayName: Option<string>)

  /** The fields written into a step-log document. */
  datatype Payload = Payload(timestamp: int, date: int, steps: int, userName: string, syncedAt: int)

  /** One `document(path).set(data)` call. */
  datatype WriteRequest = WriteRequest(path: seq<string>, data: Payload)

  /** How the awaited write ended: it completed, or it threw. */
  datatype WriteOutcome = Completed | Threw

  type Firestore = WriteRequest -> WriteOutcome

  /** `stepsCollection()`: the user's own sub-collection when someone is
      signed in, the top-level collection otherwise. */
  function StepsCollection(user: Option<AuthUser>): seq<string> {
    match user
    case Some(u) => ["users", u.uid, "step_logs"]
    case None => ["step_logs"]
  }

  /** `user?.displayName ?: "Unknown"`. */
  function UserName(user: Option<AuthUser>): string {
    match user
    case Some(u) => u.displayName.GetOr("Unknown")
    case None => "Unknown"
  }

  /** The write `syncStepLog` issues for `log`, at wall-clock time `now`:
      the document is named by the decimal text of the log's timestamp and
      the log's own fields are copied unchanged. */
  function WriteFor(log: StepLog, user: Option<AuthUser>, now: int): (w: WriteRequest)
    ensures |w.path| == |StepsCollection(user)| + 1
    ensures w.path[..|w.path| - 1] == StepsCollection(user)
    ensures ParseLong(w.path[|w.path| - 1]) == Some(log.timestamp)
    ensures w.data.timestamp == log.timestamp && w.data.date == log.date && w.data.steps == log.steps
    ensures w.data.userName == UserName(user) && w.data.syncedAt == now
  {
    ParseLongToString(log.timestamp);
    WriteRequest(StepsCollection(user) + [LongToString(log.timestamp)],
      Payload(log.timestamp, log.date, log.steps, UserName(user), now))
  }

  /** Two logs go to the same document exactly when they have the same
      timestamp, whatever else differs and whenever they are written: a
      retried sync overwrites the document it wrote before. */
  lemma SameDocumentIffSameTimestamp(a: StepLog, b: StepLog, user: Option<AuthUser>, now: int, later: int)
    ensures WriteFor(a, user, now).path == WriteFor(b, user, later).path <==> a.timestamp == b.timestamp
  {
    var pa, pb := WriteFor(a, user, now).path, WriteFor(b, user, later).path;
    if pa == pb {
      assert pa[|pa| - 1] == pb[|pb| - 1];
    }
  }

  /** `syncStepLog`: true when the write completed; a write that threw is
      caught and reported as false. */
  function SyncStepLog(log: StepLog, user: Option<AuthUser>, now: int, remote: Firestore): (ok: bool)
    ensures ok <==> remote(WriteFor(log, user, now)) == Completed
    ensures remote(WriteFor(log, user, now)) == Threw ==> !ok
  {
    match remote(WriteFor(log, user, now))
    case Completed => true
    case Threw => false
  }

  /** `syncStepLog` as a test on logs, for one user, clock reading and
      Firestore. */
  function Accepts(user: Option<AuthUser>, now: int, remote: Firestore): StepLog -> bool {
    log => SyncStepLog(log, user, now, remote)
  }

  /** The timestamps of the logs that pass `accepted`, in list order. */
  function Confirmed(logs: seq<StepLog>, accepted: StepLog -> bool): seq<int>
    decreases |logs|
  {
    if logs == [] then []
    else
      var init, last := logs[..|logs| - 1], logs[|logs| - 1];
      Confirmed(init, accepted) + (if accepted(last) then [last.timestamp] else [])
  }

  /** The timestamps listed for a longer prefix: one more when the next
      log passes. */
  lemma ConfirmedPrefix(logs: seq<StepLog>, i: int, accepted: StepLog -> bool)
    requires 0 <= i < |logs|
    ensures Confirmed(logs[..i + 1], accepted) ==
      Confirmed(logs[..i], accepted) + (if accepted(logs[i]) then [logs[i].timestamp] else [])
  {
    assert logs[..i + 1][..i] == logs[..i];
  }

  /** The full prefix of the logs lists what the logs list. */
  lemma ConfirmedWhole(logs: seq<StepLog>, accepted: StepLog -> bool)
    ensures Confirmed(logs[..|logs|], accepted) == Confirmed(logs, accepted)
  {
    assert logs[..|logs|] == logs;
  }

  /** No more timestamps than logs, and each one is the timestamp of a log
      that passed. */
  lemma {:induction false} ConfirmedFromLogs(logs: seq<StepLog>, accepted: StepLog -> bool)
    ensures |Confirmed(logs, accepted)| <= |logs|
    ensures forall k :: k in Confirmed(logs, accepted) ==>
      exists i :: 0 <= i < |logs| && logs[i].timestamp == k && accepted(logs[i])
    decreases |logs|
  {
    if logs != [] {
      var init := logs[..|logs| - 1];
      ConfirmedFromLogs(init, accepted);
      forall k | k in Confirmed(logs, accepted)
        ensures exists i :: 0 <= i < |logs| && logs[i].timestamp == k && accepted(logs[i])
      {
        if k in Confirmed(init, accepted) {
          var i :| 0 <= i < |init| && init[i].timestamp == k && accepted(init[i]);
          assert logs[i] == init[i];
        } else {
          assert logs[|logs| - 1].timestamp == k;
        }
      }
    }
  }

  /** When the logs have distinct timestamps, a log's timestamp is listed
      exactly when it passed, and no timestamp is listed twice. */
  lemma {:induction false} ConfirmedExactly(logs: seq<StepLog>, accepted: StepLog -> bool)
    requires DistinctTimestamps(logs)
    ensures forall i :: 0 <= i < |logs| ==>
      (logs[i].timestamp in Confirmed(logs, accepted) <==> accepted(logs[i]))
    ensures NoDuplicates(Confirmed(logs, accepted))
    decreases |logs|
  {
    if logs != [] {
      var init, last := logs[..|logs| - 1], logs[|logs| - 1];
      assert DistinctTimestamps(init);
      ConfirmedExactly(init, accepted);
      ConfirmedFromLogs(init, accepted);
      var c := Confirmed(init, accepted);
      assert last.timestamp !in c;
      forall i | 0 <= i < |init|
        ensures logs[i].timestamp in Confirmed(logs, accepted) <==> accepted(logs[i])
      {
        assert logs[i] == init[i];
        assert logs[i].timestamp != last.timestamp;
      }
    }
  }

  /** No value occurs twice. */
  predicate NoDuplicates(s: seq<int>) {
    forall i, j :: 0 <= i < j < |s| ==> s[i] != s[j]
  }

  /** `writes` holds the write of each log, in list order. */
  ghost predicate WritesFor(writes: seq<WriteRequest>, logs: seq<StepLog>, user: Option<AuthUser>, now: int) {
    |writes| == |logs| && forall i :: 0 <= i < |logs| ==> writes[i] == WriteFor(logs[i], user, now)
  }

  /** The writes of a prefix, followed by the next log's write, are the
      writes of the longer prefix. */
  lemma WritesForPrefix(writes: seq<WriteRequest>, logs: seq<StepLog>, i: int, user: Option<AuthUser>, now: int)
    requires 0 <= i < |logs|
    requires WritesFor(writes, logs[..i], user, now)
    ensures WritesFor(writes + [WriteFor(logs[i], user, now)], logs[..i + 1], user, now)
  {
  }

  lemma WritesForWhole(writes: seq<WriteRequest>, logs: seq<StepLog>, user: Option<AuthUser>, now: int)
    requires WritesFor(writes, logs[..|logs|], user, now)
    ensures WritesFor(writes, logs, user, now)
  {
    assert logs[..|logs|] == logs;
  }

  /** `syncMultipleStepLogs`: tries each log once, in list order, and
      collects the timestamps of the writes that completed. `writes` lists
      the writes issued, one per log. */
  method SyncMultipleStepLogs(logs: seq<StepLog>, user: Option<AuthUser>, now: int, remote: Firestore)
    returns (syncedTimestamps: seq<int>, ghost writes: seq<WriteRequest>)
    ensures syncedTimestamps == Confirmed(logs, Accepts(user, now, remote))
    ensures WritesFor(writes, logs, user, now)
  {
    syncedTimestamps := [];
    writes := [];
    ghost var accepted := Accepts(user, now, remote);
    for i := 0 to |logs|
      invariant syncedTimestamps == Confirmed(logs[..i], accepted)
      invariant WritesFor(writes, logs[..i], user, now)
    {
      ConfirmedPrefix(logs, i, accepted);
      WritesForPrefix(writes, logs, i, user, now);
      writes := writes + [WriteFor(logs[i], user, now)];
      var ok := SyncStepLog(logs[i], user, now, remote);
      assert ok == accepted(logs[i]);
      if ok {
        syncedTimestamps := syncedTimestamps + [logs[i].timestamp];
      }
    }
    ConfirmedWhole(logs, accepted);
    WritesForWhole(writes, logs, user, now);
  }
}
