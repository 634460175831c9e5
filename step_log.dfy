/** The `step_logs` row: one Health Connect step interval as it is kept on
    the device. */
module StepLogs {

  /** A row. `timestamp` (the interval's start instant) is the primary key;
      `date` is the start-of-day instant of the day the row is filed under;
      `userId` is the signed-in account the row belongs to. Equality is
      structural over all five fields, as for a Kotlin data class. */
  datatype StepLog = StepLog(
    timestamp: int,
    date: int,
    steps: int,
    userId: string,
    syncedToFirebase: bool)

  /** The constructor call that leaves `syncedToFirebase` at its default. */
  function NewStepLog(timestamp: int, date: int, steps: int, userId: string): (log: StepLog)
    ensures log.timestamp == timestamp && log.date == date
    ensures log.steps == steps && log.userId == userId
    ensures !log.syncedToFirebase
  {
    StepLog(timestamp, date, steps, userId, false)
  }

  /** The primary keys of a list of rows. */
  function TimestampsOf(logs: seq<StepLog>): set<int> {
    set log | log in logs :: log.timestamp
  }

  /** No two rows of the list share a primary key. */
  predicate DistinctTimestamps(logs: seq<StepLog>) {
    forall i, j :: 0 <= i < j < |logs| ==> logs[i].timestamp != logs[j].timestamp
  }

  lemma TimestampsOfAppend(logs: seq<StepLog>, log: StepLog)
    ensures TimestampsOf(logs + [log]) == TimestampsOf(logs) + {log.timestamp}
  {
    assert forall l :: l in logs + [log] <==> l in logs || l == log;
  }
}
