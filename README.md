# StepScape step-log pipeline in Dafny

StepScape is an Android step counter. It reads step records from Health
Connect and copies them, one row per interval, into a local Room table
(`step_logs`, keyed by the interval's start instant). It pushes rows that are
not yet synced to Cloud Firestore and flags the rows whose write completed.
It also shapes the same records into the dashboard's series:

- today's total;
- the intraday running-total chart;
- one bar per day for the last 7 or 30 days;
- one bar per calendar month for the last 6 or 12 months.

This project models that pipeline and proves what it promises:

- `StepLog` is a datatype.
- The DAO is a class whose `table` is a map from primary key to row.
- The Firestore service and the repository are methods with loops over that class.
- The Health Connect manager is a set of functions over the records a read returns.
- The view model is a class whose fields are the values it posts.

Modelling choices:

- Instants are integer milliseconds and local dates are epoch-day numbers.
- The device time zone (`Zone`: local date of an instant, local midnight of a date, minute of the day) is a parameter. So is the calendar's month structure (`Calendar`: month of a date, first day of a month).
- The facts the code relies on are stated where they are needed. Midnights increase (`MidnightsAscend`). Months start in order (`MonthsAscend`). An instant lies inside its own day, and a date inside its own month (`InsideOwnDay`, `InOwnMonth`).
- Health Connect is an oracle. What `readRecords` returns for a window (or whether it throws) and which permissions are granted are fields of `HealthConnectClient`.
- Firestore is an oracle too: `Firestore` maps each write request to `Completed` or `Threw`.
- The signed-in user, the wall clock (`today`, `now`, `nowMinute`) and whether the local table refuses an insert (`saveThrows`) are parameters.

Two loaders assign a row's `date` differently:

- `loadTodaySteps` files every row under today's midnight, whatever day its interval started on.
- `syncRangeToRoom` files each row under the midnight of its interval's own start day.

`TodayLogs` and `RangeLogs` keep that difference. `TodayAndRangeAgree` shows that the two agree for every interval that starts today. Because rows are inserted only when their key is free, whichever loader stores a key first decides its `date`.

## Model

| member | source | states |
|---|---|---|
| StepLogs.NewStepLog | app/src/main/java/com/sametyigit/stepscape/data/local/StepLog.kt:7-14 | a new row carries the given key, day, steps and user, and its sync flag is false by default |
| LocalStore.ReplaceAll | app/src/main/java/com/sametyigit/stepscape/data/local/StepLogDao.kt:29-30 | insert-or-replace of a list: the keys are the old keys plus the list's keys, rows with other keys are untouched, and every row stays under its own key |
| LocalStore.ReplaceAllLastWins | app/src/main/java/com/sametyigit/stepscape/data/local/StepLogDao.kt:26-30 | after insert-or-replace, a key holds the last log of the list that carries it |
| LocalStore.InsertAllIfNew | app/src/main/java/com/sametyigit/stepscape/data/local/StepLogDao.kt:32-33 | insert-if-new of a list: the keys are the old keys plus the list's keys, and every existing row is unchanged |
| LocalStore.InsertAllIfNewFirstWins | app/src/main/java/com/sametyigit/stepscape/data/local/StepLogDao.kt:32-33 | a key that was free ends up holding the first log of the list that carries it |
| LocalStore.InsertAllIfNewOfTakenKeys | app/src/main/java/com/sametyigit/stepscape/data/local/StepLogDao.kt:32-33 | logs whose keys are all taken change nothing |
| LocalStore.InsertAllIfNewIdempotent | app/src/main/java/com/sametyigit/stepscape/data/local/StepLogDao.kt:32-33 | inserting the same list if new twice gives the same table as once |
| LocalStore.UpdateRow | app/src/main/java/com/sametyigit/stepscape/data/local/StepLogDao.kt:35-36 | `@Update` rewrites the row with the log's key when there is one; otherwise the table is unchanged; keys never change |
| LocalStore.MarkSynced | app/src/main/java/com/sametyigit/stepscape/data/local/StepLogDao.kt:38-39 | sets the flag of the row with that key, whoever owns it; no-op when absent; every other row is unchanged |
| LocalStore.MarkAllSyncedRows | app/src/main/java/com/sametyigit/stepscape/data/local/StepLogDao.kt:38-39 | marking a list of keys flags exactly the listed rows, keeps all keys and changes no other field |
| LocalStore.StepLogDao.GetAllStepLogs | app/src/main/java/com/sametyigit/stepscape/data/local/StepLogDao.kt:13-14 | exactly the user's rows, each once, newest first |
| LocalStore.StepLogDao.GetStepLogsByDate | app/src/main/java/com/sametyigit/stepscape/data/local/StepLogDao.kt:16-17 | exactly the user's rows filed under that date, oldest first |
| LocalStore.StepLogDao.GetTotalStepsForDate | app/src/main/java/com/sametyigit/stepscape/data/local/StepLogDao.kt:19-21 | the sum of steps over the user's rows filed under that date, 0 when there are none |
| LocalStore.StepLogDao.GetUnsyncedLogs | app/src/main/java/com/sametyigit/stepscape/data/local/StepLogDao.kt:23-24 | exactly the user's rows whose flag is false, each once; no order is promised |
| LocalStore.StepLogDao.InsertStepLog | app/src/main/java/com/sametyigit/stepscape/data/local/StepLogDao.kt:26-27 | the row under the log's key becomes the log; nothing else changes |
| LocalStore.StepLogDao.InsertStepLogs | app/src/main/java/com/sametyigit/stepscape/data/local/StepLogDao.kt:29-30 | the table becomes `ReplaceAll` of the old table and the list |
| LocalStore.StepLogDao.InsertStepLogsIfNew | app/src/main/java/com/sametyigit/stepscape/data/local/StepLogDao.kt:32-33 | the table becomes `InsertAllIfNew` of the old table and the list |
| LocalStore.StepLogDao.UpdateStepLog | app/src/main/java/com/sametyigit/stepscape/data/local/StepLogDao.kt:35-36 | the table becomes `UpdateRow` of the old table |
| LocalStore.StepLogDao.MarkAsSynced | app/src/main/java/com/sametyigit/stepscape/data/local/StepLogDao.kt:38-39 | the table becomes `MarkSynced` of the old table |
| LocalStore.StepLogDao.GetStepLogsBetweenDates | app/src/main/java/com/sametyigit/stepscape/data/local/StepLogDao.kt:41-42 | exactly the user's rows filed under a date in the inclusive range, oldest first |
| LocalStore.StepLogDao.GetRecentStepLogs | app/src/main/java/com/sametyigit/stepscape/data/local/StepLogDao.kt:44-45 | at most `limit` of the user's rows (all when negative), newest first; every row left out is older than every row returned |
| Decimal.LongToString | app/src/main/java/com/sametyigit/stepscape/data/remote/FirebaseService.kt:28 | `Long.toString` is non-empty and starts with '-' exactly for negative numbers |
| Decimal.ParseLongToString | app/src/main/java/com/sametyigit/stepscape/data/remote/FirebaseService.kt:28 | parsing the decimal text of a number gives the number back |
| Decimal.LongToStringInjective | app/src/main/java/com/sametyigit/stepscape/data/remote/FirebaseService.kt:28 | two numbers have the same decimal text exactly when they are equal |
| Remote.WriteFor | app/src/main/java/com/sametyigit/stepscape/data/remote/FirebaseService.kt:12-30 | the document lies in the user's collection (the top-level one when signed out); its name parses back to the log's timestamp; timestamp, date and steps are copied unchanged; the user name defaults to "Unknown"; `syncedAt` is the clock reading |
| Remote.SameDocumentIffSameTimestamp | app/src/main/java/com/sametyigit/stepscape/data/remote/FirebaseService.kt:27-30 | two logs go to the same document exactly when their timestamps are equal, whenever they are written |
| Remote.SyncStepLog | app/src/main/java/com/sametyigit/stepscape/data/remote/FirebaseService.kt:17-36 | true exactly when the awaited write completed; a write that threw gives false |
| Remote.ConfirmedFromLogs | app/src/main/java/com/sametyigit/stepscape/data/remote/FirebaseService.kt:38-46 | no more timestamps than logs, and each one belongs to a log whose write completed |
| Remote.ConfirmedExactly | app/src/main/java/com/sametyigit/stepscape/data/remote/FirebaseService.kt:38-46 | for logs with distinct keys, a log's timestamp is listed exactly when its write completed, and no timestamp is listed twice |
| Remote.SyncMultipleStepLogs | app/src/main/java/com/sametyigit/stepscape/data/remote/FirebaseService.kt:38-46 | one write per log in list order; the result is the timestamps of the logs whose write completed, in list order |
| Repository.AfterSyncRows | app/src/main/java/com/sametyigit/stepscape/data/repository/StepRepository.kt:41-50 | a sync pass keeps every row, changes no field but the flag and never clears a flag. Afterwards the user's unsynced rows are exactly those whose write failed; other users' unsynced rows are untouched |
| Repository.AfterSyncAllAccepted | app/src/main/java/com/sametyigit/stepscape/data/repository/StepRepository.kt:41-50 | when every write completes, the user has no unsynced rows left, so a second pass returns 0 |
| Repository.AfterSyncIdempotent | app/src/main/java/com/sametyigit/stepscape/data/repository/StepRepository.kt:41-50 | a second pass at any later clock reading confirms nothing and leaves the table as the first pass left it. This holds whenever Firestore's verdict on a write does not depend on its `syncedAt` value |
| Repository.AfterSyncSameInstant | app/src/main/java/com/sametyigit/stepscape/data/repository/StepRepository.kt:41-50 | at the same clock reading, a second pass against any Firestore confirms nothing and changes nothing |
| Repository.MarkAllSyncedFlags | app/src/main/java/com/sametyigit/stepscape/data/repository/StepRepository.kt:46-48 | marking a list of keys one by one flags exactly the rows of the set those keys form |
| Repository.SyncPass | app/src/main/java/com/sametyigit/stepscape/data/repository/StepRepository.kt:42-49 | marking the timestamps returned for the user's unsynced rows gives the table `AfterSync` describes, and there are as many of them as confirmed rows |
| Repository.StepRepository.GetAllStepLogs | app/src/main/java/com/sametyigit/stepscape/data/repository/StepRepository.kt:13 | the DAO's rows for the user, newest first |
| Repository.StepRepository.GetStepLogsByDate | app/src/main/java/com/sametyigit/stepscape/data/repository/StepRepository.kt:15-16 | the user's rows of that date, oldest first |
| Repository.StepRepository.GetTotalStepsForDate | app/src/main/java/com/sametyigit/stepscape/data/repository/StepRepository.kt:18-19 | the sum of the user's steps filed under that date |
| Repository.StepRepository.SaveStepLog | app/src/main/java/com/sametyigit/stepscape/data/repository/StepRepository.kt:21-23 | replace semantics: the log's key now holds the log |
| Repository.StepRepository.SaveStepLogs | app/src/main/java/com/sametyigit/stepscape/data/repository/StepRepository.kt:25-27 | the table becomes `ReplaceAll` of the old table and the list |
| Repository.StepRepository.SaveStepLogsIfNew | app/src/main/java/com/sametyigit/stepscape/data/repository/StepRepository.kt:29-31 | insert-if-new semantics: the table becomes `InsertAllIfNew` of the old table and the list |
| Repository.StepRepository.GetStepLogsBetweenDates | app/src/main/java/com/sametyigit/stepscape/data/repository/StepRepository.kt:33-35 | the user's rows in the date range, oldest first |
| Repository.StepRepository.GetRecentStepLogs | app/src/main/java/com/sametyigit/stepscape/data/repository/StepRepository.kt:37-39 | at most `limit` of the user's rows (all when negative), newest first; every row left out is older than every row returned |
| Repository.StepRepository.SyncUnsyncedLogsToFirebase | app/src/main/java/com/sametyigit/stepscape/data/repository/StepRepository.kt:41-50 | every unsynced row of the user gets its write and no other write is issued, so there are none when the user has no unsynced rows. The table becomes `AfterSync`: confirmed rows flagged, nothing else changed. The count is the number of confirmed rows |
| Health.NewHealthConnectManager | app/src/main/java/com/sametyigit/stepscape/data/health/HealthConnectManager.kt:15-23 | a client is held exactly when the SDK reports Health Connect available |
| Health.HasAllPermissions | app/src/main/java/com/sametyigit/stepscape/data/health/HealthConnectManager.kt:25-38 | true exactly when there is a client, the check returns, and both step permissions are granted; false without a client or when the check throws |
| Health.DayWindowContains | app/src/main/java/com/sametyigit/stepscape/data/health/HealthConnectManager.kt:107-108 | an instant lies in the half-open window from local midnight of the start date to local midnight after the end date exactly when its local date is one of the dates |
| Health.ToIntervals | app/src/main/java/com/sametyigit/stepscape/data/health/HealthConnectManager.kt:75-81 | one interval per record, in record order, with start, end and count carried over |
| Health.GetStepIntervalsForDate | app/src/main/java/com/sametyigit/stepscape/data/health/HealthConnectManager.kt:64-86 | the intervals of the records read for the date's window; empty without a client or when the read throws |
| Health.GetStepIntervalsForDateRange | app/src/main/java/com/sametyigit/stepscape/data/health/HealthConnectManager.kt:128-153 | the intervals of the records read for the range's window; empty without a client or when the read throws |
| Health.SumStepsOfIntervals | app/src/main/java/com/sametyigit/stepscape/data/health/HealthConnectManager.kt:96 | shaping records into intervals keeps their total count |
| Health.GetStepsBetween | app/src/main/java/com/sametyigit/stepscape/data/health/HealthConnectManager.kt:88-101 | the total of the intervals read for the window; 0 when there is no client or the read throws |
| Health.GetStepsForDate | app/src/main/java/com/sametyigit/stepscape/data/health/HealthConnectManager.kt:48-53 | the total of the date's intervals; 0 without a client |
| Health.GetTodaySteps | app/src/main/java/com/sametyigit/stepscape/data/health/HealthConnectManager.kt:40-46 | the total of today's intervals; 0 without a client |
| Health.GroupByDateEntries | app/src/main/java/com/sametyigit/stepscape/data/health/HealthConnectManager.kt:117-121 | the grouped map has a key for exactly the local dates some record starts on (dates without records are absent); each value is the total count of the records starting that day |
| Health.GroupByDateTotal | app/src/main/java/com/sametyigit/stepscape/data/health/HealthConnectManager.kt:117-121 | the map's values add up to the total count of all records |
| Health.GetStepsForDateRange | app/src/main/java/com/sametyigit/stepscape/data/health/HealthConnectManager.kt:103-126 | empty map when the read fails; otherwise the per-start-date totals, which add up to the total count read |
| Health.StepsForDateRangeTotal | app/src/main/java/com/sametyigit/stepscape/data/health/HealthConnectManager.kt:103-126 | when every record starts on a queried date, summing the map over the dates gives what `getStepsBetween` reports for the same window |
| TimeModel.DayOfWeek | app/src/main/java/com/sametyigit/stepscape/ui/main/MainViewModel.kt:121 | the weekday ordinal is one of 0..6 |
| TimeModel.WeekdayOrdinals | app/src/main/java/com/sametyigit/stepscape/ui/main/MainViewModel.kt:121 | epoch day 0 (1970-01-01) is a Thursday, and each next day has the next weekday ordinal, wrapping from Sunday to Monday |
| TimeModel.DayOfMonthNumbers | app/src/main/java/com/sametyigit/stepscape/ui/main/MainViewModel.kt:183 | a date in its own month is numbered at least 1, exactly 1 on the month's first day, and one more on each next day of the same month. Its label is unsigned decimal text that parses back to that number |
| TimeModel.Take | app/src/main/java/com/sametyigit/stepscape/ui/main/MainViewModel.kt:121 | `take(n)` is the prefix of length n, or the whole of a shorter string |
| TimeModel.WeekdayLabels | app/src/main/java/com/sametyigit/stepscape/ui/main/MainViewModel.kt:121 | weekday labels have three letters, repeat every 7 days and differ within any week |
| TimeModel.MonthLabels | app/src/main/java/com/sametyigit/stepscape/ui/main/MainViewModel.kt:211 | month labels have three letters, repeat every 12 months and differ within any year |
| MainScreen.UserIdOf | app/src/main/java/com/sametyigit/stepscape/ui/main/MainViewModel.kt:25-27 | the signed-in user's uid, or "" when nobody is signed in |
| MainScreen.TodayLogs | app/src/main/java/com/sametyigit/stepscape/ui/main/MainViewModel.kt:55-62 | one new, unsynced row per interval, keyed by its start, carrying its steps and the user, dated today's midnight |
| MainScreen.TodayLogsKeys | app/src/main/java/com/sametyigit/stepscape/ui/main/MainViewModel.kt:55-62 | the keys of those rows are exactly the intervals' starts |
| MainScreen.ReloadKeepsTable | app/src/main/java/com/sametyigit/stepscape/ui/main/MainViewModel.kt:64-66 | ingesting the same intervals twice equals ingesting them once, and stored rows, synced or not, are never overwritten |
| MainScreen.RangeLogs | app/src/main/java/com/sametyigit/stepscape/ui/main/MainViewModel.kt:91-102 | one new row per interval, dated the local midnight of the interval's own start day |
| MainScreen.RangeLogsOwnDay | app/src/main/java/com/sametyigit/stepscape/ui/main/MainViewModel.kt:92-95 | a range row's date is at or before its key, and the next midnight is after it |
| MainScreen.TodayAndRangeAgree | app/src/main/java/com/sametyigit/stepscape/ui/main/MainViewModel.kt:88-102 | for an interval that starts today, both loaders build the same row |
| MainScreen.InsertByStartAdds | app/src/main/java/com/sametyigit/stepscape/ui/main/MainViewModel.kt:135 | inserting adds exactly the interval to the list and its steps to the total |
| MainScreen.SortByStartSorted | app/src/main/java/com/sametyigit/stepscape/ui/main/MainViewModel.kt:135 | `sortedBy { it.startTime }` yields a list in start order |
| MainScreen.SortByStartPermutes | app/src/main/java/com/sametyigit/stepscape/ui/main/MainViewModel.kt:135 | sorting keeps the same intervals (as a multiset) and the same total |
| MainScreen.DailyChartPoints | app/src/main/java/com/sametyigit/stepscape/ui/main/MainViewModel.kt:138-166 | the chart opens at (0, 0), has between n+1 and 2n+2 points for n intervals, ends on the total at or after the current minute, and never goes down when no count is negative |
| MainScreen.DailyChartTotal | app/src/main/java/com/sametyigit/stepscape/ui/main/MainViewModel.kt:135-166 | the chart of the sorted intervals ends on the total of the intervals as read |
| MainScreen.DayBuckets | app/src/main/java/com/sametyigit/stepscape/ui/main/MainViewModel.kt:117-123 | exactly `days` bars, oldest first; bar j is labelled for and holds the map's entry (or 0) for date `today - (days - 1) + j`; the bars add up to the map summed over the window |
| MainScreen.MonthBuckets | app/src/main/java/com/sametyigit/stepscape/ui/main/MainViewModel.kt:199-213 | exactly `months` bars in ascending month order. Each is labelled with its month and sums the days from the month's first day to its last day, or to today for the current month |
| MainScreen.FullMonthsTile | app/src/main/java/com/sametyigit/stepscape/ui/main/MainViewModel.kt:201-209 | consecutive whole months tile the days from the first month's first day to the day before the next month |
| MainScreen.MonthBucketsTotal | app/src/main/java/com/sametyigit/stepscape/ui/main/MainViewModel.kt:195-213 | the month bars add up to the map summed from the range start through today: no day is counted twice or left out |
| MainScreen.SyncStatusAfter | app/src/main/java/com/sametyigit/stepscape/ui/main/MainViewModel.kt:250-253 | when the count is positive the message reads "Synced ", the count's decimal text, then " records"; otherwise the previous message stays |
| MainScreen.MainViewModel.constructor | app/src/main/java/com/sametyigit/stepscape/ui/main/MainViewModel.kt:16-42 | a fresh view model holds its repository and manager and has posted nothing |
| MainScreen.MainViewModel.SyncUnsyncedData | app/src/main/java/com/sametyigit/stepscape/ui/main/MainViewModel.kt:248-257 | the table becomes `AfterSync` for the current user; the status follows `SyncStatusAfter` with the confirmed count; no other value changes |
| MainScreen.MainViewModel.LoadFromLocalDatabase | app/src/main/java/com/sametyigit/stepscape/ui/main/MainViewModel.kt:81-86 | today's total becomes the stored sum of the user's rows dated today's midnight |
| MainScreen.MainViewModel.LoadTodaySteps | app/src/main/java/com/sametyigit/stepscape/ui/main/MainViewModel.kt:44-79 | today's rows are inserted if new and then synced. Today's total is the sum of the intervals read, whatever was stored. Only when there are rows to insert and the insert throws is the table left unchanged, with today's total read from the store and no sync. With no intervals, no insert is issued: the total is 0 and the sync still runs |
| MainScreen.MainViewModel.SyncRangeToRoom | app/src/main/java/com/sametyigit/stepscape/ui/main/MainViewModel.kt:88-107 | the range's rows, dated by their own day, are inserted if new; a refused insert leaves the table as it was |
| MainScreen.MainViewModel.LoadWeeklyData | app/src/main/java/com/sametyigit/stepscape/ui/main/MainViewModel.kt:109-129 | 7 day bars ending today, labelled by weekday, adding up to the map summed over the week. The table becomes `InsertAllIfNew` of the old table and that window's rows (see `SyncRangeToRoom`), or stays unchanged when the insert is refused |
| MainScreen.MainViewModel.LoadMonthlyData | app/src/main/java/com/sametyigit/stepscape/ui/main/MainViewModel.kt:172-190 | 30 day bars ending today, labelled by day of month, adding up to the map summed over the 30 days. The table becomes `InsertAllIfNew` of the old table and that window's rows (see `SyncRangeToRoom`), or stays unchanged when the insert is refused |
| MainScreen.MainViewModel.LoadMonthBars | app/src/main/java/com/sametyigit/stepscape/ui/main/MainViewModel.kt:192-218 | one bar per calendar month from the first day `months - 1` months back through today; when months start in order, the bars add up to the map summed over that span. The table becomes `InsertAllIfNew` of the old table and that window's rows (see `SyncRangeToRoom`), or stays unchanged when the insert is refused |
| MainScreen.MainViewModel.LoadSixMonthData | app/src/main/java/com/sametyigit/stepscape/ui/main/MainViewModel.kt:192-218 | 6 month bars, from the first day of the month five months back through today. The table becomes `InsertAllIfNew` of the old table and that window's rows (see `SyncRangeToRoom`), or stays unchanged when the insert is refused |
| MainScreen.MainViewModel.LoadYearData | app/src/main/java/com/sametyigit/stepscape/ui/main/MainViewModel.kt:220-246 | 12 month bars, from the first day of the month eleven months back through today. The table becomes `InsertAllIfNew` of the old table and that window's rows (see `SyncRangeToRoom`), or stays unchanged when the insert is refused |
| MainScreen.MainViewModel.LoadDailyData | app/src/main/java/com/sametyigit/stepscape/ui/main/MainViewModel.kt:131-170 | the chart is the daily chart of today's intervals sorted by start, and it ends on `getStepsForDate(today)` |

## Left out

- Coroutines, `viewModelScope`, LiveData and Flow emission, and `isLoading` are not modelled. Every operation runs to completion in one step, and `getAllStepLogs` is read once instead of observed.
- The Room, Firestore and Health Connect client calls are not modelled. The records a read returns, the outcome of each write and the granted permissions are oracles.
- `HealthConnectManager.writeSteps`, `getSdkStatus` and `createInstallIntent` are not modelled: they are foreign writes and intents with nothing to check.
- The UI files, `LogsViewModel`, the Room database builder, the application singleton and `MainViewModel.Factory` are not part of this model.
- `DAILY_GOAL` is only declared (`MainScreen.DailyGoal`); no logic in the model uses it.
- Health.GetStepsBetween: counts are mathematical integers. Neither the 32-bit overflow of `sumOf` nor the `Long.toInt()` truncation of a record's count is modelled. The same holds for every other sum (`GetStepsForDateRange`, `GetTotalStepsForDate`, the bars and the chart).
- Health.GetStepIntervalsForDate: which records a window returns is up to the oracle. The model does not assume they lie inside the window, so `StepsForDateRangeTotal` takes that as a precondition.
- MainScreen.DailyChartPoints: hours are whole minutes of the day (`hour * 60 + minute`) instead of the Float `hour + minute / 60f`. The two order instants the same way.
- MainScreen.DailyChartPoints: the exact rule for the hold and "now" points is stated only through the point-count bounds, the last point and the monotone totals, not point by point.
- MainScreen.SortByStartSorted: the sort is stable by construction, but stability is not stated as a property.
- MainScreen.MainViewModel.LoadTodaySteps: `LocalDate.now()` is read once, as `today`, although the fallback reads the clock again. A refused insert is modelled as atomic (`saveThrows`: nothing stored).
- Remote.SyncMultipleStepLogs: every write of one pass carries the same `syncedAt` clock reading (`now`), although `syncStepLog` reads the clock once per write. The same holds for Repository.StepRepository.SyncUnsyncedLogsToFirebase, which calls it.
- Repository.AfterSyncIdempotent: for a second pass at a later clock reading, this assumes Firestore's verdict does not depend on the `syncedAt` value a write carries (`IgnoresClock`). `AfterSyncSameInstant` needs no such assumption but keeps the clock reading fixed.
- Repository.StepRepository.SyncUnsyncedLogsToFirebase: a local-table error during the pass, and the "Sync failed" status it would post, are not modelled.
- LocalStore.StepLogDao.GetUnsyncedLogs: the query has no `ORDER BY`, so no order is promised. The model happens to return the rows oldest first.
