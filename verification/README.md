# LamaSync: a verified model of its rules and stateful objects

LamaSync keeps folders in sync between hosts with `rclone bisync`, takes
snapshots and prunes them, and moves the first copy of a folder through a
temporary relay. This project models the decisions and the small state machines
behind that, and proves what their code and documentation promise. Where the
code does less than it promises, a lemma gives the input and another one the
exact condition.

| file | what it models |
|---|---|
| `BisyncBaseline`, `BisyncRun` | the workdir of a bisync folder: its listings, markers and fingerprints, and one run of the executor over it, with archiving, retries and corruption recovery |
| `BisyncSafety`, `BisyncLimits` | safety over every history of runs and lost files; convergence; the exact limits of both, with an input for each |
| `Calendar`, `Buckets` | the civil calendar, ISO weeks, bucket keys and the rolling window in a zone of fixed offset |
| `RetentionPolicy`, `RetentionNewest`, `Retention` | what a retention policy keeps, stated on the rows in any order; when it keeps the newest snapshot; the evaluator that computes it |
| `SeedJob`, `SeedProtocol`, `SeedHandover` | the row of a seed job, its compare-and-set writers and route checks; every interleaving of late writes; the handover from source to target |
| `SeedRelay` | the manifest identity string and its check, object keys and the orphan sweep |
| `KeyedMutex`, `ProgressReporter`, `FolderWatch`, `Watchdog` | the daemon's concurrent objects, as classes cut at each `await` and as histories of events |
| `Streaming`, `Glob`, `GitignoreWalk`, `KeepBoth`, `FleetHealth` | the line splitter and bounded tail, the glob translation, the ignore-rule walk, conflict copies, the fleet summary |
| `Text`, `Wrappers` | strings as the repository joins, cuts and prints them; `Option` |

rclone is a nondeterministic environment: it may exit with any code, throw, time
out, be killed in the middle of a write, or report a corrupted baseline. What is
assumed of it is written out in `BisyncSafety` (`RcloneMayLeave`): it leaves the
marker files alone, a listing it writes carries the filters it was started with,
and it does not remove a last pair without leaving an error marker. SHA-256 is a
free constructor. Time moves forward in timed histories.

## Findings

Where the code and its comments or documentation disagree, the model follows the
code.

- **A fingerprint that outlives its listings.** When the archive before a filter
  change fails, or there is nothing left to archive because the listings were lost,
  the old fingerprint stays. If the run is then killed after it wrote its pair,
  switching the filters back reuses listings built under the other filters
  (`BisyncLimits.FailedArchiveBreaks`, `BisyncLimits.LostListingsBreak`).
- **Recovery.** A recovery from a corrupted baseline archives the directory with its
  fingerprint, and a run whose filters did not change writes none. The next run
  archives the good pair and resyncs again (`BisyncLimits.ResyncsExactly`).
- **Empty universe.** A run without filters compares nothing and records nothing.
  It reuses the pair it finds, which is right exactly when the run that built the
  pair filtered nothing either (`BisyncLimits.EmptyUniverseExact`). When the
  filters come back, the old fingerprint still matches and listings built without
  filters are reused (`BisyncLimits.OffAndOn`). Over whole histories this is the
  exact boundary (`BisyncLimits.HistorySafeExactly`).
- **Adopted legacy hash.** It is never replaced, so later pattern changes go
  unnoticed (`BisyncLimits.LegacyHashExact`).
- **Retries.** A retry inside one run is launched without looking at the workdir
  again; the "only onto a ready pair" rule holds for the first launch of a run,
  and for all of them exactly when no retry is configured
  (`BisyncLimits.RetryMeetsUnreadyPair`).
- **Pending marker.** The comment at packages/daemon/src/executor.ts:1361-1363
  says that a `.resync-required` marker that is left forces one more resync. No
  decision of a run reads it (`BisyncLimits.PendingMarkerIsNotRead`), and the run
  after one that could not remove it is no resync
  (`BisyncLimits.PendingMarkerForcesNothing`).
- **Retention behind UTC.** A limit of the `timezone` parameter of
  `evaluateRetention`: the server passes none and evaluates in UTC
  (packages/server/src/routes/retention.ts:224). UTC midnights are read again in
  the local zone, so in a zone behind UTC a calendar window ends one bucket early (a weekly one only on
  Mondays). The newest snapshot is deleted exactly when that leaves a gap and no
  keep-last rule closes it (`RetentionNewest.KeepsNewestExactly`); the default
  Smart preset has one on every Monday, and late in a month once four weeks no
  longer reach back to its first day (`RetentionNewest.SmartDefaultsKeepNewest`).
- **Repeated rows.** packages/server/src/routes/restic.ts:138-160 adds a row for
  every report, and no index makes `snapshot_id` unique
  (packages/core/src/db/schema.ts:210-223). Keep-last counts rows, so a snapshot
  reported again pushes older ones out (`RetentionPolicy.RepeatsUseUpTheQuota`).
- **Early years.** `Date.UTC` reads the years 0 to 99 as 1900 to 1999, so ISO
  weeks come out right exactly from year 100 on (`Calendar.WeekExact`).
- **Limit of the compare-and-set.** The writers compare the phase and the claim,
  not the row that was read (packages/server/src/seed-jobs.ts:767-771). Within one
  server process nothing can come between a handler's read and its write, and
  `SeedHandover.SourceStaysOut` is the theorem. With a second process on the same
  database a source report checked before the handover can take the freed lease
  back after it (`SeedHandover.ReclaimAfterHandover`).
- **Incomplete archive facts.** A handover with a digest but a missing companion
  fact frees the lease and lets neither party go on
  (`SeedHandover.StrandedStays`).
- **Operator reports.** The operator may report progress for either party, past the
  check of the facts (`SeedProtocol.OperatorSkipsTheFacts`).
- **Reporter.** The follow-up of a send is not tracked, so a second request can get
  in flight (`ProgressReporter.SecondInFlightExact`), and any number
  (`ProgressReporter.NoBound`).
- **Pipe tails.** Every delivered line goes into the tail with a newline, an
  unfinished last one too, so the tail is that of the raw text exactly when the
  text does not stop in the middle of a line (`Streaming.RawTailExactly`).
- **Glob.** `**` stops at line terminators (`Glob.AgreesExactly`).

## Model

| member | source | states |
|---|---|---|
| `BisyncBaseline.InspectBisyncBaseline` | packages/daemon/src/bisync-baseline.ts:117-180 | whatever order the directory is read in, a baseline is present exactly when some stem has both readable listings, ready exactly when also no error marker exists and none of those stems has a write in flight; the reported time is that of the newest listing of those stems |
| `BisyncBaseline.SuffixesApart` | packages/daemon/src/bisync-baseline.ts:129-152 | no file name ends in two of the recognised suffixes, so the order of the suffix tests does not matter |
| `BisyncBaseline.FingerprintFixesFilter` | packages/daemon/src/bisync-baseline.ts:201-214 | two universes with the same fingerprint give rclone byte-identical filter files, however their rules and patterns are cut into lines |
| `BisyncBaseline.EmptyFilterFingerprint` | packages/daemon/src/bisync-baseline.ts:201-205 | a universe has the fingerprint of a lone NUL exactly when its filter file is empty |
| `BisyncRun.Workdir.RunSync` | packages/daemon/src/executor.ts:976-1373 | one run of the sync path ends in the workdir and makes the rclone launches of the run specification, for every outcome of archive, preflight, hooks, attempts and marker writes |
| `BisyncRun.Workdir.RetryLoop` | packages/daemon/src/executor.ts:1228-1299 | the retry loop, with its recovery of a corrupted baseline and the `--resync` flag that stays pushed, equals the recursive account of its attempts |
| `BisyncSafety.HistorySafe` | packages/daemon/src/executor.ts:1039-1103 | over every history of runs, interventions, failures, timeouts, corruption recoveries, crashes and lost files, with and without filters: a launch without `--resync` never meets a pair built under other filters, and the first launch of a run meets a ready pair, as long as no run without filters reuses the pair of a run that had some |
| `BisyncSafety.RunSafe` | packages/daemon/src/executor.ts:1321-1373 | one run makes only safe launches and keeps what is known: the recorded fingerprint is the one every pair was built under, and the pairs are those of the last run that started rclone |
| `BisyncSafety.AttemptsSafe` | packages/daemon/src/executor.ts:1256-1268 | inside a run, through every retry and recovery, the pairs carry the filters of the run |
| `BisyncSafety.AcknowledgedKeeps` | packages/daemon/src/executor.ts:1341-1373 | acknowledging the universe or leaving the marker keeps the invariant, whichever of the two file writes fails |
| `BisyncSafety.LossKeeps` | packages/daemon/src/bisync-baseline.ts:255-266 | losing files between runs keeps both while a fingerprint vanishes no later than its listings |
| `BisyncSafety.UnchangedMeansRecorded` | packages/daemon/src/bisync-baseline.ts:255-266 | with no legacy hash, "unchanged" means that the fingerprint of this universe is recorded |
| `BisyncSafety.FreshWorkdir` | packages/daemon/src/bisync-baseline.ts:21-25 | an empty workdir satisfies the invariant, whatever ran before |
| `BisyncSafety.CheckedFollows` | packages/daemon/src/executor.ts:1059-1076 | while every run has filters to compare, the proviso of `HistorySafe` holds by itself, from any workdir that satisfies the invariant |
| `BisyncLimits.Converges` | packages/daemon/src/executor.ts:1078-1103 | from any workdir, with a fixed non-empty universe and runs that succeed, at whatever attempt, with a ready pair and without recovering from a corrupted baseline, no run after the second is a resync |
| `BisyncLimits.ResyncsExactly` | packages/daemon/src/executor.ts:1256-1268 | for runs that succeed at whatever attempt, recoveries included: from the third on, a run is a resync exactly when the one before it recovered from a corrupted baseline with its filters unchanged |
| `BisyncLimits.OneResyncEach` | packages/daemon/src/executor.ts:1341-1350 | such a resync is followed by a run that is none, whatever recovers: every recovery costs one |
| `BisyncLimits.LoopFingerprint` | packages/daemon/src/executor.ts:1228-1299 | the retry loop ends without an acknowledged fingerprint when an attempt that was made recovered, and otherwise with the one it began with |
| `BisyncLimits.SecondResync` | packages/daemon/src/executor.ts:109-147 | the second run is a resync exactly when the first, with its filters unchanged, recovered, or archived a directory for want of a ready pair |
| `BisyncLimits.SettledResyncs` | packages/daemon/src/executor.ts:1341-1350 | beside an acknowledged, ready pair, a run is a resync exactly when the one before it recovered with its filters unchanged |
| `BisyncLimits.EmptyUniverseExact` | packages/daemon/src/executor.ts:994-996 | a run without filters launches without `--resync` on any ready pair, whatever fingerprint is recorded or missing, and that is safe exactly when the run the pair was built by filtered nothing either |
| `BisyncLimits.HistorySafeExactly` | packages/daemon/src/executor.ts:1039-1103 | a history from a known workdir is safe exactly when every run without filters that reuses a pair follows one that filtered nothing, which a caller can tell before the run |
| `BisyncLimits.OffAndOn` | packages/daemon/src/executor.ts:1059-1076 | from every workdir with a ready pair and an acknowledged fingerprint: filters off and on again, both runs in contract and clean; the second finds its fingerprint unchanged and launches without `--resync` on listings built without filters, safely exactly when its own filter is empty |
| `BisyncLimits.LegacyHashExact` | packages/daemon/src/bisync-baseline.ts:262-264 | with an adopted legacy hash the run is never a resync and the hash stays; the launch is safe exactly when the patterns did not change |
| `BisyncLimits.FailedArchiveBreaks` | packages/daemon/src/executor.ts:1082-1086 | from every workdir with the fingerprint of `u`, ready or not, and every `w`, with filters or without: failed archive, killed run under `w`, back to `u`, and a launch without `--resync` reuses listings of `w`, safely exactly when both filter the same |
| `BisyncLimits.LostListingsBreak` | packages/daemon/src/executor.ts:1078-1082 | the same with every archive working and both runs in contract, from every workdir that lost its listings but not its fingerprint: nothing is there to archive |
| `BisyncLimits.DeletedListings` | packages/daemon/src/executor.ts:1078-1082 | deleting the listings of any workdir by hand leaves such a one |
| `BisyncLimits.PendingMarkerIsNotRead` | packages/daemon/src/executor.ts:1361-1363 | neither the resync plan nor the archive decision of any run changes with the pending marker |
| `BisyncLimits.PendingMarkerForcesNothing` | packages/daemon/src/executor.ts:1356-1364 | a clean run that acknowledges its filters and fails to remove the marker is followed by a run that is no resync, the marker still there |
| `BisyncLimits.NoRetryAlwaysReady` | packages/daemon/src/executor.ts:1228-1237 | without retries every launch without `--resync` meets a ready pair, whatever is in the workdir |
| `BisyncLimits.RetryMeetsUnreadyPair` | packages/daemon/src/executor.ts:1285-1299 | with any retry allowed, a timeout in the middle of a listing write is followed by a launch without `--resync` on a pair that is not ready |
| `Calendar.WeekIsIsoWeek` | packages/core/src/retention.ts:203-222 | for every date from year 100 on, the computed year and unclamped week are those of the week's Thursday (section 2.2.10 of ISO 8601:2004), and the week lies in 1..53 |
| `Calendar.WeekExact` | packages/core/src/retention.ts:212-220 | for every date from year 1 on, that holds exactly when neither the date nor its week's Thursday is in the years `Date.UTC` moves |
| `Calendar.FirstMondayIsMonday` | packages/core/src/retention.ts:215-219 | the modular derivation from a weekday known elsewhere, with truncating remainders, finds the Monday on or before 4 January |
| `Buckets.KeysNameBuckets` | packages/core/src/retention.ts:196-224 | two dates share a key text exactly when they share a day, a Monday-to-Sunday week, a month or a year |
| `Buckets.RecentBucketKeys` | packages/core/src/retention.ts:232-262 | the loop collects the keys of exactly the `count` steps back |
| `Buckets.WindowIs` | packages/core/src/retention.ts:248-261 | a date's key is in the window exactly when its bucket is one of `count` consecutive ones; in zones at or ahead of UTC they end at the current bucket, behind UTC one bucket earlier (weekly: only on Mondays) |
| `Buckets.WindowSize` | packages/core/src/retention.ts:247-261 | the window holds exactly `count` distinct keys, across months and years of any length |
| `Buckets.CurrentBucketInWindow` | packages/core/src/retention.ts:250-259 | the current bucket is in its own window exactly when the zone is not behind UTC, or the window is weekly and today is not Monday |
| `Retention.EvaluateRetention` | packages/core/src/retention.ts:272-427 | for every list of rows, repeated ids included: every id gets one decision, kept exactly when one of its rows is guarded, anomalous or chosen by a rule, or it is the guaranteed one; kept and deleted counts, reclaimable bytes, unknown sizes, guard count and guarantee flag are those of these ids |
| `Retention.KeepLastN` | packages/core/src/retention.ts:349-360 | the slice of the filtered, sorted list adds exactly the ids of eligible snapshots with fewer than `count` eligible rows newer |
| `Retention.SliceIsLast` | packages/core/src/retention.ts:351-354 | the last `count` positions of the ascending list hold exactly those ids, rows of the same time and id included |
| `Retention.KeepByAge` | packages/core/src/retention.ts:335-344 | exactly the ids with a row inside the window of some finite age rule are added |
| `Retention.KeepByCalendar` | packages/core/src/retention.ts:364-391 | exactly the ids are added that represent a bucket of some calendar rule: in the window, and no eligible snapshot of the bucket is later |
| `Retention.BucketIds` | packages/core/src/retention.ts:368-377 | letting later rows replace earlier ones in ascending order leaves, per bucket in the window, the id no other snapshot of the bucket is later than |
| `Retention.KeepAtLeastOne` | packages/core/src/retention.ts:394-405 | the id of the newest eligible snapshot is added exactly when no id of an eligible one is kept |
| `Retention.SortKeeps` | packages/core/src/retention.ts:277-280 | sorting permutes the rows into ascending order by time and id |
| `Retention.SameKept` | packages/core/src/retention.ts:272-427 | what is kept does not depend on the order of the rows |
| `Retention.Summarize` | packages/core/src/retention.ts:429-463 | the counters and totals are those of the deleted ids, in whatever order the decisions are visited; an id has the size of its last row |
| `RetentionPolicy.EvaluationIsIdempotent` | packages/core/src/retention.ts:272-427 | evaluating the survivors again with the same clock and policy deletes nothing, for every policy, every calendar and every list of rows |
| `RetentionPolicy.OneEligibleIsKept` | packages/core/src/retention.ts:394-405 | where an eligible snapshot exists, one survives, in every zone |
| `RetentionPolicy.RepeatsUseUpTheQuota` | packages/core/src/retention.ts:349-360 | of two snapshots, "keep the last `count`" keeps the older one exactly when the newer one comes in fewer than `count` rows |
| `RetentionNewest.NewestIsKept` | packages/core/src/retention.ts:250-259 | in zones at or ahead of UTC, and wherever no calendar window is shifted, every enabled policy keeps the newest eligible snapshot of an unguarded list |
| `RetentionNewest.KeepsNewestExactly` | packages/core/src/retention.ts:334-405 | every policy, clock and zone: the newest snapshot of every unguarded list is kept exactly when the first keep-last rule has a positive count, or everything later than a covered instant is covered up to now |
| `RetentionNewest.GapLosesNewest` | packages/core/src/retention.ts:334-405 | every gap is an input: of a capture at the covered instant and one at the uncovered later one, the older is kept and the newest deleted |
| `RetentionNewest.OneRuleKeepsNewest` | packages/core/src/retention.ts:250-259 | one calendar rule alone keeps the newest exactly when the zone is not behind UTC, or the rule is weekly and today is not Monday |
| `RetentionNewest.SmartPresetKeepsNewest` | packages/core/src/retention.ts:113-130 | behind UTC the Smart preset, with any positive counts, keeps the newest exactly when today is not Monday, its days and weeks reach back to the first of the month, and with its months to the first of the year |
| `RetentionNewest.SmartDefaultsKeepNewest` | packages/core/src/retention.ts:105-111 | with the default counts: exactly when today is not Monday and four weeks reach back to the first of the month |
| `SeedProtocol.HistoryKeeps` | packages/server/src/seed-jobs.ts:790-1045 | over every interleaving of requests, late writes and sweeps: ended jobs stay ended, phases neither go back nor are skipped, a live lease is given up only by its holder or ended by an operator, the reaper leaves live leases alone, a recorded digest freezes the facts, and the row stays coherent |
| `SeedProtocol.WriteKeeps` | packages/server/src/seed-jobs.ts:767-1000 | any single write, however stale the row its request was checked against: the phase moves at most one step, and a live lease is given up only by its holder or ended by an operator |
| `SeedProtocol.ReapKeeps` | packages/server/src/seed-jobs.ts:1027-1045 | the reaper never touches a job whose lease is live |
| `SeedProtocol.NoTargetBeforeFacts` | packages/server/src/routes/folder-seed.ts:479-880 | in every interleaving the operator leaves to the two parties, no target phase, no lease of the target and no success precedes complete facts |
| `SeedProtocol.OperatorSkipsTheFacts` | packages/server/src/routes/folder-seed.ts:479-604 | for every uploading job without a digest, an operator's progress report moves it into the target's half without facts |
| `SeedProtocol.CreatedIsGood` | packages/server/src/seed-jobs.ts:444-480 | a job as created satisfies the invariants |
| `SeedHandover.SourceStaysOut` | packages/core/src/folder-seed.ts:861-948 | handled one at a time, as one server process does, no run of requests and sweeps lets the source hold the lease again after its digest is recorded |
| `SeedHandover.HandledAtOnce` | packages/server/src/routes/folder-seed.ts:479-850 | a request whose write lands before anything else happens is one step of the one-at-a-time history |
| `SeedHandover.Advances` | packages/server/src/routes/folder-seed.ts:479-604 | a party's next phases, in order and at any times, pass every check and write and leave it with a full lease, with sweeps anywhere between as long as none finds a lease lapsed |
| `SeedHandover.FollowedThrough` | packages/server/src/routes/folder-seed.ts:479-850 | for every two parties, complete facts and times, with sweeps anywhere that find no lease lapsed and no handover too old: the source's half, the handover within its lease, the target's half and its completion within its own end in success with the recorded facts and no lease |
| `SeedHandover.LateReportLands` | packages/server/src/seed-jobs.ts:790-835 | a source report one process checked before another recorded the facts lands afterwards exactly when the phase is unchanged and the row is claimable by the source |
| `SeedHandover.ReclaimAfterHandover` | packages/server/src/seed-jobs.ts:767-771 | the limit of the compare-and-set on the phase, for a second process writing the same database (a route handler reads, checks and writes without yielding, so one process never does this): for every uploading job the source ends up with the live lease and the target, whose start passes every check, is refused |
| `SeedHandover.HandoverOpensFor` | packages/core/src/folder-seed.ts:1534-1571 | after the handover the target may start exactly when the facts are complete, and the source may go on exactly when they carry no digest |
| `SeedHandover.StrandedStays` | packages/server/src/routes/folder-seed.ts:606-700 | a digest with a missing companion fact is never repaired: the job stays where it is until an operator or the reaper ends it |
| `SeedHandover.AcceptedIsRecorded` | packages/server/src/routes/folder-seed.ts:655-682 | an archive report of the source is answered as accepted exactly when the row ends up with the facts it reports; once a digest is recorded that is exactly a repetition, and the row does not change |
| `SeedRelay.DigestInputDecodes` | packages/core/src/seed-relay.ts:314-322 | two member lists that pass validation and give the same identity string agree on every path, kind, size and checksum, in order |
| `SeedRelay.SeedManifestContentDigestInput` | packages/core/src/seed-relay.ts:314-322 | the accumulating loop gives the identity string |
| `SeedRelay.SeedManifestDocumentOk` | packages/core/src/seed-relay.ts:333-401 | the document check accepts exactly the documents whose every field is valid and describes the members; the early length test refuses nothing else |
| `SeedRelay.AcceptedKeyIsOneObject` | packages/core/src/seed-relay.ts:85-135 | an accepted key is one plain object name directly in the namespace of one valid (and the expected) job |
| `SeedRelay.ObjectKeysAreAccepted` | packages/core/src/seed-relay.ts:85-135 | every such key of acceptable length is accepted and names its job; with another job expected it is refused by that name |
| `SeedRelay.SeedRelayOrphanKeys` | packages/core/src/seed-relay.ts:673-701 | the sweep returns the first `limit` orphans in listing order, all invalid keys, and flags truncation exactly when more orphans exist |
| `SeedRelay.OrphansAreForeignObjects` | packages/core/src/seed-relay.ts:657-701 | swept keys are exactly the listed objects in the namespace of a valid job nobody knows |
| `KeyedMutexes.KeyedMutex.Run` | packages/daemon/src/keyed-mutex.ts:18-25 | an arriving call becomes the tail of its key's chain and awaits the tail before it |
| `KeyedMutexes.KeyedMutex.Finish` | packages/daemon/src/keyed-mutex.ts:28-35 | a settled call releases its gate and removes the entry only while it is still the tail |
| `KeyedMutexes.MutualExclusion` | packages/daemon/src/keyed-mutex.ts:18-37 | in every history of calls, starts and settlements at most one body per key runs |
| `KeyedMutexes.CallOrder` | packages/daemon/src/keyed-mutex.ts:18-28 | bodies of one key start in the order of their calls |
| `KeyedMutexes.SomeWaiterEnabled` | packages/daemon/src/keyed-mutex.ts:26-32 | whenever nobody runs for a key and somebody waits, some waiter can start, whether earlier bodies returned or threw |
| `KeyedMutexes.EntryExactlyWhileQueued` | packages/daemon/src/keyed-mutex.ts:33-36 | the map has an entry for a key exactly while one of its calls is waiting or running |
| `ProgressReporter.Reporter.Observed` | packages/daemon/src/live-progress.ts:380-400 | a report merges the observation and sends, schedules or leaves it to the send in flight |
| `ProgressReporter.Reporter.SendResolved` | packages/daemon/src/live-progress.ts:336-365 | a finished send starts its follow-up exactly when something changed meanwhile |
| `ProgressReporter.NothingStranded` | packages/daemon/src/live-progress.ts:336-417 | in every interleaving an unsent observation has a request in flight or a timer pending, and while nothing is dirty the last request carried the current state |
| `ProgressReporter.TerminalWins` | packages/daemon/src/live-progress.ts:380-417 | after the end of a run every request that starts carries a terminal phase, whatever arrives later |
| `ProgressReporter.RestIsTerminal` | packages/daemon/src/live-progress.ts:402-417 | at rest the last request of a finished reporter was the terminal one with the final state |
| `ProgressReporter.SecondInFlightExact` | packages/daemon/src/live-progress.ts:350-376 | a second request joins one in flight exactly when that one is an untracked follow-up and the event starts a request of its own |
| `ProgressReporter.OneMoreExactly` | packages/daemon/src/live-progress.ts:350-376 | in every state, one more request gets in flight exactly when none is tracked and the event starts one |
| `ProgressReporter.NoBound` | packages/daemon/src/live-progress.ts:355-362 | for every number there is a history with that many requests in flight at once |
| `ProgressReporter.TwoInFlight` | packages/daemon/src/live-progress.ts:355-362 | two reports, a resolution and the end of the run put two requests in flight |
| `FolderWatch.SingleRun` | packages/daemon/src/folder-watch.ts:52-157 | over all event orders at most one run is in flight, and a timer exists exactly while debouncing |
| `FolderWatch.DirtyIsServed` | packages/daemon/src/folder-watch.ts:101-142 | every dirty event while open is followed by a started run, or one is pending behind the timer or the current run |
| `FolderWatch.RunStartsAfterQuiet` | packages/daemon/src/folder-watch.ts:110-142 | a run starts only when no dirty event came within a full quiet period before it |
| `FolderWatch.WatchController.RunEnded` | packages/daemon/src/folder-watch.ts:120-142 | when a run settles, however it ended, a change seen meanwhile schedules the next one unless the watch is closed |
| `Watchdog.HealthyRunLives` | packages/core/src/folder-seed.ts:1131-1174 | over every timed trace, a process whose progress gaps stay below the stall budget is not killed before the hard cap |
| `Watchdog.StalledRunDies` | packages/daemon/src/executor.ts:374-429 | a process that makes no progress after some instant is killed within the stall budget plus one tick |
| `Watchdog.EveryRunEnds` | packages/daemon/src/executor.ts:374-429 | every process is killed by the hard cap plus one tick, whatever it reports |
| `Watchdog.Supervisor.Tick` | packages/daemon/src/executor.ts:395-420 | a tick kills exactly when the shared deadline function says so, and only once |
| `Streaming.LineSplitter.Append` | packages/daemon/src/live-progress.ts:173-190 | a chunk delivers exactly the lines it completes and keeps the rest pending |
| `Streaming.ChunkingIsInvisible` | packages/daemon/src/live-progress.ts:173-197 | for every chunking, the delivered lines and the pending part are those of the whole text |
| `Streaming.CutIsSplit` | packages/daemon/src/live-progress.ts:173-190 | lines and pending part together are the text split at its newlines |
| `Streaming.ConsumeLines` | packages/daemon/src/live-progress.ts:226-243 | for every chunking, the callback receives the lines of the whole text and its unfinished last line, and the returned count is that of the finished lines |
| `Streaming.CountsEveryLine` | packages/daemon/src/live-progress.ts:220-243 | the returned count is the number of lines delivered exactly when the text does not stop in the middle of a line |
| `Streaming.TailOfWhole` | packages/daemon/src/live-progress.ts:204-218 | however the text arrives, the buffer ends up as the last `cap` characters of all of it |
| `Streaming.KeepTail` | packages/daemon/src/executor.ts:1604-1606 | the tail a run keeps of a pipe is the last `cap` characters of the whole text with its last line finished, however the text arrives |
| `Streaming.RawTailExactly` | packages/daemon/src/live-progress.ts:199-203 | that is the tail of the raw text exactly when the text does not stop in the middle of a line |
| `Glob.GlobToRegex` | packages/daemon/src/folder-watch.ts:237-259 | the index loop emits the anchored text of the specification |
| `Glob.EmittedParses` | packages/daemon/src/folder-watch.ts:237-259 | that text belongs to the pattern grammar of section 22.2.1 of ECMA-262, each piece read as the token meant, with every metacharacter escaped |
| `Glob.RegexMeansGlob` | packages/daemon/src/folder-watch.ts:237-259 | for every pattern and every string, testing the emitted expression is matching the glob, where `**` stops at line terminators |
| `Glob.NeverTooMuch` | packages/daemon/src/folder-watch.ts:225-259 | on every string, nothing is accepted that this glob does not match |
| `Glob.AgreesExactly` | packages/daemon/src/folder-watch.ts:225-259 | on a string all patterns match as the glob in which `**` stands for anything, exactly when the string has no line terminator |
| `Glob.WithoutDoubleStar` | packages/daemon/src/folder-watch.ts:237-259 | a pattern without `**` matches as that glob on every string |
| `GitignoreWalk.SnapshotBuilder.Walk` | packages/daemon/src/gitignore.ts:249-275 | the recursive walk appends to the shared list the rules of its subtree, in listing order, and nothing else |
| `GitignoreWalk.SnapshotCoversIgnored` | packages/daemon/src/gitignore.ts:228-280 | for every tree and matcher, a file in readable directories outside `.git` ones is covered by an emitted line exactly when it or a directory above it is ignored |
| `GitignoreWalk.NoRuleBeneath` | packages/daemon/src/gitignore.ts:263-270 | no two emitted rules name the same path or one path below the other |
| `KeepBoth.LocalTree.KeepLocalConflictCopy` | packages/daemon/src/executor.ts:810-821 | the fresh-name search ends at the first free name; on success only the local file has moved there, on failure nothing has |
| `KeepBoth.LocalTree.ApplyAutomaticConflicts` | packages/daemon/src/executor.ts:823-857 | the local tree and the unresolved list after the loop are those of the conflicts taken one by one, and resolved plus unresolved is all of them |
| `KeepBoth.NothingIsLost` | packages/daemon/src/executor.ts:790-857 | for every list of conflicts without a remote win and every pattern of failed renames and transfers, each earlier content has a path of its own afterwards and files outside the conflicts have not moved |
| `KeepBoth.LossExactly` | packages/daemon/src/executor.ts:767-857 | a list of conflicts can cost a local content, under some local tree and some failures, exactly when the remote side wins in one of them |
| `KeepBoth.LossByStrategy` | packages/daemon/src/executor.ts:767-788 | in terms of what the caller knows: nothing can be lost unless source-wins runs on the target or newer-wins meets a strictly newer remote side |
| `KeepBoth.RemoteArrives` | packages/daemon/src/executor.ts:823-857 | in a list of conflicts over different files, a keep-both that succeeds has the remote version at its path when the list is done, whatever happens to the rest |
| `FleetHealth.DeriveFleetHealth` | packages/core/src/fleet-health.ts:388-572 | for all hosts and folders, ids that come twice included: the loops with their suppression sets and in-place merging give each list the rows placed there, and the counters their counts |
| `FleetHealth.YellowsAreRows` | packages/core/src/fleet-health.ts:413-482 | where no host id comes twice, the yellow list with its merged updates is one row per host that sleeps or has an update alone |
| `FleetHealth.SummaryAddsUp` | packages/core/src/fleet-health.ts:541-572 | the three totals of the summary, its healthy counters and the skipped folders add up to the hosts, the folders and the update rows, whatever ids come twice; where none does, those are the hosts with an update that needs a row of its own; every total is what is shown plus what is cut off |
| `FleetHealth.OneStatusRow` | packages/core/src/fleet-health.ts:420-458 | a host has a status row in exactly one list, and none when healthy |
| `FleetHealth.OneRowPerHost` | packages/core/src/fleet-health.ts:413-482 | no list, the yellow one with its updates included, holds two rows of one host |
| `FleetHealth.SkippedIsSpokenFor` | packages/core/src/fleet-health.ts:485-489 | a skipped folder's device has a row of its own |
| `FleetHealth.BucketShowsWorst` | packages/core/src/fleet-health.ts:541-556 | the shown rows and the cut ones are the whole list, and no cut row outweighs a shown one |

## Left out

- BisyncSafety.HistorySafe: assumes no legacy hash, an archive that works where the filters changed or there are none to compare, and that a fingerprint vanishes no later than its listings; `LegacyHashExact`, `FailedArchiveBreaks` and `LostListingsBreak` show what happens without each.
- BisyncLimits.Converges: the runs succeed and rclone leaves the marker files alone; what failing runs do is `HistorySafe`.
- Calendar.WeekIsIsoWeek: the years before 1, which the platform prints in another era, and instants its `Date` cannot hold are not modelled.
- Buckets.WindowIs: dates from year 100 on only, the window included; zones have a fixed offset, so daylight-saving changes are left out.
- Retention.EvaluateRetention: NaN and fractional times, and fractional or infinite counts, are not modelled; reasons and the final ordering by id are left out.
- Retention.KeepByCalendar: `new Date` with an instant it cannot hold makes `evaluateRetention` throw; the model has no such limit.
- RetentionNewest.KeepsNewestExactly: rows of the same id agree in all fields, and no eligible snapshot is guarded; a guard on another snapshot switches the guarantee off.
- RetentionNewest.SmartPresetKeepsNewest: positive counts only; a count of 0 leaves its rule out and is covered by `KeepsNewestExactly`.
- SeedProtocol.NoTargetBeforeFacts: for histories in which the operator reports neither progress nor success; `OperatorSkipsTheFacts` shows why.
- SeedHandover.SourceStaysOut: stated for requests handled one at a time; `ReclaimAfterHandover` is what late writes do.
- Glob.RegexMeansGlob: code units instead of code points; the expression is used without flags.
- GitignoreWalk.SnapshotCoversIgnored: rules are read as exact paths or subtrees; rclone's own pattern language, the ignore matcher and the hash of the rules are not part of this model.
- KeepBoth.NothingIsLost: paths are keys of one map, so directories, links and case-insensitive names are left out; the remote side is left out.
- FleetHealth.DeriveFleetHealth: rows of equal weight keep their order instead of the title order, the yellow rows are one list instead of two that are joined, and merged rows are updated by index rather than through an alias.
- FleetHealth.OneStatusRow: for distinct host ids, the primary key the only caller reads them by (packages/core/src/db/schema.ts:4-5, packages/server/src/fleet-health.ts:153-163); so is OneRowPerHost.
- GitignoreWalk.HasFile: files below a directory the walk cannot read are not listed and get no rule of their own.
- ProgressReporter.NothingStranded: `flush()`, which exists for tests, is left out.
- SeedJob: the writers used by the in-process coordinator, the fraction and byte counters of progress, and cleanup bookkeeping.
- The relay's archive metadata, stores and retention times; archive member and staging path checks; space plans and seed plans.
- Dry runs, listing counts, the baseline fingerprint shown in health reports, and the LAN peer path of the executor.
- The fixed timeout of `superviseProcess` for callers without a stall budget, and the escalation from one signal to the next.
- Process spawning, HTTP, the database and file contents: nondeterministic results or maps of files.
- Messages, labels and reason sentences everywhere.
- Update evaluation, host-class tables, version comparison and payload parsers: single-branch facts.
