# A verified model of bioseasy's backup life cycle

bioseasy backs up iPhones and iPads to a home server. This project models the parts of it where
correctness spans many operations, and proves what holds over whole runs:

- the **run protocol**: web requests, worker processes, backup threads, ticks and crashes over one
  database (`Runs`, `RunProtocol`, `RunLaws`);
- **generations**: copies on a file system with hard links, and the retention policy that prunes them
  (`Snapshots`, `SnapshotLaws`, `Retention`, `RetentionLaws`);
- the **schedule**: windows, retry slots, cooldowns, the tick lease and the charging probe
  (`Schedule`, `ScheduleLaws`, `Ticker`, `TickLaws`, `Timestamps`, `Calendar`);
- the **column browser** and the compact file selection over flat manifest rows
  (`Like`, `Columns`, `ColumnLaws`, `ColumnTree`, `PageLaws`, `ColumnChains`, `Selection`,
  `SelectionLaws`);
- three small state machines: schema **migration** by any number of starting processes (`Migration`),
  the **login throttle** (`Throttle`) and the **rotation** of scheduled verifications (`Rotation`).

Where the source updates objects or tables in place the model has a class whose methods are proved
against functions on plain values; the `...Laws` modules prove theorems about those functions over every
run. Instants are whole seconds, a time zone is a fixed offset. `Timestamps.IsoOrder` is why comparing
the stored timestamp text is comparing the instants.

`dafny verify dfyconfig.toml` checks everything.

## What the proofs found

- **A fast restart can block a device for ever.** The comment at `src/bioseasy/jobs.py:134-136` says the
  worker id tells a process apart from its own previous instance, and the docstring at
  `src/bioseasy/jobs.py:74-77` says a restart never leaves a run stuck. But the worker always runs as
  `huey-worker` (`src/bioseasy/__init__.py:106`). `RunLaws.OrphanStaysIff` gives the exact condition for
  every run: an orphaned row stays running until some sweep finds its worker id unregistered or silent for
  more than 60 s. `RunLaws.FastRestartBlocksDevice` shows the failing family: a restart under the same id
  within the threshold, then any number of heartbeats and sweeps. `RunLaws.UnusedIdIsFreed` is the
  promised behaviour, for an id nobody reuses. The same docstring names `app.py`'s lifespan as a caller of
  the sweep; only the worker's start (`src/bioseasy/__init__.py:110`) and the tick call it.
  `RunLaws.FastRestartHappens` is a whole run of it, from the empty installation on.
- **A claim can be dropped.** Between the row update and the state removal of `_finish` a web request can
  insert a new row whose task then finds the old state and does nothing (`RunLaws.FinishRaceDropsClaim`).
  The row blocks its device over every run without a sweep, and the next sweep, whenever it comes, records
  "Worker restarted during the backup" although none did (`RunLaws.StrandedStaysIff`).
- **A run recorded as failed can become succeeded.** `_finish` updates by id whatever the status, so the last
  recorded end decides, whatever a sweep wrote before (`RunLaws.SucceededIff`). A run whose generation was
  taken still ends failed when pruning or the bookkeeping after it raises.
- **A stopped pruning leaves a truncated generation that looks like any other.** `apply_retention` removes a
  generation in place under its final name (`src/bioseasy/snapshots.py:249`), so a death or an error half-way
  leaves it listed with files missing; `SnapshotLaws.IntactAfterPruneIff` says exactly when,
  `SnapshotLaws.TruncationHappens` is the smallest case. What the policy keeps is never affected
  (`SnapshotLaws.HistoryIsSound`) and the next complete backup clears the rest (`SnapshotLaws.BackupEndsExact`),
  unless by then a pin or a larger policy keeps the truncated one (`SnapshotLaws.WholeAgainIff`).
- **Both hypotheses of mutual exclusion are needed**: `RunLaws.SweepBeforeClaimAllowsTwoEngines` and
  `RunLaws.StaleHeartbeatAllowsTwoEngines`, each with a run from the empty installation
  (`RunLaws.TwoEnginesAfterEarlySweep`, `RunLaws.TwoEnginesAfterSilence`); `RunLaws.SweepGoodIff` says exactly
  which sweeps are harmless.
- **Retention does not depend on the clock running forwards**: `RetentionLaws.IncrementalIsBatch` holds for
  generations taken in any order of time, not only increasing ones.
- **ASCII case leaks into columns and selections** because LIKE folds it: a folder's column also lists what lies
  in its case variants. `ColumnTree.ColumnIsExactIff` and `ColumnTree.FolderCountIsSumIff` say exactly when the
  counts go wrong, `ColumnChains.EveryFileHasOneChainIff` exactly when a file is shown in more than one place,
  and `SelectionLaws.TickedEntryIsItsFilesIff` exactly when ticking an entry does not select the files it stands
  for. Two rows are enough: `ColumnTree.CaseLeak`, `ColumnChains.TwoChains`, and `SelectionLaws.TickedEntryIsLost`,
  where the ticked file is missing from the archive.
- **An empty directory is listed as a file**: a child is a folder iff some row lies deeper
  (`ColumnLaws.ColumnCountsEveryRowOnce`), whatever the flag of its own row.
- **The throttle locks a key out for good after 1024 further failures**: the integer power no longer converts
  to a float, `wait_seconds` raises, and since every caller asks it first nothing ever changes the key's entry
  again, not even the right password, until a restart. A guesser who waits as told gets there
  (`Throttle.GuesserLocksKey`), with the defaults after some three and a half days (`Throttle.DefaultBound`).
- **A migration can report a version that is not the committed one** exactly when a newer release migrates the
  file between its two transactions (`Migration.ReturnedIsCommittedIff`); among processes of one release it
  cannot (`Migration.EveryStartEndsWell`).

## Model

| member | source | states |
|---|---|---|
| Calendar.CivilOrder | src/bioseasy/snapshots.py:180-189 | reading a date year, month, day orders exactly like the days, and equal dates are equal days |
| Calendar.IsoWeekIsMondayToSunday | src/bioseasy/snapshots.py:184-186 | two days share an ISO year and week iff they lie in the same Monday-to-Sunday week |
| Calendar.KnownDays | src/bioseasy/snapshots.py:180-189 | the calendar is the real one: second 0 is Thursday 1970-01-01, and 29 February 2000 is where it is |
| Timestamps.IsoOrder | src/bioseasy/ticker.py:41-42 | for years 1000 to 9999 the stored text of two instants compares like the instants |
| Timestamps.KnownTexts | src/bioseasy/ticker.py:41-42 | the stored texts of two known instants |
| Retention.MarkPeriod | src/bioseasy/snapshots.py:217-231 | one pass appends the rule to exactly the generations that open a new bucket among the first `count` buckets |
| Retention.WalkIsKeptBy | src/bioseasy/snapshots.py:223-231 | deciding while walking newest first agrees with: newest of its bucket, fewer than `count` distinct buckets among all newer ones |
| Retention.LatestIsRank | src/bioseasy/snapshots.py:214-216 | "keep the last n" is the rule whose buckets hold one instant, and keeps the first n positions |
| Retention.PlanRetention | src/bioseasy/snapshots.py:192-237 | the labels of every generation, in order, are those of the declarative rules over the set of instants |
| RetentionLaws.BucketsAreDaysAndWeeks | src/bioseasy/snapshots.py:180-189 | daily buckets are local calendar days and weekly buckets run from Monday to Sunday local time |
| RetentionLaws.BucketsAreMonthsAndYears | src/bioseasy/snapshots.py:187-189 | two instants share a monthly bucket iff their local days lie in one month of one year, and a yearly one iff in one year, as intervals of days |
| RetentionLaws.LabelsAre | src/bioseasy/snapshots.py:192-237 | exactly which labels a generation gets, in which order: by the marker, by the number of newer generations, and by the local days, weeks, months and years of the newer ones |
| RetentionLaws.Leaders | src/bioseasy/snapshots.py:221-231 | the generations one rule keeps stand for at least the first n buckets and number at most n |
| RetentionLaws.KeptOfBetween | src/bioseasy/snapshots.py:221-231 | removing generations a rule does not keep changes nothing for that rule |
| RetentionLaws.ReasonsOfBetween | src/bioseasy/snapshots.py:192-237 | re-planning any set between the survivors and the whole gives each generation the very same label list |
| RetentionLaws.SurvivorsOfBetween | src/bioseasy/snapshots.py:240-260 | applying retention again removes nothing more |
| RetentionLaws.SurvivorsOfAdded | src/bioseasy/snapshots.py:192-237 | a generation added anywhere in time brings back none that was dropped |
| RetentionLaws.IncrementalIsBatch | src/bioseasy/snapshots.py:192-260 | pruning after every backup keeps exactly what one plan over the full history keeps, in any order of times |
| RetentionLaws.LargerPolicyKeepsMore | src/bioseasy/snapshots.py:150-158 | a pointwise larger policy keeps a superset |
| RetentionLaws.SurvivorsContainNewest | src/bioseasy/snapshots.py:232-236 | the newest generation always survives |
| RetentionLaws.SurvivorsBounded | src/bioseasy/snapshots.py:192-237 | the unpinned survivors number at most the sum of the positive counts, or one |
| RetentionLaws.PinnedSurvive | src/bioseasy/snapshots.py:211-213 | a pinned generation is never removed |
| Snapshots.Store.ListSnapshots | src/bioseasy/snapshots.py:112-128 | lists every generation with its pin, strictly newest first, and no partial copy |
| Snapshots.Store.Take | src/bioseasy/snapshots.py:73-109 | the whole new disk and the result, for a missing rsync, a failing one, an occupied target and success |
| Snapshots.LinkBaseIs | src/bioseasy/snapshots.py:92-95 | a copy links against the newest listed generation iff hard links work and there is one |
| Snapshots.Store.Pin | src/bioseasy/snapshots.py:131-144 | sets or clears the marker of an existing generation and refuses any other name |
| Snapshots.Store.RemoveTree | src/bioseasy/snapshots.py:249 | removes one generation file by file and then its directory, or stops after any number of files and leaves the rest listed |
| Snapshots.Store.ApplyRetention | src/bioseasy/snapshots.py:240-260 | removes the generations without a label newest first, file by file, reports them, or stops after any number of removals with the exact disk that leaves |
| Snapshots.Store.DiskUsage | src/bioseasy/snapshots.py:263-279 | the total is the sum of sizes over the distinct readable inodes |
| SnapshotLaws.PruneUntilFacts | src/bioseasy/snapshots.py:240-260 | wherever a pruning stops, it touches no generation the plan keeps; at its end exactly those and their pins are left |
| SnapshotLaws.StopIsCleanIff | src/bioseasy/snapshots.py:246-251 | every generation still listed is as it was iff the removal stopped between two generations |
| SnapshotLaws.RemovalEndsIff | src/bioseasy/snapshots.py:246-251 | a removal ends iff it gets a file removal for each file and a directory removal for each generation to be removed |
| SnapshotLaws.StepKeepsIsolation | src/bioseasy/snapshots.py:73-109 | every write, delete, copy, death in a copy, stopped or complete pruning and pin keeps live inodes disjoint from all snapshot inodes |
| SnapshotLaws.IsolationKept | src/bioseasy/snapshots.py:3-7 | so does every run of them |
| SnapshotLaws.GenerationNeverChanges | src/bioseasy/snapshots.py:3-7 | over every run a listed generation stays listed with the same tree and contents until a pruning sets out to remove it or a copy of the same second fills its empty directory |
| SnapshotLaws.PinnedIsKept | src/bioseasy/snapshots.py:131-144 | once pinned, a generation stays listed with the same contents over every run of writes, copies, deaths and prunings until its pin is cleared |
| SnapshotLaws.SafeFromWritesIffDisjoint | src/bioseasy/snapshots.py:3-7 | a tree survives every in-place live write iff it shares no inode with a live file |
| SnapshotLaws.PruneKeepsSound | src/bioseasy/jobs.py:284-294 | pruning after copies, some of whose prunings may have stopped anywhere, spares what one plan over everything ever taken keeps, and at its end leaves nothing else |
| SnapshotLaws.HistoryIsSound | src/bioseasy/jobs.py:284-294 | over every history of writes and backups, failed, stopped anywhere or complete, what one plan over everything ever taken keeps is listed and holds exactly the live files of its own second; any other listed generation can only lack some of its files |
| SnapshotLaws.BackupEndsExact | src/bioseasy/jobs.py:284-294 | after any such history a complete backup leaves exactly the survivors of everything ever taken, each with all its files |
| SnapshotLaws.PruningFrees | src/bioseasy/snapshots.py:263-279 | a complete pruning brings the bytes of a device's generations down by exactly the removed files no kept generation shares |
| SnapshotLaws.IntactAfterPruneIff | src/bioseasy/snapshots.py:246-251 | from a past without missing files, a pruning leaves one iff it stops between two generations or not at all |
| SnapshotLaws.OneUnlinkTruncates | src/bioseasy/snapshots.py:249 | one file removed and the process dead: the newest unkept generation is listed without that file |
| SnapshotLaws.TruncationHappens | src/bioseasy/snapshots.py:246-251 | the smallest input: two copies of one file under keep-last-one and a death after one unlink leave the older one listed and empty |
| SnapshotLaws.WholeAgainIff | src/bioseasy/snapshots.py:240-260 | after a later complete pruning under any policy and pins all is whole again iff it keeps no truncated generation |
| SnapshotLaws.FullCopiesKeepLatestAndPinned | src/bioseasy/jobs.py:285-288 | without hard links only the newest and the pinned generations are left |
| SnapshotLaws.PolicyWithLinks | src/bioseasy/jobs.py:285-288 | with hard links the configured policy applies, without them keep-last-one |
| Runs.Database.Insert | src/bioseasy/jobs.py:170-181 | inserts a running row, or reports the violated index and changes nothing |
| Runs.Database.MarkBackupStarting | src/bioseasy/runtime.py:672-696 | the web half: an unclaimed running row, or None when the device already has one |
| Runs.Database.SweepOrphanRuns | src/bioseasy/jobs.py:71-92 | fails exactly the running rows whose worker is unknown, unregistered or silent too long, and counts them |
| Runs.JobManager.Start | src/bioseasy/jobs.py:150-193 | the whole new table and state for each branch: already known here, claim, insert, refused by the index, and refused by a run that ends before its row is read (a TypeError) |
| Runs.JobManager.Progress | src/bioseasy/jobs.py:230-242 | updates the state always and the row at most once per interval, and nothing for an unknown device |
| Runs.JobManager.Finish | src/bioseasy/jobs.py:250-262 | ends the row by id whatever its status, and forgets the device's state |
| Runs.JobManager.WriteHeartbeat | src/bioseasy/jobs.py:204-210 | registers the worker with the new heartbeat |
| RunProtocol.NextKeepsInv | src/bioseasy/jobs.py:150-262 | every step keeps one running row per device, one run per thread, and each thread registered in its process |
| RunProtocol.InvKept | src/bioseasy/db.py:198-200 | so does every interleaving of these steps, with no hypothesis on sweeps, clocks or workers |
| RunLaws.OneThreadPerProcess | src/bioseasy/jobs.py:160-162 | in every interleaving of the protocol's steps one process never has two threads for one device |
| RunLaws.SweepGoodIff | src/bioseasy/jobs.py:79-91 | a sweep leaves the running backups of a device alone iff no task of the device waits for its claim and the workers backing it up were heard from within the threshold |
| RunLaws.MutualExclusion | src/bioseasy/jobs.py:150-193 | if all sweeps of a run are such for a device, at most one backup thread runs for it in the whole system, whatever happens to other devices |
| RunLaws.AtMostOneBackup | src/bioseasy/jobs.py:150-193 | so from the empty installation on |
| RunLaws.NoStuckRuns | src/bioseasy/jobs.py:71-92 | after a sweep that follows any run, every row still running names a registered worker heard from within 60 s, and no device has two |
| RunLaws.NextRevivesNothing | src/bioseasy/jobs.py:255-259 | no statement loses a row, moves it to another device or revives an ended one |
| RunLaws.EndedStaysEnded | src/bioseasy/jobs.py:250-262 | over every run an ended row never runs again and a device never has two running rows |
| RunLaws.RowReadsAsItsLastEnd | src/bioseasy/jobs.py:296-354 | over every run a row has the status, message and time of the last end recorded for it: not confirmed iff storage was fine and nobody confirmed, succeeded iff every part was done, failed with the message of the failing part otherwise; if no end was recorded, an ended row keeps its own, and any other runs or was swept |
| RunLaws.SucceededIff | src/bioseasy/jobs.py:296-354 | so a row reads succeeded iff the last end recorded for it knew a complete backup and everything after it done, whatever sweeps lay between, or it read so from the start and no end was recorded |
| RunLaws.AbandonedStaysIff | src/bioseasy/jobs.py:79-91 | over every run a running row nobody drives stays exactly as it is until a sweep finds its worker gone, and then is failed for good |
| RunLaws.CrashLeavesOrphans | src/bioseasy/jobs.py:33-37 | a crash turns every row its threads held into an orphan |
| RunLaws.OrphanStaysIff | src/bioseasy/jobs.py:71-92 | over every run an orphan keeps running iff no sweep finds its worker id unregistered or silent for more than the threshold |
| RunLaws.UnusedIdIsFreed | src/bioseasy/jobs.py:134-137 | if nobody reuses the dead worker's id, the first sweep more than 60 s after its last heartbeat ends its runs |
| RunLaws.SweptDeviceAcceptsRun | src/bioseasy/jobs.py:74-77 | after such a sweep the device accepts a new run |
| RunLaws.FastRestartBlocksDevice | src/bioseasy/__init__.py:106-118 | a restart under the same id within the threshold leaves the old row running and every new run refused, after any number of further heartbeats and sweeps |
| RunLaws.FastRestartHappens | src/bioseasy/__init__.py:106-118 | a run from the empty installation: boot, start, crash, restart 30 s later, and the device is blocked for any number of rounds |
| RunLaws.SweepBeforeClaimAllowsTwoEngines | src/bioseasy/jobs.py:163-169 | a sweep between a web insert and its claim lets two processes run an engine for one device |
| RunLaws.StaleHeartbeatAllowsTwoEngines | src/bioseasy/jobs.py:33-37 | so does a sweep that finds a live worker silent for too long |
| RunLaws.TwoEnginesAfterEarlySweep | src/bioseasy/jobs.py:163-169 | the first, as a run from the empty installation |
| RunLaws.TwoEnginesAfterSilence | src/bioseasy/jobs.py:33-37 | the second, as a run from the empty installation |
| RunLaws.DroppedClaimStrandsRow | src/bioseasy/jobs.py:160-169 | a delivered task starts a thread iff the process has no state for the device; otherwise its row is left running, unclaimed and undriven |
| RunLaws.FinishRaceDropsClaim | src/bioseasy/jobs.py:255-261 | from every such state a finishing thread, a web request and a delivery between the two halves of `_finish` strand a row |
| RunLaws.StrandedStaysIff | src/bioseasy/jobs.py:79-91 | over every run a stranded row keeps running iff the run has no sweep, and else is failed as a restart that never was |
| Schedule.ParseHhmm | src/bioseasy/scheduler.py:34-41 | an accepted clock time is a whole minute of the day |
| Schedule.ClockRoundTrip | src/bioseasy/scheduler.py:34-41 | every whole minute of the day is read back from its HH:MM text |
| ScheduleLaws.ParseOkIff | src/bioseasy/scheduler.py:34-41 | a text is a clock time iff it is two runs of digits around one colon, at most 23 and 59, and then it is those hours and minutes |
| Schedule.WindowArithmetic | src/bioseasy/scheduler.py:44-89 | inside means within the window's length of the last start; outside means between that end and the next start, for all three shapes of window |
| Schedule.NextStartMonotone | src/bioseasy/scheduler.py:81-89 | the next occurrence only moves forward |
| ScheduleLaws.OpensOnce | src/bioseasy/scheduler.py:68-89 | at every instant a window has exactly one last and one next opening, less than a day away |
| ScheduleLaws.DecideIff | src/bioseasy/scheduler.py:163-200 | for every readable window, in instants and seconds: a start iff nothing runs, the last success is that old, the device is reachable, now is before the window's end, the charging rule is met and the retry mark is reached; and the same kind of iff for the reminder, the overdue alert and the notice |
| ScheduleLaws.NoWindowNeverStarts | src/bioseasy/scheduler.py:44-52 | without a window nothing starts and no notice is sent, while reminders and overdue alerts go out as with one |
| ScheduleLaws.SkippedIff | src/bioseasy/scheduler.py:53-56 | a decision is an error iff nothing runs and the window has one bound alone or an unreadable one |
| ScheduleLaws.ReasonIff | src/bioseasy/scheduler.py:202-222 | the reason names the first condition that stops a start, then every message that goes out |
| ScheduleLaws.RunningSaysSo | src/bioseasy/scheduler.py:163-164 | a running device raises nothing, whatever its window |
| Ticker.Lease.Acquire | src/bioseasy/ticker.py:45-59 | succeeds iff the stored text is less than that of now minus the interval, and then stores now |
| Ticker.LeaseSpacing | src/bioseasy/ticker.py:45-59 | successive acquisitions by any workers are strictly more than the interval apart, whatever the clocks do |
| Ticker.LeaseIsFreeAfterInterval | src/bioseasy/ticker.py:45-59 | an attempt succeeds iff it comes more than the interval after the last acquisition |
| Ticker.LazyProbeIsExact | src/bioseasy/ticker.py:153-176 | the optimistic pass gives the identical decision to always probing, and probes iff the answer decides the outcome |
| Ticker.TickState.Tick | src/bioseasy/ticker.py:151-195 | every device is decided and stamped by its own view alone, malformed windows are skipped, starts and alerts come in view order |
| ScheduleLaws.StartsIff | src/bioseasy/ticker.py:151-182 | a tick starts exactly the devices whose decision, taken with the true charging state, says so, in view order |
| ScheduleLaws.AlertsOfOne | src/bioseasy/ticker.py:183-192 | each raised flag sends its one alert, overdue before reminder before notice, the notice with the minutes left to the nearest one |
| ScheduleLaws.AlertsWithoutWindow | src/bioseasy/ticker.py:177-188 | a skipped device gets no alert, one without a window at most the overdue alert and the reminder |
| ScheduleLaws.AlertsIff | src/bioseasy/ticker.py:151-192 | a tick sends exactly the alerts of its decisions |
| ScheduleLaws.StampsIff | src/bioseasy/ticker.py:183-195 | each message sent stamps the tick's instant, a notice the opening it announces, and nothing else is stamped |
| TickLaws.StartMeansSlot | src/bioseasy/scheduler.py:169-178 | a tick that starts a backup does so between the window's last opening and that occurrence's end, in an open retry slot, for a reachable device that is due and meets its charging rule |
| TickLaws.AtMostFourStarts | src/bioseasy/scheduler.py:25-30 | over every run of ticks with manual attempts mixed in, also between a tick's reading and its insert, a window occurrence sees at most four scheduled starts, the k-th not before the k-th offset |
| TickLaws.NudgesApart | src/bioseasy/scheduler.py:180-181 | nudges are at least the interval apart over every run of ticks |
| TickLaws.OverduesApart | src/bioseasy/scheduler.py:183-193 | overdue alerts are at least 24 hours apart over every run of ticks |
| TickLaws.OverduesIndependent | src/bioseasy/ticker.py:183-188 | the overdue alerts are the same whatever nudges and notices were sent |
| TickLaws.OneNoticePerOccurrence | src/bioseasy/scheduler.py:195-200 | each occurrence gets at most one notice, strictly before it begins and at most the lead ahead |
| Like.ThreeReplacesAreOnePass | src/bioseasy/extract.py:309-315 | the three sequential replaces equal escaping each character once |
| Like.FoldsAlikeIff | src/bioseasy/extract.py:603-607 | two characters match iff they are equal or the two cases of one ASCII letter |
| Like.EscapedIsLiteral | src/bioseasy/extract.py:309-315 | an escaped text before any pattern matches exactly itself up to ASCII case |
| Like.EscapedPrefix | src/bioseasy/extract.py:603-607 | the prefix pattern accepts exactly the texts that begin with the term up to ASCII case |
| Like.EscapedSubstring | src/bioseasy/extract.py:276-278 | the search pattern accepts exactly the texts that contain the term up to ASCII case |
| Columns.StripIs | src/bioseasy/extract.py:603-605 | strip takes off exactly the outer slashes |
| Columns.Children | src/bioseasy/extract.py:610-650 | the page asked for, row for row, out of the sorted column without the bookkeeping files, with the whole column's total |
| PageLaws.PageSaysTrue | src/bioseasy/extract.py:624-650 | every row of every page counts the manifest rows of its name, is a folder iff some row lies deeper, has a file id iff it is a file and then the least of its rows, and stands folders first, then by name |
| PageLaws.ShownIff | src/bioseasy/extract.py:632-634 | a name is shown iff some manifest row belongs to it, save a bookkeeping file with nothing below it |
| ColumnLaws.ColumnCountsEveryRowOnce | src/bioseasy/extract.py:559-574 | every row below a prefix is counted in exactly one child, a child is a folder iff some row lies deeper, its id is the least of its group, folders come first and then names |
| ColumnTree.ColumnIsExactIff | src/bioseasy/extract.py:562-564 | a column's total is its own folder's iff no folder differing by ASCII case alone holds a row |
| ColumnTree.FolderCountIsSumIff | src/bioseasy/extract.py:559-574 | a folder's count is the rows named exactly by its path plus the sum of the counts in its own column iff no folder differing from it by ASCII case alone holds a row |
| ColumnTree.CaseLeak | src/bioseasy/extract.py:562-564 | two rows make two folders of one file each, and a column of two |
| ColumnChains.OwnChainShows | src/bioseasy/extract.py:547-553 | a regular file's path, cut at the slashes, is a chain of columns whose pages lead to it; only a bookkeeping file is left out, unless some row lies below its name |
| ColumnChains.EveryFileHasOneChainIff | src/bioseasy/extract.py:559-574 | the pages show a regular file by no other chain iff no listed path differs by ASCII case alone from a folder above it |
| ColumnChains.TwoChains | src/bioseasy/extract.py:562-564 | two rows are enough for a file that is shown under two folders |
| ColumnTree.NextPrefix | src/bioseasy/extract.py:603-607 | the prefix a click sends is cut to the next column's literal |
| ColumnTree.PagesConcatenate | src/bioseasy/extract.py:624-650 | consecutive pages are the beginning of the column, as queried and as shown; the queried ones are the whole of it iff the last one has no more, and then the shown ones are too |
| Selection.SelectionFileIds | src/bioseasy/extract.py:653-687 | the ids, in table order, of the regular files some entry covers |
| SelectionLaws.EntryCoversIff | src/bioseasy/extract.py:673-681 | an entry covers its domain, its own file, and whatever lies below it up to ASCII case |
| SelectionLaws.CoveredBySpec | src/bioseasy/app.py:1965-1980 | names a chosen whole area or the deepest chosen proper ancestor, and None iff there is neither |
| SelectionLaws.ExpandedIffShown | src/bioseasy/app.py:1965-1980 | a file is in the archive iff its own pair is chosen, or the page shows it covered, or a chosen folder is its ancestor but for ASCII case |
| SelectionLaws.TickedEntryIsItsFilesIff | src/bioseasy/app.py:2167-2176 | ticking an entry as a column displays it selects exactly the regular files it stands for iff none is a namesake in a case variant of the column's folder or lies below another spelling of the entry |
| SelectionLaws.TickedEntryIsLost | src/bioseasy/extract.py:673-681 | the file listed as b under Foo, stored as foo/b: ticking it puts nothing into the archive |
| SelectionLaws.CoveredEntryIsRedundant | src/bioseasy/extract.py:653-687 | adding an already covered entry leaves the archive unchanged |
| SelectionLaws.OrderDoesNotMatter | src/bioseasy/app.py:2528 | choosing the same entries in another order or twice gives the same archive |
| SelectionLaws.ExpandedOnly | src/bioseasy/extract.py:653-687 | an id is in the archive iff a regular, covered, non-bookkeeping row has it |
| SelectionLaws.ArchiveHolds | src/bioseasy/extract.py:653-687 | so an id is in the archive iff a regular, non-bookkeeping row has it whose area is chosen, or whose own path is, or which lies below a chosen path up to ASCII case |
| Selection.SelectionStore.ChangeSelection | src/bioseasy/app.py:1942-1954 | the whole new table: the change with a fresh expiry, unless it would pass the ceiling; never an empty selection, no other session touched |
| Selection.SelectionStore.SweepFileSelections | src/bioseasy/app.py:1982-1985 | drops exactly the expired selections |
| Migration.Connection.ProbeVersion | src/bioseasy/db.py:799-836 | the committed file and outcome of the first transaction, on every version |
| Migration.FirstEndsIff | src/bioseasy/db.py:799-836 | which version ends the first transaction how: only a fresh file whose SCHEMA fails ends in a failed step, and only one whose SCHEMA succeeds is changed |
| Migration.Connection.MigrateForward | src/bioseasy/db.py:850-878 | commits every step above the version it reads, in order, or nothing |
| Migration.MigrationIsAllOrNothing | src/bioseasy/db.py:784-878 | over any interleaving of starts, failures and deaths the file is the start file or its one target, and every process that returns leaves the current version committed |
| Migration.EveryStartEndsWell | src/bioseasy/db.py:784-878 | so from before any process starts, whatever the file |
| Migration.AloneSucceeds | src/bioseasy/db.py:784-878 | one process with no failing statement brings every supported file, fresh ones included, to version 20 and returns 20, each step committed once and in order |
| Migration.CleanPassSucceeds | src/bioseasy/db.py:858-871 | a pass without a failing step brings every supported file to its target |
| Migration.FailingStepChangesNothing | src/bioseasy/db.py:872-878 | a failing step leaves the file as it was and the first one is named |
| Migration.ReturnedIsCommittedIff | src/bioseasy/db.py:835-871 | whatever other processes do between the two transactions of one that returns, the version it reports is committed iff no newer release migrated the file in between |
| Throttle.LoginThrottle.WaitSeconds | src/bioseasy/auth.py:266-271 | the seconds left, zero while free, and the overflow once the power exceeds a float |
| Throttle.WaitIsExact | src/bioseasy/auth.py:266-271 | at any later moment the wait is over iff at least the seconds told have passed |
| Throttle.FreeAttempts | src/bioseasy/auth.py:268-269 | nobody waits before the free attempts are used up |
| Throttle.LoginThrottle.Failed | src/bioseasy/auth.py:273-275 | one more failure of the key, stamped now |
| Throttle.LoginThrottle.Succeeded | src/bioseasy/auth.py:277-278 | forgets the key and no other |
| Throttle.FailuresSpaced | src/bioseasy/auth.py:266-275 | whatever other keys do, each further failure waits out its delay, and no key ever passes free + 1024 failures |
| Throttle.ThrottleBound | src/bioseasy/auth.py:255-278 | the n-th failure comes at least the sum of the delays after the free-th |
| Throttle.DefaultBound | src/bioseasy/auth.py:262 | with the defaults, at least 510 + 300 (n - 13) seconds after the fifth, for n from 13 on |
| Throttle.BoundIsTight | src/bioseasy/auth.py:255-278 | a guesser who waits exactly as told meets the bound with equality |
| Throttle.LockedForEver | src/bioseasy/auth.py:266-278 | once the wait of a key raises, no continuation by callers who ask first changes its entry |
| Throttle.GuesserLocksKey | src/bioseasy/app.py:967-994 | the waiting guesser's failure number free + 1024 locks the key, whatever anybody tries later |
| Rotation.Pick | src/bioseasy/verify.py:255-271 | a listed generation no other precedes: never checked first, then the longest unchecked |
| Rotation.PickIs | src/bioseasy/verify.py:264-271 | the oldest generation never checked, or if all were checked one checked longest ago |
| Rotation.FullRound | src/bioseasy/verify.py:199-221 | from any results stored before the first pick, n consecutive picks out of n generations check each exactly once |
| Rotation.NeverCheckedFirst | src/bioseasy/verify.py:264-271 | while generations were never checked the picks are exactly those, oldest first |

## Left out

- rsync, SQLite, Huey and the file system are not modelled: rsync is taken to leave fresh inodes or links to the given base (`Snapshots.RsyncHonest`), SQLite to be atomic per statement and per BEGIN IMMEDIATE transaction, and a queued task to be delivered at most once.
- Daylight saving shifts and sub-second times: zones are fixed offsets and instants whole seconds.
- Runs.JobManager.Progress: does not model the activity indicator or the waiting-for-passcode event.
- Runs.JobManager.Finish: does not model log lines, events, or an exception after the row was written: a hook that raises after the row was written has no step; the source would finish that run a second time and drop whatever state the device has in the process by then. The hooks the program installs only start a thread (`src/bioseasy/runtime.py:151-154`).
- RunProtocol.InvKept: over the steps of the protocol; a hook that raises after the row was written has no step; the source would finish that run a second time and drop whatever state the device has in the process by then. The hooks the program installs only start a thread (`src/bioseasy/runtime.py:151-154`).
- RunLaws.OneThreadPerProcess: over the steps of the protocol, so without such a second finish.
- RunLaws.RowReadsAsItsLastEnd: over the steps of the protocol, so without such a second finish, which would record the run as failed.
- RunLaws.SucceededIff: over the steps of the protocol, so without such a second finish, which would record the run as failed.
- RunLaws.MutualExclusion: a task delivered twice, a deleted device and a failing database write inside `_finish` are excluded.
- SnapshotLaws.HistoryIsSound: pins and policy stay the same over a history; `SnapshotLaws.IsolationKept` allows both to change and `SnapshotLaws.WholeAgainIff` says what a change means for a truncated generation.
- Snapshots.Store.RemoveTree: a tree is its files, so removing an inner directory is no step of its own; whether any is left below a generation without files is an input of the copy (`bare`).
- Snapshots.Store.Take: the removal of a leftover or failed partial directory, whose errors the source ignores, is taken to succeed; a death inside it is modelled.
- Schedule.ParseHhmm: only ASCII digits are digits; Python's isdigit accepts more.
- Ticker.TickState.Tick: discovery, sightings, tick rows, the sweep at its start (see RunProtocol) and the enqueueing of verifications are left out, and so is a death between an alert and its stamp.
- TickLaws.OneNoticePerOccurrence: assumes a clock that does not run backwards; the other schedule theorems do not.
- Columns.Children: file sizes and blobs are left out; the manifest is a list of rows.
- Rotation.FullRound: the picks come later than every stored check, as they do on a clock that does not run backwards.
- ColumnTree.FolderCountIsSumIff: assumes normal paths and that the column the folder stands in mixes in no case-variant folder; `ColumnTree.ColumnIsExactIff` gives the exact effect of one.
- SelectionLaws.ExpandedIffShown: for paths without outer slashes, as manifests write them, and for the row under its own path; `SelectionLaws.TickedEntryIsItsFilesIff` is about the path a column displays.
- Throttle.ThrottleBound: times and delays are real numbers, and two requests that both pass the wait check at once are not modelled.
- `verify_snapshot`'s walk, `verify.delete_results`, `defaults.resolve_device`, `retention_error`, `resolve_policy`, `activity`, connectors, routes, templates, cryptography and the device engine would add only easier members or are outside this model.
