# Palworld server manager: a verified model

This project models the logic of the server manager that keeps state, parses text or follows a
protocol, and proves what that logic is for. Every module imports `Text` (characters, decimal
numerals, string order).

| part | modules |
|---|---|
| INI printer, scanner and round trip | `IniCodec`, `IniRoundTrip`, `IniWalk` |
| protected merge of web edits | `ConfigPipeline`, `ProtectedKeys`, `ProtectedKeysExact` |
| crash-safe file replacement and rotating backups | `AtomicIo`, `BackupRotation` |
| directory staging and the release swap | `DirectoryDisk`, `StagingContext`, `Deployer` |
| reboot lifecycle | `RebootMachine`, `RebootTheorems`, `PalEngine` |
| metrics table, queries and pruning | `IsoClock`, `MetricsHistory`, `MetricsTheorems`, `MetricsStore` |
| metrics buffer, flushes and collector | `MetricsFlow`, `MetricsOrder`, `MetricsCollector` |
| changelog parser | `ChangelogLines`, `Changelog`, `ChangelogTheorems` |
| deployment progress | `DeployLog`, `DeployProgress` |
| session tokens | `Base64Url`, `TokenJson`, `SessionToken` |
| accounts and permissions | `Accounts`, `AccountTheorems` |
| player roster | `Roster` |

How the system is rendered:

- Code that works step by step is a method with its loops, proved against a function of its inputs or
  of the old state; what that function is good for is proved in lemmas beside it.
- Calls that may fail (files, directories, the database, HTTP) answer through parameters or
  nondeterministic choices, so every combination of failures is covered. File and directory code also
  records a trace of every state, so that a statement about the trace is a statement about a crash at
  any point.
- Coroutines are sequential code that gives way at each `await` to arbitrary events of others. The
  reboot engine and the metrics collector are each proved to be runs of a step machine, and the whole-run
  theorems are about every list of events of that machine.
- Time, random nonces, staging names and time stamps are parameters. The keyed hash is an arbitrary
  function.

`dafny verify dfyconfig.toml` checks everything.

## Where the code differs from its documentation

- `app/config_manager/pipeline.py:16-27` promises that a web edit never touches the administrative keys. A
  public string is printed as it is, and one that closes its own token can go on with a protected key
  (`ProtectedKeys.SeparatorInParentheses`). The promise has a condition on the save and one on the file.
  Call a pair contained when, printed and scanned by itself, it stores no protected key and leaves no
  token open; a pair with a word for a key and no equals sign in its string always is.
  - The save: among files whose public pairs are contained and whose protected values lose nothing in
    printing, a save under words keeps the keys of every file exactly when its public pairs are contained
    (`ProtectedKeysExact.KeepsEveryFileIff`, and for other keys `KeepsEveryFileAnyKeys`). Over several
    saves the same is asked of what a save leaves behind (`ProtectedKeys.ProtectedOverAnyRun`,
    `ProtectedKeys.TheNextSaveBreaks`).
  - The file: a protected value written by hand with a bare quote in it, or with more than six decimals, is
    changed even by a save of nothing (`ProtectedKeysExact.QuoteInPassword`). Where no token is
    left open, a contained save keeps the protected part exactly when there is no such value
    (`ProtectedKeysExact.KeepsThisFileIff`, over runs `KeepsOverRunsIff`).
- `app/config_manager/pipeline.py:73-98` reads the file twice. When both reads fail on an existing
  file, the administrative keys are missing from the text that is printed (`ConfigPipeline.ProtectedKeptIff`).
- `app/engine/deployer.py:302-328` can answer False over a complete deployment, exactly when the copying
  fallback brought everything and then failed, over metadata at its end or over the removal of the source
  (`Deployer.AnswerIsTruthIff`).
- `app/engine/service.py:486-508` does not reject a fresh lock file, because it goes on to touch it
  (`PalEngine.PalEngine.CheckAndAcquireLock`); mutual exclusion is claimed of the lifecycle lock alone.
- `app/engine/changelog.py:184-188` does not reset the builder at an Unreleased header, so a release
  before such a header is listed again, with its bullets (`ChangelogTheorems.OncePerHeaderIff`,
  `ChangelogTheorems.EveryBulletOnceIff`).
- `app/database/db.py:365` speaks of custom overrides, but a changed role always replaces the
  permissions by its defaults (`AccountTheorems.CustomIff`).
- `app/routers/deps.py:86-93` keeps the oldest thousand samples of a failing batch and drops the newest
  (`MetricsOrder.OutageKeepsOldest`).
- `app/routers/telemetry.py:159` and two more routes flush beside the collector. Samples can then be stored
  out of order of arrival; the order is safe exactly as long as no flush takes the buffer while another is
  under way (`MetricsOrder.TakeIsSafeIff`).
- `app/engine/updater.py:490-500` looks at the last thirty lines only, so the progress can fall exactly from
  that length on (`DeployProgress.FallsIffLong`).
- `app/engine/updater.py:608-609` counts finished numbers of any kind, so 100 can be answered before the last
  step (`DeployProgress.StrayNumbers`, `DeployProgress.HundredIsTruthIff`).

## Model

| member | source | states |
|---|---|---|
| `IniCodec.SerializeIniSettings` | app/config_manager/parser.py:512-538 | The printing loop yields exactly the text `Render` describes, for every kind of value: header, `OptionSettings=(`, the pairs in order, closing parenthesis |
| `IniCodec.ParseIniText` | app/config_manager/parser.py:484-509 | The scanning loop fills the dictionary with every match of the pattern, left to right, in the group between the first `OptionSettings=(` and the last `)`, and nothing when there is no group |
| `IniRoundTrip.RoundTrip` | app/config_manager/parser.py:484-538 | Scanning a printed dictionary gives back the same keys, order, types and values, each float rounded to the six decimals it is printed with and None or a list as the string it was printed as; keys are words, plain strings hold no quote, parenthesised strings no inner `)` |
| `IniRoundTrip.ExactRoundTrip` | app/config_manager/parser.py:484-538 | With floats of at most six decimals nothing is changed at all |
| `IniRoundTrip.SurvivesIffExact` | app/config_manager/parser.py:484-538 | A setting survives printing and reading exactly when no character of its string closes its own token and a float has at most six decimals |
| `IniRoundTrip.UnsafeIsLost` | app/config_manager/parser.py:490-504 | A string with a character that closes its own token never comes back, whatever the scanner reads from the remains |
| `IniRoundTrip.SecondRoundTrip` | app/config_manager/parser.py:484-538 | What has been read back once is a fixed point of printing and reading |
| `IniRoundTrip.ScanPairs` | app/config_manager/parser.py:490-509 | From the start of the joined pairs the scanner stores every pair, in order, behind what it already holds |
| `IniRoundTrip.PairRead` | app/config_manager/parser.py:490-509 | At the start of a printed pair the pattern matches that pair, to its end and no further, whatever follows after a comma |
| `IniRoundTrip.PayloadOfRender` | app/config_manager/parser.py:484-489 | The greedy group of a printed file is the joined pairs, whatever they contain |
| `IniRoundTrip.SignedDigits` | app/config_manager/parser.py:496-508 | Every integer's decimal text is coerced to that integer |
| `IniRoundTrip.FloatRoundTrip` | app/config_manager/parser.py:496-527 | Every float's six-decimal text is coerced to a float, the one those decimals denote, ties to even |
| `IniWalk.TameReadBack` | app/config_manager/parser.py:484-538 | Whatever the keys and strings are, as long as no pair leaves a quote or parenthesis open, a printed dictionary reads back as what its pairs store one after the other, each scanned by itself |
| `IniWalk.SurvivesIffAllExact` | app/config_manager/parser.py:484-538 | A dictionary whose pairs leave no token open survives printing and reading exactly when all its values are exact |
| `ConfigPipeline.ParsedKeys` | app/config_manager/parser.py:490-509 | Whatever is read, its keys are words and distinct |
| `ConfigPipeline.Pipeline.ReadToJson` | app/config_manager/pipeline.py:45-60 | Splits what was read into public and protected part; a missing file is an error, an unreadable one reads as empty |
| `ConfigPipeline.Pipeline.MergeAndSerialize` | app/config_manager/pipeline.py:73-98 | Prints the merge of live file, public edits and protected entries, for any outcome of the two reads |
| `ConfigPipeline.Pipeline.SaveAndSerialize` | app/config_manager/pipeline.py:100-125 | The file becomes the printed merge, or stays as it was when the write fails |
| `ConfigPipeline.MergedLookup` | app/config_manager/pipeline.py:84-98 | A protected key comes from the live file, a public key from the edit that sets it, every other key from the full file |
| `ConfigPipeline.MergeIsEdit` | app/config_manager/pipeline.py:84-98 | With both reads good a merge is the live file with the public edits stored into it, so order is kept |
| `ConfigPipeline.ProtectedKeptIff` | app/config_manager/pipeline.py:73-98 | A merge keeps the protected part exactly when one of its two reads of the file succeeds or nothing is protected; when both fail the administrative keys are gone |
| `ConfigPipeline.RoundEffect` | app/config_manager/pipeline.py:84-125 | One save of safe values into a file of safe values (word keys, no string closes its own token): every public key reads as edited or as before, to what printing keeps, and the protected part stays in place, to six decimals |
| `ConfigPipeline.TakenIff` | app/config_manager/pipeline.py:84-125 | For keys that are words and pairs that close their tokens: a save is read back as it was asked for, key for key and up to what printing drops, exactly when no value it prints closes its own token early |
| `ConfigPipeline.PublicOverAnyRun` | app/config_manager/pipeline.py:84-125 | Over any run of saves of safe values into a file of safe values, every public key holds the last value a save gave it, or its first, and the protected part stays in place, to six decimals |
| `ProtectedKeys.SeparatorInParentheses` | app/config_manager/parser.py:490-537 | A parenthesised public string with commas in it introduces a protected key into a file that has none and changes it in a file that has it |
| `ProtectedKeys.ContainedSaveKeeps` | app/config_manager/pipeline.py:84-98 | For a file whose public pairs are contained and whose protected values lose nothing in printing: a save keeps the protected part entry for entry when each of its public pairs is contained, that is, printed and scanned by itself stores no protected key and leaves no token open; keys and strings of the save may be anything |
| `ProtectedKeysExact.KeepsEveryFileIff` | app/config_manager/pipeline.py:84-98 | Among files whose public pairs are contained and whose protected values lose nothing in printing, a save under words keeps the protected part of every file exactly when each of its public pairs is contained |
| `ProtectedKeysExact.KeepsEveryFileAnyKeys` | app/config_manager/pipeline.py:84-98 | Among the same files, a save under any keys keeps the protected part of every file exactly when its public pairs under words are contained and, whichever of those words a file has, the pairs printed behind its own store no protected key |
| `ProtectedKeysExact.KeepsThisFileIff` | app/config_manager/pipeline.py:84-98 | The condition on the file: with its public pairs contained and no token left open in the protected ones, a contained save, one of nothing included, keeps the protected part exactly when every protected value loses nothing in printing |
| `ProtectedKeysExact.KeepsOverRunsIff` | app/config_manager/pipeline.py:84-125 | The same over runs: with harmless public entries, every run of harmless saves keeps the protected part exactly when every protected value loses nothing in printing |
| `ProtectedKeysExact.QuoteInPassword` | app/config_manager/parser.py:490-538 | A password with a bare quote, as it is read from a file written by hand, is changed by a save of nothing |
| `ProtectedKeys.ProtectedOverAnyRun` | app/config_manager/pipeline.py:84-125 | For a file whose public entries are harmless and whose protected values lose nothing in printing: over any run of saves of harmless settings the protected part stays entry for entry; no protected key is changed, dropped, moved or introduced |
| `ProtectedKeys.NoEqualsIsHarmless` | app/config_manager/parser.py:490-537 | A public string without an equals sign is harmless, whatever quotes and parentheses it holds |
| `ProtectedKeys.OneSaveIsNotEnough` | app/config_manager/parser.py:490-537 | A setting can keep to itself in one save without being harmless |
| `ProtectedKeys.TheNextSaveBreaks` | app/config_manager/pipeline.py:84-125 | After such a save the next one, of nothing at all, introduces a protected key |
| `AtomicIo.Directory.constructor` | app/core/atomic_io.py:180-208 | The directory before any write, and the trace of its states |
| `AtomicIo.Directory.AtomicWriteFile` | app/core/atomic_io.py:180-262 | At every step, so at any crash, the target is wholly old and later wholly new; the final directory and the answer are fixed for every combination of failing calls |
| `AtomicIo.Directory.StageAndSnapshot` | app/core/atomic_io.py:209-240 | Staging file with content and mode, backups taken and pruned, target untouched in every state |
| `AtomicIo.Directory.StageContent` | app/core/atomic_io.py:209-236 | What write, flush and mode change leave in the staging file, partial content included |
| `AtomicIo.Directory.PublishOrCleanUp` | app/core/atomic_io.py:241-262 | One atomic replacement, or the unlinking of the staging file |
| `AtomicIo.Directory.CreateBackupSnapshot` | app/core/atomic_io.py:112-141 | Copies a non-empty target under a time-stamped name and prunes; a failing copy leaves what it leaves and skips pruning |
| `AtomicIo.Directory.PruneBackups` | app/core/atomic_io.py:71-109 | Deletes exactly the oldest backups beyond the limit by modification time and name, except those whose deletion fails |
| `AtomicIo.Directory.SortedBackups` | app/core/atomic_io.py:84-101 | The candidates are all backups of the target, once each, in ascending order of the sort key |
| `AtomicIo.OldestIsPrefix` | app/core/atomic_io.py:101-109 | The excess oldest of a sorted list are its prefix and no other set qualifies |
| `BackupRotation.AllOrNothing` | app/core/atomic_io.py:209-262 | The target is all old or all new according to the answer; an aborted write leaves no staging file unless its unlink failed; other files are never touched |
| `BackupRotation.CleanWriteKeeps` | app/core/atomic_io.py:71-141 | One write shifts the kept versions by the one it replaces |
| `BackupRotation.BackupsAreLastVersions` | app/core/atomic_io.py:71-141 | After any number of writes whose clock runs forward, and fits the directory before the first, the backups are exactly the last `max_backups` non-empty replaced versions, contents and order included |
| `StagingContext.Context.constructor` | app/core/atomic_io.py:312-329 | A context that has no stage and has committed nothing |
| `StagingContext.Context.Enter` | app/core/atomic_io.py:331-348 | A new empty stage; the target is created only without atomic rename |
| `StagingContext.Context.Commit` | app/core/atomic_io.py:350-395 | Final directories and answer for every failing rename; at every step the old tree is whole at target or tombstone until the new one is in place; a repeated commit does nothing |
| `StagingContext.Context.Cleanup` | app/core/atomic_io.py:397-404 | Removes an uncommitted stage and never touches the target |
| `StagingContext.Context.Exit` | app/core/atomic_io.py:406-426 | A failing body leaves the target untouched in every state and removes the stage; a clean one commits unless it already has, with the old or the new tree whole at every step, and answers that the stage is missing when it has gone |
| `StagingContext.CommitOutcome` | app/core/atomic_io.py:350-395 | Success means the staged tree is live; failure leaves the old tree at the target, or at the tombstone exactly when second rename and rollback both failed; nothing else moves |
| `DirectoryDisk.Disk.MoveTree` | app/engine/deployer.py:318-328 | A copying move leaves the source whole until the copy is complete, and touches no other directory |
| `Deployer.PerformInitialTargetMove` | app/engine/deployer.py:302-328 | Rename, or else the copying fallback; the answer says which steps worked, and at every step the new tree is whole at the staged path or at the target |
| `Deployer.SwapDirectoriesWithRollback` | app/engine/deployer.py:331-358 | Directories and answer for every failing rename; old or new tree whole at the target at every step, and the old tree whole at target or tombstone throughout |
| `Deployer.ArchiveOrCleanupTombstone` | app/engine/deployer.py:361-401 | Where the tombstone ends, that nothing else is touched meanwhile, and that the old tree is whole at tombstone or archive at every step when the archive is reached |
| `Deployer.ExecuteAtomicSwap` | app/engine/deployer.py:404-447 | Directories and answer of the whole swap; at every step the old or the new tree is whole, with or without a target before, and with an archive the old tree is whole somewhere throughout |
| `Deployer.SuccessIsLive` | app/engine/deployer.py:404-447 | True means the target holds the staged tree and only tombstone and archive changed besides |
| `Deployer.FailureKeepsOld` | app/engine/deployer.py:331-358 | False over an existing target keeps the old tree whole at the target, or at the tombstone exactly when the rollback failed, and keeps the staged tree |
| `Deployer.ArchivedIff` | app/engine/deployer.py:361-401 | The old tree is archived whole exactly when a backup place was given and reached by rename or by a copy that brought everything, even one that failed at its end |
| `Deployer.AnswerIsTruthIff` | app/engine/deployer.py:302-447 | True is equivalent to the staged tree being live, except exactly when the fallback brought everything and then failed, at the end of the copy or over the removal of the source: then False is returned over a complete deployment |
| `RebootMachine.StepKeepsInv` | app/engine/service.py:711-802 | Every event keeps the invariant that ties the shown phase, the cancel event and the history of each run to the holder of the lifecycle lock |
| `RebootMachine.ResumedOk` | app/engine/service.py:555-781 | One resumption of a run keeps its history consistent with where it is |
| `RebootMachine.NextPcFollows` | app/engine/service.py:555-781 | Where a run can be suspended next, whatever the event flag and the outcome |
| `RebootTheorems.Reachable` | app/engine/service.py:711-802 | The invariant holds in every interleaving |
| `RebootTheorems.AtMostOneActive` | app/engine/service.py:711-781 | At most one run is past the lock, and the shown phase is that run's |
| `RebootTheorems.PhaseOrder` | app/engine/service.py:645-781 | The phase changes only along the diagram, or to idle by an exception, only by the run holding the lock, and leaves the countdown for idle only in a cancelled run |
| `RebootTheorems.CancelledIff` | app/engine/service.py:783-802 | A run counts as cancelled exactly when a cancel arrived during its own countdown |
| `RebootTheorems.FateOfRun` | app/engine/service.py:732-781 | A run that ends without an exception restarts exactly when no cancel hit its own countdown, and otherwise has neither saved nor restarted and has cleared the flags |
| `RebootTheorems.CancelledRunNeverRestarts` | app/engine/service.py:567-606 | After an accepted cancel that run never saves or restarts, exceptions included |
| `RebootTheorems.CancelEffect` | app/engine/service.py:783-802 | A refused cancel changes nothing; an accepted one sets event and reason and nothing else |
| `RebootTheorems.StepsBounded` | app/engine/service.py:555-781 | At most four steps for each second, two for each of the ninety probes and twenty more, in any interleaving |
| `RebootTheorems.DoneInBound` | app/engine/service.py:555-781 | With that many steps taken the run is done |
| `RebootTheorems.NeverStuck` | app/engine/service.py:711-781 | The lock holder can always go on, a free lock can always be taken, and without a holder the engine is idle |
| `PalEngine.PalEngine.CancelCountdown` | app/engine/service.py:783-802 | The code of a cancel is the machine's event; its answer says whether a countdown was running |
| `PalEngine.PalEngine.StageSettings` | app/engine/service.py:608-614 | Staging is the machine's event |
| `PalEngine.PalEngine.RunCountdownLoop` | app/engine/service.py:555-606 | Under any interference the loop is a run of the machine, and ends completed, cancelled or by an exception where the machine says |
| `PalEngine.PalEngine.RestartAndAwaitReadiness` | app/engine/service.py:645-693 | Save, restart and at most ninety probes are a run of the machine |
| `PalEngine.PalEngine.ReleaseRebootLock` | app/engine/service.py:695-709 | The lifecycle is idle again, and the lock file is gone unless its unlink failed |
| `PalEngine.PalEngine.CheckAndAcquireLock` | app/engine/service.py:486-508 | When the lock file makes a run fail before it starts, exactly; a fresh file does not |
| `PalEngine.PalEngine.SetUpdateFlags` | app/engine/service.py:510-535 | The flag files stand at every path that could be written, and nothing else changes |
| `PalEngine.PalEngine.ClearUpdateFlags` | app/engine/service.py:537-553 | The flag files are gone from every path that could be removed, and nothing else changes |
| `PalEngine.PalEngine.ExecuteCountdownAndReboot` | app/engine/service.py:711-781 | The coroutine terminates, is a run of the machine, gives the lock back and leaves the engine idle; without an exception it restarted exactly when not cancelled and tried to clear the flags exactly when cancelled. Then every removable flag is gone; otherwise every flag set stands unless the restart hook took it |
| `IsoClock.TextOrderIsTimeOrder` | app/database/metrics_db.py:372-374 | String order on UTC isoformat texts, with or without microseconds, is time order, and equal texts are equal times |
| `IsoClock.MinusDaysMicros` | app/database/metrics_db.py:372-373 | Subtracting days, a negative number too, moves the time by exactly that many days, and overflows only before the year 1 or after 9999 |
| `IsoClock.MinusHourMicros` | app/database/metrics_db.py:465-466 | Subtracting an hour moves the time by exactly one hour |
| `MetricsHistory.GroupsOk` | app/database/metrics_db.py:48-67 | Group keys ascend strictly, no group is empty, and the sizes sum to the rows |
| `MetricsTheorems.GroupingCharacterised` | app/database/metrics_db.py:48-67 | The grouping is the only ascending list that holds under each key exactly the rows of that key in table order; nothing is lost or counted twice |
| `MetricsTheorems.BucketTotal` | app/database/metrics_db.py:48-126 | The sample counts of a history sum to the rows in its window |
| `MetricsTheorems.BucketsAreSlots` | app/database/metrics_db.py:48-126 | Two samples share a bucket exactly when they fall into the same minute, ten minutes, hour or day of UTC, and bucket order is time order |
| `MetricsTheorems.RollUpTotals` | app/database/metrics_db.py:48-126 | Count and sum of a coarse bucket are the totals over the fine buckets inside it |
| `MetricsTheorems.RollUpExtremes` | app/database/metrics_db.py:48-126 | Minimum and maximum of a coarse bucket are the smallest and largest of the fine ones, and attained there |
| `MetricsTheorems.BucketOrdered` | app/database/metrics_db.py:48-67 | After rounding to two places minimum, mean and maximum are still in order in every bucket |
| `MetricsTheorems.PruneHiddenIff` | app/database/metrics_db.py:363-395 | Pruning is invisible to history and summary on every table exactly when its cutoff is not later than the window's start |
| `MetricsTheorems.PruneNeverSeenLater` | app/database/metrics_db.py:363-390 | With a retention of at least the window a prune is never seen by any later query |
| `MetricsStore.MetricsDb.constructor` | app/database/metrics_db.py:149-161 | An empty table |
| `MetricsStore.MetricsDb.RecordSnapshotsBatch` | app/database/metrics_db.py:299-361 | All rows of a batch are stored and counted, or none, at whatever row or at the commit an error strikes |
| `MetricsStore.MetricsDb.PruneOlderThan` | app/database/metrics_db.py:363-395 | Deletes exactly the rows before the cutoff and returns their number; errors are swallowed, and one in the commit leaves disk and connection apart |
| `MetricsStore.MetricsDb.GetHistory` | app/database/metrics_db.py:454-507 | The window's own query over its own cutoff, 24 hours for an unknown name, and nothing on an error |
| `MetricsStore.MetricsDb.Get30DaySummary` | app/database/metrics_db.py:509-552 | The summary of the last 30 days, all zeros when empty or on an error |
| `MetricsFlow.Conservation` | app/routers/deps.py:64-93 | In every interleaving of arrivals and flushes, each sample that arrived is buffered, held by a flush, stored or dropped, as often as it arrived |
| `MetricsFlow.DropsOnlyOverflow` | app/routers/deps.py:83-93 | Only a failed flush drops, only what lies beyond the first thousand of its batch, and only while more than a thousand samples wait |
| `MetricsFlow.LossNeedsBacklog` | app/routers/deps.py:83-93 | A loss means that more than a thousand samples were waiting at some moment |
| `MetricsOrder.InOrder` | app/routers/deps.py:74-93 | Whoever flushes, as long as no flush takes the buffer while another is under way, and with samples arriving at any time: stored, held and buffered samples are a subsequence of the arrivals, and all of them exactly when nothing was dropped |
| `MetricsOrder.TwoFlushesOvertake` | app/routers/deps.py:74-93 | Two flushes under way can always finish in an order that stores distinct samples out of order of arrival |
| `MetricsOrder.TakeIsSafeIff` | app/routers/deps.py:74-93 | Taking the buffer keeps the order in every continuation in which flushes take turns exactly when no other flush is under way |
| `MetricsOrder.FlushesCanOvertake` | app/routers/telemetry.py:159 | The smallest case: two flushes of one sample each |
| `MetricsOrder.SoloFlow` | app/main.py:181-188 | With the collector as only flusher the buffer holds at most 1001, at most 1000 after a flush; stored and waiting samples are a subsequence of the arrivals, and all of them exactly when nothing was dropped |
| `MetricsOrder.OutageKeepsOldest` | app/routers/deps.py:83-93 | With a full buffer and a failing database every pass drops the sample it has just taken and keeps the thousand oldest |
| `MetricsFlow.AlwaysOneBatch` | app/routers/deps.py:74-80 | No flush ever holds two batches |
| `MetricsCollector.Collector.constructor` | app/routers/deps.py:64-65 | An empty buffer in front of an empty table |
| `MetricsCollector.Collector.InsertBatch` | app/routers/deps.py:80-85 | The insertion is one event of the machine when it succeeds and none when it fails |
| `MetricsCollector.Collector.FlushMetricsBuffer` | app/routers/deps.py:68-93 | Under any interference the code is a run of the machine, returns the number of rows it stored itself, and leaves no batch in the air |
| `MetricsCollector.Collector.CollectorPass` | app/main.py:181-188 | One sample, and a flush exactly when due or a thousand are buffered |
| `MetricsCollector.Collector.CollectorLoop` | app/main.py:146-195 | For any passes, clock and failures the table lacks no stored row newer than the latest cutoff; undisturbed, the buffer holds at most a thousand between passes and table and buffer follow the arrivals in order |
| `MetricsCollector.Collector.Prune` | app/main.py:190-193 | A prune raises the latest cutoff and removes nothing behind it |
| `Changelog.ReleaseState.constructor` | app/engine/changelog.py:58-72 | An empty builder builds no release |
| `Changelog.ReleaseState.Reset` | app/engine/changelog.py:90-100 | The builder starts the new section and forgets the old one |
| `Changelog.ParseLines` | app/engine/changelog.py:163-227 | The loop over the text lines answers the releases and unreleased items read off the sections: every release once and once more per Unreleased section between it and the next |
| `Changelog.ClosedAndOpen` | app/engine/changelog.py:184-193 | What the parser has handed over and what is still in its builder are together the list of copies |
| `ChangelogTheorems.OncePerHeaderIff` | app/engine/changelog.py:175-222 | One release per release header, in order, exactly when no Unreleased header follows a release header; each one that does adds a copy |
| `ChangelogTheorems.BulletsLandOnce` | app/engine/changelog.py:195-219 | Every bullet of a section lands in exactly one list, that of the last category named before it or the default, in order |
| `ChangelogTheorems.EveryBulletOnce` | app/engine/changelog.py:195-227 | Counting each release section once, every bullet after the first section header is listed once |
| `ChangelogTheorems.EveryBulletOnceIff` | app/engine/changelog.py:184-227 | In what the parser answers no bullet after the first section header is lost; the bullets of a release are listed again once for each Unreleased header behind it, so every bullet is listed once exactly when no Unreleased header repeats a release that has bullets |
| `ChangelogTheorems.PrintedIsReadBack` | app/engine/changelog.py:163-227 | Parsing the text of any well-formed changelog answers the same releases and unreleased items |
| `ChangelogLines.UnreleasedIsRead` | app/engine/changelog.py:22 | The printed Unreleased header is recognised |
| `ChangelogLines.ReleaseIsRead` | app/engine/changelog.py:23-26 | Every printed release header gives back its version and its date, for every version and date the pattern allows |
| `ChangelogLines.CategoryIsRead` | app/engine/changelog.py:27 | Every printed category header gives back its name |
| `ChangelogLines.BulletIsRead` | app/engine/changelog.py:28 | Every printed bullet gives back its item, even one that looks like a header inside |
| `DeployProgress.GetDeploymentProgress` | app/engine/updater.py:478-643 | Progress, current step, status of every step and abort from the text of the last thirty lines, and the three answers while nothing is under way |
| `DeployProgress.Scan` | app/engine/updater.py:564-576 | The started and completed step numbers, an unnumbered OK completing the highest step started |
| `DeployProgress.MarkSteps` | app/engine/updater.py:578-603 | Status of every step and the current step, always 1 to 5 |
| `DeployProgress.PercentIs` | app/engine/updater.py:592-614 | With step numbers 1 to 5 the percentage is twenty per finished step and ten more until the last is finished |
| `DeployProgress.HundredIff` | app/engine/updater.py:608-614 | It is 100 exactly when all five steps are finished and otherwise 10 to 90 |
| `DeployProgress.NeverFalls` | app/engine/updater.py:568-614 | Within thirty lines another line never lowers the percentage or undoes a finished step |
| `DeployProgress.FallsIffLong` | app/engine/updater.py:490-614 | For every length: some log of that many lines with steps 1 to 5 makes the percentage fall exactly when the length is thirty or more |
| `DeployProgress.HundredMeans` | app/engine/updater.py:608-614 | With any step numbers 100 means that as many strange numbers are finished as steps are missing |
| `DeployProgress.HundredIsTruthIff` | app/engine/updater.py:608-614 | 100 and all steps finished coincide exactly when no strange number is finished, or some step is missing and the strange numbers are not just as many |
| `DeployProgress.StrayNumbers` | app/engine/updater.py:564-614 | Five printed lines numbered 0 to 4 answer 100 while step 5 is not completed |
| `DeployLog.StepIsRead` | app/engine/updater.py:565-571 | The step number of every printed step line is read, whatever the title, and its OK mark is seen |
| `DeployLog.BareStepIsNone` | app/engine/updater.py:494-571 | A step mark with nothing behind it is not seen, because the line has lost its last blanks |
| `Base64Url.DecodeOfEncode` | app/database/auth.py:116-122 | Encoded bytes decode to themselves, for every number of bytes |
| `Base64Url.PaddingRestored` | app/database/auth.py:159-160 | Stripped and restored padding decodes to the same bytes, for every number of bytes, and the stripped text has neither padding nor dot |
| `TokenJson.PrintRead` | app/database/auth.py:111-116 | Any flat object of strings and integers is read back from its JSON text, any characters included |
| `SessionToken.TwoParts` | app/database/auth.py:109-128 | A generated token splits at its dots into exactly payload and signature |
| `SessionToken.GeneratedTokenVerifies` | app/database/auth.py:109-184 | For every hash, key, username, clock, lifetime and nonce a generated token gives back the name until its expiry and never after; an empty name never |
| `SessionToken.AcceptedIff` | app/database/auth.py:141-184 | A token is accepted for a user exactly when it is a payload and that payload's own signature, and the payload names that user and an expiry not passed |
| `SessionToken.AcceptedEarlier` | app/database/auth.py:173-176 | What is accepted at one time was accepted for the same user at every earlier one |
| `Accounts.Database.constructor` | app/database/db.py:24-42 | Empty tables, ids from 1 |
| `Accounts.Database.CreateUser` | app/database/db.py:275-319 | A new row under a new id with the permissions of its role |
| `Accounts.Database.UpdateUser` | app/database/db.py:323-377 | Given attributes replaced, others kept; a changed role replaces the permissions by its defaults |
| `Accounts.Database.DeleteUser` | app/database/db.py:379-392 | The row and its permissions are gone |
| `Accounts.Database.SetUserPermissions` | app/database/db.py:427-442 | The permissions are exactly the given ones |
| `Accounts.Database.BootstrapAdminUser` | app/database/auth.py:232-252 | Creates the administrator of an empty database and nothing otherwise |
| `Accounts.Database.RegisterUser` | app/routers/auth.py:177-219 | 409 for a taken name, otherwise an active viewer |
| `Accounts.Database.CreateNewUser` | app/routers/auth.py:322-364 | 409 for a taken name, otherwise the user with given or default permissions |
| `Accounts.Database.UpdateExistingUser` | app/routers/auth.py:368-427 | 404, 400 or the update, and what each leaves in both tables |
| `Accounts.Database.UpdateUserRole` | app/routers/auth.py:430-472 | 404, 400 or the role change |
| `Accounts.Database.DeleteExistingUser` | app/routers/auth.py:475-505 | 400 for oneself, 404, 400 for the last administrator, or the deletion |
| `AccountTheorems.RefusedIff` | app/routers/auth.py:387-503 | A change is refused exactly when it would leave no active administrator or deletes the caller's own account |
| `AccountTheorems.AdminOverAnyRun` | app/routers/auth.py:177-505 | Every run of requests that starts with an active administrator keeps one, and keeps both tables consistent, with unique names |
| `AccountTheorems.BootstrappedRun` | app/database/auth.py:232-252 | From an empty database on, after the bootstrap there always is an active administrator |
| `AccountTheorems.CustomIff` | app/database/db.py:363-373 | Whether a request has set a user's permissions since its role last changed, read off the run |
| `AccountTheorems.PermissionsFollowRole` | app/database/db.py:305-373 | While no request has set others since the last change of role, the stored permissions are the role's defaults |
| `AccountTheorems.OnlyTheNamed` | app/routers/auth.py:177-505 | No request touches another account or its permissions |
| `AccountTheorems.NamesAreFixed` | app/database/db.py:24-34 | An id once handed out names the same account for ever |
| `Roster.CommunityTracker.constructor` | app/monitoring/tracker.py:132 | An empty ledger |
| `Roster.CommunityTracker.UpdateAndGetPlayers` | app/monitoring/tracker.py:465-545 | The loops merge the reports into the ledger and answer both lists and both counts |
| `Roster.MergeKeeps` | app/monitoring/tracker.py:478-503 | One poll adds the listed ids, removes none, keeps first sighting and user id, stamps the listed and leaves the others alone |
| `Roster.ListsPartitionLedger` | app/monitoring/tracker.py:478-536 | Every id of the ledger is in exactly one list, active once per report or offline once, and nobody else is in either |
| `Roster.LedgerRemembers` | app/monitoring/tracker.py:478-503 | After any polls a player is in the ledger exactly when some poll listed it, first seen at the first such poll and last seen at the last |
| `Roster.NeverForgotten` | app/monitoring/tracker.py:478-503 | No run of polls removes an id, moves it, or changes its first sighting or user id |
| `Roster.OfflineRecords` | app/monitoring/tracker.py:519-534 | The offline entries are the ledger's records with the ping set to zero |

## Left out

- SurvivesIffExact: is about a dictionary of one setting; for larger ones SurvivesIffAllExact says the same wherever no pair leaves a token open. Where one does, the direction from exact values to survival (ExactRoundTrip) still holds, and the converse is not stated.
- UnsafeIsLost: is about a dictionary of one setting, and says nothing on what the remains of the string store; TameReadBack says that for any dictionary whose pairs leave no token open.
- KeepsThisFileIff: is stated for files whose pairs leave no token open and whose public pairs are contained; what a save does to other files is not stated beyond TameReadBack.
- TakenIff: is stated for keys that are words and pairs that leave no token open.
- ProtectedOverAnyRun: gives a condition on each setting that is enough; that no weaker one would do is stated for single saves (KeepsEveryFileIff), because over several saves what one setting leaves behind can be overwritten by another of its own.
- ParseIniText: word characters, digits and white space are ASCII; Python's pattern also takes other letters and digits, and limits the length of integers. A file that is not valid UTF-8 raises UnicodeDecodeError, which the reader does not catch, so the save fails; such files are left out.
- AcceptedIff: the reader takes canonical base64 and flat JSON objects of strings and integers in ASCII; Python accepts more forms of a payload that carries its own signature.
- DecodeOfEncode: the decoder accepts canonical base64 only; Python's also skips foreign characters.
- ParseLines: white space and letters are ASCII, and the joining of raw lines into one body is not modelled.
- GetDeploymentProgress: elapsed and remaining seconds, texts and the operation named in the lock file are left out.
- ExecuteCountdownAndReboot: starts when the lifecycle lock is free for this run; the lock file before it is CheckAndAcquireLock, and a file that another process removes meanwhile is not modelled.
- Floats are exact reals: the rounding of a text to the nearest double, NaN and infinity are left out, in the INI codec and in metric averages.
- The file system is a map with atomic single steps: reordering of unsynced writes by the disk, permissions beyond the mode number, symbolic links and special characters in the backup pattern are left out.
- BackupsAreLastVersions: asks that the times of the writes do not decrease, that their stamps sort in order of writing, and that the first fits the directory it finds; two writes under one stamp would share a backup.
- The reboot lock file as a lock between processes, contents and modes of the update flag files, broadcast texts, Discord and WebSocket payloads, and the Windows branches.
- The asyncio lock hands over in order of arrival; the model lets any waiting run take it, which covers more orders.
- The SQLite engine, its retries and connection handling; a rollback always works. A DatabaseError is the only exception of a flush.
- Metric columns that no query reads; row ids; the list of recent snapshots.
- Password hashing, login, logout, audit records, feedback, last login times and request validation of the accounts; the four INSERT and UPDATE statements of one request are one step, as the handlers have no await between them.
- Player ids and names that are not strings, and saving the ledger to disk.
- Certificates, DNS, GitHub, A2S and RCON queries, hardware telemetry, log scraping, systemd and supervisor calls, archive extraction.
