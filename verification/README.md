# GitHub webhook exporter: verified models

Models, in Dafny, of the parts of the exporter where correctness depends on more than one function:
code that races, code that can be killed half-way, and code whose guarantee is about whole histories.

* **Telemetry admission and shutdown.** `AdmissionProtocol` takes the counter, the gate and the finalization
  flag apart into single atomic accesses and lets any number of threads interleave them with the exporting
  worker and the shutdown thread. `AdmissionBoundary`, `Shutdown` and `TelemetryRuntime` are the sequential code,
  proved to be runs of that machine or to meet the accounting it establishes.
* **Diagnostics limiter.** `ReportLimiter` is the interleaving machine with its `u64` edges, `Diagnostics` the
  compare-and-swap loop with arbitrary rivals.
* **Atomic output replacement.** `OutputTree` models directories by identity as a forest and removes subtrees with
  a stop possible after any deletion; `OutputCommit` adds the commit with a kill around the rename, and both
  cleanups; `OutputPrepare` the staging, with a failure or kill at each of its points, and the snapshot text;
  `OutputHistory` whole histories of all the commands.
* **Merge queue.** `QueueTimestamp` is the calendar and its fixed-width text, `MergeQueueRows` the table,
  `MergeQueueRuns` all runs of events, owed counter increments, prunings and restarts, `QueueProcessor` the store,
  counters and processor. `TextBatches` is why pruning by text is pruning by time, there and for deliveries.
* **Retention** (`Retention`), **delivery claims** (`Deliveries`, `DeliveryIds`, `DeliveryStore`), **encrypted
  repository rows** (`RepositoryRows`, `RepositoryStore`), **required checks** (`RequiredChecks`,
  `RequiredCheckCache`, `RequiredCheckRefresher`) and **trace timing** (`TraceTiming`, `PipelineRuns`).
* `Text` holds decimal numbers, text order and separated lists, `Sets` the one counting fact all of them use.

Code that updates state in place is a class or a method with loops, proved against functions on values; what the
code promises is proved about those functions and about all runs of them. Clocks, randomness, the database's
failures, the operating system and other threads are parameters; the datatypes that describe them say what they can
do, and every contract holds for all of that.

Some promises made in the repository's comments are false of the code, and the model says exactly when they hold:

* The drop counts are documented as exact (`src/telemetry.rs:176-184`). A record between its compare-and-swap and
  its re-check of the gate when the final sweep comes is charged twice; the count is exact if and only if there was
  none (`AdmissionProtocol.QuiescentAccounting`, with a schedule in `AdmissionProtocol.OvercountHappens`).
* Report spacing fails once `now + 60000` saturates (`ReportLimiter.SpacingExactly`).
* "There is never a partial pipeline-run trace" (`src/telemetry/pipeline.rs:36-40`) fails exactly when the rows that
  the query returned, which are at most 257, include both readable and unreadable ones; and exactly then is a run of
  more than 256 recorded jobs traced instead of rejected (`PipelineRuns.TraceIsPartialExactly`,
  `PipelineRuns.OverLimitIsTracedExactly`, with runs of every size in `PipelineRuns.PartialTraceHappens`).
* "A burst of webhooks for one branch costs one API read" (`src/github/refresh.rs:146-149`) holds if and only if at most
  one refresh of the burst gets past the cache, or the first that does is answered and stored
  (`RequiredCheckCache.BurstCostsOneCall`, with failures in `RequiredCheckCache.LostAnswerIsAskedAgain`).
* A delivery is observed at most once per claim, but not exactly once: a crash between claim and metric call loses it
  for as long as its row stays (`Deliveries.CrashUndercounts`; exact under `Deliveries.ExactlyOncePerClaim`).
* A failed preparation does not always remove its stage (`scripts/helm-output-commit.py:268-273`): if reading the new
  directory's status fails, its identity is not yet known and it stays behind (`OutputPrepare.CreateStage`).
* A snapshot serializes and parses back only if its identities are positive (`OutputPrepare.SnapshotRoundTrip`).

`dafny verify dfyconfig.toml` checks the whole project.

## Model

| member | source | states |
|---|---|---|
| `AdmissionProtocol.RunKeepsInv` | src/telemetry/queue.rs:63-145 | Over every interleaving of any number of admitting threads, the exporting worker and the shutdown thread, one atomic access at a time, the counter agrees with the slots really held, the mutex phases exclude each other, and every drop charge is some record's or the sweep's |
| `AdmissionProtocol.StepKeepsInv` | src/telemetry/queue.rs:63-145 | The invariant is inductive: each enabled access, by whichever thread, keeps it |
| `AdmissionProtocol.AccessEffect` | src/telemetry/queue.rs:63-116 | One access of one record moves `pending` exactly as it moves the slots held (after the sweep it may also saturate at zero), charges `dropped` exactly when the record becomes dropped, and lets a record into the SDK only through an open gate |
| `AdmissionProtocol.QueueHasRoom` | src/telemetry/queue.rs:74-91 | A record that was admitted and is about to be sent finds room in the SDK queue, in any state that satisfies the counting invariant |
| `AdmissionProtocol.CapacityIsRespected` | src/telemetry/queue.rs:63-91 | In every reachable state `pending` is at most the capacity, the SDK queue never exceeds it and never overflows, even after finalization; until the sweep `pending` is exactly the slots between CAS and release plus those admitted, queued or extracted |
| `AdmissionProtocol.ReleaseNeverSaturates` | src/telemetry/queue.rs:102-128 | Until the sweep, every winning release subtracts its full count: a batch its length, a late rejection one |
| `AdmissionProtocol.DropAccounting` | src/telemetry/queue.rs:130-145 | After the sweep `dropped` is the true drops plus those charged twice; only a record caught between its CAS and its closed re-check can be charged twice; no dropped record is also claimed for export |
| `AdmissionProtocol.QuiescentAccounting` | src/telemetry.rs:259-299 | At rest after shutdown `pending` is 0, every offered record is claimed or dropped and not both, and `dropped` overstates the drops by exactly the number of records swept inside that window, so it is exact if and only if there were none |
| `AdmissionProtocol.OvercountHappens` | src/telemetry.rs:176-184 | At every capacity there is a schedule that offers one record and ends with `dropped` at 2: the count called exact there is not |
| `AdmissionProtocol.FinalizationEndsExport` | src/telemetry/queue.rs:118-145 | Once finalized, no further batch is ever claimed, and nothing the sweep charged was claimed |
| `AdmissionProtocol.DisconnectEndsExport` | src/telemetry/queue.rs:261-268 | Once the SDK queue is disconnected nothing is ever claimed again, whatever the schedule |
| `AdmissionProtocol.AlwaysCanQuiesce` | src/telemetry.rs:259-299 | From every reachable state some schedule brings gate, worker and all records to rest, so the accounting at rest is never vacuous |
| `AdmissionProtocol.SendEnqueues` | src/telemetry/queue.rs:242-246 | An admitted record that is handed to a connected SDK is in its queue afterwards, and nothing else has changed; stranded only if the SDK is gone |
| `AdmissionProtocol.AdmittedCanBeClaimed` | src/telemetry/queue.rs:193-210 | Before finalization a record admitted, queued or extracted can still be exported with its batch, charging nothing and disturbing no record outside the batch |
| `AdmissionProtocol.OfferedCanBeClaimed` | src/telemetry/queue.rs:63-91 | From any state with an open gate, a slot to spare, a connected SDK and a free worker, a record newly offered can be admitted, queued, extracted and claimed |
| `AdmissionProtocol.FullRejectionHasCause` | src/telemetry/queue.rs:68-73 | No record is turned away for want of room in a run whose counter is never full |
| `AdmissionProtocol.LateRejectionHasCause` | src/telemetry/queue.rs:64-87 | No record is turned away as late while the gate is open, and the gate never reopens |
| `Admission.AdmissionBoundary.constructor` | src/telemetry/queue.rs:45-61 | A new boundary is open, empty and has charged nothing, which is where the interleaving machine starts, at every capacity |
| `Admission.AdmissionBoundary.TryAdmit` | src/telemetry/queue.rs:63-91 | With any number of spurious CAS failures and a gate that may close after the CAS: admitted, with one more slot, if and only if the gate was open with a slot to spare and stays open; rejected as full if and only if it was open and full; otherwise as late; each rejection keeps the slots and charges one drop |
| `Admission.AdmissionBoundary.Close` | src/telemetry/queue.rs:98-100 | Closes the gate and touches nothing else |
| `Admission.AdmissionBoundary.Release` | src/telemetry/queue.rs:102-116 | Subtracts the count, saturating at zero, through any spurious failures |
| `Admission.AdmissionBoundary.BeginExport` | src/telemetry/queue.rs:118-128 | Refuses exactly when finalized, and then changes nothing; otherwise frees the batch's slots |
| `Admission.AdmissionBoundary.DropPending` | src/telemetry/queue.rs:130-145 | Finalizes, takes all pending slots and charges exactly that many, in wrapping 64-bit arithmetic |
| `Admission.TryAdmitIsARun` | src/telemetry/queue.rs:63-91 | The sequential method's effect is a run of the interleaving machine that nothing interrupts |
| `Admission.BeginExportIsARun` | src/telemetry/queue.rs:118-128 | The same for a worker that begins an export |
| `Admission.DropPendingIsARun` | src/telemetry/queue.rs:130-145 | The same for the final sweep |
| `TelemetryRuntime.ShutdownCharges` | src/telemetry.rs:263-298 | Closing, then any sequence of exports and late offers, then sweeping leaves no slot in use and charges exactly what was pending and not exported, and each late offer once |
| `TelemetryRuntime.TelemetryRuntime.Shutdown` | src/telemetry.rs:259-299 | The first call closes both queues, runs the shutdown tasks of the providers present and sweeps; every later call returns the first outcome and changes nothing |
| `ShutdownTasks.SpawnTasks` | src/telemetry.rs:311-336 | After spawning, the pending slots are exactly the threads started, the count of remaining tasks is the number of pending slots, and exactly the tasks that could not be started have one shutdown diagnostic |
| `ShutdownTasks.ReceiveResults` | src/telemetry.rs:338-356 | Whatever order results arrive in, the tasks left pending are exactly those started and not heard from, and every failure has its one diagnostic |
| `ShutdownTasks.SweepLate` | src/telemetry.rs:358-371 | Exactly the pending tasks get a timeout diagnostic |
| `ShutdownTasks.RunShutdownTasks` | src/telemetry.rs:302-380 | Every task ends in exactly one of success, one shutdown diagnostic or one timeout diagnostic; timed out if and only if something is unfinished, completed if and only if every task succeeded in time |
| `ShutdownTasks.AllReceived` | src/telemetry.rs:338-344 | The receive loop never stops with messages unread: when nothing is pending, all have been read |
| `ShutdownTasks.FateIsUnique` | src/telemetry.rs:315-371 | Diagnostics from spawning and receiving plus those of the final sweep are together at most one per task |
| `ReportLimiter.RunKeepsInv` | src/telemetry/diagnostics.rs:62-80 | Over every interleaving of callers, loads, CAS attempts (genuine and spurious) and swaps, the deadline only rises, wins are spaced, and the tallies of wins and suppressions agree with the threads |
| `ReportLimiter.SpacingExactly` | src/telemetry/diagnostics.rs:62-80 | Two consecutive reports are at least 60,000 ms apart if and only if the earlier reading is at most `u64::MAX - 60000`; readings never go back |
| `ReportLimiter.DeadlineMonotone` | src/telemetry/diagnostics.rs:62-80 | The report deadline is monotone between any two states of a run |
| `ReportLimiter.ReportRate` | src/telemetry/diagnostics.rs:13-80 | Any window of T ms that ends before the clock saturates holds at most T/60000 + 1 reports |
| `ReportLimiter.SuppressionsConserved` | src/telemetry/diagnostics.rs:62-80 | In every reachable state the completed suppressions equal the counts already handed to winners plus the current counter, whatever comes between a CAS and its swap (modulo the width of the counter) |
| `ReportLimiter.GenuineFailureRaises` | src/telemetry/diagnostics.rs:70-78 | A CAS lost to another thread shows a strictly higher deadline, by a whole interval unless the clock saturates |
| `ReportLimiter.LostAttemptsBounded` | src/telemetry/diagnostics.rs:62-80 | A caller loses at most one attempt for every interval its clock is ahead of the first deadline it saw, plus one: the loop terminates |
| `ReportLimiter.SaturatedClockReportsTwice` | src/telemetry/diagnostics.rs:69-76 | At the saturated end of the clock the spacing fails: two calls at the same reading both report |
| `ReportLimiter.CallIsARun` | src/telemetry/diagnostics.rs:62-80 | A call made alone, in any state: past the deadline it is granted, collects every suppression and moves the deadline; before it, it is counted and nothing else changes |
| `ReportLimiter.ReportsResume` | src/telemetry/diagnostics.rs:62-80 | After any run a call made alone is granted if and only if nothing was reported yet or 60,000 ms have passed since the last report, short of the end of the clock |
| `ReportLimiter.CallCanFinish` | src/telemetry/diagnostics.rs:62-80 | From every state every call under way can finish |
| `Diagnostics.CategoryLimiter.ClaimReport` | src/telemetry/diagnostics.rs:62-80 | With any rivals winning, collecting or being suppressed before each access and any spurious failures: a claim granted comes no earlier than the deadline of any claim granted before it, by whomever; it leaves the counter at zero and returns, with what rivals collected, exactly what was there and what they added; or it is refused only because the deadline is ahead, and counts itself (modulo the width of the counter) |
| `Diagnostics.LawfulIsSpaced` | src/telemetry/diagnostics.rs:62-80 | Claims granted that way are pairwise an interval apart, short of the end of the clock |
| `Diagnostics.UndisturbedIsARun` | src/telemetry/diagnostics.rs:62-80 | An undisturbed claim is a run of the interleaving machine with the same cells and the same answer |
| `Diagnostics.DiagnosticsObserver.DropRecords` | src/telemetry/diagnostics.rs:222-236 | All drops reach the metric; at most one line is written, which reports precisely the suppressions of its own category; other categories are untouched; a count of zero does nothing |
| `Diagnostics.CategoriesPartitionLimiters` | src/telemetry/diagnostics.rs:249-262 | Every limiter serves exactly one signal and reason |
| `OutputTree.FileSystem.RemoveDirectoryTree` | scripts/helm-output-commit.py:308-330 | Terminates on every directory tree; done means the name and all below it are gone and nothing else changed; a refusal or a stop part-way, by a kill or by the system (an entry that cannot be deleted, no descriptors left, recursion too deep), leaves a well-formed tree that lost entries only below the directory; an entry on another device is never entered |
| `OutputTree.FileSystem.RemoveChild` | scripts/helm-output-commit.py:314-324 | One turn of the loop removes that child with all below it, or stops with only entries below the directory lost |
| `OutputTree.SiblingsDisjoint` | scripts/helm-output-commit.py:308-330 | The subtrees of two different directories on one level share nothing, which is why removing one cannot harm another |
| `OutputTree.RetriedRemovalConverges` | scripts/helm-output-commit.py:308-330 | Finishing an interrupted removal gives exactly the table an uninterrupted one gives |
| `OutputTree.PrunedIsTree` | scripts/helm-output-commit.py:308-330 | Removing a subtree leaves a tree |
| `OutputCommit.Commit` | scripts/helm-output-commit.py:333-421 | Under each fault the command succeeds if and only if both names are valid, the parent is the approved one, and the two names lead to the approved stage and to what it replaces, in the one order or already in the other, each carrying its ownership marker; it changes the table only by letting the two names trade their entries, and only in the first case |
| `OutputCommit.CommitExactly` | scripts/helm-output-commit.py:333-421 | The specification run does exactly that, stated on entries and marker texts alone |
| `OutputCommit.OwnedIsMarked` | scripts/helm-output-commit.py:114-151 | A directory counts as owned exactly if a regular file under the generated marker's name holds its kind, or, where allowed, one under the root marker's name its fixed value, in at most 128 bytes |
| `OutputCommit.NamesAllowed` | scripts/helm-output-commit.py:73-76 | Exactly single names are accepted: not empty, not the directory or its parent, no separator and no NUL |
| `OutputCommit.CommitMeaning` | scripts/helm-output-commit.py:333-421 | Success means the destination is the approved stage directory and owned; a rejection changes no entry; no other name changes in any case; a destination that was present stays present |
| `OutputCommit.RenamedIsAlready` | scripts/helm-output-commit.py:350-395 | A finished rename, of either kind, is recognised as already committed by every later attempt |
| `OutputCommit.RetriesConverge` | scripts/helm-output-commit.py:333-421 | After any sequence of kills and failed renames at any points, one more uninterrupted attempt ends in the same table with the same answer as an undisturbed commit, in both the no-replace and the exchange case |
| `OutputCommit.CleanupIdentity` | scripts/helm-output-commit.py:424-446 | Refuses a wrong address, is done if the name is absent, and otherwise removes the expected directory under that name or refuses; undisturbed it is never left half-way |
| `OutputCommit.CleanupSucceedsExactly` | scripts/helm-output-commit.py:424-446 | An undisturbed cleanup succeeds if and only if the address is right and the name is absent or leads to the expected directory, all on one device; success means the name and all below that directory are gone and nothing else has changed; anything else under the name is refused and left alone |
| `OutputCommit.CleanupOnlyLoses` | scripts/helm-output-commit.py:424-446 | However it ends, a cleanup adds and alters no entry, and outside the expected directory it removes none but the name |
| `OutputCommit.Cleanup` | scripts/helm-output-commit.py:449-451 | Has that outcome for the approved stage, so it removes the stage, or refuses, and can remove nothing else |
| `OutputCommit.CleanupCommitted` | scripts/helm-output-commit.py:454-458 | Refuses without an approved old output; otherwise has that outcome for the old output |
| `OutputHistory.DestinationNeverVanishes` | scripts/helm-output-commit.py:209-458 | Over every sequence of prepare, commit, kill, failure, retry and all three cleanups, for any requests and with outsiders between them, a present destination entry never becomes absent and the table stays a tree, when no stage has the destination's name and nothing holding its parent is given for cleanup |
| `OutputHistory.PrepareIsAnAction` | scripts/helm-output-commit.py:209-275 | However a preparation ends, killed and refused ones included, what it did is one action of such a history |
| `OutputHistory.CleanupIsAnAction` | scripts/helm-output-commit.py:424-458 | The same for each cleanup command |
| `OutputHistory.CommittedOutputSurvives` | scripts/helm-output-commit.py:209-458 | Over every such history a committed output keeps its name and its whole subtree, down to the last file, as long as nobody works inside it and nothing else is approved for its name |
| `OutputCommit.ReplacementComplete` | scripts/helm-output-commit.py:397-415 | After the exchange and its cleanup the destination is the approved stage, the stage name is gone, and of everything else exactly the old output has been deleted |
| `OutputPrepare.FirstFree` | scripts/helm-output-commit.py:223-232 | The stage name chosen is the first candidate that does not exist |
| `OutputPrepare.CreateStage` | scripts/helm-output-commit.py:209-275 | Succeeds if and only if nothing disturbs it and it can be prepared, and then a commit finds its stage and destination laid out as approved; any other failure restores every entry, unless the process is killed at any point or the removal is stopped, or the stage's status cannot be read: then the stage, or part of it, stays behind and nothing else changes |
| `OutputPrepare.PreparableExactly` | scripts/helm-output-commit.py:209-275 | On names, entries and markers: a single name, a kind of one line that fits the marker, a free stage name among the candidates, the parent path still leading there, and a destination that is absent or carries its marker |
| `OutputPrepare.PreparationLeaves` | scripts/helm-output-commit.py:209-275 | The stage, and nothing else, is new afterwards if the preparation succeeded, was killed or could not read the stage's status; any other refusal has left no trace |
| `OutputPrepare.SnapshotExactly` | scripts/helm-output-commit.py:154-183 | A snapshot is granted exactly for a marked stage and an absent or marked destination, and names the identities found |
| `OutputPrepare.RemoveStage` | scripts/helm-output-commit.py:268-273 | A failed preparation takes its own stage away and nothing else, wholly unless it is stopped there too |
| `OutputPrepare.PreparedIsCommittable` | scripts/helm-output-commit.py:154-275 | What was just prepared is judged ready to rename, so an immediate commit goes through |
| `OutputPrepare.UnstagedIsOriginal` | scripts/helm-output-commit.py:268-273 | Removing a stage just made restores the table exactly |
| `OutputPrepare.SnapshotRoundTrip` | scripts/helm-output-commit.py:48-70 | Serialized text, split into words, parses back to the same snapshot if and only if all its identities are positive |
| `OutputPrepare.ParsedIsGenuine` | scripts/helm-output-commit.py:468-477 | Nothing but a snapshot with positive identities is ever accepted |
| `OutputPrepare.ParsedExactly` | scripts/helm-output-commit.py:468-477 | Exactly seven fields are accepted, positive numbers but for the flag that says whether a destination follows, and each is read into its own place |
| `QueueTimestamp.ParseFormat` | src/domain/merge_queue.rs:56-73 | Formatting then parsing truncates to milliseconds and is idempotent, for the years 0000 to 9999 |
| `QueueTimestamp.FormatParse` | src/storage/merge_queue_store.rs:207-208 | A text of the canonical column form denotes one valid instant and is exactly the text that formatting it writes, so equal instants are equal texts |
| `QueueTimestamp.FormatExactly` | src/domain/merge_queue.rs:9-10 | The column format written out: zero-padded fields of 4, 2, 2, 2, 2, 2 and 3 digits between dashes, T, colons and a point, closed by Z |
| `QueueTimestamp.TextOrderIsTimeOrder` | src/storage/merge_queue_store.rs:207-216 | Fixed-width UTC millisecond texts compare, byte by byte, exactly as the truncated instants do (RFC 3339, section 5.1), leap years included |
| `QueueTimestamp.StoredDuration` | src/storage/merge_queue_store.rs:154-159 | A duration against the stored enqueue time exceeds the true one by at least 0 and less than 1 ms |
| `QueueTimestamp.ValidExactly` | src/domain/merge_queue.rs:10-73 | Exactly the date-times that exist are representable, up to year 9999 |
| `QueueTimestamp.NanosExactly` | src/domain/merge_queue.rs:10-73 | The time line that durations and orders refer to is that of the Gregorian calendar: 365 days a year and a day for every fourth year, but no century unless it is a fourth one |
| `Retention.LeadingBatchIsUnique` | src/storage/merge_queue_store.rs:209-216 | Under the deletion order (time, then key) there is only one batch of a given size that comes first |
| `Retention.LeadingBatchExists` | src/storage/delivery_store.rs:108-117 | There is one of every size up to the number of expired rows |
| `Retention.NextBatch` | src/retention.rs:361-388 | A leading batch of what is left extends a leading batch to a leading batch: batches add up to a prefix of the order |
| `Retention.PrunableStore.PruneBatch` | src/retention.rs:265-272 | Deletes the first expired rows, exactly as many as fit a batch, or nothing on failure |
| `Retention.PrunableStore.PruneStore` | src/retention.rs:343-402 | Terminates with the number of expired rows as measure; completed means exactly the rows older than the cutoff are gone, after E/1000 + 1 batches; otherwise full batches, a prefix of the order, are; and it ends cancelled, failed or completed exactly as the first shutdown or failing batch among those E/1000 + 1 says |
| `Retention.PrunedExactly` | src/retention.rs:343-402 | Row by row: what is gone was older than the cutoff and than every eligible row left; what is left is unchanged; a completed store has nothing older left; and the counts are those of full batches, with a short one at the end exactly on completion |
| `Retention.EndsExactly` | src/retention.rs:361-388 | A store completes exactly if neither the shutdown nor a failing batch comes in time, and fails exactly if a failing batch does and before the shutdown |
| `Retention.CombineIsWorst` | src/retention.rs:231-241 | Folding the code's combine over store outcomes yields their maximum under Success < Cancelled < Failure |
| `Retention.WorstExactly` | src/retention.rs:231-241 | A pass fails if and only if some store failed, whatever was cancelled, and succeeds if and only if all completed |
| `Retention.WorstIsSymmetric` | src/retention.rs:231-241 | The pass outcome does not depend on the order of the stores |
| `Retention.PruneRetentionWorkloads` | src/retention.rs:204-222 | Over any list of distinct stores and any shutdown timing, stores are started up to the first that sees the shutdown, each started store is pruned as specified, the rest are untouched, and the outcome is the worst of the started ones, joined with Cancelled exactly when stores remain unstarted |
| `Retention.PassMeaning` | src/retention.rs:204-222 | In a finished pass no store before the last was cancelled or followed by a shutdown; stores are left out only if the last one was; it fails if and only if a store failed and succeeds if and only if all stores completed |
| `Retention.FailureNeverBlocks` | src/retention.rs:204-222 | Without a shutdown every store has its turn whatever fails, and the pass fails if and only if some store had no cutoff or failed within the batches it had |
| `MergeQueueRows.EnqueueKeepsShape` | src/storage/merge_queue_store.rs:84-108 | Inserting where nothing is pending keeps one pending row per pull request and only well-formed rows |
| `MergeQueueRows.FinishKeepsShape` | src/storage/merge_queue_store.rs:138-152 | Completing closes exactly the pending row of that pull request, into one of the two allowed outcome and reason pairs |
| `MergeQueueRows.PendingRowsAreKeys` | src/storage/merge_queue_store.rs:86-91 | There are as many pending rows as pull requests with one |
| `MergeQueueRows.CompletionDecides` | src/storage/merge_queue_store.rs:201-223 | An attempt may be pruned exactly if it was completed before the cutoff, to the millisecond, and goes in the order of its completion, whenever it was enqueued |
| `TextBatches.TextBatchIsTimeBatch` | src/storage/merge_queue_store.rs:201-223 | The rows that the text comparison and its ordering pick are exactly the batch retention would pick by time, in every table of canonical timestamps |
| `TextBatches.OldestBatch` | src/storage/delivery_store.rs:103-124 | Picks the oldest expired rows by text, at most 1,000; taking them away is, to retention, taking a leading batch away, so the results on batched pruning carry over |
| `DeliveryIds.IdTextOrder` | src/storage/delivery_store.rs:63-83 | Hyphenated lower-case hexadecimal identifiers compare as text exactly as the 128-bit numbers do, so ties broken by identifier fall out alike |
| `DeliveryIds.IdTextForm` | src/storage/delivery_store.rs:63-83 | Identifiers are stored as 36 characters, dashes at four fixed places and lower-case hexadecimal digits elsewhere |
| `MergeQueueRuns.RunKeepsInv` | src/api/pull_request.rs:71-226 | Over every run of concurrent requests, owed counter increments, prunings, failures before or after the commit, and restarts: one pending attempt per pull request; a row is pending exactly when it has no completion time, and then carries outcome pending and no reason; all stored times parse; and the two ledgers below balance |
| `MergeQueueRuns.Conservation` | src/metrics.rs:1064-1109 | From the empty table: what was created, told or hidden behind an error, equals what was completed, told or hidden, plus the pending rows, in total and per pull request; nothing is hidden unless some commit reports an error after taking effect; and once nothing is owed, per repository name Completed equals outcome counters plus `invalid_duration` |
| `MergeQueueRuns.AnswersAreExact` | src/storage/merge_queue_store.rs:138-176 | Completed, already completed and missing each say exactly what the table held; repeating a completion changes nothing and counts nothing |
| `MergeQueueRuns.ServedByFields` | src/api/pull_request.rs:71-226 | On the event's own fields: an enqueued event adds a row for its repository and number if none is pending there; a dequeued or merged one closes that pull request's pending row; every row of another repository or number stays; events that act are exactly enqueued, dequeued and merged closes with a positive number and a usable time; and the answer and the counter are the ones that fit |
| `MergeQueueRuns.EnqueueIsIdempotent` | src/storage/merge_queue_store.rs:86-107 | Created if and only if nothing was pending; any later enqueue of that pull request changes nothing, not even the stored time |
| `MergeQueueRuns.PrunedIsForgotten` | src/api/pull_request.rs:198-226 | Once retention has deleted a pull request's attempts, a repeated completion is answered, and counted, as missing its attempt |
| `MergeQueueRuns.EveryRowHasEvidence` | src/api/pull_request.rs:128-194 | Over every run each row goes back to its events: an enqueued event set its start; it counts as succeeded only on a close with merged, as unknown only on a dequeue; the times are the payload's if usable, else the time of receipt |
| `MergeQueueRuns.PendingSurvives` | src/storage/merge_queue_store.rs:84-108 | Until it is completed a pending attempt stays exactly as enqueued, through prunings, restarts, failures and repeated enqueueing |
| `MergeQueueRuns.AttemptDuration` | src/metrics.rs:1068-1094 | From creation to completion, whatever lies between: counted under its outcome if and only if the true duration plus what truncation added lies between zero and 365 days, otherwise as `invalid_duration` |
| `MergeQueueRuns.ReaderDoesNotMatter` | src/domain/merge_queue.rs:56-73 | On well-formed rows every reader of timestamps that reads the canonical form correctly finds the same enqueue time, whatever else it accepts |
| `QueueProcessor.MergeQueueStore.Enqueue` | src/storage/merge_queue_store.rs:79-108 | Inserts one pending row unless one is pending; a failure changes nothing, or hides a commit that took effect |
| `QueueProcessor.MergeQueueStore.Complete` | src/storage/merge_queue_store.rs:132-179 | Closes the pending row and returns its enqueue time as read, in whatever spelling it is stored, or says why not; a stored time that cannot be read rolls the change back |
| `QueueProcessor.MergeQueueStore.PruneCompletedBatch` | src/storage/merge_queue_store.rs:201-223 | Deletes the oldest completed attempts by text, at most 1,000, which is the leading batch by time; pending attempts are never touched |
| `QueueProcessor.Metrics.RecordMergeQueueCompletion` | src/metrics.rs:1068-1094 | Exactly one counter goes up: the outcome for a sane duration, `invalid_duration` otherwise |
| `QueueProcessor.QueueProcessor.Process` | src/api/pull_request.rs:71-126 | Table, counters and answer are those of the specification, and on the event's fields: its own repository and number decide which row is created or closed, and all others stay |
| `QueueProcessor.QueueProcessor.Decide` | src/api/pull_request.rs:128-194 | The early returns and the choice of time and transition are those of the plan |
| `QueueProcessor.ProcessServes` | src/storage/merge_queue_store.rs:154-159 | On a table written by this code alone, processing with any reader of timestamps is what the specification serves |
| `QueueProcessor.QueueProcessor.CompleteAttempt` | src/api/pull_request.rs:198-226 | A completion is measured and counted, a missing attempt is counted, a repeated one is not |
| `QueueProcessor.ProcessIsARun` | src/api/pull_request.rs:71-226 | Serving one event alone is a run: the table change, then the one counter it owes |
| `Deliveries.RunKeepsInv` | src/api/webhook.rs:159-299 | Over every interleaving of requests, redeliveries, crashes, failures and prunings the metric calls and the table agree with what each request was told |
| `Deliveries.AtMostOncePerClaim` | src/api/webhook.rs:159-171 | Calls to `observe_event` for a delivery are at most 1 plus the times its row was pruned; and exactly: those calls, plus claims won but not yet or never counted, plus claims hidden by an error, equal the prunings plus the row present |
| `Deliveries.EveryClaimIsCounted` | src/api/webhook.rs:159-171 | An accepted request was told New or Duplicate and made its one matching metric call; the calls add up to those requests; once all are answered no won claim is uncounted |
| `Deliveries.ExactlyOncePerClaim` | src/api/webhook.rs:159-171 | Without crashes and hidden commits, once everything is answered, each life of a row was observed exactly once |
| `Deliveries.DuplicateUntilPruned` | src/storage/delivery_store.rs:63-83 | Until its row is pruned every later claim that goes through is a duplicate, and the receipt time never changes |
| `Deliveries.CrashUndercounts` | src/storage/delivery_store.rs:44-46 | After a crash between claim and metric call no continuation that leaves the row in place ever observes the delivery: it is never counted as an event, and every later claim of it that goes through is a duplicate |
| `Deliveries.NeverObservedAgain` | src/api/webhook.rs:159-171 | In any state where no request still owes a delivery its event, none is observed until its row is pruned |
| `Deliveries.EveryRequestCanBeAnswered` | src/api/webhook.rs:159-299 | Every request under way can be answered: a malformed one is refused and leaves table and metrics alone, every other one can be counted and accepted |
| `DeliveryStore.DeliveryStore.Claim` | src/storage/delivery_store.rs:63-83 | Inserts, with the formatted receipt time, if and only if absent, and says which; an error may hide an insert that took effect |
| `DeliveryStore.DeliveryStore.PruneBatch` | src/storage/delivery_store.rs:103-124 | Deletes the oldest claims by receipt text, then identifier, at most 1,000, which is the leading batch by time; or nothing on failure |
| `DeliveryStore.ReceiptDecides` | src/storage/delivery_store.rs:103-124 | A claim may be pruned exactly if it was received before the cutoff, to the millisecond, oldest first, ties by identifier |
| `DeliveryStore.Handle` | src/api/webhook.rs:159-299 | A new delivery is counted once and a duplicate once, in different metrics; a failed claim counts nothing and is answered unavailable, like a later storage failure |
| `DeliveryStore.HandleIsARun` | src/api/webhook.rs:159-299 | One request that nothing interrupts is a run of the interleaving machine with the same effect |
| `RepositoryRows.CallRefinesPlain` | src/storage/repository_store.rs:85-337 | The encrypted table does what the plain one would, failing transactions included: every row stays sealed under its own current name, a refusal or failure changes nothing, and without failures both refuse alike |
| `RepositoryRows.MutatedOpens` | src/storage/repository_store.rs:264-283 | A changed row opens under its final name to the new secret, or the old one if none was given; it is sealed anew, with the fresh nonce, exactly if the name changed or a secret was given |
| `RepositoryRows.AnswersExactly` | src/storage/repository_store.rs:85-337 | Without failures: blank updates, unknown rows and taken names are refused with their own errors, and only they; otherwise the answer is the row as it is stored, or as it was when deleted, and no other row changes |
| `RepositoryRows.FailuresAnswered` | src/storage/repository_store.rs:85-337 | A failing transaction answers with its failure unless it was refused before; a cipher failure matters only where a secret has to be sealed; the table stays |
| `RepositoryRows.TamperedIsRefused` | src/storage/repository_store.rs:246-337 | A row whose box was not sealed under its own name is neither changed nor deleted, and the error says whether version or content was wrong |
| `RepositoryRows.HistoryRemembered` | src/storage/repository_store.rs:85-337 | Over any history of create, update, rename and delete with failures, each row holds the last name, secret and state set for it |
| `RepositoryRows.AuthenticationYieldsLastSecret` | src/storage/repository_store.rs:176-200 | After any history authentication under a name succeeds exactly when some row's last name is that name and it was last enabled, with the last secret set for it; otherwise it fails closed with one error |
| `RepositoryRows.OnlyOwnSecret` | src/storage/repository_store.rs:176-200 | Whatever an outsider did to the table, a secret obtained under a name was sealed for that name |
| `RepositoryRows.MovedBoxIsRefused` | src/storage/repository_store.rs:264-269 | A ciphertext moved to another repository's row is refused by authentication, update and delete |
| `RepositoryRows.SealedOpens` | src/security/secret_cipher.rs:47-107 | A sealed secret opens under its own name and no other |
| `RepositoryStore.RepositoryStore.Create` | src/storage/repository_store.rs:85-114 | The transaction, failure by failure, is the specification's |
| `RepositoryStore.RepositoryStore.Update` | src/storage/repository_store.rs:246-303 | The same; the current row is authenticated before anything is written |
| `RepositoryStore.RepositoryStore.Delete` | src/storage/repository_store.rs:320-337 | The same; a row that cannot be authenticated is not deleted |
| `RepositoryStore.RepositoryStore.AuthenticationMaterial` | src/storage/repository_store.rs:176-200 | Finds the enabled row of that name and opens its secret under that name |
| `RepositoryStore.AuthenticateRow` | src/storage/repository_store.rs:339-345 | Passes a row exactly when its secret opens under its own name |
| `RequiredChecks.SanitizeName` | src/telemetry/workflow.rs:126-146 | The bounded scan returns the first 128 visible characters, or nothing when none is visible |
| `RequiredChecks.ShownExactly` | src/telemetry/workflow.rs:126-146 | What counts as visible is printable ASCII and everything from U+00A0 on |
| `RequiredChecks.SanitizeMakesNames` | src/telemetry/workflow.rs:117-146 | A sanitized name is non-empty, short and free of control characters, and such names are exactly what sanitizing leaves alone |
| `RequiredChecks.NewChecks` | src/telemetry/workflow.rs:539-553 | The loop collects into a sorted set until it holds a hundred names |
| `RequiredChecks.CollectedAre` | src/telemetry/workflow.rs:529-553 | What is kept are the names up to some point of the input, all of it unless a hundred different ones come first: repetitions crowd nothing out |
| `RequiredChecks.InsertKeepsSorted` | src/telemetry/workflow.rs:545-551 | Inserting keeps the set sorted, adds that one name and changes nothing when it is there |
| `RequiredChecks.DecodeEncode` | src/storage/required_check_store.rs:191-216 | Decoding the newline-joined column returns the encoded set, the empty one included |
| `RequiredChecks.DecodeIsBounded` | src/storage/required_check_store.rs:203-216 | Whatever text a row holds, reading it gives at most a hundred sorted, sanitized names |
| `RequiredChecks.EncodedFits` | migrations/202609010001_create_required_check_contexts.sql:4 | An encoded set never violates the column's length check |
| `RequiredCheckCache.FreshnessWindow` | src/storage/required_check_store.rs:126-139 | The text comparison accepts everything within the time-to-live and nothing a full millisecond beyond it; precisely, it compares whole milliseconds |
| `RequiredCheckCache.ReadsAreLastWrites` | src/storage/required_check_store.rs:120-145 | After any run a read yields the last successfully written set of that branch, no older than the time-to-live up to a millisecond, and yields it whenever it is young enough and not pruned |
| `RequiredCheckCache.PruningForgets` | src/storage/required_check_store.rs:153-186 | A pruned branch is read as unknown; no other branch notices |
| `RequiredCheckCache.BurstCostsOneCall` | src/github/refresh.rs:146-222 | Of the refreshes of one branch served within one time-to-live the source is asked at most once if and only if at most one of them gets past the cache as the burst found it, or the first that does is answered and stored; the same condition on those that would be answered decides whether it answers at most once; at most one answer is stored in any case |
| `RequiredCheckCache.BurstCounts` | src/github/refresh.rs:165-222 | The exact counts: calls are the refreshes past the cache up to and including the first one answered and stored, answers likewise |
| `RequiredCheckCache.LostAnswerIsAskedAgain` | src/github/refresh.rs:181-215 | The bound does fail: any refresh that gets no answer, or whose answer cannot be stored, is asked for again by the next one |
| `RequiredCheckRefresher.RequiredCheckStore.Upsert` | src/storage/required_check_store.rs:67-87 | Replaces the row of one branch; the length check never refuses it |
| `RequiredCheckRefresher.RequiredCheckStore.GetFreshChecks` | src/storage/required_check_store.rs:120-145 | Returns the decoded row if it is fresh, and always a bounded set |
| `RequiredCheckRefresher.Refresher.Request` | src/github/refresh.rs:59-73 | Appends the request if the task still listens and fewer than 64 wait; otherwise drops the new one and changes nothing |
| `RequiredCheckRefresher.Refresher.RefreshOne` | src/github/refresh.rs:165-222 | Asks the source exactly when the cache could be read and is not fresh, stores exactly a successful answer, in that branch's row only, and ends in the one way that fits |
| `RequiredCheckRefresher.Refresher.TakeNext` | src/github/refresh.rs:150-163 | Serves the request that has waited longest and no other |
| `RequiredCheckRefresher.Refresher.Run` | src/github/refresh.rs:59-163 | However arrivals and service interleave until the shutdown is seen: what was accepted is what has been served followed by what still waits, in order; what has been served is exactly what a bounded first-in-first-out queue hands out at those turns; nothing is dropped while there is room; and the table is the one the corresponding run leaves |
| `TraceTiming.ConversionIsExact` | src/api/workflow_job.rs:347-363 | Every date-time converts, to exactly seconds times 10^9 plus nanoseconds, before the epoch too; the conversion is strictly monotone |
| `TraceTiming.SelectionIsNested` | src/api/workflow_job.rs:304-329 | A job's interval is ordered, ends at its reported end or at receipt, and is reported exactly when both bounds were given in order; a step's is ordered, within its job, and reported exactly when it fits |
| `TraceTiming.ProjectSteps` | src/api/workflow_job.rs:249-265 | All steps are projected in order, each within its job; one non-positive number rejects the job |
| `TraceTiming.RunIntervalIsLeast` | src/telemetry/pipeline.rs:498-515 | The run's interval is the least one containing all job intervals, and reported if and only if every job's is |
| `TraceTiming.RunFailsIffAJobDoes` | src/telemetry/pipeline.rs:522-539 | The conclusion is the first of failure, timed out, cancelled, other, neutral, success, skipped that some job has; so a run fails if and only if a job does, and succeeds if and only if some job did and all others did or were skipped |
| `TraceTiming.AggregatesArePermutationInvariant` | src/telemetry/pipeline.rs:498-527 | Neither the interval nor the conclusion depends on the order of the jobs |
| `PipelineRuns.RecordedReadsBack` | src/storage/workflow_job_link_store.rs:71-113 | A recorded job reads back as the same summary: same interval to the nanosecond, conclusion, name and identity |
| `PipelineRuns.SummaryIsBounded` | src/storage/workflow_job_link_store.rs:227-258 | Whatever a row holds, a summary made of it has an ordered interval from the epoch on, a positive job, a valid identity and a sanitized name |
| `PipelineRuns.ReadExactly` | src/storage/workflow_job_link_store.rs:227-275 | A row is read if and only if job and identity are positive, its times are ordered from the epoch on, and conclusion and source are in the vocabulary; and it is read as what it says |
| `PipelineRuns.WorkflowJobLinkStore.Record` | src/storage/workflow_job_link_store.rs:71-113 | Succeeds, unless the database fails, exactly for non-zero identities and times from the epoch to the end of the column, and the row then reads back as recorded |
| `PipelineRuns.WorkflowJobLinkStore.List` | src/storage/workflow_job_link_store.rs:147-173 | Returns the readable summaries of the first rows by start and job id, up to the limit |
| `PipelineRuns.ListedInOrder` | src/storage/workflow_job_link_store.rs:147-173 | The rows listed are in the order of start, then job, as many as there are up to the limit, and no row left out comes before one |
| `PipelineRuns.EmitPipelineTrace` | src/api/webhook.rs:328-377 | Asks for one row more than the limit and decides on what is readable; a trace it emits lists the summaries read, with the gravest conclusion among them and the least interval around them |
| `PipelineRuns.EmissionExactly` | src/api/webhook.rs:328-377 | A trace is emitted if and only if tracing is enabled, the store answers 1 to 256 summaries and the payload names the run; a failing store and too many jobs are reported, each exactly when it happens |
| `PipelineRuns.TraceSumsUp` | src/telemetry/pipeline.rs:176-205 | The emitted trace has the gravest conclusion of its jobs, in the documented order, and the least interval containing them, reported exactly when all of theirs are |
| `PipelineRuns.WholeOrNothing` | src/telemetry/pipeline.rs:36-40 | A run of readable rows is traced whole when it has 1 to 256 jobs, and rejected from 257 on |
| `PipelineRuns.TraceIsPartialExactly` | src/api/webhook.rs:337-360 | The promise of never a partial trace fails, a recorded row being left out of a trace that is emitted, exactly when the rows the query returned include both a readable and an unreadable one |
| `PipelineRuns.OverLimitIsTracedExactly` | src/telemetry/pipeline.rs:36-40 | With more than 256 rows recorded, a trace is emitted after all exactly in that case, and the run is rejected as too large exactly when every returned row can be read |
| `PipelineRuns.PartialTraceHappens` | src/storage/workflow_job_link_store.rs:147-173 | Both failures happen: for every size from 2 to 257 there is a run, with one unreadable row, whose trace is partial |
| `PipelineRuns.RunContainsSteps` | src/telemetry/pipeline.rs:197-215 | From recording to summary: the run's interval contains that of every job it lists and of every step of that job |

## Left out

- The OpenTelemetry SDK: its queue hands out batches of any members, not in order and of any size, which only adds runs; sampling, resource attributes and the export call itself are not modelled.
- Export failures: `observe_export` and the `failed_exports` counter only count results and add nothing to the accounting of records.
- Hardware memory orderings: accesses are sequentially consistent. The diagnostics calls made by the admission boundary are modelled in their own module only.
- Admission.AdmissionBoundary.TryAdmit: is the method alone, with spurious failures and a gate that closes in between; other threads are the subject of `AdmissionProtocol`.
- Time in shutdown: the deadline decides which results are received in time; the model takes those as given and bounds nothing by the clock.
- The file system: `flock` is exclusion among runs of this program only, so outsiders may change the table between operations but not inside one; hard links and permissions are not modelled, and neither is the Python wrapper's handling of closing errors after a commit.
- OutputPrepare.CreateStage: kinds and markers stand for their encoded bytes. A directory that cannot be made for another reason than its name being taken ends the command before anything exists, and a snapshot that cannot be read counts as one refused.
- OutputHistory.CommittedOutputSurvives: is about actions that respect the output; an approved replacement under its name ends its protection.
- OutputPrepare.ParseSnapshot: accepts plain decimal digits; Python's `int` also takes signs, spaces, underscores and other digits.
- Parsing of RFC 3339 text with offsets and of JSON is done by libraries: events carry the instant or its absence, and stored times are read by any function that yields valid instants; which other spellings it accepts is left open. Years outside 0000 to 9999 are outside the canonical text.
- MergeQueueRuns.AttemptDuration: the histogram that observes the same duration in floating point is not modelled; the counters are.
- Deleting a repository cascades to its attempts in the database; the queue model keeps the repositories fixed.
- Retention.PrunableStore.PruneStore: prunes in isolation; rows written between its batches are not modelled.
- The scheduling of retention passes and the validation of its configuration.
- AES-GCM, HKDF and SHA-256: a sealed secret is an ideal box bound to a name, so nothing is said about key secrecy, nonce collisions or cryptographic strength. Encrypted rows reject unknown versions but not malformed lengths.
- Repository listing, counting and timestamps of rows; canonical names are taken as validated.
- RequiredCheckRefresher.Refresher.Run: the GitHub client is an oracle that answers a set or fails, and a service is one turn: requests that arrive during it count as arriving after it.
- RequiredChecks.SanitizeName: control characters are those of general category Cc, as the standard library defines them.
- Trace and span identifiers are numbers here; their hexadecimal text, the derivation of run identifiers by hashing, span attributes, links, log lines and label vocabularies are not modelled.
- HTTP serving, header checks, signatures, configuration, error responses, health and lifecycle: plumbing with no state to lose.
- The other scripts, the dashboards and the tests.
