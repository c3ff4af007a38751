# Verified model of Agent Metrics

Agent Metrics collects the activity of coding agents: adapters read transcripts and request logs, a
scheduler runs them, events go through an append-only log into SQLite tables, and a dashboard queries
those tables. This project models the parts of it that carry state, protocols or conservation laws and
proves what they promise, for all inputs, runs and interleavings.

- **Scheduler** (`SyncModel`, `SyncInvariants`, `SyncTheorems`, `SyncLifecycle`, `SyncRecords`,
  `SyncCoordinator`): a state machine on values with its invariants, its whole-run results and what it writes
  down, and the scheduler object proved to take the same steps on its fields.
- **Event log ingest** (`EventLogReader`, `EventIngest`, `EventLogSynchronizer`, `EventLogRotation`): lines read
  chunk by chunk with resumable cursors, the log, tables and cursor as one system with lost batches and
  replaced files, the drain loop, and rotation with its rename protocol.
- **Canonical projection** (`UsageProjection`, `UsageReplay`, `UsageProjector`, `SessionAnchors`, `ToolCalls`,
  `ToolAliases`, `ToolSessions`, `ToolCallTable`): first writer wins, late enrichment of WorkBuddy usage and
  what replays do to it, session anchors, tool calls recomputed from stored events, Claude hook and transcript
  ids matched to each other, and sessions batch by batch.
- **Legacy migration** (`Grouping`, `LegacyMigration`, `LegacyMigrationProof`, `LegacyMigrator`): the backfill and
  the check behind it, with the exact condition under which the check accepts.
- **Log parsers** (`CodebuddyLog`, `CodebuddyTail`, `CodebuddySync`, `ClaudeTranscript`, `CodexRollout`): buffered
  pairing, overlapping tail reads with a ledger, pending usage windows, and tool and turn tracking.
- **Queries** (`QueryModel`, `QueryProperties`, `QueryClient`, `Keyset`, `UsageGroups`): the dashboard's request
  cache, keyset pages, and grouped token totals.

Files and tables are sequences and maps, promises and timers are steps of a transition system, and each
class or method with a loop is proved against a function on values about which the results are stated.
Times are integer milliseconds, tokens natural numbers. `dafny verify dfyconfig.toml` checks everything.

Where the code does something else than its documentation says, the model follows the code and a result
says exactly when the documented behaviour holds:

- One pass over WorkBuddy usage is not always idempotent (`RejectedThenAccepted`); `OnePassIff` says for which
  logs it is, and replays converge for all (`ReplayConverges`).
- `atEnd` can be reported with lines left: exactly when the next line is longer than the window
  (`AtEndIsRight`, `WindowStalls`).
- The offset of the CodeBuddy tail reader does not always land on a line boundary: after a pass with a newline
  it is the last line boundary exactly when the unterminated tail decodes to its own length
  (`NextOffsetIsBoundaryIff`), otherwise an earlier boundary or a place inside a line
  (`LengthenedTailHitsEarlierBoundary`, `LengthenedTailMissesBoundary`); a pass without one keeps the cursor
  (`QuietPassKeepsCursor`). No line is lost either way (`EveryLineIsDelivered`).
- Clamped cache figures can still exceed the prompt of a call that is reported again with a smaller one
  (`ShrinkingCallBreaksCache`); `CacheFitsIff` says for which logs they fit.
- A credit or its call cut off by the tail reader's window can pair differently than in the whole log
  (`CutTurnPairsDifferently`); `BalancedIff` says from which points on no window does.
- The interleaving of calls and credits matters for a message that two turns pay differently, and only for
  such a message (`TwoTurnsDependOnOrder`, `InterleavingIff`).
- Alias lookup ignores the adapter, which miscounts calls when an id occurs on both sides (`CallCount`,
  `OverlapMisplacesTranscript`); `TranscriptsInPlaceIff` says when transcript events stay where they belong.
- A session's start can be dragged backwards, by the event that happens to come first
  (`StartIsEarliestAnchor`); `ReorderIff` says for which events the order does not matter.
- The legacy check names a usage row without id differently than the backfill does; `ReconcilesIff` says
  which databases pass all the same.
- Rotation loses an old line that had not been projected (`OldUnreadLineIsLost`); `RotationLosesIff` says which
  events go.
- A success can be taken back by a failure under the name of the start when the success has another
  (`SuccessCanBeLost`); `StoredSuccessIff` says when it stays.
- In Claude sessions a success can be taken back with one tool name throughout: by a parallel call that spoils
  the match it rested on (`ParallelCallLosesSuccess`), and, where hook and transcript report the same id
  (packages/adapters-claude/src/hooks.ts:85, packages/adapters-claude/src/transcript.ts:334), by a parallel
  call that gets matched across so that the two rows are swapped (`SharedIdsSwap`). `SuccessStaysIff` says
  when a success stays, with shared ids or without; `AcquiresIff` and `RivalIff` spell out its links.
- Data the dashboard shows disappears when a later request is answered with null (`DataDisappearsIff`).

## Model

| member | source | states |
|---|---|---|
| `SyncTheorems.ReachableSafety` | apps/core/src/sync-coordinator.ts:366-502 | In every state any sequence of calls, timers and settlements can reach: at most `concurrency` ≤ 2 active runs, no repeats in queue or active set, a run is unfinished exactly when it is in one of the two and never in both, at most one unfinished run per adapter, `activeRunId` and `pendingRunId` name exactly that run and nothing outside memory, and before shutdown a waiting run means every slot is taken |
| `SyncInvariants.InitInv` | apps/core/src/sync-coordinator.ts:72-112 | A new scheduler over any stored rows satisfies the invariant |
| `SyncInvariants.ReachableInv` | apps/core/src/sync-coordinator.ts:366-574 | The full invariant (runs, queue, active set, adapter states and stored rows agree, and a busy adapter is switched on) is kept by every sequence of steps |
| `SyncInvariants.NextInv` | apps/core/src/sync-coordinator.ts:114-604 | Each single step, shutdown and late settlements included, keeps that invariant |
| `SyncTheorems.FreshRunsStartInOrder` | apps/core/src/sync-coordinator.ts:376-427 | Over any run of a fresh scheduler what was started, followed by what waits, is what was accepted, in that order |
| `SyncTheorems.StartsInAcceptanceOrder` | apps/core/src/sync-coordinator.ts:562-574 | Starting in acceptance order is kept from any state that has it, by every sequence of steps |
| `SyncTheorems.SettleAdvances` | apps/core/src/sync-coordinator.ts:496-500 | While runs wait, the settlement of an active run starts exactly the head of the queue and removes nothing else |
| `SyncTheorems.StepKeepsQueue` | apps/core/src/sync-coordinator.ts:366-427 | No other step before shutdown takes a run out of the queue or starts one ahead of it |
| `SyncTheorems.StartsWithinSettlements` | apps/core/src/sync-coordinator.ts:562-574 | With j runs ahead of it a queued run has started by the time j + 1 promises of active runs have settled, whatever else happens in between |
| `SyncLifecycle.TriggerCoalesces` | apps/core/src/sync-coordinator.ts:376-392 | While an adapter has an unfinished run a trigger always answers with that run, and only the freshness pass changes anything |
| `SyncLifecycle.BatchIsTriggers` | apps/core/src/sync-coordinator.ts:429-438 | A batch does nothing when the scheduler is closed or the request has no id, the empty batch included; otherwise it is the run of single triggers up to and including the first refused one |
| `SyncLifecycle.NextKeeps` | apps/core/src/sync-coordinator.ts:504-560 | A run that stays in memory keeps its identity, and once terminal its record never changes |
| `SyncLifecycle.ShutdownEndsEverything` | apps/core/src/sync-coordinator.ts:338-360 | After shutdown every accepted run is terminal, queue and active set are empty, and interrupted adapters hold the state saved at acceptance |
| `SyncLifecycle.LateSettlementChangesNothing` | apps/core/src/sync-coordinator.ts:460-502 | After shutdown a promise that settles late changes nothing but its own bookkeeping |
| `SyncLifecycle.ClosedForGood` | apps/core/src/sync-coordinator.ts:338-376 | After shutdown no sequence of steps accepts, starts or revives a run |
| `SyncLifecycle.SnapshotSurvives` | apps/core/src/sync-utils.ts:118-130 | The adapter state saved when a run was accepted is untouched until the run ends, over any steps in between |
| `SyncLifecycle.InterruptedAdapterIsRestored` | apps/core/src/sync-utils.ts:132-142 | From acceptance over any run to a shutdown that interrupts it, the adapter is back in the state it had when the run was accepted |
| `SyncLifecycle.CountersMeanWhatTheySay` | apps/core/src/sync-coordinator.ts:504-547 | Over any run of a fresh scheduler `consecutiveFailures` is the number of failures since the last success, `error` means never succeeded, `ready` and `stale` mean succeeded once |
| `SyncLifecycle.RestartRecoversRuns` | apps/core/src/sync-run-store.ts:72-97 | A process that dies in any state and starts again finds its unfinished runs aborted and its finished ones unchanged |
| `SyncRecords.SettleRecords` | apps/core/src/sync-coordinator.ts:460-547 | When a pending promise settles before shutdown, the run's record and its stored row say how: succeeded with the result and no error exactly when the run was not timed out and the promise resolved with counts that are safe non-negative integers, otherwise failed with the timeout, the invalid-result or the rejection's own error; the adapter shows the same error, its times and its failure count |
| `SyncRecords.SettleStartsHead` | apps/core/src/sync-coordinator.ts:562-574 | The run at the head of the queue is then under way as of that moment: record, stored row, slot, pending promise and adapter state |
| `SyncRecords.AcceptAnswers` | apps/core/src/sync-coordinator.ts:366-427 | A trigger is answered, in this order: shutting down, unknown adapter, switched off, the run the adapter has not finished, no run id, run id taken, and otherwise started or queued depending on a free slot |
| `SyncRecords.AcceptRecords` | apps/core/src/sync-coordinator.ts:394-458 | The record, stored row, snapshot and adapter state of a newly accepted run, started or waiting; other adapters only undergo the freshness check |
| `SyncRecords.FreshShaped` | apps/core/src/sync-coordinator.ts:440-560 | In every state a fresh scheduler can reach, through any calls, timers and settlements, each record has exactly the fields its status calls for: start, completion, result with valid counts, error |
| `SyncRecords.InitMeans` | apps/core/src/sync-run-store.ts:72-97 | A new scheduler knows exactly the stored runs that are young enough, with those that were under way aborted, and nothing else |
| `SyncRecords.AllAnswers` | apps/core/src/sync-coordinator.ts:429-438 | The answers of an accepted batch are those its triggers would have got one after the other, or the refusal of the first that was refused |
| `SyncRecords.StatusReport` | apps/core/src/sync-coordinator.ts:261-277 | A status report shows ready only for a success younger than the freshness time, changes no other state, and drops exactly the runs past their retention from memory, from the persisted rows and from the store |
| `SyncRecords.SetEnabledRecords` | apps/core/src/sync-coordinator.ts:148-167 | Switching an adapter on shows idle, ready or stale by its last success; only an adapter without unfinished run can be switched off |
| `SyncRecords.BackgroundRecords` | apps/core/src/sync-coordinator.ts:292-311 | A success reported from outside counts exactly for adapters that are switched on and have no unfinished run |
| `SyncCoordinators.SyncCoordinator.Create` | apps/core/src/sync-coordinator.ts:72-112 | An object is made if and only if the concurrency is valid and no adapter is named twice; its state is the initial one after registering the adapters in order |
| `SyncCoordinators.SyncCoordinator.Perform` | apps/core/src/sync-coordinator.ts:114-604 | Every call, timer and settlement takes the object through that step of the machine and keeps it valid |
| `SyncCoordinators.SyncCoordinator.AcceptAdapters` | apps/core/src/sync-coordinator.ts:429-438 | The batch as specified: refused as a whole when closed or without a request id, otherwise adapter after adapter up to the first refusal |
| `SyncCoordinators.SyncCoordinator.DrainQueue` | apps/core/src/sync-coordinator.ts:562-574 | The while loop starts exactly the queued runs the free slots allow, in order |
| `SyncCoordinators.SyncCoordinator.AbortAccepted` | apps/core/src/sync-coordinator.ts:338-352 | The loop aborts every listed run, as the recursive form does |
| `SyncCoordinators.SyncCoordinator.Shutdown` | apps/core/src/sync-coordinator.ts:338-360 | Whole state after shutdown |
| `SyncCoordinators.SyncCoordinator.RefreshFreshness` | apps/core/src/sync-coordinator.ts:576-587 | Exactly the ready adapters whose success is too old become stale |
| `SyncCoordinators.SyncCoordinator.PruneRuns` | apps/core/src/sync-coordinator.ts:589-604 | Both run tables and the store lose exactly the runs past their retention |
| `SyncCoordinators.SyncCoordinator.ScheduleNext` | apps/core/src/sync-coordinator.ts:217-227 | The next tick is announced on exactly the targeted, enabled adapters |
| `SyncCoordinators.SyncCoordinator.StopPeriodicSync` | apps/core/src/sync-coordinator.ts:248-259 | Every announced tick is withdrawn |
| `EventLogReader.SplitTiles` | apps/core/src/raw-ingest.ts:104-190 | Records lie end to end from the start offset to the committed one, each ends in its only newline, and its text is the bytes in front, less one carriage return at their end |
| `EventLogReader.TilesUnique` | apps/core/src/raw-ingest.ts:170-196 | Records that tile a stretch are the split of it: nothing else is possible |
| `EventLogReader.SplitExtends` | apps/core/src/raw-ingest.ts:159-196 | Reading on continues behind the last complete line and leaves earlier records alone |
| `EventLogReader.ReadEventLogIncremental` | apps/core/src/raw-ingest.ts:131-227 | For any chunk size, short reads and window size the call returns exactly the lines of what it read, the unterminated rest, the reset flag and a cursor at the last line end |
| `EventLogReader.ReadWindow` | apps/core/src/raw-ingest.ts:159-197 | The chunk loop: records, committed offset and pending bytes are those of the stretch read, and full windows are read when reads return bytes |
| `EventLogReader.TakeLines` | apps/core/src/raw-ingest.ts:171-196 | The inner loop moves exactly the complete lines out of the pending bytes |
| `EventLogReader.CursorSurvivesAppend` | apps/core/src/raw-primitives.ts:17-52 | A cursor still matches after an append if and only if the file identity did; from 4 KiB on it always does |
| `EventLogReader.CursorMatchesIff` | apps/core/src/raw-ingest.ts:104-170 | A cursor is good for a file exactly when creation time, the hash of the first 4 KiB and the hash of the 4 KiB in front of its offset agree and the file reaches the offset |
| `EventLogReader.ReadsResume` | apps/core/src/raw-ingest.ts:151-157 | Calls that pass on their cursors continue exactly where the previous one committed |
| `EventLogReader.ResumeIsSplit` | apps/core/src/raw-ingest.ts:131-227 | However a file is cut into calls, the records together are its lines in order, once each, and the rest is what was not committed |
| `EventLogReader.WindowProgress` | apps/core/src/raw-ingest.ts:159-166 | A window no smaller than the longest line commits more whenever a complete line is left |
| `EventLogReader.ResumeDeliversAll` | apps/core/src/raw-ingest.ts:131-227 | Enough windows, none smaller than the longest line, deliver exactly the lines of the file until only the unterminated tail is left |
| `UsageProjection.StepInv` | apps/core/src/domain-projection.ts:40-205 | Every event, enrichment and conflict included, keeps: counter equals rows, fingerprints fit payloads, a usage row exists exactly for usage payloads with consistent counts and agrees with its payload column by column |
| `UsageProjection.PatchAgrees` | apps/core/src/domain-projection.ts:232-340 | The columns a reconciliation writes make the usage row agree with the merged payload |
| `UsageProjection.GrossRowsConserveTokens` | packages/metrics-engine/src/index.ts:160-168 | On gross rows displayed and cached input add up to the raw prompt, in every state |
| `UsageProjection.StepEnriches` | apps/core/src/domain-projection.ts:209-340 | A step never removes a row and changes a stored payload only to one that adds knowledge, using up room each time |
| `UsageProjection.RunEnriches` | apps/core/src/domain-projection.ts:209-340 | The same over any run: known timings and credit and a positive cache split never change |
| `UsageProjection.AtMostFourChanges` | apps/core/src/domain-projection.ts:124-133 | A row changes at most four times over any run including replays (five if a timing member was missing), never outside WorkBuddy usage |
| `UsageProjection.ReconcileIff` | apps/core/src/domain-projection.ts:209-323 | An observation is reconciled if and only if it differs in exactly one of timing, credit and cache split, and in the way that part allows |
| `UsageProjection.BareRowRejectsBoth` | apps/core/src/domain-projection.ts:252-303 | A bare row never takes a credit and a cache split from one event |
| `UsageProjection.RejectedThenAccepted` | apps/core/src/domain-projection.ts:124-133 | Such an event is a conflict the first time and accepted when it comes again after the credit alone: one pass is not idempotent |
| `UsageReplay.ReplayConverges` | apps/core/src/domain-projection.ts:124-133 | Replays settle: after five more passes over any log a further pass changes no stored event |
| `UsageReplay.OnePassIff` | apps/core/src/domain-projection.ts:112-205 | For every log: a second pass changes no stored event if and only if no event of the log is a part ahead of what the first pass stored for its id |
| `UsageReplay.AdvancesIff` | apps/core/src/domain-projection.ts:209-323 | An event is a part ahead exactly when it equals the stored usage but for a missing timing, a missing credit or an absent cache split that it can give |
| `UsageReplay.OnePassIsEnough` | apps/core/src/domain-projection.ts:124-133 | Logs whose reports of an id each differ from the first in one part at most, or each follow the one before it, are idempotent in one pass |
| `UsageProjection.RunSourced` | apps/core/src/domain-projection.ts:229-311 | Credit, timings and cache split of a stored row were each observed for its id |
| `UsageProjection.RunModel` | apps/core/src/domain-projection.ts:529-605 | Over any log the model column of a usage row is the model its first event names, or else the first one that is not empty among the events of its id |
| `UsageProjection.RunReflects` | apps/core/src/domain-projection.ts:136-161 | From empty tables any log stores exactly the observed ids, each with its first event, at most enriched |
| `UsageProjection.ReflectsIsInsertAll` | apps/core/src/domain-projection.ts:136-161 | Without WorkBuddy usage the event table is one insert-if-absent pass and the trigger counter its size |
| `UsageProjectors.UsageProjector.ReconcileWorkbuddyTiming` | apps/core/src/domain-projection.ts:209-246 | Tables after a timing reconciliation, and exactly when it applies |
| `UsageProjectors.UsageProjector.ReconcileUsageCredit` | apps/core/src/domain-projection.ts:252-278 | Tables after a credit reconciliation, and exactly when it applies |
| `UsageProjectors.UsageProjector.ReconcileUsageCache` | apps/core/src/domain-projection.ts:292-344 | Tables after a cache reconciliation, and exactly when it applies |
| `UsageProjectors.UsageProjector.HealUsageModelId` | apps/core/src/domain-projection.ts:529-539 | Only a missing model is filled in |
| `UsageProjectors.UsageProjector.InsertUsage` | apps/core/src/domain-projection.ts:541-605 | A usage row is written once, and only for consistent token counts |
| `UsageProjectors.UsageProjector.Project` | apps/core/src/domain-projection.ts:112-205 | Tables after one event, and which of projected, idempotent and conflict is reported |
| `UsageProjectors.UsageProjector.ProjectNormalizedEvents` | apps/core/src/domain-projection.ts:40-63 | Tables after a batch; the outcomes account for every counted row and every conflict |
| `SessionAnchors.StartIsEarliestAnchor` | apps/core/src/domain-projection.ts:377-411 | A session starts at the earliest of its first event and all its announcements |
| `SessionAnchors.AnchoredStart` | apps/core/src/domain-projection.ts:378-385 | Once the first event is an announcement the start is the earliest announcement, whatever comes later |
| `SessionAnchors.EndIsLatest` | apps/core/src/domain-projection.ts:399-408 | The end is the latest session end and the exit code the last one reported |
| `SessionAnchors.ReorderIff` | apps/core/src/domain-projection.ts:391-398 | For every non-empty list of events: all its reorderings give the session one start if and only if each event that is no announcement is preceded or matched in time by some announcement, or all events have one time |
| `EventIngest.ReachableInv` | apps/core/src/event-log-projector.ts:122-330 | Over any interleaving of appends, bounded ingests, lost batches, lost cursors and file replacements the tables are the image of what was read on first sight and the cursor stands on a line boundary at or below the mark |
| `EventIngest.IngestReflects` | apps/core/src/event-log-projector.ts:142-262 | Whatever a reset cursor makes the reader read again leaves the stored rows as they are |
| `EventIngest.ExactlyOnceEffect` | apps/core/src/event-log-projector.ts:313-330 | While the file only grows: event table equal to one insert-if-absent pass over the lines up to the mark (outside WorkBuddy usage), counter equal to the table size, and any stored cursor on a boundary not beyond the mark |
| `EventIngest.RunKeepsRows` | apps/core/src/event-log-rotation.ts:18-28 | No run, with or without replaced files, loses or rewrites a projected row |
| `EventIngest.NothingReadIff` | apps/core/src/event-log-projector.ts:147-158 | A full window gives no record if and only if no complete line is left or the next one is longer than the window |
| `EventIngest.AtEndIsRight` | apps/core/src/event-log-projector.ts:263-265 | The reported end is the end if and only if the next line is not too long |
| `EventIngest.AtEndIff` | apps/core/src/event-log-projector.ts:147-265 | The end is reported exactly when the window holds no complete line or a line in it ends at or behind the size seen before |
| `EventIngest.WindowStalls` | apps/core/src/event-log-projector.ts:147-158 | A line that does not fit is never passed: tables and cursor stay, also after appends |
| `EventIngest.IngestAdvances` | apps/core/src/event-log-projector.ts:263-265 | On a fixed file an ingest that is not at the end leaves strictly less to commit |
| `EventLogSynchronizers.EventLogSynchronizer.Normalize` | apps/core/src/event-log-projector.ts:160-252 | The events handed on are those of the lines, in order, malformed ones skipped |
| `EventLogSynchronizers.EventLogSynchronizer.IngestEventLog` | apps/core/src/event-log-projector.ts:122-266 | One ingest takes the whole system through the corresponding model step and reports the end as specified |
| `EventLogSynchronizers.EventLogSynchronizer.Advance` | apps/core/src/event-log-projector.ts:122-266 | With reads that return bytes a reported end means drained (or a line too long) and otherwise the cursor moves |
| `EventLogSynchronizers.EventLogSynchronizer.Sync` | apps/core/src/event-log-projector.ts:69-109 | The drain loop reads nothing when the log has the signature it was last drained at, and otherwise ends drained, at an oversized line, or after 512 ingests that each advanced; appends in between are never recorded as drained |
| `EventLogSynchronizers.EventLogSynchronizer.AppendBytes` | apps/core/src/event-log-projector.ts:556-571 | An append changes the signature and keeps everything known valid |
| `EventLogSynchronizers.EventLogSynchronizer.ReplaceFile` | apps/core/src/event-log-rotation.ts:138-148 | A younger file in place keeps the invariant |
| `EventLogRotation.TrimEventLogFile` | apps/core/src/event-log-rotation.ts:200-248 | The output is exactly the rendering of the kept lines of the source file, unterminated rest included, and every non-empty line is counted as kept or dropped |
| `EventLogRotation.RenderRoundTrip` | apps/core/src/event-log-rotation.ts:230-236 | Reading the trimmed file back gives exactly the kept lines and no rest |
| `EventLogRotation.KeptAreTexts` | apps/core/src/event-log-rotation.ts:219-229 | A line is kept if and only if it is non-empty, has a timestamp and is young enough |
| `EventLogRotation.KeptIsFilter` | apps/core/src/event-log-rotation.ts:200-248 | Lines that stay keep their order and number, and a line stays exactly when it is not empty and its first timestamp is not before the cutoff |
| `EventLogRotation.RestIsDelivered` | apps/core/src/event-log-rotation.ts:200-248 | Every complete line is looked at, and a rest without newline as one line more |
| `EventLogRotation.EventLogDirectory.NextArchivePath` | apps/core/src/event-log-rotation.ts:270-285 | The first free of a hundred names, or none |
| `EventLogRotation.EventLogDirectory.RotateEventLogIfNeeded` | apps/core/src/event-log-rotation.ts:101-160 | The log is rotated exactly when it is too long, no move fails and one of a hundred archive names is free; then it holds the kept lines and the first free archive has the old content; what each failure leaves behind is stated file by file; in every state on the way, crashes included, the old content is in its place or in the archive, and other archives are untouched |
| `EventLogRotation.RotationKeepsProjectedRows` | apps/core/src/event-log-rotation.ts:18-28 | After a rotation and a full read the stored ids are those projected before plus those of the lines kept from the log: no projected row is lost |
| `EventLogRotation.RotationLosesIff` | apps/core/src/event-log-rotation.ts:200-229 | For readers that do not look at offsets an event survives if and only if it was projected before or a non-empty, dated and young enough line of the old log carries its id |
| `EventLogRotation.OldUnreadLineIsLost` | apps/core/src/event-log-rotation.ts:219-222 | And an old line that had not been read is lost although an ingest would have stored it |
| `EventLogRotation.DrainedRotation` | apps/core/src/event-log-rotation.ts:18-28 | Rotating a log that had been read to its last byte adds and loses no row; outside WorkBuddy usage table and counter are what they were |
| `EventLogRotation.FileTextsAreTexts` | apps/core/src/event-log-rotation.ts:208-218 | The lines delivered from a log whose carriage returns only end lines have no line end inside |
| `Grouping.GroupsConserve` | apps/core/src/domain-reconciliation.ts:142-166 | Grouped totals add up to the ungrouped total for any key |
| `Grouping.GroupIsItsRows` | apps/core/src/aggregate-queries.ts:232-260 | Each group holds the sum of its own rows and exists exactly when it has one |
| `LegacyMigrationProof.ReconcilesIff` | apps/core/src/domain-reconciliation.ts:30-53 | The check accepts the backfilled database if and only if the legacy database was well formed: distinct ids, and every usage row that counts has an id and an adapter |
| `LegacyMigrationProof.OrdinaryDatabasesReconcile` | apps/core/src/domain-reconciliation.ts:30-53 | Distinct ids and filled-in usage ids and adapters always reconcile |
| `LegacyMigrationProof.BackfillEvents` | apps/core/src/domain-backfill.ts:31-82 | There is one event per legacy row if and only if ids are distinct |
| `LegacyMigrationProof.BackfillTools` | apps/core/src/domain-backfill.ts:300-319 | With distinct ids there is one tool call per tool row |
| `LegacyMigrationProof.BucketsOf` | apps/core/src/domain-backfill.ts:321-405 | With distinct ids a usage id is in exactly one of accepted, pending and invalid when a row has it and in none otherwise |
| `LegacyMigrationProof.OneBucketIff` | apps/core/src/domain-reconciliation.ts:65-102 | A row passes the bucket check if and only if the id the check builds is some usage row's |
| `LegacyMigrationProof.FoldIff` | apps/core/src/domain-reconciliation.ts:188-253 | The independent token fold equals the stored one if and only if every countable row has its id and adapter |
| `LegacyMigrationProof.BackfillObservations` | apps/core/src/domain-backfill.ts:237-298 | Every observation has the stored fingerprint or a recorded conflict |
| `LegacyMigrationProof.DisposeMeans` | apps/core/src/domain-backfill.ts:321-405 | A usage row is pending exactly when the registry does not list its source and adapter, invalid exactly when its gross input is below its cached part and it is no unconverted Codex row; otherwise the stored row carries its columns, shows the legacy input of unconverted Codex rows unchanged, and conserves input as shown plus cached |
| `LegacyMigrationProof.BucketsMean` | apps/core/src/domain-backfill.ts:321-405 | Over the whole database: which ids are pending, invalid and stored, told by the cells of their rows |
| `LegacyMigrationProof.FirstIsStored` | apps/core/src/domain-backfill.ts:368-400 | Each id has at most one usage row, the image of its first acceptable legacy row |
| `LegacyMigrationProof.StoredUsageMeans` | apps/core/src/domain-backfill.ts:321-405 | Every stored usage row is the image of a legacy row of its id |
| `LegacyMigrationProof.IdentityMeans` | apps/core/src/domain-backfill.ts:237-298 | Events, observations and conflicts after the backfill, told by the legacy rows: the first row of an id and of an id and adapter is stored, and a conflict is recorded exactly for ids with a row of another fingerprint |
| `LegacyMigrationProof.ToolsMean` | apps/core/src/domain-backfill.ts:300-319 | The tool calls are those of the tool rows, each once |
| `LegacyMigrationProof.MarkerMeans` | apps/core/src/domain-backfill.ts:31-90 | The Codex marker ends up set exactly when it was or a usage row is Codex's, and nothing else depends on that |
| `LegacyMigrationProof.CheckMeans` | apps/core/src/domain-reconciliation.ts:30-294 | For any tables, not only those of the backfill: the check accepts exactly when events and tool calls are as many as the legacy rows, every usage row is in one bucket, the total computed from the legacy cells equals the stored one, and every event seen with two fingerprints has a conflict |
| `LegacyMigrationProof.RegistryMeans` | apps/core/src/domain-migration-helpers.ts:63-83 | The registry as pairs of usage source and adapter, with the sources whose input includes cached tokens and the one that is no increment |
| `LegacyMigrationProof.IndependentMeans` | apps/core/src/domain-reconciliation.ts:124-267 | The total the check computes again comes from the legacy cells alone, cached tokens counted once, except for Codex rows |
| `LegacyMigrationProof.GroupsAlwaysAgree` | apps/core/src/domain-reconciliation.ts:138-184 | The model, vendor, provider and session totals always agree with the overview |
| `LegacyMigrators.LegacyMigrator.BackfillLegacyEvent` | apps/core/src/domain-backfill.ts:92-235 | Tables after one legacy row |
| `LegacyMigrators.LegacyMigrator.UpsertLegacyUsage` | apps/core/src/domain-backfill.ts:321-405 | Accepted with converted Codex input, pending, or invalid, as specified |
| `LegacyMigrators.LegacyMigrator.BackfillLegacyData` | apps/core/src/domain-backfill.ts:31-90 | The loops over all tables leave the canonical tables of the recursive form, marker included |
| `LegacyMigrators.LegacyMigrator.ReconcileUsageDisposition` | apps/core/src/domain-reconciliation.ts:65-102 | Accepts exactly when every usage row is in one bucket |
| `LegacyMigrators.LegacyMigrator.ReconcileTokenFolds` | apps/core/src/domain-reconciliation.ts:124-253 | Accepts exactly when the four groupings and the independent fold agree |
| `LegacyMigrators.LegacyMigrator.ReconcileLegacyMigration` | apps/core/src/domain-reconciliation.ts:30-53 | Accepts exactly when all conditions of the check hold |
| `LegacyMigrators.LegacyMigrator.Migrate` | apps/core/src/domain-migrations.ts:84-93 | Backfill and check commit if and only if the legacy database was well formed |
| `ToolCalls.OrderDoesNotMatter` | apps/core/src/domain-projection.ts:428-444 | The row of a call depends on which events are stored, not on their order |
| `ToolCalls.ArrivalOrderDoesNotMatter` | apps/core/src/domain-projection.ts:428-444 | Recomputed one by one, conflict-free events leave the same rows in any arrival order and repetition |
| `ToolCalls.StatusIff` | apps/core/src/domain-projection.ts:455-474 | Succeeded if and only if a success carries the start's name, or no terminal does and some success exists; started if and only if nothing terminal is stored |
| `ToolCalls.RowMeans` | apps/core/src/domain-projection.ts:428-530 | The columns of a call's row, told by its events: start at the earliest start, finish at the earliest event of the kind of the deciding terminal, which is the earliest success or the latest terminal under the start's name and else under any; duration as reported, else the difference if not negative; name of the start, else of the terminal |
| `ToolCalls.GroupRowMeans` | apps/core/src/tool-aliases.ts:178-234 | The same for rebuilt Claude calls, which finish at the deciding terminal's own time |
| `ToolCalls.SuccessIsFinal` | apps/core/src/domain-projection.ts:455-474 | Recomputed by itself, with one tool name, a succeeded call is made failed by no later event (calls that are matched across adapters: see `SuccessStaysIff`) |
| `ToolCalls.SucceededStays` | apps/core/src/domain-projection.ts:455-474 | The same over whole runs of arriving events, without the Claude rebuild |
| `ToolCalls.StoredSuccessIff` | apps/core/src/domain-projection.ts:455-474 | Whatever the names: once a success is stored, the call shows success after more events if and only if some success carries the start's name, or no terminal event does |
| `ToolCalls.SuccessCanBeLost` | apps/core/src/domain-projection.ts:463-474 | Without one name a failure under the start's name takes a success back |
| `ToolAliases.AliasIff` | apps/core/src/tool-aliases.ts:55-94 | The two length tests find exactly the isolated edges of the compatibility graph |
| `ToolAliases.AliasesAreIsolatedEdges` | apps/core/src/tool-aliases.ts:55-94 | Aliases are exactly the isolated edges, hence an injective partial map from hook to transcript ids |
| `ToolAliases.AliasOrderDoesNotMatter` | apps/core/src/tool-aliases.ts:113-135 | With one name per node the aliases do not depend on the order of the stored events |
| `ToolAliases.GroupsPartition` | apps/core/src/tool-aliases.ts:162-170 | Every event is in exactly the group of its canonical id, in order, and no group is empty |
| `ToolAliases.RebuildOrderDoesNotMatter` | apps/core/src/tool-aliases.ts:137-236 | The rebuilt rows do not depend on the order of the stored events |
| `ToolAliases.CallCount` | apps/core/src/tool-aliases.ts:150-177 | The number of calls is ids less aliases, plus the alias targets that are themselves aliased away |
| `ToolAliases.DisjointIdsCount` | apps/core/src/tool-aliases.ts:150-177 | With hook and transcript ids disjoint: ids less aliases |
| `ToolAliases.OverlapMisplacesTranscript` | apps/core/src/tool-aliases.ts:166 | With an id on both sides a transcript event lands in the call of another tool |
| `ToolAliases.TranscriptsInPlaceIff` | apps/core/src/tool-aliases.ts:166-170 | Every transcript event is in the call of its own id if and only if no aliased hook id is a transcript id |
| `ToolSessions.SucceedsIff` | apps/core/src/tool-aliases.ts:162-193 | For any ids, shared between hook and transcript or not: the row of an id whose call names one tool shows success if and only if the id has itself reported success and has no alias, or a hook aliased to it has |
| `ToolSessions.SuccessStaysIff` | apps/core/src/tool-aliases.ts:60-94 | The same after later events, told by the aliases before and the pairs of events that are new, where each id names one tool: the row of an id shows success if and only if the id has reported success and nothing links it to another id, or a hook that has is linked to it |
| `ToolSessions.AliasedLaterIff` | apps/core/src/tool-aliases.ts:60-94 | An alias is there after later events if and only if it was there and no new pair meets exactly one of its two ids, or it was not and a new pair joins the two and no pair joins either to a third; a pair is a hook and a transcript event of one tool with different ids, at most five seconds apart |
| `ToolSessions.AcquiresIff` | apps/core/src/tool-aliases.ts:60-94 | An id without alias, shared or not, acquires one exactly when a new pair joins it as hook to a transcript id and neither of the two has another partner |
| `ToolSessions.SharedIdsSwap` | apps/core/src/tool-aliases.ts:60-94 | With ids that hook and transcript share, a parallel call of the same tool makes the rebuild swap two rows: a call that succeeded on both sides shows failure, the one that failed shows success |
| `ToolSessions.RowStatusIff` | apps/core/src/tool-aliases.ts:180-193 | Whatever the names, a rebuilt row shows success by the rule for single calls applied to the events of its group |
| `ToolSessions.DisjointSuccessStaysIff` | apps/core/src/tool-aliases.ts:162-193 | Where hooks and transcripts use different ids: a succeeded rebuilt call, under whatever id it lives on, is still succeeded after later events if and only if its own id has reported success, or its matched hook has and neither of the two gets a second match |
| `ToolSessions.RivalIff` | apps/core/src/tool-aliases.ts:59-73 | A matched pair gets a second match exactly when a hook and a transcript event of one tool, at most five seconds apart and at least one of them new, involve exactly one of the two |
| `ToolSessions.GroupSuccessIff` | apps/core/src/tool-aliases.ts:180-193 | A rebuilt call whose events name one tool has succeeded exactly when one of its events has, for any ids |
| `ToolSessions.OwnSuccessIsFinal` | apps/core/src/tool-aliases.ts:180-193 | An id that has itself reported success belongs to a succeeded call for good |
| `ToolSessions.ParallelCallLosesSuccess` | apps/core/src/tool-aliases.ts:84-95 | With one tool name throughout, a parallel call within five seconds turns a success into a failure, or back to started when no failure is stored |
| `ToolSessions.ClaudeSuccessStaysIff` | apps/core/src/domain-projection.ts:40-63 | The condition of `SuccessStaysIff` over runs of batches, each followed by the rebuild, shared ids included |
| `ToolSessions.ClaudeBatchingDoesNotMatter` | apps/core/src/domain-projection.ts:40-63 | In a Claude session the calls do not depend on arrival order, repetition or batching, rebuilds included |
| `ToolSessions.OtherBatchingDoesNotMatter` | apps/core/src/domain-projection.ts:40-63 | Nor do they in a session without Claude events |
| `ToolSessions.CallsAreNamed` | apps/core/src/tool-aliases.ts:59-73 | When each id names one tool all events of a rebuilt call name one tool, shared ids included |
| `ToolCallTables.CloseNodes` | apps/core/src/tool-aliases.ts:264-271 | Nodes close in time are events close in time |
| `ToolCallTables.ToolCallTable.ObserveEvent` | apps/core/src/domain-projection.ts:423-527 | Stored events and rows after one tool event |
| `ToolCallTables.ToolCallTable.ProjectBatch` | apps/core/src/domain-projection.ts:40-63 | Stored events and rows after a batch, rebuilt when the batch has a Claude event |
| `ToolCallTables.ToolCallTable.CollectNodes` | apps/core/src/tool-aliases.ts:113-135 | Each node has its first event's name and all its times, in order of appearance |
| `ToolCallTables.ToolCallTable.BuildEdges` | apps/core/src/tool-aliases.ts:55-73 | Forward and backward edges are exactly the compatible pairs |
| `ToolCallTables.ToolCallTable.RecomputeClaudeToolAliases` | apps/core/src/tool-aliases.ts:35-111 | The alias table is the isolated edges and the calls are rebuilt from it |
| `ToolCallTables.ToolCallTable.RebuildClaudeToolCalls` | apps/core/src/tool-aliases.ts:137-236 | The loop over events leaves exactly the rebuilt rows |
| `CodebuddyLog.ParseBuffers` | packages/adapters-codebuddy-log/src/codebuddy-log.ts:113-138 | However calls and credits of a turn interleave, the buffers are what plain index pairing leaves over |
| `CodebuddyLog.OneSideWaits` | packages/adapters-codebuddy-log/src/codebuddy-log.ts:84-90 | Per turn at most one of the two queues is non-empty |
| `CodebuddyLog.CreditsAreGiven` | packages/adapters-codebuddy-log/src/codebuddy-log.ts:113-233 | For every log the k-th accepted credit of a turn goes to the k-th accepted call, and a message keeps the credit of its pair that was completed last |
| `CodebuddyLog.InterleavingIff` | packages/adapters-codebuddy-log/src/codebuddy-log.ts:84-90 | A message has the same credit in every interleaving of the calls and credits of the turns if and only if no two turns pay it differently |
| `CodebuddyLog.GivenIsPaid` | packages/adapters-codebuddy-log/src/codebuddy-log.ts:113-138 | The credit a message was given last is one that index pairing within some turn pays it, and it was given one if any turn pays |
| `CodebuddyLog.TwoTurnsDependOnOrder` | packages/adapters-codebuddy-log/src/codebuddy-log.ts:113-138 | A message that two turns pay differently takes the credit of the turn billed last |
| `CodebuddyLog.CreditsArePaired` | packages/adapters-codebuddy-log/src/codebuddy-log.ts:113-233 | Where each message has one turn its credit is the one index pairing of that turn gives it |
| `CodebuddyLog.InterleavingDoesNotMatter` | packages/adapters-codebuddy-log/src/codebuddy-log.ts:84-90 | So a log that reports each message under one turn shows the same credits however its streams interleave |
| `CodebuddyLog.WindowPairsAlike` | packages/adapters-codebuddy-log/src/codebuddy-log.ts:67-73 | A window pairs its credits as the whole log does when no turn that is ahead on one side before it is caught up on the other side within it |
| `CodebuddyLog.BalancedIff` | packages/adapters-codebuddy-log/src/codebuddy-log.ts:67-73 | All windows behind a point of the log pair as the whole log does if and only if every turn has as many calls as credits there |
| `CodebuddyLog.CutTurnPairsDifferently` | packages/adapters-codebuddy-log/src/codebuddy-log.ts:67-73 | A window that cuts a turn between a call and its credit can give the credit to another message |
| `CodebuddyLog.CacheFitsIff` | packages/adapters-codebuddy-log/src/codebuddy-log.ts:180-198 | The cache figures of a whole log fit their prompts if and only if no message has its last report behind its last cache line with a prompt below a figure attached there |
| `CodebuddyLog.GrowingPromptsFit` | packages/adapters-codebuddy-log/src/codebuddy-log.ts:180-198 | So a log whose repeated reports never lower a prompt keeps every cache figure within its prompt |
| `CodebuddyLog.RecordIsLast` | packages/adapters-codebuddy-log/src/codebuddy-log.ts:180-198 | A record shows the prompt of the last report and the figures of the last cache line attached to it, clamped to the prompt known then |
| `CodebuddyLog.RecordIsReported` | packages/adapters-codebuddy-log/src/codebuddy-log.ts:180-198 | A record keeps the time of its first report and shows session, counts and the rest of its last |
| `CodebuddyLog.StartedAtIsFirst` | packages/adapters-codebuddy-log/src/codebuddy-log.ts:200-202 | A session starts at its first accepted call |
| `CodebuddyLog.ShrinkingCallBreaksCache` | packages/adapters-codebuddy-log/src/codebuddy-log.ts:180-198 | And such a report exists: the clamped cache figure can exceed the final prompt |
| `CodebuddyLog.CacheLineFindsItsCall` | packages/adapters-codebuddy-log/src/codebuddy-log.ts:329-363 | A cache line uses up one waiting call: the first with its prompt size, else the first of the session |
| `CodebuddyLog.ParseCacheQueues` | packages/adapters-codebuddy-log/src/codebuddy-log.ts:206-212 | A session's cache queue lists known calls, each once |
| `CodebuddyLog.ParseCodebuddyLog` | packages/adapters-codebuddy-log/src/codebuddy-log.ts:75-240 | The line loop with its mutable buffers computes the specified scan and first session times |
| `CodebuddyLog.ApplyCacheAccounting` | packages/adapters-codebuddy-log/src/codebuddy-log.ts:329-363 | Requests and queues after one cache line |
| `CodebuddyTail.PassDelivers` | packages/adapters-codebuddy-log/src/codebuddy-log-sync.ts:196-223 | Whatever was complete when a pass read the file is covered before or in its text, however long lines are; the stored offset does not pass it |
| `CodebuddyTail.PassRereads` | packages/adapters-codebuddy-log/src/codebuddy-log-sync.ts:196-223 | Of all complete lines a pass has exactly those that start behind the place 128 KiB before its cursor, all of them when the cursor is no further than that |
| `CodebuddyTail.EveryLineIsDelivered` | packages/adapters-codebuddy-log/src/codebuddy-log-sync.ts:119-179 | After any history of appends and passes, one more pass has delivered every complete line |
| `CodebuddyTail.NextOffsetIsBoundaryIff` | packages/adapters-codebuddy-log/src/codebuddy-log-sync.ts:215-216 | After a pass that sees a newline the stored offset is the last line boundary if and only if the unterminated tail decodes to its own length |
| `CodebuddyTail.QuietPassKeepsCursor` | packages/adapters-codebuddy-log/src/codebuddy-log-sync.ts:207-210 | A pass that sees no newline delivers nothing and keeps its cursor |
| `CodebuddyTail.CursorOnBoundary` | packages/adapters-codebuddy-log/src/codebuddy-log-sync.ts:215-216 | When no tail changes its length in decoding the cursor stands on a line boundary after any history of appends and passes |
| `CodebuddyTail.LengthenedTailHitsEarlierBoundary` | packages/adapters-codebuddy-log/src/codebuddy-log-sync.ts:215-216 | A tail that decodes longer can put the offset on an earlier line boundary |
| `CodebuddyTail.LengthenedTailMissesBoundary` | packages/adapters-codebuddy-log/src/codebuddy-log-sync.ts:215-216 | Or inside a line |
| `CodebuddyTail.AtMostThreeAppends` | packages/adapters-codebuddy-log/src/codebuddy-log-sync.ts:314-335 | A request is appended at most three times over any sightings, other events once |
| `CodebuddyTail.AppendedIff` | packages/adapters-codebuddy-log/src/codebuddy-log-sync.ts:295-335 | A sighting is appended exactly when it is the first of its id, the first with a credit or the first with a cache split |
| `CodebuddyTail.DetailsAreRecorded` | packages/adapters-codebuddy-log/src/codebuddy-log-sync.ts:295-335 | Every detail of a handled sighting has been appended |
| `CodebuddySync.AppendedCount` | packages/adapters-codebuddy-log/src/codebuddy-log-sync.ts:314-335 | The log gains exactly as many sightings as the ledger lets through |
| `CodebuddySync.CodebuddyLogSync.ReadLogTail` | packages/adapters-codebuddy-log/src/codebuddy-log-sync.ts:196-223 | Text and next offset of a pass, byte by byte |
| `CodebuddySync.CodebuddyLogSync.Append` | packages/adapters-codebuddy-log/src/codebuddy-log-sync.ts:314-335 | Ledger and log after one event |
| `CodebuddySync.CodebuddyLogSync.SyncFile` | packages/adapters-codebuddy-log/src/codebuddy-log-sync.ts:119-179 | Cursor, ledger, log and count after one file |
| `ClaudeTranscript.IncrementEmits` | packages/adapters-claude/src/transcript-sync.ts:215-303 | One increment emits exactly one event for each occurring message not in the ledger, with the usage of its first row and the timings of its first block |
| `ClaudeTranscript.EmittedExactlyOnce` | packages/adapters-claude/src/transcript-sync.ts:83-162 | Over all increments of a one-session transcript a message is emitted exactly once, in the first increment that has it, and not at all when the ledger had it |
| `ClaudeTranscript.IncrementSilent` | packages/adapters-claude/src/transcript-sync.ts:224-227 | A message in the ledger is never emitted again, by rows of any session |
| `ClaudeTranscript.DecodeIsBlockLength` | packages/adapters-claude/src/transcript-sync.ts:396-414 | The decode time is given exactly when the block's first row has a time and its last timed row lies behind it, and is the time between the two |
| `ClaudeTranscript.LatencyIsFromUserRow` | packages/adapters-claude/src/transcript-sync.ts:383-394 | The first-token latency is given exactly when first row and preceding user row have times and their difference is in range, and is that difference |
| `ClaudeTranscript.WindowsAreOne` | packages/adapters-claude/src/transcript-sync.ts:216-260 | The map of pending usage never holds more than one entry, whatever the rows and sessions, and behaves as a single window |
| `ClaudeTranscript.TranscriptSync.FlushPendingUsage` | packages/adapters-claude/src/transcript-sync.ts:219-242 | Flushing emits what pends unless the ledger has it |
| `ClaudeTranscript.TranscriptSync.SyncTranscriptReference` | packages/adapters-claude/src/transcript-sync.ts:244-303 | The row loop leaves ledger and log of the specified increment |
| `CodexRollout.TerminalClosesItsStart` | packages/adapters-codex/src/codex.ts:223-312 | Every tool terminal in the result closes one earlier start of its call that nothing has closed or repeated since, carries its name, and the start is in the result |
| `CodexRollout.OpenCallsAreClosed` | packages/adapters-codex/src/codex.ts:223-312 | Every output of an open call has its terminal in the result |
| `CodexRollout.ResultIff` | packages/adapters-codex/src/codex.ts:29-663 | The result holds exactly what the lines give: starts, terminals of open calls, other tool events, usage reports, and mirrored usage only when there is no other |
| `CodexRollout.OnePerLine` | packages/adapters-codex/src/codex.ts:29-663 | No two tool or usage events of the result come from one line (a successful patch line also gives a code edit, which is not modelled) |
| `CodexRollout.StartClosesOnce` | packages/adapters-codex/src/codex.ts:263-264 | No start is closed by two terminals of the result |
| `CodexRollout.StartsAreAccountedFor` | packages/adapters-codex/src/codex.ts:155-312 | The starts of a call are its terminals in the result, those given up by a restart, and the one that may be open at the end |
| `CodexRollout.OneUsageSource` | packages/adapters-codex/src/codex.ts:653-657 | Usage comes from the token stream or from its mirror, never both, and the mirror is used when it is all there is |
| `CodexRollout.OneFirstTokenPerTurn` | packages/adapters-codex/src/codex.ts:617-628 | Of the usage events of the result that belong to one turn only the first can carry a first-token latency |
| `CodexRollout.UsageMeans` | packages/adapters-codex/src/codex.ts:598-650 | A usage event has the figures of its line; it carries the first-token latency exactly when it is the first report of a turn whose beginning is known, both times are and the difference is from zero to ten minutes; and a decode time exactly when the turn's previous timed report is at most two minutes earlier and not later; both are the differences |
| `CodexRollout.LinesAreReported` | packages/adapters-codex/src/codex.ts:29-663 | Every start, other tool event and usage report is in the result as its line says, and every mirrored report when there is no other |
| `CodexRollout.DecodeFitsElapsed` | packages/adapters-codex/src/codex.ts:604-616 | With the reports of a turn in time order, the decode windows in the result that belong to the turn and the dropped gaps add up to the time between its first and last report |
| `CodexRollout.SortIsOrdered` | packages/adapters-codex/src/codex.ts:805-816 | The result is in order of time, kind and id and holds exactly the collected events |
| `CodexRollout.ResultOrder` | packages/adapters-codex/src/codex.ts:805-845 | The result is in order of time; at one time calls come before ends of tools and these before usage; then by id |
| `CodexRollout.SortIsStable` | packages/adapters-codex/src/codex.ts:662-663 | Events that tie in all three keep the order they were found in |
| `CodexRollout.CallComesBeforeTerminal` | packages/adapters-codex/src/codex.ts:805-840 | In the sorted result every call comes before the terminal that closes it unless the terminal is stamped earlier |
| `CodexRollout.ExtractCodexEventsFromRollout` | packages/adapters-codex/src/codex.ts:29-663 | The line loop and the sort give the specified events |
| `QueryProperties.ReachableSafety` | apps/dashboard/src/query-client.ts:30-215 | In every reachable state: at most one unsettled request per key, the one its entry waits for; what is shown is what the last loading request resolved with; ready without data means it resolved with null; loading means in flight |
| `QueryProperties.ReachableInv` | apps/dashboard/src/query-client.ts:30-215 | The invariant over entries, requests and generations is kept by every interleaving, null results included |
| `QueryProperties.OneLiveRequest` | apps/dashboard/src/query-client.ts:37-39 | Two unsettled requests of one entry are the same |
| `QueryProperties.FetchJoins` | apps/dashboard/src/query-client.ts:35-40 | A fetch joins the request in flight or starts exactly one |
| `QueryProperties.OnlyTheCurrentRequestSpeaks` | apps/dashboard/src/query-client.ts:86-130 | Data, errors and timeouts of a request reach an entry only while it waits for that request |
| `QueryProperties.DataOnlyMovesForward` | apps/dashboard/src/query-client.ts:86-104 | Over any run what an entry shows is replaced only by the result of a later request |
| `QueryProperties.DataDisappearsIff` | apps/dashboard/src/query-client.ts:86-94 | Data disappears exactly when the request the entry waits for, a later one, resolves with null |
| `QueryProperties.StepShows` | apps/dashboard/src/query-client.ts:48-225 | What every step makes of an entry, told by the request it waits for: status, data, error and time, stale data kept under a failure with the error that caused it |
| `QueryProperties.StepFlags` | apps/dashboard/src/query-client.ts:48-225 | And of a request: whether its loader still runs, its timer is armed, it timed out or was aborted |
| `QueryProperties.NullTakesDataAway` | apps/dashboard/src/query-client.ts:86-94 | And it does: data loaded, asked for again and answered with null leaves the entry ready without data |
| `QueryProperties.OutcomesAreFinal` | apps/dashboard/src/query-client.ts:48-52 | Over any run a settled promise keeps its outcome |
| `QueryProperties.UnsettledCanSettle` | apps/dashboard/src/query-client.ts:53-77 | As long as a promise is unsettled its loader, its timer and a cancel can settle it |
| `QueryProperties.SettlesIff` | apps/dashboard/src/query-client.ts:53-133 | An unsettled promise is settled by exactly its loader, its timer, a cancel of its key or a dispose, each in its own way |
| `QueryProperties.SettlesExactlyOnce` | apps/dashboard/src/query-client.ts:48-133 | In any run the first step that ends a pending request decides its outcome for good |
| `QueryProperties.OpenUntilEnded` | apps/dashboard/src/query-client.ts:48-133 | And until one comes the promise stays open |
| `QueryProperties.SettledIsSilent` | apps/dashboard/src/query-client.ts:86-130 | Nothing a settled request still does changes any entry, at any later time |
| `QueryClients.QueryClient.FetchKey` | apps/dashboard/src/query-client.ts:30-142 | Whole state after a fetch; the promise returned is unsettled and in flight |
| `QueryClients.QueryClient.LoaderResolved` | apps/dashboard/src/query-client.ts:86-111 | Whole state after a loader resolved with data or with null |
| `QueryClients.QueryClient.LoaderRejected` | apps/dashboard/src/query-client.ts:112-128 | Whole state after a loader rejected |
| `QueryClients.QueryClient.TimerFired` | apps/dashboard/src/query-client.ts:54-72 | Whole state after a timeout |
| `QueryClients.QueryClient.CancelKey` | apps/dashboard/src/query-client.ts:152-173 | Whole state after a cancel |
| `QueryClients.QueryClient.InvalidateKey` | apps/dashboard/src/query-client.ts:175-186 | Whole state after an invalidation |
| `QueryClients.QueryClient.DisposeAll` | apps/dashboard/src/query-client.ts:188-199 | Whole state after a dispose; no promise is left unsettled |
| `Keyset.SessionConditionIsBehind` | apps/core/src/canonical-queries.ts:553-578 | The mixed-direction condition says exactly "behind the cursor in the session order" |
| `Keyset.TimelineConditionIsBehind` | apps/core/src/canonical-queries.ts:580-590 | The timeline condition says exactly "behind the cursor" |
| `Keyset.SuffixIsQuery` | apps/core/src/canonical-queries.ts:277-301 | Filtering behind a row and sorting gives the rest of the sorted list |
| `Keyset.FollowingCursorsReadsAll` | apps/core/src/canonical-queries.ts:302-315 | For any page size the pages put together are the full ordered list, without gap or repeat |
| `Keyset.SessionPagesTile` | apps/core/src/canonical-queries.ts:260-316 | The same for session pages taken with the cursor's WHERE clause |
| `Keyset.TimelinePagesTile` | apps/core/src/canonical-queries.ts:318-388 | The same for timeline pages |
| `Keyset.StableRowsOnce` | apps/core/src/canonical-queries.ts:260-316 | Also while the table changes between pages, a row that stays is read exactly once by a reading that ends |
| `UsageGroups.DropExactly` | apps/core/src/cursor-account-usage.ts:301-322 | Exactly the generation rows with an official row on their day go, and no day keeps both kinds |
| `UsageGroups.DropIdempotent` | apps/core/src/cursor-account-usage.ts:301-322 | Filtering twice is filtering once |
| `UsageGroups.DropConservesOthers` | apps/core/src/cursor-account-usage.ts:313-321 | Tokens of all other rows are conserved |
| `UsageGroups.SelectBreakdowns` | apps/core/src/session-queries.ts:252-388 | The model, source, provider and trend maps that the loops fill from the filtered rows have the same grand totals: the tokens of every row that is no snapshot, no standing context report and no generation on a day with an official row |
| `UsageGroups.FilteredTotal` | apps/core/src/cursor-account-usage.ts:301-322 | What the filter leaves to group is every additive row that is not shadowed, once |
| `UsageGroups.AdditiveIs` | apps/core/src/aggregate-queries.ts:230-236 | A row counts for the groups exactly when it is no snapshot and no standing context report |
| `UsageGroups.GroupKeys` | apps/core/src/aggregate-queries.ts:237-244 | Two rows share a group exactly when vendor, model and tier agree, the vendor does, or provider host and id do; an unknown model is one model and no tier is the standard tier |
| `UsageGroups.DropCursorGenerationShadowedByOfficial` | apps/core/src/cursor-account-usage.ts:301-322 | The two loops compute the specified filter |
| `UsageGroups.GroupUsage` | apps/core/src/aggregate-queries.ts:229-300 | The accumulating loop gives every group the counters of its own additive rows, and the groups of the returned map add up, counter by counter, to the ungrouped additive rows |

## Left out

Parts of the repository:

- HTTP routes, access checks, Electron windows, React pages and the official quota collectors: plumbing, user interface and newest-wins upserts.
- The writer lease, its stale-lock reclaim and the spool directory: they rest on the real file system.
- Detail retention: it deletes stored events that the tool-call rebuild relies on.
- Cursor text encoding, filter fingerprints, price tables, floating-point cost and rate figures, time zones and labels: easy members or uninterpreted.
- Observation rows of the live projection, source and adapter registries, diagnostics texts and resolver versions: written beside the tables modelled here; diagnostics count every replay anew.
- The legacy event tables that ingest fills beside the canonical ones.
- Events of the Codex parser other than tool and usage events: session starts, prompts, assistant messages, and the code edits of a successful patch or completed file change.
- Tool-name inference, output interpretation, patch statistics and provider metadata of the Codex and Claude parsers: pure text functions.
- The model name of a CodeBuddy call that is reported again without one, which keeps the earlier name: calls carry everything else no branch looks at in one opaque field.
- Claude observations other than usage, which only pass the ledger, and the split of transcript text into lines across increments.

Assumptions and idealisations:

- SHA-256 collisions are not modelled where a fingerprint or file identity must tell things apart: a fingerprint is the part of the event it is computed from, an identity keeps creation time and head hash apart. Digests of byte ranges are an arbitrary function.
- Identifiers built by joining parts with separators are kept as tuples, so ids that contain the separator are not modelled; collation orders are integer orders, and ids are numbered in that order.
- The scheduler reads the clock once per step; `persistence.save` and the clock do not throw; an adapter's `sync` returns a promise and does not call back synchronously; completing a run, releasing its slot and draining are one step.
- Run records of the scheduler are values in a map, so sharing of one record object between the map and a running closure is not captured. A tick of the periodic timer is its triggers followed by its announcement.
- At shutdown a restored snapshot brings back the announced next tick that stopping the timer had just cleared; the model does the same.
- A replaced log file has a later creation time than the one it replaces, and a file that changed has another size or modification time. File systems that hand the old creation time to a new file are not modelled.
- Event ids depend on the byte offset of a line only when its record id is blank; the rotation results are stated through the events the trimmed file really gives, so they need no assumption about it.
- Lines reach the trimmer as the line reader delivers them; a line separator other than a newline inside a record is not modelled.
- Read calls fill the buffers they report: a short read in the CodeBuddy tail reader is not modelled.
- Listeners of the request cache do not fetch from inside a notification and do not throw; a loader settles at most once, and settling clears the timer before another timer can fire.
- Credits are natural numbers; the source allows fractions. Token sums are exact integers. Service tiers arrive trimmed and in lower case.
- SQL statements are taken at their meaning: insert-or-ignore, upsert, filter, order and limit on tables with their primary keys.

Members stated weaker than one might expect:

- CodexRollout.DecodeFitsElapsed: asks for the reports of the turn in time order, because the code takes any later report as the new anchor.
- ClaudeTranscript.EmittedExactlyOnce: one session per transcript, because pending usage is keyed by message id alone.
- CodebuddyLog.CreditsArePaired: each message is reported under one turn; `CreditsAreGiven` and `GivenIsPaid` have no such condition.
- CodebuddyLog.InterleavingDoesNotMatter: each message is reported under one turn; `InterleavingIff` has the exact condition for every log.
- CodebuddyLog.WindowPairsAlike: a sufficient condition for one window, because differently made pairs can carry equal credits; `BalancedIff` is exact for all windows behind a point.
- ToolSessions.SuccessStaysIff: asks that each id names one tool; `RowStatusIff` says what a row shows whatever the names.
- ToolSessions.DisjointSuccessStaysIff: hooks and transcripts with different ids; `SuccessStaysIff` has no such condition.
- UsageReplay.OnePassIff: its condition looks at what the first pass stored, a function of the log; `OnePassIsEnough` gives conditions on the log's own events, one way.
- CodebuddySync.SyncFile: takes the parser as a function; what a window that starts inside a turn does to credit pairing is stated beside the parser.
- ToolSessions.ClaudeBatchingDoesNotMatter: sessions of Claude events only, because the rebuild drops the calls of other adapters, which do not share its source instances.
- EventLogRotation.RotationLosesIff: logs whose carriage returns only end lines, and readers that do not look at the byte offset.
- ToolAliases.RebuildOrderDoesNotMatter: one tool name per observed id, because a node takes its name from whichever row comes first.
