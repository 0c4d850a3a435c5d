# A model of the Webex connector

The connector bridges Webex rooms to Codex sessions. This project models its stateful core and proves what
that core is for. Each module stands for one part of the program:

- `EventLog`: the Data Space log; what one message does, snapshots, compaction, paged replay.
- `SessionStore`, `Worker`: the worker's store with its two derived indexes, as a value and as the mutable
  object; `Dedupe`, the window of recent event ids; `Mirror` and `Handoff`/`HandoffImport`, the two merges that
  decide which replica of a session wins.
- `Handlers`, `Bridge`: the session handlers as a transition relation over store and log, and as methods that
  each take one such transition; `HandlerEffects`, what each transition does to a record; `Restart`, a start from
  the log with a merge of the local snapshot.
- `Lifecycle`: the admission gate all tasks share, and the work permits. `Cutoff`, `Drain`, `Permits`,
  `Unquiesce` and `Shutdown` are step relations over interleavings of the tasks that drive it; `WorkerLoop` is the
  worker's own unquiesce arm as code.
- `Frames`, `Messages`, `Connection`: the WebSocket codec (RFC 6455), reassembly of fragmented messages, and the
  table of pending requests.
- `HistoryPages`, `HistoryMessages`, `Lease`: history paging and packing, and the app-server lease loop.

Objects that the program mutates are classes; each method is proved against a function of the old state, and
the theorems are about those functions. Hash maps are iterated in an arbitrary order throughout.

What the proofs bring out; the first two with runs of the code's own callers, the last two with inputs that the code
accepts but whose arrival is not derived here:

- An unquiesce can open the gate although its peer was sent an error: the worker's answer may land between the
  RPC task's last look at the channel and the drop of the receiver. The frame that was flushed is the accepting
  one exactly when the RPC task had not given up (`Unquiesce.OpensOnlyAfterFlush`,
  `Unquiesce.LateAnswerOpensAfterErrorFrame`). A shutdown has the same race (`Shutdown.StopsOnlyAfterFlush`).
- `restore_shutdown_phase` does not check which shutdown it restores. A shutdown whose RPC task gives up may be
  restored twice, by the task and later by the worker, and the second restore ends some other shutdown; the drain
  cutoff can then move back within one closed stretch (`Shutdown.GivingUpMovesCutoff`). It moves exactly when a
  value is restored that was handed out, quiesced, before the gate last left Active (`Cutoff.CutoffMovesExactly`,
  `Shutdown.CutoffMovesExactly`). A caller can rule that out by restoring only a value that carries the generation
  just before the gate's, which only the value of the current shutdown does (`Cutoff.CutoffIsFixed`,
  `Cutoff.OnlyOpenerMatches`); the callers keep to that as long as no request outwaits its answer
  (`Shutdown.RestoresMatch`).
- Paging stops at any message with the snapshot prefix, but only one that decodes makes older messages irrelevant.
  Behind an undecodable one, sessions are lost (`EventLog.EarlyStopExact`, `EventLog.ReplayPastBadSnapshot`).
- If two live sessions come to share a thread, archiving one drops the other's index entry until the next
  rebuild; the incremental indexes are rebuilds exactly when no other indexed session shares the key that is dropped
  (`SessionStore.UpsertRebuildExactly`, `Bridge.SharedThreadLosesEntry`).

## Model

| member | source | states |
|---|---|---|
| `EventLog.SnapshotRoundTrip` | crates/wxcd-eventlog/src/lib.rs:175-203 | Loading a snapshot gives back exactly the sessions and approvals it was taken of, in whatever order the hash maps were written out. |
| `EventLog.ReplayKeyedById` | crates/wxcd-eventlog/src/lib.rs:185-247 | Whatever the log holds, replay files every session and approval under its own id. |
| `EventLog.ReplayConcat` | crates/wxcd-eventlog/src/lib.rs:148-173 | Replaying two stretches of log one after the other is absorbing the second into the state of the first. |
| `EventLog.CompactionSound` | crates/wxcd-eventlog/src/lib.rs:175-247 | A snapshot of the state after any prefix, put in place of that prefix or appended to it, leads after any suffix to the same sessions and approvals as prefix and suffix do. |
| `EventLog.ReplayFromSnapshotOn` | crates/wxcd-eventlog/src/lib.rs:124-150 | Messages before a decodable snapshot do not influence the replayed state at all. |
| `EventLog.PurgedExactly` | crates/wxcd-eventlog/src/lib.rs:205-225 | A replay holds an id as purged exactly when a purge of it follows the last decodable snapshot. |
| `EventLog.ArchivedExactly` | crates/wxcd-eventlog/src/lib.rs:205-225 | As archived exactly when an archiving of it follows that snapshot with no purge of it after. |
| `EventLog.ResolvedExactly` | crates/wxcd-eventlog/src/lib.rs:230-245 | And an approval as resolved exactly when a resolution of it follows that snapshot. |
| `EventLog.CountsSinceSnapshot` | crates/wxcd-eventlog/src/lib.rs:124-172 | The snapshot time is that snapshot's own, and the event count is the number of events after it. |
| `EventLog.LastEventDecides` | crates/wxcd-eventlog/src/lib.rs:205-225 | The last event to mention a session decides: its record as logged, the same record archived, or no record. |
| `EventLog.NoApprovalsLeft` | crates/wxcd-eventlog/src/lib.rs:210-225 | After an archiving or purge of a session none of its approvals is pending until one is requested again. |
| `EventLog.ResolvedStaysResolved` | crates/wxcd-eventlog/src/lib.rs:226-245 | A resolved approval is not pending until it is requested again. |
| `EventLog.Replayer.Load` | crates/wxcd-eventlog/src/lib.rs:185-203 | The two collecting loops give the state `FromSnapshot` describes, with empty tombstones and a zero event count. |
| `EventLog.Replayer.Apply` | crates/wxcd-eventlog/src/lib.rs:205-247 | Mutating in place, one event does what the pure `ApplyEvent` says to every field: archive and purge also drop the session's approvals, any decision resolves. |
| `EventLog.LoadLatestSnapshot` | crates/wxcd-eventlog/src/lib.rs:124-148 | The first pass leaves the state of the last decodable snapshot and starts the second pass right behind it. |
| `EventLog.ReplayFromMessages` | crates/wxcd-eventlog/src/lib.rs:121-173 | The two-pass replay of newest-first messages equals the one-pass left fold, restarting at each snapshot, over the oldest-first log. |
| `EventLog.ReadPages` | crates/wxcd-eventlog/src/lib.rs:76-119 | The paging loop has read exactly the newest messages, in at most 51 fetches; it stops with the first page that holds a snapshot prefix, at 5000 messages, or with the whole log, and gives up exactly at the limit with none found and more to read. |
| `EventLog.StopsOnce` | crates/wxcd-eventlog/src/lib.rs:97-119 | For every log there is one place only where such a reading stops. |
| `EventLog.PagedReplay` | crates/wxcd-eventlog/src/lib.rs:76-119 | Paged, early-stopping replay returns the fold over the messages read up to that place; it fails exactly when the newest 5000 messages hold no snapshot prefix and older ones exist; otherwise, if all snapshots decode, it gives the fold over the whole room log. |
| `EventLog.EarlyStopExact` | crates/wxcd-eventlog/src/lib.rs:105-119 | Ignoring older messages gives the right sessions and approvals for every possible older history if and only if what was read holds a snapshot that decodes. |
| `EventLog.UnreadSessionIsLost` | crates/wxcd-eventlog/src/lib.rs:148-173 | Otherwise a session created in the unread part and not mentioned since is lost, though the whole log replays to it. |
| `EventLog.BadSnapshotHidesSession` | crates/wxcd-eventlog/src/lib.rs:97-119 | An undecodable snapshot in the newest page stops the paging after that page, and what it then replays lacks a session created just before, whatever that session and the rest of the page. |
| `EventLog.ReplayPastBadSnapshot` | crates/wxcd-eventlog/src/lib.rs:76-119 | So the value that the replay method itself returns on that log lacks the session. |
| `SessionStore.RebuildIsUnique` | crates/wxcd-worker/src/main.rs:6415-6441 | With distinct keys, any two results of an index rebuild are equal, whatever the iteration order. |
| `SessionStore.RoutesExactly` | crates/wxcd-worker/src/main.rs:6415-6441 | With distinct rooms and threads, rebuilt indexes lead a room to its session exactly if it is open and owned here, or nothing is owned yet, and a thread if it is not failed either. |
| `SessionStore.UpsertIndexes` | crates/wxcd-worker/src/main.rs:6187-6201 | An upsert keeps every index entry naming a routable session of that key; with distinct rooms and threads it keeps both indexes equal to a rebuild. |
| `SessionStore.RemoveIndexes` | crates/wxcd-worker/src/main.rs:6203-6214 | The same for removal. |
| `SessionStore.UpsertRebuildExactly` | crates/wxcd-worker/src/main.rs:6187-6201 | After an upsert an index is still a rebuild if and only if the session is new, or is indexed under the key it had, or no other indexed session shares that key. |
| `SessionStore.DropRebuildExactly` | crates/wxcd-worker/src/main.rs:6203-6209 | After a removal, if and only if no other indexed session shares the key. |
| `Bridge.SharedThreadLosesEntry` | crates/wxcd-worker/src/main.rs:2807-2852 | A thread known only from an unowned session is attached to a new one, a later start claims both, and archiving either drops the live other's entry from the thread index, which a rebuild would hold. |
| `Worker.WorkerState.constructor` | crates/wxcd-worker/src/main.rs:6167-6185 | A state built from a replay has sound indexes, and rebuilt ones when rooms and threads are distinct. |
| `Worker.WorkerState.UpsertSession` | crates/wxcd-worker/src/main.rs:6187-6201 | The in-place upsert is `Upsert` on the whole state. |
| `Worker.WorkerState.RemoveSession` | crates/wxcd-worker/src/main.rs:6203-6214 | The in-place removal is `Remove`, which also drops the session's approvals; an unknown id changes nothing. |
| `Worker.WorkerState.RebuildSessionIndexes` | crates/wxcd-worker/src/main.rs:6415-6441 | For any iteration order both indexes are complete and sound afterwards, and nothing else changed. |
| `Worker.WorkerState.SetExecutableInstallation` | crates/wxcd-worker/src/main.rs:6216-6219 | Setting the installation leaves both indexes rebuilt for it. |
| `Worker.WorkerState.CodexInFlightCount` | crates/wxcd-worker/src/main.rs:6443-6457 | The count is the number of routable sessions with an active turn or a creating, running or waiting state. |
| `Worker.WorkerState.ToSnapshot` | crates/wxcd-worker/src/main.rs:6495-6511 | The snapshot lists exactly the sessions and approvals, in some order, and names the writer. |
| `Dedupe.RunKeepsWindow` | crates/wxcd-worker/src/main.rs:6459-6493 | After any mix of remember, forget and merge the queue has no duplicates and at most 1024 entries. |
| `Dedupe.RejectedUntilForgottenOrAged` | crates/wxcd-worker/src/main.rs:6459-6493 | A remembered id stays in the window through every run that neither forgets it nor accepts 1024 fresh ids. |
| `Dedupe.FreshRun` | crates/wxcd-worker/src/main.rs:6464-6472 | After remembering fresh ids in a row the window is the newest 1024 of the old queue and those ids, in order. |
| `Dedupe.AgedOut` | crates/wxcd-worker/src/main.rs:6464-6472 | And 1024 fresh ids in a row push out everything that was there: the bound is tight. |
| `Dedupe.MergeIntoEmpty` | crates/wxcd-worker/src/main.rs:6481-6493 | Merging a window of trimmed, non-empty ids into an empty one reproduces it in order. |
| `Dedupe.TrimCutsEnds` | crates/wxcd-worker/src/main.rs:6484-6487 | Trimming an id cuts whitespace off both ends, all of it, and nothing else. |
| `Dedupe.TrimmedExactly` | crates/wxcd-worker/src/main.rs:6484-6487 | So exactly the ids without whitespace at either end are their own trimming, and only whitespace trims to nothing. |
| `Dedupe.WithoutKeepsWindow` | crates/wxcd-worker/src/main.rs:6475-6479 | Forgetting keeps the window free of duplicates and within its bound. |
| `Worker.WorkerState.RememberEvent` | crates/wxcd-worker/src/main.rs:6459-6473 | Accepts exactly the ids not in the queue; set and queue stay in step; eviction is from the front. |
| `Worker.WorkerState.ForgetEvent` | crates/wxcd-worker/src/main.rs:6475-6479 | Removes the id from set and queue, keeping the order of the others. |
| `Worker.WorkerState.MergeRecentEventIds` | crates/wxcd-worker/src/main.rs:6481-6493 | Merges trimmed, non-empty ids in order and reports how many were fresh. |
| `Mirror.MergeIdempotent` | crates/wxcd-worker/src/main.rs:6221-6321 | Merging the same local snapshot twice, with one timestamp, is merging it once. |
| `Mirror.MergeSafety` | crates/wxcd-worker/src/main.rs:6221-6299 | The merge never lowers an `updated_at`, un-archives a session, alters one whose authority is another installation, or adds one that was purged or is no newer than the remote snapshot; what it adds is claimed. |
| `Mirror.MergePicksNewer` | crates/wxcd-worker/src/main.rs:6253-6290 | A known session keeps its record, apart from authority and mirror, unless a strictly newer local one replaces it, apart from authority and mirror. |
| `Mirror.MergeAddsAbsent` | crates/wxcd-worker/src/main.rs:6229-6261 | An absent session is added exactly when the scope offers it, no other installation owns it, it was not purged, and it is newer than the remote snapshot; it comes with its own fields and this installation's claim. |
| `Mirror.MergeTakesNewer` | crates/wxcd-worker/src/main.rs:6262-6290 | A known session that is offered and not owned elsewhere becomes the newer of the two records, claimed, unless the room has archived it and the local record has not. |
| `Mirror.MergeIgnoresUnoffered` | crates/wxcd-worker/src/main.rs:6231-6236 | A local record that is not offered leaves no trace. |
| `Mirror.MergeTakesApprovals` | crates/wxcd-worker/src/main.rs:6301-6384 | A local approval still open for an owned session on the same thread is pending afterwards unless one requested as late is; nothing else changes. |
| `Worker.WorkerState.MergeLocalMirror` | crates/wxcd-worker/src/main.rs:6221-6299 | For every iteration order the outcome is the order-free `Merged`; it returns true exactly when sessions or approvals changed, and then the indexes are rebuilt. |
| `Worker.WorkerState.MergeLocalSessions` | crates/wxcd-worker/src/main.rs:6229-6291 | The session loop, in any order, gives `MergedSessions` and reports a change exactly when there is one. |
| `Worker.WorkerState.MergeLocalSession` | crates/wxcd-worker/src/main.rs:6230-6290 | One turn of it leaves under that id what `MergeOne` decides, with all five early exits. |
| `Worker.WorkerState.ClaimInPlace` | crates/wxcd-worker/src/main.rs:6275-6290 | The kept record gains only authority and mirror, and the change is reported exactly when there is one. |
| `Worker.WorkerState.MergeLocalPendingApprovals` | crates/wxcd-worker/src/main.rs:6301-6321 | In any order: a claimable local approval wins exactly over none or an older one. |
| `Worker.WorkerState.ClaimLegacyLocalSessions` | crates/wxcd-worker/src/main.rs:6386-6413 | Exactly the sessions with neither authority nor mirror and a listed thread are claimed; true exactly when some were; indexes rebuilt then. |
| `Worker.LegacyClaimsExactly` | crates/wxcd-worker/src/main.rs:6393-6407 | A legacy claim touches authority and mirror alone, and of exactly the sessions with neither on a listed thread. |
| `Handoff.HandoffRoundTrip` | crates/wxcd-worker/src/main.rs:3531-3626 | Importing an export into an empty worker of the same installation reproduces both indexes, the Codex work in flight, all claimable approvals and the dedupe queue in order. |
| `Handoff.ImportSafety` | crates/wxcd-worker/src/main.rs:3554-3608 | The import never un-archives, revives a purged id, touches a foreign session, or, outside the exported in-flight set, lowers an `updated_at`. |
| `Handoff.ImportAddsAbsent` | crates/wxcd-worker/src/main.rs:3554-3592 | An absent session is imported exactly when it is this installation's, not purged and newer than the snapshot, with its own fields and any claim it has. |
| `Handoff.ImportTakesExported` | crates/wxcd-worker/src/main.rs:3554-3607 | A known session takes the exported record exactly if it is eligible and no older or had Codex work in flight; otherwise it keeps its fields and at most has a missing claim filled in. |
| `Handoff.ReconcileDropsExactly` | crates/wxcd-worker/src/main.rs:6323-6352 | A pending approval is dropped exactly when its session was replaced, is owned here, and the export does not hold it as still open. |
| `HandoffImport.ExportHandoffSnapshot` | crates/wxcd-worker/src/main.rs:3390-3416 | The export holds exactly the sessions and approvals, the dedupe queue, and the ids with Codex work in flight. |
| `HandoffImport.ApplyWebexHandoffPayload` | crates/wxcd-worker/src/main.rs:3531-3626 | Fails, changing nothing, exactly without an installation identity; otherwise the result is the order-free `Imported` with rebuilt indexes kept rebuilt. |
| `HandoffImport.ImportSession` | crates/wxcd-worker/src/main.rs:3554-3607 | One turn of the session loop does what `Decide` says and reports replacement and change correctly. |
| `HandoffImport.HandOver` | crates/wxcd-worker/src/main.rs:3390-3626 | The round trip on the two worker objects: export from one, import into an empty other. |
| `Worker.WorkerState.ReconcileHandoffPendingApprovals` | crates/wxcd-worker/src/main.rs:6323-6352 | Of the approvals on replaced, owned sessions only those exported and claimable stay; true exactly when some were dropped. |
| `Handlers.LogReplaysToLiveState` | crates/wxcd-worker/src/main.rs:1978-3210 | After any run of handlers and checkpoints, replaying the log gives the live sessions, pending approvals and event count; only the `updated_at` of archived sessions may differ, and a replayed buffer is a prefix of the live one. |
| `Handlers.SyncedFromNextSnapshot` | crates/wxcd-worker/src/main.rs:3180-3210 | From any store filed by id, whatever its log holds, log and store are in step from the next snapshot on that any handler logs; so after a handoff import or a start from a local snapshot. |
| `Bridge.Start` | crates/wxcd-worker/src/main.rs:821-837 | A worker started from the room log is in step with it, with rebuilt indexes, if no snapshot in it is undecodable; it fails to start from it exactly when the log is out of reach. |
| `Restart.StartAndMerge` | crates/wxcd-worker/src/main.rs:821-900 | After a start from the room log and the merge of the local snapshot, a session whose last word in the log is a purge is absent, one whose last word is its archiving is archived, and no resolved approval is pending, whatever the snapshot holds. |
| `Handlers.StepSyncs` | crates/wxcd-worker/src/main.rs:3180-3210 | Each handler keeps log and store in step, and whenever it logs, the event count ends below a positive interval. |
| `Handlers.LoggedBeforeApproval` | crates/wxcd-worker/src/main.rs:2470-2500 | An approval is pending before it is logged; an automatic snapshot falling in between already holds it, so logging it afterwards still agrees. |
| `HandlerEffects.TurnCompletes` | crates/wxcd-worker/src/main.rs:2307-2443 | A completed turn leaves no active turn and nothing in flight; the streamed text, trimmed, is the final answer; only that session changes, and it is logged. |
| `HandlerEffects.TurnStarts` | crates/wxcd-worker/src/main.rs:2307-2443 | A started turn is in flight with an empty buffer. |
| `HandlerEffects.StreamedTurn` | crates/wxcd-worker/src/main.rs:2307-2443 | However the text of a turn is cut into deltas, their concatenation, trimmed, is its final answer. |
| `HandlerEffects.StatusChanges` | crates/wxcd-worker/src/main.rs:2307-2443 | An active status makes the session busy; any other leaves it busy only by its active turn, in the state its record calls for. |
| `HandlerEffects.DeltaAppends` | crates/wxcd-worker/src/main.rs:2307-2443 | A delta is appended to the buffer, and nothing else changes or is logged. |
| `HandlerEffects.TurnSubmits` | crates/wxcd-worker/src/main.rs:2075-2211 | A submitted turn is in flight with an empty buffer and its checkpoint; a failed session takes none. |
| `HandlerEffects.PausesAndResumes` | crates/wxcd-worker/src/main.rs:2075-2211 | Pausing and resuming set the state and leave the active turn; a failed session resumes, free of its failure, but does not pause. |
| `HandlerEffects.ReadableCures` | crates/wxcd-worker/src/main.rs:3128-3178 | A readable thread cures exactly an open session that failed or carries a failure. |
| `HandlerEffects.UnusableFails` | crates/wxcd-worker/src/main.rs:3128-3178 | An unusable thread fails an open session for that reason, unless it has failed for it already. |
| `HandlerEffects.UnknownIsIgnored` | crates/wxcd-worker/src/main.rs:2307-2443 | A notification or command about an unknown thread or session changes nothing. |
| `HandlerEffects.CreatedIsIdle` | crates/wxcd-worker/src/main.rs:1978-2073 | A created session is idle, owned here, routed by its room and thread, and first logged as creating. |
| `HandlerEffects.RequestIsPending` | crates/wxcd-worker/src/main.rs:2445-2500 | A requested approval is pending with its card and its session waits, if its thread routes to that session; otherwise nothing changes. |
| `HandlerEffects.ResolvedRunsOn` | crates/wxcd-worker/src/main.rs:2502-2623 | A resolved approval is gone, whatever was decided, and its session is running, free of failure. |
| `HandlerEffects.ArchivedIsClosed` | crates/wxcd-worker/src/main.rs:2807-2852 | An archived session is closed, holds up no drain and has no approval pending; no other session or approval changes. |
| `HandlerEffects.PurgedIsGone` | crates/wxcd-worker/src/main.rs:2738-2769 | A purge takes away exactly an archived session of this installation with its approvals, and ends in a snapshot. |
| `HandlerEffects.InFlightExactly` | crates/wxcd-worker/src/main.rs:6443-6457 | What holds up a drain is exactly the open, owned sessions with an active turn or a creating, running or waiting state. |
| `Handlers.StepKeepsIndexes` | crates/wxcd-worker/src/main.rs:1978-2852 | Each handler keeps the indexes sound, and equal to a rebuild while rooms and threads are distinct. |
| `Handlers.IndexesAlongRun` | crates/wxcd-worker/src/main.rs:1978-2852 | So they are after any run. |
| `Bridge.Bridge.PersistEvent` | crates/wxcd-worker/src/main.rs:3180-3196 | Appends the event, counts it, and snapshots exactly when the interval is reached. |
| `Bridge.Bridge.PersistSnapshot` | crates/wxcd-worker/src/main.rs:3198-3210 | Appends a snapshot of the live state and resets the count. |
| `Bridge.Bridge.CreateBridgeSession` | crates/wxcd-worker/src/main.rs:1978-2073 | Takes one `CreateSession` step: filed and logged as created, then again as updated once its overview exists. |
| `Bridge.Bridge.HandleSessionMessage` | crates/wxcd-worker/src/main.rs:2075-2211 | `/resume`, `/pause` and a submitted turn take one `EditSession` step; a failed session accepts `/resume` only. |
| `Bridge.Bridge.HandleCodexNotification` | crates/wxcd-worker/src/main.rs:2307-2443 | Status, turn start and turn completion, found through the thread index and edited in place, take the same step. |
| `Bridge.Bridge.HandleMessageDelta` | crates/wxcd-worker/src/main.rs:2307-2443 | Streamed text changes the buffer of the thread's session and logs nothing. |
| `Bridge.Bridge.ProbeSession` | crates/wxcd-worker/src/main.rs:3128-3178 | A probe updates and logs the session exactly when it changes its failure, never an archived one. |
| `Bridge.Bridge.RequestApproval` | crates/wxcd-worker/src/main.rs:2445-2500 | The approval becomes pending and the session waits, both logged, if its thread still routes to that session. |
| `Bridge.Bridge.ResolveApproval` | crates/wxcd-worker/src/main.rs:2502-2623 | A pending approval is removed and logged as resolved before its session, if any, runs on. |
| `Bridge.Bridge.ArchiveSession` | crates/wxcd-worker/src/main.rs:2807-2852 | Archives the record, drops its approvals and logs it. |
| `Bridge.Bridge.PurgeArchived` | crates/wxcd-worker/src/main.rs:2738-2769 | Removes exactly an owned, archived session, logs it and snapshots at once. |
| `Lifecycle.LifecycleControl.BeginQuiesce` | crates/wxcd-worker/src/main.rs:390-413 | Closes an Active gate at `now`, re-stamps a Quiescing one without moving its cutoff, refuses otherwise; the token names the new generation. |
| `Lifecycle.LifecycleControl.BeginUnquiesceActivation` | crates/wxcd-worker/src/main.rs:420-436 | Claims the activation for the current quiesce only; its token remembers the cutoff. |
| `Lifecycle.LifecycleControl.CompleteUnquiesceActivation` | crates/wxcd-worker/src/main.rs:438-449 | Opens the gate exactly for the current activation. |
| `Lifecycle.LifecycleControl.CancelUnquiesceActivation` | crates/wxcd-worker/src/main.rs:451-462 | Goes back to Quiescing with the remembered cutoff, for the current activation only. |
| `Lifecycle.LifecycleControl.BeginUnquiesceIfCurrent` | crates/wxcd-worker/src/main.rs:487-517 | Accepts exactly a current Active or Quiescing token and claims the activation only in the second case. |
| `Lifecycle.LifecycleControl.BeginShutdown` | crates/wxcd-worker/src/main.rs:519-533 | Starts a shutdown from Active or Quiescing only and returns what to restore. |
| `Lifecycle.LifecycleControl.RestoreShutdownPhase` | crates/wxcd-worker/src/main.rs:535-542 | Restores phase and cutoff during a shutdown, under a new generation. |
| `Lifecycle.LifecycleControl.TryBeginDrainableExternalWork` | crates/wxcd-worker/src/main.rs:569-612 | Grants a counted permit exactly when the gate is Active, or closed but not Activating and the work was received by the cutoff's millisecond. |
| `Lifecycle.AdmitsByReceipt` | crates/wxcd-worker/src/main.rs:569-612 | In instants: an open gate admits everything, a closed one all received by the cutoff and nothing received a millisecond or more after it, and an activating one nothing. |
| `Lifecycle.ClosingReadsClock` | crates/wxcd-worker/src/main.rs:390-533 | A quiesce or shutdown of an open gate takes its cutoff from the clock; a closed gate keeps the one it has. |
| `Lifecycle.LifecycleWorkPermit.Finish` | crates/wxcd-worker/src/main.rs:699-715 | Gives its slot back once however often it is finished or dropped, and notifies exactly on reaching zero. |
| `Cutoff.CutoffIsFixed` | crates/wxcd-worker/src/main.rs:390-542 | In every interleaving of quiesce, activation, cancel, shutdown and restore the cutoff never moves within a stretch of non-Active phases, if the restores made in it carry the generation just before the gate's. |
| `Cutoff.AdmittedByCutoff` | crates/wxcd-worker/src/main.rs:569-612 | Work admitted in such a stretch was received by that one cutoff's millisecond, and none is admitted while Activating, under the same condition. |
| `Cutoff.OnlyOpenerMatches` | crates/wxcd-worker/src/main.rs:519-542 | Of all values that `begin_shutdown` ever returned, exactly the one that opened the current shutdown meets that condition. |
| `Cutoff.CutoffMovesExactly` | crates/wxcd-worker/src/main.rs:390-542 | Over every run, whatever is restored, and with a clock that advances between closings: the cutoff changes within a closed stretch if and only if some step restores a Quiescing value handed out before the gate last left Active. |
| `Cutoff.UnmovedIsFixed` | crates/wxcd-worker/src/main.rs:390-542 | One half of it needs nothing of the clock: as long as no step restores such a value, the cutoff is fixed in every closed stretch. |
| `Shutdown.ProjectsToGateRun` | crates/wxcd-worker/src/main.rs:4815-4903 | Every run of the shutdown RPC tasks and the worker loop is a run of the gate: each restore passes the value its own request was given. |
| `Shutdown.RestoresMatch` | crates/wxcd-worker/src/main.rs:1083-1112 | While no request finds its answer deadline passed and its channel empty, every restore, by RPC task or worker, meets the condition. |
| `Shutdown.NeverLeftShut` | crates/wxcd-worker/src/main.rs:4815-4903 | In those runs no refused or failed shutdown leaves the gate shut: while it is in shutdown, a request is still to be decided or the worker has stopped. |
| `Shutdown.CutoffHolds` | crates/wxcd-worker/src/main.rs:390-612 | So in all such runs the cutoff is fixed while the gate is closed and bounds all work admitted meanwhile. |
| `Shutdown.CutoffMovesExactly` | crates/wxcd-worker/src/main.rs:4815-4903 | The same if-and-only-if for every run of the shutdown RPC tasks and the worker loop, given up or not. |
| `Shutdown.GivingUpMovesCutoff` | crates/wxcd-worker/src/main.rs:4815-4903 | A request that does give up can be restored twice, by its task and by the worker; a run of the callers, with the timeouts of the code and an advancing clock, then ends in a step that moves the cutoff of a later closed stretch back. |
| `Shutdown.StopsOnlyAfterFlush` | crates/wxcd-worker/src/main.rs:1098-1112 | The worker stops only after a response frame of the accepted shutdown was flushed, and that frame is the accepting one if and only if the RPC task had not given up. |
| `Drain.GenerationPinsGate` | crates/wxcd-worker/src/main.rs:390-542 | Generations never decrease along any interleaving, and an unchanged one means the whole gate is unchanged in between. |
| `Drain.CountSidecars` | crates/wxcd-worker/src/main.rs:4147-4282 | The count is zero exactly when every record could be read, is idle, and was last observed inactive in a later millisecond than the fence; one that was last observed by the fence keeps it positive, and a failed read adds one. |
| `Drain.CountRuntime` | crates/wxcd-worker/src/main.rs:4100-4134 | The total is zero exactly when all four reads are. |
| `Drain.PinnedGateDrains` | crates/wxcd-worker/src/main.rs:3250-3321 | A token current at issue and at the last check pins phase, generation and cutoff in between, and bounds what was admitted. |
| `Drain.HandleDrain` | crates/wxcd-worker/src/main.rs:3250-3321 | The worker answers `drained: true` if and only if its fallible steps succeed, ingress was zero at its first read, and the gate stood still in Quiescing throughout with all four counts read as zero; every sidecar read has then looked at the gate after the cutoff and after the receipt of all work admitted meanwhile. |
| `Drain.DrainRpc` | crates/wxcd-worker/src/main.rs:4745-4813 | The same for the whole RPC, from the token's issue to the last check. |
| `Permits.NeverUnderflows` | crates/wxcd-worker/src/main.rs:569-715 | In every interleaving the counter is the number of unfinished permits, and no decrement meets a zero. |
| `Permits.NoLostWakeUp` | crates/wxcd-worker/src/main.rs:618-632 | A parked waiter facing zero was woken or some finisher is about to notify, which wakes it; with all permits finished it was woken. |
| `Permits.ReturnsOnlyWhenDrained` | crates/wxcd-worker/src/main.rs:618-632 | A waiter returns only from a read at which no permit was unfinished. |
| `Permits.ReturnsWhenDrained` | crates/wxcd-worker/src/main.rs:618-632 | It does return from such a read, and parks otherwise. |
| `Unquiesce.OnlyWorkerLeavesActivating` | crates/wxcd-worker/src/main.rs:4353-4453 | The gate is Activating exactly while the worker holds a claim, which is then current and remembers the cutoff; no other task leaves Activating, and the worker goes to Active only by a commit, else back to Quiescing with its cutoff. |
| `Unquiesce.OpensOnlyAfterFlush` | crates/wxcd-worker/src/main.rs:1083-1133 | The gate opens by unquiesce only after a response frame of that request was flushed; that frame is the accepting one if and only if the RPC task had not given up, and always if the worker answered before the deadline and not between the task's two polls. |
| `Unquiesce.CommitOpens` | crates/wxcd-worker/src/main.rs:1113-1124 | A commit does open the gate, at that instant, and ends the pending startup if the claim was the startup's. |
| `Unquiesce.AcceptedIsHonest` | crates/wxcd-worker/src/main.rs:4353-4453 | A request is answered as accepted only with its claim held, current and startup done, or on a gate open to its own token. |
| `Unquiesce.PromptAnswerIsWritten` | crates/wxcd-worker/src/main.rs:5075-5125 | An answer sent before the deadline is what the RPC task writes, unless it lands between the task's look at its channel and its look at the clock. |
| `Unquiesce.LateAnswerOpensAfterErrorFrame` | crates/wxcd-worker/src/main.rs:5075-5125 | It can have given up, even on an answer sent before the deadline: a reachable run opens the gate after an error frame was flushed. |
| `Unquiesce.StartupOrder` | crates/wxcd-worker/src/main.rs:4376-4436 | Startup reconcile stops being pending only once it was completed, no deferred snapshot is outstanding, and the gate opens. |
| `WorkerLoop.WorkerLoop.HandleLifecycleUnquiesce` | crates/wxcd-worker/src/main.rs:4353-4453 | Hands out a current claim exactly when the token is the current quiesce, no deadline passed and startup work succeeds, else leaves the gate's phase and cutoff; says accepted exactly with a claim or to the current token of an open gate, answers an error exactly when startup work fails, and refuses expired and stale requests. |
| `WorkerLoop.WorkerLoop.PrepareStartup` | crates/wxcd-worker/src/main.rs:4376-4436 | Under a claim: reconcile once, then the deferred snapshot; a failure answers an error and an expiry a refusal, and both cancel the claim. |
| `WorkerLoop.WorkerLoop.UnquiesceArm` | crates/wxcd-worker/src/main.rs:1083-1133 | From Quiescing the gate opens exactly when the claim stands and its response was delivered and flushed, and only then does startup stop pending; the answers are those of the handler. |
| `Connection.Settled` | crates/wxcd-codex/src/lib.rs:305-332 | Along every interleaving a refused or answered request stays so with the same outcome, and the first close reason is kept. |
| `Connection.NoRequestHangs` | crates/wxcd-codex/src/lib.rs:440-497 | A request is answered exactly when exactly one send was made for it; once closed nothing is pending, and a late registration is refused. |
| `Connection.ToldFirstReason` | crates/wxcd-codex/src/lib.rs:484-497 | Whoever is told of a close is told the first reason. |
| `Connection.ConnectionState.Register` | crates/wxcd-codex/src/lib.rs:305-319 | Registers, or refuses with the close reason, in one locked step. |
| `Connection.ConnectionState.HandleResponse` | crates/wxcd-codex/src/lib.rs:440-462 | Answers exactly a pending id, once; anything else changes nothing. |
| `Connection.ConnectionState.CloseConnectionState` | crates/wxcd-codex/src/lib.rs:484-497 | Everything pending, in any order, is told the first reason; nothing else changes. |
| `Frames.DecodeUndoesEncode` | crates/wxcd-codex/src/lib.rs:771-875 | A legal frame, masked or not and in any of the three length forms (section 5.2 of RFC 6455), followed by any bytes, decodes to its own flag, opcode and payload and leaves those bytes. |
| `Frames.StreamRoundTrip` | crates/wxcd-codex/src/lib.rs:771-875 | So any concatenation of legal frames under any mask keys parses back frame by frame. |
| `Frames.FramesOfTheStandard` | crates/wxcd-codex/src/lib.rs:771-834 | The short text frames of section 5.7 of RFC 6455, masked, unmasked and fragmented, decode as it says. |
| `Frames.LongFramesOfTheStandard` | crates/wxcd-codex/src/lib.rs:785-805 | So do its binary messages of 256 bytes and of 64 KiB, with the two extended length forms. |
| `Frames.DecodedIsWithinLimits` | crates/wxcd-codex/src/lib.rs:806-815 | Nothing decodes that is over 16 MiB, or is a control frame cut or longer than 125 bytes. |
| `Frames.XorTwice` | crates/wxcd-codex/src/lib.rs:823-827 | Unmasking undoes masking (section 5.3 of RFC 6455). |
| `Frames.BigEndianRoundTrip` | crates/wxcd-codex/src/lib.rs:853-861 | The big-endian length fields read back, in every width that can hold the number. |
| `Frames.WriteFrame` | crates/wxcd-codex/src/lib.rs:840-875 | Refuses exactly oversized payloads and control payloads above 125 bytes; otherwise emits a legal final frame in the shortest length form under the given mask. |
| `Frames.ShortestForm` | crates/wxcd-codex/src/lib.rs:853-861 | The length form chosen holds the length and is no longer than any other form that does. |
| `Frames.UnmaskInPlace` | crates/wxcd-codex/src/lib.rs:823-827 | The in-place XOR loop over the payload buffer. |
| `Frames.ByteReader.ReadRawFrame` | crates/wxcd-codex/src/lib.rs:771-834 | The reader decodes what `Decode` says from the bytes to come, consumes exactly one frame, and fails as it does. |
| `Messages.Reassembled` | crates/wxcd-codex/src/lib.rs:728-769 | Within 16 MiB a text message cut into any fragments, begun before or not, is handed out whole after the pings and pongs between them, and reading goes on afresh (section 5.4 of RFC 6455). |
| `Messages.TooLargeFails` | crates/wxcd-codex/src/lib.rs:749-756 | Above 16 MiB no text is handed out: the reader fails after some of the pings and pongs. |
| `Messages.EndsReading` | crates/wxcd-codex/src/lib.rs:739-767 | A close frame ends the reading; a text within a text, a continuation of nothing and a cut frame of another kind fail it. |
| `Messages.GoesOnReading` | crates/wxcd-codex/src/lib.rs:762-766 | Pings, pongs and whole frames of other kinds are handed out and leave the partial text as it was. |
| `Messages.MessageRoundTrip` | crates/wxcd-codex/src/lib.rs:728-769 | A whole fragmented message, from nothing. |
| `Messages.WebSocketReader.ReadFrame` | crates/wxcd-codex/src/lib.rs:728-769 | Each call hands out the next event of the stream, with the partial text kept across calls never above 16 MiB whatever the peer sends. |
| `HistoryPages.SliceIsIdeal` | crates/wxcd-worker/src/main.rs:5815-5842 | Saturating 64-bit arithmetic agrees with ideal arithmetic for every page and page size. |
| `HistoryPages.LabelMatchesSlice` | crates/wxcd-render/src/lib.rs:229-235 | The "turns a-b" label of a non-empty page names exactly the positions it shows. |
| `HistoryPages.EmptyExactlyPastTheEnd` | crates/wxcd-render/src/lib.rs:221-227 | A page is empty if and only if it lies past the last page announced. |
| `HistoryPages.PagesPartition` | crates/wxcd-worker/src/main.rs:5828-5841 | From the last page to the first, the pages are all turns, each once, in order. |
| `HistoryMessages.JoinIsLossless` | crates/wxcd-render/src/lib.rs:454-470 | Joining the messages by blank lines is joining all their sections. |
| `HistoryMessages.GreedyIsOptimal` | crates/wxcd-render/src/lib.rs:454-470 | No order-preserving split whose messages are single sections or at most 3500 bytes uses fewer messages than a greedy one. |
| `HistoryMessages.RenderHistoryMessages` | crates/wxcd-render/src/lib.rs:435-471 | Behind the header, the body messages are such a split, lose nothing, and are as few as possible. |
| `HistoryMessages.SectionShowsTurn` | crates/wxcd-render/src/lib.rs:430-433 | A section begins with its turn's number and user text and ends with its answer. |
| `HistoryMessages.SectionsAreNumbered` | crates/wxcd-render/src/lib.rs:446-453 | There is one section a turn, in order, under the turn's own number from the starting one on. |
| `HistoryMessages.DecimalReadsBack` | crates/wxcd-render/src/lib.rs:432-432 | The number shown reads back. |
| `HistoryMessages.TruncatesExactly` | crates/wxcd-render/src/lib.rs:473-481 | A text up to the limit is shown as it is, a longer one as its first characters and an ellipsis. |
| `HistoryMessages.WidthIsLeast` | crates/wxcd-render/src/lib.rs:458-458 | The byte lengths compared are those of UTF-8: each character takes the fewest bytes that hold it. |
| `Lease.RefreshDelayBounds` | crates/wxcd-supervisor/src/main.rs:993-1001 | The delay fails exactly at the safety margin, is otherwise 1 to 30 s and as long as still ends a control timeout before expiry; the subtraction never underflows. |
| `Lease.RunLease` | crates/wxcd-supervisor/src/main.rs:873-945 | Over runs of any length each refresh, its timeout included, ends by the expiry last reported (plus the sleep's overrun), every sleep is at least 1 s, and every return follows a stop or reconnect-and-stop attempt. |
| `Lease.NextAttemptFollows` | crates/wxcd-supervisor/src/main.rs:881-918 | In the trace itself, each attempt starts one sleep after the attempt before ended, and its expiry and sleep are those of the seconds that one reported. |

## Left out

- Handlers.LogReplaysToLiveState: archiving logs no timestamp and streamed text is logged at turn end only, so the `updated_at` of archived sessions and the tail of a buffer are not compared; log appends, local snapshot writes and Webex sends are taken to succeed.
- Bridge.Start: the local snapshot, merged in afterwards or used instead when the room log cannot be replayed, is not part of it.
- Handlers.IndexesAlongRun: the startup merge and the handoff import are not steps of a run; their index guarantees are in the contracts of the methods that perform them.
- HandoffImport.ApplyWebexHandoffPayload: payload validation, sidecar files and rollback come before or after it and are not modelled; the in-flight list is reduced to its session ids.
- HandoffImport.ExportHandoffSnapshot: the mirror write, the sidecar state and the frame-size check are not modelled.
- EventLog.PagedReplay: pages are contiguous and full until exhausted; read errors of the room are not modelled.
- Drain.HandleDrain: the count that accompanies an incomplete answer is a later re-read and is not modelled; the loop that drains the Codex runtime is one step that succeeds or fails.
- Drain.CountSidecars: the sidecar records are read at one instant; whether a file is in scope, parses and belongs to a live process is decided before they reach the model.
- Drain.CountRuntime: the ingress and session counts are those of the instants at which they are read; nothing is claimed of them in between.
- Unquiesce.OnlyWorkerLeavesActivating: the RPC task is a set of steps and not a method, because any other task may act between two of its awaits.
- WorkerLoop.WorkerLoop.UnquiesceArm: runs without other tasks' steps in between; that they cannot touch a claimed gate is proved in `Unquiesce`. Delivery and flush are parameters.
- Permits.NoLostWakeUp: a waiter's timeout may fire at any step; nothing is said about when.
- Lifecycle.LifecycleControl.BeginQuiesce: generations are unbounded where the source wraps at 2^64, here as in the other mutators.
- Lifecycle.LifecycleWorkPermit.Finish: the atomic decrement is one step here; its interleavings are in `Permits`.
- Connection.ConnectionState.CloseConnectionState: runs to its end here; the interleavings of its sends with other tasks are in the relation. Request ids are unbounded.
- Lease.RunLease: a run is any finite prefix of the loop's turns; a sleep may overrun, by an amount that stays visible in the bound, and a timed-out call is taken to end on time.
- HistoryMessages.RenderHistoryMessages: the header's own text is a parameter.
- Session profile fields, web links and event timestamps: carried along by the program, never decided on.
- Shutdown.CutoffHolds: the counts that decide whether the worker accepts a shutdown are not read; it may accept or refuse at will. Unquiesces appear as the claim, commit and cancel of the worker loop.
- The health check and the plugin manifest: shallow branches around the same gate.
- The length-prefixed RPC codec: an easier codec than the WebSocket one.
- The WebSocket handshake, SHA-1, base64 and FNV: a specification would restate the code.
- JSON, configuration, command texts, cards, the Webex REST client and the Python scripts: formatting and plumbing.
- Processes, sockets, files and clocks: outcomes and clock readings are parameters.
