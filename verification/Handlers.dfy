/**
 The session handlers as transitions of the store together with its log, and the proof that replaying
 the log gives back the live state after every run (wxcd-worker/src/main.rs, `handle_session_message`
 to `persist_snapshot`). Appends, local snapshot writes and Webex sends succeed; a handler that gives
 up before it touches the state is `Refused`.
 */
module Handlers {
  import opened Wrappers
  import opened Model
  import opened SessionStore
  import opened EventLog
  import Dedupe

  datatype World = World(store: Store, log: seq<Message>)

  // ---- Persisting ----

  ghost predicate PersistedSnapshot(w: World, w2: World) {
    && w2.store == w.store.(eventsSince := 0)
    && |w2.log| == |w.log| + 1 && w2.log[..|w.log|] == w.log
    && w2.log[|w.log|].SnapshotMessage?
    && IsSnapshotOf(w2.log[|w.log|].snapshot, w.store.sessions, w.store.approvals)
  }

  ghost predicate PersistedEvent(w: World, e: BridgeEvent, interval: nat, w2: World) {
    var logged := World(w.store.(eventsSince := w.store.eventsSince + 1), w.log + [EventMessage(e)]);
    if logged.store.eventsSince >= interval then PersistedSnapshot(logged, w2) else w2 == logged
  }

  // ---- What the handlers do to a session ----

  datatype Probe = Readable(message: string) | Unusable(kind: FailureKind, message: string)

  function ApplyThreadProbe(s: SessionRecord, p: Probe, at: int): Option<SessionRecord> {
    if IsArchived(s) then None
    else match p
      case Readable(message) =>
        if s.failure.None? && s.state != Failed then None
        else Some(s.(failure := None, state := if s.state == Failed then Idle else s.state,
                     lastCheckpoint := Some(message), updatedAt := at))
      case Unusable(kind, message) =>
        if s.state == Failed && s.failure.Some? && s.failure.value.kind == kind && s.failure.value.message == message
        then None
        else Some(s.(state := Failed, failure := Some(SessionFailure(kind, message, at)),
                     lastCheckpoint := Some(message), updatedAt := at))
  }

  datatype ThreadStatus = ActiveStatus | IdleStatus | OtherStatus

  function StateForStatus(s: SessionRecord, status: ThreadStatus): SessionState {
    match status
    case ActiveStatus => Running
    case IdleStatus => if s.archived then Archived else if s.lastFinal.Some? then Completed else Idle
    case OtherStatus => Idle
  }

  /** Handlers that change one record and log it as updated. */
  datatype Edit =
    | Resume(id: string)
    | Pause(id: string)
    | SubmitTurn(id: string, submitted: Option<string>, checkpoint: string)
    | ProbeThread(id: string, probe: Probe)
    | StatusChanged(thread: string, status: ThreadStatus)
    | TurnStarted(thread: string, turn: string)
    | TurnCompleted(thread: string)

  /** The session an edit is about: named by its id, or found through the thread index. */
  function Target(st: Store, edit: Edit): Option<SessionRecord> {
    match edit
    case StatusChanged(thread, _) => ByThread(st, thread)
    case TurnStarted(thread, _) => ByThread(st, thread)
    case TurnCompleted(thread) => ByThread(st, thread)
    case _ => Lookup(st.sessions, edit.id)
  }

  function ByThread(st: Store, thread: string): Option<SessionRecord> {
    if thread in st.threads then Lookup(st.sessions, st.threads[thread]) else None
  }

  function Edited(s: SessionRecord, edit: Edit, now: int): Option<SessionRecord> {
    match edit
    case Resume(_) => Some(s.(failure := None, state := Idle, updatedAt := now))
    case Pause(_) => if s.state == Failed then None else Some(s.(state := Paused, updatedAt := now))
    case SubmitTurn(_, turn, checkpoint) =>
      if s.state == Failed then None
      else Some(s.(activeTurn := turn, failure := None, buffer := "", lastCheckpoint := Some(checkpoint),
                   state := Running, updatedAt := now))
    case ProbeThread(_, probe) => ApplyThreadProbe(s, probe, now)
    case StatusChanged(_, status) => Some(s.(state := StateForStatus(s, status), failure := None, updatedAt := now))
    case TurnStarted(_, turn) =>
      Some(s.(activeTurn := Some(turn), failure := None, buffer := "", state := Running, updatedAt := now))
    case TurnCompleted(_) =>
      Some(s.(state := Completed, failure := None, lastFinal := Some(Dedupe.Trim(s.buffer)), activeTurn := None,
              updatedAt := now))
  }

  function EditOf(st: Store, edit: Edit, now: int): Option<SessionRecord> {
    match Target(st, edit)
    case None => None
    case Some(s) => Edited(s, edit, now)
  }

  datatype NewSession = NewSession(id: string, title: string, room: string, thread: string, checkpoint: string)

  function Created(n: NewSession, inst: string, now: int): SessionRecord {
    SessionRecord(n.id, n.title, n.room, n.thread, None, Creating, Some(n.checkpoint), None, None, "", now, false,
                  None, Some(inst), Some(LocalMirror(inst, now)))
  }

  // ---- One handler ----

  datatype Op =
    | Refused
    | EditSession(edit: Edit)
    | CreateSession(session: NewSession, overview: string, readyAt: int)
    | AppendDelta(thread: string, delta: string)
    | RequestApproval(approval: PendingApproval, card: string)
    | ResolveApproval(approvalId: string, decision: ApprovalDecision)
    | ArchiveSession(id: string)
    | PurgeSession(id: string)
    | Checkpoint

  ghost predicate Updated(w: World, s: SessionRecord, interval: nat, w2: World) {
    PersistedEvent(World(Upsert(w.store, s), w.log), SessionUpdated(s), interval, w2)
  }

  ghost predicate MaybeUpdated(w: World, s: Option<SessionRecord>, interval: nat, w2: World) {
    if s.None? then w2 == w else Updated(w, s.value, interval, w2)
  }

  function WithApproval(st: Store, a: PendingApproval): Store {
    st.(approvals := st.approvals[a.id := a])
  }

  function WithoutApproval(st: Store, id: string): Store {
    st.(approvals := st.approvals - {id})
  }

  function RunningRecord(s: SessionRecord, now: int): SessionRecord {
    s.(state := Running, failure := None, updatedAt := now)
  }

  ghost predicate Resolved(w: World, id: string, decision: ApprovalDecision, interval: nat, mid: World)
    requires id in w.store.approvals
  {
    PersistedEvent(World(WithoutApproval(w.store, id), w.log),
                   ApprovalResolved(id, w.store.approvals[id].session, decision), interval, mid)
  }

  function ArchivedRecord(s: SessionRecord, now: int): SessionRecord {
    s.(archived := true, state := Archived, updatedAt := now)
  }

  function ArchivedStore(st: Store, id: string, now: int): Store
    requires id in st.sessions
  {
    var st' := Upsert(st, ArchivedRecord(st.sessions[id], now));
    st'.(approvals := WithoutSession(st'.approvals, id))
  }

  predicate Purgeable(st: Store, id: string, inst: string) {
    id in st.sessions && BelongsTo(st.sessions[id], inst) && IsArchived(st.sessions[id])
  }

  ghost predicate Step(w: World, op: Op, inst: string, now: int, interval: nat, w2: World) {
    match op
    case Refused => w2 == w
    case EditSession(edit) => MaybeUpdated(w, EditOf(w.store, edit, now), interval, w2)
    case CreateSession(n, overview, readyAt) =>
      var s := Created(n, inst, now);
      exists mid ::
        && PersistedEvent(World(Upsert(w.store, s), w.log), SessionCreated(s), interval, mid)
        && Updated(mid, s.(overview := Some(overview), state := Idle, updatedAt := readyAt), interval, w2)
    case AppendDelta(thread, delta) =>
      (match ByThread(w.store, thread)
       case None => w2 == w
       case Some(s) =>
         w2 == World(w.store.(sessions := w.store.sessions[s.id := s.(buffer := s.buffer + delta)]), w.log))
    case RequestApproval(a, card) =>
      if a.thread !in w.store.threads || a.session != w.store.threads[a.thread] || a.session !in w.store.sessions
      then w2 == w
      else
        var sent := a.(card := Some(card));
        var waiting := w.store.sessions[a.session].(state := WaitingApproval, updatedAt := now);
        exists mid ::
          && Updated(World(WithApproval(w.store, sent), w.log), waiting, interval, mid)
          && PersistedEvent(mid, ApprovalRequested(sent), interval, w2)
    case ResolveApproval(id, decision) =>
      if id !in w.store.approvals then w2 == w
      else
        var session := w.store.approvals[id].session;
        exists mid ::
          && Resolved(w, id, decision, interval, mid)
          && (if session !in mid.store.sessions then w2 == mid
              else Updated(mid, RunningRecord(mid.store.sessions[session], now), interval, w2))
    case ArchiveSession(id) =>
      if id !in w.store.sessions then w2 == w
      else PersistedEvent(World(ArchivedStore(w.store, id, now), w.log), SessionArchived(id), interval, w2)
    case PurgeSession(id) =>
      if !Purgeable(w.store, id, inst) then w2 == w
      else
        exists mid ::
          && PersistedEvent(World(Remove(w.store, id), w.log), SessionPurged(id), interval, mid)
          && PersistedSnapshot(mid, w2)
    case Checkpoint => PersistedSnapshot(w, w2)
  }

  // ---- The log replays to the live state ----

  /** What a replay cannot know: when a session was archived, and the text streamed since its last event. */
  function Erase(s: SessionRecord): SessionRecord {
    s.(updatedAt := if IsArchived(s) then 0 else s.updatedAt, buffer := "")
  }

  predicate Echoes(live: SessionRecord, replayed: SessionRecord) {
    Erase(live) == Erase(replayed) && replayed.buffer <= live.buffer
  }

  ghost predicate EchoesAll(live: Sessions, replayed: Sessions) {
    live.Keys == replayed.Keys && forall id :: id in live ==> Echoes(live[id], replayed[id])
  }

  /** Same sessions, up to the time of archiving and a tail of streamed text; same approvals. */
  ghost predicate Agree(live: Store, replayed: ReplayState) {
    && EchoesAll(live.sessions, replayed.sessions)
    && live.approvals == replayed.approvals
    && KeyedById(live.sessions, live.approvals)
  }

  ghost predicate Synced(w: World) {
    Agree(w.store, Replay(w.log)) && w.store.eventsSince == Replay(w.log).eventsSince
  }

  lemma EchoesUpdate(a: Sessions, b: Sessions, s: SessionRecord, t: SessionRecord)
    requires EchoesAll(a, b) && Echoes(s, t) && s.id == t.id
    ensures EchoesAll(a[s.id := s], b[t.id := t])
  {
  }

  lemma EchoesRemoval(a: Sessions, b: Sessions, id: string)
    requires EchoesAll(a, b)
    ensures EchoesAll(a - {id}, b - {id})
  {
  }

  lemma PersistedSnapshotSyncs(w: World, w2: World)
    requires KeyedById(w.store.sessions, w.store.approvals) && PersistedSnapshot(w, w2)
    ensures Synced(w2)
  {
    SnapshotRoundTrip(w2.log[|w.log|].snapshot, w.store.sessions, w.store.approvals);
    assert w2.log[..|w2.log| - 1] == w.log;
  }

  /** Logging an event syncs a store that agrees with the log as soon as the event is applied. */
  lemma PersistedEventSyncs(w: World, e: BridgeEvent, interval: nat, w2: World)
    requires Agree(w.store, ApplyEvent(Replay(w.log), e))
    requires w.store.eventsSince == Replay(w.log).eventsSince
    requires PersistedEvent(w, e, interval, w2)
    ensures Synced(w2)
    ensures w2.store == w.store.(eventsSince := w2.store.eventsSince)
    ensures interval > 0 ==> w2.store.eventsSince < interval
  {
    var logged := World(w.store.(eventsSince := w.store.eventsSince + 1), w.log + [EventMessage(e)]);
    assert logged.log[..|logged.log| - 1] == w.log;
    if logged.store.eventsSince >= interval {
      PersistedSnapshotSyncs(logged, w2);
    }
  }

  lemma UpdatedSyncs(w: World, s: SessionRecord, interval: nat, w2: World)
    requires Synced(w) && Updated(w, s, interval, w2)
    ensures Synced(w2) && w2.store == Upsert(w.store, s).(eventsSince := w2.store.eventsSince)
    ensures interval > 0 ==> w2.store.eventsSince < interval
  {
    EchoesUpdate(w.store.sessions, Replay(w.log).sessions, s, s);
    PersistedEventSyncs(World(Upsert(w.store, s), w.log), SessionUpdated(s), interval, w2);
  }

  lemma CreateSyncs(w: World, n: NewSession, overview: string, readyAt: int, inst: string, now: int, interval: nat,
                    w2: World)
    requires Synced(w) && Step(w, CreateSession(n, overview, readyAt), inst, now, interval, w2)
    ensures Synced(w2) && (interval > 0 ==> w2.store.eventsSince < interval)
  {
    var s := Created(n, inst, now);
    var mid :| && PersistedEvent(World(Upsert(w.store, s), w.log), SessionCreated(s), interval, mid)
               && Updated(mid, s.(overview := Some(overview), state := Idle, updatedAt := readyAt), interval, w2);
    EchoesUpdate(w.store.sessions, Replay(w.log).sessions, s, s);
    PersistedEventSyncs(World(Upsert(w.store, s), w.log), SessionCreated(s), interval, mid);
    UpdatedSyncs(mid, s.(overview := Some(overview), state := Idle, updatedAt := readyAt), interval, w2);
  }

  lemma DeltaSyncs(w: World, thread: string, delta: string, inst: string, now: int, interval: nat, w2: World)
    requires Synced(w) && Step(w, AppendDelta(thread, delta), inst, now, interval, w2)
    ensures Synced(w2)
  {
    var s := ByThread(w.store, thread);
    if s.Some? {
      var id, replayed := s.value.id, Replay(w.log).sessions;
      ReplayKeyedById(w.log);
      EchoesUpdate(w.store.sessions, replayed, s.value.(buffer := s.value.buffer + delta), replayed[id]);
      assert replayed[id := replayed[id]] == replayed;
    }
  }

  /**
   An approval is pending in the store before it is logged. Logging another event in between is fine: an
   automatic snapshot already holds the approval, and without one only the approval is missing.
   */
  lemma LoggedBeforeApproval(w: World, s: SessionRecord, sent: PendingApproval, interval: nat, mid: World)
    requires Synced(w) && Updated(World(WithApproval(w.store, sent), w.log), s, interval, mid)
    ensures Agree(mid.store, ApplyEvent(Replay(mid.log), ApprovalRequested(sent)))
    ensures mid.store.eventsSince == Replay(mid.log).eventsSince
  {
    var st := Upsert(WithApproval(w.store, sent), s);
    var logged := World(st.(eventsSince := st.eventsSince + 1), w.log + [EventMessage(SessionUpdated(s))]);
    if logged.store.eventsSince >= interval {
      PersistedSnapshotSyncs(logged, mid);
      ReapplyRequested(mid.store, Replay(mid.log), sent);
    } else {
      UnsnapshottedBeforeApproval(w, s, sent, mid);
    }
  }

  lemma UnsnapshottedBeforeApproval(w: World, s: SessionRecord, sent: PendingApproval, mid: World)
    requires Synced(w)
    requires var st := Upsert(WithApproval(w.store, sent), s);
             mid == World(st.(eventsSince := st.eventsSince + 1), w.log + [EventMessage(SessionUpdated(s))])
    ensures Agree(mid.store, ApplyEvent(Replay(mid.log), ApprovalRequested(sent)))
    ensures mid.store.eventsSince == Replay(mid.log).eventsSince
  {
    assert mid.log[..|mid.log| - 1] == w.log;
    UpdatedThenRequested(w.store, Replay(w.log), s, sent);
  }

  lemma UpdatedThenRequested(live: Store, replayed: ReplayState, s: SessionRecord, sent: PendingApproval)
    requires Agree(live, replayed)
    ensures Agree(Upsert(WithApproval(live, sent), s),
                  ApplyEvent(ApplyEvent(replayed, SessionUpdated(s)), ApprovalRequested(sent)))
  {
    EchoesUpdate(live.sessions, replayed.sessions, s, s);
  }

  lemma ReapplyRequested(st: Store, replayed: ReplayState, sent: PendingApproval)
    requires Agree(st, replayed) && sent.id in st.approvals && st.approvals[sent.id] == sent
    ensures Agree(st, ApplyEvent(replayed, ApprovalRequested(sent)))
  {
    assert st.approvals[sent.id := sent] == st.approvals;
  }

  lemma RequestSyncs(w: World, a: PendingApproval, card: string, inst: string, now: int, interval: nat, w2: World)
    requires Synced(w) && Step(w, RequestApproval(a, card), inst, now, interval, w2) && w2 != w
    ensures Synced(w2) && (interval > 0 ==> w2.store.eventsSince < interval)
  {
    var sent := a.(card := Some(card));
    var waiting := w.store.sessions[a.session].(state := WaitingApproval, updatedAt := now);
    var mid :| && Updated(World(WithApproval(w.store, sent), w.log), waiting, interval, mid)
               && PersistedEvent(mid, ApprovalRequested(sent), interval, w2);
    LoggedBeforeApproval(w, waiting, sent, interval, mid);
    PersistedEventSyncs(mid, ApprovalRequested(sent), interval, w2);
  }

  lemma ResolvedSyncs(w: World, id: string, decision: ApprovalDecision, interval: nat, mid: World)
    requires Synced(w) && id in w.store.approvals && Resolved(w, id, decision, interval, mid)
    ensures Synced(mid) && (interval > 0 ==> mid.store.eventsSince < interval)
  {
    var e := ApprovalResolved(id, w.store.approvals[id].session, decision);
    assert Agree(WithoutApproval(w.store, id), ApplyEvent(Replay(w.log), e));
    PersistedEventSyncs(World(WithoutApproval(w.store, id), w.log), e, interval, mid);
  }

  lemma ResolveSyncs(w: World, id: string, decision: ApprovalDecision, inst: string, now: int, interval: nat, w2: World)
    requires Synced(w) && Step(w, ResolveApproval(id, decision), inst, now, interval, w2) && w2 != w
    ensures Synced(w2) && (interval > 0 ==> w2.store.eventsSince < interval)
  {
    var session := w.store.approvals[id].session;
    var mid :| && Resolved(w, id, decision, interval, mid)
               && (if session !in mid.store.sessions then w2 == mid
                   else Updated(mid, RunningRecord(mid.store.sessions[session], now), interval, w2));
    ResolvedSyncs(w, id, decision, interval, mid);
    if session in mid.store.sessions {
      UpdatedSyncs(mid, RunningRecord(mid.store.sessions[session], now), interval, w2);
    }
  }

  lemma RemoveAgrees(live: Store, replayed: ReplayState, id: string)
    requires Agree(live, replayed) && id in live.sessions
    ensures Agree(Remove(live, id), ApplyEvent(replayed, SessionPurged(id)))
  {
    EchoesRemoval(live.sessions, replayed.sessions, id);
  }

  lemma ArchiveAgrees(live: Store, replayed: ReplayState, id: string, now: int)
    requires Agree(live, replayed) && id in live.sessions && KeyedById(replayed.sessions, replayed.approvals)
    ensures Agree(ArchivedStore(live, id, now), ApplyEvent(replayed, SessionArchived(id)))
  {
    EchoesUpdate(live.sessions, replayed.sessions, ArchivedRecord(live.sessions[id], now),
                replayed.sessions[id].(archived := true, state := Archived));
  }

  lemma ArchiveSyncs(w: World, id: string, inst: string, now: int, interval: nat, w2: World)
    requires Synced(w) && Step(w, ArchiveSession(id), inst, now, interval, w2) && w2 != w
    ensures Synced(w2) && (interval > 0 ==> w2.store.eventsSince < interval)
  {
    ReplayKeyedById(w.log);
    ArchiveAgrees(w.store, Replay(w.log), id, now);
    PersistedEventSyncs(World(ArchivedStore(w.store, id, now), w.log), SessionArchived(id), interval, w2);
  }

  lemma PurgeSyncs(w: World, id: string, inst: string, now: int, interval: nat, w2: World)
    requires Synced(w) && Step(w, PurgeSession(id), inst, now, interval, w2) && w2 != w
    ensures Synced(w2) && (interval > 0 ==> w2.store.eventsSince < interval)
  {
    var mid :| && PersistedEvent(World(Remove(w.store, id), w.log), SessionPurged(id), interval, mid)
               && PersistedSnapshot(mid, w2);
    RemoveAgrees(w.store, Replay(w.log), id);
    PersistedEventSyncs(World(Remove(w.store, id), w.log), SessionPurged(id), interval, mid);
    PersistedSnapshotSyncs(mid, w2);
  }

  /** Every handler keeps the log in step with the store, and leaves the snapshot counter below the interval. */
  lemma StepSyncs(w: World, op: Op, inst: string, now: int, interval: nat, w2: World)
    requires Synced(w) && Step(w, op, inst, now, interval, w2)
    ensures Synced(w2)
    ensures interval > 0 && w2.log != w.log ==> w2.store.eventsSince < interval
  {
    match op
    case Refused =>
    case EditSession(edit) =>
      var s := EditOf(w.store, edit, now);
      if s.Some? {
        UpdatedSyncs(w, s.value, interval, w2);
      }
    case CreateSession(n, overview, readyAt) => CreateSyncs(w, n, overview, readyAt, inst, now, interval, w2);
    case AppendDelta(thread, delta) => DeltaSyncs(w, thread, delta, inst, now, interval, w2);
    case RequestApproval(a, card) => if w2 != w { RequestSyncs(w, a, card, inst, now, interval, w2); }
    case ResolveApproval(id, decision) => if w2 != w { ResolveSyncs(w, id, decision, inst, now, interval, w2); }
    case ArchiveSession(id) => if w2 != w { ArchiveSyncs(w, id, inst, now, interval, w2); }
    case PurgeSession(id) => if w2 != w { PurgeSyncs(w, id, inst, now, interval, w2); }
    case Checkpoint => PersistedSnapshotSyncs(w, w2);
  }

  datatype Call = Call(op: Op, now: int)

  ghost predicate StepAt(run: seq<World>, calls: seq<Call>, inst: string, interval: nat, i: nat)
    requires i < |calls| && |run| == |calls| + 1
  {
    Step(run[i], calls[i].op, inst, calls[i].now, interval, run[i + 1])
  }

  ghost predicate IsRun(run: seq<World>, calls: seq<Call>, inst: string, interval: nat) {
    && |run| == |calls| + 1
    && forall i: nat :: i < |calls| ==> StepAt(run, calls, inst, interval, i)
  }

  /** After any run of handlers, replaying the log gives the live sessions and approvals (`Agree`). */
  lemma {:induction false} LogReplaysToLiveState(run: seq<World>, calls: seq<Call>, inst: string, interval: nat, k: nat)
    requires IsRun(run, calls, inst, interval) && Synced(run[0]) && k < |run|
    ensures Synced(run[k])
    ensures interval > 0 && k > 0 && run[k].log != run[k - 1].log ==> run[k].store.eventsSince < interval
  {
    if k > 0 {
      LogReplaysToLiveState(run, calls, inst, interval, k - 1);
      assert StepAt(run, calls, inst, interval, k - 1);
      StepSyncs(run[k - 1], calls[k - 1].op, inst, calls[k - 1].now, interval, run[k]);
    }
  }

  // ---- How sync comes back ----

  ghost predicate Keyed(w: World) {
    KeyedById(w.store.sessions, w.store.approvals)
  }

  /** The step from `w` to `w2` has logged a snapshot. */
  ghost predicate Snapshots(w: World, w2: World) {
    |w.log| <= |w2.log| && exists i :: |w.log| <= i < |w2.log| && w2.log[i].SnapshotMessage?
  }

  lemma EventResyncs(w: World, e: BridgeEvent, interval: nat, w2: World)
    requires Keyed(w) && PersistedEvent(w, e, interval, w2)
    ensures Keyed(w2) && w2.store == w.store.(eventsSince := w2.store.eventsSince) && |w.log| <= |w2.log|
    ensures Snapshots(w, w2) ==> Synced(w2)
  {
    var logged := World(w.store.(eventsSince := w.store.eventsSince + 1), w.log + [EventMessage(e)]);
    if logged.store.eventsSince >= interval {
      PersistedSnapshotSyncs(logged, w2);
    }
  }

  /** Two steps log a snapshot if one of them does. */
  lemma EitherSnapshots(w: World, mid: World, w2: World)
    requires |w.log| <= |mid.log| <= |w2.log| && mid.log == w2.log[..|mid.log|] && Snapshots(w, w2)
    ensures Snapshots(w, mid) || Snapshots(mid, w2)
  {
    var i :| |w.log| <= i < |w2.log| && w2.log[i].SnapshotMessage?;
    assert i < |mid.log| ==> mid.log[i] == w2.log[i];
  }

  lemma EventAppends(w: World, e: BridgeEvent, interval: nat, w2: World)
    requires PersistedEvent(w, e, interval, w2)
    ensures |w.log| <= |w2.log| && w.log == w2.log[..|w.log|]
  {
    var logged := World(w.store.(eventsSince := w.store.eventsSince + 1), w.log + [EventMessage(e)]);
    assert logged.log[..|w.log|] == w.log;
    if logged.store.eventsSince >= interval {
      assert w2.log[..|w.log|] == w2.log[..|logged.log|][..|w.log|];
    }
  }

  /** An event and then an updated record, when the event's own step may have logged a snapshot. */
  lemma UpdateResyncs(w: World, mid: World, s: SessionRecord, interval: nat, w2: World)
    requires Keyed(mid) && |w.log| <= |mid.log| && (Snapshots(w, mid) ==> Synced(mid))
    requires Updated(mid, s, interval, w2)
    ensures Keyed(w2) && |w.log| <= |w2.log| && (Snapshots(w, w2) ==> Synced(w2))
  {
    var start := World(Upsert(mid.store, s), mid.log);
    EventResyncs(start, SessionUpdated(s), interval, w2);
    EventAppends(start, SessionUpdated(s), interval, w2);
    if Snapshots(w, w2) {
      EitherSnapshots(w, mid, w2);
      if Snapshots(w, mid) {
        UpdatedSyncs(mid, s, interval, w2);
      }
    }
  }

  lemma CreateResyncs(w: World, n: NewSession, overview: string, readyAt: int, inst: string, now: int, interval: nat,
                      w2: World)
    requires Keyed(w) && Step(w, CreateSession(n, overview, readyAt), inst, now, interval, w2)
    ensures Keyed(w2) && |w.log| <= |w2.log| && (Snapshots(w, w2) ==> Synced(w2))
  {
    var s := Created(n, inst, now);
    var ready := s.(overview := Some(overview), state := Idle, updatedAt := readyAt);
    var start := World(Upsert(w.store, s), w.log);
    var mid :| PersistedEvent(start, SessionCreated(s), interval, mid) && Updated(mid, ready, interval, w2);
    EventResyncs(start, SessionCreated(s), interval, mid);
    UpdateResyncs(w, mid, ready, interval, w2);
  }

  lemma ResolvedResyncs(w: World, id: string, decision: ApprovalDecision, interval: nat, mid: World)
    requires Keyed(w) && id in w.store.approvals && Resolved(w, id, decision, interval, mid)
    ensures Keyed(mid) && |w.log| <= |mid.log| && (Snapshots(w, mid) ==> Synced(mid))
  {
    var e := ApprovalResolved(id, w.store.approvals[id].session, decision);
    EventResyncs(World(WithoutApproval(w.store, id), w.log), e, interval, mid);
  }

  lemma ResolveResyncs(w: World, id: string, decision: ApprovalDecision, inst: string, now: int, interval: nat,
                       w2: World)
    requires Keyed(w) && Step(w, ResolveApproval(id, decision), inst, now, interval, w2) && w2 != w
    ensures Keyed(w2) && |w.log| <= |w2.log| && (Snapshots(w, w2) ==> Synced(w2))
  {
    var session := w.store.approvals[id].session;
    var mid :| && Resolved(w, id, decision, interval, mid)
               && (if session !in mid.store.sessions then w2 == mid
                   else Updated(mid, RunningRecord(mid.store.sessions[session], now), interval, w2));
    ResolvedResyncs(w, id, decision, interval, mid);
    if session in mid.store.sessions {
      UpdateResyncs(w, mid, RunningRecord(mid.store.sessions[session], now), interval, w2);
    }
  }

  lemma RequestResyncs(w: World, a: PendingApproval, card: string, inst: string, now: int, interval: nat, w2: World)
    requires Keyed(w) && Step(w, RequestApproval(a, card), inst, now, interval, w2) && w2 != w
    ensures Keyed(w2) && |w.log| <= |w2.log| && (Snapshots(w, w2) ==> Synced(w2))
  {
    var sent := a.(card := Some(card));
    var waiting := w.store.sessions[a.session].(state := WaitingApproval, updatedAt := now);
    var start := World(WithApproval(w.store, sent), w.log);
    var mid :| Updated(start, waiting, interval, mid) && PersistedEvent(mid, ApprovalRequested(sent), interval, w2);
    EventResyncs(World(Upsert(start.store, waiting), w.log), SessionUpdated(waiting), interval, mid);
    EventResyncs(mid, ApprovalRequested(sent), interval, w2);
    EventAppends(mid, ApprovalRequested(sent), interval, w2);
    if Snapshots(w, w2) {
      EitherSnapshots(w, mid, w2);
      if Snapshots(w, mid) {
        ReapplyRequested(mid.store, Replay(mid.log), sent);
        PersistedEventSyncs(mid, ApprovalRequested(sent), interval, w2);
      }
    }
  }

  lemma PurgeResyncs(w: World, id: string, inst: string, now: int, interval: nat, w2: World)
    requires Keyed(w) && Step(w, PurgeSession(id), inst, now, interval, w2) && w2 != w
    ensures Keyed(w2) && |w.log| <= |w2.log| && Synced(w2)
  {
    var mid :| && PersistedEvent(World(Remove(w.store, id), w.log), SessionPurged(id), interval, mid)
               && PersistedSnapshot(mid, w2);
    EventResyncs(World(Remove(w.store, id), w.log), SessionPurged(id), interval, mid);
    PersistedSnapshotSyncs(mid, w2);
  }

  /** Whatever the log holds: the handler that logs the next snapshot leaves it in step with the store. */
  lemma StepResyncs(w: World, op: Op, inst: string, now: int, interval: nat, w2: World)
    requires Keyed(w) && Step(w, op, inst, now, interval, w2)
    ensures Keyed(w2) && |w.log| <= |w2.log| && (Snapshots(w, w2) ==> Synced(w2))
  {
    match op
    case Refused =>
    case EditSession(edit) =>
      var s := EditOf(w.store, edit, now);
      if s.Some? {
        EventResyncs(World(Upsert(w.store, s.value), w.log), SessionUpdated(s.value), interval, w2);
      }
    case CreateSession(n, overview, readyAt) => CreateResyncs(w, n, overview, readyAt, inst, now, interval, w2);
    case AppendDelta(thread, delta) =>
    case RequestApproval(a, card) => if w2 != w { RequestResyncs(w, a, card, inst, now, interval, w2); }
    case ResolveApproval(id, decision) => if w2 != w { ResolveResyncs(w, id, decision, inst, now, interval, w2); }
    case ArchiveSession(id) =>
      if w2 != w {
        EventResyncs(World(ArchivedStore(w.store, id, now), w.log), SessionArchived(id), interval, w2);
      }
    case PurgeSession(id) => if w2 != w { PurgeResyncs(w, id, inst, now, interval, w2); }
    case Checkpoint => PersistedSnapshotSyncs(w, w2);
  }

  lemma {:induction false} RunKeepsKeyed(run: seq<World>, calls: seq<Call>, inst: string, interval: nat, k: nat)
    requires IsRun(run, calls, inst, interval) && Keyed(run[0]) && k < |run|
    ensures Keyed(run[k])
  {
    if k > 0 {
      RunKeepsKeyed(run, calls, inst, interval, k - 1);
      assert StepAt(run, calls, inst, interval, k - 1);
      StepResyncs(run[k - 1], calls[k - 1].op, inst, calls[k - 1].now, interval, run[k]);
    }
  }

  lemma {:induction false} StaysSynced(run: seq<World>, calls: seq<Call>, inst: string, interval: nat, i: nat, k: nat)
    requires IsRun(run, calls, inst, interval) && i <= k < |run| && Synced(run[i])
    ensures Synced(run[k])
  {
    if i < k {
      StaysSynced(run, calls, inst, interval, i, k - 1);
      assert StepAt(run, calls, inst, interval, k - 1);
      StepSyncs(run[k - 1], calls[k - 1].op, inst, calls[k - 1].now, interval, run[k]);
    }
  }

  lemma SnapshotStepSyncs(run: seq<World>, calls: seq<Call>, inst: string, interval: nat, i: nat)
    requires IsRun(run, calls, inst, interval) && Keyed(run[0]) && i < |calls| && Snapshots(run[i], run[i + 1])
    ensures Synced(run[i + 1])
  {
    RunKeepsKeyed(run, calls, inst, interval, i);
    assert StepAt(run, calls, inst, interval, i);
    StepResyncs(run[i], calls[i].op, inst, calls[i].now, interval, run[i + 1]);
  }

  /** So a store changed without logging, as by a handoff import, is in step again from the next snapshot on. */
  lemma SyncedFromNextSnapshot(run: seq<World>, calls: seq<Call>, inst: string, interval: nat, i: nat, k: nat)
    requires IsRun(run, calls, inst, interval) && Keyed(run[0]) && i < k < |run|
    requires Snapshots(run[i], run[i + 1])
    ensures Synced(run[k])
  {
    SnapshotStepSyncs(run, calls, inst, interval, i);
    StaysSynced(run, calls, inst, interval, i + 1, k);
  }

  // ---- The indexes along a run ----

  ghost predicate Routed(st: Store, distinct: bool) {
    IndexesSound(st) && (distinct ==> IndexesRebuilt(st))
  }

  lemma UpdatedRouted(w: World, s: SessionRecord, interval: nat, w2: World, distinct: bool)
    requires Routed(w.store, distinct) && (distinct ==> Distinct(w.store.sessions))
    requires Updated(w, s, interval, w2)
    ensures Routed(w2.store, distinct) && w2.store.sessions == w.store.sessions[s.id := s]
  {
    UpsertIndexes(w.store, s);
  }

  lemma BufferedRouted(st: Store, id: string, s: SessionRecord, distinct: bool)
    requires Routed(st, distinct) && id in st.sessions && s == st.sessions[id].(buffer := s.buffer)
    ensures Routed(st.(sessions := st.sessions[id := s]), distinct)
  {
    forall kind | true
      ensures Indexed(kind, s, st.installation) == Indexed(kind, st.sessions[id], st.installation)
              && KeyOf(kind, s) == KeyOf(kind, st.sessions[id])
    {
    }
  }

  lemma SameKeysDistinct(sessions: Sessions, id: string, s: SessionRecord)
    requires id in sessions && s.room == sessions[id].room && s.thread == sessions[id].thread
    ensures Distinct(sessions[id := s]) ==> Distinct(sessions)
  {
    forall kind, a, b | DistinctKeys(kind, sessions[id := s]) && a in sessions && b in sessions
                        && KeyOf(kind, sessions[a]) == KeyOf(kind, sessions[b])
      ensures a == b
    {
      assert KeyOf(kind, sessions[id := s][a]) == KeyOf(kind, sessions[id := s][b]);
    }
  }

  lemma CreateRouted(w: World, n: NewSession, overview: string, readyAt: int, inst: string, now: int, interval: nat,
                     w2: World, distinct: bool)
    requires Routed(w.store, distinct) && (distinct ==> Distinct(w.store.sessions) && Distinct(w2.store.sessions))
    requires Step(w, CreateSession(n, overview, readyAt), inst, now, interval, w2)
    ensures Routed(w2.store, distinct)
  {
    var s := Created(n, inst, now);
    var ready := s.(overview := Some(overview), state := Idle, updatedAt := readyAt);
    var mid :| PersistedEvent(World(Upsert(w.store, s), w.log), SessionCreated(s), interval, mid)
               && Updated(mid, ready, interval, w2);
    UpsertIndexes(w.store, s);
    assert w2.store.sessions == mid.store.sessions[n.id := ready];
    SameKeysDistinct(mid.store.sessions, n.id, ready);
    UpdatedRouted(mid, ready, interval, w2, distinct);
  }

  lemma RequestRouted(w: World, a: PendingApproval, card: string, inst: string, now: int, interval: nat, w2: World,
                      distinct: bool)
    requires Routed(w.store, distinct) && (distinct ==> Distinct(w.store.sessions))
    requires Step(w, RequestApproval(a, card), inst, now, interval, w2) && w2 != w
    ensures Routed(w2.store, distinct)
  {
    var sent := a.(card := Some(card));
    var waiting := w.store.sessions[a.session].(state := WaitingApproval, updatedAt := now);
    var start := World(WithApproval(w.store, sent), w.log);
    var mid :| Updated(start, waiting, interval, mid) && PersistedEvent(mid, ApprovalRequested(sent), interval, w2);
    UpdatedRouted(start, waiting, interval, mid, distinct);
  }

  lemma ResolvedRouted(w: World, id: string, decision: ApprovalDecision, interval: nat, mid: World, distinct: bool)
    requires Routed(w.store, distinct) && id in w.store.approvals && Resolved(w, id, decision, interval, mid)
    ensures Routed(mid.store, distinct) && mid.store.sessions == w.store.sessions
  {
    assert mid.store == WithoutApproval(w.store, id).(eventsSince := mid.store.eventsSince);
  }

  lemma ResolveRouted(w: World, id: string, decision: ApprovalDecision, inst: string, now: int, interval: nat,
                      w2: World, distinct: bool)
    requires Routed(w.store, distinct) && (distinct ==> Distinct(w.store.sessions))
    requires Step(w, ResolveApproval(id, decision), inst, now, interval, w2) && w2 != w
    ensures Routed(w2.store, distinct)
  {
    var session := w.store.approvals[id].session;
    var mid :| && Resolved(w, id, decision, interval, mid)
               && (if session !in mid.store.sessions then w2 == mid
                   else Updated(mid, RunningRecord(mid.store.sessions[session], now), interval, w2));
    ResolvedRouted(w, id, decision, interval, mid, distinct);
    if session in mid.store.sessions {
      UpdatedRouted(mid, RunningRecord(mid.store.sessions[session], now), interval, w2, distinct);
    }
  }

  /**
   Index entries always name a session they may route to; and while rooms and threads are distinct, the
   incrementally kept indexes are what a rebuild would compute.
   */
  lemma StepKeepsIndexes(w: World, op: Op, inst: string, now: int, interval: nat, w2: World, distinct: bool)
    requires KeyedById(w.store.sessions, w.store.approvals)
    requires Routed(w.store, distinct) && (distinct ==> Distinct(w.store.sessions) && Distinct(w2.store.sessions))
    requires Step(w, op, inst, now, interval, w2)
    ensures Routed(w2.store, distinct)
  {
    match op
    case Refused =>
    case EditSession(edit) =>
      var s := EditOf(w.store, edit, now);
      if s.Some? {
        UpdatedRouted(w, s.value, interval, w2, distinct);
      }
    case CreateSession(n, overview, readyAt) =>
      CreateRouted(w, n, overview, readyAt, inst, now, interval, w2, distinct);
    case AppendDelta(thread, delta) =>
      var s := ByThread(w.store, thread);
      if s.Some? {
        BufferedRouted(w.store, s.value.id, s.value.(buffer := s.value.buffer + delta), distinct);
      }
    case RequestApproval(a, card) =>
      if w2 != w { RequestRouted(w, a, card, inst, now, interval, w2, distinct); }
    case ResolveApproval(id, decision) =>
      if w2 != w { ResolveRouted(w, id, decision, inst, now, interval, w2, distinct); }
    case ArchiveSession(id) =>
      if id in w.store.sessions {
        UpsertIndexes(w.store, ArchivedRecord(w.store.sessions[id], now));
      }
    case PurgeSession(id) => RemoveIndexes(w.store, id);
    case Checkpoint =>
  }

  lemma {:induction false} IndexesAlongRun(run: seq<World>, calls: seq<Call>, inst: string, interval: nat, k: nat)
    requires IsRun(run, calls, inst, interval) && Synced(run[0]) && k < |run|
    requires IndexesSound(run[0].store)
    ensures IndexesSound(run[k].store)
    ensures IndexesRebuilt(run[0].store) && (forall i :: 0 <= i <= k ==> Distinct(run[i].store.sessions)) ==>
              IndexesRebuilt(run[k].store)
  {
    if k > 0 {
      IndexesAlongRun(run, calls, inst, interval, k - 1);
      LogReplaysToLiveState(run, calls, inst, interval, k - 1);
      var distinct := IndexesRebuilt(run[0].store) && forall i :: 0 <= i <= k ==> Distinct(run[i].store.sessions);
      assert StepAt(run, calls, inst, interval, k - 1);
      StepKeepsIndexes(run[k - 1], calls[k - 1].op, inst, calls[k - 1].now, interval, run[k], distinct);
    }
  }
}
