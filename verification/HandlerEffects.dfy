/**
 What each handler does to the records it touches, stated on their fields and on what counts as Codex work in
 flight, for every step that the handlers can take (wxcd-worker/src/main.rs).
 */
module HandlerEffects {
  import opened Wrappers
  import opened Model
  import opened SessionStore
  import opened EventLog
  import opened Handlers
  import Dedupe

  predicate Busy(s: SessionRecord) {
    s.activeTurn != None || s.state in {Creating, Running, WaitingApproval}
  }

  predicate Open(s: SessionRecord) {
    !s.archived && s.state != Archived
  }

  /** No session but `id` and no approval has changed. */
  ghost predicate OnlySession(w: World, w2: World, id: string) {
    && w2.store.approvals == w.store.approvals
    && (forall k :: k != id ==> Lookup(w2.store.sessions, k) == Lookup(w.store.sessions, k))
  }

  ghost predicate LogsFirst(w: World, w2: World, e: BridgeEvent) {
    |w.log| < |w2.log| && w2.log[..|w.log|] == w.log && w2.log[|w.log|] == EventMessage(e)
  }

  lemma EventLogsFirst(w: World, e: BridgeEvent, interval: nat, w2: World)
    requires PersistedEvent(w, e, interval, w2)
    ensures LogsFirst(w, w2, e) && w2.store == w.store.(eventsSince := w2.store.eventsSince)
  {
    var logged := World(w.store.(eventsSince := w.store.eventsSince + 1), w.log + [EventMessage(e)]);
    EventAppends(w, e, interval, w2);
    if logged.store.eventsSince >= interval {
      assert w2.log[..|logged.log|] == logged.log;
      assert w2.log[|w.log|] == logged.log[|w.log|];
    }
  }

  lemma LogsFirstStill(w: World, mid: World, w2: World, e: BridgeEvent)
    requires LogsFirst(w, mid, e) && |mid.log| <= |w2.log| && w2.log[..|mid.log|] == mid.log
    ensures LogsFirst(w, w2, e)
  {
    assert w2.log[..|mid.log|][..|w.log|] == w2.log[..|w.log|];
    assert w2.log[..|mid.log|][|w.log|] == w2.log[|w.log|];
  }

  /** Storing and logging an updated record. */
  lemma UpdateEffect(w: World, s: SessionRecord, interval: nat, w2: World)
    requires Updated(w, s, interval, w2)
    ensures w2.store.sessions == w.store.sessions[s.id := s] && w2.store.approvals == w.store.approvals
    ensures w2.store.installation == w.store.installation && LogsFirst(w, w2, SessionUpdated(s))
    ensures w2.store.threads == Upsert(w.store, s).threads && w2.store.rooms == Upsert(w.store, s).rooms
  {
    EventLogsFirst(World(Upsert(w.store, s), w.log), SessionUpdated(s), interval, w2);
  }

  /** A drain is held up by exactly the sessions that are routed here and busy. */
  lemma InFlightExactly(st: Store, id: string)
    ensures id in InFlightIds(st) <==>
            && id in st.sessions && Busy(st.sessions[id]) && Open(st.sessions[id])
            && (st.installation.Some? ==>
                  var s := st.sessions[id];
                  if s.authority.Some? then s.authority == st.installation
                  else s.mirror.Some? && s.mirror.value.installation == st.installation.value)
  {
  }

  /** What an edit leaves under the id of its target, and that it is logged. */
  lemma EditEffect(w: World, edit: Edit, s: SessionRecord, inst: string, now: int, interval: nat, w2: World)
    requires Keyed(w) && Step(w, EditSession(edit), inst, now, interval, w2) && Target(w.store, edit) == Some(s)
    requires Edited(s, edit, now).Some?
    ensures s.id in w2.store.sessions && OnlySession(w, w2, s.id)
    ensures w2.store.sessions[s.id] == Edited(s, edit, now).value
    ensures LogsFirst(w, w2, SessionUpdated(w2.store.sessions[s.id]))
    ensures w2.store.installation == w.store.installation
    ensures w2.store.threads == Upsert(w.store, Edited(s, edit, now).value).threads
  {
    UpdateEffect(w, Edited(s, edit, now).value, interval, w2);
  }

  // ---- Turns ----

  /** The session that a Codex notification on this thread is about. */
  ghost predicate OnThread(w: World, thread: string, id: string) {
    thread in w.store.threads && w.store.threads[thread] == id && id in w.store.sessions
  }

  /** A completed turn leaves nothing in flight, and the streamed text, trimmed, as its final answer. */
  lemma TurnCompletes(w: World, thread: string, id: string, inst: string, now: int, interval: nat, w2: World)
    requires Keyed(w) && OnThread(w, thread, id)
    requires Step(w, EditSession(TurnCompleted(thread)), inst, now, interval, w2)
    ensures OnlySession(w, w2, id) && id in w2.store.sessions && id !in InFlightIds(w2.store)
    ensures var s, t := w.store.sessions[id], w2.store.sessions[id];
            && t.activeTurn == None && t.state == Completed && t.failure == None && !Busy(t)
            && t.lastFinal == Some(Dedupe.Trim(s.buffer)) && t.updatedAt == now
            && LogsFirst(w, w2, SessionUpdated(t))
  {
    EditEffect(w, TurnCompleted(thread), w.store.sessions[id], inst, now, interval, w2);
  }

  /** A started turn is in flight, with nothing streamed yet. */
  lemma TurnStarts(w: World, thread: string, id: string, turn: string, inst: string, now: int, interval: nat,
                   w2: World)
    requires Keyed(w) && OnThread(w, thread, id)
    requires Step(w, EditSession(TurnStarted(thread, turn)), inst, now, interval, w2)
    ensures OnlySession(w, w2, id) && id in w2.store.sessions
    ensures var s, t := w.store.sessions[id], w2.store.sessions[id];
            && t.activeTurn == Some(turn) && t.state == Running && t.failure == None && t.buffer == "" && Busy(t)
            && t.lastFinal == s.lastFinal && t.updatedAt == now
            && LogsFirst(w, w2, SessionUpdated(t))
  {
    EditEffect(w, TurnStarted(thread, turn), w.store.sessions[id], inst, now, interval, w2);
  }

  /** So does a submitted one; a failed session takes none. */
  lemma TurnSubmits(w: World, id: string, turn: Option<string>, checkpoint: string, inst: string, now: int,
                    interval: nat, w2: World)
    requires Keyed(w) && id in w.store.sessions
    requires Step(w, EditSession(SubmitTurn(id, turn, checkpoint)), inst, now, interval, w2)
    ensures w.store.sessions[id].state == Failed ==> w2 == w
    ensures w.store.sessions[id].state != Failed ==>
              && OnlySession(w, w2, id) && id in w2.store.sessions
              && var t := w2.store.sessions[id];
                 && t.activeTurn == turn && t.state == Running && t.failure == None && t.buffer == "" && Busy(t)
                 && t.lastCheckpoint == Some(checkpoint) && t.updatedAt == now
                 && LogsFirst(w, w2, SessionUpdated(t))
  {
    if w.store.sessions[id].state != Failed {
      EditEffect(w, SubmitTurn(id, turn, checkpoint), w.store.sessions[id], inst, now, interval, w2);
    }
  }

  /** An active status makes the session busy; any other ends Creating, Running and waiting but not the turn. */
  lemma StatusChanges(w: World, thread: string, id: string, status: ThreadStatus, inst: string, now: int,
                      interval: nat, w2: World)
    requires Keyed(w) && OnThread(w, thread, id)
    requires Step(w, EditSession(StatusChanged(thread, status)), inst, now, interval, w2)
    ensures OnlySession(w, w2, id) && id in w2.store.sessions
    ensures var s, t := w.store.sessions[id], w2.store.sessions[id];
            && t.activeTurn == s.activeTurn && t.buffer == s.buffer && t.archived == s.archived
            && t.failure == None && t.updatedAt == now
            && (status == ActiveStatus ==> t.state == Running && Busy(t))
            && (status != ActiveStatus ==> (Busy(t) <==> s.activeTurn != None))
            && (status == IdleStatus && s.archived ==> t.state == Archived)
            && (status == IdleStatus && !s.archived ==> t.state == if s.lastFinal.Some? then Completed else Idle)
            && (status == OtherStatus ==> t.state == Idle)
            && LogsFirst(w, w2, SessionUpdated(t))
  {
    EditEffect(w, StatusChanged(thread, status), w.store.sessions[id], inst, now, interval, w2);
  }

  /** Streamed text is kept, and only that. */
  lemma DeltaAppends(w: World, thread: string, id: string, delta: string, inst: string, now: int, interval: nat,
                     w2: World)
    requires Keyed(w) && OnThread(w, thread, id)
    requires Step(w, AppendDelta(thread, delta), inst, now, interval, w2)
    ensures OnlySession(w, w2, id) && w2.log == w.log && Keyed(w2) && OnThread(w2, thread, id)
    ensures var s, t := w.store.sessions[id], w2.store.sessions[id];
            t.buffer == s.buffer + delta && t.(buffer := s.buffer) == s
  {
  }

  /** The text of one turn arrives in `deltas`, from `run[0]` to the last of `run`. */
  ghost predicate Streams(run: seq<World>, deltas: seq<string>, thread: string, inst: string, now: int, interval: nat) {
    |run| == |deltas| + 1
    && forall i: nat :: i < |deltas| ==> StreamsAt(run, deltas, thread, inst, now, interval, i)
  }

  ghost predicate StreamsAt(run: seq<World>, deltas: seq<string>, thread: string, inst: string, now: int,
                            interval: nat, i: nat)
    requires |run| == |deltas| + 1 && i < |deltas|
  {
    Step(run[i], AppendDelta(thread, deltas[i]), inst, now, interval, run[i + 1])
  }

  function Concat(texts: seq<string>): string {
    if texts == [] then "" else Concat(texts[..|texts| - 1]) + texts[|texts| - 1]
  }

  lemma {:induction false} Streamed(run: seq<World>, deltas: seq<string>, thread: string, id: string, inst: string,
                                    now: int, interval: nat, k: nat)
    requires Streams(run, deltas, thread, inst, now, interval) && k < |run|
    requires Keyed(run[0]) && OnThread(run[0], thread, id)
    ensures Keyed(run[k]) && OnThread(run[k], thread, id)
    ensures run[k].store.sessions[id].buffer == run[0].store.sessions[id].buffer + Concat(deltas[..k])
  {
    if k == 0 {
      assert deltas[..0] == [];
    } else {
      Streamed(run, deltas, thread, id, inst, now, interval, k - 1);
      assert StreamsAt(run, deltas, thread, inst, now, interval, k - 1);
      DeltaAppends(run[k - 1], thread, id, deltas[k - 1], inst, now, interval, run[k]);
      assert deltas[..k][..k - 1] == deltas[..k - 1];
    }
  }

  /** With sound indexes a started turn's session stays on its thread. */
  lemma StartedStaysRouted(w: World, thread: string, id: string, turn: string, inst: string, now: int, interval: nat,
                           w2: World)
    requires Keyed(w) && IndexesSound(w.store) && OnThread(w, thread, id)
    requires Step(w, EditSession(TurnStarted(thread, turn)), inst, now, interval, w2)
    ensures Keyed(w2) && OnThread(w2, thread, id)
  {
    var s := w.store.sessions[id];
    EditEffect(w, TurnStarted(thread, turn), s, inst, now, interval, w2);
    assert Indexed(Threads, s, w.store.installation) && s.thread == thread;
  }

  /** A whole turn, however its text is cut: all that was streamed since it started, trimmed, is its final answer. */
  lemma StreamedTurn(w: World, run: seq<World>, deltas: seq<string>, w2: World, thread: string, turn: string,
                     id: string, inst: string, now: int, interval: nat)
    requires Keyed(w) && IndexesSound(w.store) && OnThread(w, thread, id)
    requires Streams(run, deltas, thread, inst, now, interval)
    requires Step(w, EditSession(TurnStarted(thread, turn)), inst, now, interval, run[0])
    requires Step(run[|deltas|], EditSession(TurnCompleted(thread)), inst, now, interval, w2)
    ensures id in w2.store.sessions && w2.store.sessions[id].lastFinal == Some(Dedupe.Trim(Concat(deltas)))
  {
    StartedStaysRouted(w, thread, id, turn, inst, now, interval, run[0]);
    TurnStarts(w, thread, id, turn, inst, now, interval, run[0]);
    Streamed(run, deltas, thread, id, inst, now, interval, |deltas|);
    assert deltas[..|deltas|] == deltas && "" + Concat(deltas) == Concat(deltas);
    TurnCompletes(run[|deltas|], thread, id, inst, now, interval, w2);
  }

  // ---- Commands and probes ----

  /** `/pause` and `/resume` leave the active turn alone; a failed session resumes but does not pause. */
  lemma PausesAndResumes(w: World, id: string, inst: string, now: int, interval: nat, w2: World)
    requires Keyed(w) && id in w.store.sessions
    ensures Step(w, EditSession(Pause(id)), inst, now, interval, w2) ==>
              if w.store.sessions[id].state == Failed then w2 == w
              else
                && OnlySession(w, w2, id) && id in w2.store.sessions
                && var s, t := w.store.sessions[id], w2.store.sessions[id];
                   t.state == Paused && t.updatedAt == now && t.(state := s.state, updatedAt := s.updatedAt) == s
    ensures Step(w, EditSession(Resume(id)), inst, now, interval, w2) ==>
              && OnlySession(w, w2, id) && id in w2.store.sessions
              && var s, t := w.store.sessions[id], w2.store.sessions[id];
                 && t.state == Idle && t.failure == None && t.updatedAt == now
                 && t.(state := s.state, failure := s.failure, updatedAt := s.updatedAt) == s
  {
    if Step(w, EditSession(Pause(id)), inst, now, interval, w2) && w.store.sessions[id].state != Failed {
      EditEffect(w, Pause(id), w.store.sessions[id], inst, now, interval, w2);
    }
    if Step(w, EditSession(Resume(id)), inst, now, interval, w2) {
      EditEffect(w, Resume(id), w.store.sessions[id], inst, now, interval, w2);
    }
  }

  /** A readable thread cures a session that failed or carries a failure, and changes no other. */
  lemma ReadableCures(w: World, id: string, message: string, inst: string, now: int, interval: nat, w2: World)
    requires Keyed(w) && id in w.store.sessions
    requires Step(w, EditSession(ProbeThread(id, Readable(message))), inst, now, interval, w2)
    ensures var s := w.store.sessions[id];
            if !Open(s) || (s.state != Failed && s.failure == None) then w2 == w
            else
              && OnlySession(w, w2, id) && id in w2.store.sessions
              && var t := w2.store.sessions[id];
                 && t.state == (if s.state == Failed then Idle else s.state) && t.state != Failed && t.failure == None
                 && t.lastCheckpoint == Some(message) && t.updatedAt == now && t.activeTurn == s.activeTurn
                 && LogsFirst(w, w2, SessionUpdated(t))
  {
    var s := w.store.sessions[id];
    if Open(s) && !(s.state != Failed && s.failure == None) {
      EditEffect(w, ProbeThread(id, Readable(message)), s, inst, now, interval, w2);
    }
  }

  /** An unusable thread fails an open session for that very reason, once. */
  lemma UnusableFails(w: World, id: string, kind: FailureKind, message: string, inst: string, now: int, interval: nat,
                      w2: World)
    requires Keyed(w) && id in w.store.sessions
    requires Step(w, EditSession(ProbeThread(id, Unusable(kind, message))), inst, now, interval, w2)
    ensures var s := w.store.sessions[id];
            var known := s.state == Failed && s.failure.Some? && s.failure.value.kind == kind
                         && s.failure.value.message == message;
            if !Open(s) || known then w2 == w
            else
              && OnlySession(w, w2, id) && id in w2.store.sessions
              && var t := w2.store.sessions[id];
                 && t.state == Failed && t.failure == Some(SessionFailure(kind, message, now))
                 && t.lastCheckpoint == Some(message) && t.updatedAt == now && t.activeTurn == s.activeTurn
                 && LogsFirst(w, w2, SessionUpdated(t))
  {
    var s := w.store.sessions[id];
    if Edited(s, ProbeThread(id, Unusable(kind, message)), now).Some? {
      EditEffect(w, ProbeThread(id, Unusable(kind, message)), s, inst, now, interval, w2);
    }
  }

  /** Handlers about a session or a thread that the store does not know do nothing. */
  lemma UnknownIsIgnored(w: World, edit: Edit, inst: string, now: int, interval: nat, w2: World)
    requires Step(w, EditSession(edit), inst, now, interval, w2)
    requires match edit
             case StatusChanged(thread, _) => thread !in w.store.threads
             case TurnStarted(thread, _) => thread !in w.store.threads
             case TurnCompleted(thread) => thread !in w.store.threads
             case _ => edit.id !in w.store.sessions
    ensures w2 == w
  {
  }

  // ---- Creating, approvals, archiving, purging ----

  lemma CreatedThenUpdated(w: World, s: SessionRecord, ready: SessionRecord, interval: nat, mid: World, w2: World)
    requires ready.id == s.id && PersistedEvent(World(Upsert(w.store, s), w.log), SessionCreated(s), interval, mid)
    requires Updated(mid, ready, interval, w2)
    ensures w2.store.sessions == w.store.sessions[s.id := ready] && w2.store.approvals == w.store.approvals
    ensures w2.store.rooms == Upsert(Upsert(w.store, s), ready).rooms
    ensures w2.store.threads == Upsert(Upsert(w.store, s), ready).threads
    ensures LogsFirst(w, w2, SessionCreated(s))
  {
    EventLogsFirst(World(Upsert(w.store, s), w.log), SessionCreated(s), interval, mid);
    UpdateEffect(mid, ready, interval, w2);
    LogsFirstStill(w, mid, w2, SessionCreated(s));
  }

  lemma CreatedIsReady(w: World, n: NewSession, overview: string, readyAt: int, inst: string, now: int, interval: nat,
                       w2: World)
    requires Step(w, CreateSession(n, overview, readyAt), inst, now, interval, w2)
    ensures var s := Created(n, inst, now);
            var ready := s.(overview := Some(overview), state := Idle, updatedAt := readyAt);
            && w2.store.sessions == w.store.sessions[n.id := ready] && w2.store.approvals == w.store.approvals
            && w2.store.rooms == Upsert(Upsert(w.store, s), ready).rooms
            && w2.store.threads == Upsert(Upsert(w.store, s), ready).threads
            && LogsFirst(w, w2, SessionCreated(s))
  {
    var s := Created(n, inst, now);
    var ready := s.(overview := Some(overview), state := Idle, updatedAt := readyAt);
    var start := World(Upsert(w.store, s), w.log);
    var mid :| PersistedEvent(start, SessionCreated(s), interval, mid) && Updated(mid, ready, interval, w2);
    CreatedThenUpdated(w, s, ready, interval, mid, w2);
  }

  /** A created session is idle and this installation's, routed by its room and thread, and not in flight. */
  lemma CreatedIsIdle(w: World, n: NewSession, overview: string, readyAt: int, inst: string, now: int, interval: nat,
                      w2: World)
    requires Step(w, CreateSession(n, overview, readyAt), inst, now, interval, w2)
    ensures OnlySession(w, w2, n.id) && n.id in w2.store.sessions
    ensures var t := w2.store.sessions[n.id];
            && t.id == n.id && t.title == n.title && t.room == n.room && t.thread == n.thread
            && t.state == Idle && Open(t) && !Busy(t) && t.failure == None && t.buffer == "" && t.lastFinal == None
            && t.authority == Some(inst) && t.mirror == Some(LocalMirror(inst, now)) && t.overview == Some(overview)
            && t.lastCheckpoint == Some(n.checkpoint) && t.updatedAt == readyAt
            && LogsFirst(w, w2, SessionCreated(t.(overview := None, state := Creating, updatedAt := now)))
    ensures w.store.installation in {None, Some(inst)} ==>
              && n.room in w2.store.rooms && w2.store.rooms[n.room] == n.id
              && n.thread in w2.store.threads && w2.store.threads[n.thread] == n.id
  {
    CreatedIsReady(w, n, overview, readyAt, inst, now, interval, w2);
  }

  lemma RequestEffect(w: World, a: PendingApproval, card: string, inst: string, now: int, interval: nat, w2: World)
    requires Step(w, RequestApproval(a, card), inst, now, interval, w2) && OnThread(w, a.thread, a.session)
    ensures var waiting := w.store.sessions[a.session].(state := WaitingApproval, updatedAt := now);
            && w2.store.sessions == w.store.sessions[waiting.id := waiting]
            && w2.store.approvals == w.store.approvals[a.id := a.(card := Some(card))]
  {
    var sent := a.(card := Some(card));
    var waiting := w.store.sessions[a.session].(state := WaitingApproval, updatedAt := now);
    var start := World(WithApproval(w.store, sent), w.log);
    var mid :| Updated(start, waiting, interval, mid) && PersistedEvent(mid, ApprovalRequested(sent), interval, w2);
    UpdateEffect(start, waiting, interval, mid);
    EventLogsFirst(mid, ApprovalRequested(sent), interval, w2);
  }

  /** A requested approval is pending with its card, and its session waits. */
  lemma RequestIsPending(w: World, a: PendingApproval, card: string, inst: string, now: int, interval: nat, w2: World)
    requires Keyed(w) && Step(w, RequestApproval(a, card), inst, now, interval, w2)
    ensures !OnThread(w, a.thread, a.session) ==> w2 == w
    ensures OnThread(w, a.thread, a.session) ==>
              && a.id in w2.store.approvals && w2.store.approvals[a.id] == a.(card := Some(card))
              && (forall k :: k != a.id ==> Lookup(w2.store.approvals, k) == Lookup(w.store.approvals, k))
              && a.session in w2.store.sessions && Busy(w2.store.sessions[a.session])
              && (forall k :: k != a.session ==> Lookup(w2.store.sessions, k) == Lookup(w.store.sessions, k))
              && var s, t := w.store.sessions[a.session], w2.store.sessions[a.session];
                 && t.state == WaitingApproval && t.updatedAt == now
                 && t.(state := s.state, updatedAt := s.updatedAt) == s
  {
    if OnThread(w, a.thread, a.session) {
      RequestEffect(w, a, card, inst, now, interval, w2);
    }
  }

  lemma ResolveEffect(w: World, id: string, decision: ApprovalDecision, inst: string, now: int, interval: nat,
                      w2: World)
    requires Step(w, ResolveApproval(id, decision), inst, now, interval, w2) && id in w.store.approvals
    ensures var session := w.store.approvals[id].session;
            && w2.store.approvals == w.store.approvals - {id}
            && LogsFirst(w, w2, ApprovalResolved(id, session, decision))
            && w2.store.sessions == if session !in w.store.sessions then w.store.sessions
                                    else
                                      var t := RunningRecord(w.store.sessions[session], now);
                                      w.store.sessions[t.id := t]
  {
    var session := w.store.approvals[id].session;
    var e := ApprovalResolved(id, session, decision);
    var mid :| && Resolved(w, id, decision, interval, mid)
               && (if session !in mid.store.sessions then w2 == mid
                   else Updated(mid, RunningRecord(mid.store.sessions[session], now), interval, w2));
    EventLogsFirst(World(WithoutApproval(w.store, id), w.log), e, interval, mid);
    if session in mid.store.sessions {
      UpdateEffect(mid, RunningRecord(mid.store.sessions[session], now), interval, w2);
      LogsFirstStill(w, mid, w2, e);
    }
  }

  /** A resolved approval is gone, whatever was decided, and its session runs on. */
  lemma ResolvedRunsOn(w: World, id: string, decision: ApprovalDecision, inst: string, now: int, interval: nat,
                       w2: World)
    requires Keyed(w) && Step(w, ResolveApproval(id, decision), inst, now, interval, w2)
    ensures id !in w.store.approvals ==> w2 == w
    ensures id in w.store.approvals ==>
              var session := w.store.approvals[id].session;
              && w2.store.approvals == w.store.approvals - {id}
              && LogsFirst(w, w2, ApprovalResolved(id, session, decision))
              && (forall k :: k != session ==> Lookup(w2.store.sessions, k) == Lookup(w.store.sessions, k))
              && (session in w.store.sessions <==> session in w2.store.sessions)
              && (session in w.store.sessions ==>
                    var s, t := w.store.sessions[session], w2.store.sessions[session];
                    && t.state == Running && t.failure == None && t.updatedAt == now && Busy(t)
                    && t.(state := s.state, failure := s.failure, updatedAt := s.updatedAt) == s)
  {
    if id in w.store.approvals {
      ResolveEffect(w, id, decision, inst, now, interval, w2);
    }
  }

  /** An archived session is closed, holds up no drain, and has no approval pending. */
  lemma ArchivedIsClosed(w: World, id: string, inst: string, now: int, interval: nat, w2: World)
    requires Keyed(w) && Step(w, ArchiveSession(id), inst, now, interval, w2)
    ensures id !in w.store.sessions ==> w2 == w
    ensures id in w.store.sessions ==>
              && id in w2.store.sessions && !Open(w2.store.sessions[id]) && id !in InFlightIds(w2.store)
              && w2.store.sessions[id].archived && w2.store.sessions[id].state == Archived
              && (forall k :: k != id ==> Lookup(w2.store.sessions, k) == Lookup(w.store.sessions, k))
              && (forall k :: k in w2.store.approvals <==> k in w.store.approvals && w.store.approvals[k].session != id)
              && (forall k :: k in w2.store.approvals ==> w2.store.approvals[k] == w.store.approvals[k])
              && LogsFirst(w, w2, SessionArchived(id))
  {
    if id in w.store.sessions {
      EventLogsFirst(World(ArchivedStore(w.store, id, now), w.log), SessionArchived(id), interval, w2);
    }
  }

  /** A purge takes away an archived session of this installation, with its approvals, and nothing else. */
  lemma PurgedIsGone(w: World, id: string, inst: string, now: int, interval: nat, w2: World)
    requires Step(w, PurgeSession(id), inst, now, interval, w2)
    ensures var allowed := id in w.store.sessions && !Open(w.store.sessions[id])
                           && var s := w.store.sessions[id];
                              if s.authority.Some? then s.authority == Some(inst)
                              else s.mirror.Some? && s.mirror.value.installation == inst;
            if !allowed then w2 == w
            else
              && w2.store.sessions == w.store.sessions - {id}
              && (forall k :: k in w2.store.approvals <==> k in w.store.approvals && w.store.approvals[k].session != id)
              && (forall k :: k in w2.store.approvals ==> w2.store.approvals[k] == w.store.approvals[k])
              && LogsFirst(w, w2, SessionPurged(id)) && w2.store.eventsSince == 0
              && w2.log[|w2.log| - 1].SnapshotMessage?
  {
    if w2 != w {
      var start := World(Remove(w.store, id), w.log);
      var mid :| PersistedEvent(start, SessionPurged(id), interval, mid) && PersistedSnapshot(mid, w2);
      EventLogsFirst(start, SessionPurged(id), interval, mid);
      LogsFirstStill(w, mid, w2, SessionPurged(id));
    }
  }
}
