/**
 The session handlers as the source runs them over `WorkerState` and the room log, each proved to take
 one `Handlers.Step`. Codex and Webex outcomes arrive as parameters.
 */
module Bridge {
  import opened Wrappers
  import opened Model
  import opened SessionStore
  import opened EventLog
  import opened Handlers
  import opened Worker
  import Dedupe

  class Bridge {
    const state: WorkerState
    const inst: string
    const interval: nat
    var log: seq<Message>

    constructor (state: WorkerState, inst: string, interval: nat, log: seq<Message>)
      ensures this.state == state && this.inst == inst && this.interval == interval && this.log == log
    {
      this.state, this.inst, this.interval, this.log := state, inst, interval, log;
    }

    ghost function Now(): World
      reads this, state
    {
      World(state.View(), log)
    }

    method PersistSnapshot(now: int)
      requires state.Valid()
      modifies this`log, state`eventsSince
      ensures state.Valid() && PersistedSnapshot(old(Now()), Now())
    {
      var snapshot := state.ToSnapshot(now);
      log := log + [SnapshotMessage(snapshot)];
      state.eventsSince := 0;
    }

    method PersistEvent(event: BridgeEvent, now: int)
      requires state.Valid()
      modifies this`log, state`eventsSince
      ensures state.Valid() && PersistedEvent(old(Now()), event, interval, Now())
    {
      log := log + [EventMessage(event)];
      state.eventsSince := state.eventsSince + 1;
      if state.eventsSince >= interval {
        PersistSnapshot(now);
      }
    }

    /** Store an updated record and log it. */
    method Update(s: SessionRecord, now: int)
      requires state.Valid()
      modifies this`log, state
      ensures state.Valid() && Updated(old(Now()), s, interval, Now())
    {
      state.UpsertSession(s);
      PersistEvent(SessionUpdated(s), now);
    }

    method CreateBridgeSession(n: NewSession, overview: string, now: int, readyAt: int)
      requires state.Valid()
      modifies this`log, state
      ensures state.Valid()
      ensures Step(old(Now()), CreateSession(n, overview, readyAt), inst, now, interval, Now())
    {
      var session := Created(n, inst, now);
      state.UpsertSession(session);
      PersistEvent(SessionCreated(session), now);
      session := session.(overview := Some(overview));
      session := session.(state := Idle, updatedAt := readyAt);
      Update(session, readyAt);
    }

    /** `/resume`, `/pause` and a submitted turn in a session room. */
    method HandleSessionMessage(edit: Edit, now: int)
      requires state.Valid() && (edit.Resume? || edit.Pause? || edit.SubmitTurn?)
      modifies this`log, state
      ensures state.Valid() && Step(old(Now()), EditSession(edit), inst, now, interval, Now())
    {
      if edit.id !in state.sessions {
        return;
      }
      var session := state.sessions[edit.id];
      if session.state == Failed && !edit.Resume? {
        return;
      }
      match edit {
        case Resume(_) =>
          session := session.(failure := None, state := Idle);
        case Pause(_) =>
          session := session.(state := Paused);
        case SubmitTurn(_, turn, checkpoint) =>
          session := session.(activeTurn := turn, failure := None, buffer := "");
          session := session.(lastCheckpoint := Some(checkpoint), state := Running);
      }
      session := session.(updatedAt := now);
      Update(session, now);
    }

    /** The same for a record already changed in the map (`get_mut`), when its room and thread are kept. */
    method UpdateInPlace(s: SessionRecord, now: int)
      requires state.Valid() && s.id in state.sessions
      requires s.room == state.sessions[s.id].room && s.thread == state.sessions[s.id].thread
      modifies this`log, state
      ensures state.Valid() && Updated(old(Now()), s, interval, Now())
    {
      state.sessions := state.sessions[s.id := s];
      assert Upsert(state.View(), s) == Upsert(old(state.View()), s);
      Update(s, now);
    }

    /** Codex notifications that change the record in place before it is stored and logged. */
    method HandleCodexNotification(edit: Edit, now: int)
      requires state.Valid() && (edit.StatusChanged? || edit.TurnStarted? || edit.TurnCompleted?)
      modifies this`log, state
      ensures state.Valid() && Step(old(Now()), EditSession(edit), inst, now, interval, Now())
    {
      if edit.thread !in state.threads || state.threads[edit.thread] !in state.sessions {
        return;
      }
      var session := state.sessions[state.threads[edit.thread]];
      match edit {
        case StatusChanged(_, status) =>
          session := session.(state := StateForStatus(session, status));
        case TurnStarted(_, turn) =>
          session := session.(activeTurn := Some(turn), buffer := "", state := Running);
        case TurnCompleted(_) =>
          session := session.(state := Completed, lastFinal := Some(Dedupe.Trim(session.buffer)), activeTurn := None);
      }
      session := session.(failure := None, updatedAt := now);
      UpdateInPlace(session, now);
    }

    method HandleMessageDelta(thread: string, delta: string, now: int)
      requires state.Valid()
      modifies state
      ensures state.Valid() && Step(old(Now()), AppendDelta(thread, delta), inst, now, interval, Now())
    {
      if thread in state.threads && state.threads[thread] in state.sessions {
        var session := state.sessions[state.threads[thread]];
        state.sessions := state.sessions[session.id := session.(buffer := session.buffer + delta)];
      }
    }

    /** Startup reconcile and `diagnose` for one session. */
    method ProbeSession(id: string, probe: Probe, now: int)
      requires state.Valid()
      modifies this`log, state
      ensures state.Valid() && Step(old(Now()), EditSession(ProbeThread(id, probe)), inst, now, interval, Now())
    {
      if id in state.sessions {
        var updated := ApplyThreadProbe(state.sessions[id], probe, now);
        if updated.Some? {
          Update(updated.value, now);
        }
      }
    }

    method RequestApproval(approval: PendingApproval, card: string, now: int)
      requires state.Valid()
      modifies this`log, state
      ensures state.Valid() && Step(old(Now()), Op.RequestApproval(approval, card), inst, now, interval, Now())
    {
      if approval.thread !in state.threads || approval.session != state.threads[approval.thread]
         || approval.session !in state.sessions {
        return;
      }
      var sent := approval.(card := Some(card));
      state.approvals := state.approvals[sent.id := sent];
      var session := state.sessions[approval.session].(state := WaitingApproval, updatedAt := now);
      Update(session, now);
      PersistEvent(ApprovalRequested(sent), now);
    }

    method ResolveApproval(id: string, decision: ApprovalDecision, now: int)
      requires state.Valid()
      modifies this`log, state
      ensures state.Valid() && Step(old(Now()), Op.ResolveApproval(id, decision), inst, now, interval, Now())
    {
      if id !in state.approvals {
        return;
      }
      var approval := state.approvals[id];
      state.approvals := state.approvals - {id};
      PersistEvent(ApprovalResolved(id, approval.session, decision), now);
      if approval.session in state.sessions {
        var session := state.sessions[approval.session].(state := Running, failure := None, updatedAt := now);
        Update(session, now);
      }
    }

    method ArchiveSession(id: string, now: int)
      requires state.Valid()
      modifies this`log, state
      ensures state.Valid() && Step(old(Now()), Op.ArchiveSession(id), inst, now, interval, Now())
    {
      if id !in state.sessions {
        return;
      }
      var session := state.sessions[id].(archived := true, state := Archived, updatedAt := now);
      state.UpsertSession(session);
      state.approvals := WithoutSession(state.approvals, id);
      PersistEvent(SessionArchived(id), now);
    }

    method PurgeArchived(id: string, now: int)
      requires state.Valid()
      modifies this`log, state
      ensures state.Valid() && Step(old(Now()), PurgeSession(id), inst, now, interval, Now())
    {
      if !(id in state.sessions && BelongsTo(state.sessions[id], inst) && IsArchived(state.sessions[id])) {
        return;
      }
      state.RemoveSession(id);
      PersistEvent(SessionPurged(id), now);
      PersistSnapshot(now);
    }
  }

  /** A start from the room log: the worker is in step with it, its indexes rebuilt, unless a snapshot is bad. */
  method Start(log: seq<Message>, inst: string, interval: nat) returns (r: Result<Bridge, string>)
    ensures r.Failure? <==> OutOfReach(log)
    ensures r.Success? ==> fresh(r.value) && fresh(r.value.state) && r.value.state.Valid() && r.value.log == log
    ensures r.Success? ==> IndexesRebuilt(r.value.state.View())
    ensures r.Success? && BadSnapshot !in log ==> Synced(r.value.Now())
  {
    var replayed, fetches, read := PagedReplay(log);
    if replayed.Failure? {
      return Failure(replayed.error);
    }
    ReplayKeyedById(Newest(log, read));
    var state := new WorkerState(replayed.value);
    state.SetExecutableInstallation(inst);
    var bridge := new Bridge(state, inst, interval, log);
    r := Success(bridge);
  }

  // ---- Two live sessions on one thread ----

  /** `attached_session_for_thread` finds nothing, so the thread may be attached to a new session. */
  predicate Unattached(sessions: Sessions, thread: string, inst: string) {
    forall id :: id in sessions && sessions[id].thread == thread ==> !BelongsTo(sessions[id], inst)
  }

  predicate LiveOn(s: SessionRecord, thread: string) {
    s.thread == thread && !IsArchived(s) && s.state != Failed
  }

  /** Both sessions, once a start has claimed all legacy sessions on that thread. */
  function BothClaimed(legacy: SessionRecord, attached: SessionRecord, inst: string, at: int): Sessions {
    LegacyClaimed(map[legacy.id := legacy, attached.id := attached], inst, at, {attached.thread})
  }

  /**
   How the thread index comes to lose a live session: a thread known only from a session that nobody owns yet
   is attached to a new one, a later start claims the old session too, and then one of the two is archived.
   The other stays live and its thread is no longer in the index, which a rebuild would hold.
   */
  lemma SharedThreadLosesEntry(legacy: SessionRecord, attached: SessionRecord, inst: string, at: int, now: int,
                               index: Index, archived: string)
    requires legacy.id != attached.id && LiveOn(legacy, attached.thread) && LiveOn(attached, attached.thread)
    requires legacy.authority.None? && legacy.mirror.None? && attached.authority == Some(inst)
    requires archived in {legacy.id, attached.id}
    requires IsRebuild(Threads, index, BothClaimed(legacy, attached, inst, at), Some(inst))
    ensures Unattached(map[legacy.id := legacy], attached.thread, inst)
    ensures var claimed := BothClaimed(legacy, attached, inst, at);
            var other := if archived == legacy.id then attached.id else legacy.id;
            var record := ArchivedRecord(claimed[archived], now);
            var left := UpsertIndex(Threads, index, claimed, record, Some(inst));
            && attached.thread in index
            && Indexed(Threads, claimed[other], Some(inst)) && claimed[other].thread == attached.thread
            && attached.thread !in left
            && !IsRebuild(Threads, left, claimed[archived := record], Some(inst))
  {
    var claimed := BothClaimed(legacy, attached, inst, at);
    var other := if archived == legacy.id then attached.id else legacy.id;
    assert Indexed(Threads, claimed[other], Some(inst));
    assert claimed[archived := ArchivedRecord(claimed[archived], now)][other] == claimed[other];
  }
}
