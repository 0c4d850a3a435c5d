/** `apply_webex_handoff_payload` as the source runs it, proved against the functions of Handoff. */
module HandoffImport {
  import opened Wrappers
  import opened Model
  import opened SessionStore
  import opened Mirror
  import opened Handoff
  import opened Worker
  import EventLog
  import Dedupe

  /** `export_handoff_snapshot`: the snapshot, the dedupe queue and which sessions have Codex work in flight. */
  method ExportHandoffSnapshot(state: WorkerState, now: int) returns (p: Payload)
    requires state.Valid()
    ensures EventLog.IsSnapshotOf(p.snapshot, state.sessions, state.approvals)
    ensures p.recent == state.recentQueue && p.inFlight == InFlightIds(state.View())
  {
    var snapshot := state.ToSnapshot(now);
    var inFlight := set id | id in state.sessions && Routable(state.sessions[id], state.installation)
                             && InFlight(state.sessions[id]);
    p := Payload(snapshot, state.recentQueue, inFlight);
  }

  method ApplyWebexHandoffPayload(state: WorkerState, p: Payload, at: int) returns (r: Result<(), string>)
    requires state.Valid()
    modifies state
    ensures state.Valid()
    ensures r.Success? <==> old(state.installation).Some?
    ensures r.Failure? ==> state.View() == old(state.View())
    ensures r.Success? ==>
              var snap := EventLog.FromSnapshot(p.snapshot);
              state.View()
              == Imported(old(state.View()), snap.sessions, snap.approvals, p, old(state.installation).value, at)
                 .(rooms := state.rooms, threads := state.threads)
    ensures IndexesRebuilt(old(state.View())) ==> IndexesRebuilt(state.View())
  {
    if state.installation.None? {
      return Failure("worker installation identity is not initialized");
    }
    var inst := state.installation.value;
    ghost var st := state.View();
    var replay := new EventLog.Replayer();
    replay.Load(p.snapshot);
    EventLog.IndexSessionsContents(p.snapshot.sessions);
    EventLog.IndexApprovalsContents(p.snapshot.approvals);
    var sessions, approvals := replay.sessions, replay.approvals;
    var changed, replaced := ImportSessions(state, sessions, p.inFlight, inst, at);
    ghost var s1 := state.View();
    var more := state.ReconcileHandoffPendingApprovals(replaced, approvals, inst);
    changed := changed || more;
    ghost var s2 := state.View();
    more := state.MergeLocalPendingApprovals(approvals, inst);
    changed := changed || more;
    var imported := state.MergeRecentEventIds(p.recent);
    changed := changed || imported > 0;
    ImportedIgnoresIndexes(st, s1, sessions, approvals, p, inst, at);
    if changed {
      state.RebuildSessionIndexes();
    }
    r := Success(());
  }

  /** Export from one worker, import into an empty one of the same installation: `HandoffRoundTrip` of the code. */
  method HandOver(source: WorkerState, target: WorkerState, inst: string, now: int, at: int)
    requires source != target && source.Valid() && target.Valid()
    requires source.installation == Some(inst) && EmptyWorker(target.View(), inst)
    requires forall id :: id in source.recentQueue ==> Dedupe.Trim(id) == id && id != ""
    requires Distinct(source.sessions) && IndexesRebuilt(source.View())
    modifies target
    ensures target.Valid()
    ensures target.rooms == source.rooms && target.threads == source.threads
    ensures InFlightIds(target.View()) == InFlightIds(source.View())
    ensures forall id :: id in target.approvals <==>
              id in source.approvals
              && ApprovalClaimable(source.View().(resolvedIds := {}, snapshotAt := None), source.approvals[id], inst)
    ensures forall id :: id in target.approvals ==> target.approvals[id] == source.approvals[id]
    ensures target.recentQueue == source.recentQueue
  {
    var p := ExportHandoffSnapshot(source, now);
    ghost var empty := target.View();
    var imported := ApplyWebexHandoffPayload(target, p, at);
    HandoffRoundTrip(source.View(), empty, p, target.View(), inst, at);
  }

  method ImportSessions(state: WorkerState, locals: Sessions, inFlight: set<string>, inst: string, at: int)
    returns (changed: bool, replaced: set<string>)
    requires state.Valid() && KeyedById(locals, map[])
    modifies state`sessions, state`rooms, state`threads
    ensures state.Valid()
    ensures state.View()
            == old(state.View()).(sessions := ImportedSessions(old(state.View()), locals, inFlight, inst, at),
                                  rooms := state.rooms, threads := state.threads)
    ensures replaced == Authoritative(old(state.View()), locals, inFlight, inst, at)
    ensures !changed ==> state.View() == old(state.View())
  {
    changed, replaced := false, {};
    ghost var st := state.View();
    var todo := locals.Keys;
    assert Without(locals, todo) == map[] && Without(locals, {}) == locals;
    assert ImportedSessions(st, map[], inFlight, inst, at) == st.sessions;
    while todo != {}
      invariant state.Valid() && todo <= locals.Keys
      invariant state.sessions == ImportedSessions(st, Without(locals, todo), inFlight, inst, at)
      invariant state.View() == st.(sessions := state.sessions, rooms := state.rooms, threads := state.threads)
      invariant replaced == Authoritative(st, Without(locals, todo), inFlight, inst, at)
      invariant !changed ==> state.View() == st
    {
      var id :| id in todo;
      ghost var was, done := state.View(), Without(locals, todo);
      WithoutStep(locals, todo, id);
      todo := todo - {id};
      var step, taken := ImportSession(state, locals[id], inFlight, inst, at);
      ImportedStep(st, was, done, locals[id], inFlight, inst, at);
      changed := changed || step;
      if taken {
        replaced := replaced + {id};
      }
    }
  }

  /** One turn of the session loop. */
  method ImportSession(state: WorkerState, local: SessionRecord, inFlight: set<string>, inst: string, at: int)
    returns (changed: bool, taken: bool)
    requires state.Valid()
    modifies state`sessions, state`rooms, state`threads
    ensures state.Valid()
    ensures state.View()
            == old(state.View()).(sessions := state.sessions, rooms := state.rooms, threads := state.threads)
    ensures var d := Decide(old(state.View()), local, inFlight, inst, at);
            && state.sessions == (if d.Keep? then old(state.sessions) else old(state.sessions)[local.id := d.session])
            && taken == d.Replace? && changed == !d.Keep?
    ensures !changed ==> state.View() == old(state.View())
  {
    if !HasEvidence(local, inst) || local.id in state.purgedIds {
      return false, false;
    }
    var takesLocal := true;
    if local.id in state.sessions {
      var remote := state.sessions[local.id];
      if !Claimable(remote, inst) || BlocksReplacement(remote, local) {
        return false, false;
      }
      takesLocal := local.id in inFlight || local.updatedAt >= remote.updatedAt;
    } else if state.StaleAgainstRemote(local) {
      return false, false;
    }
    var stamped := StampLocal(local, inst, at);
    if takesLocal {
      state.UpsertSession(stamped);
      return true, true;
    }
    changed := FillIn(state, local.id, inst, stamped.mirror.value);
    taken := false;
  }

  /** The exported record with this installation's claim filled in where none is recorded. */
  method StampLocal(local: SessionRecord, inst: string, at: int) returns (stamped: SessionRecord)
    ensures stamped == Stamp(local, inst, at)
  {
    stamped := local;
    if stamped.authority.None? {
      stamped := stamped.(authority := Some(inst));
    }
    if stamped.mirror.None? {
      stamped := stamped.(mirror := Some(LocalMirror(inst, at)));
    }
  }

  /** The branch of that turn that keeps the record and only fills in a missing claim. */
  method FillIn(state: WorkerState, id: string, inst: string, mirror: LocalMirror) returns (changed: bool)
    requires state.Valid() && id in state.sessions
    modifies state`sessions
    ensures state.Valid()
    ensures var r := old(state.sessions[id]);
            && changed == (r.authority.None? || r.mirror.None?)
            && state.sessions == old(state.sessions)[id := r.(authority := Some(r.authority.GetOr(inst)),
                                                              mirror := Some(r.mirror.GetOr(mirror)))]
    ensures !changed ==> state.sessions == old(state.sessions)
  {
    var s := state.sessions[id];
    changed := s.authority.None? || s.mirror.None?;
    if changed {
      if s.authority.None? {
        s := s.(authority := Some(inst));
      }
      if s.mirror.None? {
        s := s.(mirror := Some(mirror));
      }
      state.sessions := state.sessions[id := s];
    } else {
      assert state.sessions == state.sessions[id := s];
    }
  }

  lemma ImportedAt(st: Store, locals: Sessions, inFlight: set<string>, inst: string, at: int, id: string)
    ensures var d := DecideAt(st, locals, id, inFlight, inst, at);
            Lookup(ImportedSessions(st, locals, inFlight, inst, at), id)
            == if d.Keep? then Lookup(st.sessions, id) else Some(d.session)
  {
  }

  lemma ImportedStep(st: Store, was: Store, done: Sessions, local: SessionRecord, inFlight: set<string>,
                     inst: string, at: int)
    requires local.id !in done
    requires was == st.(sessions := ImportedSessions(st, done, inFlight, inst, at),
                        rooms := was.rooms, threads := was.threads)
    ensures var d := Decide(st, local, inFlight, inst, at);
            && Decide(was, local, inFlight, inst, at) == d
            && ImportedSessions(st, done[local.id := local], inFlight, inst, at)
               == (if d.Keep? then was.sessions else was.sessions[local.id := d.session])
            && Authoritative(st, done[local.id := local], inFlight, inst, at)
               == Authoritative(st, done, inFlight, inst, at) + (if d.Replace? then {local.id} else {})
  {
    var d := Decide(st, local, inFlight, inst, at);
    var more := done[local.id := local];
    var goal := if d.Keep? then was.sessions else was.sessions[local.id := d.session];
    ImportedAt(st, done, inFlight, inst, at, local.id);
    DecideAgrees(st, was, local, inFlight, inst, at);
    forall id ensures Lookup(ImportedSessions(st, more, inFlight, inst, at), id) == Lookup(goal, id) {
      ImportedAt(st, done, inFlight, inst, at, id);
      ImportedAt(st, more, inFlight, inst, at, id);
      assert id != local.id ==>
          DecideAt(st, more, id, inFlight, inst, at) == DecideAt(st, done, id, inFlight, inst, at);
    }
    SameLookups(ImportedSessions(st, more, inFlight, inst, at), goal);
  }

  lemma DecideAgrees(st: Store, was: Store, local: SessionRecord, inFlight: set<string>, inst: string, at: int)
    requires was == st.(sessions := was.sessions, rooms := was.rooms, threads := was.threads)
    requires Lookup(was.sessions, local.id) == Lookup(st.sessions, local.id)
    ensures Decide(was, local, inFlight, inst, at) == Decide(st, local, inFlight, inst, at)
  {
  }

  lemma ImportedIgnoresIndexes(st: Store, s1: Store, sessions: Sessions, approvals: Approvals, p: Payload,
                               inst: string, at: int)
    requires s1 == st.(sessions := ImportedSessions(st, sessions, p.inFlight, inst, at),
                       rooms := s1.rooms, threads := s1.threads)
    ensures var replaced := Authoritative(st, sessions, p.inFlight, inst, at);
            var s2 := s1.(approvals := ReconciledApprovals(s1, replaced, approvals, inst));
            var s3 := s2.(approvals := MergedApprovals(s2, approvals, inst));
            s3.(recent := Dedupe.Merge(s3.recent, p.recent))
            == Imported(st, sessions, approvals, p, inst, at).(rooms := s1.rooms, threads := s1.threads)
  {
    var replaced := Authoritative(st, sessions, p.inFlight, inst, at);
    var t1 := st.(sessions := s1.sessions);
    assert forall a :: ApprovalClaimable(s1, a, inst) <==> ApprovalClaimable(t1, a, inst);
    assert ReconciledApprovals(s1, replaced, approvals, inst) == ReconciledApprovals(t1, replaced, approvals, inst);
    var s2 := s1.(approvals := ReconciledApprovals(s1, replaced, approvals, inst));
    var t2 := t1.(approvals := s2.approvals);
    MergedApprovalsIgnoresIndexes(t2, s2, approvals, inst);
  }
}
