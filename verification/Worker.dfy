/**
 `WorkerState` as the source mutates it (wxcd-worker/src/main.rs). Hash maps are iterated in an
 arbitrary order; every method is proved against the order-free functions of SessionStore, Dedupe, Mirror
 and Handoff.
 */
module Worker {
  import opened Wrappers
  import opened Model
  import opened SessionStore
  import opened Mirror
  import EventLog
  import Dedupe
  import Handoff

  class WorkerState {
    var sessions: Sessions
    var rooms: Index
    var threads: Index
    var approvals: Approvals
    var snapshotAt: Option<int>
    var archivedIds: set<string>
    var purgedIds: set<string>
    var resolvedIds: set<string>
    var recentIds: set<string>
    var recentQueue: seq<string>
    var eventsSince: nat
    var installation: Option<string>

    ghost function View(): Store
      reads this
    {
      Store(sessions, rooms, threads, approvals, snapshotAt, archivedIds, purgedIds, resolvedIds,
                  recentQueue, eventsSince, installation)
    }

    ghost predicate Valid()
      reads this
    {
      && KeyedById(sessions, approvals)
      && Dedupe.Window(recentQueue)
      && (forall id :: id in recentIds <==> id in recentQueue)
    }

    /** `from_replay`. */
    constructor (replay: EventLog.ReplayState)
      requires KeyedById(replay.sessions, replay.approvals)
      ensures Valid() && IndexesSound(View())
      ensures Distinct(replay.sessions) ==> IndexesRebuilt(View())
      ensures View() == Store(replay.sessions, rooms, threads, replay.approvals, replay.snapshotAt,
                                    replay.archivedIds, replay.purgedIds, replay.resolvedIds, [],
                                    replay.eventsSince, None)
    {
      sessions, rooms, threads, approvals := map[], map[], map[], replay.approvals;
      snapshotAt, eventsSince, installation := replay.snapshotAt, replay.eventsSince, None;
      archivedIds, purgedIds, resolvedIds := replay.archivedIds, replay.purgedIds, replay.resolvedIds;
      recentIds, recentQueue := {}, [];
      new;
      UpsertAll(replay.sessions);
    }

    /** The session loop of `from_replay`. */
    method UpsertAll(all: Sessions)
      requires Valid() && KeyedById(all, map[])
      requires sessions == map[] && rooms == map[] && threads == map[]
      modifies this`sessions, this`rooms, this`threads
      ensures Valid() && IndexesSound(View())
      ensures Distinct(all) ==> IndexesRebuilt(View())
      ensures View() == old(View()).(sessions := all, rooms := rooms, threads := threads)
    {
      var todo := all.Keys;
      assert Without(all, todo) == map[];
      while todo != {}
        invariant todo <= all.Keys
        invariant sessions == Without(all, todo)
        invariant View() == old(View()).(sessions := sessions, rooms := rooms, threads := threads)
        invariant IndexesSound(View()) && Valid()
        invariant Distinct(all) ==> IndexesRebuilt(View())
      {
        var id :| id in todo;
        UpsertIndexes(View(), all[id]);
        assert Distinct(all) ==> Distinct(Without(all, todo));
        WithoutStep(all, todo, id);
        todo := todo - {id};
        UpsertSession(all[id]);
      }
      assert Without(all, {}) == all;
    }

    method UpsertSession(s: SessionRecord)
      requires Valid()
      modifies this`sessions, this`rooms, this`threads
      ensures Valid() && View() == Upsert(old(View()), s)
    {
      if s.id in sessions {
        rooms := rooms - {sessions[s.id].room};
        threads := threads - {sessions[s.id].thread};
      }
      if Routable(s, installation) {
        rooms := rooms[s.room := s.id];
      }
      if Indexed(Threads, s, installation) {
        threads := threads[s.thread := s.id];
      }
      sessions := sessions[s.id := s];
    }

    method RemoveSession(id: string)
      requires Valid()
      modifies this`sessions, this`rooms, this`threads, this`approvals
      ensures Valid() && View() == Remove(old(View()), id)
    {
      if id in sessions {
        var s := sessions[id];
        sessions := sessions - {id};
        rooms := rooms - {s.room};
        threads := threads - {s.thread};
        approvals := WithoutSession(approvals, id);
      }
    }

    method RebuildSessionIndexes()
      modifies this`rooms, this`threads
      ensures View() == old(View()).(rooms := rooms, threads := threads)
      ensures IndexesRebuilt(View())
    {
      rooms, threads := map[], map[];
      var todo := sessions.Keys;
      while todo != {}
        invariant todo <= sessions.Keys
        invariant View() == old(View()).(rooms := rooms, threads := threads)
        invariant IndexesSound(View())
        invariant forall id :: id in sessions && id !in todo && Indexed(Rooms, sessions[id], installation) ==>
                    sessions[id].room in rooms
        invariant forall id :: id in sessions && id !in todo && Indexed(Threads, sessions[id], installation) ==>
                    sessions[id].thread in threads
      {
        var id :| id in todo;
        todo := todo - {id};
        if Routable(sessions[id], installation) {
          rooms := rooms[sessions[id].room := id];
        }
        if Indexed(Threads, sessions[id], installation) {
          threads := threads[sessions[id].thread := id];
        }
      }
    }

    method SetExecutableInstallation(inst: string)
      requires Valid()
      modifies this`installation, this`rooms, this`threads
      ensures Valid() && IndexesRebuilt(View())
      ensures View() == old(View()).(installation := Some(inst), rooms := rooms, threads := threads)
    {
      installation := Some(inst);
      RebuildSessionIndexes();
    }

    /** `lifecycle_codex_in_flight_count`. */
    method CodexInFlightCount() returns (count: nat)
      ensures count == |InFlightIds(View())|
    {
      count := 0;
      var todo := sessions.Keys;
      ghost var found: set<string> := {};
      while todo != {}
        invariant todo <= sessions.Keys
        invariant found == set id | id in InFlightIds(View()) && id !in todo
        invariant count == |found|
      {
        var id :| id in todo;
        todo := todo - {id};
        if Routable(sessions[id], installation) && InFlight(sessions[id]) {
          count := count + 1;
          found := found + {id};
        }
      }
      assert found == InFlightIds(View());
    }

    // ---- Recent event ids ----

    method RememberEvent(id: string) returns (accepted: bool)
      requires Valid()
      modifies this`recentIds, this`recentQueue
      ensures Valid()
      ensures View() == old(View()).(recent := Dedupe.Remember(old(recentQueue), id))
      ensures accepted <==> id !in old(recentQueue)
    {
      if id in recentIds {
        return false;
      }
      Dedupe.RememberKeepsWindow(recentQueue, id);
      ghost var queue := recentQueue;
      recentIds := recentIds + {id};
      recentQueue := recentQueue + [id];
      while |recentQueue| > Dedupe.RECENT_EVENT_ID_LIMIT
        invariant recentQueue == queue + [id] || recentQueue == Dedupe.Remember(queue, id)
        invariant forall x :: x in recentIds <==> x in recentQueue
        invariant View() == old(View()).(recent := recentQueue)
        decreases |recentQueue|
      {
        recentIds := recentIds - {recentQueue[0]};
        recentQueue := recentQueue[1..];
      }
      return true;
    }

    method ForgetEvent(id: string)
      requires Valid()
      modifies this`recentIds, this`recentQueue
      ensures Valid()
      ensures View() == old(View()).(recent := Dedupe.Without(old(recentQueue), id))
    {
      Dedupe.WithoutKeepsWindow(recentQueue, id);
      if id in recentIds {
        recentIds := recentIds - {id};
        recentQueue := Dedupe.Without(recentQueue, id);
      } else {
        Dedupe.WithoutAbsent(recentQueue, id);
      }
    }

    method MergeRecentEventIds(ids: seq<string>) returns (imported: nat)
      requires Valid()
      modifies this`recentIds, this`recentQueue
      ensures Valid()
      ensures View() == old(View()).(recent := Dedupe.Merge(old(recentQueue), ids))
      ensures imported == Dedupe.FreshInMerge(old(recentQueue), ids)
      ensures imported == 0 ==> View() == old(View())
    {
      imported := 0;
      for i := 0 to |ids|
        invariant Valid()
        invariant View() == old(View()).(recent := Dedupe.Merge(old(recentQueue), ids[..i]))
        invariant imported == Dedupe.FreshInMerge(old(recentQueue), ids[..i])
        invariant imported == 0 ==> recentQueue == old(recentQueue)
      {
        assert ids[..i + 1][..i] == ids[..i];
        var id := Dedupe.Trim(ids[i]);
        if id != "" {
          var accepted := RememberEvent(id);
          if accepted {
            imported := imported + 1;
          }
        }
      }
      assert ids[..|ids|] == ids;
    }

    // ---- Merging ----

    /** The session loop of `merge_local_mirror`. */
    method MergeLocalSessions(locals: Sessions, inst: string, at: int, scope: ClaimScope) returns (changed: bool)
      requires Valid() && KeyedById(locals, map[])
      modifies this`sessions, this`rooms, this`threads
      ensures Valid()
      ensures View() == old(View()).(sessions := MergedSessions(old(View()), locals, inst, at, scope),
                                     rooms := rooms, threads := threads)
      ensures changed <==> sessions != old(sessions)
      ensures !changed ==> View() == old(View())
    {
      changed := false;
      ghost var st := View();
      MergedNothing(st, inst, at, scope);
      var todo := locals.Keys;
      assert Without(locals, todo) == map[] && Without(locals, {}) == locals;
      while todo != {}
        invariant Valid() && todo <= locals.Keys
        invariant sessions == MergedSessions(st, Without(locals, todo), inst, at, scope)
        invariant View() == st.(sessions := sessions, rooms := rooms, threads := threads)
        invariant changed <==> sessions != st.sessions
        invariant !changed ==> View() == st
      {
        var id :| id in todo;
        ghost var was, done := View(), Without(locals, todo);
        WithoutStep(locals, todo, id);
        todo := todo - {id};
        var step := MergeLocalSession(locals[id], inst, at, scope);
        MergeTurn(st, was, done, sessions, locals[id], inst, at, scope);
        changed := changed || step;
      }
    }

    /** One turn of that loop. */
    method MergeLocalSession(local: SessionRecord, inst: string, at: int, scope: ClaimScope) returns (changed: bool)
      requires Valid()
      modifies this`sessions, this`rooms, this`threads
      ensures Valid()
      ensures View() == old(View()).(sessions := sessions, rooms := rooms, threads := threads)
      ensures sessions == Put(old(sessions), local.id, MergeOne(old(View()), local, inst, at, scope))
      ensures changed <==> sessions != old(sessions)
      ensures !changed ==> View() == old(View())
    {
      if !Claimable(local, inst) || !Allows(scope, local, inst) {
        PutLookup(sessions, local.id);
        return false;
      }
      var mirror := DesiredMirror(local, inst, at);
      var claimed := ClaimLocal(local, inst, mirror);
      PutLookup(sessions, local.id);
      if local.id !in sessions {
        if StaleAgainstRemote(claimed) {
          return false;
        }
        UpsertSession(claimed);
        return true;
      }
      var remote := sessions[local.id];
      if !Claimable(remote, inst) {
        return false;
      }
      var blocked := BlocksReplacement(remote, claimed) || (local.id in archivedIds && !IsArchived(claimed));
      if claimed.updatedAt > remote.updatedAt && !blocked {
        UpsertSession(claimed);
        assert sessions[local.id] != old(sessions[local.id]);
        return true;
      }
      changed := ClaimInPlace(local.id, inst, mirror);
    }

    /** The local record with this installation's claim filled in. */
    static method ClaimLocal(local: SessionRecord, inst: string, mirror: LocalMirror) returns (claimed: SessionRecord)
      ensures claimed == Claim(local, inst, mirror)
    {
      claimed := local;
      if claimed.authority.None? {
        claimed := claimed.(authority := Some(inst));
      }
      if claimed.mirror != Some(mirror) {
        claimed := claimed.(mirror := Some(mirror));
      }
    }

    /** The branch of that turn that keeps the record and only fills in its claim. */
    method ClaimInPlace(id: string, inst: string, mirror: LocalMirror) returns (changed: bool)
      requires Valid() && id in sessions && Claimable(sessions[id], inst)
      modifies this`sessions
      ensures Valid()
      ensures sessions == old(sessions)[id := Claim(old(sessions[id]), inst, mirror)]
      ensures changed <==> sessions != old(sessions)
    {
      var s := sessions[id];
      if s.authority.None? || s.mirror != Some(mirror) {
        if s.authority.None? {
          s := s.(authority := Some(inst));
        }
        if s.mirror != Some(mirror) {
          s := s.(mirror := Some(mirror));
        }
        sessions := sessions[id := s];
        assert sessions[id] != old(sessions[id]);
        return true;
      }
      assert sessions == sessions[id := s];
      return false;
    }

    predicate StaleAgainstRemote(s: SessionRecord)
      reads this
    {
      s.id in purgedIds || (snapshotAt.Some? && snapshotAt.value >= s.updatedAt)
    }

    predicate IsApprovalClaimable(a: PendingApproval, inst: string)
      reads this
      ensures IsApprovalClaimable(a, inst) <==> ApprovalClaimable(View(), a, inst)
    {
      && !(a.id in resolvedIds || (snapshotAt.Some? && snapshotAt.value >= a.requestedAt))
      && a.session in sessions
      && BelongsTo(sessions[a.session], inst)
      && a.thread == sessions[a.session].thread
    }

    method MergeLocalPendingApprovals(locals: Approvals, inst: string) returns (changed: bool)
      requires Valid() && KeyedById(map[], locals)
      modifies this`approvals
      ensures Valid()
      ensures View() == old(View()).(approvals := MergedApprovals(old(View()), locals, inst))
      ensures changed <==> approvals != old(approvals)
    {
      changed := false;
      ghost var st := View();
      var todo := locals.Keys;
      assert Without(locals, todo) == map[] && Without(locals, {}) == locals;
      assert MergedApprovals(st, map[], inst) == st.approvals;
      while todo != {}
        invariant Valid() && todo <= locals.Keys
        invariant approvals == MergedApprovals(st, Without(locals, todo), inst)
        invariant View() == st.(approvals := approvals)
        invariant changed <==> approvals != st.approvals
      {
        var id :| id in todo;
        ghost var was, done := View(), Without(locals, todo);
        WithoutStep(locals, todo, id);
        todo := todo - {id};
        var step := MergeLocalPendingApproval(locals[id], inst);
        MergedApprovalsStep(st, done, locals[id], inst);
        TakesAgrees(st, was, locals[id], inst);
        changed := changed || step;
      }
    }

    /** One turn of that loop. */
    method MergeLocalPendingApproval(a: PendingApproval, inst: string) returns (changed: bool)
      requires Valid()
      modifies this`approvals
      ensures Valid()
      ensures changed <==> TakesLocalApproval(old(View()), a, inst)
      ensures approvals == if changed then old(approvals)[a.id := a] else old(approvals)
    {
      if !IsApprovalClaimable(a, inst) || (a.id in approvals && approvals[a.id].requestedAt >= a.requestedAt) {
        return false;
      }
      approvals := approvals[a.id := a];
      return true;
    }

    /**
     Whatever order the maps are iterated in, the result is `Merged`; it reports a change exactly when
     sessions or approvals changed, and rebuilds the indexes then.
     */
    method MergeLocalMirror(local: EventLog.ReplayState, inst: string, at: int, scope: ClaimScope)
      returns (changed: bool)
      requires Valid() && KeyedById(local.sessions, local.approvals)
      modifies this`sessions, this`rooms, this`threads, this`approvals
      ensures Valid()
      ensures View() == Merged(old(View()), local.sessions, local.approvals, inst, at, scope)
                        .(rooms := rooms, threads := threads)
      ensures changed <==> sessions != old(sessions) || approvals != old(approvals)
      ensures !changed ==> View() == old(View())
      ensures changed || IndexesRebuilt(old(View())) ==> IndexesRebuilt(View())
    {
      changed := MergeLocalSessions(local.sessions, inst, at, scope);
      ghost var mid := View();
      var more := MergeLocalPendingApprovals(local.approvals, inst);
      MergedApprovalsIgnoresIndexes(old(View()).(sessions := mid.sessions), mid, local.approvals, inst);
      changed := changed || more;
      if changed {
        RebuildSessionIndexes();
      }
    }

    /** One turn of the loop below. */
    method ClaimLegacySession(id: string, inst: string, at: int, threadIds: set<string>) returns (changed: bool)
      requires id in sessions && Valid()
      modifies this`sessions
      ensures Valid()
      ensures sessions == old(sessions)[id := LegacyClaim(old(sessions)[id], inst, at, threadIds)]
      ensures changed <==> LegacyClaim(old(sessions)[id], inst, at, threadIds) != old(sessions)[id]
    {
      var s := sessions[id];
      changed := !(s.authority.Some? || s.mirror.Some?) && s.thread in threadIds;
      if changed {
        sessions := sessions[id := s.(authority := Some(inst), mirror := Some(LocalMirror(inst, at)))];
      } else {
        assert sessions == sessions[id := s];
      }
    }

    method ClaimLegacyLocalSessions(inst: string, at: int, threadIds: set<string>) returns (changed: bool)
      requires Valid()
      modifies this`sessions, this`rooms, this`threads
      ensures Valid()
      ensures View() == old(View()).(sessions := LegacyClaimed(old(sessions), inst, at, threadIds),
                                     rooms := rooms, threads := threads)
      ensures changed <==> sessions != old(sessions)
      ensures changed || IndexesRebuilt(old(View())) ==> IndexesRebuilt(View())
    {
      changed := false;
      ghost var st := View();
      var todo := sessions.Keys;
      assert LegacyPart(sessions, todo, inst, at, threadIds) == sessions;
      while todo != {}
        invariant Valid() && todo <= st.sessions.Keys
        invariant View() == st.(sessions := sessions)
        invariant sessions == LegacyPart(st.sessions, todo, inst, at, threadIds)
        invariant changed <==> sessions != st.sessions
      {
        var id :| id in todo;
        LegacyStep(st.sessions, todo, id, inst, at, threadIds);
        todo := todo - {id};
        var step := ClaimLegacySession(id, inst, at, threadIds);
        changed := changed || step;
      }
      assert LegacyPart(st.sessions, {}, inst, at, threadIds) == LegacyClaimed(st.sessions, inst, at, threadIds);
      if changed {
        RebuildSessionIndexes();
      }
    }

    /** `reconcile_handoff_pending_approvals`. */
    method ReconcileHandoffPendingApprovals(replaced: set<string>, locals: Approvals, inst: string)
      returns (changed: bool)
      requires Valid() && KeyedById(map[], locals)
      modifies this`approvals
      ensures Valid()
      ensures View() == old(View()).(approvals := Handoff.ReconciledApprovals(old(View()), replaced, locals, inst))
      ensures changed <==> approvals != old(approvals)
    {
      if replaced == {} {
        assert Handoff.ReconciledApprovals(View(), replaced, locals, inst) == approvals;
        return false;
      }
      var owned := set id | id in replaced && id in sessions && BelongsTo(sessions[id], inst);
      var kept := set id | id in locals && IsApprovalClaimable(locals[id], inst) ;
      var before := approvals;
      approvals := map id | id in approvals && (id in kept || approvals[id].session !in owned) :: approvals[id];
      assert approvals == Handoff.ReconciledApprovals(old(View()), replaced, locals, inst);
      SubmapSize(approvals, before);
      changed := |approvals| != |before|;
    }

    /** `to_snapshot`: the maps' values, in whatever order. */
    method ToSnapshot(now: int) returns (snap: BridgeSnapshot)
      requires Valid()
      ensures EventLog.IsSnapshotOf(snap, sessions, approvals)
      ensures snap.createdAt == now && snap.writer == installation
    {
      var ss: seq<SessionRecord>, ps: seq<PendingApproval> := [], [];
      var todo := sessions.Keys;
      while todo != {}
        invariant todo <= sessions.Keys
        invariant forall i :: 0 <= i < |ss| ==> ss[i].id in sessions && sessions[ss[i].id] == ss[i]
        invariant forall k :: k in sessions && k !in todo ==> sessions[k] in ss
      {
        var id :| id in todo;
        todo := todo - {id};
        ss := ss + [sessions[id]];
      }
      todo := approvals.Keys;
      while todo != {}
        invariant todo <= approvals.Keys
        invariant forall i :: 0 <= i < |ps| ==> ps[i].id in approvals && approvals[ps[i].id] == ps[i]
        invariant forall k :: k in approvals && k !in todo ==> approvals[k] in ps
      {
        var id :| id in todo;
        todo := todo - {id};
        ps := ps + [approvals[id]];
      }
      snap := BridgeSnapshot(now, installation, ss, ps);
    }
  }

  function Without<V>(all: map<string, V>, todo: set<string>): map<string, V> {
    map id | id in all && id !in todo :: all[id]
  }

  lemma WithoutStep<V>(all: map<string, V>, todo: set<string>, id: string)
    requires id in todo && todo <= all.Keys
    ensures Without(all, todo - {id}) == Without(all, todo)[id := all[id]]
  {
  }

  function LegacyClaim(s: SessionRecord, inst: string, at: int, threadIds: set<string>): SessionRecord {
    if s.authority.Some? || s.mirror.Some? || s.thread !in threadIds then s
    else s.(authority := Some(inst), mirror := Some(LocalMirror(inst, at)))
  }

  function LegacyClaimed(sessions: Sessions, inst: string, at: int, threadIds: set<string>): Sessions {
    map id | id in sessions :: LegacyClaim(sessions[id], inst, at, threadIds)
  }

  function LegacyPart(sessions: Sessions, todo: set<string>, inst: string, at: int, threadIds: set<string>): Sessions {
    map id | id in sessions :: if id in todo then sessions[id] else LegacyClaim(sessions[id], inst, at, threadIds)
  }

  /** Exactly the sessions that nobody owns or mirrors, on a listed thread, are claimed, and change in that alone. */
  lemma LegacyClaimsExactly(sessions: Sessions, inst: string, at: int, threadIds: set<string>, id: string)
    requires id in sessions
    ensures var before, after := sessions[id], LegacyClaimed(sessions, inst, at, threadIds);
            var unclaimed := before.authority.None? && before.mirror.None? && before.thread in threadIds;
            && after.Keys == sessions.Keys && SameButClaim(after[id], before)
            && (unclaimed ==> after[id].authority == Some(inst) && after[id].mirror == Some(LocalMirror(inst, at)))
            && (!unclaimed ==> after[id] == before)
  {
  }

  lemma LegacyStep(sessions: Sessions, todo: set<string>, id: string, inst: string, at: int, threadIds: set<string>)
    requires id in todo && todo <= sessions.Keys
    ensures var was, now := LegacyPart(sessions, todo, inst, at, threadIds),
                            LegacyPart(sessions, todo - {id}, inst, at, threadIds);
            && was[id] == sessions[id]
            && now == was[id := LegacyClaim(sessions[id], inst, at, threadIds)]
            && (now != sessions <==> was != sessions || LegacyClaim(sessions[id], inst, at, threadIds) != sessions[id])
  {
    var was := LegacyPart(sessions, todo, inst, at, threadIds);
    var now := LegacyPart(sessions, todo - {id}, inst, at, threadIds);
    assert now == was[id := LegacyClaim(sessions[id], inst, at, threadIds)];
    if was != sessions {
      assert now != sessions by {
        var k :| k in sessions && was[k] != sessions[k];
        assert now[k] == was[k];
      }
    } else if LegacyClaim(sessions[id], inst, at, threadIds) != sessions[id] {
      assert now[id] != sessions[id];
    }
  }

  lemma SubmapSize<V>(part: map<string, V>, whole: map<string, V>)
    requires part.Keys <= whole.Keys && forall k :: k in part ==> part[k] == whole[k]
    ensures |part| != |whole| <==> part != whole
  {
    if part != whole {
      var k :| k in whole && k !in part;
      assert part.Keys <= whole.Keys - {k};
      SubsetSize(part.Keys, whole.Keys - {k});
    }
    assert |part| == |part.Keys| && |whole| == |whole.Keys|;
  }

  lemma {:induction false} SubsetSize(a: set<string>, b: set<string>)
    requires a <= b
    ensures |a| <= |b|
  {
    if a != {} {
      var x :| x in a;
      SubsetSize(a - {x}, b - {x});
    }
  }

  function Put<K, V>(m: map<K, V>, k: K, v: Option<V>): map<K, V> {
    if v.Some? then m[k := v.value] else m
  }

  lemma PutLookup<K, V>(m: map<K, V>, k: K)
    ensures Put(m, k, Lookup(m, k)) == m
  {
  }

  lemma MergedNothing(st: Store, inst: string, at: int, scope: ClaimScope)
    ensures MergedSessions(st, map[], inst, at, scope) == st.sessions
  {
  }

  lemma MergeOneAgrees(st: Store, was: Store, done: Sessions, local: SessionRecord, inst: string, at: int,
                       scope: ClaimScope)
    requires local.id !in done
    requires was == st.(sessions := MergedSessions(st, done, inst, at, scope),
                        rooms := was.rooms, threads := was.threads)
    ensures MergeOne(was, local, inst, at, scope) == MergeOne(st, local, inst, at, scope)
  {
    MergedSessionsAt(st, done, inst, at, scope, local.id);
  }

  lemma MergedSessionsStep(st: Store, done: Sessions, was: Sessions, now: Sessions, local: SessionRecord,
                           inst: string, at: int, scope: ClaimScope)
    requires local.id !in done && was == MergedSessions(st, done, inst, at, scope)
    requires now == Put(was, local.id, MergeOne(st, local, inst, at, scope))
    ensures now == MergedSessions(st, done[local.id := local], inst, at, scope)
    ensures now != st.sessions <==> was != st.sessions || now != was
  {
    var goal := MergedSessions(st, done[local.id := local], inst, at, scope);
    forall id
      ensures Lookup(goal, id) == Lookup(now, id)
      ensures id != local.id ==> Lookup(now, id) == Lookup(was, id)
      ensures id == local.id ==> Lookup(was, id) == Lookup(st.sessions, id)
    {
      MergedSessionsAt(st, done[local.id := local], inst, at, scope, id);
      MergedSessionsAt(st, done, inst, at, scope, id);
    }
    SameLookups(goal, now);
    if now == st.sessions {
      forall id ensures Lookup(was, id) == Lookup(st.sessions, id) {
      }
      SameLookups(was, st.sessions);
    }
  }

  lemma MergeTurn(st: Store, was: Store, done: Sessions, now: Sessions, local: SessionRecord,
                  inst: string, at: int, scope: ClaimScope)
    requires local.id !in done
    requires was == st.(sessions := MergedSessions(st, done, inst, at, scope),
                        rooms := was.rooms, threads := was.threads)
    requires now == Put(was.sessions, local.id, MergeOne(was, local, inst, at, scope))
    ensures now == MergedSessions(st, done[local.id := local], inst, at, scope)
    ensures now != st.sessions <==> was.sessions != st.sessions || now != was.sessions
  {
    MergeOneAgrees(st, was, done, local, inst, at, scope);
    MergedSessionsStep(st, done, was.sessions, now, local, inst, at, scope);
  }

  lemma SameLookups<V>(a: map<string, V>, b: map<string, V>)
    requires forall id :: Lookup(a, id) == Lookup(b, id)
    ensures a == b
  {
    forall id ensures id in a <==> id in b {
      assert Lookup(a, id) == Lookup(b, id);
    }
    forall id | id in a ensures a[id] == b[id] {
      assert Lookup(a, id) == Lookup(b, id);
    }
  }

  lemma MergedApprovalsAt(st: Store, locals: Approvals, inst: string, id: string)
    ensures Lookup(MergedApprovals(st, locals, inst), id)
            == if id in locals && TakesLocalApproval(st, locals[id], inst) then Some(locals[id])
               else Lookup(st.approvals, id)
  {
  }

  lemma MergedApprovalsStep(st: Store, done: Approvals, a: PendingApproval, inst: string)
    requires a.id !in done
    ensures var was, now := MergedApprovals(st, done, inst), MergedApprovals(st, done[a.id := a], inst);
            && Lookup(was, a.id) == Lookup(st.approvals, a.id)
            && now == (if TakesLocalApproval(st, a, inst) then was[a.id := a] else was)
            && (now != st.approvals <==> was != st.approvals || TakesLocalApproval(st, a, inst))
  {
    var was, now := MergedApprovals(st, done, inst), MergedApprovals(st, done[a.id := a], inst);
    var goal := if TakesLocalApproval(st, a, inst) then was[a.id := a] else was;
    MergedApprovalsAt(st, done, inst, a.id);
    forall id ensures Lookup(now, id) == Lookup(goal, id) {
      MergedApprovalsAt(st, done, inst, id);
      MergedApprovalsAt(st, done[a.id := a], inst, id);
    }
    SameLookups(now, goal);
    if TakesLocalApproval(st, a, inst) {
      NewEntryDiffers(st.approvals, was, a.id, a);
    }
  }

  lemma NewEntryDiffers<V>(m: map<string, V>, was: map<string, V>, k: string, v: V)
    requires Lookup(m, k) != Some(v)
    ensures was[k := v] != m
  {
    assert Lookup(was[k := v], k) == Some(v);
  }

  lemma TakesAgrees(st: Store, was: Store, a: PendingApproval, inst: string)
    requires was == st.(approvals := was.approvals) && Lookup(was.approvals, a.id) == Lookup(st.approvals, a.id)
    ensures TakesLocalApproval(was, a, inst) <==> TakesLocalApproval(st, a, inst)
  {
    assert ApprovalClaimable(was, a, inst) <==> ApprovalClaimable(st, a, inst);
  }

  lemma MergedApprovalsIgnoresIndexes(a: Store, b: Store, locals: Approvals, inst: string)
    requires b == a.(rooms := b.rooms, threads := b.threads)
    ensures MergedApprovals(a, locals, inst) == MergedApprovals(b, locals, inst)
  {
  }
}
