/**
 Merging this installation's local snapshot into the replayed store (wxcd-worker/src/main.rs,
 `merge_local_mirror`). Each id is decided on its own, so the outcome is a map comprehension: the
 method that loops over hash maps is proved equal to it for whatever order the maps are iterated in.
 */
module Mirror {
  import opened Wrappers
  import opened Model
  import opened SessionStore

  datatype ClaimScope =
    | CurrentWriterSnapshot
    | CurrentWriterSnapshotOrListedThreads(threads: set<string>)
    | ListedThreads(threads: set<string>)

  predicate HasEvidence(s: SessionRecord, inst: string) {
    s.authority == Some(inst) || (s.mirror.Some? && s.mirror.value.installation == inst)
  }

  predicate Allows(scope: ClaimScope, s: SessionRecord, inst: string) {
    match scope
    case CurrentWriterSnapshot => HasEvidence(s, inst)
    case CurrentWriterSnapshotOrListedThreads(ids) => HasEvidence(s, inst) || s.thread in ids
    case ListedThreads(ids) => s.thread in ids
  }

  /** No authority is recorded, or it is this installation's. */
  predicate Claimable(s: SessionRecord, inst: string) {
    s.authority.None? || s.authority.value == inst
  }

  predicate BlocksReplacement(remote: SessionRecord, local: SessionRecord) {
    IsArchived(remote) && !IsArchived(local)
  }

  predicate StaleSession(st: Store, s: SessionRecord) {
    s.id in st.purgedIds || (st.snapshotAt.Some? && st.snapshotAt.value >= s.updatedAt)
  }

  predicate StaleApproval(st: Store, a: PendingApproval) {
    a.id in st.resolvedIds || (st.snapshotAt.Some? && st.snapshotAt.value >= a.requestedAt)
  }

  function DesiredMirror(local: SessionRecord, inst: string, at: int): LocalMirror {
    if local.mirror.Some? && local.mirror.value.installation == inst then local.mirror.value
    else LocalMirror(inst, at)
  }

  function Claim(s: SessionRecord, inst: string, mirror: LocalMirror): SessionRecord {
    s.(authority := Some(s.authority.GetOr(inst)), mirror := Some(mirror))
  }

  /** What the merge leaves under `local.id`. */
  function MergeOne(st: Store, local: SessionRecord, inst: string, at: int, scope: ClaimScope): Option<SessionRecord> {
    var remote := Lookup(st.sessions, local.id);
    if !Claimable(local, inst) || !Allows(scope, local, inst) then remote
    else
      var mirror := DesiredMirror(local, inst, at);
      var claimed := Claim(local, inst, mirror);
      match remote
      case None => if StaleSession(st, claimed) then None else Some(claimed)
      case Some(r) =>
        if !Claimable(r, inst) then remote
        else if local.updatedAt > r.updatedAt && !BlocksReplacement(r, local)
                && !(local.id in st.archivedIds && !IsArchived(local)) then Some(claimed)
        else Some(Claim(r, inst, mirror))
  }

  function MergedAt(st: Store, locals: Sessions, id: string, inst: string, at: int, scope: ClaimScope)
    : Option<SessionRecord>
  {
    if id in locals then MergeOne(st, locals[id], inst, at, scope) else Lookup(st.sessions, id)
  }

  function MergedSessions(st: Store, locals: Sessions, inst: string, at: int, scope: ClaimScope): Sessions {
    map id | id in st.sessions.Keys + locals.Keys && MergedAt(st, locals, id, inst, at, scope).Some?
      :: MergedAt(st, locals, id, inst, at, scope).value
  }

  predicate ApprovalClaimable(st: Store, a: PendingApproval, inst: string) {
    && !StaleApproval(st, a)
    && a.session in st.sessions
    && BelongsTo(st.sessions[a.session], inst)
    && a.thread == st.sessions[a.session].thread
  }

  /** The local approval wins if it is claimable and no pending one under its id is as recent. */
  predicate TakesLocalApproval(st: Store, a: PendingApproval, inst: string) {
    && ApprovalClaimable(st, a, inst)
    && (a.id in st.approvals ==> st.approvals[a.id].requestedAt < a.requestedAt)
  }

  function MergedApprovals(st: Store, locals: Approvals, inst: string): Approvals {
    map id | id in st.approvals.Keys + locals.Keys
             && (id in st.approvals || TakesLocalApproval(st, locals[id], inst))
      :: if id in locals && TakesLocalApproval(st, locals[id], inst) then locals[id] else st.approvals[id]
  }

  /** The sessions and approvals that the merge leaves; indexes are rebuilt from them. */
  function Merged(st: Store, sessions: Sessions, approvals: Approvals, inst: string, at: int, scope: ClaimScope)
    : Store
  {
    var claimed := st.(sessions := MergedSessions(st, sessions, inst, at, scope));
    claimed.(approvals := MergedApprovals(claimed, approvals, inst))
  }

  // ---- Properties ----

  lemma MergeOneStable(st: Store, once: Store, local: SessionRecord, inst: string, at: int, scope: ClaimScope)
    requires once.snapshotAt == st.snapshotAt && once.purgedIds == st.purgedIds && once.archivedIds == st.archivedIds
    requires Lookup(once.sessions, local.id) == MergeOne(st, local, inst, at, scope)
    ensures MergeOne(once, local, inst, at, scope) == Lookup(once.sessions, local.id)
  {
  }

  lemma MergedSessionsAt(st: Store, locals: Sessions, inst: string, at: int, scope: ClaimScope, id: string)
    ensures Lookup(MergedSessions(st, locals, inst, at, scope), id) == MergedAt(st, locals, id, inst, at, scope)
  {
  }

  lemma SessionsMergeIdempotent(st: Store, once: Store, locals: Sessions, inst: string, at: int, scope: ClaimScope)
    requires KeyedById(locals, map[])
    requires once.snapshotAt == st.snapshotAt && once.purgedIds == st.purgedIds && once.archivedIds == st.archivedIds
    requires once.sessions == MergedSessions(st, locals, inst, at, scope)
    ensures MergedSessions(once, locals, inst, at, scope) == once.sessions
  {
    var twice := MergedSessions(once, locals, inst, at, scope);
    forall id ensures Lookup(twice, id) == Lookup(once.sessions, id) {
      MergedSessionsAt(st, locals, inst, at, scope, id);
      MergedSessionsAt(once, locals, inst, at, scope, id);
      if id in locals {
        MergeOneStable(st, once, locals[id], inst, at, scope);
      }
    }
    forall id ensures id in twice <==> id in once.sessions {
      assert Lookup(twice, id) == Lookup(once.sessions, id);
    }
    forall id | id in twice ensures twice[id] == once.sessions[id] {
      assert Lookup(twice, id) == Lookup(once.sessions, id);
    }
  }

  lemma ApprovalsMergeIdempotent(st: Store, once: Store, locals: Approvals, inst: string)
    requires KeyedById(map[], locals) && KeyedById(map[], st.approvals)
    requires once == st.(approvals := MergedApprovals(st, locals, inst))
    ensures MergedApprovals(once, locals, inst) == once.approvals
  {
    forall id | id in locals ensures !TakesLocalApproval(once, locals[id], inst) {
      if ApprovalClaimable(once, locals[id], inst) {
        assert ApprovalClaimable(st, locals[id], inst);
      }
    }
  }

  /** Merging the same snapshot again, with the same timestamp, changes nothing. */
  lemma MergeIdempotent(st: Store, sessions: Sessions, approvals: Approvals, inst: string, at: int, scope: ClaimScope)
    requires KeyedById(sessions, approvals) && KeyedById(st.sessions, st.approvals)
    ensures var once := Merged(st, sessions, approvals, inst, at, scope);
            Merged(once, sessions, approvals, inst, at, scope) == once
  {
    var once := Merged(st, sessions, approvals, inst, at, scope);
    SessionsMergeIdempotent(st, once, sessions, inst, at, scope);
    ApprovalsMergeIdempotent(st.(sessions := once.sessions), once, approvals, inst);
  }

  /** What the merge never does to one session, present or absent. */
  lemma MergeSafety(st: Store, locals: Sessions, inst: string, at: int, scope: ClaimScope, id: string)
    requires KeyedById(locals, map[]) && KeyedById(st.sessions, map[])
    ensures var after := MergedSessions(st, locals, inst, at, scope);
            && KeyedById(after, map[])
            && (id in st.sessions ==>
                  && id in after
                  && after[id].updatedAt >= st.sessions[id].updatedAt
                  && (IsArchived(st.sessions[id]) ==> IsArchived(after[id]))
                  && (!Claimable(st.sessions[id], inst) ==> after[id] == st.sessions[id]))
            && (id in after && id !in st.sessions ==>
                  && id !in st.purgedIds
                  && (st.snapshotAt.Some? ==> st.snapshotAt.value < after[id].updatedAt)
                  && after[id].authority == Some(inst))
  {
    var after := MergedSessions(st, locals, inst, at, scope);
    forall k | k in after ensures after[k].id == k {
      assert Some(after[k]) == MergedAt(st, locals, k, inst, at, scope);
    }
    if id in after {
      assert Some(after[id]) == MergedAt(st, locals, id, inst, at, scope);
    }
    if id in st.sessions {
      assert MergedAt(st, locals, id, inst, at, scope).Some?;
    }
  }

  /** A record is replaced only by a strictly newer local one, and otherwise changes in its claim alone. */
  lemma MergePicksNewer(st: Store, locals: Sessions, inst: string, at: int, scope: ClaimScope, id: string)
    requires KeyedById(locals, map[]) && KeyedById(st.sessions, map[])
    requires id in st.sessions
    ensures var r := st.sessions[id];
            var after := MergedSessions(st, locals, inst, at, scope);
            id in after &&
            (after[id].(authority := r.authority, mirror := r.mirror) == r
             || (id in locals && locals[id].updatedAt > r.updatedAt
                 && after[id].(authority := locals[id].authority, mirror := locals[id].mirror) == locals[id]))
  {
    assert MergedAt(st, locals, id, inst, at, scope).Some?;
  }

  // ---- What the merge takes, in the records' own fields ----

  /** Two records of one session that differ in their claim at most. */
  predicate SameButClaim(s: SessionRecord, t: SessionRecord) {
    s.(authority := t.authority, mirror := t.mirror) == t
  }

  /** Owned here, and mirrored since the local record says, or since now if it says nothing of this installation. */
  predicate HasClaim(s: SessionRecord, local: SessionRecord, inst: string, at: int) {
    var mirrored := local.mirror.Some? && local.mirror.value.installation == inst;
    s.authority == Some(inst) && s.mirror == if mirrored then local.mirror else Some(LocalMirror(inst, at))
  }

  /** The scope offers a local record that this installation owns or mirrors, or whose thread is listed. */
  predicate Offered(s: SessionRecord, inst: string, scope: ClaimScope) {
    var known := s.authority == Some(inst) || (s.mirror.Some? && s.mirror.value.installation == inst);
    var listed := !scope.CurrentWriterSnapshot? && s.thread in scope.threads;
    s.authority in {None, Some(inst)} && (listed || (known && !scope.ListedThreads?))
  }

  /** A record that is not offered leaves no trace, and neither does an id without a local record. */
  lemma MergeIgnoresUnoffered(st: Store, locals: Sessions, inst: string, at: int, scope: ClaimScope, id: string)
    requires KeyedById(locals, map[])
    requires id in locals ==> !Offered(locals[id], inst, scope)
    ensures Lookup(MergedSessions(st, locals, inst, at, scope), id) == Lookup(st.sessions, id)
  {
    MergedSessionsAt(st, locals, inst, at, scope, id);
  }

  /** An absent session is added exactly when it is offered, not purged and newer than the remote snapshot. */
  lemma MergeAddsAbsent(st: Store, locals: Sessions, inst: string, at: int, scope: ClaimScope, id: string)
    requires KeyedById(locals, map[]) && id in locals && id !in st.sessions
    ensures var local, after := locals[id], MergedSessions(st, locals, inst, at, scope);
            && (id in after <==>
                  && Offered(local, inst, scope) && id !in st.purgedIds
                  && (st.snapshotAt.Some? ==> local.updatedAt > st.snapshotAt.value))
            && (id in after ==> SameButClaim(after[id], local) && HasClaim(after[id], local, inst, at))
  {
    MergedSessionsAt(st, locals, inst, at, scope, id);
  }

  /**
   A known session that is offered and not owned elsewhere becomes the newer of the two records, claimed; only
   where the room has archived it and the local record has not does it stay as it was.
   */
  lemma MergeTakesNewer(st: Store, locals: Sessions, inst: string, at: int, scope: ClaimScope, id: string)
    requires KeyedById(locals, map[]) && id in locals && id in st.sessions
    requires Offered(locals[id], inst, scope) && st.sessions[id].authority in {None, Some(inst)}
    ensures var local, remote := locals[id], st.sessions[id];
            var after := MergedSessions(st, locals, inst, at, scope);
            var archivedThere := remote.archived || remote.state == Archived || id in st.archivedIds;
            var blocked := archivedThere && !local.archived && local.state != Archived;
            var taken := local.updatedAt > remote.updatedAt && !blocked;
            && id in after && HasClaim(after[id], local, inst, at)
            && SameButClaim(after[id], if taken then local else remote)
            && (!blocked ==> after[id].updatedAt == if local.updatedAt > remote.updatedAt then local.updatedAt
                                                     else remote.updatedAt)
  {
    MergedSessionsAt(st, locals, inst, at, scope, id);
  }

  /** A local approval that is still open for a session of this installation on the same thread. */
  predicate StillOpen(st: Store, a: PendingApproval, inst: string) {
    && a.session in st.sessions
    && var s := st.sessions[a.session];
       && s.thread == a.thread
       && (s.authority == Some(inst) || (s.authority.None? && s.mirror.Some? && s.mirror.value.installation == inst))
       && a.id !in st.resolvedIds
       && (st.snapshotAt.Some? ==> a.requestedAt > st.snapshotAt.value)
  }

  /** Of a pending approval and a local one still open the later request stays; nothing else changes. */
  lemma MergeTakesApprovals(st: Store, locals: Approvals, inst: string, id: string)
    requires KeyedById(map[], locals)
    ensures var after := MergedApprovals(st, locals, inst);
            var open := id in locals && StillOpen(st, locals[id], inst);
            && (!open ==> Lookup(after, id) == Lookup(st.approvals, id))
            && (open ==> id in after)
            && (open && id !in st.approvals ==> after[id] == locals[id])
            && (open && id in st.approvals ==>
                  after[id] == if locals[id].requestedAt > st.approvals[id].requestedAt then locals[id]
                               else st.approvals[id])
  {
  }
}
