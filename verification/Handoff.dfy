/**
 Importing the state of a previous worker of the same installation (wxcd-worker/src/main.rs,
 `apply_webex_handoff_payload`), and the round trip from an export.
 */
module Handoff {
  import opened Wrappers
  import opened Model
  import opened SessionStore
  import opened Mirror
  import Dedupe
  import EventLog

  datatype Payload = Payload(snapshot: BridgeSnapshot, recent: seq<string>, inFlight: set<string>)

  function Stamp(s: SessionRecord, inst: string, at: int): SessionRecord {
    s.(authority := Some(s.authority.GetOr(inst)), mirror := Some(s.mirror.GetOr(LocalMirror(inst, at))))
  }

  datatype Decision = Keep | Replace(session: SessionRecord) | FillIn(session: SessionRecord)

  /** What the import does under `local.id`. */
  function Decide(st: Store, local: SessionRecord, inFlight: set<string>, inst: string, at: int): Decision {
    if !HasEvidence(local, inst) || local.id in st.purgedIds then Keep
    else match Lookup(st.sessions, local.id)
      case None => if StaleSession(st, local) then Keep else Replace(Stamp(local, inst, at))
      case Some(r) =>
        if !Claimable(r, inst) || BlocksReplacement(r, local) then Keep
        else if local.id in inFlight || local.updatedAt >= r.updatedAt then Replace(Stamp(local, inst, at))
        else if r.authority.Some? && r.mirror.Some? then Keep
        else FillIn(r.(authority := Some(r.authority.GetOr(inst)),
                       mirror := Some(r.mirror.GetOr(local.mirror.GetOr(LocalMirror(inst, at))))))
  }

  function DecideAt(st: Store, locals: Sessions, id: string, inFlight: set<string>, inst: string, at: int): Decision {
    if id in locals then Decide(st, locals[id], inFlight, inst, at) else Keep
  }

  function ImportedSessions(st: Store, locals: Sessions, inFlight: set<string>, inst: string, at: int): Sessions {
    map id | id in st.sessions.Keys + locals.Keys
             && (id in st.sessions || !DecideAt(st, locals, id, inFlight, inst, at).Keep?)
      :: if DecideAt(st, locals, id, inFlight, inst, at).Keep? then st.sessions[id]
         else DecideAt(st, locals, id, inFlight, inst, at).session
  }

  function Authoritative(st: Store, locals: Sessions, inFlight: set<string>, inst: string, at: int): set<string> {
    set id | id in locals && Decide(st, locals[id], inFlight, inst, at).Replace?
  }

  /** Of the approvals on replaced sessions, only those the export also holds stay pending. */
  function ReconciledApprovals(st: Store, replaced: set<string>, locals: Approvals, inst: string): Approvals {
    map id | id in st.approvals
             && ((id in locals && ApprovalClaimable(st, locals[id], inst))
                 || !(st.approvals[id].session in replaced
                      && st.approvals[id].session in st.sessions
                      && BelongsTo(st.sessions[st.approvals[id].session], inst)))
      :: st.approvals[id]
  }

  /** The import, apart from the rebuilt indexes. */
  function Imported(st: Store, sessions: Sessions, approvals: Approvals, p: Payload, inst: string, at: int): Store {
    var s1 := st.(sessions := ImportedSessions(st, sessions, p.inFlight, inst, at));
    var replaced := Authoritative(st, sessions, p.inFlight, inst, at);
    var s2 := s1.(approvals := ReconciledApprovals(s1, replaced, approvals, inst));
    var s3 := s2.(approvals := MergedApprovals(s2, approvals, inst));
    s3.(recent := Dedupe.Merge(s3.recent, p.recent))
  }

  /** Like the mirror merge, the import never un-archives, revives a purged id or touches a foreign session. */
  lemma ImportSafety(st: Store, locals: Sessions, inFlight: set<string>, inst: string, at: int, id: string)
    requires KeyedById(locals, map[]) && KeyedById(st.sessions, map[])
    ensures var after := ImportedSessions(st, locals, inFlight, inst, at);
            && KeyedById(after, map[])
            && (id in st.sessions ==>
                  && id in after
                  && (id !in inFlight ==> after[id].updatedAt >= st.sessions[id].updatedAt)
                  && (IsArchived(st.sessions[id]) ==> IsArchived(after[id]))
                  && (!Claimable(st.sessions[id], inst) ==> after[id] == st.sessions[id]))
            && (id in after && id !in st.sessions ==>
                  && id !in st.purgedIds
                  && (st.snapshotAt.Some? ==> st.snapshotAt.value < after[id].updatedAt))
  {
  }

  // ---- What the import takes, in the records' own fields ----

  predicate Mirrored(s: SessionRecord, inst: string) {
    s.authority == Some(inst) || (s.mirror.Some? && s.mirror.value.installation == inst)
  }

  /** A claim is filled in where it is missing and otherwise kept. */
  predicate Filled(after: SessionRecord, before: SessionRecord, inst: string) {
    && after.authority == (if before.authority.Some? then before.authority else Some(inst))
    && after.mirror.Some? && (before.mirror.Some? ==> after.mirror == before.mirror)
  }

  /** An absent session is imported exactly when it is this installation's, not purged and newer than the snapshot. */
  lemma ImportAddsAbsent(st: Store, locals: Sessions, inFlight: set<string>, inst: string, at: int, id: string)
    requires KeyedById(locals, map[]) && id in locals && id !in st.sessions
    ensures var local, after := locals[id], ImportedSessions(st, locals, inFlight, inst, at);
            && (id in after <==>
                  && Mirrored(local, inst) && id !in st.purgedIds
                  && (st.snapshotAt.Some? ==> local.updatedAt > st.snapshotAt.value))
            && (id in after ==> SameButClaim(after[id], local) && Filled(after[id], local, inst))
  {
  }

  /**
   A known session takes the exported record if that one is no older or had Codex work in flight, and keeps its
   own otherwise; it is left alone if it is owned elsewhere, purged, or archived here and not there.
   */
  lemma ImportTakesExported(st: Store, locals: Sessions, inFlight: set<string>, inst: string, at: int, id: string)
    requires KeyedById(locals, map[]) && id in locals && id in st.sessions
    ensures var local, remote := locals[id], st.sessions[id];
            var after := ImportedSessions(st, locals, inFlight, inst, at);
            var blocked := (remote.archived || remote.state == Archived) && !local.archived && local.state != Archived;
            var eligible := Mirrored(local, inst) && id !in st.purgedIds && !blocked
                            && remote.authority in {None, Some(inst)};
            var taken := eligible && (id in inFlight || local.updatedAt >= remote.updatedAt);
            && id in after
            && (!eligible ==> after[id] == remote)
            && (taken ==> SameButClaim(after[id], local) && Filled(after[id], local, inst))
            && (eligible && !taken ==> SameButClaim(after[id], remote) && Filled(after[id], remote, inst))
            && (taken <==> id in Authoritative(st, locals, inFlight, inst, at))
  {
  }

  /** An approval is dropped exactly when its session was replaced, is still owned, and the export lacks it as open. */
  lemma ReconcileDropsExactly(st: Store, replaced: set<string>, locals: Approvals, inst: string, id: string)
    requires id in st.approvals
    ensures var after := ReconciledApprovals(st, replaced, locals, inst);
            var session := st.approvals[id].session;
            var owned := session in st.sessions
                         && (if st.sessions[session].authority.Some? then st.sessions[session].authority == Some(inst)
                             else Mirrored(st.sessions[session], inst));
            && (id in after <==> (id in locals && StillOpen(st, locals[id], inst)) || session !in replaced || !owned)
            && (id in after ==> after[id] == st.approvals[id])
  {
  }

  // ---- Round trip ----

  ghost predicate EmptyWorker(st: Store, inst: string) {
    && st.sessions == map[] && st.approvals == map[] && st.rooms == map[] && st.threads == map[]
    && st.recent == [] && st.purgedIds == {} && st.resolvedIds == {} && st.snapshotAt.None?
    && st.installation == Some(inst)
  }

  lemma StampKeepsRouting(s: SessionRecord, inst: string, at: int)
    requires HasEvidence(s, inst)
    ensures BelongsTo(Stamp(s, inst, at), inst) <==> BelongsTo(s, inst)
  {
  }

  lemma SameIndex(kind: IndexKind, source: Store, target: Store, inst: string, at: int)
    requires source.installation == target.installation == Some(inst)
    requires forall id :: id in target.sessions <==> id in source.sessions && HasEvidence(source.sessions[id], inst)
    requires forall id :: id in target.sessions ==> target.sessions[id] == Stamp(source.sessions[id], inst, at)
    requires DistinctKeys(kind, source.sessions)
    ensures forall index :: IsRebuild(kind, index, source.sessions, Some(inst)) ==>
              IsRebuild(kind, index, target.sessions, Some(inst))
    ensures DistinctKeys(kind, target.sessions)
  {
    forall index | IsRebuild(kind, index, source.sessions, Some(inst))
      ensures IsRebuild(kind, index, target.sessions, Some(inst))
    {
      forall k | k in index
        ensures index[k] in target.sessions && KeyOf(kind, target.sessions[index[k]]) == k
                && Indexed(kind, target.sessions[index[k]], Some(inst))
      {
        assert HasEvidence(source.sessions[index[k]], inst);
        StampKeepsRouting(source.sessions[index[k]], inst, at);
      }
      forall id | id in target.sessions && Indexed(kind, target.sessions[id], Some(inst))
        ensures KeyOf(kind, target.sessions[id]) in index
      {
        StampKeepsRouting(source.sessions[id], inst, at);
        assert Indexed(kind, source.sessions[id], Some(inst));
      }
    }
    forall a, b | a in target.sessions && b in target.sessions
                  && KeyOf(kind, target.sessions[a]) == KeyOf(kind, target.sessions[b])
      ensures a == b
    {
      assert KeyOf(kind, source.sessions[a]) == KeyOf(kind, source.sessions[b]);
    }
  }

  lemma ExportedSessions(source: Store, target: Store, inFlight: set<string>, inst: string, at: int)
    requires KeyedById(source.sessions, map[]) && EmptyWorker(target, inst)
    ensures var after := ImportedSessions(target, source.sessions, inFlight, inst, at);
            && (forall id :: id in after <==> id in source.sessions && HasEvidence(source.sessions[id], inst))
            && (forall id :: id in after ==> after[id] == Stamp(source.sessions[id], inst, at))
  {
  }

  lemma SameInFlight(source: Store, target: Store, inst: string, at: int)
    requires source.installation == target.installation == Some(inst)
    requires forall id :: id in target.sessions <==> id in source.sessions && HasEvidence(source.sessions[id], inst)
    requires forall id :: id in target.sessions ==> target.sessions[id] == Stamp(source.sessions[id], inst, at)
    ensures InFlightIds(target) == InFlightIds(source)
  {
    forall id | id in target.sessions ensures id in InFlightIds(target) <==> id in InFlightIds(source) {
      StampKeepsRouting(source.sessions[id], inst, at);
    }
  }

  lemma SameClaimable(source: Store, target: Store, inst: string, at: int)
    requires forall id :: id in target.sessions <==> id in source.sessions && HasEvidence(source.sessions[id], inst)
    requires forall id :: id in target.sessions ==> target.sessions[id] == Stamp(source.sessions[id], inst, at)
    requires target.resolvedIds == source.resolvedIds && target.snapshotAt == source.snapshotAt
    ensures forall a :: ApprovalClaimable(target, a, inst) <==> ApprovalClaimable(source, a, inst)
  {
    forall a ensures ApprovalClaimable(target, a, inst) <==> ApprovalClaimable(source, a, inst) {
      if a.session in target.sessions {
        StampKeepsRouting(source.sessions[a.session], inst, at);
      }
    }
  }

  /**
   Importing an export into an empty worker of the same installation reproduces the source's indexes
   (as soon as the target's are rebuilt), its Codex work in flight, its claimable pending approvals,
   and its dedupe queue in order.
   */
  lemma HandoffRoundTrip(source: Store, target: Store, p: Payload, after: Store, inst: string, at: int)
    requires KeyedById(source.sessions, source.approvals)
    requires EventLog.IsSnapshotOf(p.snapshot, source.sessions, source.approvals)
    requires source.installation == Some(inst) && EmptyWorker(target, inst)
    requires Dedupe.Window(source.recent) && p.recent == source.recent
    requires forall id :: id in source.recent ==> Dedupe.Trim(id) == id && id != ""
    requires Distinct(source.sessions) && IndexesRebuilt(source)
    requires after.(rooms := map[], threads := map[])
             == Imported(target, EventLog.FromSnapshot(p.snapshot).sessions,
                         EventLog.FromSnapshot(p.snapshot).approvals, p, inst, at)
    requires IndexesRebuilt(after)
    ensures after.rooms == source.rooms && after.threads == source.threads
    ensures InFlightIds(after) == InFlightIds(source)
    ensures forall id :: id in after.approvals <==>
              id in source.approvals
              && ApprovalClaimable(source.(resolvedIds := {}, snapshotAt := None), source.approvals[id], inst)
    ensures forall id :: id in after.approvals ==> after.approvals[id] == source.approvals[id]
    ensures after.recent == source.recent
  {
    EventLog.SnapshotRoundTrip(p.snapshot, source.sessions, source.approvals);
    Dedupe.MergeIntoEmpty(source.recent);
    ExportedSessions(source, target, p.inFlight, inst, at);
    SameIndex(Rooms, source, after, inst, at);
    SameIndex(Threads, source, after, inst, at);
    RebuildIsUnique(Rooms, after.rooms, source.rooms, after.sessions, Some(inst));
    RebuildIsUnique(Threads, after.threads, source.threads, after.sessions, Some(inst));
    SameInFlight(source, after, inst, at);
    ImportedApprovals(source, target, p, after.sessions, inst, at);
  }

  lemma ImportedApprovals(source: Store, target: Store, p: Payload, sessions: Sessions, inst: string, at: int)
    requires KeyedById(source.sessions, source.approvals) && EmptyWorker(target, inst)
    requires sessions == ImportedSessions(target, source.sessions, p.inFlight, inst, at)
    requires forall id :: id in sessions <==> id in source.sessions && HasEvidence(source.sessions[id], inst)
    requires forall id :: id in sessions ==> sessions[id] == Stamp(source.sessions[id], inst, at)
    ensures var after := Imported(target, source.sessions, source.approvals, p, inst, at).approvals;
            && (forall id :: id in after <==>
                  id in source.approvals
                  && ApprovalClaimable(source.(resolvedIds := {}, snapshotAt := None), source.approvals[id], inst))
            && (forall id :: id in after ==> after[id] == source.approvals[id])
  {
    var s1 := target.(sessions := sessions);
    SameClaimable(source.(resolvedIds := {}, snapshotAt := None), s1, inst, at);
    var replaced := Authoritative(target, source.sessions, p.inFlight, inst, at);
    assert ReconciledApprovals(s1, replaced, source.approvals, inst) == map[];
    assert s1.(approvals := map[]) == s1;
  }
}
