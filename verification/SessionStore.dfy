/**
 The worker's store as a value, and its two derived indexes (wxcd-worker/src/main.rs, `WorkerState`).
 Both indexes follow one scheme, so what is proved here is proved once for either `IndexKind`.
 */
module SessionStore {
  import opened Wrappers
  import opened Model

  type Index = map<string, string>

  datatype Store = Store(
    sessions: Sessions,
    rooms: Index,
    threads: Index,
    approvals: Approvals,
    snapshotAt: Option<int>,
    archivedIds: set<string>,
    purgedIds: set<string>,
    resolvedIds: set<string>,
    recent: seq<string>,
    eventsSince: nat,
    installation: Option<string>)

  datatype IndexKind = Rooms | Threads

  predicate BelongsTo(s: SessionRecord, installation: string) {
    match s.authority
    case Some(owner) => owner == installation
    case None => s.mirror.Some? && s.mirror.value.installation == installation
  }

  predicate Routable(s: SessionRecord, installation: Option<string>) {
    !IsArchived(s) && (installation.None? || BelongsTo(s, installation.value))
  }

  predicate Indexed(kind: IndexKind, s: SessionRecord, installation: Option<string>) {
    (kind.Threads? ==> s.state != Failed) && Routable(s, installation)
  }

  function KeyOf(kind: IndexKind, s: SessionRecord): string {
    match kind
    case Rooms => s.room
    case Threads => s.thread
  }

  /** Every entry names an existing, indexed session with that very key. */
  ghost predicate Sound(kind: IndexKind, index: Index, sessions: Sessions, installation: Option<string>) {
    forall k :: k in index ==>
      && index[k] in sessions
      && KeyOf(kind, sessions[index[k]]) == k
      && Indexed(kind, sessions[index[k]], installation)
  }

  /** What `rebuild_session_indexes` may produce; only the choice between sessions sharing a key is open. */
  ghost predicate IsRebuild(kind: IndexKind, index: Index, sessions: Sessions, installation: Option<string>) {
    && Sound(kind, index, sessions, installation)
    && (forall id :: id in sessions && Indexed(kind, sessions[id], installation) ==> KeyOf(kind, sessions[id]) in index)
  }

  ghost predicate DistinctKeys(kind: IndexKind, sessions: Sessions) {
    forall a, b :: a in sessions && b in sessions && KeyOf(kind, sessions[a]) == KeyOf(kind, sessions[b]) ==> a == b
  }

  /** With distinct keys there is nothing left to choose: a rebuilt index is unique. */
  lemma RebuildIsUnique(kind: IndexKind, i: Index, j: Index, sessions: Sessions, installation: Option<string>)
    requires DistinctKeys(kind, sessions)
    requires IsRebuild(kind, i, sessions, installation) && IsRebuild(kind, j, sessions, installation)
    ensures i == j
  {
    forall k | k in i ensures k in j && i[k] == j[k] {
      assert Indexed(kind, sessions[i[k]], installation);
    }
    forall k | k in j ensures k in i {
      assert Indexed(kind, sessions[j[k]], installation);
    }
  }

  // ---- Upsert and remove ----

  function DropKey(kind: IndexKind, index: Index, previous: Option<SessionRecord>): Index {
    if previous.Some? then index - {KeyOf(kind, previous.value)} else index
  }

  function UpsertIndex(kind: IndexKind, index: Index, sessions: Sessions, s: SessionRecord,
                       installation: Option<string>): Index {
    var dropped := DropKey(kind, index, Lookup(sessions, s.id));
    if Indexed(kind, s, installation) then dropped[KeyOf(kind, s) := s.id] else dropped
  }

  function Upsert(st: Store, s: SessionRecord): Store {
    st.(rooms := UpsertIndex(Rooms, st.rooms, st.sessions, s, st.installation),
        threads := UpsertIndex(Threads, st.threads, st.sessions, s, st.installation),
        sessions := st.sessions[s.id := s])
  }

  function Remove(st: Store, id: string): Store {
    if id !in st.sessions then st
    else st.(rooms := DropKey(Rooms, st.rooms, Some(st.sessions[id])),
             threads := DropKey(Threads, st.threads, Some(st.sessions[id])),
             sessions := st.sessions - {id},
             approvals := WithoutSession(st.approvals, id))
  }

  lemma UpsertIndexSound(kind: IndexKind, index: Index, sessions: Sessions, s: SessionRecord, inst: Option<string>)
    requires Sound(kind, index, sessions, inst)
    ensures Sound(kind, UpsertIndex(kind, index, sessions, s, inst), sessions[s.id := s], inst)
  {
  }

  /** Some session other than `id` is indexed under `id`'s key. */
  ghost predicate SharesKey(kind: IndexKind, sessions: Sessions, id: string, inst: Option<string>)
    requires id in sessions
  {
    exists other :: other in sessions && other != id && Indexed(kind, sessions[other], inst)
                    && KeyOf(kind, sessions[other]) == KeyOf(kind, sessions[id])
  }

  /**
   Exactly when the incremental update is still a rebuild: the record is new, or is indexed under the key it
   had, or no other indexed session shares that key.
   */
  lemma UpsertRebuildExactly(kind: IndexKind, index: Index, sessions: Sessions, s: SessionRecord, inst: Option<string>)
    requires IsRebuild(kind, index, sessions, inst)
    ensures IsRebuild(kind, UpsertIndex(kind, index, sessions, s, inst), sessions[s.id := s], inst) <==>
            || s.id !in sessions
            || (Indexed(kind, s, inst) && KeyOf(kind, s) == KeyOf(kind, sessions[s.id]))
            || !SharesKey(kind, sessions, s.id, inst)
  {
    UpsertIndexSound(kind, index, sessions, s, inst);
    if s.id in sessions && SharesKey(kind, sessions, s.id, inst) {
      UpsertDropsShared(kind, index, sessions, s, inst);
    }
    var result := UpsertIndex(kind, index, sessions, s, inst);
    forall id | id in sessions && id != s.id && Indexed(kind, sessions[id], inst)
                && (s.id in sessions ==> KeyOf(kind, sessions[id]) != KeyOf(kind, sessions[s.id]))
      ensures KeyOf(kind, sessions[id]) in result
    {
      assert KeyOf(kind, sessions[id]) in DropKey(kind, index, Lookup(sessions, s.id));
    }
  }

  lemma UpsertDropsShared(kind: IndexKind, index: Index, sessions: Sessions, s: SessionRecord, inst: Option<string>)
    requires s.id in sessions && SharesKey(kind, sessions, s.id, inst)
    ensures IsRebuild(kind, UpsertIndex(kind, index, sessions, s, inst), sessions[s.id := s], inst) ==>
              Indexed(kind, s, inst) && KeyOf(kind, s) == KeyOf(kind, sessions[s.id])
  {
    var other :| other in sessions && other != s.id && Indexed(kind, sessions[other], inst)
                 && KeyOf(kind, sessions[other]) == KeyOf(kind, sessions[s.id]);
    assert sessions[s.id := s][other] == sessions[other];
  }

  /** And for removal: when no other indexed session shares the key. */
  lemma DropRebuildExactly(kind: IndexKind, index: Index, sessions: Sessions, id: string, inst: Option<string>)
    requires id in sessions
    requires Sound(kind, index, sessions, inst)
    ensures Sound(kind, DropKey(kind, index, Some(sessions[id])), sessions - {id}, inst)
    ensures IsRebuild(kind, index, sessions, inst) ==>
              (IsRebuild(kind, DropKey(kind, index, Some(sessions[id])), sessions - {id}, inst) <==>
               !SharesKey(kind, sessions, id, inst))
  {
    var after, result := sessions - {id}, DropKey(kind, index, Some(sessions[id]));
    if SharesKey(kind, sessions, id, inst) {
      var other :| other in sessions && other != id && Indexed(kind, sessions[other], inst)
                   && KeyOf(kind, sessions[other]) == KeyOf(kind, sessions[id]);
      assert after[other] == sessions[other];
    }
  }

  // ---- Both indexes of a store ----

  ghost predicate IndexesSound(st: Store) {
    && Sound(Rooms, st.rooms, st.sessions, st.installation)
    && Sound(Threads, st.threads, st.sessions, st.installation)
  }

  ghost predicate IndexesRebuilt(st: Store) {
    && IsRebuild(Rooms, st.rooms, st.sessions, st.installation)
    && IsRebuild(Threads, st.threads, st.sessions, st.installation)
  }

  ghost predicate Distinct(sessions: Sessions) {
    DistinctKeys(Rooms, sessions) && DistinctKeys(Threads, sessions)
  }

  lemma UpsertIndexes(st: Store, s: SessionRecord)
    requires IndexesSound(st)
    ensures IndexesSound(Upsert(st, s))
    ensures IndexesRebuilt(st) && Distinct(st.sessions) ==>
              IndexesRebuilt(Upsert(st, s))
  {
    UpsertIndexSound(Rooms, st.rooms, st.sessions, s, st.installation);
    UpsertIndexSound(Threads, st.threads, st.sessions, s, st.installation);
    if IndexesRebuilt(st) && Distinct(st.sessions) {
      UpsertRebuildExactly(Rooms, st.rooms, st.sessions, s, st.installation);
      UpsertRebuildExactly(Threads, st.threads, st.sessions, s, st.installation);
    }
  }

  lemma RemoveIndexes(st: Store, id: string)
    requires IndexesSound(st)
    ensures IndexesSound(Remove(st, id))
    ensures IndexesRebuilt(st) && Distinct(st.sessions) ==> IndexesRebuilt(Remove(st, id))
  {
    if id in st.sessions {
      DropRebuildExactly(Rooms, st.rooms, st.sessions, id, st.installation);
      DropRebuildExactly(Threads, st.threads, st.sessions, id, st.installation);
    }
  }

  /**
   What rebuilt indexes route, when nothing is shared: a message in a room reaches the room's session, and a Codex
   notification the thread's, exactly if the session is open and owned here, or nothing is owned yet; and not
   failed, for the thread.
   */
  lemma RoutesExactly(st: Store, id: string)
    requires IndexesRebuilt(st) && Distinct(st.sessions) && id in st.sessions
    ensures var s := st.sessions[id];
            var here := st.installation.None?
                        || (if s.authority.Some? then s.authority == st.installation
                            else s.mirror.Some? && s.mirror.value.installation == st.installation.value);
            var open := !s.archived && s.state != Archived;
            && (Lookup(st.rooms, s.room) == Some(id) <==> open && here)
            && (Lookup(st.threads, s.thread) == Some(id) <==> open && here && s.state != Failed)
  {
    var s := st.sessions[id];
    if Indexed(Rooms, s, st.installation) {
      assert KeyOf(Rooms, st.sessions[id]) in st.rooms;
      assert KeyOf(Rooms, st.sessions[st.rooms[s.room]]) == KeyOf(Rooms, st.sessions[id]);
    }
    if Indexed(Threads, s, st.installation) {
      assert KeyOf(Threads, st.sessions[id]) in st.threads;
      assert KeyOf(Threads, st.sessions[st.threads[s.thread]]) == KeyOf(Threads, st.sessions[id]);
    }
  }

  // ---- Codex work in flight ----

  predicate InFlight(s: SessionRecord) {
    s.activeTurn.Some? || s.state.Creating? || s.state.Running? || s.state.WaitingApproval?
  }

  ghost function InFlightIds(st: Store): set<string> {
    set id | id in st.sessions && Routable(st.sessions[id], st.installation) && InFlight(st.sessions[id])
  }
}
