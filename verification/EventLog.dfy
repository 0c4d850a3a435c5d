/**
 The Data Space log (wxcd-eventlog/src/lib.rs): what one message does to the replayed state, the
 two-pass paged replay, and why snapshots may replace any prefix of the log.
 */
module EventLog {
  import opened Wrappers
  import opened Model

  const REPLAY_PAGE_SIZE := 100
  const REPLAY_MAX_PAGES := 50

  /** A room message after decoding. `BadSnapshot` has the snapshot prefix but does not decode. */
  datatype Message =
    | EventMessage(event: BridgeEvent)
    | SnapshotMessage(snapshot: BridgeSnapshot)
    | BadSnapshot
    | Junk

  datatype ReplayState = ReplayState(
    sessions: Sessions,
    approvals: Approvals,
    eventsSince: nat,
    snapshotAt: Option<int>,
    archivedIds: set<string>,
    purgedIds: set<string>,
    resolvedIds: set<string>)

  const DEFAULT := ReplayState(map[], map[], 0, None, {}, {}, {})

  // ---- What one message does ----

  function ApplyEvent(s: ReplayState, e: BridgeEvent): ReplayState {
    match e
    case SessionCreated(r) => s.(sessions := s.sessions[r.id := r])
    case SessionUpdated(r) => s.(sessions := s.sessions[r.id := r])
    case SessionArchived(id) =>
      s.(archivedIds := s.archivedIds + {id},
         sessions := if id in s.sessions
                     then s.sessions[id := s.sessions[id].(archived := true, state := Archived)]
                     else s.sessions,
         approvals := WithoutSession(s.approvals, id))
    case SessionPurged(id) =>
      s.(purgedIds := s.purgedIds + {id},
         archivedIds := s.archivedIds - {id},
         sessions := s.sessions - {id},
         approvals := WithoutSession(s.approvals, id))
    case ApprovalRequested(a) => s.(approvals := s.approvals[a.id := a])
    case ApprovalResolved(id, _, _) =>
      s.(resolvedIds := s.resolvedIds + {id}, approvals := s.approvals - {id})
  }

  function IndexSessions(ss: seq<SessionRecord>): Sessions {
    if ss == [] then map[]
    else IndexSessions(ss[..|ss| - 1])[ss[|ss| - 1].id := ss[|ss| - 1]]
  }

  function IndexApprovals(ps: seq<PendingApproval>): Approvals {
    if ps == [] then map[]
    else IndexApprovals(ps[..|ps| - 1])[ps[|ps| - 1].id := ps[|ps| - 1]]
  }

  function FromSnapshot(snap: BridgeSnapshot): ReplayState {
    DEFAULT.(sessions := IndexSessions(snap.sessions),
             approvals := IndexApprovals(snap.approvals),
             snapshotAt := Some(snap.createdAt))
  }

  function Absorb(s: ReplayState, m: Message): ReplayState {
    match m
    case EventMessage(e) => ApplyEvent(s, e).(eventsSince := s.eventsSince + 1)
    case SnapshotMessage(snap) => FromSnapshot(snap)
    case BadSnapshot => s
    case Junk => s
  }

  /** The reference meaning of a log, oldest message first: a left fold that restarts at each snapshot. */
  function Replay(log: seq<Message>): ReplayState {
    if log == [] then DEFAULT else Absorb(Replay(log[..|log| - 1]), log[|log| - 1])
  }

  function AbsorbAll(s: ReplayState, log: seq<Message>): ReplayState {
    if log == [] then s else Absorb(AbsorbAll(s, log[..|log| - 1]), log[|log| - 1])
  }

  lemma {:induction false} ReplayConcat(a: seq<Message>, b: seq<Message>)
    ensures Replay(a + b) == AbsorbAll(Replay(a), b)
  {
    if b == [] {
      assert a + b == a;
    } else {
      assert (a + b)[..|a + b| - 1] == a + b[..|b| - 1];
      ReplayConcat(a, b[..|b| - 1]);
    }
  }

  // ---- Snapshots ----

  /** `snap` lists exactly the values of the two maps, in any order (`to_snapshot`). */
  ghost predicate IsSnapshotOf(snap: BridgeSnapshot, sessions: Sessions, approvals: Approvals) {
    && (forall i :: 0 <= i < |snap.sessions| ==>
          snap.sessions[i].id in sessions && sessions[snap.sessions[i].id] == snap.sessions[i])
    && (forall k :: k in sessions ==> sessions[k] in snap.sessions)
    && (forall i :: 0 <= i < |snap.approvals| ==>
          snap.approvals[i].id in approvals && approvals[snap.approvals[i].id] == snap.approvals[i])
    && (forall k :: k in approvals ==> approvals[k] in snap.approvals)
  }

  lemma {:induction false} IndexSessionsContents(ss: seq<SessionRecord>)
    ensures forall k :: k in IndexSessions(ss) ==> IndexSessions(ss)[k] in ss && IndexSessions(ss)[k].id == k
    ensures forall i :: 0 <= i < |ss| ==> ss[i].id in IndexSessions(ss)
  {
    if ss != [] {
      IndexSessionsContents(ss[..|ss| - 1]);
    }
  }

  lemma {:induction false} IndexApprovalsContents(ps: seq<PendingApproval>)
    ensures forall k :: k in IndexApprovals(ps) ==> IndexApprovals(ps)[k] in ps && IndexApprovals(ps)[k].id == k
    ensures forall i :: 0 <= i < |ps| ==> ps[i].id in IndexApprovals(ps)
  {
    if ps != [] {
      IndexApprovalsContents(ps[..|ps| - 1]);
    }
  }

  /** `from_snapshot` undoes `to_snapshot`, whatever order the maps were written in. */
  lemma SnapshotRoundTrip(snap: BridgeSnapshot, sessions: Sessions, approvals: Approvals)
    requires KeyedById(sessions, approvals)
    requires IsSnapshotOf(snap, sessions, approvals)
    ensures FromSnapshot(snap).sessions == sessions
    ensures FromSnapshot(snap).approvals == approvals
  {
    IndexSessionsContents(snap.sessions);
    IndexApprovalsContents(snap.approvals);
    var ss, ps := IndexSessions(snap.sessions), IndexApprovals(snap.approvals);
    forall k | k in sessions ensures k in ss {
      var i :| 0 <= i < |snap.sessions| && snap.sessions[i] == sessions[k];
    }
    forall k | k in approvals ensures k in ps {
      var i :| 0 <= i < |snap.approvals| && snap.approvals[i] == approvals[k];
    }
  }

  lemma {:induction false} ReplayKeyedById(log: seq<Message>)
    ensures KeyedById(Replay(log).sessions, Replay(log).approvals)
  {
    if log != [] {
      ReplayKeyedById(log[..|log| - 1]);
      var m := log[|log| - 1];
      if m.SnapshotMessage? {
        IndexSessionsContents(m.snapshot.sessions);
        IndexApprovalsContents(m.snapshot.approvals);
      }
    }
  }

  ghost predicate SameLive(a: ReplayState, b: ReplayState) {
    a.sessions == b.sessions && a.approvals == b.approvals
  }

  lemma {:induction false} AbsorbAllSameLive(a: ReplayState, b: ReplayState, log: seq<Message>)
    requires SameLive(a, b)
    ensures SameLive(AbsorbAll(a, log), AbsorbAll(b, log))
  {
    if log != [] {
      AbsorbAllSameLive(a, b, log[..|log| - 1]);
    }
  }

  /**
   Compaction: a snapshot of the state after `prefix` may stand for that prefix, or be appended after
   it, without changing the sessions and approvals that any suffix then leads to.
   */
  lemma CompactionSound(prefix: seq<Message>, snap: BridgeSnapshot, suffix: seq<Message>)
    requires IsSnapshotOf(snap, Replay(prefix).sessions, Replay(prefix).approvals)
    ensures SameLive(Replay([SnapshotMessage(snap)] + suffix), Replay(prefix + suffix))
    ensures SameLive(Replay(prefix + [SnapshotMessage(snap)] + suffix), Replay(prefix + suffix))
  {
    ReplayKeyedById(prefix);
    SnapshotRoundTrip(snap, Replay(prefix).sessions, Replay(prefix).approvals);
    var m := [SnapshotMessage(snap)];
    ReplayConcat(prefix, suffix);
    ReplayConcat(m, suffix);
    ReplayConcat(prefix + m, suffix);
    assert (prefix + m)[..|prefix|] == prefix;
    assert Replay(m) == FromSnapshot(snap) == Replay(prefix + m);
    AbsorbAllSameLive(Replay(m), Replay(prefix), suffix);
  }

  /** Only what follows the last decodable snapshot matters. */
  lemma {:induction false} ReplayFromSnapshotOn(log: seq<Message>, cut: nat)
    requires cut <= |log|
    requires cut == 0 || exists i :: cut <= i < |log| && log[i].SnapshotMessage?
    ensures Replay(log[cut..]) == Replay(log)
  {
    var n := |log|;
    if cut == 0 {
      assert log[cut..] == log;
    } else if log[n - 1].SnapshotMessage? {
      assert log[cut..][..n - cut - 1] == log[cut..n - 1];
    } else {
      ReplayFromSnapshotOn(log[..n - 1], cut);
      assert log[cut..][..n - cut - 1] == log[..n - 1][cut..];
    }
  }

  // ---- What a replay remembers of its events ----

  /** `log[k..]` is what follows the last decodable snapshot, or all of the log if there is none. */
  ghost predicate IsTail(log: seq<Message>, k: nat) {
    && k <= |log|
    && (k > 0 ==> log[k - 1].SnapshotMessage?)
    && forall i :: k <= i < |log| ==> !log[i].SnapshotMessage?
  }

  ghost predicate Logged(log: seq<Message>, k: nat, e: BridgeEvent) {
    exists i :: k <= i < |log| && log[i] == EventMessage(e)
  }

  predicate Resolves(m: Message, id: string) {
    m.EventMessage? && m.event.ApprovalResolved? && m.event.approvalId == id
  }

  ghost predicate LoggedResolved(log: seq<Message>, k: nat, id: string) {
    exists i :: k <= i < |log| && Resolves(log[i], id)
  }

  /** Archived since `k`, and not purged after that. */
  ghost predicate LoggedArchived(log: seq<Message>, k: nat, id: string) {
    exists i :: k <= i < |log| && log[i] == EventMessage(SessionArchived(id)) && !Logged(log, i, SessionPurged(id))
  }

  function EventCount(log: seq<Message>, k: nat): nat
    requires k <= |log|
  {
    if k == |log| then 0 else EventCount(log[..|log| - 1], k) + if log[|log| - 1].EventMessage? then 1 else 0
  }

  lemma TailInit(log: seq<Message>, k: nat)
    requires IsTail(log, k) && k < |log|
    ensures IsTail(log[..|log| - 1], k)
  {
  }

  lemma LoggedInit(log: seq<Message>, k: nat, e: BridgeEvent)
    requires k < |log|
    ensures Logged(log, k, e) <==> Logged(log[..|log| - 1], k, e) || log[|log| - 1] == EventMessage(e)
  {
    var init := log[..|log| - 1];
    if Logged(init, k, e) {
      var i :| k <= i < |init| && init[i] == EventMessage(e);
      assert log[i] == EventMessage(e);
    }
    if Logged(log, k, e) && log[|log| - 1] != EventMessage(e) {
      var i :| k <= i < |log| && log[i] == EventMessage(e);
      assert init[i] == EventMessage(e);
    }
  }

  /** What is purged is exactly what a purge since the last decodable snapshot names. */
  lemma {:induction false} PurgedExactly(log: seq<Message>, k: nat, id: string)
    requires IsTail(log, k)
    ensures id in Replay(log).purgedIds <==> Logged(log, k, SessionPurged(id))
  {
    if k < |log| {
      TailInit(log, k);
      LoggedInit(log, k, SessionPurged(id));
      PurgedExactly(log[..|log| - 1], k, id);
    } else {
      assert !Logged(log, k, SessionPurged(id));
    }
  }

  lemma LoggedArchivedInit(log: seq<Message>, k: nat, id: string)
    requires k < |log|
    ensures LoggedArchived(log, k, id) <==>
            || log[|log| - 1] == EventMessage(SessionArchived(id))
            || (LoggedArchived(log[..|log| - 1], k, id) && log[|log| - 1] != EventMessage(SessionPurged(id)))
  {
    var init, last := log[..|log| - 1], |log| - 1;
    if log[last] == EventMessage(SessionArchived(id)) {
      assert !Logged(log, last, SessionPurged(id));
    }
    if LoggedArchived(init, k, id) && log[last] != EventMessage(SessionPurged(id)) {
      var i :| k <= i < |init| && init[i] == EventMessage(SessionArchived(id)) && !Logged(init, i, SessionPurged(id));
      LoggedInit(log, i, SessionPurged(id));
      assert log[i] == EventMessage(SessionArchived(id));
    }
    if LoggedArchived(log, k, id) && log[last] != EventMessage(SessionArchived(id)) {
      var i :| k <= i < |log| && log[i] == EventMessage(SessionArchived(id)) && !Logged(log, i, SessionPurged(id));
      LoggedInit(log, i, SessionPurged(id));
      assert init[i] == EventMessage(SessionArchived(id));
    }
  }

  lemma {:induction false} ArchivedExactly(log: seq<Message>, k: nat, id: string)
    requires IsTail(log, k)
    ensures id in Replay(log).archivedIds <==> LoggedArchived(log, k, id)
  {
    if k < |log| {
      TailInit(log, k);
      LoggedArchivedInit(log, k, id);
      ArchivedExactly(log[..|log| - 1], k, id);
    } else {
      assert !LoggedArchived(log, k, id);
    }
  }

  lemma {:induction false} ResolvedExactly(log: seq<Message>, k: nat, id: string)
    requires IsTail(log, k)
    ensures id in Replay(log).resolvedIds <==> LoggedResolved(log, k, id)
  {
    if k < |log| {
      var init, last := log[..|log| - 1], log[|log| - 1];
      TailInit(log, k);
      ResolvedExactly(init, k, id);
      assert forall i :: 0 <= i < |init| ==> init[i] == log[i];
      if LoggedResolved(init, k, id) {
        var i :| k <= i < |init| && Resolves(init[i], id);
        assert log[i] == init[i];
      }
    } else {
      assert !LoggedResolved(log, k, id);
    }
  }

  /** The snapshot time is that of the last decodable snapshot, and the count that of the events since. */
  lemma {:induction false} CountsSinceSnapshot(log: seq<Message>, k: nat)
    requires IsTail(log, k)
    ensures Replay(log).snapshotAt == if k == 0 then None else Some(log[k - 1].snapshot.createdAt)
    ensures Replay(log).eventsSince == EventCount(log, k)
  {
    if k < |log| {
      TailInit(log, k);
      CountsSinceSnapshot(log[..|log| - 1], k);
    }
  }

  // ---- The last word on a session or an approval ----

  function SessionOf(e: BridgeEvent): Option<string> {
    match e
    case SessionCreated(r) => Some(r.id)
    case SessionUpdated(r) => Some(r.id)
    case SessionArchived(id) => Some(id)
    case SessionPurged(id) => Some(id)
    case _ => None
  }

  predicate Mentions(log: seq<Message>, id: string) {
    exists i :: 0 <= i < |log| && log[i].EventMessage? && SessionOf(log[i].event) == Some(id)
  }

  predicate HasSnapshot(log: seq<Message>) {
    exists i :: 0 <= i < |log| && log[i].SnapshotMessage?
  }

  lemma MentionsInit(log: seq<Message>, id: string)
    requires log != [] && !Mentions(log, id)
    ensures !Mentions(log[..|log| - 1], id)
    ensures log[|log| - 1].EventMessage? ==> SessionOf(log[|log| - 1].event) != Some(id)
  {
  }

  /** Without a snapshot, a session that no event mentions stays as it was. */
  lemma {:induction false} UnmentionedStays(s: ReplayState, log: seq<Message>, id: string)
    requires !HasSnapshot(log) && !Mentions(log, id)
    ensures Lookup(AbsorbAll(s, log).sessions, id) == Lookup(s.sessions, id)
  {
    if log != [] {
      MentionsInit(log, id);
      assert !log[|log| - 1].SnapshotMessage?;
      assert forall i :: 0 <= i < |log| - 1 ==> log[..|log| - 1][i] == log[i];
      UnmentionedStays(s, log[..|log| - 1], id);
    }
  }

  /** The last event to mention a session, if no snapshot follows it, decides what a replay says of it. */
  lemma LastEventDecides(before: seq<Message>, e: BridgeEvent, rest: seq<Message>, id: string)
    requires SessionOf(e) == Some(id) && !HasSnapshot(rest) && !Mentions(rest, id)
    ensures var was, now := Lookup(Replay(before).sessions, id),
                            Lookup(Replay(before + [EventMessage(e)] + rest).sessions, id);
            && (e.SessionCreated? || e.SessionUpdated? ==> now == Some(e.session))
            && (e.SessionPurged? ==> now == None)
            && (e.SessionArchived? ==>
                  && now.Some? == was.Some?
                  && (now.Some? ==> now.value == was.value.(archived := true, state := Archived)))
  {
    var log := before + [EventMessage(e)];
    assert log[..|log| - 1] == before;
    ReplayConcat(log, rest);
    UnmentionedStays(Replay(log), rest, id);
  }

  predicate AsksFor(e: BridgeEvent, session: string) {
    e.ApprovalRequested? && e.approval.session == session
  }

  /** Archiving or purging a session leaves none of its approvals pending until one is requested again. */
  lemma {:induction false} NoApprovalsLeft(before: seq<Message>, e: BridgeEvent, rest: seq<Message>, id: string)
    requires e == SessionArchived(id) || e == SessionPurged(id)
    requires forall i :: 0 <= i < |rest| ==> !rest[i].SnapshotMessage?
    requires forall i :: 0 <= i < |rest| && rest[i].EventMessage? ==> !AsksFor(rest[i].event, id)
    ensures forall a :: a in Replay(before + [EventMessage(e)] + rest).approvals ==>
              Replay(before + [EventMessage(e)] + rest).approvals[a].session != id
  {
    var log := before + [EventMessage(e)] + rest;
    if rest == [] {
      assert log[..|log| - 1] == before;
    } else {
      var init := rest[..|rest| - 1];
      assert log[..|log| - 1] == before + [EventMessage(e)] + init;
      NoApprovalsLeft(before, e, init, id);
    }
  }

  predicate Decides(e: BridgeEvent, approval: string) {
    (e.ApprovalRequested? && e.approval.id == approval) || (e.ApprovalResolved? && e.approvalId == approval)
  }

  /** A resolved approval is not pending until it is requested again. */
  lemma {:induction false} ResolvedStaysResolved(before: seq<Message>, e: BridgeEvent, rest: seq<Message>)
    requires e.ApprovalResolved?
    requires forall i :: 0 <= i < |rest| ==> !rest[i].SnapshotMessage?
    requires forall i :: 0 <= i < |rest| && rest[i].EventMessage? ==> !Decides(rest[i].event, e.approvalId)
    ensures e.approvalId !in Replay(before + [EventMessage(e)] + rest).approvals
  {
    var log := before + [EventMessage(e)] + rest;
    if rest == [] {
      assert log[..|log| - 1] == before;
    } else {
      var init := rest[..|rest| - 1];
      assert log[..|log| - 1] == before + [EventMessage(e)] + init;
      ResolvedStaysResolved(before, e, init);
    }
  }

  // ---- The replay code ----

  /** `ReplayState` as the source mutates it. */
  class Replayer {
    var sessions: Sessions
    var approvals: Approvals
    var eventsSince: nat
    var snapshotAt: Option<int>
    var archivedIds: set<string>
    var purgedIds: set<string>
    var resolvedIds: set<string>

    ghost function View(): ReplayState
      reads this
    {
      ReplayState(sessions, approvals, eventsSince, snapshotAt, archivedIds, purgedIds, resolvedIds)
    }

    constructor ()
      ensures View() == DEFAULT
    {
      sessions, approvals, eventsSince, snapshotAt := map[], map[], 0, None;
      archivedIds, purgedIds, resolvedIds := {}, {}, {};
    }

    method Load(snap: BridgeSnapshot)
      modifies this
      ensures View() == FromSnapshot(snap)
    {
      sessions, approvals := map[], map[];
      for i := 0 to |snap.sessions|
        invariant approvals == map[] && sessions == IndexSessions(snap.sessions[..i])
      {
        assert snap.sessions[..i + 1][..i] == snap.sessions[..i];
        sessions := sessions[snap.sessions[i].id := snap.sessions[i]];
      }
      assert snap.sessions[..|snap.sessions|] == snap.sessions;
      for i := 0 to |snap.approvals|
        invariant approvals == IndexApprovals(snap.approvals[..i])
        invariant sessions == IndexSessions(snap.sessions)
      {
        assert snap.approvals[..i + 1][..i] == snap.approvals[..i];
        approvals := approvals[snap.approvals[i].id := snap.approvals[i]];
      }
      assert snap.approvals[..|snap.approvals|] == snap.approvals;
      eventsSince, snapshotAt := 0, Some(snap.createdAt);
      archivedIds, purgedIds, resolvedIds := {}, {}, {};
    }

    method Apply(event: BridgeEvent)
      modifies this
      ensures View() == ApplyEvent(old(View()), event)
    {
      match event {
        case SessionCreated(session) =>
          sessions := sessions[session.id := session];
        case SessionUpdated(session) =>
          sessions := sessions[session.id := session];
        case SessionArchived(id) =>
          archivedIds := archivedIds + {id};
          if id in sessions {
            sessions := sessions[id := sessions[id].(archived := true)];
            sessions := sessions[id := sessions[id].(state := Archived)];
          }
          approvals := WithoutSession(approvals, id);
        case SessionPurged(id) =>
          purgedIds := purgedIds + {id};
          archivedIds := archivedIds - {id};
          sessions := sessions - {id};
          approvals := WithoutSession(approvals, id);
        case ApprovalRequested(approval) =>
          approvals := approvals[approval.id := approval];
        case ApprovalResolved(id, _, decision) =>
          if (decision.Accept? || decision.AcceptForSession?) || (decision.Decline? || decision.Cancel?) {
            resolvedIds := resolvedIds + {id};
            approvals := approvals - {id};
          }
      }
    }
  }

  function Reversed(ms: seq<Message>): (r: seq<Message>)
    ensures |r| == |ms|
    ensures forall i :: 0 <= i < |ms| ==> r[i] == ms[|ms| - 1 - i]
  {
    seq(|ms|, i requires 0 <= i < |ms| => ms[|ms| - 1 - i])
  }

  /** The first pass: the state of the last snapshot that decodes, and where to go on from. */
  method LoadLatestSnapshot(messages: seq<Message>) returns (state: Replayer, start: nat)
    ensures fresh(state) && start <= |messages|
    ensures state.View() == Replay(messages[..start])
    ensures start > 0 ==> messages[start - 1].SnapshotMessage?
    ensures forall k :: start <= k < |messages| ==> !messages[k].SnapshotMessage?
  {
    state := new Replayer();
    start := 0;
    for i := 0 to |messages|
      invariant fresh(state) && start <= i
      invariant state.View() == Replay(messages[..start])
      invariant start > 0 ==> messages[start - 1].SnapshotMessage?
      invariant forall k :: start <= k < i ==> !messages[k].SnapshotMessage?
    {
      if messages[i].SnapshotMessage? {
        state.Load(messages[i].snapshot);
        start := i + 1;
        assert messages[..start][..i] == messages[..i];
      }
    }
  }

  lemma ReplayNext(log: seq<Message>, i: nat)
    requires i < |log|
    ensures Replay(log[..i + 1]) == Absorb(Replay(log[..i]), log[i])
  {
    assert log[..i + 1][..i] == log[..i];
  }

  /** Two passes over newest-first messages agree with the one-pass fold over the oldest-first log. */
  method ReplayFromMessages(newestFirst: seq<Message>) returns (r: ReplayState)
    ensures r == Replay(Reversed(newestFirst))
  {
    var messages := Reversed(newestFirst);
    var state, start := LoadLatestSnapshot(messages);
    if start > 0 {
      ReplayNext(messages, start - 1);
    }
    state.eventsSince := 0;
    for i := start to |messages|
      invariant state.View() == Replay(messages[..i])
    {
      ReplayNext(messages, i);
      if messages[i].EventMessage? {
        state.Apply(messages[i].event);
        state.eventsSince := state.eventsSince + 1;
      }
    }
    assert messages[..|messages|] == messages;
    r := ReplayState(state.sessions, state.approvals, state.eventsSince, state.snapshotAt,
                     state.archivedIds, state.purgedIds, state.resolvedIds);
  }

  predicate HasSnapshotPrefix(m: Message) {
    m.SnapshotMessage? || m.BadSnapshot?
  }

  /** The room's page of messages older than the `fetched` newest ones, newest first: full until exhausted. */
  function ListPage(log: seq<Message>, fetched: nat): (page: seq<Message>)
    requires fetched <= |log|
  {
    var n := |log| - fetched;
    Reversed(log[(if n > REPLAY_PAGE_SIZE then n - REPLAY_PAGE_SIZE else 0)..n])
  }

  ghost predicate AnySnapshotPrefix(ms: seq<Message>) {
    exists i :: 0 <= i < |ms| && HasSnapshotPrefix(ms[i])
  }

  const REACH := REPLAY_PAGE_SIZE * REPLAY_MAX_PAGES

  function Newest(log: seq<Message>, n: nat): seq<Message>
    requires n <= |log|
  {
    log[|log| - n..]
  }

  /** The newest `REPLAY_MAX_PAGES` pages hold no snapshot-prefixed message and older messages exist. */
  ghost predicate OutOfReach(log: seq<Message>) {
    |log| > REACH && !AnySnapshotPrefix(Newest(log, REACH))
  }

  ghost predicate IsNewest(messages: seq<Message>, log: seq<Message>) {
    |messages| <= |log| && messages == Reversed(Newest(log, |messages|))
  }

  /** All pages before the one that ends at `read` hold no snapshot prefix. */
  ghost predicate NoPrefixBefore(log: seq<Message>, read: nat)
    requires read <= |log|
  {
    forall m: nat :: m < read && m % REPLAY_PAGE_SIZE == 0 ==> !AnySnapshotPrefix(Newest(log, m))
  }

  /**
   Reading whole pages from the newest message on stops after `read` messages: with the first page that holds
   a snapshot prefix, at the limit, or with all of the log.
   */
  ghost predicate StopsAt(log: seq<Message>, read: nat) {
    && read <= |log| && read <= REACH
    && (read == |log| || read % REPLAY_PAGE_SIZE == 0)
    && (read < |log| && read < REACH ==> AnySnapshotPrefix(Newest(log, read)))
    && NoPrefixBefore(log, read)
  }

  /** There is one such place only. */
  lemma StopsOnce(log: seq<Message>, a: nat, b: nat)
    requires StopsAt(log, a) && StopsAt(log, b)
    ensures a == b
  {
  }

  lemma OnePageMore(log: seq<Message>, messages: seq<Message>, read: nat)
    requires IsNewest(messages, log) && !AnySnapshotPrefix(messages)
    requires NoPrefixBefore(log, |messages|) && |messages| % REPLAY_PAGE_SIZE == 0
    requires |messages| < read <= |messages| + REPLAY_PAGE_SIZE && read <= |log|
    ensures NoPrefixBefore(log, read)
  {
    NewestSnapshotPrefix(messages, log);
    forall m: nat | m < read && m % REPLAY_PAGE_SIZE == 0 ensures !AnySnapshotPrefix(Newest(log, m)) {
      assert m <= |messages|;
    }
  }

  lemma NextPageIsNewest(messages: seq<Message>, log: seq<Message>)
    requires IsNewest(messages, log)
    ensures IsNewest(messages + ListPage(log, |messages|), log)
  {
  }

  lemma NewestSnapshotPrefix(messages: seq<Message>, log: seq<Message>)
    requires IsNewest(messages, log)
    ensures AnySnapshotPrefix(messages) <==> AnySnapshotPrefix(Newest(log, |messages|))
  {
    var tail := Newest(log, |messages|);
    forall i | 0 <= i < |tail| && HasSnapshotPrefix(tail[i]) ensures AnySnapshotPrefix(messages) {
      assert messages[|messages| - 1 - i] == tail[i];
    }
    forall i | 0 <= i < |messages| && HasSnapshotPrefix(messages[i]) ensures AnySnapshotPrefix(tail) {
      assert tail[|messages| - 1 - i] == messages[i];
    }
  }

  lemma SnapshotWithinReach(log: seq<Message>, read: nat)
    requires read <= |log| && read <= REACH
    requires read == |log| || AnySnapshotPrefix(Newest(log, read))
    ensures !OutOfReach(log)
  {
    if |log| > REACH {
      var i :| 0 <= i < read && HasSnapshotPrefix(Newest(log, read)[i]);
      assert Newest(log, REACH)[REACH - read + i] == Newest(log, read)[i];
    }
  }

  lemma PrefixDecodes(log: seq<Message>, read: nat)
    requires read <= |log| && BadSnapshot !in log && AnySnapshotPrefix(Newest(log, read))
    ensures exists i :: |log| - read <= i < |log| && log[i].SnapshotMessage?
  {
    var tail := Newest(log, read);
    var i :| 0 <= i < |tail| && HasSnapshotPrefix(tail[i]);
    assert log[|log| - read + i] == tail[i];
    assert log[|log| - read + i] != BadSnapshot;
  }

  /** Where every snapshot decodes, what the paging has read when it stops replays to the whole log. */
  lemma DecodedStopIsWhole(log: seq<Message>, read: nat)
    requires read <= |log| && BadSnapshot !in log
    requires read == |log| || AnySnapshotPrefix(Newest(log, read))
    ensures Replay(Newest(log, read)) == Replay(log)
  {
    if read < |log| {
      PrefixDecodes(log, read);
    }
    ReplayFromSnapshotOn(log, |log| - read);
  }

  /** `any(message_has_snapshot)`. */
  method HasSnapshotIn(messages: seq<Message>) returns (found: bool)
    ensures found <==> AnySnapshotPrefix(messages)
  {
    found := false;
    for i := 0 to |messages|
      invariant !found
      invariant forall k :: 0 <= k < i ==> !HasSnapshotPrefix(messages[k])
    {
      if HasSnapshotPrefix(messages[i]) {
        return true;
      }
    }
  }

  /** The paging loop: what it has read when it stops, or that it gave up. */
  method ReadPages(log: seq<Message>) returns (ok: bool, messages: seq<Message>, fetches: nat)
    ensures fetches <= REPLAY_MAX_PAGES + 1
    ensures IsNewest(messages, log) && StopsAt(log, |messages|)
    ensures ok ==> |messages| == |log| || AnySnapshotPrefix(messages)
    ensures !ok ==> |log| > |messages| == REACH && !AnySnapshotPrefix(messages)
  {
    var pagesRead := 0;
    messages, fetches := [], 0;
    while true
      invariant fetches == pagesRead <= REPLAY_MAX_PAGES
      invariant IsNewest(messages, log)
      invariant |messages| == REPLAY_PAGE_SIZE * pagesRead
      invariant !AnySnapshotPrefix(messages)
      invariant NoPrefixBefore(log, |messages|)
      decreases |log| - |messages|
    {
      var page := ListPage(log, |messages|);
      fetches := fetches + 1;
      if |page| == 0 {
        return true, messages, fetches;
      }
      if pagesRead >= REPLAY_MAX_PAGES {
        return false, messages, fetches;
      }
      NextPageIsNewest(messages, log);
      OnePageMore(log, messages, |messages| + |page|);
      messages := messages + page;
      pagesRead := pagesRead + 1;
      NewestSnapshotPrefix(messages, log);
      var found := HasSnapshotIn(messages);
      if !(|page| == REPLAY_PAGE_SIZE && !found) {
        return true, messages, fetches;
      }
    }
  }

  /**
   Paged, early-stopping replay of the room log, having read its `read` newest messages in `fetches`
   fetches. It stops with the first page that holds a snapshot prefix, fails exactly when the page limit is
   reached without one, never fetches more than one page past the limit, and refines `Replay` over the whole
   log when all snapshots decode.
   */
  method PagedReplay(log: seq<Message>) returns (r: Result<ReplayState, string>, fetches: nat, read: nat)
    ensures fetches <= 51 && read <= 5000 && StopsAt(log, read)
    ensures r.Failure? <==> OutOfReach(log)
    ensures r.Success? ==> r.value == Replay(Newest(log, read))
    ensures r.Success? && BadSnapshot !in log ==> r.value == Replay(log)
  {
    var ok, messages, n := ReadPages(log);
    fetches, read := n, |messages|;
    NewestSnapshotPrefix(messages, log);
    if !ok {
      return Failure("page limit"), fetches, read;
    }
    SnapshotWithinReach(log, read);
    var state := ReplayFromMessages(messages);
    assert Reversed(messages) == Newest(log, read);
    if BadSnapshot !in log {
      DecodedStopIsWhole(log, read);
    }
    r := Success(state);
  }

  // ---- When stopping early is right ----

  /** Not reading on loses a session that was created before and not mentioned since. */
  lemma UnreadSessionIsLost(s: SessionRecord, read: seq<Message>)
    requires !HasSnapshot(read) && !Mentions(read, s.id)
    ensures Lookup(Replay([EventMessage(SessionCreated(s))] + read).sessions, s.id) == Some(s)
    ensures s.id !in Replay(read).sessions
  {
    var older := [EventMessage(SessionCreated(s))];
    assert older[..0] == [] && [] + read == read;
    ReplayConcat(older, read);
    ReplayConcat([], read);
    UnmentionedStays(Replay(older), read, s.id);
    UnmentionedStays(DEFAULT, read, s.id);
  }

  /** An id longer than every mentioned one. */
  function FreshId(log: seq<Message>): string {
    if log == [] then ""
    else
      var m := log[|log| - 1];
      FreshId(log[..|log| - 1]) + "x" + if m.EventMessage? then SessionOf(m.event).GetOr("") else ""
  }

  lemma {:induction false} FreshIdIsLonger(log: seq<Message>, i: nat)
    requires i < |log| && log[i].EventMessage? && SessionOf(log[i].event).Some?
    ensures |SessionOf(log[i].event).value| < |FreshId(log)|
  {
    if i < |log| - 1 {
      FreshIdIsLonger(log[..|log| - 1], i);
    }
  }

  lemma FreshIdIsUnmentioned(log: seq<Message>)
    ensures !Mentions(log, FreshId(log))
  {
    forall i | 0 <= i < |log| && log[i].EventMessage? ensures SessionOf(log[i].event) != Some(FreshId(log)) {
      if SessionOf(log[i].event).Some? {
        FreshIdIsLonger(log, i);
      }
    }
  }

  /**
   Reading only the newest messages `read` gives the right sessions and approvals for every older history
   exactly when `read` holds a snapshot that decodes. An undecodable one stops the paging all the same.
   */
  lemma EarlyStopExact(read: seq<Message>)
    ensures (forall older: seq<Message> :: SameLive(Replay(older + read), Replay(read))) <==> HasSnapshot(read)
  {
    if HasSnapshot(read) {
      forall older: seq<Message> ensures Replay(older + read) == Replay(read) {
        var i :| 0 <= i < |read| && read[i].SnapshotMessage?;
        assert (older + read)[|older| + i] == read[i];
        assert (older + read)[|older|..] == read;
        ReplayFromSnapshotOn(older + read, |older|);
      }
    } else {
      FreshIdIsUnmentioned(read);
      var s := SessionRecord(FreshId(read), "", "", "", None, Idle, None, None, None, "", 0, false, None, None, None);
      UnreadSessionIsLost(s, read);
      assert !SameLive(Replay([EventMessage(SessionCreated(s))] + read), Replay(read));
    }
  }

  /**
   Such a case, whatever the session and the rest of the page: an undecodable snapshot in the newest page
   stops the paging there, and what `PagedReplay` then returns lacks a session that the log created.
   */
  lemma BadSnapshotHidesSession(s: SessionRecord, page: seq<Message>, read: nat)
    requires |page| == REPLAY_PAGE_SIZE && BadSnapshot in page && !HasSnapshot(page) && !Mentions(page, s.id)
    requires StopsAt([EventMessage(SessionCreated(s))] + page, read)
    ensures var log := [EventMessage(SessionCreated(s))] + page;
            && read == REPLAY_PAGE_SIZE && !OutOfReach(log)
            && Lookup(Replay(log).sessions, s.id) == Some(s)
            && s.id !in Replay(Newest(log, read)).sessions
  {
    var log := [EventMessage(SessionCreated(s))] + page;
    StopsAtFirstPage(log, page);
    StopsOnce(log, read, REPLAY_PAGE_SIZE);
    UnreadSessionIsLost(s, page);
  }

  lemma StopsAtFirstPage(log: seq<Message>, page: seq<Message>)
    requires |page| == REPLAY_PAGE_SIZE < |log| && Newest(log, REPLAY_PAGE_SIZE) == page && BadSnapshot in page
    ensures StopsAt(log, REPLAY_PAGE_SIZE)
  {
    var i :| 0 <= i < |page| && page[i] == BadSnapshot;
    assert HasSnapshotPrefix(page[i]);
  }

  /** The same of the method itself. */
  method ReplayPastBadSnapshot(s: SessionRecord, page: seq<Message>) returns (r: Result<ReplayState, string>)
    requires |page| == REPLAY_PAGE_SIZE && BadSnapshot in page && !HasSnapshot(page) && !Mentions(page, s.id)
    ensures r.Success? && s.id !in r.value.sessions
    ensures s.id in Replay([EventMessage(SessionCreated(s))] + page).sessions
  {
    var log := [EventMessage(SessionCreated(s))] + page;
    var replayed, fetches, read := PagedReplay(log);
    BadSnapshotHidesSession(s, page, read);
    r := replayed;
  }
}
