/**
 A worker that starts from the room log and merges its local snapshot (wxcd-worker/src/main.rs, the start of the
 worker): what the log has ended does not come back from the snapshot.
 */
module Restart {
  import opened Wrappers
  import opened Model
  import opened SessionStore
  import opened EventLog
  import opened Mirror
  import opened Worker

  /** `log[at]` is the event, no snapshot follows it, and no later event mentions the session. */
  ghost predicate LastWord(log: seq<Message>, at: nat, e: BridgeEvent, id: string) {
    && at < |log| && log[at] == EventMessage(e) && SessionOf(e) == Some(id)
    && !HasSnapshot(log[at + 1..]) && !Mentions(log[at + 1..], id)
  }

  lemma LastWordDecides(log: seq<Message>, at: nat, e: BridgeEvent, id: string)
    requires LastWord(log, at, e, id)
    ensures e.SessionPurged? ==> id !in Replay(log).sessions && id in Replay(log).purgedIds
    ensures e.SessionArchived? && id in Replay(log).sessions ==>
              Replay(log).sessions[id].archived && Replay(log).sessions[id].state == Archived
  {
    assert log == log[..at] + [EventMessage(e)] + log[at + 1..];
    LastEventDecides(log[..at], e, log[at + 1..], id);
    if e.SessionPurged? {
      var k := LastSnapshotEnd(log, at);
      PurgedExactly(log, k, id);
    }
  }

  /** Where the tail that holds `log[at]` begins, when no snapshot follows `at`. */
  lemma LastSnapshotEnd(log: seq<Message>, at: nat) returns (k: nat)
    requires at < |log| && !log[at].SnapshotMessage? && !HasSnapshot(log[at + 1..])
    ensures IsTail(log, k) && k <= at
  {
    k := at;
    while k > 0 && !log[k - 1].SnapshotMessage?
      invariant k <= at
      invariant forall i :: k <= i <= at ==> !log[i].SnapshotMessage?
    {
      k := k - 1;
    }
    forall i | at < i < |log| ensures !log[i].SnapshotMessage? {
      assert log[at + 1..][i - at - 1] == log[i];
    }
  }

  /**
   A session whose last word in the log is a purge is not in the store after the merge, whatever the local
   snapshot says, and one whose last word is its archiving stays archived. No resolved approval comes back.
   */
  method StartAndMerge(log: seq<Message>, local: ReplayState, inst: string, now: int, scope: ClaimScope,
                       ghost at: nat, ghost e: BridgeEvent, ghost id: string)
    returns (state: WorkerState)
    requires KeyedById(local.sessions, local.approvals)
    requires LastWord(log, at, e, id)
    ensures fresh(state) && state.Valid() && IndexesRebuilt(state.View())
    ensures e.SessionPurged? ==> id !in state.sessions
    ensures e.SessionArchived? && id in Replay(log).sessions ==>
              id in state.sessions && (state.sessions[id].archived || state.sessions[id].state == Archived)
    ensures forall a :: a in state.approvals ==>
              a in Replay(log).approvals || (a in local.approvals && a !in Replay(log).resolvedIds)
  {
    ReplayKeyedById(log);
    LastWordDecides(log, at, e, id);
    var replayed := ReplayFromMessages(Reversed(log));
    assert Reversed(Reversed(log)) == log;
    state := new WorkerState(replayed);
    state.SetExecutableInstallation(inst);
    ghost var before := state.View();
    var changed := state.MergeLocalMirror(local, inst, now, scope);
    MergeSafety(before, local.sessions, inst, now, scope, id);
    assert state.sessions == MergedSessions(before, local.sessions, inst, now, scope);
    ghost var merged := before.(sessions := state.sessions);
    forall a ensures a in state.approvals ==>
               a in replayed.approvals || (a in local.approvals && a !in replayed.resolvedIds)
    {
      MergeTakesApprovals(merged, local.approvals, inst, a);
    }
  }
}
