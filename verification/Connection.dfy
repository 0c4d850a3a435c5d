/**
 The pending-request table of the Codex connection (wxcd-codex/src/lib.rs, `ConnectionState`), over every
 interleaving of requests, responses and closes. Taking a sender out of the table happens under the lock;
 sending on it happens afterwards, on its own.
 */
module Connection {
  import opened Wrappers

  datatype Outcome = Reply(payload: string) | ErrorReply(payload: string) | ClosedWith(reason: string)

  /** `Sending`: out of the table, its sender yet to be used. */
  datatype Status = Issued | Refused(reason: string) | Pending | Sending(outcome: Outcome) | Answered(outcome: Outcome)

  datatype World = World(nextId: nat, pending: set<nat>, closed: Option<string>, status: map<nat, Status>,
                         sends: seq<(nat, Outcome)>)

  const START := World(1, {}, None, map[], [])

  datatype Action =
    | Issue
    | Register(id: nat)
    | Respond(id: nat, outcome: Outcome)
    | Close(message: string)
    | Deliver(id: nat)

  function CloseReason(closed: Option<string>, message: string): string {
    closed.GetOr(message)
  }

  ghost function Drained(w: World, outcome: Outcome): map<nat, Status> {
    map id | id in w.status :: if id in w.pending then Sending(outcome) else w.status[id]
  }

  ghost predicate Next(w: World, a: Action, w2: World) {
    match a
    case Issue => w2 == w.(nextId := w.nextId + 1, status := w.status[w.nextId := Issued])
    case Register(id) =>
      && id in w.status && w.status[id] == Issued
      && w2 == if w.closed.Some? then w.(status := w.status[id := Refused(w.closed.value)])
               else w.(pending := w.pending + {id}, status := w.status[id := Pending])
    case Respond(id, outcome) =>
      && !outcome.ClosedWith?
      && w2 == if id in w.pending
               then w.(pending := w.pending - {id}, status := w.status[id := Sending(outcome)])
               else w
    case Close(message) =>
      var reason := CloseReason(w.closed, message);
      w2 == w.(closed := Some(reason), pending := {}, status := Drained(w, ClosedWith(reason)))
    case Deliver(id) =>
      && id in w.status && w.status[id].Sending?
      && w2 == w.(status := w.status[id := Answered(w.status[id].outcome)],
                  sends := w.sends + [(id, w.status[id].outcome)])
  }

  ghost predicate Sent(w: World, id: nat) {
    exists i :: 0 <= i < |w.sends| && w.sends[i].0 == id
  }

  ghost predicate Inv(w: World) {
    && (forall id :: id in w.status ==> id < w.nextId)
    && (forall id :: id in w.pending <==> id in w.status && w.status[id] == Pending)
    && (w.closed.Some? ==> w.pending == {})
    && (forall i :: 0 <= i < |w.sends| ==> w.sends[i].0 in w.status && w.status[w.sends[i].0] == Answered(w.sends[i].1))
    && (forall i, j :: 0 <= i < j < |w.sends| ==> w.sends[i].0 != w.sends[j].0)
    && (forall id :: id in w.status && w.status[id].Answered? ==> Sent(w, id))
  }

  ghost predicate IsRun(run: seq<World>, actions: seq<Action>) {
    && |run| == |actions| + 1 && run[0] == START
    && forall i :: 0 <= i < |actions| ==> Next(run[i], actions[i], run[i + 1])
  }

  lemma StepKeepsInv(w: World, a: Action, w2: World)
    requires Inv(w) && Next(w, a, w2)
    ensures Inv(w2)
  {
    forall id | id in w2.status && w2.status[id].Answered? ensures Sent(w2, id) {
      if id in w.status && w.status[id].Answered? {
        var i :| 0 <= i < |w.sends| && w.sends[i].0 == id;
        assert w2.sends[i].0 == id;
      } else {
        assert w2.sends[|w.sends|].0 == id;
      }
    }
  }

  lemma {:induction false} RunKeepsInv(run: seq<World>, actions: seq<Action>, k: nat)
    requires IsRun(run, actions) && k < |run|
    ensures Inv(run[k])
  {
    if k > 0 {
      RunKeepsInv(run, actions, k - 1);
      StepKeepsInv(run[k - 1], actions[k - 1], run[k]);
    }
  }

  /** The outcome of a finished request never changes, and the first close reason is kept. */
  lemma {:induction false} Settled(run: seq<World>, actions: seq<Action>, i: nat, j: nat)
    requires IsRun(run, actions) && i <= j < |run|
    ensures run[i].closed.Some? ==> run[j].closed == run[i].closed
    ensures forall id :: id in run[i].status ==> id in run[j].status
    ensures forall id :: id in run[i].status && (run[i].status[id].Answered? || run[i].status[id].Refused?) ==>
              run[j].status[id] == run[i].status[id]
    ensures forall id :: id in run[i].status && run[i].status[id].Sending? ==>
              run[j].status[id] in {Sending(run[i].status[id].outcome), Answered(run[i].status[id].outcome)}
  {
    if i < j {
      Settled(run, actions, i, j - 1);
      RunKeepsInv(run, actions, j - 1);
      assert Next(run[j - 1], actions[j - 1], run[j]);
    }
  }

  /**
   Each issued id is refused, still waiting to register, pending, being answered, or answered by exactly
   one send. Once closed, none is pending: each has been answered, is about to be, or will be refused.
   */
  lemma NoRequestHangs(run: seq<World>, actions: seq<Action>, k: nat, id: nat)
    requires IsRun(run, actions) && k < |run| && id in run[k].status
    ensures run[k].status[id].Answered? <==> Sent(run[k], id)
    ensures forall i, j :: 0 <= i < |run[k].sends| && 0 <= j < |run[k].sends|
                           && run[k].sends[i].0 == run[k].sends[j].0 == id ==>
              i == j && run[k].status[id] == Answered(run[k].sends[i].1)
    ensures run[k].closed.Some? ==> run[k].pending == {} && run[k].status[id] != Pending
    ensures run[k].closed.Some? && run[k].status[id] == Issued && k < |actions| && actions[k] == Register(id) ==>
              run[k + 1].status[id] == Refused(run[k].closed.value)
  {
    RunKeepsInv(run, actions, k);
    if Sent(run[k], id) {
      var i :| 0 <= i < |run[k].sends| && run[k].sends[i].0 == id;
    }
    if k < |actions| {
      assert Next(run[k], actions[k], run[k + 1]);
    }
  }

  /** Whoever is told of a close is told the first reason. */
  lemma {:induction false} ToldFirstReason(run: seq<World>, actions: seq<Action>, k: nat, id: nat)
    requires IsRun(run, actions) && k < |run| && id in run[k].status
    ensures run[k].status[id].Refused? ==> run[k].closed == Some(run[k].status[id].reason)
    ensures (run[k].status[id].Sending? || run[k].status[id].Answered?) && run[k].status[id].outcome.ClosedWith? ==>
              run[k].closed == Some(run[k].status[id].outcome.reason)
  {
    if k > 0 {
      assert Next(run[k - 1], actions[k - 1], run[k]);
      RunKeepsInv(run, actions, k - 1);
      Settled(run, actions, k - 1, k);
      if id in run[k - 1].status {
        ToldFirstReason(run, actions, k - 1, id);
      }
    }
  }

  // ---- The code ----

  /** `ConnectionState` with `next_id`; the ghost fields record what became of every id. */
  class ConnectionState {
    var nextId: nat
    var pending: set<nat>
    var closed: Option<string>
    ghost var status: map<nat, Status>
    ghost var sends: seq<(nat, Outcome)>

    ghost function View(): World
      reads this
    {
      World(nextId, pending, closed, status, sends)
    }

    constructor ()
      ensures View() == START
    {
      nextId, pending, closed, status, sends := 1, {}, None, map[], [];
    }

    method NextId() returns (id: nat)
      modifies this
      ensures id == old(nextId) && Next(old(View()), Issue, View())
    {
      id := nextId;
      nextId := nextId + 1;
      status := status[id := Issued];
    }

    /** The locked section of `request`. */
    method Register(id: nat) returns (refused: Option<string>)
      requires id in status && status[id] == Issued
      modifies this
      ensures Next(old(View()), Action.Register(id), View())
      ensures refused == old(closed)
    {
      if closed.Some? {
        status := status[id := Refused(closed.value)];
        return closed;
      }
      pending := pending + {id};
      status := status[id := Pending];
      return None;
    }

    /** The response arm of `handle_codex_message`. */
    method HandleResponse(id: nat, outcome: Outcome)
      requires Inv(View()) && !outcome.ClosedWith?
      modifies this
      ensures if id in old(pending)
              then exists mid :: Next(old(View()), Respond(id, outcome), mid) && Next(mid, Deliver(id), View())
              else View() == old(View())
      ensures Inv(View())
    {
      if id in pending {
        ghost var before := View();
        pending := pending - {id};
        status := status[id := Sending(outcome)];
        ghost var mid := View();
        StepKeepsInv(before, Respond(id, outcome), mid);
        Send(id, outcome);
        assert Next(before, Respond(id, outcome), mid) && Next(mid, Deliver(id), View());
      }
    }

    method Send(id: nat, outcome: Outcome)
      requires Inv(View()) && id in status && status[id] == Sending(outcome)
      modifies this`status, this`sends
      ensures Next(old(View()), Deliver(id), View()) && Inv(View())
    {
      ghost var before := View();
      status := status[id := Answered(outcome)];
      sends := sends + [(id, outcome)];
      StepKeepsInv(before, Deliver(id), View());
    }

    /** `close_connection_state`: everything that was pending has been told the first reason. */
    method CloseConnectionState(message: string)
      requires Inv(View())
      modifies this
      ensures Inv(View())
      ensures pending == {} && nextId == old(nextId)
      ensures closed == Some(CloseReason(old(closed), message))
      ensures status.Keys == old(status).Keys
      ensures forall id :: id in status ==>
                status[id] == if id in old(pending) then Answered(ClosedWith(closed.value)) else old(status)[id]
    {
      if closed.None? {
        closed := Some(message);
      }
      var reason := closed.value;
      ghost var before := old(View());
      var senders := pending;
      pending := {};
      status := Drained(before, ClosedWith(reason));
      StepKeepsInv(before, Close(message), View());
      ghost var drained := status;
      var todo := senders;
      while todo != {}
        invariant Inv(View()) && todo <= senders && pending == {} && closed == Some(reason) && nextId == before.nextId
        invariant status.Keys == drained.Keys
        invariant forall id :: id in status ==>
                    status[id] == if id in senders && id !in todo then Answered(ClosedWith(reason)) else drained[id]
      {
        var id :| id in todo;
        todo := todo - {id};
        assert id in before.status;
        Send(id, ClosedWith(reason));
      }
    }
  }
}
