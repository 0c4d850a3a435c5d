/**
 The shutdown command's callers of the gate: the RPC tasks that begin a shutdown, wait for permits, hand it to
 the worker and wait for the answer, and the worker loop's shutdown arm (wxcd-worker/src/main.rs). Both sides
 may restore the phase with the same value. Quiesces and unquiesces go on beside them.
 */
module Shutdown {
  import opened Wrappers
  import opened Lifecycle
  import Cutoff

  /**
   A waiting task polls its completion channel first and its deadline afterwards; `Polled` lies between the two.
   `GivingUp` lies between a deadline found passed and the drop of the receiver, and `Dropped` between that and
   the restore.
   */
  datatype Stage =
    | Draining
    | Waiting(deadline: int)
    | Polled(deadline: int)
    | GivingUp
    | Dropped
    | Answering(frame: Frame)
    | Flushed(frame: Frame)
    | Broken

  datatype Rpc = Rpc(previous: PhaseState, begunAt: int, stage: Stage, sent: Option<Frame>, gaveUp: bool)

  datatype Worker =
    | Idle
    | Handling(id: nat)
    | Accepting(id: nat)
    | Flushing(id: nat)
    | Unquiescing(activation: Token)
    | Stopped

  datatype World = World(clock: int, node: Cutoff.Node, worker: Worker, rpcs: map<nat, Rpc>, queue: seq<nat>)

  datatype Action =
    | Tick(now: int)
    // other tasks
    | Quiesce
    | Admit(receivedAt: Option<int>)
    // a shutdown RPC task
    | Begin(id: nat)
    | DrainTimedOut(id: nat)
    | Enqueue(id: nat, deadline: int)
    | EnqueueFails(id: nat)
    | Receive(id: nat)
    | PollChannel(id: nat)
    | PollDeadline(id: nat)
    | DropReceiver(id: nat)
    | RestoreAfterError(id: nat)
    | Flush(id: nat)
    | Break(id: nat)
    // the worker loop
    | Take
    | Refuse(frame: Frame)
    | Accept
    | Send
    | Stop
    | GiveUpFlush
    | Claim(token: Token)
    | Commit
    | Cancel

  predicate ReceiverOpen(r: Rpc) {
    r.sent.None? && (r.stage.Waiting? || r.stage.Polled? || r.stage.GivingUp?)
  }

  /** `completion.send`: fails once the receiver is gone. */
  function Complete(rpcs: map<nat, Rpc>, id: nat, frame: Frame): map<nat, Rpc> {
    if id in rpcs && ReceiverOpen(rpcs[id]) then rpcs[id := rpcs[id].(sent := Some(frame))] else rpcs
  }

  function ToStage(w: World, id: nat, stage: Stage): World
    requires id in w.rpcs
  {
    w.(rpcs := w.rpcs[id := w.rpcs[id].(stage := stage)])
  }

  /** The request whose shutdown a step restores, with the value that its own `begin_shutdown` returned. */
  function Restored(w: World, a: Action): Option<nat> {
    match a
    case DrainTimedOut(id) => Some(id)
    case EnqueueFails(id) => Some(id)
    case RestoreAfterError(id) => Some(id)
    case Receive(id) => if id in w.rpcs && w.rpcs[id].sent != Some(AcceptedFrame) then Some(id) else None
    case Send =>
      if w.worker.Accepting? && w.worker.id in w.rpcs && !ReceiverOpen(w.rpcs[w.worker.id]) then Some(w.worker.id)
      else None
    case GiveUpFlush => if w.worker.Flushing? then Some(w.worker.id) else None
    case _ => None
  }

  /** The gate call that a step makes. */
  function GateAction(w: World, a: Action): Cutoff.Action {
    match a
    case Quiesce => Cutoff.Call(BeginQuiesce(w.clock))
    case Admit(receivedAt) => Cutoff.Admit(receivedAt)
    case Begin(_) => Cutoff.Call(BeginShutdown(w.clock))
    case Claim(token) => Cutoff.Call(BeginActivation(token))
    case Commit =>
      if w.worker.Unquiescing? then Cutoff.Call(CompleteActivation(w.worker.activation, w.clock)) else Cutoff.Elsewhere
    case Cancel =>
      if w.worker.Unquiescing? then Cutoff.Call(CancelActivation(w.worker.activation)) else Cutoff.Elsewhere
    case _ =>
      match Restored(w, a)
      case Some(id) => if id in w.rpcs then Cutoff.Call(RestoreShutdown(w.rpcs[id].previous)) else Cutoff.Elsewhere
      case None => Cutoff.Elsewhere
  }

  /** A request finds its deadline passed, having seen its channel empty. */
  predicate GivesUp(w: World, a: Action) {
    && a.PollDeadline? && a.id in w.rpcs && w.rpcs[a.id].stage.Polled?
    && w.clock >= w.rpcs[a.id].stage.deadline
  }

  // ---- What a step does apart from its gate call ----

  ghost predicate RpcNext(w: World, a: Action, w2: World) {
    match a
    case Begin(id) =>
      && id !in w.rpcs && Enabled(w.node.gate, BeginShutdown(w.clock))
      && w2 == w.(rpcs := w.rpcs[id := Rpc(w.node.gate, w.clock, Draining, None, false)])
    case DrainTimedOut(id) =>
      && id in w.rpcs && w.rpcs[id].stage == Draining && w.clock >= w.rpcs[id].begunAt + DRAIN_TIMEOUT
      && w2 == ToStage(w, id, Answering(RejectedFrame))
    case Enqueue(id, deadline) =>
      && id in w.rpcs && w.rpcs[id].stage == Draining && DeadlineFrom(w.clock, deadline)
      && w2 == ToStage(w, id, Waiting(deadline)).(queue := w.queue + [id])
    case EnqueueFails(id) =>
      id in w.rpcs && w.rpcs[id].stage == Draining && w2 == ToStage(w, id, Answering(ErrorFrame))
    case Receive(id) =>
      && id in w.rpcs && w.rpcs[id].stage.Waiting? && w.rpcs[id].sent.Some?
      && w2 == ToStage(w, id, Answering(w.rpcs[id].sent.value))
    case PollChannel(id) =>
      && id in w.rpcs && w.rpcs[id].stage.Waiting? && w.rpcs[id].sent.None?
      && w2 == ToStage(w, id, Polled(w.rpcs[id].stage.deadline))
    case PollDeadline(id) =>
      && id in w.rpcs && w.rpcs[id].stage.Polled?
      && w2 == if GivesUp(w, a) then w.(rpcs := w.rpcs[id := w.rpcs[id].(stage := GivingUp, gaveUp := true)])
               else ToStage(w, id, Waiting(w.rpcs[id].stage.deadline))
    case DropReceiver(id) => id in w.rpcs && w.rpcs[id].stage == GivingUp && w2 == ToStage(w, id, Dropped)
    case RestoreAfterError(id) =>
      id in w.rpcs && w.rpcs[id].stage == Dropped && w2 == ToStage(w, id, Answering(ErrorFrame))
    case Flush(id) =>
      id in w.rpcs && w.rpcs[id].stage.Answering? && w2 == ToStage(w, id, Flushed(w.rpcs[id].stage.frame))
    case Break(id) => id in w.rpcs && w.rpcs[id].stage.Answering? && w2 == ToStage(w, id, Broken)
    case _ => false
  }

  ghost predicate WorkerNext(w: World, a: Action, w2: World) {
    match a
    case Take => w.worker == Idle && w.queue != [] && w2 == w.(worker := Handling(w.queue[0]), queue := w.queue[1..])
    case Refuse(frame) => // expired in the queue, still in flight, or failed
      && w.worker.Handling? && frame != AcceptedFrame
      && w2 == w.(rpcs := Complete(w.rpcs, w.worker.id, frame), worker := Idle)
    case Accept => w.worker.Handling? && w2 == w.(worker := Accepting(w.worker.id))
    case Send =>
      && w.worker.Accepting? && w.worker.id in w.rpcs
      && w2 == if ReceiverOpen(w.rpcs[w.worker.id])
               then w.(rpcs := Complete(w.rpcs, w.worker.id, AcceptedFrame), worker := Flushing(w.worker.id))
               else w.(worker := Idle)
    case Stop =>
      && w.worker.Flushing? && w.worker.id in w.rpcs && w.rpcs[w.worker.id].stage.Flushed?
      && w2 == w.(worker := Stopped)
    case GiveUpFlush => w.worker.Flushing? && w2 == w.(worker := Idle)
    case Claim(token) =>
      && w.worker == Idle && ActivationToken(w.node.gate, token).Some?
      && w2 == w.(worker := Unquiescing(ActivationToken(w.node.gate, token).value))
    case Commit => w.worker.Unquiescing? && w2 == w.(worker := Idle)
    case Cancel => w.worker.Unquiescing? && w2 == w.(worker := Idle)
    case _ => false
  }

  ghost predicate OtherNext(w: World, a: Action, w2: World) {
    match a
    case Tick(now) => w.clock <= now && w2 == w.(clock := now)
    case Quiesce => w2 == w
    case Admit(receivedAt) => Admits(w.node.gate, receivedAt) && w2 == w
    case _ => false
  }

  ghost predicate Next(w: World, a: Action, w2: World) {
    var apart := w2.(node := w.node);
    && w2.node == Cutoff.After(w.node, GateAction(w, a))
    && (RpcNext(w, a, apart) || WorkerNext(w, a, apart) || OtherNext(w, a, apart))
  }

  ghost predicate IsRun(run: seq<World>, actions: seq<Action>) {
    && |run| == |actions| + 1
    && Cutoff.Initial(run[0].node) && run[0].worker == Idle && run[0].rpcs == map[] && run[0].queue == []
    && forall i :: 0 <= i < |actions| ==> Next(run[i], actions[i], run[i + 1])
  }

  // ---- Every run of the callers is a run of the gate ----

  ghost predicate Provenance(w: World) {
    && (forall id :: id in w.rpcs ==> w.rpcs[id].previous in w.node.handed)
    && (w.worker.Unquiescing? ==> w.worker.activation in w.node.issued)
  }

  lemma StepIsAllowed(w: World, a: Action, w2: World)
    requires Provenance(w) && Next(w, a, w2)
    ensures Cutoff.Allowed(w.node, GateAction(w, a))
  {
  }

  /** What a gate call adds to the history. */
  lemma HistoryGrows(n: Cutoff.Node, a: Cutoff.Action)
    ensures n.handed <= Cutoff.After(n, a).handed && n.issued <= Cutoff.After(n, a).issued
    ensures a.Call? && Cutoff.Opens(n.gate, a.mutation) ==> n.gate in Cutoff.After(n, a).handed
    ensures a.Call? && a.mutation.BeginActivation? && ActivationToken(n.gate, a.mutation.token).Some? ==>
              ActivationToken(n.gate, a.mutation.token).value in Cutoff.After(n, a).issued
  {
  }

  /** Each request keeps the value it was begun with. */
  lemma StepKeepsPrevious(w: World, a: Action, w2: World, id: nat)
    requires Next(w, a, w2) && id in w2.rpcs
    ensures (id in w.rpcs && w2.rpcs[id].previous == w.rpcs[id].previous)
            || (a == Begin(id) && w2.rpcs[id].previous == w.node.gate
                && Cutoff.Opens(w.node.gate, BeginShutdown(w.clock)))
  {
  }

  lemma StepKeepsActivation(w: World, a: Action, w2: World)
    requires Next(w, a, w2) && w2.worker.Unquiescing?
    ensures w2.worker == w.worker || (a.Claim? && Some(w2.worker.activation) == ActivationToken(w.node.gate, a.token))
  {
  }

  lemma StepKeepsProvenance(w: World, a: Action, w2: World)
    requires Provenance(w) && Next(w, a, w2)
    ensures Provenance(w2)
  {
    HistoryGrows(w.node, GateAction(w, a));
    forall id | id in w2.rpcs ensures w2.rpcs[id].previous in w2.node.handed {
      StepKeepsPrevious(w, a, w2, id);
    }
    if w2.worker.Unquiescing? {
      StepKeepsActivation(w, a, w2);
    }
  }

  ghost function Nodes(run: seq<World>): seq<Cutoff.Node> {
    seq(|run|, i requires 0 <= i < |run| => run[i].node)
  }

  ghost function GateActions(run: seq<World>, actions: seq<Action>): seq<Cutoff.Action>
    requires |run| == |actions| + 1
  {
    seq(|actions|, i requires 0 <= i < |actions| => GateAction(run[i], actions[i]))
  }

  lemma {:induction false} RunKeepsProvenance(run: seq<World>, actions: seq<Action>, k: nat)
    requires IsRun(run, actions) && k < |run|
    ensures Provenance(run[k])
  {
    if k > 0 {
      RunKeepsProvenance(run, actions, k - 1);
      StepKeepsProvenance(run[k - 1], actions[k - 1], run[k]);
    }
  }

  /** The callers restore and cancel only with what the gate handed out to them. */
  lemma ProjectsToGateRun(run: seq<World>, actions: seq<Action>)
    requires IsRun(run, actions)
    ensures Cutoff.IsRun(Nodes(run), GateActions(run, actions))
  {
    var nodes, calls := Nodes(run), GateActions(run, actions);
    forall i | 0 <= i < |calls|
      ensures Cutoff.Allowed(nodes[i], calls[i]) && nodes[i + 1] == Cutoff.After(nodes[i], calls[i])
    {
      RunKeepsProvenance(run, actions, i);
      StepIsAllowed(run[i], actions[i], run[i + 1]);
    }
  }

  // ---- While nobody gives up waiting, each shutdown is restored at most once ----

  predicate AwaitsAnswer(r: Rpc) {
    r.stage.Waiting? || r.stage.Polled?
  }

  /** Nobody will restore this request's shutdown any more. */
  predicate Settled(r: Rpc) {
    r.stage.Answering? || r.stage.Flushed? || r.stage.Broken? || (AwaitsAnswer(r) && r.sent == Some(AcceptedFrame))
  }

  predicate Elsewhere(worker: Worker) {
    worker.Idle? || worker.Unquiescing? || worker.Stopped?
  }

  /** Where the one request is whose shutdown may yet be restored: by its RPC task or, once accepted, by the worker. */
  predicate Live(w: World, id: nat) {
    && id in w.rpcs
    && var r := w.rpcs[id];
       if w.worker == Flushing(id) then w.queue == [] && Settled(r) && r.sent == Some(AcceptedFrame)
       else if w.worker == Handling(id) || w.worker == Accepting(id) then
         w.queue == [] && AwaitsAnswer(r) && r.sent == None
       else
         && Elsewhere(w.worker)
         && (|| (w.queue == [] && r.stage.Draining? && r.sent == None)
             || (w.queue == [id] && AwaitsAnswer(r) && r.sent == None)
             || (w.queue == [] && AwaitsAnswer(r) && r.sent in {Some(RejectedFrame), Some(ErrorFrame)}))
  }

  ghost predicate Sole(w: World, live: Option<nat>) {
    && (forall id :: id in w.rpcs && live != Some(id) ==> Settled(w.rpcs[id]))
    && if live.None? then w.queue == [] && Elsewhere(w.worker) else Live(w, live.value)
  }

  /** The gate is still in the live request's shutdown. */
  predicate Pinned(w: World, live: Option<nat>) {
    live.Some? ==>
      && live.value in w.rpcs && w.node.gate.phase == ShuttingDown
      && w.rpcs[live.value].previous.generation + 1 == w.node.gate.generation
  }

  function LiveAfter(w: World, a: Action, live: Option<nat>): Option<nat> {
    if a.Begin? then Some(a.id) else if Restored(w, a).Some? || a.Stop? then None else live
  }

  lemma RpcKeepsSole(w: World, a: Action, w2: World, live: Option<nat>)
    requires Sole(w, live) && !GivesUp(w, a) && RpcNext(w, a, w2)
    requires a.Begin? ==> live == None
    ensures Sole(w2, LiveAfter(w, a, live))
    ensures Restored(w, a).Some? ==> Restored(w, a) == live
  {
  }

  lemma WorkerKeepsSole(w: World, a: Action, w2: World, live: Option<nat>)
    requires Sole(w, live) && WorkerNext(w, a, w2)
    ensures Sole(w2, LiveAfter(w, a, live))
    ensures Restored(w, a).Some? ==> Restored(w, a) == live
  {
  }

  lemma StepMatches(w: World, a: Action, w2: World, live: Option<nat>)
    requires Sole(w, live) && Pinned(w, live) && !GivesUp(w, a) && Next(w, a, w2)
    ensures Sole(w2, LiveAfter(w, a, live)) && Pinned(w2, LiveAfter(w, a, live))
    ensures Cutoff.Matched(w.node, GateAction(w, a))
  {
    var apart := w2.(node := w.node);
    if RpcNext(w, a, apart) {
      RpcKeepsSole(w, a, apart, live);
    } else if WorkerNext(w, a, apart) {
      WorkerKeepsSole(w, a, apart, live);
    } else {
      assert Sole(apart, live);
    }
    assert Sole(w2, LiveAfter(w, a, live));
  }

  ghost predicate NobodyGivesUp(run: seq<World>, actions: seq<Action>, k: nat) {
    k <= |actions| && k < |run| && forall i :: 0 <= i < k ==> !GivesUp(run[i], actions[i])
  }

  /** A gate in shutdown has a request that may yet restore it, or the worker has stopped for good. */
  ghost predicate Attended(w: World, live: Option<nat>) {
    w.node.gate.phase == ShuttingDown ==> live.Some? || w.worker.Stopped?
  }

  lemma StepKeepsAttended(w: World, a: Action, w2: World, live: Option<nat>)
    requires Sole(w, live) && Pinned(w, live) && Attended(w, live) && !GivesUp(w, a) && Next(w, a, w2)
    requires Provenance(w) && Cutoff.Inv(w.node)
    ensures Attended(w2, LiveAfter(w, a, live))
  {
    if Restored(w, a).Some? {
      RestoredIsOpen(w, a, w2, live);
    } else {
      if w2.node.gate.phase == ShuttingDown { OnlyBeginShuts(w, a, w2); }
    }
  }

  lemma OnlyBeginShuts(w: World, a: Action, w2: World)
    requires Next(w, a, w2) && Restored(w, a).None? && w2.node.gate.phase == ShuttingDown
    ensures a.Begin? || w.node.gate.phase == ShuttingDown
  {
  }

  lemma RestoredIsOpen(w: World, a: Action, w2: World, live: Option<nat>)
    requires Sole(w, live) && Pinned(w, live) && !GivesUp(w, a) && Next(w, a, w2) && Restored(w, a).Some?
    requires Provenance(w) && Cutoff.Inv(w.node)
    ensures w2.node.gate.phase != ShuttingDown
  {
    var apart := w2.(node := w.node);
    if RpcNext(w, a, apart) {
      RpcKeepsSole(w, a, apart, live);
    } else {
      WorkerKeepsSole(w, a, apart, live);
    }
    RestoreReopens(w, live.value);
    assert GateAction(w, a) == Cutoff.Call(RestoreShutdown(w.rpcs[live.value].previous));
  }

  lemma RestoreReopens(w: World, id: nat)
    requires Provenance(w) && Cutoff.Inv(w.node) && id in w.rpcs && w.node.gate.phase == ShuttingDown
    ensures Mutate(w.node.gate, RestoreShutdown(w.rpcs[id].previous)).phase in {Active, Quiescing}
  {
  }

  lemma {:induction false} RunKeepsAttended(run: seq<World>, actions: seq<Action>, k: nat) returns (live: Option<nat>)
    requires IsRun(run, actions) && k < |run| && NobodyGivesUp(run, actions, k)
    ensures Sole(run[k], live) && Pinned(run[k], live) && Attended(run[k], live)
  {
    if k == 0 {
      live := None;
    } else {
      var before := RunKeepsAttended(run, actions, k - 1);
      RunKeepsProvenance(run, actions, k - 1);
      ProjectsToGateRun(run, actions);
      Cutoff.RunKeepsInv(Nodes(run), GateActions(run, actions), k - 1);
      assert Next(run[k - 1], actions[k - 1], run[k]);
      StepMatches(run[k - 1], actions[k - 1], run[k], before);
      StepKeepsAttended(run[k - 1], actions[k - 1], run[k], before);
      live := LiveAfter(run[k - 1], actions[k - 1], before);
    }
  }

  /** No refused or failed shutdown leaves the gate shut: while it is, some request is still to be decided. */
  lemma NeverLeftShut(run: seq<World>, actions: seq<Action>, k: nat)
    requires IsRun(run, actions) && k < |run| && NobodyGivesUp(run, actions, k)
    requires run[k].node.gate.phase == ShuttingDown && run[k].worker != Stopped
    ensures exists id :: Live(run[k], id)
  {
    var live := RunKeepsAttended(run, actions, k);
    assert Live(run[k], live.value);
  }

  /** As long as no request gives up waiting for its answer, all restores match. */
  lemma RestoresMatch(run: seq<World>, actions: seq<Action>, k: nat)
    requires IsRun(run, actions) && k < |actions| && NobodyGivesUp(run, actions, k + 1)
    ensures Cutoff.Matched(run[k].node, GateAction(run[k], actions[k]))
  {
    var live := RunKeepsAttended(run, actions, k);
    assert Next(run[k], actions[k], run[k + 1]);
    StepMatches(run[k], actions[k], run[k + 1], live);
  }

  /** So in all such runs the cutoff is fixed while the gate is closed, and bounds what is admitted meanwhile. */
  lemma CutoffHolds(run: seq<World>, actions: seq<Action>, i: nat, j: nat)
    requires IsRun(run, actions) && NobodyGivesUp(run, actions, j) && i <= j < |run|
    requires forall k :: i <= k <= j ==> run[k].node.gate.phase != Active
    ensures run[j].node.gate.startedAt == run[i].node.gate.startedAt
    ensures forall k :: i <= k < j && actions[k].Admit? ==>
              && run[k].node.gate.phase != Activating && actions[k].receivedAt.Some?
              && Millis(actions[k].receivedAt.value) <= Millis(run[i].node.gate.startedAt)
  {
    var nodes, calls := Nodes(run), GateActions(run, actions);
    ProjectsToGateRun(run, actions);
    forall k | i <= k < j ensures Cutoff.Matched(nodes[k], calls[k]) {
      RestoresMatch(run, actions, k);
    }
    assert Cutoff.InactiveStretch(nodes, i, j);
    Cutoff.CutoffIsFixed(nodes, calls, i, j);
    forall k | i <= k < j && actions[k].Admit?
      ensures run[k].node.gate.phase != Activating && actions[k].receivedAt.Some?
              && Millis(actions[k].receivedAt.value) <= Millis(run[i].node.gate.startedAt)
    {
      assert calls[k] == Cutoff.Admit(actions[k].receivedAt);
      Cutoff.AdmittedByCutoff(nodes, calls, i, j, k);
    }
  }

  /**
   And in every run, given up or not: the cutoff changes within a closed stretch exactly if some step restores a
   shutdown that began quiesced, with a value handed out before the gate last left Active.
   */
  lemma CutoffMovesExactly(run: seq<World>, actions: seq<Action>, k: nat)
    requires IsRun(run, actions) && k < |run| && Cutoff.LaterClosings(Nodes(run))
    ensures (forall i :: 0 <= i < k ==> !Cutoff.CutoffChanged(run[i].node, run[i + 1].node)) <==>
            (forall i :: 0 <= i < k ==> !Cutoff.Moves(run[i].node, GateAction(run[i], actions[i])))
  {
    var nodes, calls := Nodes(run), GateActions(run, actions);
    ProjectsToGateRun(run, actions);
    Cutoff.CutoffMovesExactly(nodes, calls, k);
    assert (forall i :: 0 <= i < k ==> !Cutoff.CutoffChanged(run[i].node, run[i + 1].node)) <==>
        Cutoff.NeverChanged(nodes, k) by {
      assert forall i :: 0 <= i < |run| ==> nodes[i] == run[i].node;
    }
    assert (forall i :: 0 <= i < k ==> !Cutoff.Moves(run[i].node, GateAction(run[i], actions[i]))) <==>
        Cutoff.NoneMoves(nodes, calls, k) by {
      assert forall i :: 0 <= i < |calls| ==> calls[i] == GateAction(run[i], actions[i]);
    }
  }

  // ---- When the worker stops ----

  predicate FrameOk(r: Rpc) {
    && (r.stage.Draining? ==> r.sent.None?)
    && (r.stage.Draining? || AwaitsAnswer(r) ==> !r.gaveUp)
    && (r.stage.GivingUp? || r.stage.Dropped? ==> r.gaveUp)
    && (r.stage.Answering? || r.stage.Flushed? ==>
          if r.gaveUp then r.stage.frame == ErrorFrame else r.sent.Some? ==> r.stage.frame == r.sent.value)
  }

  ghost predicate FramesOk(w: World) {
    && (forall id :: id in w.rpcs ==> FrameOk(w.rpcs[id]))
    && (w.worker.Flushing? ==> w.worker.id in w.rpcs && w.rpcs[w.worker.id].sent == Some(AcceptedFrame))
  }

  lemma RpcKeepsFrames(w: World, a: Action, w2: World)
    requires FramesOk(w) && RpcNext(w, a, w2)
    ensures FramesOk(w2)
  {
  }

  lemma WorkerKeepsFrames(w: World, a: Action, w2: World)
    requires FramesOk(w) && WorkerNext(w, a, w2)
    ensures FramesOk(w2)
  {
  }

  lemma StepKeepsFrames(w: World, a: Action, w2: World)
    requires FramesOk(w) && Next(w, a, w2)
    ensures FramesOk(w2)
  {
    var apart := w2.(node := w.node);
    if RpcNext(w, a, apart) {
      RpcKeepsFrames(w, a, apart);
    } else if WorkerNext(w, a, apart) {
      WorkerKeepsFrames(w, a, apart);
    }
  }

  lemma {:induction false} RunKeepsFrames(run: seq<World>, actions: seq<Action>, k: nat)
    requires IsRun(run, actions) && k < |run|
    ensures FramesOk(run[k])
  {
    if k > 0 {
      RunKeepsFrames(run, actions, k - 1);
      StepKeepsFrames(run[k - 1], actions[k - 1], run[k]);
    }
  }

  /**
   The worker stops only after a response frame of the accepted request was flushed; it is the accepting one
   exactly when the RPC task had not given up.
   */
  lemma StopsOnlyAfterFlush(run: seq<World>, actions: seq<Action>, k: nat)
    requires IsRun(run, actions) && k < |actions|
    requires run[k].worker != Stopped && run[k + 1].worker == Stopped
    ensures run[k].worker.Flushing?
    ensures var id := run[k].worker.id;
            && id in run[k].rpcs && run[k].rpcs[id].stage.Flushed? && run[k].rpcs[id].sent == Some(AcceptedFrame)
            && (run[k].rpcs[id].stage.frame == AcceptedFrame <==> !run[k].rpcs[id].gaveUp)
  {
    RunKeepsFrames(run, actions, k);
    assert Next(run[k], actions[k], run[k + 1]);
  }

  // ---- What giving up can do ----

  /** A run whose closings of the gate read ever later clocks. */
  ghost predicate ReachableIn(w: World, run: seq<World>, actions: seq<Action>) {
    IsRun(run, actions) && run[|actions|] == w && Cutoff.LaterClosings(Nodes(run))
  }

  ghost predicate Reachable(w: World) {
    exists run, actions :: ReachableIn(w, run, actions)
  }

  lemma Extend(w: World, run: seq<World>, actions: seq<Action>, a: Action, w2: World)
    requires ReachableIn(w, run, actions) && Next(w, a, w2) && Cutoff.LaterClosing(w.node, w2.node)
    ensures ReachableIn(w2, run + [w2], actions + [a])
  {
    var run', actions' := run + [w2], actions + [a];
    forall i | 0 <= i < |actions'| ensures Next(run'[i], actions'[i], run'[i + 1]) {
      assert i < |actions| ==> Next(run[i], actions[i], run[i + 1]);
    }
    forall i | 0 <= i < |run'| - 1 ensures Cutoff.LaterClosing(Nodes(run')[i], Nodes(run')[i + 1]) {
      assert i < |run| - 1 ==> Cutoff.LaterClosing(Nodes(run)[i], Nodes(run)[i + 1]);
    }
  }

  /** What a step makes of the gate. */
  function GateAfter(w: World, a: Action): PhaseState {
    match GateAction(w, a)
    case Call(m) => Mutate(w.node.gate, m)
    case _ => w.node.gate
  }

  predicate Closes(w: World, a: Action) {
    w.node.gate.phase == Active && GateAfter(w, a).phase != Active
  }

  lemma Go(w: World, a: Action, apart: World) returns (w2: World)
    requires Reachable(w) && apart.node == w.node
    requires RpcNext(w, a, apart) || WorkerNext(w, a, apart) || OtherNext(w, a, apart)
    requires Closes(w, a) ==> GateAfter(w, a).startedAt > w.node.last
    ensures Reachable(w2)
    ensures w2 == apart.(node := w2.node) && w2.node.gate == GateAfter(w, a)
    ensures w2.node.since == if Closes(w, a) then GateAfter(w, a).generation else w.node.since
    ensures w2.node.last == if Closes(w, a) then GateAfter(w, a).startedAt else w.node.last
  {
    var run, actions :| ReachableIn(w, run, actions);
    w2 := apart.(node := Cutoff.After(w.node, GateAction(w, a)));
    assert w2.(node := w.node) == apart;
    Extend(w, run, actions, a, w2);
  }

  const OPEN := PhaseState(Active, 0, 0)
  const FIRST := SECOND
  const DEADLINE := FIRST + RESPONSE_TIMEOUT
  const QUIESCED := PhaseState(Quiescing, 3, DEADLINE)
  const THIRD := DEADLINE + SECOND
  const DRAIN_DEADLINE := DEADLINE + DRAIN_TIMEOUT

  /** A first shutdown, begun on an Active gate and queued for the worker. */
  lemma Queued() returns (w: World)
    ensures Reachable(w) && w.clock == FIRST && w.node.gate == PhaseState(ShuttingDown, 1, FIRST)
    ensures w.node.last == FIRST && w.queue == [0] && w.worker == Idle && w.rpcs.Keys == {0}
    ensures w.rpcs[0] == Rpc(OPEN, FIRST, Waiting(DEADLINE), None, false)
  {
    var w0 := World(FIRST, Cutoff.Node(OPEN, {}, {}, None, 0, 0), Idle, map[], []);
    assert ReachableIn(w0, [w0], []);
    var a1 := w0.(rpcs := w0.rpcs[0 := Rpc(OPEN, FIRST, Draining, None, false)]);
    assert RpcNext(w0, Begin(0), a1);
    var w1 := Go(w0, Begin(0), a1);
    var a2 := ToStage(w1, 0, Waiting(DEADLINE)).(queue := w1.queue + [0]);
    assert RpcNext(w1, Enqueue(0, DEADLINE), a2);
    w := Go(w1, Enqueue(0, DEADLINE), a2);
  }

  /** The worker is about to accept it when its deadline passes. */
  lemma Late() returns (w: World)
    ensures Reachable(w) && w.clock == DEADLINE && w.node.gate == PhaseState(ShuttingDown, 1, FIRST)
    ensures w.node.last == FIRST && w.queue == [] && w.worker == Accepting(0) && w.rpcs.Keys == {0}
    ensures w.rpcs[0] == Rpc(OPEN, FIRST, Waiting(DEADLINE), None, false)
  {
    var w2 := Queued();
    var a3 := w2.(worker := Handling(0), queue := []);
    assert WorkerNext(w2, Take, a3);
    var w3 := Go(w2, Take, a3);
    var a4 := w3.(worker := Accepting(0));
    assert WorkerNext(w3, Accept, a4);
    var w4 := Go(w3, Accept, a4);
    var a5 := w4.(clock := DEADLINE);
    assert OtherNext(w4, Tick(DEADLINE), a5);
    w := Go(w4, Tick(DEADLINE), a5);
  }

  /** The RPC task gives up, and then restores. */
  lemma GivenUp() returns (w: World)
    ensures Reachable(w) && w.clock == DEADLINE && w.node.gate == PhaseState(ShuttingDown, 1, FIRST)
    ensures w.node.last == FIRST && w.queue == [] && w.worker == Accepting(0) && w.rpcs.Keys == {0}
    ensures w.rpcs[0] == Rpc(OPEN, FIRST, GivingUp, None, true)
  {
    var w5 := Late();
    var a6 := ToStage(w5, 0, Polled(DEADLINE));
    assert RpcNext(w5, PollChannel(0), a6);
    var w6 := Go(w5, PollChannel(0), a6);
    var a7 := w6.(rpcs := w6.rpcs[0 := w6.rpcs[0].(stage := GivingUp, gaveUp := true)]);
    assert RpcNext(w6, PollDeadline(0), a7);
    w := Go(w6, PollDeadline(0), a7);
  }

  lemma DroppedReceiver() returns (w: World)
    ensures Reachable(w) && w.clock == DEADLINE && w.node.gate == PhaseState(ShuttingDown, 1, FIRST)
    ensures w.node.last == FIRST && w.queue == [] && w.worker == Accepting(0) && w.rpcs.Keys == {0}
    ensures w.rpcs[0] == Rpc(OPEN, FIRST, Dropped, None, true)
  {
    var w7 := GivenUp();
    var a8 := ToStage(w7, 0, Dropped);
    assert RpcNext(w7, DropReceiver(0), a8);
    w := Go(w7, DropReceiver(0), a8);
  }

  lemma RestoredOnce() returns (w: World)
    ensures Reachable(w) && w.clock == DEADLINE && w.node.gate == PhaseState(Active, 2, 0)
    ensures w.node.last == FIRST && w.queue == [] && w.worker == Accepting(0) && w.rpcs.Keys == {0}
    ensures w.rpcs[0] == Rpc(OPEN, FIRST, Answering(ErrorFrame), None, true)
  {
    var w8 := DroppedReceiver();
    var a9 := ToStage(w8, 0, Answering(ErrorFrame));
    assert RpcNext(w8, RestoreAfterError(0), a9);
    w := Go(w8, RestoreAfterError(0), a9);
  }

  /** A quiesce and a second shutdown follow. */
  lemma BegunAgain() returns (w: World)
    ensures Reachable(w) && w.clock == DEADLINE && w.node.gate == PhaseState(ShuttingDown, 4, DEADLINE)
    ensures w.node.last == DEADLINE && w.queue == [] && w.worker == Accepting(0) && w.rpcs.Keys == {0, 1}
    ensures w.rpcs[0] == Rpc(OPEN, FIRST, Answering(ErrorFrame), None, true)
    ensures w.rpcs[1] == Rpc(QUIESCED, DEADLINE, Draining, None, false)
  {
    var w9 := RestoredOnce();
    assert OtherNext(w9, Quiesce, w9);
    var w10 := Go(w9, Quiesce, w9);
    var a11 := w10.(rpcs := w10.rpcs[1 := Rpc(w10.node.gate, w10.clock, Draining, None, false)]);
    assert RpcNext(w10, Begin(1), a11);
    w := Go(w10, Begin(1), a11);
  }

  /** The worker's answer to the first is undeliverable, so it restores that one again, over the second. */
  lemma RestoredTwice() returns (w: World)
    ensures Reachable(w) && w.clock == THIRD && w.node.gate == PhaseState(Active, 5, 0)
    ensures w.node.last == DEADLINE && w.queue == [] && w.worker == Idle && w.rpcs.Keys == {0, 1}
    ensures w.rpcs[1] == Rpc(QUIESCED, DEADLINE, Draining, None, false)
  {
    var w11 := BegunAgain();
    var a12 := w11.(clock := THIRD);
    assert OtherNext(w11, Tick(THIRD), a12);
    var w12 := Go(w11, Tick(THIRD), a12);
    var a13 := w12.(worker := Idle);
    assert WorkerNext(w12, Send, a13);
    w := Go(w12, Send, a13);
  }

  /** A third shutdown begins on a gate quiesced anew, and the second one's drain times out. */
  lemma BegunThird() returns (w: World)
    ensures Reachable(w) && w.clock == DRAIN_DEADLINE && w.node.gate == PhaseState(ShuttingDown, 7, THIRD)
    ensures w.node.since == 6 && w.rpcs.Keys == {0, 1, 2}
    ensures w.rpcs[1] == Rpc(QUIESCED, DEADLINE, Draining, None, false)
  {
    var w13 := RestoredTwice();
    assert OtherNext(w13, Quiesce, w13);
    var w14 := Go(w13, Quiesce, w13);
    var a15 := w14.(rpcs := w14.rpcs[2 := Rpc(w14.node.gate, w14.clock, Draining, None, false)]);
    assert RpcNext(w14, Begin(2), a15);
    var w15 := Go(w14, Begin(2), a15);
    var a16 := w15.(clock := DRAIN_DEADLINE);
    assert OtherNext(w15, Tick(DRAIN_DEADLINE), a16);
    w := Go(w15, Tick(DRAIN_DEADLINE), a16);
  }

  /**
   So one request that gives up is enough: the second task's restore, due after its drain timeout, ends the
   third shutdown and moves the cutoff of that closed stretch back. It is the last step of a run to which
   `CutoffMovesExactly` applies.
   */
  lemma GivingUpMovesCutoff() returns (run: seq<World>, actions: seq<Action>)
    ensures IsRun(run, actions) && Cutoff.LaterClosings(Nodes(run)) && actions != []
    ensures var k := |actions| - 1;
            && Cutoff.Moves(run[k].node, GateAction(run[k], actions[k]))
            && Cutoff.CutoffChanged(run[k].node, run[k + 1].node)
            && run[k].node.gate.startedAt == THIRD && run[k + 1].node.gate == PhaseState(Quiescing, 8, DEADLINE)
  {
    var a := DrainTimedOut(1);
    var w := BegunThird();
    var apart := ToStage(w, 1, Answering(RejectedFrame));
    assert RpcNext(w, a, apart);
    assert GateAction(w, a) == Cutoff.Call(RestoreShutdown(QUIESCED));
    var w2 := apart.(node := Cutoff.After(w.node, GateAction(w, a)));
    assert w2.(node := w.node) == apart;
    var before, calls :| ReachableIn(w, before, calls);
    Extend(w, before, calls, a, w2);
    run, actions := before + [w2], calls + [a];
    assert run[|calls|] == w && run[|calls| + 1] == w2 && actions[|calls|] == a;
  }
}
