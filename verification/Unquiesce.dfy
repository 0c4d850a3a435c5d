/**
 The two-phase unquiesce: an RPC task prepares a token and waits, the worker loop claims the activation,
 reconciles, answers, and commits once the response frame was flushed (wxcd-worker/src/main.rs,
 `handle_lifecycle_unquiesce`, the worker loop's lifecycle arm and `handle_lifecycle_rpc_frame`). Other
 tasks may quiesce, drain or shut down between any two steps.
 */
module Unquiesce {
  import opened Wrappers
  import opened Lifecycle

  /**
   The RPC task. It polls its completion channel first and its deadline afterwards, and `Polled` lies between
   the two. `GivingUp` lies between a deadline found passed and the drop of the receiver: until then the
   worker's send still succeeds.
   */
  datatype Stage =
    | Waiting
    | Polled
    | GivingUp
    | Answering(frame: Frame)
    | Written(frame: Frame)
    | Flushed(frame: Frame)
    | Broken

  /** `deadline` is when the task stops waiting; `sentAt` and `sentIn` are when, and in which stage, the answer came. */
  datatype Rpc = Rpc(stage: Stage, deadline: int, sent: Option<Frame>, sentAt: int, sentIn: Stage, gaveUp: bool)

  datatype Worker =
    | Idle
    | Handling(id: nat, token: Token)
    | Claimed(id: nat, activation: Token)
    | Responding(id: nat, activation: Token, startup: bool)
    | Flushing(id: nat, activation: Token, startup: bool)

  /** The three startup flags of the worker loop. */
  datatype Startup = Startup(pending: bool, completed: bool, snapshotPending: bool)

  datatype World = World(
    clock: int,
    gate: PhaseState,
    startup: Startup,
    worker: Worker,
    rpcs: map<nat, Rpc>,
    queue: seq<(nat, Token)>)

  datatype Action =
    | Tick(now: int)
    // other tasks
    | Others(mutation: Mutation)
    // an unquiesce RPC task
    | Prepare(id: nat, deadline: int)
    | Receive(id: nat)
    | PollChannel(id: nat)
    | PollDeadline(id: nat)
    | DropReceiver(id: nat)
    | Write(id: nat)
    | Flush(id: nat)
    | Break(id: nat)
    // the worker loop
    | Take
    | Refuse(frame: Frame)
    | Claim
    | Reconcile(ok: bool)
    | PersistSnapshot(ok: bool)
    | Expire
    | Ready
    | ClaimWithoutStartup
    | Send
    | Commit
    | GiveUpFlush

  /** What any other task may call; `begin_shutdown` returns, for a restore, only an Active or Quiescing state. */
  predicate ByOthers(m: Mutation) {
    m.BeginQuiesce? || m.BeginShutdown? || (m.RestoreShutdown? && m.previous.phase in {Active, Quiescing})
  }

  function Stages(w: World, id: nat, stage: Stage): World
    requires id in w.rpcs
  {
    w.(rpcs := w.rpcs[id := w.rpcs[id].(stage := stage)])
  }

  /** `completion.send`: fails silently once the receiver is gone. */
  function Complete(w: World, id: nat, frame: Frame): World {
    if id in w.rpcs && ReceiverOpen(w.rpcs[id])
    then w.(rpcs := w.rpcs[id := w.rpcs[id].(sent := Some(frame), sentAt := w.clock, sentIn := w.rpcs[id].stage)])
    else w
  }

  predicate ReceiverOpen(r: Rpc) {
    r.sent.None? && (r.stage == Waiting || r.stage == Polled || r.stage == GivingUp)
  }

  /** Cancel the claim, answer and go back to the loop. */
  function Abandon(w: World, id: nat, activation: Token, frame: Frame): World {
    Complete(w, id, frame).(gate := Mutate(w.gate, CancelActivation(activation)), worker := Idle)
  }

  ghost predicate RpcNext(w: World, a: Action, w2: World) {
    match a
    case Prepare(id, deadline) =>
      && id !in w.rpcs && PrepareUnquiesce(w.gate).Some? && DeadlineFrom(w.clock, deadline)
      && w2 == w.(rpcs := w.rpcs[id := Rpc(Waiting, deadline, None, 0, Waiting, false)],
                  queue := w.queue + [(id, PrepareUnquiesce(w.gate).value)])
    case Receive(id) =>
      && id in w.rpcs && w.rpcs[id].stage == Waiting && w.rpcs[id].sent.Some?
      && w2 == Stages(w, id, Answering(w.rpcs[id].sent.value))
    case PollChannel(id) =>
      id in w.rpcs && w.rpcs[id].stage == Waiting && w.rpcs[id].sent.None? && w2 == Stages(w, id, Polled)
    case PollDeadline(id) =>
      && id in w.rpcs && w.rpcs[id].stage == Polled
      && w2 == if w.clock >= w.rpcs[id].deadline
               then w.(rpcs := w.rpcs[id := w.rpcs[id].(stage := GivingUp, gaveUp := true)])
               else Stages(w, id, Waiting)
    case DropReceiver(id) => id in w.rpcs && w.rpcs[id].stage == GivingUp && w2 == Stages(w, id, Answering(ErrorFrame))
    case Write(id) =>
      id in w.rpcs && w.rpcs[id].stage.Answering? && w2 == Stages(w, id, Written(w.rpcs[id].stage.frame))
    case Flush(id) => id in w.rpcs && w.rpcs[id].stage.Written? && w2 == Stages(w, id, Flushed(w.rpcs[id].stage.frame))
    case Break(id) => id in w.rpcs && w.rpcs[id].stage.Answering? && w2 == Stages(w, id, Broken)
    case _ => false
  }

  ghost predicate WorkerNext(w: World, a: Action, w2: World) {
    match a
    case Take =>
      && w.worker == Idle && w.queue != []
      && w2 == w.(worker := Handling(w.queue[0].0, w.queue[0].1), queue := w.queue[1..])
    case Refuse(frame) => // expired, shutting down, or not claimable
      w.worker.Handling? && frame != AcceptedFrame && w2 == Complete(w, w.worker.id, frame).(worker := Idle)
    case Claim =>
      && w.worker.Handling? && w.startup.pending && ActivationToken(w.gate, w.worker.token).Some?
      && w2 == w.(gate := Mutate(w.gate, BeginActivation(w.worker.token)),
                  worker := Claimed(w.worker.id, ActivationToken(w.gate, w.worker.token).value))
    case Reconcile(ok) =>
      && w.worker.Claimed? && !w.startup.completed
      && w2 == if ok then w.(startup := w.startup.(completed := true))
               else Abandon(w, w.worker.id, w.worker.activation, ErrorFrame)
    case PersistSnapshot(ok) =>
      && w.worker.Claimed? && w.startup.completed && w.startup.snapshotPending
      && w2 == if ok then w.(startup := w.startup.(snapshotPending := false))
               else Abandon(w, w.worker.id, w.worker.activation, ErrorFrame)
    case Expire => w.worker.Claimed? && w2 == Abandon(w, w.worker.id, w.worker.activation, RejectedFrame)
    case Ready =>
      && w.worker.Claimed? && w.startup.completed && !w.startup.snapshotPending
      && w2 == w.(worker := Responding(w.worker.id, w.worker.activation, true))
    case ClaimWithoutStartup =>
      && w.worker.Handling? && !w.startup.pending
      && var activation := ActivationToken(w.gate, w.worker.token);
         w2 == if activation.Some?
               then w.(gate := Mutate(w.gate, BeginUnquiesce(w.worker.token)),
                       worker := Responding(w.worker.id, activation.value, false))
               else
                 var accepted := IsCurrent(w.gate, Active, w.worker.token);
                 Complete(w, w.worker.id, if accepted then AcceptedFrame else RejectedFrame).(worker := Idle)
    case Send =>
      && w.worker.Responding? && w.worker.id in w.rpcs
      && w2 == if ReceiverOpen(w.rpcs[w.worker.id])
               then Complete(w, w.worker.id, AcceptedFrame)
                    .(worker := Flushing(w.worker.id, w.worker.activation, w.worker.startup))
               else w.(gate := Mutate(w.gate, CancelActivation(w.worker.activation)), worker := Idle)
    case Commit =>
      && w.worker.Flushing? && w.worker.id in w.rpcs && w.rpcs[w.worker.id].stage.Flushed?
      && w2 == w.(gate := Mutate(w.gate, CompleteActivation(w.worker.activation, w.clock)),
                  startup := if Enabled(w.gate, CompleteActivation(w.worker.activation, w.clock)) && w.worker.startup
                             then w.startup.(pending := false) else w.startup,
                  worker := Idle)
    case GiveUpFlush =>
      w.worker.Flushing? && w2 == w.(gate := Mutate(w.gate, CancelActivation(w.worker.activation)), worker := Idle)
    case _ => false
  }

  ghost predicate Next(w: World, a: Action, w2: World) {
    if a.Others? then ByOthers(a.mutation) && w2 == w.(gate := Mutate(w.gate, a.mutation))
    else if a.Tick? then w.clock <= a.now && w2 == w.(clock := a.now)
    else RpcNext(w, a, w2) || WorkerNext(w, a, w2)
  }

  ghost predicate Start(w: World) {
    && (w.gate.phase == Quiescing || w.gate.phase == Active) && w.worker == Idle && w.rpcs == map[] && w.queue == []
    && w.startup.pending == (w.gate.phase == Quiescing) && w.startup.completed == !w.startup.pending
    && (w.startup.snapshotPending ==> w.startup.pending)
  }

  ghost predicate IsRun(run: seq<World>, actions: seq<Action>) {
    && |run| == |actions| + 1 && Start(run[0])
    && forall i :: 0 <= i < |actions| ==> Next(run[i], actions[i], run[i + 1])
  }

  /** The worker holds a claimed activation that it has neither committed nor cancelled. */
  predicate Holds(worker: Worker) {
    worker.Claimed? || worker.Responding? || worker.Flushing?
  }

  ghost predicate GateInv(w: World) {
    w.gate.phase == Activating <==> Holds(w.worker) && w.worker.activation.generation == w.gate.generation
  }

  ghost predicate HoldsCurrent(w: World) {
    Holds(w.worker) ==>
      IsCurrent(w.gate, Activating, w.worker.activation) && w.worker.activation.restore == Some(w.gate.startedAt)
  }

  ghost predicate StartupInv(w: World) {
    && (!w.startup.pending ==> w.startup.completed && !w.startup.snapshotPending)
    && ((w.worker.Responding? || w.worker.Flushing?) && w.worker.startup ==>
          w.startup.completed && !w.startup.snapshotPending)
  }

  predicate RpcOk(r: Rpc) {
    && (r.stage.Waiting? || r.stage.Polled? ==> !r.gaveUp)
    && (r.stage.GivingUp? ==> r.gaveUp)
    && (r.stage.Answering? || r.stage.Written? || r.stage.Flushed? ==>
          if r.gaveUp then r.stage.frame == ErrorFrame else r.sent == Some(r.stage.frame))
    && (r.sent.Some? ==>
          && (r.sentIn.Waiting? ==> !r.gaveUp && !r.stage.Polled?)
          && (!r.sentIn.Waiting? && !r.sentIn.Polled? ==> r.deadline <= r.sentAt))
  }

  ghost predicate RpcInv(w: World) {
    && (forall id :: id in w.rpcs ==> RpcOk(w.rpcs[id]) && (w.rpcs[id].gaveUp ==> w.rpcs[id].deadline <= w.clock))
    && (w.worker.Flushing? ==> w.worker.id in w.rpcs && w.rpcs[w.worker.id].sent == Some(AcceptedFrame))
  }

  ghost predicate Inv(w: World) {
    GateInv(w) && HoldsCurrent(w) && StartupInv(w) && RpcInv(w)
  }

  lemma RpcKeepsRpcs(w: World, a: Action, w2: World)
    requires RpcInv(w) && RpcNext(w, a, w2)
    ensures RpcInv(w2)
  {
  }

  lemma RpcKeepsGate(w: World, a: Action, w2: World)
    requires RpcNext(w, a, w2)
    ensures w2.gate == w.gate && w2.worker == w.worker && w2.startup == w.startup
  {
  }

  lemma WorkerKeepsGate(w: World, a: Action, w2: World)
    requires Inv(w) && WorkerNext(w, a, w2)
    ensures GateInv(w2) && HoldsCurrent(w2) && StartupInv(w2)
  {
  }

  lemma WorkerKeepsRpcs(w: World, a: Action, w2: World)
    requires RpcInv(w) && WorkerNext(w, a, w2)
    ensures RpcInv(w2)
  {
  }

  lemma StepKeepsInv(w: World, a: Action, w2: World)
    requires Inv(w) && Next(w, a, w2)
    ensures Inv(w2)
  {
    if a.Others? || a.Tick? {
      assert w2.rpcs == w.rpcs && w2.worker == w.worker && w2.startup == w.startup;
    } else if RpcNext(w, a, w2) {
      RpcKeepsGate(w, a, w2);
      RpcKeepsRpcs(w, a, w2);
    } else {
      WorkerKeepsGate(w, a, w2);
      WorkerKeepsRpcs(w, a, w2);
    }
  }

  lemma {:induction false} RunKeepsInv(run: seq<World>, actions: seq<Action>, k: nat)
    requires IsRun(run, actions) && k < |run|
    ensures Inv(run[k])
  {
    if k > 0 {
      RunKeepsInv(run, actions, k - 1);
      StepKeepsInv(run[k - 1], actions[k - 1], run[k]);
    }
  }

  /**
   No other task can leave Activating: whoever does is the worker, its claimed token is still current, and
   it goes to Active only by a commit and back to Quiescing, with its old cutoff, otherwise.
   */
  lemma OnlyWorkerLeavesActivating(run: seq<World>, actions: seq<Action>, k: nat)
    requires IsRun(run, actions) && k < |actions|
    ensures run[k].gate.phase == Activating <==> Holds(run[k].worker)
    ensures Holds(run[k].worker) ==>
              && IsCurrent(run[k].gate, Activating, run[k].worker.activation)
              && run[k].worker.activation.restore == Some(run[k].gate.startedAt)
    ensures run[k].gate.phase == Activating ==>
              || run[k + 1].gate == run[k].gate
              || (actions[k].Commit? && run[k + 1].gate.phase == Active)
              || (!actions[k].Commit? && !actions[k].Others?
                  && run[k + 1].gate.phase == Quiescing && run[k + 1].gate.startedAt == run[k].gate.startedAt)
    ensures Holds(run[k].worker) && (actions[k].Commit? || actions[k].GiveUpFlush? || actions[k].Expire?) ==>
              run[k + 1].gate.phase != Activating
  {
    RunKeepsInv(run, actions, k);
    assert Next(run[k], actions[k], run[k + 1]);
  }

  /**
   The gate opens by unquiesce only after a response frame of that very request was written and flushed.
   That frame is the accepting one exactly when the RPC task had not already found its deadline passed
   and its channel empty.
   */
  lemma OpensOnlyAfterFlush(run: seq<World>, actions: seq<Action>, k: nat)
    requires IsRun(run, actions) && k < |actions|
    requires run[k].gate.phase == Activating && run[k + 1].gate.phase == Active
    ensures actions[k].Commit? && run[k].worker.Flushing?
    ensures var id := run[k].worker.id;
            && id in run[k].rpcs && run[k].rpcs[id].stage.Flushed? && run[k].rpcs[id].sent == Some(AcceptedFrame)
            && (run[k].rpcs[id].stage.frame == AcceptedFrame <==> !run[k].rpcs[id].gaveUp)
            && (run[k].rpcs[id].sentAt < run[k].rpcs[id].deadline && !run[k].rpcs[id].sentIn.Polled? ==>
                  run[k].rpcs[id].stage.frame == AcceptedFrame)
  {
    RunKeepsInv(run, actions, k);
    assert Next(run[k], actions[k], run[k + 1]);
  }

  /**
   An answer that the worker sends before the deadline is written, unless it lands between the task's look at
   its channel and its look at the clock.
   */
  lemma PromptAnswerIsWritten(run: seq<World>, actions: seq<Action>, k: nat, id: nat)
    requires IsRun(run, actions) && k < |run| && id in run[k].rpcs
    requires run[k].rpcs[id].sent.Some? && run[k].rpcs[id].sentAt < run[k].rpcs[id].deadline
    requires !run[k].rpcs[id].sentIn.Polled?
    ensures !run[k].rpcs[id].gaveUp
    ensures var stage := run[k].rpcs[id].stage;
            stage.Answering? || stage.Written? || stage.Flushed? ==> run[k].rpcs[id].sent == Some(stage.frame)
  {
    RunKeepsInv(run, actions, k);
  }

  /** A commit does open the gate, then and there, and ends startup if the claim was the startup's. */
  lemma CommitOpens(run: seq<World>, actions: seq<Action>, k: nat)
    requires IsRun(run, actions) && k < |actions| && actions[k].Commit?
    ensures run[k].worker.Flushing?
    ensures run[k + 1].gate.phase == Active && run[k + 1].gate.startedAt == run[k].clock
    ensures run[k + 1].startup.pending == (run[k].startup.pending && !run[k].worker.startup)
    ensures run[k + 1].worker == Idle
  {
    RunKeepsInv(run, actions, k);
    assert Next(run[k], actions[k], run[k + 1]);
  }

  /** Only two of the worker's steps answer that a request is accepted. */
  lemma WhoAccepts(w: World, a: Action, w2: World, id: nat)
    requires Next(w, a, w2) && id in w.rpcs && id in w2.rpcs
    requires w.rpcs[id].sent == None && w2.rpcs[id].sent == Some(AcceptedFrame)
    ensures || (a.Send? && w2.worker.Flushing? && w2.worker.id == id)
            || (a.ClaimWithoutStartup? && w.worker.Handling? && w.worker.id == id && !w2.startup.pending
                && IsCurrent(w2.gate, Active, w.worker.token))
  {
    if WorkerNext(w, a, w2) {
      WhoAcceptsInLoop(w, a, w2, id);
    }
  }

  lemma WhoAcceptsInLoop(w: World, a: Action, w2: World, id: nat)
    requires WorkerNext(w, a, w2) && id in w.rpcs && id in w2.rpcs
    requires w.rpcs[id].sent == None && w2.rpcs[id].sent == Some(AcceptedFrame)
    ensures || (a.Send? && w2.worker.Flushing? && w2.worker.id == id)
            || (a.ClaimWithoutStartup? && w.worker.Handling? && w.worker.id == id && !w2.startup.pending
                && IsCurrent(w2.gate, Active, w.worker.token))
  {
  }

  /** A request is answered as accepted only with its claim held and startup done, or on a gate open to its token. */
  lemma AcceptedIsHonest(run: seq<World>, actions: seq<Action>, k: nat, id: nat)
    requires IsRun(run, actions) && k < |actions| && id in run[k].rpcs && id in run[k + 1].rpcs
    requires run[k].rpcs[id].sent == None && run[k + 1].rpcs[id].sent == Some(AcceptedFrame)
    ensures var w := run[k + 1];
            || (w.worker.Flushing? && w.worker.id == id && IsCurrent(w.gate, Activating, w.worker.activation)
                && (w.worker.startup ==> w.startup.completed && !w.startup.snapshotPending))
            || (run[k].worker.Handling? && run[k].worker.id == id && IsCurrent(w.gate, Active, run[k].worker.token)
                && !w.startup.pending)
  {
    RunKeepsInv(run, actions, k + 1);
    WhoAccepts(run[k], actions[k], run[k + 1], id);
  }

  ghost predicate ReachableIn(w: World, run: seq<World>, actions: seq<Action>) {
    IsRun(run, actions) && run[|actions|] == w
  }

  lemma Reach(v: World, run: seq<World>, actions: seq<Action>, a: Action, w: World)
    requires ReachableIn(v, run, actions) && Next(v, a, w)
    ensures ReachableIn(w, run + [w], actions + [a])
  {
    var run', actions' := run + [w], actions + [a];
    forall i | 0 <= i < |actions'| ensures Next(run'[i], actions'[i], run'[i + 1]) {
      assert i < |actions| ==> Next(run[i], actions[i], run[i + 1]);
    }
  }

  ghost predicate Reachable(w: World) {
    exists run, actions :: ReachableIn(w, run, actions)
  }

  lemma ReachNext(v: World, a: Action, w: World)
    requires Reachable(v) && Next(v, a, w)
    ensures Reachable(w)
  {
    var run, actions :| ReachableIn(v, run, actions);
    Reach(v, run, actions, a, w);
  }

  const DEADLINE := RESPONSE_TIMEOUT
  const PROMPT := DEADLINE - 1

  lemma LateAnswerClaimed() returns (w: World)
    ensures Reachable(w) && w.clock == 0
    ensures w.gate == PhaseState(Activating, 1, 0) && w.startup == Startup(true, false, false)
    ensures w.worker == Claimed(0, Token(1, Some(0)))
    ensures 0 in w.rpcs && w.rpcs[0] == Rpc(Waiting, DEADLINE, None, 0, Waiting, false)
  {
    var token := Token(0, Some(0));
    var w0 := World(0, PhaseState(Quiescing, 0, 0), Startup(true, false, false), Idle, map[], []);
    assert ReachableIn(w0, [w0], []);
    var w1 := w0.(rpcs := w0.rpcs[0 := Rpc(Waiting, DEADLINE, None, 0, Waiting, false)],
                  queue := w0.queue + [(0, token)]);
    ReachNext(w0, Prepare(0, DEADLINE), w1);
    var w2 := w1.(worker := Handling(0, token), queue := w1.queue[1..]);
    ReachNext(w1, Take, w2);
    w := w2.(gate := PhaseState(Activating, 1, 0), worker := Claimed(0, Token(1, Some(0))));
    ReachNext(w2, Claim, w);
  }

  /** Reconciled and the answer ready, when the RPC task has just found its channel empty. */
  lemma LateAnswerReady() returns (w: World)
    ensures Reachable(w) && w.clock == PROMPT
    ensures w.gate == PhaseState(Activating, 1, 0) && w.startup == Startup(true, true, false)
    ensures w.worker == Responding(0, Token(1, Some(0)), true)
    ensures 0 in w.rpcs && w.rpcs[0] == Rpc(Polled, DEADLINE, None, 0, Waiting, false)
  {
    var w3 := LateAnswerClaimed();
    var w4 := w3.(startup := Startup(true, true, false));
    ReachNext(w3, Reconcile(true), w4);
    var w5 := w4.(worker := Responding(0, Token(1, Some(0)), true));
    ReachNext(w4, Ready, w5);
    var w6 := w5.(clock := PROMPT);
    ReachNext(w5, Tick(PROMPT), w6);
    w := Stages(w6, 0, Polled);
    ReachNext(w6, PollChannel(0), w);
  }

  /** The answer is sent, and only then does the task find its deadline passed. */
  lemma LateAnswerSent() returns (w: World)
    ensures Reachable(w) && w.clock == DEADLINE
    ensures w.gate == PhaseState(Activating, 1, 0) && w.startup == Startup(true, true, false)
    ensures w.worker == Flushing(0, Token(1, Some(0)), true)
    ensures 0 in w.rpcs && w.rpcs[0] == Rpc(GivingUp, DEADLINE, Some(AcceptedFrame), PROMPT, Polled, true)
  {
    var w7 := LateAnswerReady();
    var w8 := Complete(w7, 0, AcceptedFrame).(worker := Flushing(0, Token(1, Some(0)), true));
    ReachNext(w7, Send, w8);
    var w9 := w8.(clock := DEADLINE);
    ReachNext(w8, Tick(DEADLINE), w9);
    w := w9.(rpcs := w9.rpcs[0 := w9.rpcs[0].(stage := GivingUp, gaveUp := true)]);
    ReachNext(w9, PollDeadline(0), w);
  }

  lemma LateAnswerFlushed() returns (w: World)
    ensures Reachable(w) && w.clock == DEADLINE
    ensures w.gate == PhaseState(Activating, 1, 0) && w.startup == Startup(true, true, false)
    ensures w.worker == Flushing(0, Token(1, Some(0)), true)
    ensures 0 in w.rpcs
    ensures w.rpcs[0] == Rpc(Flushed(ErrorFrame), DEADLINE, Some(AcceptedFrame), PROMPT, Polled, true)
  {
    var w10 := LateAnswerSent();
    var w11 := Stages(w10, 0, Answering(ErrorFrame));
    ReachNext(w10, DropReceiver(0), w11);
    var w12 := Stages(w11, 0, Written(ErrorFrame));
    ReachNext(w11, Write(0), w12);
    w := Stages(w12, 0, Flushed(ErrorFrame));
    ReachNext(w12, Flush(0), w);
  }

  /**
   The case that differs does happen, even to an answer sent before the deadline: it lands between the RPC
   task's last look at its channel and its drop of the receiver, and the gate opens although the peer was sent
   an error.
   */
  lemma LateAnswerOpensAfterErrorFrame()
    ensures exists w, w2 ::
              && Reachable(w) && Next(w, Commit, w2)
              && w.gate.phase == Activating && w2.gate.phase == Active
              && w.worker.Flushing? && w.worker.id in w.rpcs && w.rpcs[w.worker.id].stage == Flushed(ErrorFrame)
              && w.rpcs[w.worker.id].sentAt < w.rpcs[w.worker.id].deadline
  {
    var w := LateAnswerFlushed();
    var w2 := w.(gate := PhaseState(Active, 2, DEADLINE), startup := Startup(false, true, false), worker := Idle);
    assert Next(w, Commit, w2);
  }

  /** Startup reconcile stops being pending only once it was completed and no deferred snapshot is outstanding. */
  lemma StartupOrder(run: seq<World>, actions: seq<Action>, k: nat)
    requires IsRun(run, actions) && k < |run|
    ensures !run[k].startup.pending ==> run[k].startup.completed && !run[k].startup.snapshotPending
    ensures k < |actions| && run[k].startup.pending && !run[k + 1].startup.pending ==> run[k + 1].gate.phase == Active
  {
    RunKeepsInv(run, actions, k);
    if k < |actions| {
      assert Next(run[k], actions[k], run[k + 1]);
    }
  }
}
