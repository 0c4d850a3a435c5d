/**
 The drain protocol: the RPC task's quiesce, wait and re-check, then the worker's
 `handle_lifecycle_command_with_runtime_drain` (wxcd-worker/src/main.rs), while any other task acts
 between any two of its reads. Only the gate's own mutators constrain what the others may do.
 */
module Drain {
  import opened Wrappers
  import opened Lifecycle

  /**
   What reading the sidecars' drain records yields: one that is fresh, in scope and whose process lives, or a
   failure to read the directory, its next entry or a file, which ends the reading.
   */
  datatype Sidecar = Sidecar(inFlight: nat, inactiveObservedAt: Option<int>) | Unreadable

  datatype World = World(gate: PhaseState, ingress: nat, codex: nat, queued: nat, sidecars: seq<Sidecar>)

  datatype Action = Call(mutation: Mutation) | Admit(receivedAt: Option<int>) | Finish | Environment

  /** Tokens and restored phases are arbitrary here. */
  ghost predicate Next(w: World, a: Action, w2: World) {
    match a
    case Call(m) => w2 == w.(gate := Mutate(w.gate, m))
    case Admit(receivedAt) => Admits(w.gate, receivedAt) && w2 == w.(ingress := w.ingress + 1)
    case Finish => w.ingress > 0 && w2 == w.(ingress := w.ingress - 1)
    case Environment => w2.gate == w.gate && w2.ingress == w.ingress
  }

  ghost predicate IsRun(run: seq<World>, actions: seq<Action>) {
    && |run| == |actions| + 1
    && forall i :: 0 <= i < |actions| ==> Next(run[i], actions[i], run[i + 1])
  }

  /** Every call that changes the gate changes its generation, so an unchanged generation pins the whole gate. */
  lemma {:induction false} GenerationPinsGate(run: seq<World>, actions: seq<Action>, i: nat, j: nat)
    requires IsRun(run, actions) && i <= j < |run|
    ensures run[i].gate.generation <= run[j].gate.generation
    ensures run[i].gate.generation == run[j].gate.generation ==> run[j].gate == run[i].gate
  {
    if i < j {
      GenerationPinsGate(run, actions, i, j - 1);
      assert Next(run[j - 1], actions[j - 1], run[j]);
    }
  }

  // ---- Counting ----

  /** Read when the count starts; `None` unless a fence is up (`sidecar_drain_barrier_started_at`). */
  function Barrier(s: PhaseState): Option<int> {
    if s.phase == Quiescing || s.phase == ShuttingDown then Some(s.startedAt) else None
  }

  predicate ObservedAfter(s: Sidecar, cutoff: int) {
    s.Sidecar? && s.inactiveObservedAt.Some? && Millis(s.inactiveObservedAt.value) > Millis(cutoff)
  }

  function SidecarWeight(s: Sidecar, barrier: Option<int>): nat
    requires s.Sidecar?
  {
    if barrier.Some? && !ObservedAfter(s, barrier.value) && s.inFlight == 0 then 1 else s.inFlight
  }

  /** Readable, idle, and has seen the fence if one is up. */
  predicate Quiet(s: Sidecar, barrier: Option<int>) {
    s.Sidecar? && s.inFlight == 0 && (barrier.Some? ==> ObservedAfter(s, barrier.value))
  }

  /** Nothing counts exactly when every record could be read and is quiet; a failed read counts as one in flight. */
  method CountSidecars(sidecars: seq<Sidecar>, barrier: Option<int>) returns (count: nat)
    ensures count == 0 <==> forall s :: s in sidecars ==> Quiet(s, barrier)
    ensures count == 0 <==> forall s :: s in sidecars ==>
              && s.Sidecar? && s.inFlight == 0
              && (barrier.Some? ==>
                    s.inactiveObservedAt.Some? && Millis(barrier.value) < Millis(s.inactiveObservedAt.value))
    ensures barrier.Some?
            && (exists s :: s in sidecars && s.Sidecar? && s.inactiveObservedAt.Some?
                            && s.inactiveObservedAt.value <= barrier.value) ==>
              count > 0
  {
    count := 0;
    for i := 0 to |sidecars|
      invariant count == 0 <==> forall k :: 0 <= k < i ==> Quiet(sidecars[k], barrier)
    {
      if sidecars[i].Unreadable? {
        assert !Quiet(sidecars[i], barrier);
        return count + 1;
      }
      count := count + SidecarWeight(sidecars[i], barrier);
    }
  }

  // ---- The protocol ----

  /** When each of the protocol's reads happens in the run, and how its other steps turn out. */
  datatype Schedule = Schedule(
    issued: nat,           // the gate right after the RPC task's `quiesce_for_drain`
    waited: Option<nat>,   // where `wait_until_drained` read zero, or None if it timed out
    rpcCheck: nat,
    delivered: bool,       // enqueued and taken up by the worker before expiring
    entryCheck: nat,
    ingressRead: nat,
    runtimeDrained: bool,  // `drain_codex_runtime` returned, with whatever count
    middleCheck: nat,
    barrierRead: nat,
    sidecarRead: nat,
    ingressReread: nat,
    codexRead: nat,
    queueRead: nat,
    persisted: bool,       // the local snapshot written before the answer
    lastCheck: nat)

  predicate InOrder(s: Schedule, length: nat) {
    && s.issued <= (if s.waited.Some? then s.waited.value else s.issued) <= s.rpcCheck <= s.entryCheck
    && s.entryCheck <= s.ingressRead <= s.middleCheck <= s.barrierRead <= s.sidecarRead
    && s.sidecarRead <= s.ingressReread <= s.codexRead <= s.queueRead <= s.lastCheck < length
  }

  /** The answer; the count that comes with `NotDrained` is a later re-read and is not modelled. */
  datatype DrainResponse = Drained | NotDrained

  /** What a `drained: true` answer means for the interval from the token's issue to the last check. */
  ghost predicate DrainedThroughout(run: seq<World>, actions: seq<Action>, s: Schedule)
    requires IsRun(run, actions) && InOrder(s, |run|)
  {
    var gate := run[s.issued].gate;
    && gate.phase == Quiescing
    && (forall k :: s.issued <= k <= s.lastCheck ==> run[k].gate == gate)
    && run[s.ingressReread].ingress == 0
    && run[s.codexRead].codex == 0
    && run[s.queueRead].queued == 0
    && (forall c :: c in run[s.sidecarRead].sidecars ==> Quiet(c, Some(gate.startedAt)))
    && (forall k :: s.issued <= k < s.lastCheck && actions[k].Admit? ==>
          actions[k].receivedAt.Some? && Millis(actions[k].receivedAt.value) <= Millis(gate.startedAt))
  }

  /**
   In instants, and not by way of the counts: every sidecar read is idle and has looked at the gate after the
   cutoff, and after the receipt of every work item that was admitted since the token's issue.
   */
  ghost predicate SidecarsSawFence(run: seq<World>, actions: seq<Action>, s: Schedule)
    requires |run| == |actions| + 1 && InOrder(s, |run|)
  {
    forall c :: c in run[s.sidecarRead].sidecars ==>
      && c.Sidecar? && c.inFlight == 0 && c.inactiveObservedAt.Some?
      && run[s.issued].gate.startedAt < c.inactiveObservedAt.value
      && Millis(run[s.issued].gate.startedAt) < Millis(c.inactiveObservedAt.value)
      && forall k :: s.issued <= k < s.lastCheck && actions[k].Admit? ==>
           actions[k].receivedAt.Some? && actions[k].receivedAt.value < c.inactiveObservedAt.value
  }

  lemma PinnedGateDrains(run: seq<World>, actions: seq<Action>, s: Schedule, token: Token)
    requires IsRun(run, actions) && InOrder(s, |run|)
    requires IsCurrent(run[s.issued].gate, Quiescing, token) && IsCurrent(run[s.lastCheck].gate, Quiescing, token)
    ensures forall k :: s.issued <= k <= s.lastCheck ==> run[k].gate == run[s.issued].gate
    ensures forall k :: s.issued <= k < s.lastCheck && actions[k].Admit? ==>
              actions[k].receivedAt.Some? && Millis(actions[k].receivedAt.value) <= Millis(run[s.issued].gate.startedAt)
  {
    forall k | s.issued <= k <= s.lastCheck ensures run[k].gate == run[s.issued].gate {
      GenerationPinsGate(run, actions, s.issued, k);
      GenerationPinsGate(run, actions, k, s.lastCheck);
    }
    forall k | s.issued <= k < s.lastCheck && actions[k].Admit?
      ensures actions[k].receivedAt.Some? && Millis(actions[k].receivedAt.value) <= Millis(run[s.issued].gate.startedAt)
    {
      assert Next(run[k], actions[k], run[k + 1]);
      assert run[k].gate == run[s.issued].gate;
    }
  }

  /** `lifecycle_runtime_in_flight_count`. */
  method CountRuntime(run: seq<World>, s: Schedule) returns (count: nat)
    requires InOrder(s, |run|)
    ensures count == 0 <==>
            && run[s.ingressReread].ingress == 0 && run[s.codexRead].codex == 0 && run[s.queueRead].queued == 0
            && (forall c :: c in run[s.sidecarRead].sidecars ==> Quiet(c, Barrier(run[s.barrierRead].gate)))
  {
    var sidecars := CountSidecars(run[s.sidecarRead].sidecars, Barrier(run[s.barrierRead].gate));
    count := run[s.ingressReread].ingress + run[s.codexRead].codex + run[s.queueRead].queued + sidecars;
  }

  /** The worker's half: `drained: true` exactly when it should, and a failure only from its two fallible steps. */
  method HandleDrain(run: seq<World>, actions: seq<Action>, s: Schedule, token: Token)
    returns (r: Result<DrainResponse, string>)
    requires IsRun(run, actions) && InOrder(s, |run|)
    requires IsCurrent(run[s.issued].gate, Quiescing, token)
    ensures r == Success(Drained) <==>
            s.runtimeDrained && s.persisted && run[s.ingressRead].ingress == 0 && DrainedThroughout(run, actions, s)
    ensures r == Success(Drained) ==> SidecarsSawFence(run, actions, s)
    ensures r.Failure? ==> !s.runtimeDrained || !s.persisted
  {
    if !IsCurrent(run[s.entryCheck].gate, Quiescing, token) {
      return NotDrainedOnce(s.persisted);
    }
    if run[s.ingressRead].ingress > 0 {
      return NotDrainedOnce(s.persisted);
    }
    if !s.runtimeDrained {
      return Failure("codex runtime");
    }
    if !IsCurrent(run[s.middleCheck].gate, Quiescing, token) {
      return NotDrainedOnce(s.persisted);
    }
    var count := CountRuntime(run, s);
    if !s.persisted {
      return Failure("local snapshot");
    }
    if !IsCurrent(run[s.lastCheck].gate, Quiescing, token) {
      return Success(NotDrained);
    }
    PinnedGateDrains(run, actions, s, token);
    if count > 0 {
      return Success(NotDrained);
    }
    return Success(Drained);
  }

  function NotDrainedOnce(persisted: bool): Result<DrainResponse, string> {
    if persisted then Success(NotDrained) else Failure("local snapshot")
  }

  /**
   The whole RPC, whose first step is the action before `s.issued`. It answers `drained: true` exactly when
   none of its own steps gives up and the gate stood still, closed and empty, over the whole interval.
   */
  method DrainRpc(run: seq<World>, actions: seq<Action>, s: Schedule) returns (r: Result<DrainResponse, string>)
    requires IsRun(run, actions) && InOrder(s, |run|)
    requires 0 < s.issued && actions[s.issued - 1].Call? && actions[s.issued - 1].mutation.BeginQuiesce?
    requires s.waited.Some? ==> run[s.waited.value].ingress == 0
    ensures r == Success(Drained) <==>
            && Enabled(run[s.issued - 1].gate, actions[s.issued - 1].mutation)
            && s.waited.Some? && s.delivered && s.runtimeDrained && s.persisted
            && run[s.ingressRead].ingress == 0
            && DrainedThroughout(run, actions, s)
    ensures r == Success(Drained) ==> SidecarsSawFence(run, actions, s)
  {
    assert Next(run[s.issued - 1], actions[s.issued - 1], run[s.issued]);
    if !Enabled(run[s.issued - 1].gate, actions[s.issued - 1].mutation) {
      return Success(NotDrained);
    }
    var token := Token(run[s.issued].gate.generation, None);
    if s.waited.None? || !IsCurrent(run[s.rpcCheck].gate, Quiescing, token) {
      return Success(NotDrained);
    }
    if !s.delivered {
      return Failure("lifecycle command expired");
    }
    r := HandleDrain(run, actions, s, token);
  }
}
