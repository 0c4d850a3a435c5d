/**
 The drain cutoff over runs of the gate, with any interleaving of quiesce, drain, unquiesce and shutdown
 tasks. The gate does not check which shutdown a restore belongs to, so the cutoff is fixed under a
 condition on restores; `Shutdown` shows when the callers meet it.
 */
module Cutoff {
  import opened Wrappers
  import opened Lifecycle

  /** `Elsewhere`: a step of some task that leaves the gate alone. */
  datatype Action = Call(mutation: Mutation) | Admit(receivedAt: Option<int>) | Elsewhere

  /**
   The gate and its history: the activation tokens and `begin_shutdown` values handed out so far, which value
   opened the last shutdown, and the generation and instant at which the gate last left Active.
   */
  datatype Node = Node(
    gate: PhaseState,
    issued: set<Token>,
    handed: set<PhaseState>,
    openedBy: Option<PhaseState>,
    since: nat,
    last: int)

  function IssuedBy(s: PhaseState, m: Mutation): set<Token> {
    match m
    case BeginActivation(token) => if ActivationToken(s, token).Some? then {ActivationToken(s, token).value} else {}
    case BeginUnquiesce(token) => if ActivationToken(s, token).Some? then {ActivationToken(s, token).value} else {}
    case _ => {}
  }

  predicate Opens(s: PhaseState, m: Mutation) {
    m.BeginShutdown? && Enabled(s, m)
  }

  function Called(n: Node, m: Mutation): Node {
    var gate := Mutate(n.gate, m);
    var leaves := n.gate.phase == Active && gate.phase != Active;
    Node(gate,
         n.issued + IssuedBy(n.gate, m),
         n.handed + if Opens(n.gate, m) then {n.gate} else {},
         if Opens(n.gate, m) then Some(n.gate) else n.openedBy,
         if leaves then gate.generation else n.since,
         if leaves then gate.startedAt else n.last)
  }

  function After(n: Node, a: Action): Node {
    if a.Call? then Called(n, a.mutation) else n
  }

  /** What callers bring: a cancelled activation's token, and a restored value, were handed out by the gate. */
  predicate Allowed(n: Node, a: Action) {
    match a
    case Admit(receivedAt) => Admits(n.gate, receivedAt)
    case Elsewhere => true
    case Call(m) =>
      && (m.CancelActivation? ==> m.token in n.issued)
      && (m.RestoreShutdown? && Enabled(n.gate, m) ==> m.previous in n.handed)
  }

  /** A restore whose value carries the generation just before the gate's. */
  predicate Matched(n: Node, a: Action) {
    a.Call? && a.mutation.RestoreShutdown? && Enabled(n.gate, a.mutation) ==>
      a.mutation.previous.generation + 1 == n.gate.generation
  }

  ghost predicate Initial(n: Node) {
    && n.gate.phase in {Active, Quiescing} && n.issued == {} && n.handed == {} && n.openedBy == None
    && n.since == n.gate.generation && n.last == n.gate.startedAt
  }

  ghost predicate IsRun(run: seq<Node>, actions: seq<Action>) {
    && |run| == |actions| + 1 && Initial(run[0])
    && forall i :: 0 <= i < |actions| ==> Allowed(run[i], actions[i]) && run[i + 1] == After(run[i], actions[i])
  }

  ghost predicate Inv(n: Node) {
    && (forall t :: t in n.issued ==>
          && t.generation <= n.gate.generation
          && (IsCurrent(n.gate, Activating, t) ==> t.restore == Some(n.gate.startedAt)))
    && (forall p :: p in n.handed ==> p.generation < n.gate.generation && p.phase in {Active, Quiescing})
    && (forall p, q :: p in n.handed && q in n.handed && p.generation == q.generation ==> p == q)
    && (n.gate.phase == ShuttingDown ==>
          && n.openedBy.Some? && n.openedBy.value in n.handed
          && n.openedBy.value.generation + 1 == n.gate.generation
          && (n.openedBy.value.phase == Quiescing ==> n.openedBy.value.startedAt == n.gate.startedAt))
  }

  lemma StepKeepsInv(n: Node, a: Action)
    requires Inv(n) && Allowed(n, a)
    ensures Inv(After(n, a))
  {
  }

  lemma {:induction false} RunKeepsInv(run: seq<Node>, actions: seq<Action>, k: nat)
    requires IsRun(run, actions) && k < |run|
    ensures Inv(run[k])
  {
    if k > 0 {
      RunKeepsInv(run, actions, k - 1);
      StepKeepsInv(run[k - 1], actions[k - 1]);
    }
  }

  /** Of all values ever handed out, only the one that opened the current shutdown matches. */
  lemma OnlyOpenerMatches(run: seq<Node>, actions: seq<Action>, k: nat, previous: PhaseState)
    requires IsRun(run, actions) && k < |run|
    requires run[k].gate.phase == ShuttingDown && previous in run[k].handed
    ensures Matched(run[k], Call(RestoreShutdown(previous))) <==> run[k].openedBy == Some(previous)
  {
    RunKeepsInv(run, actions, k);
  }

  ghost predicate InactiveStretch(run: seq<Node>, i: nat, j: nat) {
    i <= j < |run| && forall k :: i <= k <= j ==> run[k].gate.phase != Active
  }

  ghost predicate AllMatched(run: seq<Node>, actions: seq<Action>, i: nat, j: nat) {
    j <= |actions| && j <= |run| && forall k :: i <= k < j ==> Matched(run[k], actions[k])
  }

  lemma StepKeepsCutoff(n: Node, a: Action)
    requires Inv(n) && Allowed(n, a) && Matched(n, a)
    ensures n.gate.phase != Active && After(n, a).gate.phase != Active ==>
              After(n, a).gate.startedAt == n.gate.startedAt
  {
  }

  lemma RunStepKeepsCutoff(run: seq<Node>, actions: seq<Action>, k: nat)
    requires IsRun(run, actions) && k < |actions| && Matched(run[k], actions[k])
    requires run[k].gate.phase != Active && run[k + 1].gate.phase != Active
    ensures run[k + 1].gate.startedAt == run[k].gate.startedAt
  {
    assert Allowed(run[k], actions[k]) && run[k + 1] == After(run[k], actions[k]);
    RunKeepsInv(run, actions, k);
    StepKeepsCutoff(run[k], actions[k]);
  }

  /** The cutoff never moves while the gate is not Active, if the restores made meanwhile match. */
  lemma {:induction false} CutoffIsFixed(run: seq<Node>, actions: seq<Action>, i: nat, j: nat)
    requires IsRun(run, actions) && InactiveStretch(run, i, j) && AllMatched(run, actions, i, j)
    ensures run[j].gate.startedAt == run[i].gate.startedAt
  {
    if i < j {
      CutoffIsFixed(run, actions, i, j - 1);
      RunStepKeepsCutoff(run, actions, j - 1);
    }
  }

  /** So all work admitted in such a stretch was received by the one cutoff, and none while Activating. */
  lemma AdmittedByCutoff(run: seq<Node>, actions: seq<Action>, i: nat, j: nat, k: nat)
    requires IsRun(run, actions) && InactiveStretch(run, i, j) && AllMatched(run, actions, i, j)
    requires i <= k < j && actions[k].Admit?
    ensures run[k].gate.phase != Activating
    ensures actions[k].receivedAt.Some?
    ensures Millis(actions[k].receivedAt.value) <= Millis(run[i].gate.startedAt)
  {
    assert Allowed(run[k], actions[k]);
    CutoffIsFixed(run, actions, i, k);
  }

  // ---- Exactly when the cutoff moves ----

  /** A restore of a value from an earlier closed stretch: the gate has left Active since it was handed out. */
  predicate Moves(n: Node, a: Action) {
    && a.Call? && a.mutation.RestoreShutdown? && Enabled(n.gate, a.mutation)
    && a.mutation.previous.phase == Quiescing && a.mutation.previous.generation < n.since
  }

  /** The cutoff of one closed stretch differs from one state to the next. */
  predicate CutoffChanged(n: Node, n2: Node) {
    n.gate.phase != Active && n2.gate.phase != Active && n2.gate.startedAt != n.gate.startedAt
  }

  ghost predicate NoneMoves(run: seq<Node>, actions: seq<Action>, k: nat) {
    k <= |actions| && k < |run| && forall i :: 0 <= i < k ==> !Moves(run[i], actions[i])
  }

  ghost predicate NeverChanged(run: seq<Node>, k: nat) {
    k < |run| && forall i :: 0 <= i < k ==> !CutoffChanged(run[i], run[i + 1])
  }

  /** Values handed out in the current closed stretch, or the last one, carry its cutoff. */
  ghost predicate Stretches(n: Node) {
    && n.since <= n.gate.generation
    && (n.gate.phase != Active ==> n.gate.startedAt == n.last)
    && forall p :: p in n.handed && p.phase == Quiescing && p.generation >= n.since ==> p.startedAt == n.last
  }

  lemma StepKeepsStretches(n: Node, a: Action)
    requires Inv(n) && Stretches(n) && Allowed(n, a) && !Moves(n, a)
    ensures Stretches(After(n, a)) && !CutoffChanged(n, After(n, a))
  {
  }

  /** Whatever the clock does, the cutoff is fixed in every closed stretch as long as no step moves it. */
  lemma {:induction false} UnmovedIsFixed(run: seq<Node>, actions: seq<Action>, k: nat)
    requires IsRun(run, actions) && NoneMoves(run, actions, k)
    ensures Stretches(run[k]) && NeverChanged(run, k)
  {
    if k > 0 {
      UnmovedIsFixed(run, actions, k - 1);
      RunKeepsInv(run, actions, k - 1);
      assert Allowed(run[k - 1], actions[k - 1]) && run[k] == After(run[k - 1], actions[k - 1]);
      StepKeepsStretches(run[k - 1], actions[k - 1]);
    }
  }

  /** Every closing of the gate reads a later clock than the one before. */
  ghost predicate LaterClosings(run: seq<Node>) {
    forall k :: 0 <= k < |run| - 1 ==> LaterClosing(run[k], run[k + 1])
  }

  predicate LaterClosing(n: Node, n2: Node) {
    n2.since != n.since ==> n2.last > n.last
  }

  /** The closed stretches so far are told apart by their cutoffs. */
  ghost predicate Apart(n: Node) {
    forall p :: p in n.handed && p.phase == Quiescing ==>
      p.startedAt <= n.last && (p.generation < n.since ==> p.startedAt < n.last)
  }

  lemma StepKeepsApart(n: Node, a: Action)
    requires Inv(n) && Stretches(n) && Apart(n) && Allowed(n, a)
    ensures LaterClosing(n, After(n, a)) ==> Apart(After(n, a))
    ensures Moves(n, a) ==> CutoffChanged(n, After(n, a))
  {
  }

  lemma {:induction false} RunKeepsApart(run: seq<Node>, actions: seq<Action>, k: nat)
    requires IsRun(run, actions) && NoneMoves(run, actions, k) && LaterClosings(run)
    ensures Apart(run[k])
  {
    if k > 0 {
      RunKeepsApart(run, actions, k - 1);
      UnmovedIsFixed(run, actions, k - 1);
      RunKeepsInv(run, actions, k - 1);
      var i := k - 1;
      assert Allowed(run[i], actions[i]) && run[i + 1] == After(run[i], actions[i]);
      assert LaterClosing(run[i], run[i + 1]);
      StepKeepsApart(run[i], actions[i]);
    }
  }

  /** Over whole runs, whatever is restored: the cutoff changes within a closed stretch exactly if a step moves it. */
  lemma {:induction false} CutoffMovesExactly(run: seq<Node>, actions: seq<Action>, k: nat)
    requires IsRun(run, actions) && k < |run| && LaterClosings(run)
    ensures NeverChanged(run, k) <==> NoneMoves(run, actions, k)
  {
    if k > 0 {
      CutoffMovesExactly(run, actions, k - 1);
      if NoneMoves(run, actions, k) {
        UnmovedIsFixed(run, actions, k);
      } else if NoneMoves(run, actions, k - 1) {
        var i := k - 1;
        assert Allowed(run[i], actions[i]) && run[i + 1] == After(run[i], actions[i]);
        RunKeepsInv(run, actions, i);
        UnmovedIsFixed(run, actions, i);
        RunKeepsApart(run, actions, i);
        StepKeepsApart(run[i], actions[i]);
        assert CutoffChanged(run[i], run[i + 1]);
      }
    }
  }
}
