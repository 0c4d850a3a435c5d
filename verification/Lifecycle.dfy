/**
 The admission gate that all of the worker's tasks share (wxcd-worker/src/main.rs, `LifecycleControl`
 and `LifecycleWorkPermit`). Instants are nanoseconds; clock readings come in as `now`. Generations
 are unbounded where the source wraps at 2^64.
 */
module Lifecycle {
  import opened Wrappers

  const SECOND := 1_000_000_000
  const DRAIN_TIMEOUT := 30 * SECOND
  const QUEUE_TIMEOUT := 30 * SECOND
  const RESPONSE_TIMEOUT := 65 * SECOND

  /** The answer to a lifecycle command, as its RPC task writes it. */
  datatype Frame = AcceptedFrame | RejectedFrame | ErrorFrame

  /** A task waits this long for an answer, counted from before its wait for a queue slot. */
  predicate DeadlineFrom(now: int, deadline: int) {
    now + RESPONSE_TIMEOUT - QUEUE_TIMEOUT <= deadline <= now + RESPONSE_TIMEOUT
  }

  datatype Phase = Active | Quiescing | Activating | ShuttingDown

  datatype PhaseState = PhaseState(phase: Phase, generation: nat, startedAt: int)

  datatype Token = Token(generation: nat, restore: Option<int>)

  /** A call that may change the locked state. */
  datatype Mutation =
    | BeginQuiesce(now: int)
    | BeginActivation(token: Token)
    | CompleteActivation(token: Token, now: int)
    | CancelActivation(token: Token)
    | BeginUnquiesce(token: Token)
    | BeginShutdown(now: int)
    | RestoreShutdown(previous: PhaseState)

  predicate IsCurrent(s: PhaseState, phase: Phase, token: Token) {
    s.phase == phase && s.generation == token.generation
  }

  /** Whether the call does anything; all others leave the state as it is. */
  predicate Enabled(s: PhaseState, m: Mutation) {
    match m
    case BeginQuiesce(_) => s.phase == Active || s.phase == Quiescing
    case BeginActivation(token) => IsCurrent(s, Quiescing, token)
    case CompleteActivation(token, _) => IsCurrent(s, Activating, token)
    case CancelActivation(token) => IsCurrent(s, Activating, token)
    case BeginUnquiesce(token) => IsCurrent(s, Quiescing, token)
    case BeginShutdown(_) => s.phase == Active || s.phase == Quiescing
    case RestoreShutdown(_) => s.phase == ShuttingDown
  }

  function Mutate(s: PhaseState, m: Mutation): PhaseState {
    if !Enabled(s, m) then s
    else
      var next := s.generation + 1;
      match m
      case BeginQuiesce(now) => PhaseState(Quiescing, next, if s.phase == Active then now else s.startedAt)
      case BeginActivation(_) => PhaseState(Activating, next, s.startedAt)
      case CompleteActivation(_, now) => PhaseState(Active, next, now)
      case CancelActivation(token) => PhaseState(Quiescing, next, token.restore.GetOr(s.startedAt))
      case BeginUnquiesce(_) => PhaseState(Activating, next, s.startedAt)
      case BeginShutdown(now) => PhaseState(ShuttingDown, next, if s.phase == Active then now else s.startedAt)
      case RestoreShutdown(previous) => PhaseState(previous.phase, next, previous.startedAt)
  }

  /** The token that a claim of the activation hands out. */
  function ActivationToken(s: PhaseState, token: Token): Option<Token> {
    if IsCurrent(s, Quiescing, token) then Some(Token(s.generation + 1, Some(s.startedAt))) else None
  }

  function Millis(instant: int): int {
    instant / 1_000_000
  }

  /** Whether new Webex work is admitted, given when the sidecar received it. */
  predicate Admits(s: PhaseState, receivedAt: Option<int>) {
    match s.phase
    case Active => true
    case Activating => false
    case _ => receivedAt.Some? && Millis(receivedAt.value) <= Millis(s.startedAt)
  }

  /**
   In instants: an open gate admits everything, a closed one all that was received by the cutoff and nothing
   received a millisecond or more after it, and one that is being opened nothing.
   */
  lemma AdmitsByReceipt(s: PhaseState, receivedAt: Option<int>)
    ensures s.phase == Active ==> Admits(s, receivedAt)
    ensures s.phase == Activating ==> !Admits(s, receivedAt)
    ensures s.phase == Quiescing || s.phase == ShuttingDown ==>
              && (receivedAt.None? ==> !Admits(s, receivedAt))
              && (receivedAt.Some? && receivedAt.value <= s.startedAt ==> Admits(s, receivedAt))
              && (receivedAt.Some? && receivedAt.value >= s.startedAt + 1_000_000 ==> !Admits(s, receivedAt))
  {
  }

  /** A gate that closes takes its cutoff from the clock then, and one that is closed already keeps it. */
  lemma ClosingReadsClock(s: PhaseState, now: int)
    requires s.phase == Active || s.phase == Quiescing
    ensures var quiesced, shut := Mutate(s, BeginQuiesce(now)), Mutate(s, BeginShutdown(now));
            && quiesced.phase == Quiescing && shut.phase == ShuttingDown
            && quiesced.startedAt == shut.startedAt == (if s.phase == Active then now else s.startedAt)
            && Enabled(quiesced, BeginUnquiesce(Token(quiesced.generation, None)))
  {
  }

  /** `prepare_unquiesce`. */
  function PrepareUnquiesce(s: PhaseState): Option<Token> {
    match s.phase
    case Active => Some(Token(s.generation, None))
    case Quiescing => Some(Token(s.generation, Some(s.startedAt)))
    case _ => None
  }

  class LifecycleControl {
    var state: PhaseState
    var inFlight: nat
    var notified: nat // calls of `notify_waiters` so far

    constructor (initial: Phase, now: int)
      ensures state == PhaseState(initial, 0, now) && inFlight == 0 && notified == 0
    {
      state, inFlight, notified := PhaseState(initial, 0, now), 0, 0;
    }

    method BeginQuiesce(now: int) returns (token: Option<Token>)
      modifies this`state
      ensures state == Mutate(old(state), Mutation.BeginQuiesce(now))
      ensures token == if Enabled(old(state), Mutation.BeginQuiesce(now)) then Some(Token(state.generation, None))
                       else None
    {
      match state.phase {
        case Active =>
          state := state.(phase := Quiescing);
          state := state.(generation := state.generation + 1);
          state := state.(startedAt := now);
          token := Some(Token(state.generation, None));
        case Quiescing =>
          state := state.(generation := state.generation + 1);
          token := Some(Token(state.generation, None));
        case _ =>
          token := None;
      }
    }

    method IsCurrentQuiesce(token: Token) returns (current: bool)
      ensures current <==> IsCurrent(state, Quiescing, token)
    {
      current := state.phase == Quiescing && state.generation == token.generation;
    }

    method BeginUnquiesceActivation(token: Token) returns (activation: Option<Token>)
      modifies this`state
      ensures state == Mutate(old(state), BeginActivation(token))
      ensures activation == ActivationToken(old(state), token)
    {
      if state.phase != Quiescing || state.generation != token.generation {
        return None;
      }
      var quiesceStartedAt := state.startedAt;
      state := state.(phase := Activating);
      state := state.(generation := state.generation + 1);
      activation := Some(Token(state.generation, Some(quiesceStartedAt)));
    }

    method CompleteUnquiesceActivation(token: Token, now: int) returns (done: bool)
      modifies this`state
      ensures state == Mutate(old(state), CompleteActivation(token, now))
      ensures done <==> IsCurrent(old(state), Activating, token)
    {
      if state.phase != Activating || state.generation != token.generation {
        return false;
      }
      state := state.(phase := Active);
      state := state.(generation := state.generation + 1);
      state := state.(startedAt := now);
      done := true;
    }

    method CancelUnquiesceActivation(token: Token)
      modifies this`state
      ensures state == Mutate(old(state), CancelActivation(token))
    {
      if state.phase == Activating && state.generation == token.generation {
        state := state.(phase := Quiescing);
        state := state.(generation := state.generation + 1);
        if token.restore.Some? {
          state := state.(startedAt := token.restore.value);
        }
      }
    }

    method BeginUnquiesceIfCurrent(token: Token) returns (accepted: bool, activation: Option<Token>)
      modifies this`state
      ensures state == Mutate(old(state), BeginUnquiesce(token))
      ensures accepted <==> IsCurrent(old(state), Active, token) || IsCurrent(old(state), Quiescing, token)
      ensures activation == ActivationToken(old(state), token)
    {
      if state.phase == Activating || state.phase == ShuttingDown || state.generation != token.generation {
        return false, None;
      }
      if state.phase == Active {
        return true, None;
      }
      var quiesceStartedAt := state.startedAt;
      state := state.(phase := Activating);
      state := state.(generation := state.generation + 1);
      return true, Some(Token(state.generation, Some(quiesceStartedAt)));
    }

    method BeginShutdown(now: int) returns (previous: Option<PhaseState>)
      modifies this`state
      ensures state == Mutate(old(state), Mutation.BeginShutdown(now))
      ensures previous == if Enabled(old(state), Mutation.BeginShutdown(now)) then Some(old(state)) else None
    {
      if state.phase == Activating || state.phase == ShuttingDown {
        return None;
      }
      var was := state;
      state := state.(phase := ShuttingDown);
      state := state.(generation := state.generation + 1);
      if was.phase == Active {
        state := state.(startedAt := now);
      }
      previous := Some(was);
    }

    method RestoreShutdownPhase(previous: PhaseState)
      modifies this`state
      ensures state == Mutate(old(state), RestoreShutdown(previous))
    {
      if state.phase == ShuttingDown {
        state := state.(phase := previous.phase);
        state := state.(generation := state.generation + 1);
        state := state.(startedAt := previous.startedAt);
      }
    }

    /** `try_begin_drainable_external_work`. */
    method TryBeginDrainableExternalWork(receivedAt: Option<int>) returns (permit: LifecycleWorkPermit?)
      modifies this`inFlight
      ensures permit != null <==> Admits(state, receivedAt)
      ensures permit != null ==> fresh(permit) && permit.lifecycle == this && !permit.finished
      ensures inFlight == old(inFlight) + if permit != null then 1 else 0
    {
      permit := null;
      match state.phase {
        case Active =>
          inFlight := inFlight + 1;
          permit := new LifecycleWorkPermit(this);
        case Quiescing =>
          if receivedAt.Some? && Millis(receivedAt.value) <= Millis(state.startedAt) {
            inFlight := inFlight + 1;
            permit := new LifecycleWorkPermit(this);
          }
        case Activating =>
        case ShuttingDown =>
          if receivedAt.Some? && Millis(receivedAt.value) <= Millis(state.startedAt) {
            inFlight := inFlight + 1;
            permit := new LifecycleWorkPermit(this);
          }
      }
    }
  }

  class LifecycleWorkPermit {
    const lifecycle: LifecycleControl
    var finished: bool

    constructor (lifecycle: LifecycleControl)
      ensures this.lifecycle == lifecycle && !finished
    {
      this.lifecycle, finished := lifecycle, false;
    }

    /** Gives the slot back once, however often it is called or dropped, and notifies on reaching zero. */
    method Finish()
      requires !finished ==> lifecycle.inFlight > 0 // `Permits.NeverUnderflows`
      modifies this, lifecycle`inFlight, lifecycle`notified
      ensures finished
      ensures lifecycle.inFlight == old(lifecycle.inFlight) - if old(finished) then 0 else 1
      ensures lifecycle.notified == old(lifecycle.notified) +
                                    if !old(finished) && lifecycle.inFlight == 0 then 1 else 0
    {
      if finished {
        return;
      }
      finished := true;
      var before := lifecycle.inFlight;
      lifecycle.inFlight := before - 1;
      if before == 1 {
        lifecycle.notified := lifecycle.notified + 1;
      }
    }
  }
}
