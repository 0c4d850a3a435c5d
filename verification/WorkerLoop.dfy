/**
 The worker loop's unquiesce arm and the handler it calls, run over the shared gate (wxcd-worker/src/main.rs).
 Between its awaits other tasks may act, but once the activation is claimed none of them can touch the gate
 (`Unquiesce.OnlyWorkerLeavesActivating`), so the handler's own steps are all that happens to it.
 */
module WorkerLoop {
  import opened Wrappers
  import opened Lifecycle

  datatype Response =
    | Ack(accepted: bool)
    | Error
    | AckWithCommit(accepted: bool, activation: Option<Token>, startup: bool)

  /** What the handler finds: its deadline read at three points, and its two fallible calls. */
  datatype Findings = Findings(
    expiredAtEntry: bool,
    expiredAfterClaim: bool,
    reconciled: bool,
    persisted: bool,
    expiredAtEnd: bool)

  predicate HoldsClaim(r: Response) {
    r.AckWithCommit? && r.accepted && r.activation.Some?
  }

  /** The peer is told that its request was accepted. */
  predicate SaysAccepted(r: Response) {
    !r.Error? && r.accepted
  }

  class WorkerLoop {
    const lifecycle: LifecycleControl
    var pending: bool          // startup_reconcile_pending
    var completed: bool        // startup_reconcile_completed
    var snapshotPending: bool  // startup_snapshot_persist_pending

    ghost predicate StartupOrdered()
      reads this
    {
      !pending ==> completed && !snapshotPending
    }

    constructor (lifecycle: LifecycleControl, pending: bool, snapshotPending: bool)
      requires snapshotPending ==> pending
      ensures this.lifecycle == lifecycle && this.pending == pending && this.snapshotPending == snapshotPending
      ensures StartupOrdered() && completed == !pending
    {
      this.lifecycle, this.pending, completed, this.snapshotPending := lifecycle, pending, !pending, snapshotPending;
    }

    /** The conditions under which startup work lets a claim stand. */
    ghost predicate StartupSucceeds(f: Findings)
      reads this
    {
      pending ==>
        && (!completed ==> !f.expiredAfterClaim && f.reconciled)
        && (snapshotPending ==> f.persisted)
    }

    /** Startup work itself fails, before its deadline if it is still to be started. */
    ghost predicate StartupFails(f: Findings)
      reads this
    {
      if !completed && f.expiredAfterClaim then false
      else (!completed && !f.reconciled) || (snapshotPending && !f.persisted)
    }

    /**
     `handle_lifecycle_unquiesce` either hands out a current claim, with startup work done and the cutoff
     remembered, or leaves the gate in its phase with its cutoff. It says accepted only with a claim in hand, or to
     the current token of an open gate.
     */
    method HandleLifecycleUnquiesce(token: Token, f: Findings) returns (r: Response)
      requires StartupOrdered()
      modifies this`completed, this`snapshotPending, lifecycle`state
      ensures StartupOrdered()
      ensures HoldsClaim(r) <==>
              && IsCurrent(old(lifecycle.state), Quiescing, token)
              && !f.expiredAtEntry && !f.expiredAtEnd && old(StartupSucceeds(f))
      ensures HoldsClaim(r) ==>
              && lifecycle.state
                 == PhaseState(Activating, r.activation.value.generation, old(lifecycle.state.startedAt))
              && r.activation.value.restore == Some(old(lifecycle.state.startedAt))
              && completed && !snapshotPending && r.startup == pending
      ensures !HoldsClaim(r) ==>
              lifecycle.state == old(lifecycle.state).(generation := lifecycle.state.generation)
      ensures SaysAccepted(r) <==>
              || HoldsClaim(r)
              || (!pending && !f.expiredAtEntry && !f.expiredAtEnd && IsCurrent(old(lifecycle.state), Active, token))
      ensures r == Error <==>
              && pending && IsCurrent(old(lifecycle.state), Quiescing, token) && !f.expiredAtEntry
              && old(StartupFails(f))
      ensures !SaysAccepted(r) && r != Error && (pending || f.expiredAtEntry || f.expiredAtEnd) ==> r == Ack(false)
      ensures old(lifecycle.state.generation) != token.generation ==> !SaysAccepted(r)
    {
      if lifecycle.state.phase == ShuttingDown || f.expiredAtEntry {
        return Ack(false);
      }
      if pending {
        var activation := lifecycle.BeginUnquiesceActivation(token);
        if activation.None? {
          return Ack(false);
        }
        r := PrepareStartup(activation.value, f);
        return;
      }
      if f.expiredAtEnd {
        return Ack(false);
      }
      var accepted, activation := lifecycle.BeginUnquiesceIfCurrent(token);
      return AckWithCommit(accepted, activation, false);
    }

    /** Its branch for a worker that started closed: reconcile and the deferred snapshot under the claim. */
    method PrepareStartup(activation: Token, f: Findings) returns (r: Response)
      requires pending && IsCurrent(lifecycle.state, Activating, activation)
      requires activation.restore == Some(lifecycle.state.startedAt)
      modifies this`completed, this`snapshotPending, lifecycle`state
      ensures HoldsClaim(r) <==> !f.expiredAtEnd && old(StartupSucceeds(f))
      ensures HoldsClaim(r) ==>
              r == AckWithCommit(true, Some(activation), true) && lifecycle.state == old(lifecycle.state)
              && completed && !snapshotPending
      ensures !HoldsClaim(r) ==>
              && r == (if old(StartupFails(f)) then Error else Ack(false))
              && lifecycle.state == Mutate(old(lifecycle.state), CancelActivation(activation))
      ensures old(completed) ==> completed
      ensures !old(snapshotPending) ==> !snapshotPending
    {
      if !completed && f.expiredAfterClaim {
        lifecycle.CancelUnquiesceActivation(activation);
        return Ack(false);
      }
      if !completed {
        if !f.reconciled {
          lifecycle.CancelUnquiesceActivation(activation);
          return Error;
        }
        completed := true;
      }
      if snapshotPending {
        if !f.persisted {
          lifecycle.CancelUnquiesceActivation(activation);
          return Error;
        }
        snapshotPending := false;
      }
      if f.expiredAtEnd {
        lifecycle.CancelUnquiesceActivation(activation);
        return Ack(false);
      }
      return AckWithCommit(true, Some(activation), true);
    }

    /**
     The whole arm. From Quiescing the gate opens exactly when the claim stands and its response was delivered
     and flushed, and only then does startup stop pending; otherwise it is as before, with its old cutoff.
     */
    method UnquiesceArm(token: Token, f: Findings, delivered: bool, flushed: bool, now: int) returns (r: Response)
      requires StartupOrdered()
      modifies this, lifecycle`state
      ensures StartupOrdered()
      ensures HoldsClaim(r) <==>
              && IsCurrent(old(lifecycle.state), Quiescing, token)
              && !f.expiredAtEntry && !f.expiredAtEnd && old(StartupSucceeds(f))
      ensures SaysAccepted(r) <==>
              || HoldsClaim(r)
              || (old(!pending) && !f.expiredAtEntry && !f.expiredAtEnd
                  && IsCurrent(old(lifecycle.state), Active, token))
      ensures r == Error <==>
              && old(pending) && IsCurrent(old(lifecycle.state), Quiescing, token) && !f.expiredAtEntry
              && old(StartupFails(f))
      ensures !SaysAccepted(r) && r != Error && (old(pending) || f.expiredAtEntry || f.expiredAtEnd) ==> r == Ack(false)
      ensures old(lifecycle.state.generation) != token.generation ==> !SaysAccepted(r)
      ensures var opens := HoldsClaim(r) && delivered && flushed;
              && lifecycle.state.phase == (if opens then Active else old(lifecycle.state.phase))
              && lifecycle.state.startedAt == (if opens then now else old(lifecycle.state.startedAt))
              && pending == (old(pending) && !opens)
              && (opens && old(pending) ==> completed && !snapshotPending)
    {
      r := HandleLifecycleUnquiesce(token, f);
      if r.AckWithCommit? && r.accepted && r.activation.Some? {
        if delivered && flushed {
          var done := lifecycle.CompleteUnquiesceActivation(r.activation.value, now);
          if done && r.startup {
            pending := false;
          }
        } else {
          lifecycle.CancelUnquiesceActivation(r.activation.value);
        }
      }
    }
  }
}
