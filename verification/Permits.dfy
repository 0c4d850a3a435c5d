/**
 Work permits and the tasks that wait for the last one (wxcd-worker/src/main.rs, `wait_until_drained` and
 `LifecycleWorkPermit::finish`), at the grain of single atomic operations.
 */
module Permits {
  /** `Notifying`: has taken the count from one to zero and has yet to call `notify_waiters`. */
  datatype Permit = Held | Notifying | Finished

  /** `Enabled`: registered with the `Notify` but the count is still to be read; then it parks or returns. */
  datatype Waiter = Starting | Enabled(woken: bool) | Parked(woken: bool) | Returned

  datatype World = World(counter: int, permits: map<nat, Permit>, waiters: map<nat, Waiter>)

  datatype Action =
    | Grant(id: nat)
    | FetchSub(id: nat)      // `finish`, first call
    | FinishAgain(id: nat)   // `finish` or drop once more
    | NotifyWaiters(id: nat)
    | BeginWait(id: nat)
    | Enable(id: nat)
    | ReadCount(id: nat)
    | Resume(id: nat)        // a woken waiter loops
    | TimeOut(id: nat)

  function Wake(w: Waiter): Waiter {
    match w
    case Enabled(_) => Enabled(true)
    case Parked(_) => Parked(true)
    case _ => w
  }

  function WakeAll(waiters: map<nat, Waiter>): map<nat, Waiter> {
    map id | id in waiters :: Wake(waiters[id])
  }

  ghost predicate Next(w: World, a: Action, w2: World) {
    match a
    case Grant(id) => id !in w.permits && w2 == w.(counter := w.counter + 1, permits := w.permits[id := Held])
    case FetchSub(id) =>
      && id in w.permits && w.permits[id] == Held
      && w2 == w.(counter := w.counter - 1, permits := w.permits[id := if w.counter == 1 then Notifying else Finished])
    case FinishAgain(id) => id in w.permits && w.permits[id] != Held && w2 == w
    case NotifyWaiters(id) =>
      && id in w.permits && w.permits[id] == Notifying
      && w2 == w.(permits := w.permits[id := Finished], waiters := WakeAll(w.waiters))
    case BeginWait(id) => id !in w.waiters && w2 == w.(waiters := w.waiters[id := Starting])
    case Enable(id) =>
      id in w.waiters && w.waiters[id] == Starting && w2 == w.(waiters := w.waiters[id := Enabled(false)])
    case ReadCount(id) =>
      && id in w.waiters && w.waiters[id].Enabled?
      && w2 == w.(waiters := w.waiters[id := if w.counter == 0 then Returned else Parked(w.waiters[id].woken)])
    case Resume(id) =>
      id in w.waiters && w.waiters[id] == Parked(true) && w2 == w.(waiters := w.waiters[id := Starting])
    case TimeOut(id) => id in w.waiters && w2 == w.(waiters := w.waiters - {id})
  }

  ghost function HeldIds(w: World): set<nat> {
    set id | id in w.permits && w.permits[id] == Held
  }

  ghost predicate FinisherPending(w: World) {
    exists id :: id in w.permits && w.permits[id] == Notifying
  }

  ghost predicate Inv(w: World) {
    && w.counter == |HeldIds(w)|
    && (forall id :: id in w.waiters && w.waiters[id] == Parked(false) ==> w.counter > 0 || FinisherPending(w))
  }

  ghost predicate IsRun(run: seq<World>, actions: seq<Action>) {
    && |run| == |actions| + 1
    && run[0] == World(0, map[], map[])
    && forall i :: 0 <= i < |actions| ==> Next(run[i], actions[i], run[i + 1])
  }

  lemma StepKeepsCount(w: World, a: Action, w2: World)
    requires w.counter == |HeldIds(w)| && Next(w, a, w2)
    ensures w2.counter == |HeldIds(w2)|
    ensures a.FetchSub? ==> w.counter >= 1
  {
    match a
    case Grant(id) => assert HeldIds(w2) == HeldIds(w) + {id};
    case FetchSub(id) => assert HeldIds(w2) == HeldIds(w) - {id};
    case _ => assert HeldIds(w2) == HeldIds(w);
  }

  lemma StepLosesNoWakeUp(w: World, a: Action, w2: World)
    requires Inv(w) && Next(w, a, w2)
    ensures Inv(w2)
  {
    StepKeepsCount(w, a, w2);
    forall id | id in w2.waiters && w2.waiters[id] == Parked(false) && w2.counter <= 0
      ensures FinisherPending(w2)
    {
      if a.FetchSub? {
        assert w2.permits[a.id] == Notifying;
      } else if !a.NotifyWaiters? {
        assert w.waiters[id] == Parked(false);
        var f :| f in w.permits && w.permits[f] == Notifying;
        assert w2.permits[f] == Notifying;
      }
    }
  }

  lemma {:induction false} RunKeepsInv(run: seq<World>, actions: seq<Action>, k: nat)
    requires IsRun(run, actions) && k < |run|
    ensures Inv(run[k])
  {
    if k > 0 {
      RunKeepsInv(run, actions, k - 1);
      StepLosesNoWakeUp(run[k - 1], actions[k - 1], run[k]);
    }
  }

  /** The count is the number of unfinished permits, and no decrement ever meets a zero. */
  lemma NeverUnderflows(run: seq<World>, actions: seq<Action>, k: nat)
    requires IsRun(run, actions) && k < |run|
    ensures run[k].counter == |HeldIds(run[k])|
    ensures k < |actions| && actions[k].FetchSub? ==> run[k].counter >= 1
  {
    RunKeepsInv(run, actions, k);
    if k < |actions| {
      StepKeepsCount(run[k], actions[k], run[k + 1]);
    }
  }

  /**
   A parked waiter that faces a zero count has been woken, or some finisher is still to notify, and that
   notification wakes it. So once every permit is finished no waiter sleeps on.
   */
  lemma NoLostWakeUp(run: seq<World>, actions: seq<Action>, k: nat, waiter: nat)
    requires IsRun(run, actions) && k < |run|
    requires waiter in run[k].waiters && run[k].waiters[waiter].Parked? && run[k].counter == 0
    ensures run[k].waiters[waiter].woken
            || exists id :: id in run[k].permits && run[k].permits[id] == Notifying
    ensures (forall id :: id in run[k].permits ==> run[k].permits[id] == Finished) ==> run[k].waiters[waiter].woken
    ensures k < |actions| && actions[k].NotifyWaiters? ==> run[k + 1].waiters[waiter] == Parked(true)
  {
    RunKeepsInv(run, actions, k);
    if k < |actions| {
      assert Next(run[k], actions[k], run[k + 1]);
    }
  }

  /** And it does return when it reads the count with no permit unfinished. */
  lemma ReturnsWhenDrained(run: seq<World>, actions: seq<Action>, k: nat, waiter: nat)
    requires IsRun(run, actions) && k < |actions| && actions[k] == ReadCount(waiter)
    ensures HeldIds(run[k]) == {} ==> run[k + 1].waiters[waiter] == Returned
    ensures HeldIds(run[k]) != {} ==> run[k + 1].waiters[waiter].Parked?
  {
    assert Next(run[k], actions[k], run[k + 1]);
    RunKeepsInv(run, actions, k);
  }

  /** A waiter returns only from a read of zero unfinished permits. */
  lemma ReturnsOnlyWhenDrained(run: seq<World>, actions: seq<Action>, k: nat, waiter: nat)
    requires IsRun(run, actions) && k < |actions|
    requires waiter in run[k].waiters && run[k].waiters[waiter] != Returned
    requires waiter in run[k + 1].waiters && run[k + 1].waiters[waiter] == Returned
    ensures HeldIds(run[k]) == {} && actions[k] == ReadCount(waiter)
  {
    assert Next(run[k], actions[k], run[k + 1]);
    RunKeepsInv(run, actions, k);
  }
}
