/**
 The app-server lease loop of the supervisor (wxcd-supervisor/src/main.rs, `run_plugin_app_server_lease`).
 Times are in seconds; a run is any finite prefix of the loop's turns, so it may be as long as one likes.
 */
module Lease {
  import opened Wrappers

  const REFRESH_INTERVAL := 30
  const SAFETY_MARGIN := 5
  const CONTROL_TIMEOUT: real := 5.0

  function RefreshDelay(remaining: nat): Result<nat, string> {
    if remaining <= SAFETY_MARGIN then Failure("only a safety margin remains")
    else
      var safe: nat := remaining - SAFETY_MARGIN;
      Success(if REFRESH_INTERVAL < safe then REFRESH_INTERVAL else safe)
  }

  /** A sleep is as long as is safe: a second at least, the interval at most, a control timeout short of expiry. */
  lemma RefreshDelayBounds(remaining: nat)
    ensures RefreshDelay(remaining).Success? <==> remaining > 5
    ensures RefreshDelay(remaining).Success? ==>
              && 1 <= RefreshDelay(remaining).value <= 30
              && RefreshDelay(remaining).value as real + CONTROL_TIMEOUT <= remaining as real
    ensures forall more: nat :: remaining <= more && RefreshDelay(remaining).Success? ==>
              RefreshDelay(more).Success? && RefreshDelay(remaining).value <= RefreshDelay(more).value
    ensures RefreshDelay(remaining).Success? ==>
              || RefreshDelay(remaining).value == 30
              || (RefreshDelay(remaining).value + 1) as real + CONTROL_TIMEOUT > remaining as real
  {
  }

  /** How one turn goes: the sleep overruns by `late`, then the refresh answers or fails; or a stop arrives first. */
  datatype Turn =
    | Refreshed(late: real, took: real, remaining: nat)
    | RefreshFailed(late: real, took: real, reconnected: bool)
    | StopRequested(after: real, ok: bool)

  predicate Possible(t: Turn) {
    match t
    case Refreshed(late, took, _) => 0.0 <= late && 0.0 <= took <= CONTROL_TIMEOUT
    case RefreshFailed(late, took, _) => 0.0 <= late && 0.0 <= took <= CONTROL_TIMEOUT
    case StopRequested(after, _) => 0.0 <= after
  }

  /** `expiry` is when the lease runs out by the seconds last reported. */
  datatype Event =
    | Slept(delay: nat)
    | Attempted(started: real, ended: real, expiry: real, late: real)
    | StopAttempted
    | ReconnectFailed

  datatype Outcome = StillRunning | StoppedOk | StopFailed | LeaseLost

  ghost predicate AttemptInTime(e: Event) {
    match e
    case Attempted(started, ended, expiry, late) => started <= ended <= expiry + late
    case Slept(delay) => delay >= 1
    case _ => true
  }

  /** A reconnect-and-stop attempt; the plugin session may be gone (`cleanup_plugin_app_server_lease_after_error`). */
  method Cleanup(reconnected: bool) returns (last: Event)
    ensures last == if reconnected then StopAttempted else ReconnectFailed
  {
    if reconnected {
      last := StopAttempted;
    } else {
      last := ReconnectFailed;
    }
  }

  // ---- Where the loop stands before turn `i`, all earlier turns having refreshed ----

  ghost predicate RefreshedUpTo(turns: seq<Turn>, i: nat) {
    i <= |turns| && forall k :: 0 <= k < i ==> turns[k].Refreshed?
  }

  ghost function Reported(initial: nat, turns: seq<Turn>, i: nat): nat
    requires RefreshedUpTo(turns, i)
  {
    if i == 0 then initial else turns[i - 1].remaining
  }

  ghost function Delay(initial: nat, turns: seq<Turn>, i: nat): nat
    requires RefreshedUpTo(turns, i)
  {
    match RefreshDelay(Reported(initial, turns, i))
    case Success(d) => d
    case Failure(_) => 0
  }

  ghost function ReportedAt(start: real, initial: nat, turns: seq<Turn>, i: nat): real
    requires RefreshedUpTo(turns, i)
  {
    if i == 0 then start
    else
      ReportedAt(start, initial, turns, i - 1) + Delay(initial, turns, i - 1) as real
      + turns[i - 1].late + turns[i - 1].took
  }

  /** Turn `i` slept and attempted as it had to. */
  ghost predicate TurnTraced(start: real, initial: nat, turns: seq<Turn>, i: nat, slept: Event, attempt: Event)
    requires i < |turns| && RefreshedUpTo(turns, i)
  {
    && !turns[i].StopRequested?
    && slept == Slept(Delay(initial, turns, i))
    && attempt.Attempted?
    && attempt.started == ReportedAt(start, initial, turns, i) + Delay(initial, turns, i) as real + turns[i].late
    && attempt.ended == attempt.started + turns[i].took
    && attempt.expiry == ReportedAt(start, initial, turns, i) + Reported(initial, turns, i) as real
    && attempt.late == turns[i].late
  }

  ghost predicate Traced(start: real, initial: nat, turns: seq<Turn>, n: nat, trace: seq<Event>) {
    && n <= |turns| && 2 * n <= |trace|
    && forall i :: 0 <= i < n ==>
         RefreshedUpTo(turns, i) && TurnTraced(start, initial, turns, i, trace[2 * i], trace[2 * i + 1])
  }

  ghost predicate AllInTime(trace: seq<Event>) {
    forall i :: 0 <= i < |trace| ==> AttemptInTime(trace[i])
  }

  lemma OneTurnMore(start: real, initial: nat, turns: seq<Turn>, n: nat, trace: seq<Event>,
                    slept: Event, attempt: Event)
    requires Traced(start, initial, turns, n, trace) && 2 * n == |trace| && AllInTime(trace)
    requires n < |turns| && RefreshedUpTo(turns, n) && TurnTraced(start, initial, turns, n, slept, attempt)
    requires AttemptInTime(slept) && AttemptInTime(attempt)
    ensures Traced(start, initial, turns, n + 1, trace + [slept, attempt]) && AllInTime(trace + [slept, attempt])
  {
  }

  lemma ThenStopped(start: real, initial: nat, turns: seq<Turn>, n: nat, trace: seq<Event>, last: Event)
    requires Traced(start, initial, turns, n, trace) && AllInTime(trace) && last in {StopAttempted, ReconnectFailed}
    ensures Traced(start, initial, turns, n, trace + [last]) && AllInTime(trace + [last])
  {
  }

  /** In the trace itself: an attempt starts a sleep after the one before ended, on what that one reported. */
  lemma NextAttemptFollows(start: real, initial: nat, turns: seq<Turn>, n: nat, trace: seq<Event>, i: nat)
    requires Traced(start, initial, turns, n, trace) && AllInTime(trace) && i + 1 < n
    ensures var (one, next) := (trace[2 * i + 1], trace[2 * i + 3]);
            && one.Attempted? && next.Attempted? && trace[2 * i + 2].Slept? && turns[i].Refreshed?
            && next.started == one.ended + trace[2 * i + 2].delay as real + next.late
            && next.expiry == one.ended + turns[i].remaining as real
            && RefreshDelay(turns[i].remaining) == Success(trace[2 * i + 2].delay)
    ensures trace[1].Attempted? && trace[0].Slept? && trace[1].expiry == start + initial as real
            && trace[1].started == start + trace[0].delay as real + trace[1].late
  {
    assert TurnTraced(start, initial, turns, 0, trace[2 * 0], trace[2 * 0 + 1]);
    assert RefreshedUpTo(turns, i + 1) && TurnTraced(start, initial, turns, i, trace[2 * i], trace[2 * i + 1]);
    assert TurnTraced(start, initial, turns, i + 1, trace[2 * (i + 1)], trace[2 * (i + 1) + 1]);
    assert AttemptInTime(trace[2 * (i + 1)]);
  }

  /**
   The trace is one sleep and one attempt per turn, closed by a stop or a try to reconnect for one,
   whatever ends the loop. Every attempt, its timeout included, ends by the expiry that the last report
   implied (plus however late the sleep woke), and every sleep is at least a second.
   */
  method RunLease(start: real, initial: nat, turns: seq<Turn>, reconnects: bool)
    returns (trace: seq<Event>, outcome: Outcome)
    requires forall i :: 0 <= i < |turns| ==> Possible(turns[i])
    ensures Traced(start, initial, turns, |trace| / 2, trace) && AllInTime(trace)
    ensures outcome == StillRunning <==> |trace| % 2 == 0
    ensures outcome == StillRunning ==> |trace| / 2 == |turns| && RefreshedUpTo(turns, |turns|)
    ensures outcome != StillRunning ==> trace[|trace| - 1] in {StopAttempted, ReconnectFailed}
    ensures var n := |trace| / 2;
            outcome in {StoppedOk, StopFailed} <==>
              && n < |turns| && RefreshedUpTo(turns, n) && turns[n].StopRequested?
              && Reported(initial, turns, n) > SAFETY_MARGIN
    ensures outcome in {StoppedOk, StopFailed} ==>
              && trace[|trace| - 1] == StopAttempted
              && outcome == if turns[|trace| / 2].ok then StoppedOk else StopFailed
    ensures outcome == LeaseLost ==>
              var n := |trace| / 2;
              || (RefreshedUpTo(turns, n) && Reported(initial, turns, n) <= SAFETY_MARGIN)
              || (n > 0 && turns[n - 1].RefreshFailed?)
  {
    trace := [];
    var remaining, now := initial, start;
    for i := 0 to |turns|
      invariant RefreshedUpTo(turns, i) && |trace| == 2 * i
      invariant remaining == Reported(initial, turns, i) && now == ReportedAt(start, initial, turns, i)
      invariant Traced(start, initial, turns, i, trace) && AllInTime(trace)
    {
      RefreshDelayBounds(remaining);
      var delay := RefreshDelay(remaining);
      if delay.Failure? {
        var last := Cleanup(reconnects);
        ThenStopped(start, initial, turns, i, trace, last);
        return trace + [last], LeaseLost;
      }
      var expiry := now + remaining as real;
      match turns[i] {
        case StopRequested(_, ok) =>
          ThenStopped(start, initial, turns, i, trace, StopAttempted);
          return trace + [StopAttempted], if ok then StoppedOk else StopFailed;
        case Refreshed(late, took, reported) =>
          var started := now + delay.value as real + late;
          var attempt := Attempted(started, started + took, expiry, late);
          OneTurnMore(start, initial, turns, i, trace, Slept(delay.value), attempt);
          trace := trace + [Slept(delay.value), attempt];
          now := started + took;
          remaining := reported;
        case RefreshFailed(late, took, reconnected) =>
          var started := now + delay.value as real + late;
          var attempt := Attempted(started, started + took, expiry, late);
          OneTurnMore(start, initial, turns, i, trace, Slept(delay.value), attempt);
          trace := trace + [Slept(delay.value), attempt];
          var last := Cleanup(reconnected);
          ThenStopped(start, initial, turns, i + 1, trace, last);
          return trace + [last], LeaseLost;
      }
    }
    outcome := StillRunning;
  }
}
