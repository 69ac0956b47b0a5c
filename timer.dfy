/** The countdown timer (src/hooks/useTimer.ts, src/types/timer.ts).

    `tick` is a pure function of the previous state and the current instant
    (milliseconds). The hook's refs become fields of `TimerHook`: `ticking`
    for the interval, `onComplete` for the completion callback (callbacks are
    named by a number) and `pendingCompletions` for scheduled
    `setTimeout(…, 0)` calls that will invoke whatever callback is current
    when they fire. */
module Timer {
  import opened Wrappers
  import SessionRules

  datatype TimerStatus = Idle | Running | Completed | Exceeded
  datatype TimerMode = FocusMode | BreakMode | CheckinMode

  datatype TimerState = TimerState(
    status: TimerStatus,
    mode: TimerMode,
    totalDuration: int,
    remainingSeconds: int,
    sessionId: Option<string>,
    startTime: Option<int>,
    completedAt: Option<int>,
    exceededSeconds: int)

  const INITIAL_STATE: TimerState := TimerState(Idle, FocusMode, 0, 0, None, None, None, 0)

  /** `Math.max(0, Math.ceil(total - elapsed))` with elapsed in seconds since
      `startTime`: never negative, zero exactly when the whole duration has
      elapsed, otherwise the whole seconds that cover what is left, and not
      above the duration once the start has passed. */
  function RemainingAt(total: int, startTime: int, now: int): (r: int)
    ensures r >= 0
    ensures r == 0 <==> now - startTime >= total * 1000
    ensures r > 0 ==> (r - 1) * 1000 < total * 1000 - (now - startTime) <= r * 1000
    ensures now >= startTime && total >= 0 ==> r <= total
  {
    var c := SessionRules.CeilDiv(total * 1000 - (now - startTime), 1000);
    if c < 0 then 0 else c
  }

  /** The countdown never goes up as time advances. */
  lemma RemainingNonIncreasing(total: int, startTime: int, t1: int, t2: int)
    requires t1 <= t2
    ensures RemainingAt(total, startTime, t2) <= RemainingAt(total, startTime, t1)
  {
    var a1, a2 := total * 1000 - (t1 - startTime), total * 1000 - (t2 - startTime);
    var c1, c2 := SessionRules.CeilDiv(a1, 1000), SessionRules.CeilDiv(a2, 1000);
    assert a2 <= a1;
  }

  /** The next state, and whether the completion callback gets scheduled. */
  datatype TickResult = TickResult(state: TimerState, schedulesCompletion: bool)

  predicate Ticks(s: TimerState) {
    (s.status == Running || s.status == Exceeded) && s.startTime.Some?
  }

  /** The `tick` updater. */
  function Tick(prev: TimerState, now: int): (r: TickResult)
    ensures !Ticks(prev) ==> r == TickResult(prev, false)
    ensures r.schedulesCompletion <==>
      Ticks(prev) && prev.status == Running && RemainingAt(prev.totalDuration, prev.startTime.value, now) == 0
    ensures r.schedulesCompletion ==>
      r.state == prev.(remainingSeconds := 0, status := Exceeded, completedAt := Some(now), exceededSeconds := 0)
    ensures Ticks(prev) && prev.status == Running && !r.schedulesCompletion ==>
      r.state == prev.(remainingSeconds := RemainingAt(prev.totalDuration, prev.startTime.value, now)) &&
      r.state.remainingSeconds >= 1
    ensures Ticks(prev) && prev.status == Exceeded && prev.completedAt.Some? ==>
      r.state == prev.(exceededSeconds := (now - prev.completedAt.value) / 1000)
    ensures Ticks(prev) && prev.status == Exceeded && prev.completedAt.None? ==>
      r.state == prev.(remainingSeconds := RemainingAt(prev.totalDuration, prev.startTime.value, now))
    ensures r.state.status == prev.status || (prev.status == Running && r.state.status == Exceeded)
  {
    if !Ticks(prev) then TickResult(prev, false)
    else
      var remaining := RemainingAt(prev.totalDuration, prev.startTime.value, now);
      if remaining <= 0 && prev.status == Running then
        TickResult(prev.(remainingSeconds := 0, status := Exceeded, completedAt := Some(now),
                         exceededSeconds := 0), true)
      else if prev.status == Exceeded && prev.completedAt.Some? then
        TickResult(prev.(exceededSeconds := (now - prev.completedAt.value) / 1000), false)
      else
        TickResult(prev.(remainingSeconds := remaining), false)
  }

  /** Completions scheduled by a run of ticks at the given instants. */
  function Completions(s: TimerState, times: seq<int>): nat
    decreases |times|
  {
    if times == [] then 0
    else
      var r := Tick(s, times[0]);
      (if r.schedulesCompletion then 1 else 0) + Completions(r.state, times[1..])
  }

  lemma {:induction false} NoCompletionUnlessRunning(s: TimerState, times: seq<int>)
    requires s.status != Running
    ensures Completions(s, times) == 0
    decreases |times|
  {
    if times != [] {
      NoCompletionUnlessRunning(Tick(s, times[0]).state, times[1..]);
    }
  }

  /** However the ticks fall, a started timer schedules its completion at most
      once: completing leaves `running`, and nothing but a new start returns to it. */
  lemma {:induction false} AtMostOneCompletion(s: TimerState, times: seq<int>)
    ensures Completions(s, times) <= 1
    decreases |times|
  {
    if times != [] {
      var r := Tick(s, times[0]);
      if r.schedulesCompletion {
        NoCompletionUnlessRunning(r.state, times[1..]);
      } else {
        AtMostOneCompletion(r.state, times[1..]);
      }
    }
  }

  class TimerHook {
    var state: TimerState
    var ticking: bool
    var onComplete: Option<nat>
    var pendingCompletions: nat

    constructor ()
      ensures state == INITIAL_STATE && !ticking && onComplete == None && pendingCompletions == 0
    {
      state := INITIAL_STATE;
      ticking := false;
      onComplete := None;
      pendingCompletions := 0;
    }

    /** `start`: a running timer over the whole duration. */
    method Start(duration: int, mode: TimerMode, sessionId: string, startTime: int, callback: nat)
      modifies this
      ensures state == TimerState(Running, mode, duration, duration, Some(sessionId), Some(startTime), None, 0)
      ensures ticking && onComplete == Some(callback) && pendingCompletions == old(pendingCompletions)
    {
      onComplete := Some(callback);
      state := TimerState(Running, mode, duration, duration, Some(sessionId), Some(startTime), None, 0);
      ticking := true;
    }

    /** `resume`: a running timer anchored at the original start. */
    method Resume(remaining: int, totalDuration: int, mode: TimerMode, sessionId: string,
                  originalStartTime: int, callback: nat)
      modifies this
      ensures state == TimerState(Running, mode, totalDuration, remaining, Some(sessionId),
                                  Some(originalStartTime), None, 0)
      ensures ticking && onComplete == Some(callback) && pendingCompletions == old(pendingCompletions)
    {
      onComplete := Some(callback);
      state := TimerState(Running, mode, totalDuration, remaining, Some(sessionId),
                          Some(originalStartTime), None, 0);
      ticking := true;
    }

    /** `stop`: back to the initial state with the interval and the
        completion callback cleared. */
    method Stop()
      modifies this
      ensures state == INITIAL_STATE && !ticking && onComplete == None
      ensures pendingCompletions == old(pendingCompletions)
    {
      ticking := false;
      onComplete := None;
      state := INITIAL_STATE;
    }

    /** `reset`: the same as `stop`. */
    method Reset()
      modifies this
      ensures state == INITIAL_STATE && !ticking && onComplete == None
      ensures pendingCompletions == old(pendingCompletions)
    {
      ticking := false;
      onComplete := None;
      state := INITIAL_STATE;
    }

    /** `setTimerState`: replaces the state; an exceeded state (re)starts the interval. */
    method SetTimerState(newState: TimerState)
      modifies this
      ensures state == newState
      ensures ticking == (old(ticking) || newState.status == Exceeded)
      ensures onComplete == old(onComplete) && pendingCompletions == old(pendingCompletions)
    {
      state := newState;
      if newState.status == Exceeded {
        ticking := true;
      }
    }

    /** One interval tick at instant `now`. */
    method OnTick(now: int)
      modifies this`state, this`pendingCompletions
      ensures state == Tick(old(state), now).state
      ensures pendingCompletions == old(pendingCompletions) + (if Tick(old(state), now).schedulesCompletion then 1 else 0)
    {
      var r := Tick(state, now);
      state := r.state;
      if r.schedulesCompletion {
        pendingCompletions := pendingCompletions + 1;
      }
    }

    /** A scheduled `setTimeout` fires: it calls the callback current now, if any. */
    method FirePendingCompletion() returns (called: Option<nat>)
      requires pendingCompletions > 0
      modifies this`pendingCompletions
      ensures called == onComplete && pendingCompletions == old(pendingCompletions) - 1
    {
      called := onComplete;
      pendingCompletions := pendingCompletions - 1;
    }

    /** `elapsedSeconds`. */
    function ElapsedSeconds(): (e: int)
      reads this
      ensures e + state.remainingSeconds == state.totalDuration
    {
      state.totalDuration - state.remainingSeconds
    }

    /** `progress`: the elapsed share of the duration, 0 without a duration. */
    function Progress(): (p: real)
      reads this
      ensures state.totalDuration <= 0 ==> p == 0.0
      ensures state.totalDuration > 0 ==> p * (state.totalDuration as real) == ElapsedSeconds() as real
      ensures 0 <= state.remainingSeconds <= state.totalDuration ==> 0.0 <= p <= 1.0
    {
      if state.totalDuration > 0 then (ElapsedSeconds() as real) / (state.totalDuration as real) else 0.0
    }
  }

  /** A completion scheduled by the tick that runs out the countdown, with
      `stop` called before it fires, calls no callback. */
  method StopCancelsCompletion(duration: int, startTime: int, now: int) returns (called: Option<nat>)
    requires duration >= 0 && now - startTime >= duration * 1000
    ensures called == None
  {
    var timer := new TimerHook();
    timer.Start(duration, FocusMode, "", startTime, 7);
    timer.OnTick(now);
    assert timer.pendingCompletions == 1;
    timer.Stop();
    called := timer.FirePendingCompletion();
  }
}
