/** `throttle` and `delayThrottle` (src/utils/useThrottle.ts): closures that
    let a callback through at most once per interval. Time is a parameter:
    `now` stands for `Date.now()` at a call, and timer expiry is an explicit
    event. */
module Throttle {
  import opened Wrappers
  import opened Timeline

  /** A pending `setTimeout`: once `due` is reached it sets `lastUpdated` to
      `stamp`, the time of the call that scheduled it. */
  datatype Timer = Timer(due: int, stamp: int)

  /** The two closure variables `lastUpdated` and `timeout`. */
  datatype State = State(lastUpdated: Option<int>, timeout: Option<Timer>)

  /** `throttle` runs the callback at once when it lets a call through;
      `delayThrottle` differs on the first call and on the run branch. */
  datatype Mode = Immediate | Delayed

  const Initial: State := State(None, None)

  /** One call of the returned function at time `now`: the new state and
      whether the callback ran. The pending timer is always cancelled first. */
  function CallStep(mode: Mode, s: State, interval: int, now: int): (State, bool) {
    match mode
    case Immediate =>
      if s.lastUpdated.None? || now >= s.lastUpdated.value + interval then (State(Some(now), None), true)
      else (State(s.lastUpdated, Some(Timer(now + interval, now))), false)
    case Delayed =>
      if s.lastUpdated.None? then (State(Some(now), None), false)
      else if now >= s.lastUpdated.value + interval then (State(s.lastUpdated, None), true)
      else (State(s.lastUpdated, Some(Timer(now + interval, now))), false)
  }

  /** Time reaches `at`: a pending timer that is due fires. */
  function TickStep(s: State, at: int): State {
    if s.timeout.Some? && s.timeout.value.due <= at then State(Some(s.timeout.value.stamp), None) else s
  }

  /** The state after a sequence of events, and the times at which the
      callback ran. */
  function Run(mode: Mode, s: State, interval: int, events: seq<Event>): (State, seq<int>)
    decreases |events|
  {
    if events == [] then (s, [])
    else
      match events[0]
      case CallAt(now, _) =>
        var (next, ran) := CallStep(mode, s, interval, now);
        var (final, runs) := Run(mode, next, interval, events[1..]);
        (final, if ran then [now] + runs else runs)
      case TickAt(at) =>
        Run(mode, TickStep(s, at), interval, events[1..])
  }

  /** What holds between events: every recorded time is in the past, and a
      pending timer will not move `lastUpdated` back. */
  predicate Inv(s: State, clock: int) {
    && (s.lastUpdated.Some? ==> s.lastUpdated.value <= clock)
    && (s.timeout.Some? ==>
          s.lastUpdated.Some? && s.lastUpdated.value <= s.timeout.value.stamp <= clock)
  }

  /** Consecutive runs are at least `interval` apart, and the first one at
      least `interval` after `prev`. */
  predicate Spaced(prev: Option<int>, runs: seq<int>, interval: int)
    decreases |runs|
  {
    runs == [] || ((prev.None? || runs[0] >= prev.value + interval) && Spaced(Some(runs[0]), runs[1..], interval))
  }

  /** A call leaves the invariant in place and never moves `lastUpdated`
      back. */
  lemma CallKeeps(mode: Mode, s: State, interval: int, clock: int, now: int)
    requires Inv(s, clock) && clock <= now
    ensures Inv(CallStep(mode, s, interval, now).0, now)
    ensures s.lastUpdated.Some? ==>
      CallStep(mode, s, interval, now).0.lastUpdated.Some? &&
      s.lastUpdated.value <= CallStep(mode, s, interval, now).0.lastUpdated.value
  {
  }

  /** A timer firing leaves the invariant in place and never moves
      `lastUpdated` back. */
  lemma TickKeeps(s: State, clock: int, at: int)
    requires Inv(s, clock) && clock <= at
    ensures Inv(TickStep(s, at), at)
    ensures s.lastUpdated.Some? ==>
      TickStep(s, at).lastUpdated.Some? && s.lastUpdated.value <= TickStep(s, at).lastUpdated.value
  {
  }

  /** With a clock that never goes back, `lastUpdated` never decreases. */
  lemma {:induction false} LastUpdatedNeverDecreases(mode: Mode, s: State, interval: int, clock: int, events: seq<Event>)
    requires Inv(s, clock) && Monotone(clock, events)
    ensures s.lastUpdated.Some? ==>
      Run(mode, s, interval, events).0.lastUpdated.Some? &&
      s.lastUpdated.value <= Run(mode, s, interval, events).0.lastUpdated.value
    decreases |events|
  {
    if events != [] {
      var rest := events[1..];
      MonotoneRest(clock, events);
      match events[0]
      case CallAt(now, _) =>
        CallKeeps(mode, s, interval, clock, now);
        LastUpdatedNeverDecreases(mode, CallStep(mode, s, interval, now).0, interval, now, rest);
      case TickAt(at) =>
        TickKeeps(s, clock, at);
        LastUpdatedNeverDecreases(mode, TickStep(s, at), interval, at, rest);
    }
  }

  /** `throttle` lets the callback through at most once per `interval`:
      runs are spaced by at least `interval`, counted from the previous run
      `prev`, which `lastUpdated` never falls behind. */
  lemma {:induction false} ThrottleRunsSpaced(s: State, interval: int, clock: int, prev: Option<int>, events: seq<Event>)
    requires Inv(s, clock) && Monotone(clock, events)
    requires prev.Some? ==> s.lastUpdated.Some? && prev.value <= s.lastUpdated.value
    ensures Spaced(prev, Run(Immediate, s, interval, events).1, interval)
    decreases |events|
  {
    if events != [] {
      var rest := events[1..];
      MonotoneRest(clock, events);
      match events[0]
      case CallAt(now, _) =>
        var (next, ran) := CallStep(Immediate, s, interval, now);
        CallKeeps(Immediate, s, interval, clock, now);
        if ran {
          ThrottleRunsSpaced(next, interval, now, Some(now), rest);
        } else {
          ThrottleRunsSpaced(next, interval, now, prev, rest);
        }
      case TickAt(at) =>
        TickKeeps(s, clock, at);
        ThrottleRunsSpaced(TickStep(s, at), interval, at, prev, rest);
    }
  }

  /** The first call to `throttle`'s function runs the callback and records
      the time; the first call to `delayThrottle`'s only records the time. */
  lemma FirstCall(interval: int, now: int)
    ensures CallStep(Immediate, Initial, interval, now) == (State(Some(now), None), true)
    ensures CallStep(Delayed, Initial, interval, now) == (State(Some(now), None), false)
  {
  }

  /** A throttled call that does not run schedules a timer carrying its own
      time, and leaves at most that one timer pending. */
  lemma ThrottledCallSchedules(mode: Mode, s: State, interval: int, now: int)
    requires s.lastUpdated.Some? && now < s.lastUpdated.value + interval
    ensures !CallStep(mode, s, interval, now).1
    ensures CallStep(mode, s, interval, now).0 == State(s.lastUpdated, Some(Timer(now + interval, now)))
  {
  }

  /** `delayThrottle` runs the callback on every call at least `interval`
      after the recorded time, without moving it. */
  lemma DelayedRunKeepsTime(s: State, interval: int, now: int)
    requires s.lastUpdated.Some? && now >= s.lastUpdated.value + interval
    ensures CallStep(Delayed, s, interval, now) == (State(s.lastUpdated, None), true)
  {
  }

  /** One throttled function: `throttle(interval)` or `delayThrottle(interval)`. */
  class Throttler {
    const mode: Mode
    const interval: int
    var lastUpdated: Option<int>
    var timeout: Option<Timer>

    constructor (mode: Mode, interval: int)
      ensures this.mode == mode && this.interval == interval
      ensures State(lastUpdated, timeout) == Initial
    {
      this.mode := mode;
      this.interval := interval;
      lastUpdated := None;
      timeout := None;
    }

    /** Call the throttled function at time `now`; `ran` says whether the
        callback ran. */
    method Call(now: int) returns (ran: bool)
      modifies this
      ensures (State(lastUpdated, timeout), ran) == CallStep(mode, old(State(lastUpdated, timeout)), interval, now)
    {
      timeout := None;
      ran := false;
      match mode
      case Immediate =>
        if lastUpdated.None? || now >= lastUpdated.value + interval {
          lastUpdated := Some(now);
          ran := true;
        } else {
          timeout := Some(Timer(now + interval, now));
        }
      case Delayed =>
        if lastUpdated.None? {
          lastUpdated := Some(now);
        } else if now >= lastUpdated.value + interval {
          ran := true;
        } else {
          timeout := Some(Timer(now + interval, now));
        }
    }

    /** The clock reaches `at`; the pending timer fires if it is due. */
    method Tick(at: int)
      modifies this
      ensures State(lastUpdated, timeout) == TickStep(old(State(lastUpdated, timeout)), at)
    {
      if timeout.Some? && timeout.value.due <= at {
        lastUpdated := Some(timeout.value.stamp);
        timeout := None;
      }
    }
  }
}
