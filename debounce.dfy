/** `debounce` and `delayDebounce` (src/utils/useDebounce.ts): closures that
    swallow bursts of calls. `debounce` runs the first callback of a burst at
    once; `delayDebounce` runs the last one when the burst is over. */
module Debounce {
  import opened Wrappers
  import opened Timeline

  /** The pending `setTimeout`, due at `due`; for `delayDebounce` it will run
      `callback`. */
  datatype Timer = Timer(due: int, callback: nat)

  /** The closure variables `busy` and `timeout`. */
  datatype State = State(busy: bool, timeout: Option<Timer>)

  datatype Mode = Immediate | Delayed

  const Initial: State := State(false, None)

  /** One call with `callback` at time `now`: the pending timer is replaced by
      a new one, and the callback that ran at once, if any, is returned. */
  function CallStep(mode: Mode, s: State, bounceRate: int, now: int, callback: nat): (r: (State, Option<nat>))
    ensures r.0.busy
    ensures r.0.timeout == Some(Timer(now + bounceRate, callback))
    ensures r.1.Some? <==> mode == Immediate && !s.busy
    ensures r.1.Some? ==> r.1.value == callback
  {
    var timer := Some(Timer(now + bounceRate, callback));
    match mode
    case Immediate => if !s.busy then (State(true, timer), Some(callback)) else (State(true, timer), None)
    case Delayed => (State(true, timer), None)
  }

  /** The clock reaches `at`: a due timer clears `busy`, and for
      `delayDebounce` runs the callback it carries. */
  function TickStep(mode: Mode, s: State, at: int): (State, Option<nat>) {
    if s.timeout.Some? && s.timeout.value.due <= at then
      (State(false, None), if mode == Delayed then Some(s.timeout.value.callback) else None)
    else (s, None)
  }

  function Step(mode: Mode, s: State, bounceRate: int, e: Event): (State, Option<nat>) {
    match e
    case CallAt(now, callback) => CallStep(mode, s, bounceRate, now, callback)
    case TickAt(at) => TickStep(mode, s, at)
  }

  /** The final state, and for each event the callback that ran at it. */
  function Run(mode: Mode, s: State, bounceRate: int, events: seq<Event>): (r: (State, seq<Option<nat>>))
    ensures |r.1| == |events|
    decreases |events|
  {
    if events == [] then (s, [])
    else
      var (next, ran) := Step(mode, s, bounceRate, events[0]);
      var (final, rest) := Run(mode, next, bounceRate, events[1..]);
      (final, [ran] + rest)
  }

  /** The most recent call in `events`, or `last` when there is none. */
  function LatestCall(last: Option<Event>, events: seq<Event>): (r: Option<Event>)
    ensures r.Some? && r != last ==> r.value in events && r.value.CallAt?
    decreases |events|
  {
    if events == [] then last
    else LatestCall(if events[0].CallAt? then Some(events[0]) else last, events[1..])
  }

  lemma LatestCallStep(last: Option<Event>, events: seq<Event>, i: nat)
    requires 0 < i <= |events|
    ensures LatestCall(last, events[..i]) ==
      LatestCall(if events[0].CallAt? then Some(events[0]) else last, events[1..][..i - 1])
  {
    assert events[..i][1..] == events[1..][..i - 1];
  }

  // ---------------------------------------------------------------------
  // debounce

  /** Between events of `debounce`: the pending timer belongs to the latest
      call, `busy` means that timer has not fired, and when it is clear the
      latest call is at least `bounceRate` in the past. */
  predicate Inv(s: State, bounceRate: int, clock: int, last: Option<Event>) {
    && (last.Some? ==> last.value.CallAt? && last.value.now <= clock)
    && (s.timeout.Some? ==> last.Some? && s.timeout.value == Timer(last.value.now + bounceRate, last.value.callback))
    && (s.busy ==> s.timeout.Some?)
    && (!s.busy && last.Some? ==> clock >= last.value.now + bounceRate)
  }

  /** A callback ran only at a call made when no call had come within
      `bounceRate` before it. */
  predicate QuietRuns(last: Option<Event>, events: seq<Event>, ran: seq<Option<nat>>, bounceRate: int)
    requires |ran| == |events|
  {
    forall i | 0 <= i < |events| && ran[i].Some? ::
      events[i].CallAt? && ran[i].value == events[i].callback &&
      var previous := LatestCall(last, events[..i]);
      previous.None? || (previous.value.CallAt? && events[i].now >= previous.value.now + bounceRate)
  }

  lemma DebounceStepKeeps(s: State, bounceRate: int, clock: int, last: Option<Event>, e: Event)
    requires Inv(s, bounceRate, clock, last) && clock <= TimeOf(e)
    ensures Inv(Step(Immediate, s, bounceRate, e).0, bounceRate, TimeOf(e), if e.CallAt? then Some(e) else last)
    ensures Step(Immediate, s, bounceRate, e).1.Some? ==>
      e.CallAt? && Step(Immediate, s, bounceRate, e).1.value == e.callback &&
      (last.None? || e.now >= last.value.now + bounceRate)
  {
  }

  /** After a run, `debounce` drops every callback until a full `bounceRate`
      has passed without calls: a callback runs only on the first call, or on
      a call at least `bounceRate` after the one before it. */
  lemma {:induction false} DebounceNeedsQuiet(s: State, bounceRate: int, clock: int, last: Option<Event>, events: seq<Event>)
    requires Inv(s, bounceRate, clock, last) && Monotone(clock, events)
    ensures QuietRuns(last, events, Run(Immediate, s, bounceRate, events).1, bounceRate)
    decreases |events|
  {
    if events != [] {
      var e := events[0];
      MonotoneRest(clock, events);
      DebounceStepKeeps(s, bounceRate, clock, last, e);
      var next := Step(Immediate, s, bounceRate, e).0;
      var last' := if e.CallAt? then Some(e) else last;
      DebounceNeedsQuiet(next, bounceRate, TimeOf(e), last', events[1..]);
      var ran := Run(Immediate, s, bounceRate, events).1;
      assert ran[1..] == Run(Immediate, next, bounceRate, events[1..]).1;
      forall i | 0 < i < |events| && ran[i].Some?
        ensures events[i].CallAt? && ran[i].value == events[i].callback
        ensures var previous := LatestCall(last, events[..i]);
          previous.None? || (previous.value.CallAt? && events[i].now >= previous.value.now + bounceRate)
      {
        LatestCallStep(last, events, i);
        assert ran[i] == ran[1..][i - 1] && events[i] == events[1..][i - 1];
      }
      assert events[..0] == [];
    }
  }

  /** `debounce` runs the callback exactly when it is not busy, and is busy
      after every call. */
  lemma DebounceCall(s: State, bounceRate: int, now: int, callback: nat)
    ensures CallStep(Immediate, s, bounceRate, now, callback).1 == if s.busy then None else Some(callback)
    ensures CallStep(Immediate, s, bounceRate, now, callback).0.busy
  {
  }

  // ---------------------------------------------------------------------
  // delayDebounce

  /** The pending timer of `delayDebounce` always carries the latest call. */
  predicate DelayedInv(s: State, last: Option<Event>) {
    s.timeout.Some? ==> last.Some? && last.value.CallAt? && s.timeout.value.callback == last.value.callback
  }

  /** Only timers run callbacks, and each runs the callback of the latest
      call before it. */
  predicate LatestOnly(last: Option<Event>, events: seq<Event>, ran: seq<Option<nat>>)
    requires |ran| == |events|
  {
    forall i | 0 <= i < |events| && ran[i].Some? ::
      events[i].TickAt? &&
      var previous := LatestCall(last, events[..i]);
      previous.Some? && previous.value.CallAt? && ran[i].value == previous.value.callback
  }

  lemma DelayedStepKeeps(s: State, bounceRate: int, last: Option<Event>, e: Event)
    requires DelayedInv(s, last)
    ensures DelayedInv(Step(Delayed, s, bounceRate, e).0, if e.CallAt? then Some(e) else last)
    ensures Step(Delayed, s, bounceRate, e).1.Some? ==>
      e.TickAt? && last.Some? && last.value.CallAt? && Step(Delayed, s, bounceRate, e).1.value == last.value.callback
  {
  }

  /** `delayDebounce` never runs a callback during a call; when its timer
      fires it runs the latest call's callback, whatever `busy` says. */
  lemma {:induction false} DelayedRunsLatest(s: State, bounceRate: int, last: Option<Event>, events: seq<Event>)
    requires DelayedInv(s, last)
    ensures LatestOnly(last, events, Run(Delayed, s, bounceRate, events).1)
    decreases |events|
  {
    if events != [] {
      var e := events[0];
      DelayedStepKeeps(s, bounceRate, last, e);
      var next := Step(Delayed, s, bounceRate, e).0;
      var last' := if e.CallAt? then Some(e) else last;
      DelayedRunsLatest(next, bounceRate, last', events[1..]);
      var ran := Run(Delayed, s, bounceRate, events).1;
      assert ran[1..] == Run(Delayed, next, bounceRate, events[1..]).1;
      forall i | 0 < i < |events| && ran[i].Some?
        ensures events[i].TickAt?
        ensures var previous := LatestCall(last, events[..i]);
          previous.Some? && previous.value.CallAt? && ran[i].value == previous.value.callback
      {
        LatestCallStep(last, events, i);
        assert ran[i] == ran[1..][i - 1] && events[i] == events[1..][i - 1];
      }
      assert events[..0] == [];
    }
  }

  /** The `busy` flag of `delayDebounce` decides nothing: two states that
      differ only in it behave alike on every event. */
  lemma DelayedIgnoresBusy(timeout: Option<Timer>, bounceRate: int, e: Event)
    ensures Step(Delayed, State(true, timeout), bounceRate, e).1 == Step(Delayed, State(false, timeout), bounceRate, e).1
    ensures Step(Delayed, State(true, timeout), bounceRate, e).0.timeout == Step(Delayed, State(false, timeout), bounceRate, e).0.timeout
  {
  }

  /** One debounced function: `debounce(bounceRate)` or
      `delayDebounce(bounceRate)`. */
  class Debouncer {
    const mode: Mode
    const bounceRate: int
    var busy: bool
    var timeout: Option<Timer>

    constructor (mode: Mode, bounceRate: int)
      ensures this.mode == mode && this.bounceRate == bounceRate
      ensures State(busy, timeout) == Initial
    {
      this.mode := mode;
      this.bounceRate := bounceRate;
      busy := false;
      timeout := None;
    }

    /** Call the debounced function with `callback` at time `now`; `ran` is
        the callback that ran at once, if any. */
    method Call(now: int, callback: nat) returns (ran: Option<nat>)
      modifies this
      ensures (State(busy, timeout), ran) == CallStep(mode, old(State(busy, timeout)), bounceRate, now, callback)
    {
      timeout := Some(Timer(now + bounceRate, callback));
      ran := None;
      if !busy {
        busy := true;
        if mode == Immediate {
          ran := Some(callback);
        }
      }
    }

    /** The clock reaches `at`; `ran` is the callback the timer ran, if any. */
    method Tick(at: int) returns (ran: Option<nat>)
      modifies this
      ensures (State(busy, timeout), ran) == TickStep(mode, old(State(busy, timeout)), at)
    {
      ran := None;
      if timeout.Some? && timeout.value.due <= at {
        busy := false;
        if mode == Delayed {
          ran := Some(timeout.value.callback);
        }
        timeout := None;
      }
    }
  }
}
