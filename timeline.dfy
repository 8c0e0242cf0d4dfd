/** Time as seen by the timer-based closures: a call of the closure at a
    given `Date.now()`, or the clock reaching a point at which pending
    `setTimeout` callbacks fire. Callbacks are known by a number. */
module Timeline {
  datatype Event = CallAt(now: int, callback: nat) | TickAt(at: int)

  function TimeOf(e: Event): int {
    match e
    case CallAt(now, _) => now
    case TickAt(at) => at
  }

  /** The clock never goes back: every event is at or after `clock`, and
      each is no earlier than the ones before it. */
  predicate Monotone(clock: int, events: seq<Event>) {
    && (forall i | 0 <= i < |events| :: clock <= TimeOf(events[i]))
    && (forall i, j | 0 <= i <= j < |events| :: TimeOf(events[i]) <= TimeOf(events[j]))
  }

  /** After the first event, the clock stands at its time. */
  lemma MonotoneRest(clock: int, events: seq<Event>)
    requires events != [] && Monotone(clock, events)
    ensures clock <= TimeOf(events[0])
    ensures Monotone(TimeOf(events[0]), events[1..])
  {
    var rest := events[1..];
    forall i | 0 <= i < |rest| ensures rest[i] == events[i + 1] { }
  }
}
