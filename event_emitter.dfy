/** `useEventEmitter` (src/utils/useEventEmitter.ts): a list of listeners
    that `subscribe` appends to, that the returned unsubscribe function
    filters, and that `emit` walks. Listeners are known by a number; a
    listener call is recorded as a delivery. */
module EventEmitter {
  import opened Seqs

  /** One listener invocation `listener(data)`. */
  datatype Delivery<T> = Delivery(listener: nat, data: T)

  /** The deliveries `emit(data)` makes to `listeners`, in order. */
  function Broadcast<T>(listeners: seq<nat>, data: T): (r: seq<Delivery<T>>)
    ensures |r| == |listeners|
    ensures forall i | 0 <= i < |listeners| :: r[i] == Delivery(listeners[i], data)
  {
    seq(|listeners|, i requires 0 <= i < |listeners| => Delivery(listeners[i], data))
  }

  /** Subscribing and then unsubscribing a listener is the same as
      unsubscribing it: no trace of it is left, and the other listeners keep
      their order. */
  lemma SubscribeThenUnsubscribe(listeners: seq<nat>, listener: nat)
    ensures Without(listeners + [listener], listener) == Without(listeners, listener)
  {
    WithoutAppend(listeners, [listener], listener);
    assert Without([listener], listener) == [];
  }

  /** A listener that subscribed and did not unsubscribe hears an emit
      exactly as many times as it subscribed, and after every listener
      subscribed before it. */
  lemma {:induction false} SubscribedListenerHears<T>(listeners: seq<nat>, listener: nat, data: T)
    ensures Count(Broadcast(listeners + [listener], data), Delivery(listener, data)) == Count(listeners, listener) + 1
    decreases |listeners|
  {
    var all := listeners + [listener];
    if listeners == [] {
      assert Broadcast(all, data) == [Delivery(listener, data)];
    } else {
      assert all[1..] == listeners[1..] + [listener];
      SubscribedListenerHears(listeners[1..], listener, data);
      assert Broadcast(all, data)[1..] == Broadcast(all[1..], data);
    }
  }

  /** The listener list of one emitter. */
  class Emitter<T> {
    var subscribers: seq<nat>

    constructor ()
      ensures subscribers == []
    {
      subscribers := [];
    }

    /** `subscribe(listener)`: the listener goes last. */
    method Subscribe(listener: nat)
      modifies this
      ensures subscribers == old(subscribers) + [listener]
    {
      subscribers := subscribers + [listener];
    }

    /** The function `subscribe` returns: every occurrence of the listener is
        filtered out. */
    method Unsubscribe(listener: nat)
      modifies this
      ensures subscribers == Without(old(subscribers), listener)
    {
      subscribers := Without(subscribers, listener);
    }

    /** `emit(data)`: each current listener is called once with `data`, in
        subscription order. */
    method Emit(data: T) returns (deliveries: seq<Delivery<T>>)
      ensures deliveries == Broadcast(subscribers, data)
    {
      deliveries := [];
      var i := 0;
      while i < |subscribers|
        invariant 0 <= i <= |subscribers|
        invariant deliveries == Broadcast(subscribers[..i], data)
      {
        deliveries := deliveries + [Delivery(subscribers[i], data)];
        i := i + 1;
      }
      assert subscribers[..i] == subscribers;
    }
  }
}
