/** `useManageScrollViewOnScroll`
    (src/components/AppScreen/utils/useManageScrollViewOnScroll.ts): a
    registry of scroll listeners kept in an array with holes, and the scroll
    handler that forwards an event to each of them. Callbacks are known by a
    number. */
module ScrollManager {
  import opened Wrappers
  import opened Slots

  datatype Op = Register(callback: nat) | Unregister(index: int)

  /** The callback array after one registry operation. */
  function Apply(s: seq<Option<nat>>, op: Op): (r: seq<Option<nat>>)
    ensures |r| >= |s|
  {
    match op
    case Register(callback) => s + [Some(callback)]
    case Unregister(index) => Assign(s, index, None)
  }

  /** The callback array after a sequence of operations. */
  function After(s: seq<Option<nat>>, ops: seq<Op>): (r: seq<Option<nat>>)
    ensures |r| >= |s|
    decreases |ops|
  {
    if ops == [] then s else After(Apply(s, ops[0]), ops[1..])
  }

  /** The indices handed out by the registrations among `ops`. */
  function Returned(s: seq<Option<nat>>, ops: seq<Op>): seq<nat>
    decreases |ops|
  {
    if ops == [] then []
    else
      var head := if ops[0].Register? then [|s|] else [];
      head + Returned(Apply(s, ops[0]), ops[1..])
  }

  /** Registration indices strictly increase and are never below the
      length at the start, so no index is handed out twice. */
  lemma {:induction false} ReturnedIncrease(s: seq<Option<nat>>, ops: seq<Op>)
    ensures forall k | 0 <= k < |Returned(s, ops)| :: Returned(s, ops)[k] >= |s|
    ensures forall k, l | 0 <= k < l < |Returned(s, ops)| :: Returned(s, ops)[k] < Returned(s, ops)[l]
    decreases |ops|
  {
    if ops != [] {
      var next := Apply(s, ops[0]);
      ReturnedIncrease(next, ops[1..]);
      var rest := Returned(next, ops[1..]);
      if ops[0].Register? {
        assert |next| == |s| + 1;
        assert Returned(s, ops) == [|s|] + rest;
      } else {
        assert Returned(s, ops) == rest;
      }
    }
  }

  /** Once emptied, a slot stays empty whatever is registered or
      unregistered later, so its callback is never invoked again. */
  lemma {:induction false} EmptySlotStaysEmpty(s: seq<Option<nat>>, i: nat, ops: seq<Op>)
    requires i < |s| && s[i].None?
    ensures i < |After(s, ops)| && After(s, ops)[i].None?
    ensures i !in Occupied(After(s, ops))
    decreases |ops|
  {
    if ops != [] {
      EmptySlotStaysEmpty(Apply(s, ops[0]), i, ops[1..]);
    }
  }

  /** The scroll registry of one screen. */
  class ScrollManager {
    var callbacks: seq<Option<nat>>

    constructor ()
      ensures callbacks == []
    {
      callbacks := [];
    }

    /** `registerOnScrollCallback(callback)`: append, return the new index. */
    method RegisterOnScrollCallback(callback: nat) returns (index: nat)
      modifies this
      ensures callbacks == Apply(old(callbacks), Register(callback))
      ensures index == |old(callbacks)| && callbacks[index] == Some(callback)
    {
      callbacks := callbacks + [Some(callback)];
      index := |callbacks| - 1;
    }

    /** `unregisterOnScrollCallback(index)`: write `undefined` at the index. */
    method UnregisterOnScrollCallback(index: int)
      modifies this
      ensures callbacks == Apply(old(callbacks), Unregister(index))
    {
      callbacks := Assign(callbacks, index, None);
    }

    /** `handleScroll(event)`: the indices whose callbacks receive the event,
        in the order they are invoked. Every occupied slot is invoked once,
        in index order, and empty slots are skipped. */
    method HandleScroll() returns (invoked: seq<nat>)
      ensures invoked == Occupied(callbacks)
    {
      invoked := [];
      if |callbacks| > 0 {
        var i := 0;
        while i < |callbacks|
          invariant 0 <= i <= |callbacks|
          invariant invoked == Occupied(callbacks[..i])
        {
          assert callbacks[..i + 1][..i] == callbacks[..i];
          if callbacks[i].Some? {
            invoked := invoked + [i];
          }
          i := i + 1;
        }
        assert callbacks[..i] == callbacks;
      }
    }
  }
}
