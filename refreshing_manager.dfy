/** `useManageRefreshing`
    (src/components/AppScreen/utils/useManageRefreshing.ts): the registry
    of pull-to-refresh callbacks of one screen, the refresh handler that starts
    them all, and the bookkeeping of which of them are still running. The two
    React states become fields; callbacks are known by a number. */
module RefreshingManager {
  import opened Wrappers
  import opened Slots
  import opened Seqs

  /** One registered callback and whether its refresh is still running. */
  datatype Slot = Slot(callback: nat, refreshing: bool)

  /** `new Error('Refreshing callback index is out of bounds')`. */
  datatype RegisterError = IndexOutOfBounds

  /** `callbacks.some(callback => callback?.refreshing)`. */
  predicate AnyRefreshing(s: seq<Option<Slot>>) {
    exists j | 0 <= j < |s| :: s[j].Some? && s[j].value.refreshing
  }

  /** Every occupied slot marked refreshing. */
  function MarkAll(s: seq<Option<Slot>>): (r: seq<Option<Slot>>)
    ensures |r| == |s|
    ensures forall j | 0 <= j < |s| :: r[j] == if s[j].Some? then Some(s[j].value.(refreshing := true)) else None
  {
    seq(|s|, j requires 0 <= j < |s| => if s[j].Some? then Some(s[j].value.(refreshing := true)) else None)
  }

  /** The callbacks of the occupied slots, in index order. */
  function Callbacks(s: seq<Option<Slot>>): seq<nat>
    decreases |s|
  {
    if s == [] then []
    else
      var rest := Callbacks(s[..|s| - 1]);
      if s[|s| - 1].Some? then rest + [s[|s| - 1].value.callback] else rest
  }

  /** The callbacks invoked are those of the occupied slots: one per
      occupied slot, in index order. */
  lemma {:induction false} CallbacksOccupied(s: seq<Option<Slot>>)
    ensures |Callbacks(s)| == |Occupied(s)|
    ensures forall k | 0 <= k < |Callbacks(s)| :: Callbacks(s)[k] == s[Occupied(s)[k]].value.callback
    decreases |s|
  {
    if s != [] {
      var init := s[..|s| - 1];
      CallbacksOccupied(init);
      forall k | 0 <= k < |Occupied(init)| ensures init[Occupied(init)[k]] == s[Occupied(init)[k]] { }
    }
  }

  lemma CallbacksSnoc(s: seq<Option<Slot>>, i: nat)
    requires i < |s|
    ensures Callbacks(s[..i + 1]) == Callbacks(s[..i]) + if s[i].Some? then [s[i].value.callback] else []
  {
    assert s[..i + 1][..i] == s[..i];
  }

  /** `finishRefreshing(index)` on the slots: an occupied slot at the index
      stops refreshing; anything else is left alone. */
  function Finish(s: seq<Option<Slot>>, index: int): (r: seq<Option<Slot>>)
    ensures |r| == |s|
    ensures forall j | 0 <= j < |s| && j != index :: r[j] == s[j]
    ensures 0 <= index < |s| && s[index].Some? ==> r[index] == Some(s[index].value.(refreshing := false))
    ensures 0 <= index < |s| && s[index].None? ==> r[index] == None
  {
    if 0 <= index < |s| && s[index].Some? then s[index := Some(s[index].value.(refreshing := false))] else s
  }

  /** `finishRefreshing` applied to each index in turn. */
  function FinishAll(s: seq<Option<Slot>>, indices: seq<int>): (r: seq<Option<Slot>>)
    ensures |r| == |s|
    decreases |indices|
  {
    if indices == [] then s else FinishAll(Finish(s, indices[0]), indices[1..])
  }

  /** After a refresh, a slot is refreshing exactly when it is occupied. */
  lemma RefreshMarksOccupied(s: seq<Option<Slot>>)
    ensures AnyRefreshing(MarkAll(s)) <==> Occupied(s) != []
  {
    if Occupied(s) != [] {
      var j := Occupied(s)[0];
      assert MarkAll(s)[j].Some? && MarkAll(s)[j].value.refreshing;
    } else {
      forall j | 0 <= j < |s| ensures MarkAll(s)[j].None? {
        assert s[j].Some? ==> j in Occupied(s);
      }
    }
  }

  /** Once every slot that was refreshing has reported back, the screen is no
      longer refreshing. */
  lemma {:induction false} FinishingEveryoneStops(s: seq<Option<Slot>>, indices: seq<int>)
    requires forall j | 0 <= j < |s| && s[j].Some? && s[j].value.refreshing :: j in indices
    ensures !AnyRefreshing(FinishAll(s, indices))
    decreases |indices|
  {
    if indices == [] {
      assert forall j | 0 <= j < |s| :: !(s[j].Some? && s[j].value.refreshing);
    } else {
      var next := Finish(s, indices[0]);
      forall j | 0 <= j < |next| && next[j].Some? && next[j].value.refreshing
        ensures j in indices[1..]
      {
        assert j != indices[0];
        assert next[j] == s[j];
        assert j in indices;
      }
      FinishingEveryoneStops(next, indices[1..]);
    }
  }

  /** The refreshing state of one screen. */
  class RefreshingManager {
    /** `refreshControl?.onRefresh`. */
    const onRefresh: Option<nat>
    var isRefreshing: bool
    var enableRefreshing: bool
    var slots: seq<Option<Slot>>

    constructor (onRefresh: Option<nat>)
      ensures this.onRefresh == onRefresh
      ensures !isRefreshing && !enableRefreshing && slots == []
    {
      this.onRefresh := onRefresh;
      isRefreshing := false;
      enableRefreshing := false;
      slots := [];
    }

    /** `handleRefresh()`: the callbacks invoked, in order. The screen's own
        `onRefresh` goes first; then, when the array is not empty, every
        occupied slot is marked refreshing and its callback invoked once. */
    method HandleRefresh() returns (calls: seq<nat>)
      modifies this
      ensures calls == (if onRefresh.Some? then [onRefresh.value] else []) + Callbacks(old(slots))
      ensures slots == MarkAll(old(slots))
      ensures isRefreshing == (old(isRefreshing) || |old(slots)| > 0)
      ensures enableRefreshing == old(enableRefreshing)
    {
      calls := if onRefresh.Some? then [onRefresh.value] else [];
      ghost var first := calls;
      ghost var start := slots;
      if |slots| > 0 {
        isRefreshing := true;
        var i := 0;
        while i < |slots|
          invariant 0 <= i <= |slots| == |start|
          invariant isRefreshing && enableRefreshing == old(enableRefreshing)
          invariant calls == first + Callbacks(start[..i])
          invariant forall j | 0 <= j < |slots| :: slots[j] == if j < i then MarkAll(start)[j] else start[j]
        {
          CallbacksSnoc(start, i);
          if slots[i].Some? {
            AppendAssoc(first, Callbacks(start[..i]), [slots[i].value.callback]);
            calls := calls + [slots[i].value.callback];
            slots := slots[i := Some(slots[i].value.(refreshing := true))];
          }
          i := i + 1;
        }
        assert start[..i] == start;
        assert slots == MarkAll(start);
      } else {
        assert slots == MarkAll(start);
        assert Callbacks(start) == [];
      }
    }

    /** `registerRefreshCallback(callback, index)`. Pull-to-refresh is
        enabled before anything else, so even the out-of-bounds error leaves
        it on. */
    method RegisterRefreshCallback(callback: nat, index: Option<int>) returns (r: Result<nat, RegisterError>)
      modifies this
      ensures enableRefreshing && isRefreshing == old(isRefreshing)
      ensures index.None? ==>
        r == Ok(|old(slots)|) && slots == old(slots) + [Some(Slot(callback, false))]
      ensures index.Some? && !(0 <= index.value < |old(slots)|) ==>
        r == Err(IndexOutOfBounds) && slots == old(slots)
      ensures index.Some? && 0 <= index.value < |old(slots)| ==>
        var kept := if old(slots)[index.value].Some? then old(slots)[index.value].value.refreshing else false;
        r == Ok(index.value) && slots == old(slots)[index.value := Some(Slot(callback, kept))]
    {
      enableRefreshing := true;
      if index.None? {
        slots := slots + [Some(Slot(callback, false))];
        return Ok(|slots| - 1);
      }
      var i := index.value;
      if i < 0 || i >= |slots| {
        return Err(IndexOutOfBounds);
      }
      var kept := if slots[i].Some? then slots[i].value.refreshing else false;
      slots := slots[i := Some(Slot(callback, kept))];
      return Ok(i);
    }

    /** `unregisterRefreshCallback(index)`: the slot is emptied in place and
        refreshing stays enabled while the array has any slot at all. */
    method UnregisterRefreshCallback(index: int)
      modifies this
      ensures slots == Assign(old(slots), index, None)
      ensures enableRefreshing == (|slots| > 0)
      ensures isRefreshing == old(isRefreshing)
    {
      slots := Assign(slots, index, None);
      enableRefreshing := |slots| > 0;
    }

    /** `finishRefreshing(index)`: the slot stops refreshing and the screen
        is refreshing while any slot still is. */
    method FinishRefreshing(index: int)
      modifies this
      ensures slots == Finish(old(slots), index)
      ensures isRefreshing == AnyRefreshing(slots)
      ensures enableRefreshing == old(enableRefreshing)
    {
      if 0 <= index < |slots| && slots[index].Some? {
        slots := slots[index := Some(slots[index].value.(refreshing := false))];
      }
      isRefreshing := exists j | 0 <= j < |slots| :: slots[j].Some? && slots[j].value.refreshing;
    }
  }
}
