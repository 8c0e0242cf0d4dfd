/** Arrays with holes, as the screen registries use them: a slot is emptied
    by writing `undefined` into it, so indices of the other slots never move. */
module Slots {
  import opened Wrappers

  /** `a[i] = v` on a JavaScript array. A negative index sets a property that
      is not an element; an index at or past the end grows the array, the
      gap being holes. */
  function Assign<T>(s: seq<Option<T>>, i: int, v: Option<T>): (r: seq<Option<T>>)
    ensures i < 0 ==> r == s
    ensures 0 <= i ==> |r| == (if i < |s| then |s| else i + 1) && r[i] == v
    ensures 0 <= i ==> forall j | 0 <= j < |r| && j != i :: r[j] == if j < |s| then s[j] else None
  {
    if i < 0 then s
    else if i < |s| then s[i := v]
    else s + seq(i - |s|, _ => None) + [v]
  }

  /** The indices of the occupied slots, in increasing order: the slots a
      `for…of` loop that skips `undefined` acts on. */
  function Occupied<T>(s: seq<Option<T>>): (r: seq<nat>)
    ensures forall k | 0 <= k < |r| :: r[k] < |s| && s[r[k]].Some?
    ensures forall j | 0 <= j < |s| && s[j].Some? :: j in r
    ensures forall k, l | 0 <= k < l < |r| :: r[k] < r[l]
    decreases |s|
  {
    if s == [] then []
    else
      var rest := Occupied(s[..|s| - 1]);
      if s[|s| - 1].Some? then rest + [|s| - 1] else rest
  }

  /** Writing into a slot leaves every other occupied slot occupied. */
  lemma AssignKeepsOthers<T>(s: seq<Option<T>>, i: int, v: Option<T>, j: nat)
    requires j < |s| && j != i && s[j].Some?
    ensures j in Occupied(Assign(s, i, v))
  {
  }

  /** An emptied slot is skipped from then on. */
  lemma EmptiedSkipped<T>(s: seq<Option<T>>, i: nat)
    ensures i !in Occupied(Assign(s, i, None))
  {
  }
}
