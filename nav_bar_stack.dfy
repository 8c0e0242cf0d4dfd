/** The navigation-bar props stack
    (src/components/AppSystemNavigationBar/utils/stackManager.ts): screens
    push, pop and replace entries; at the end of the frame the top entry
    becomes the merged props, and the native bar is asked to change only when
    they differ from the previous ones. Entries are objects, compared by
    identity, so each carries a fresh identity number. */
module NavBarStack {
  import opened Wrappers
  import opened Seqs

  datatype BarStyle = Dark | Light

  /** `NavigationBarStackProps`. */
  datatype Props = Props(barStyle: BarStyle, barColor: string)

  /** The props a screen passes, either field possibly `undefined`. */
  datatype InputProps = InputProps(barStyle: Option<BarStyle>, barColor: Option<string>)

  /** A stack entry: a fresh object holding the props. */
  datatype Entry = Entry(id: nat, props: Props)

  const DefaultBarStyle: BarStyle := Light
  const DefaultBarColor: string := "#00000055"

  /** `createStackEntry(props)`: missing fields take their defaults. */
  function CreateStackEntry(props: InputProps): (r: Props)
    ensures props.barStyle.Some? ==> r.barStyle == props.barStyle.value
    ensures props.barStyle.None? ==> r.barStyle == DefaultBarStyle
    ensures props.barColor.Some? ==> r.barColor == props.barColor.value
    ensures props.barColor.None? ==> r.barColor == DefaultBarColor
  {
    Props(props.barStyle.GetOr(DefaultBarStyle), props.barColor.GetOr(DefaultBarColor))
  }

  /** `propsStack.indexOf(entry)`: the first position holding that object,
      or -1. */
  function IndexOf(stack: seq<Entry>, id: nat): (r: int)
    ensures -1 <= r < |stack|
    ensures r == -1 <==> forall j | 0 <= j < |stack| :: stack[j].id != id
    ensures r >= 0 ==> stack[r].id == id && forall j | 0 <= j < r :: stack[j].id != id
    decreases |stack|
  {
    if stack == [] then -1
    else if stack[0].id == id then 0
    else
      var k := IndexOf(stack[1..], id);
      if k == -1 then -1 else k + 1
  }

  /** The stack after `popStackEntry(entry)`. */
  function PopStack(stack: seq<Entry>, id: nat): seq<Entry> {
    var index := IndexOf(stack, id);
    if index != -1 then stack[..index] + stack[index + 1..] else stack
  }

  /** The stack after `replaceStackEntry(entry, …)` put `newEntry` in. */
  function ReplaceStack(stack: seq<Entry>, id: nat, newEntry: Entry): seq<Entry> {
    var index := IndexOf(stack, id);
    if index != -1 then stack[index := newEntry] else stack
  }

  /** No object is on the stack twice. */
  predicate DistinctIds(stack: seq<Entry>) {
    forall i, j | 0 <= i < j < |stack| :: stack[i].id != stack[j].id
  }

  /** Popping an entry that was just pushed gives the stack back. */
  lemma PushThenPop(stack: seq<Entry>, entry: Entry)
    requires forall e | e in stack :: e.id != entry.id
    ensures PopStack(stack + [entry], entry.id) == stack
  {
    var s := stack + [entry];
    assert forall j | 0 <= j < |stack| :: s[j].id != entry.id by {
      forall j | 0 <= j < |stack| ensures s[j].id != entry.id { assert s[j] in stack; }
    }
    assert s[|stack|].id == entry.id;
    assert IndexOf(s, entry.id) == |stack|;
    assert s[..|stack|] == stack;
  }

  /** With distinct entries, popping removes exactly that entry and keeps the
      others in order; an unknown entry leaves the stack as it was. */
  lemma {:induction false} PopRemovesEntry(stack: seq<Entry>, entry: Entry)
    requires DistinctIds(stack)
    requires entry in stack || forall e | e in stack :: e.id != entry.id
    ensures PopStack(stack, entry.id) == Without(stack, entry)
    decreases |stack|
  {
    if stack != [] {
      var tail := stack[1..];
      DistinctTail(stack);
      if stack[0].id == entry.id {
        PopHead(stack, entry);
      } else {
        assert entry in tail || forall e | e in tail :: e.id != entry.id;
        PopRemovesEntry(tail, entry);
        PopStep(stack, entry.id);
      }
    }
  }

  lemma DistinctTail(stack: seq<Entry>)
    requires DistinctIds(stack) && stack != []
    ensures DistinctIds(stack[1..])
  {
    var tail := stack[1..];
    forall i, j | 0 <= i < j < |tail| ensures tail[i].id != tail[j].id {
      assert tail[i] == stack[i + 1] && tail[j] == stack[j + 1];
    }
  }

  /** Popping the entry on top of the list of a stack without duplicates. */
  lemma PopHead(stack: seq<Entry>, entry: Entry)
    requires DistinctIds(stack) && stack != [] && stack[0].id == entry.id
    requires entry in stack || forall e | e in stack :: e.id != entry.id
    ensures PopStack(stack, entry.id) == Without(stack, entry)
  {
    var tail := stack[1..];
    assert stack[0] in stack;
    assert entry in stack;
    var k :| 0 <= k < |stack| && stack[k] == entry;
    assert k == 0;
    forall e | e in tail ensures e != entry {
      var k :| 0 <= k < |tail| && tail[k] == e;
      assert stack[k + 1] == e;
    }
    WithoutAbsent(tail, entry);
  }

  /** Popping past a first entry that is not the one popped. */
  lemma PopStep(stack: seq<Entry>, id: nat)
    requires stack != [] && stack[0].id != id
    ensures PopStack(stack, id) == [stack[0]] + PopStack(stack[1..], id)
  {
    var tail := stack[1..];
    var k := IndexOf(tail, id);
    assert IndexOf(stack, id) == if k == -1 then -1 else k + 1;
    if k != -1 {
      assert stack[..k + 1] == [stack[0]] + tail[..k];
      assert stack[k + 2..] == tail[k + 1..];
      AppendAssoc([stack[0]], tail[..k], tail[k + 1..]);
    } else {
      assert stack == [stack[0]] + tail;
    }
  }

  /** Replacing keeps the length and the other entries; only the position of
      the old entry changes. */
  lemma ReplaceInPlace(stack: seq<Entry>, id: nat, newEntry: Entry)
    ensures |ReplaceStack(stack, id, newEntry)| == |stack|
    ensures IndexOf(stack, id) != -1 ==> ReplaceStack(stack, id, newEntry)[IndexOf(stack, id)] == newEntry
    ensures forall j | 0 <= j < |stack| && j != IndexOf(stack, id) :: ReplaceStack(stack, id, newEntry)[j] == stack[j]
  {
  }

  /** The props stack, the pending end-of-frame update, and the props last
      sent towards the native bar. */
  class StackManager {
    var propsStack: seq<Entry>
    var immediatePending: bool
    var mergedProps: Option<Props>
    /** The identity the next new entry object receives. */
    var nextId: nat

    ghost predicate Valid()
      reads this
    {
      DistinctIds(propsStack) && forall e | e in propsStack :: e.id < nextId
    }

    constructor ()
      ensures Valid() && propsStack == [] && !immediatePending && mergedProps == None
    {
      propsStack := [];
      immediatePending := false;
      mergedProps := None;
      nextId := 0;
    }

    /** `pushStackEntry(props)`. */
    method PushStackEntry(props: InputProps) returns (entry: Entry)
      requires Valid()
      modifies this
      ensures Valid()
      ensures entry.props == CreateStackEntry(props) && entry !in old(propsStack)
      ensures propsStack == old(propsStack) + [entry]
      ensures immediatePending && mergedProps == old(mergedProps)
    {
      entry := Entry(nextId, CreateStackEntry(props));
      nextId := nextId + 1;
      propsStack := propsStack + [entry];
      immediatePending := true;
    }

    /** `popStackEntry(entry)`. */
    method PopStackEntry(entry: Entry)
      requires Valid()
      modifies this
      ensures Valid()
      ensures propsStack == PopStack(old(propsStack), entry.id)
      ensures immediatePending && mergedProps == old(mergedProps)
    {
      var index := IndexOf(propsStack, entry.id);
      if index != -1 {
        propsStack := propsStack[..index] + propsStack[index + 1..];
        assert forall e | e in propsStack :: e in old(propsStack);
        assert DistinctIds(propsStack) by {
          forall i, j | 0 <= i < j < |propsStack| ensures propsStack[i].id != propsStack[j].id {
            var s := old(propsStack);
            var i', j' := if i < index then i else i + 1, if j < index then j else j + 1;
            assert propsStack[i] == s[i'] && propsStack[j] == s[j'];
          }
        }
      }
      immediatePending := true;
    }

    /** `replaceStackEntry(entry, props)`: a new entry is returned even when
        the old one is not on the stack. */
    method ReplaceStackEntry(entry: Entry, props: InputProps) returns (newEntry: Entry)
      requires Valid()
      modifies this
      ensures Valid()
      ensures newEntry.props == CreateStackEntry(props) && newEntry !in old(propsStack)
      ensures propsStack == ReplaceStack(old(propsStack), entry.id, newEntry)
      ensures immediatePending && mergedProps == old(mergedProps)
    {
      newEntry := Entry(nextId, CreateStackEntry(props));
      nextId := nextId + 1;
      var index := IndexOf(propsStack, entry.id);
      if index != -1 {
        propsStack := propsStack[index := newEntry];
      }
      immediatePending := true;
    }

    /** The `setImmediate` callback of `updatePropsStack`. It returns the
        props handed to the debounced native update, if any: the top entry's
        props, when they differ from the previous merged props. */
    method FlushUpdate() returns (nativeUpdate: Option<Props>)
      requires Valid()
      modifies this
      ensures Valid() && propsStack == old(propsStack) && !immediatePending
      ensures mergedProps == if propsStack == [] then None else Some(propsStack[|propsStack| - 1].props)
      ensures nativeUpdate.Some? <==> mergedProps.Some? && mergedProps != old(mergedProps)
      ensures nativeUpdate.Some? ==> nativeUpdate == mergedProps
    {
      immediatePending := false;
      var oldProps := mergedProps;
      nativeUpdate := None;
      if |propsStack| > 0 {
        var lastEntry := propsStack[|propsStack| - 1];
        if oldProps.None? || oldProps.value.barStyle != lastEntry.props.barStyle || oldProps.value.barColor != lastEntry.props.barColor {
          nativeUpdate := Some(lastEntry.props);
        }
        mergedProps := Some(lastEntry.props);
      } else {
        mergedProps := None;
      }
    }
  }
}
