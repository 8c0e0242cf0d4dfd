/** `useRefreshControl` (src/components/AppRefreshControl/utils/useRefreshControl.tsx):
    the pull-to-refresh state of a screen that runs one or several queries.
    The internal `refreshing` flag becomes a field; a render and a pull are
    the two methods. Refetch functions are known by a number and a call is
    recorded by that number. */
module RefreshControl {

  /** `refetch`: one function or a list of them. */
  datatype Refetch = OneRefetch(cb: nat) | RefetchList(cbs: seq<nat>)

  /** `isFetching`: one flag or a list of them. */
  datatype Fetching = OneFetching(b: bool) | FetchingList(bs: seq<bool>)

  /** `skip`: absent, one flag, or a list of them. */
  datatype Skip = NoSkip | OneSkip(b: bool) | SkipList(bs: seq<bool>)

  /** `isSomeFetching`. */
  predicate SomeFetching(isFetching: Fetching) {
    match isFetching
    case OneFetching(b) => b
    case FetchingList(bs) => exists i | 0 <= i < |bs| :: bs[i]
  }

  /** `skipList[index]` is truthy, where `skipList` is `skip` itself when it is
      a list and `[skip]` otherwise; a missing entry is `undefined`. */
  predicate Skipped(skip: Skip, index: nat) {
    match skip
    case NoSkip => false
    case OneSkip(b) => index == 0 && b
    case SkipList(bs) => index < |bs| && bs[index]
  }

  /** The refetch functions a pull calls, in order: the `for` loop over the
      list, or the single function. */
  function Called(refetch: Refetch, skip: Skip): seq<nat> {
    match refetch
    case OneRefetch(cb) => if Skipped(skip, 0) then [] else [cb]
    case RefetchList(cbs) => CalledFrom(cbs, skip)
  }

  /** The list loop over `cbs`, indexed from 0. */
  function CalledFrom(cbs: seq<nat>, skip: Skip): seq<nat>
    decreases |cbs|
  {
    if cbs == [] then []
    else
      var i := |cbs| - 1;
      CalledFrom(cbs[..i], skip) + if Skipped(skip, i) then [] else [cbs[i]]
  }

  /** No more refetches are called than the list has entries; with no entry
      skipped the whole list is called in order, and with every entry skipped
      nothing is. */
  lemma {:induction false} CalledFromExactly(cbs: seq<nat>, skip: Skip)
    ensures |CalledFrom(cbs, skip)| <= |cbs|
    ensures (forall i | 0 <= i < |cbs| :: !Skipped(skip, i)) ==> CalledFrom(cbs, skip) == cbs
    ensures (forall i | 0 <= i < |cbs| :: Skipped(skip, i)) ==> CalledFrom(cbs, skip) == []
    decreases |cbs|
  {
    if cbs != [] {
      var i := |cbs| - 1;
      CalledFromExactly(cbs[..i], skip);
      assert cbs[..i] + [cbs[i]] == cbs;
    }
  }

  /** A refetch is called from a list exactly when it stands at a position
      whose skip entry is falsy. */
  lemma {:induction false} CalledFromMembers(cbs: seq<nat>, skip: Skip, x: nat)
    ensures x in CalledFrom(cbs, skip) <==> exists i | 0 <= i < |cbs| :: cbs[i] == x && !Skipped(skip, i)
    decreases |cbs|
  {
    if cbs != [] {
      var last := |cbs| - 1;
      var prefix := cbs[..last];
      CalledFromMembers(prefix, skip, x);
      assert CalledFrom(cbs, skip) == CalledFrom(prefix, skip) + if Skipped(skip, last) then [] else [cbs[last]];
      if exists i | 0 <= i < |cbs| :: cbs[i] == x && !Skipped(skip, i) {
        var i :| 0 <= i < |cbs| && cbs[i] == x && !Skipped(skip, i);
        if i < last {
          assert prefix[i] == x;
        }
      }
      if x in CalledFrom(prefix, skip) {
        var i :| 0 <= i < |prefix| && prefix[i] == x && !Skipped(skip, i);
        assert cbs[i] == x;
      }
    }
  }

  /** A scalar `skip` only ever concerns the first refetch of a list; with no
      `skip` at all every refetch is called. */
  lemma ScalarSkipOnlyFirst(cbs: seq<nat>, b: bool)
    requires |cbs| >= 1
    ensures CalledFrom(cbs, OneSkip(b)) == if b then cbs[1..] else cbs
    ensures CalledFrom(cbs, NoSkip) == cbs
  {
    CalledFromExactly(cbs, NoSkip);
    ScalarSkipFrom(cbs, b);
  }

  lemma {:induction false} ScalarSkipFrom(cbs: seq<nat>, b: bool)
    requires |cbs| >= 1
    ensures CalledFrom(cbs, OneSkip(b)) == if b then cbs[1..] else cbs
    decreases |cbs|
  {
    var i := |cbs| - 1;
    if i == 0 {
      assert cbs[..0] == [];
    } else {
      ScalarSkipFrom(cbs[..i], b);
      assert cbs[..i] + [cbs[i]] == cbs;
      assert cbs[..i][1..] + [cbs[i]] == cbs[1..];
    }
  }

  /** The pull-to-refresh state of one screen. */
  class RefreshControl {
    var refreshing: bool

    constructor ()
      ensures !refreshing
    {
      refreshing := false;
    }

    /** One render: returns the `refreshing` reported to the control. The
        flag is cleared when nothing is fetching; the report is the flag as
        the render found it, and only while something fetches. */
    method Render(isFetching: Fetching) returns (reported: bool)
      modifies this
      ensures reported == (old(refreshing) && SomeFetching(isFetching))
      ensures refreshing == (old(refreshing) && SomeFetching(isFetching))
    {
      var wasRefreshing := refreshing;
      var isSomeFetching := SomeFetching(isFetching);
      if refreshing && !isSomeFetching {
        refreshing := false;
      }
      reported := wasRefreshing && isSomeFetching;
    }

    /** `onRefresh()`: sets the flag and returns the refetches called. */
    method OnRefresh(refetch: Refetch, skip: Skip) returns (calls: seq<nat>)
      modifies this
      ensures refreshing
      ensures calls == Called(refetch, skip)
    {
      refreshing := true;
      match refetch {
        case OneRefetch(cb) =>
          calls := if Skipped(skip, 0) then [] else [cb];
        case RefetchList(cbs) =>
          calls := [];
          var index := 0;
          while index < |cbs|
            invariant 0 <= index <= |cbs|
            invariant calls == CalledFrom(cbs[..index], skip)
          {
            assert cbs[..index + 1][..index] == cbs[..index];
            if !Skipped(skip, index) {
              calls := calls + [cbs[index]];
            }
            index := index + 1;
          }
          assert cbs[..index] == cbs;
      }
    }
  }
}
