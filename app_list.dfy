/** The paging helpers of the list component (src/components/AppList/utils.ts
    and the `pageEnd` flag of src/components/AppList/AppList.tsx): how a newly
    fetched page is merged into the data already shown, when reaching the end
    of the list asks for the next page, how the shown data is filtered and
    transformed, how the query arguments receive the page arguments, and the
    postal-code formatter. The React states of the list become the fields of a
    class; a state setter takes effect at once. */
module AppList {
  import opened Wrappers
  import opened JsonValue
  import opened Text
  import opened Seqs

  // ---------------------------------------------------------------------
  // Page merge
  // ---------------------------------------------------------------------

  datatype Mode = Fresh | Concat

  /** Where `splice(start, …)` starts on an array of length `len`: a negative
      start counts from the end, and both ends are clamped. */
  function SpliceStart(len: nat, start: int): (r: nat)
    ensures r <= len
    ensures 0 <= start ==> r == if start < len then start else len
    ensures start < 0 ==> r == if len + start < 0 then 0 else len + start
  {
    if start < 0 then (if len + start < 0 then 0 else len + start)
    else if start < len then start else len
  }

  /** How many items `splice(…, deleteCount, …)` removes from `at`: the count
      is clamped to what is left of the array. */
  function SpliceCount(len: nat, at: nat, deleteCount: int): (r: nat)
    requires at <= len
    ensures at + r <= len
    ensures r == if deleteCount < 0 then 0 else if deleteCount < len - at then deleteCount else len - at
  {
    if deleteCount < 0 then 0 else if deleteCount < len - at then deleteCount else len - at
  }

  /** The array `s` after `s.splice(start, deleteCount, ...items)`. */
  function Splice<T>(s: seq<T>, start: int, deleteCount: int, items: seq<T>): seq<T> {
    var at := SpliceStart(|s|, start);
    s[..at] + items + s[at + SpliceCount(|s|, at, deleteCount)..]
  }

  /** What the `setFullData` updater of the page-merge effect returns, given
      the previous full data `pre` and the page just fetched. A page shorter
      than `pageSize` is the last one and replaces the whole tail. */
  function MergePage<T>(pre: Option<seq<T>>, current: seq<T>, paging: bool, mode: Mode,
                        page: int, pageSize: int): seq<T>
  {
    if paging && pre.Some? && mode == Concat then
      Splice(pre.value, page * pageSize, if |current| < pageSize then |pre.value| else pageSize, current)
    else current
  }

  /** Without paging, without previous data, or in mode `fresh`, the new page
      becomes the whole data. */
  lemma MergeFreshReplaces<T>(pre: Option<seq<T>>, current: seq<T>, paging: bool, mode: Mode,
                              page: int, pageSize: int)
    requires !paging || pre.None? || mode == Fresh
    ensures MergePage(pre, current, paging, mode, page, pageSize) == current
  {
  }

  /** In concat mode the items before the page's start (clamped to the old
      length) are kept, and the page follows them. */
  lemma MergeKeepsPrefix<T>(pre: seq<T>, current: seq<T>, page: int, pageSize: int)
    ensures var r := MergePage(Some(pre), current, true, Concat, page, pageSize);
            var at := SpliceStart(|pre|, page * pageSize);
            (0 <= page * pageSize ==> at == if page * pageSize < |pre| then page * pageSize else |pre|) &&
            at + |current| <= |r| && r[..at] == pre[..at] && r[at..at + |current|] == current
  {
  }

  /** A short page is the last page: whatever followed its start is dropped. */
  lemma MergeShortPageDropsTail<T>(pre: seq<T>, current: seq<T>, page: int, pageSize: int)
    requires |current| < pageSize
    ensures var at := SpliceStart(|pre|, page * pageSize);
            MergePage(Some(pre), current, true, Concat, page, pageSize) == pre[..at] + current
  {
    var at := SpliceStart(|pre|, page * pageSize);
    assert pre[at + SpliceCount(|pre|, at, |pre|)..] == [];
  }

  /** A full page replaces exactly `pageSize` items (fewer at the end). */
  lemma MergeFullPageReplaces<T>(pre: seq<T>, current: seq<T>, page: int, pageSize: int)
    requires 0 <= pageSize <= |current|
    ensures var at := SpliceStart(|pre|, page * pageSize);
            var end := if at + pageSize < |pre| then at + pageSize else |pre|;
            MergePage(Some(pre), current, true, Concat, page, pageSize) == pre[..at] + current + pre[end..]
  {
  }

  /** When the data holds exactly the pages before this one, the page is
      appended. */
  lemma MergeAppendsNextPage<T>(pre: seq<T>, current: seq<T>, page: int, pageSize: int)
    requires |pre| == page * pageSize
    ensures MergePage(Some(pre), current, true, Concat, page, pageSize) == pre + current
  {
    assert pre[..|pre|] == pre;
  }

  /** Merging the same page a second time (a refetch of that page) changes
      nothing, as long as the page is no longer than `pageSize` and starts
      within the data. */
  lemma MergeRefetchIdempotent<T>(pre: seq<T>, current: seq<T>, page: int, pageSize: int)
    requires 0 <= page * pageSize <= |pre|
    requires |current| <= pageSize
    ensures var once := MergePage(Some(pre), current, true, Concat, page, pageSize);
            MergePage(Some(once), current, true, Concat, page, pageSize) == once
  {
    var at := page * pageSize;
    var once := MergePage(Some(pre), current, true, Concat, page, pageSize);
    if |current| < pageSize {
      MergeShortPageDropsTail(pre, current, page, pageSize);
      MergeShortPageDropsTail(once, current, page, pageSize);
      assert once[..at] == pre[..at];
    } else {
      MergeFullPageReplaces(pre, current, page, pageSize);
      MergeFullPageReplaces(once, current, page, pageSize);
      var end := if at + pageSize < |pre| then at + pageSize else |pre|;
      assert once == pre[..at] + current + pre[end..];
      assert once[..at] == pre[..at];
      assert once[at + pageSize..] == pre[end..];
    }
  }

  // ---------------------------------------------------------------------
  // End of the list
  // ---------------------------------------------------------------------

  /** `pageEnd` of the list: without paging there is only one page; with a
      known total the list ends once the next page would start at or past it;
      otherwise it ends when the last page came back empty. */
  function PageEnd<T>(paging: bool, total: Option<int>, currentData: Option<seq<T>>,
                      page: int, pageSize: int): (r: bool)
    ensures !paging ==> r
    ensures paging && total.Some? ==> (r <==> (page + 1) * pageSize >= total.value)
    ensures paging && total.None? ==> (r <==> currentData == Some([]))
  {
    if !paging then true
    else if total.Some? then (page + 1) * pageSize >= total.value
    else currentData.Some? && |currentData.value| == 0
  }

  /** The condition under which `handleEndReached` asks for the next page.
      An empty error message is falsy. */
  predicate MayAdvance(paging: bool, pageEnd: bool, errorMessage: Option<string>,
                       isFetching: bool, isUninitialized: bool)
  {
    paging && !pageEnd && (errorMessage.None? || errorMessage.value == "") && !isFetching && !isUninitialized
  }

  /** The request flags seen by one end-of-list event. */
  datatype Flags = Flags(errorMessage: Option<string>, isFetching: bool, isUninitialized: bool)

  /** The page after a sequence of end-of-list events on a paged list whose
      total is known, `pageEnd` being recomputed from the page each time. */
  function PageAfter(page: int, pageSize: int, total: int, events: seq<Flags>): int
    decreases |events|
  {
    if events == [] then page
    else
      var e := events[0];
      var pageEnd := PageEnd<int>(true, Some(total), None, page, pageSize);
      var next := if MayAdvance(true, pageEnd, e.errorMessage, e.isFetching, e.isUninitialized) then page + 1 else page;
      PageAfter(next, pageSize, total, events[1..])
  }

  /** With a known total, end-of-list events never request a page that starts
      at or past the total, and each event moves at most one page on. */
  lemma {:induction false} PagesStayBelowTotal(page: int, pageSize: int, total: int, events: seq<Flags>)
    requires page == 0 || page * pageSize < total
    ensures var r := PageAfter(page, pageSize, total, events);
            page <= r <= page + |events| && (r == page || r * pageSize < total)
    decreases |events|
  {
    if events != [] {
      var e := events[0];
      var pageEnd := PageEnd<int>(true, Some(total), None, page, pageSize);
      var next := if MayAdvance(true, pageEnd, e.errorMessage, e.isFetching, e.isUninitialized) then page + 1 else page;
      assert next == page || next * pageSize < total;
      PagesStayBelowTotal(next, pageSize, total, events[1..]);
    }
  }

  /** The paging state of one list. */
  class Pager<T> {
    /** `!!getPageArgs`. */
    const paging: bool
    const pageSize: int
    var fullData: Option<seq<T>>
    var page: int
    var mode: Mode

    constructor (paging: bool, pageSize: int)
      ensures this.paging == paging && this.pageSize == pageSize
      ensures fullData == None && page == 0 && mode == Fresh
    {
      this.paging := paging;
      this.pageSize := pageSize;
      fullData := None;
      page := 0;
      mode := Fresh;
    }

    /** The page-merge effect, run when a page arrives (`currentData`); an
        absent page changes nothing. An empty page is still an array and so
        is merged. */
    method ReceivePage(currentData: Option<seq<T>>)
      modifies this
      ensures currentData.None? ==> fullData == old(fullData)
      ensures currentData.Some? ==>
        fullData == Some(MergePage(old(fullData), currentData.value, paging, mode, page, pageSize))
      ensures page == old(page) && mode == old(mode)
    {
      if currentData.Some? {
        var current := currentData.value;
        if paging && fullData.Some? && mode == Concat {
          var res := fullData.value;
          res := Splice(res, page * pageSize, if |current| < pageSize then |res| else pageSize, current);
          fullData := Some(res);
        } else {
          fullData := Some(current);
        }
      }
    }

    /** `handleEndReached()`: returns whether a refetch was scheduled and the
        `onEndReached` calls made. */
    method HandleEndReached(pageEnd: bool, errorMessage: Option<string>, isFetching: bool,
                            isUninitialized: bool, onEndReached: Option<nat>)
      returns (refetch: bool, calls: seq<nat>)
      modifies this
      ensures refetch == MayAdvance(paging, pageEnd, errorMessage, isFetching, isUninitialized)
      ensures refetch ==> page == old(page) + 1 && mode == Concat
      ensures !refetch ==> page == old(page) && mode == old(mode)
      ensures fullData == old(fullData)
      ensures calls == if onEndReached.Some? then [onEndReached.value] else []
    {
      refetch := false;
      if paging && !pageEnd && (errorMessage.None? || errorMessage.value == "") && !isFetching && !isUninitialized {
        page := page + 1;
        refetch := true;
        mode := Concat;
      }
      calls := if onEndReached.Some? then [onEndReached.value] else [];
    }
  }

  // ---------------------------------------------------------------------
  // Filter and transform
  // ---------------------------------------------------------------------

  /** `s.filter(keep)`. */
  function Filter<T>(s: seq<T>, keep: T -> bool): (r: seq<T>)
    ensures |r| <= |s|
    ensures forall i | 0 <= i < |r| :: keep(r[i])
    decreases |s|
  {
    if s == [] then []
    else if keep(s[0]) then [s[0]] + Filter(s[1..], keep)
    else Filter(s[1..], keep)
  }

  /** Filtering keeps exactly the items that pass, in their order. */
  lemma {:induction false} FilterKeeps<T>(s: seq<T>, keep: T -> bool)
    ensures Subsequence(Filter(s, keep), s)
    ensures forall x | x in s && keep(x) :: x in Filter(s, keep)
    decreases |s|
  {
    if s != [] {
      FilterKeeps(s[1..], keep);
      if keep(s[0]) {
        assert Filter(s, keep)[1..] == Filter(s[1..], keep);
      } else {
        SubsequenceOfTail(Filter(s, keep), s);
      }
      forall x | x in s && keep(x) ensures x in Filter(s, keep) {
        if x != s[0] { assert x in s[1..]; }
      }
    }
  }

  /** `cookedData`: the full data filtered by `filterResult` and then given to
      `transformData`, each step skipped when its function is absent. */
  function CookedData<T>(fullData: Option<seq<T>>, filterResult: Option<T -> bool>,
                         transformData: Option<seq<T> -> seq<T>>): Option<seq<T>>
  {
    var filtered := if filterResult.Some? && fullData.Some? then Some(Filter(fullData.value, filterResult.value)) else fullData;
    if transformData.Some? && filtered.Some? then Some(transformData.value(filtered.value)) else filtered
  }

  /** What the list shows: nothing without data, the data itself without
      functions, and only items that pass the filter, in order, when there is
      a filter and no transform. */
  lemma CookedDataMeaning<T>(fullData: Option<seq<T>>, filterResult: Option<T -> bool>,
                                 transformData: Option<seq<T> -> seq<T>>)
    ensures fullData.None? ==> CookedData(fullData, filterResult, transformData).None?
    ensures filterResult.None? && transformData.None? ==> CookedData(fullData, filterResult, transformData) == fullData
    ensures fullData.Some? && filterResult.Some? && transformData.None? ==>
      var r := CookedData(fullData, filterResult, transformData).value;
      Subsequence(r, fullData.value) && (forall i | 0 <= i < |r| :: filterResult.value(r[i])) &&
      (forall x | x in fullData.value && filterResult.value(x) :: x in r)
    ensures fullData.Some? && transformData.Some? ==>
      CookedData(fullData, filterResult, transformData) ==
        Some(transformData.value(if filterResult.Some? then Filter(fullData.value, filterResult.value) else fullData.value))
  {
    if fullData.Some? && filterResult.Some? {
      FilterKeeps(fullData.value, filterResult.value);
    }
  }

  // ---------------------------------------------------------------------
  // Query arguments
  // ---------------------------------------------------------------------

  /** A query argument: a symbol (such as the skip token), `undefined`, or a
      plain value. */
  datatype Arg = Symbol(id: nat) | Undefined | Value(v: Json)

  /** `!!args`: symbols are truthy. */
  predicate ArgTruthy(a: Arg) {
    match a
    case Symbol(_) => true
    case Undefined => false
    case Value(v) => Truthy(v)
  }

  /** `typeof args === 'object' || args === undefined` (`null` is an object
      to `typeof`). */
  predicate Spreadable(a: Arg) {
    a.Undefined? || (a.Value? && (a.v.JNull? || a.v.JObj?))
  }

  /** The own fields `{...a}` copies: none for `undefined` and `null`. */
  function SpreadFields(a: Arg): seq<Field> {
    if a.Value? && a.v.JObj? then a.v.fields else []
  }

  /** `o[k] = v` on an object: an existing key keeps its place, a new one goes
      last. */
  function Put(fields: seq<Field>, k: string, v: Json): (r: seq<Field>)
    ensures Get(r, k) == Some(v)
    ensures forall other | other != k :: Get(r, other) == Get(fields, other)
    decreases |fields|
  {
    if fields == [] then [Field(k, v)]
    else if fields[0].key == k then [Field(k, v)] + fields[1..]
    else [fields[0]] + Put(fields[1..], k, v)
  }

  /** `{...base, ...over}`: the fields of `over` are written over `base` in
      order. */
  function Merge(base: seq<Field>, over: seq<Field>): seq<Field>
    decreases |over|
  {
    if over == [] then base else Merge(Put(base, over[0].key, over[0].value), over[1..])
  }

  /** In a merge the later object wins: a key of `over` has its value there,
      any other key keeps its value in `base`. */
  lemma {:induction false} MergeGet(base: seq<Field>, over: seq<Field>, k: string)
    requires DistinctKeys(over)
    ensures Get(Merge(base, over), k) == if k in Keys(over) then Get(over, k) else Get(base, k)
    decreases |over|
  {
    if over != [] {
      var rest := over[1..];
      assert DistinctKeys(rest) by {
        forall i, j | 0 <= i < j < |rest| ensures rest[i].key != rest[j].key {
          assert rest[i] == over[i + 1] && rest[j] == over[j + 1];
        }
      }
      MergeGet(Put(base, over[0].key, over[0].value), rest, k);
      assert Keys(over) == [over[0].key] + Keys(rest);
      if k == over[0].key {
        assert k !in Keys(rest) by {
          forall i | 0 <= i < |rest| ensures rest[i].key != k {
            assert rest[i] == over[i + 1];
          }
        }
      }
    }
  }

  /** The arguments the query receives: `args` with the page arguments
      `pageArgs` (present exactly when the list pages) merged in. */
  function UseFullArgs(args: Arg, pageArgs: Option<seq<Field>>): Arg {
    if args.Symbol? then args
    else if ArgTruthy(args) || pageArgs.Some? then
      if Spreadable(args) then Value(JObj(Merge(SpreadFields(args), pageArgs.GetOr([])))) else args
    else Undefined
  }

  /** The four outcomes of the argument merge: a symbol passes through; an
      object, `null` or `undefined` is merged with the page arguments, which
      win; any other value passes through and the page arguments are lost;
      and with neither truthy arguments nor page arguments the result is
      `undefined`. */
  lemma FullArgsMeaning(args: Arg, pageArgs: Option<seq<Field>>, k: string)
    requires pageArgs.Some? ==> DistinctKeys(pageArgs.value)
    ensures args.Symbol? ==> UseFullArgs(args, pageArgs) == args
    ensures !args.Symbol? && !ArgTruthy(args) && pageArgs.None? ==> UseFullArgs(args, pageArgs) == Undefined
    ensures !Spreadable(args) && (ArgTruthy(args) || pageArgs.Some?) ==> UseFullArgs(args, pageArgs) == args
    ensures Spreadable(args) && (ArgTruthy(args) || pageArgs.Some?) ==>
      var r := UseFullArgs(args, pageArgs);
      r.Value? && r.v.JObj? &&
      Get(r.v.fields, k) ==
        if pageArgs.Some? && k in Keys(pageArgs.value) then Get(pageArgs.value, k) else Get(SpreadFields(args), k)
  {
    if Spreadable(args) && (ArgTruthy(args) || pageArgs.Some?) {
      var over := pageArgs.GetOr([]);
      assert DistinctKeys(over);
      MergeGet(SpreadFields(args), over, k);
    }
  }

  // ---------------------------------------------------------------------
  // Postal codes
  // ---------------------------------------------------------------------

  /** Seven digits start at position `i`. */
  predicate SevenDigitsAt(s: string, i: nat) {
    i + 7 <= |s| && AllDigits(s[i..i + 7])
  }

  /** The leftmost match of `/(\d{3})(\d{4})/` at or after `from`. */
  function FirstSevenDigits(s: string, from: nat): (r: Option<nat>)
    ensures r.Some? ==> from <= r.value && SevenDigitsAt(s, r.value)
    ensures r.Some? ==> forall j | from <= j < r.value :: !SevenDigitsAt(s, j)
    ensures r.None? ==> forall j | from <= j :: !SevenDigitsAt(s, j)
    decreases |s| - from
  {
    if from + 7 > |s| then None
    else if SevenDigitsAt(s, from) then Some(from)
    else FirstSevenDigits(s, from + 1)
  }

  /** `formatPostalCode(postalCode)`: the first run of seven digits gets
      `"  -  "` after its third digit; only that run is changed. */
  function FormatPostalCode(postalCode: string): (r: string)
    ensures FirstSevenDigits(postalCode, 0).None? ==> r == postalCode
    ensures FirstSevenDigits(postalCode, 0).Some? ==> |r| == |postalCode| + 5
  {
    match FirstSevenDigits(postalCode, 0)
    case None => postalCode
    case Some(i) => postalCode[..i + 3] + "  -  " + postalCode[i + 3..]
  }

  /** The formatted code is the original with the separator inserted: taking
      the separator out gives the input back, and the separator follows three
      digits and precedes four, at the leftmost place where that is possible. */
  lemma PostalCodeSeparator(postalCode: string)
    ensures var m := FirstSevenDigits(postalCode, 0);
            var r := FormatPostalCode(postalCode);
            m.Some? ==>
              var at := m.value + 3;
              r[at..at + 5] == "  -  " && r[..at] + r[at + 5..] == postalCode &&
              AllDigits(r[at - 3..at]) && AllDigits(r[at + 5..at + 9]) &&
              forall j | 0 <= j < m.value :: !SevenDigitsAt(postalCode, j)
  {
    var m := FirstSevenDigits(postalCode, 0);
    if m.Some? {
      var i := m.value;
      var r := FormatPostalCode(postalCode);
      assert r == postalCode[..i + 3] + "  -  " + postalCode[i + 3..];
      assert r[..i + 3] == postalCode[..i + 3];
      assert r[i + 8..] == postalCode[i + 3..];
      assert postalCode[..i + 3] + postalCode[i + 3..] == postalCode;
      var run := postalCode[i..i + 7];
      assert r[i..i + 3] == run[..3];
      assert r[i + 8..i + 12] == run[3..];
      assert forall k | 0 <= k < 3 :: run[..3][k] == run[k];
      assert forall k | 0 <= k < 4 :: run[3..][k] == run[k + 3];
    }
  }
}
