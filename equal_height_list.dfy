/** The grid list that keeps the items of a row at equal height
    (src/components/EqualHeightItemsFlashList/EqualHeightItemsFlashList.tsx):
    with several columns it hands the underlying list rows of `numColumns`
    items instead of items, pads the last row with a marker, and maps a
    position in a row back to the item's original index for rendering and
    for keys. */
module EqualHeightList {
  import opened Wrappers
  import opened Text
  import opened Seqs

  /** A slot of a row: an item, or the `NO_ITEM` padding marker. */
  datatype Cell<T> = Item(item: T) | NoItem

  /** What the underlying list receives as its data. */
  datatype Grouped<T> = Ungrouped(data: Option<seq<T>>) | Groups(rows: seq<seq<Cell<T>>>)

  /** Rows are used only with at least two columns and neither
      `getItemType` nor `overrideItemLayout` given (`unsupportedProp`). */
  predicate Grouping(unsupportedProp: bool, numColumns: Option<int>) {
    !unsupportedProp && numColumns.Some? && numColumns.value > 1
  }

  function Min(a: int, b: int): int {
    if a < b then a else b
  }

  /** `data.slice(i, i + numColumns)` padded with `NO_ITEM` up to
      `numColumns` slots. */
  function Row<T>(data: seq<T>, i: nat, n: nat): (r: seq<Cell<T>>)
    requires i <= |data|
    ensures |r| == if i + n <= |data| then n else if n < |data| - i then |data| - i else n
  {
    var end := Min(i + n, |data|);
    seq(end - i, k requires 0 <= k < end - i => Item(data[i + k])) + seq(n - (end - i), _ => NoItem)
  }

  /** The rows of `data`, `n` slots each (reference definition). */
  function Chunks<T>(data: seq<T>, n: nat): seq<seq<Cell<T>>>
    requires n > 0
    decreases |data|
  {
    if data == [] then [] else [Row(data, 0, n)] + Chunks(data[Min(n, |data|)..], n)
  }

  /** The `groupedData` memo: the loop that slices the data into rows. */
  method GroupedData<T>(data: Option<seq<T>>, numColumns: Option<int>, unsupportedProp: bool)
    returns (r: Grouped<T>)
    ensures !Grouping(unsupportedProp, numColumns) || data.None? ==> r == Ungrouped(data)
    ensures Grouping(unsupportedProp, numColumns) && data.Some? ==>
      r == Groups(Chunks(data.value, numColumns.value))
  {
    if !Grouping(unsupportedProp, numColumns) || data.None? {
      return Ungrouped(data);
    }
    var items := data.value;
    var n: nat := numColumns.value;
    var grouped: seq<seq<Cell<T>>> := [];
    var i := 0;
    while i < |items|
      invariant 0 <= i
      invariant grouped + Chunks(items[Min(i, |items|)..], n) == Chunks(items, n)
      decreases |items| - i
    {
      var group := Row(items, i, n);
      var rest := items[i..];
      assert Chunks(rest, n) == [group] + Chunks(items[Min(i + n, |items|)..], n) by {
        assert Row(rest, 0, n) == group;
        assert rest[Min(n, |rest|)..] == items[Min(i + n, |items|)..];
      }
      AppendAssoc(grouped, [group], Chunks(items[Min(i + n, |items|)..], n));
      grouped := grouped + [group];
      i := i + n;
    }
    return Groups(grouped);
  }

  /** Every row has exactly `n` slots. */
  lemma {:induction false} RowsFull<T>(data: seq<T>, n: nat)
    requires n > 0
    ensures forall g | 0 <= g < |Chunks(data, n)| :: |Chunks(data, n)[g]| == n
    decreases |data|
  {
    if data != [] {
      RowsFull(data[Min(n, |data|)..], n);
    }
  }

  /** There are `ceil(|data| / n)` rows: the rows hold the data, and one row
      fewer would not. */
  lemma {:induction false} RowCount<T>(data: seq<T>, n: nat)
    requires n > 0
    ensures var q := |Chunks(data, n)|;
            |data| <= q * n && (q == 0 || (q - 1) * n < |data|)
    decreases |data|
  {
    if data != [] {
      var rest := data[Min(n, |data|)..];
      RowCount(rest, n);
      var q := |Chunks(rest, n)|;
      assert |Chunks(data, n)| == q + 1;
      assert (q + 1) * n == q * n + n;
      if q > 0 {
        assert q * n == (q - 1) * n + n;
      }
    }
  }

  /** Slot `k` of row `g` holds the item at original index `g * n + k`, or
      padding when that index is past the end. */
  lemma {:induction false} SlotIndex<T>(data: seq<T>, n: nat, g: nat, k: nat)
    requires n > 0
    requires g < |Chunks(data, n)| && k < n
    ensures |Chunks(data, n)[g]| == n
    ensures Chunks(data, n)[g][k] == if g * n + k < |data| then Item(data[g * n + k]) else NoItem
    decreases g
  {
    RowsFull(data, n);
    if g > 0 {
      var rest := data[Min(n, |data|)..];
      SlotIndex(rest, n, g - 1, k);
      assert |data| > n;
      assert (g - 1) * n + k + n == g * n + k;
    }
  }

  /** Padding appears only in the last row. */
  lemma PaddingOnlyLast<T>(data: seq<T>, n: nat, g: nat, k: nat)
    requires n > 0
    requires g + 1 < |Chunks(data, n)| && k < n
    ensures g * n + k < |data| && k < |Chunks(data, n)[g]| && Chunks(data, n)[g][k] == Item(data[g * n + k])
  {
    RowCount(data, n);
    var q := |Chunks(data, n)|;
    MulMonotone(g + 1, q - 1, n);
    assert (q - 1) * n < |data|;
    assert (g + 1) * n <= (q - 1) * n;
    assert (g + 1) * n == g * n + n;
    assert g * n + k < |data|;
    SlotIndex(data, n, g, k);
  }

  lemma MulMonotone(a: nat, b: nat, n: nat)
    requires a <= b
    ensures a * n <= b * n
  {
  }

  /** All the slots of the rows, row after row. */
  function Flatten<T>(rows: seq<seq<Cell<T>>>): seq<Cell<T>>
    decreases |rows|
  {
    if rows == [] then [] else rows[0] + Flatten(rows[1..])
  }

  /** The items of a sequence of slots, padding removed. */
  function Strip<T>(cells: seq<Cell<T>>): seq<T>
    decreases |cells|
  {
    if cells == [] then []
    else if cells[0].Item? then [cells[0].item] + Strip(cells[1..])
    else Strip(cells[1..])
  }

  lemma {:induction false} StripAppend<T>(a: seq<Cell<T>>, b: seq<Cell<T>>)
    ensures Strip(a + b) == Strip(a) + Strip(b)
    decreases |a|
  {
    if a != [] {
      var ab := a + b;
      assert ab != [] && ab[0] == a[0] && ab[1..] == a[1..] + b;
      StripAppend(a[1..], b);
      if a[0].Item? {
        assert Strip(ab) == [a[0].item] + Strip(a[1..] + b);
        assert Strip(a) == [a[0].item] + Strip(a[1..]);
        AppendAssoc([a[0].item], Strip(a[1..]), Strip(b));
      } else {
        assert Strip(ab) == Strip(a[1..] + b);
      }
    } else {
      assert a + b == b;
    }
  }

  lemma {:induction false} StripRow<T>(data: seq<T>, n: nat)
    requires n > 0 && data != []
    ensures Strip(Row(data, 0, n)) == data[..Min(n, |data|)]
  {
    var m := Min(n, |data|);
    var items := seq(m, k requires 0 <= k < m => Item(data[k]));
    var pad: seq<Cell<T>> := seq(n - m, _ => NoItem);
    assert Row(data, 0, n) == items + pad;
    StripAppend(items, pad);
    StripPadding(pad);
    StripItems(data[..m], items);
  }

  lemma {:induction false} StripPadding<T>(pad: seq<Cell<T>>)
    requires forall k | 0 <= k < |pad| :: pad[k] == NoItem
    ensures Strip(pad) == []
    decreases |pad|
  {
    if pad != [] {
      StripPadding(pad[1..]);
    }
  }

  lemma {:induction false} StripItems<T>(data: seq<T>, items: seq<Cell<T>>)
    requires |items| == |data|
    requires forall k | 0 <= k < |data| :: items[k] == Item(data[k])
    ensures Strip(items) == data
    decreases |data|
  {
    if data != [] {
      StripItems(data[1..], items[1..]);
    }
  }

  /** Flattening the rows and dropping the padding gives the data back, in
      order. */
  lemma {:induction false} UngroupRoundTrip<T>(data: seq<T>, n: nat)
    requires n > 0
    ensures Strip(Flatten(Chunks(data, n))) == data
    decreases |data|
  {
    if data != [] {
      var m := Min(n, |data|);
      var rows := Chunks(data, n);
      UngroupRoundTrip(data[m..], n);
      assert rows[1..] == Chunks(data[m..], n);
      StripAppend(Row(data, 0, n), Flatten(rows[1..]));
      StripRow(data, n);
      assert data[..m] + data[m..] == data;
    }
  }

  /** The `renderItem` calls of `renderGroup` for row `groupIndex`: one per
      item slot, with the item and its original index; padding renders
      nothing. */
  function RenderCalls<T>(items: seq<Cell<T>>, groupIndex: nat, n: nat): (r: seq<Option<(T, nat)>>)
    ensures |r| == |items|
  {
    seq(|items|, k requires 0 <= k < |items| =>
      if items[k].Item? then Some((items[k].item, groupIndex * n + k)) else None)
  }

  /** Rendering a row calls `renderItem` with each item and the index it had
      in the data. */
  lemma RenderSeesOriginalIndex<T>(data: seq<T>, n: nat, g: nat, k: nat)
    requires n > 0
    requires g < |Chunks(data, n)| && k < n
    ensures |RenderCalls(Chunks(data, n)[g], g, n)| == n
    ensures var call := RenderCalls(Chunks(data, n)[g], g, n)[k];
            call.Some? <==> g * n + k < |data|
    ensures var call := RenderCalls(Chunks(data, n)[g], g, n)[k];
            call.Some? ==> call.value.1 < |data| && call.value == (data[call.value.1], g * n + k)
  {
    SlotIndex(data, n, g, k);
  }

  /** The `key` props `renderGroup` gives the slot views of row `groupIndex`
      when a `keyExtractor` is given: the extractor is called on every slot,
      the padding marker included, with the slot's original index. */
  function SlotViewKeys<T>(items: seq<Cell<T>>, groupIndex: nat, n: nat, keyExtractor: (Cell<T>, nat) -> string)
    : (r: seq<string>)
    ensures |r| == |items|
  {
    seq(|items|, k requires 0 <= k < |items| => keyExtractor(items[k], groupIndex * n + k))
  }

  /** In a row of the grouped data, a slot view is keyed by the extractor at
      the slot's original index: an item slot with its item, which is the key
      `groupKeyExtractor` uses for that slot too, and a padding slot with the
      marker and an index past the end of the data. */
  lemma SlotViewKeyIndex<T>(data: seq<T>, n: nat, g: nat, k: nat,
                            viewKey: (Cell<T>, nat) -> string, itemKey: (T, nat) -> string)
    requires n > 0
    requires g < |Chunks(data, n)| && k < n
    requires forall x, i :: viewKey(Item(x), i) == itemKey(x, i)
    ensures |SlotViewKeys(Chunks(data, n)[g], g, n, viewKey)| == n
    ensures g * n + k < |data| ==>
      SlotViewKeys(Chunks(data, n)[g], g, n, viewKey)[k] == itemKey(data[g * n + k], g * n + k) ==
      SlotKeys(Chunks(data, n)[g], g, n, itemKey)[k]
    ensures g * n + k >= |data| ==>
      SlotViewKeys(Chunks(data, n)[g], g, n, viewKey)[k] == viewKey(NoItem, g * n + k)
  {
    SlotIndex(data, n, g, k);
  }

  /** The keys of the slots of row `groupIndex`: `keyExtractor(item, index)`
      at the original index, or `${groupIndex}_${itemIndex}` for padding. */
  function SlotKeys<T>(items: seq<Cell<T>>, groupIndex: nat, n: nat, keyExtractor: (T, nat) -> string)
    : (r: seq<string>)
    ensures |r| == |items|
  {
    seq(|items|, k requires 0 <= k < |items| =>
      if items[k].Item? then keyExtractor(items[k].item, groupIndex * n + k)
      else NatToString(groupIndex) + "_" + NatToString(k))
  }

  /** `groupKeyExtractor(items, groupIndex)`: the slot keys joined by `-`. */
  function GroupKey<T>(items: seq<Cell<T>>, groupIndex: nat, n: nat, keyExtractor: (T, nat) -> string)
    : string
  {
    Join(SlotKeys(items, groupIndex, n, keyExtractor), '-')
  }

  /** When item keys contain no `-`, the row key can be split back into the
      slot keys; in particular two rows with different slot keys get
      different keys. */
  lemma GroupKeySplits<T>(items: seq<Cell<T>>, groupIndex: nat, n: nat, keyExtractor: (T, nat) -> string)
    requires |items| >= 1
    requires forall x, i :: '-' !in keyExtractor(x, i)
    ensures Split(GroupKey(items, groupIndex, n, keyExtractor), '-') == SlotKeys(items, groupIndex, n, keyExtractor)
  {
    var keys := SlotKeys(items, groupIndex, n, keyExtractor);
    forall p | p in keys ensures '-' !in p {
      var k :| 0 <= k < |keys| && keys[k] == p;
      if items[k].NoItem? {
        assert forall c | c in NatToString(groupIndex) :: IsDigit(c);
        assert forall c | c in NatToString(k) :: IsDigit(c);
      }
    }
    SplitJoin(keys, '-');
  }
}
