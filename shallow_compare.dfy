/** `shallowCompare` (src/utils/shallowCompare.ts): key-by-key `===`
    comparison of two objects, skipping the keys listed as exceptions. */
module ShallowCompare {
  import opened Wrappers

  /** One own property; `===` on values is `==` on `V`. */
  datatype Entry<V> = Entry(key: string, value: V)

  type Obj<V> = seq<Entry<V>>

  predicate DistinctKeys<V>(o: Obj<V>) {
    forall i, j | 0 <= i < j < |o| :: o[i].key != o[j].key
  }

  /** `Object.prototype.hasOwnProperty.call(o, k)`. */
  predicate Has<V>(o: Obj<V>, k: string) {
    exists i | 0 <= i < |o| :: o[i].key == k
  }

  /** `o[k]` for a key that is present: its first entry. */
  function Lookup<V>(o: Obj<V>, k: string): V
    requires Has(o, k)
  {
    if o[0].key == k then o[0].value else Lookup(o[1..], k)
  }

  /** `exceptions?.includes(k)`. */
  predicate Excepted(exceptions: Option<seq<string>>, k: string) {
    exceptions.Some? && k in exceptions.value
  }

  /** The `for (const key of keys1)` loop, from the entry `rest` onwards:
      true when no remaining key makes it return false. */
  function CompareFrom<V(==)>(rest: Obj<V>, obj2: Obj<V>, exceptions: Option<seq<string>>): bool {
    if rest == [] then true
    else if Excepted(exceptions, rest[0].key) then CompareFrom(rest[1..], obj2, exceptions)
    else if !Has(obj2, rest[0].key) then false
    else if rest[0].value != Lookup(obj2, rest[0].key) then false
    else CompareFrom(rest[1..], obj2, exceptions)
  }

  /** `shallowCompare(obj1, obj2, exceptions)`; `None` is `null`. */
  function ShallowCompare<V(==)>(obj1: Option<Obj<V>>, obj2: Option<Obj<V>>,
                                  exceptions: Option<seq<string>>): bool
  {
    if obj1.None? then obj2.None?
    else if obj2.None? then false
    else if |obj1.value| != |obj2.value| then false
    else CompareFrom(obj1.value, obj2.value, exceptions)
  }

  /** Every key of `o1` not excepted is in `o2` with an equal value. */
  predicate AgreesOn<V(==)>(o1: Obj<V>, o2: Obj<V>, exceptions: Option<seq<string>>) {
    forall i | 0 <= i < |o1| ::
      Excepted(exceptions, o1[i].key) || (Has(o2, o1[i].key) && Lookup(o2, o1[i].key) == o1[i].value)
  }

  lemma {:induction false} CompareFromMeaning<V>(rest: Obj<V>, obj2: Obj<V>, exceptions: Option<seq<string>>)
    ensures CompareFrom(rest, obj2, exceptions) <==> AgreesOn(rest, obj2, exceptions)
  {
    if rest != [] {
      CompareFromMeaning(rest[1..], obj2, exceptions);
      if AgreesOn(rest, obj2, exceptions) {
        assert AgreesOn(rest[1..], obj2, exceptions) by {
          forall i | 0 <= i < |rest[1..]|
            ensures Excepted(exceptions, rest[1..][i].key) ||
                    (Has(obj2, rest[1..][i].key) && Lookup(obj2, rest[1..][i].key) == rest[1..][i].value)
          {
            assert rest[1..][i] == rest[i + 1];
          }
        }
      }
      if CompareFrom(rest, obj2, exceptions) {
        forall i | 0 <= i < |rest|
          ensures Excepted(exceptions, rest[i].key) ||
                  (Has(obj2, rest[i].key) && Lookup(obj2, rest[i].key) == rest[i].value)
        {
          if i > 0 { assert rest[i] == rest[1..][i - 1]; }
        }
      }
    }
  }

  /** Null only equals null; otherwise the two objects are equal exactly when
      they have as many keys and agree on every non-excepted key of the first. */
  lemma ShallowCompareMeaning<V>(obj1: Option<Obj<V>>, obj2: Option<Obj<V>>, exceptions: Option<seq<string>>)
    ensures obj1.None? ==> (ShallowCompare(obj1, obj2, exceptions) <==> obj2.None?)
    ensures obj1.Some? && obj2.None? ==> !ShallowCompare(obj1, obj2, exceptions)
    ensures obj1.Some? && obj2.Some? ==>
      (ShallowCompare(obj1, obj2, exceptions) <==>
        |obj1.value| == |obj2.value| && AgreesOn(obj1.value, obj2.value, exceptions))
  {
    if obj1.Some? && obj2.Some? {
      CompareFromMeaning(obj1.value, obj2.value, exceptions);
    }
  }

  /** Objects with different numbers of keys are never equal, even when the
      extra keys are excepted. */
  lemma SizesMustMatch<V>(obj1: Obj<V>, obj2: Obj<V>, exceptions: Option<seq<string>>)
    requires |obj1| != |obj2|
    ensures !ShallowCompare(Some(obj1), Some(obj2), exceptions)
  {
  }

  function KeySet<V>(o: Obj<V>): set<string> {
    set i | 0 <= i < |o| :: o[i].key
  }

  lemma {:induction false} KeySetSize<V>(o: Obj<V>)
    requires DistinctKeys(o)
    ensures |KeySet(o)| == |o|
  {
    if o != [] {
      assert DistinctKeys(o[1..]) by {
        forall i, j | 0 <= i < j < |o[1..]| ensures o[1..][i].key != o[1..][j].key {
          assert o[1..][i] == o[i + 1] && o[1..][j] == o[j + 1];
        }
      }
      KeySetSize(o[1..]);
      assert KeySet(o) == {o[0].key} + KeySet(o[1..]) by {
        forall k | k in KeySet(o) ensures k in {o[0].key} + KeySet(o[1..]) {
          var i :| 0 <= i < |o| && o[i].key == k;
          if i > 0 { assert o[1..][i - 1] == o[i]; }
        }
        forall k | k in KeySet(o[1..]) ensures k in KeySet(o) {
          var i :| 0 <= i < |o[1..]| && o[1..][i].key == k;
          assert o[i + 1].key == k;
        }
      }
      assert o[0].key !in KeySet(o[1..]) by {
        forall i | 0 <= i < |o[1..]| ensures o[1..][i].key != o[0].key {
          assert o[1..][i] == o[i + 1];
        }
      }
    }
  }

  lemma {:induction false} LookupAt<V>(o: Obj<V>, i: nat)
    requires DistinctKeys(o) && i < |o|
    ensures Has(o, o[i].key) && Lookup(o, o[i].key) == o[i].value
  {
    if i > 0 {
      assert DistinctKeys(o[1..]) by {
        forall a, b | 0 <= a < b < |o[1..]| ensures o[1..][a].key != o[1..][b].key {
          assert o[1..][a] == o[a + 1] && o[1..][b] == o[b + 1];
        }
      }
      LookupAt(o[1..], i - 1);
      assert o[1..][i - 1] == o[i];
    }
  }

  lemma {:induction false} SubsetOfSameSize<T>(a: set<T>, b: set<T>)
    requires a <= b && |a| == |b|
    ensures a == b
    decreases |a|
  {
    if a != {} {
      var x :| x in a;
      assert |b - {x}| == |b| - 1;
      SubsetOfSameSize(a - {x}, b - {x});
      assert a == (a - {x}) + {x} && b == (b - {x}) + {x};
    } else {
      assert |b| == 0;
    }
  }

  lemma {:induction false} AgreesBack<V>(a: Obj<V>, b: Obj<V>)
    requires DistinctKeys(a) && DistinctKeys(b) && |a| == |b|
    requires AgreesOn(a, b, None)
    ensures AgreesOn(b, a, None)
  {
    KeySetSize(a);
    KeySetSize(b);
    assert KeySet(a) <= KeySet(b) by {
      forall k | k in KeySet(a) ensures k in KeySet(b) {
        var i :| 0 <= i < |a| && a[i].key == k;
        assert Has(b, k);
        var j :| 0 <= j < |b| && b[j].key == k;
      }
    }
    SubsetOfSameSize(KeySet(a), KeySet(b));
    forall j | 0 <= j < |b| ensures Has(a, b[j].key) && Lookup(a, b[j].key) == b[j].value {
      assert b[j].key in KeySet(a);
      var i :| 0 <= i < |a| && a[i].key == b[j].key;
      LookupAt(a, i);
      LookupAt(b, j);
    }
  }

  /** Without exceptions the comparison is symmetric. */
  lemma ShallowCompareSymmetric<V>(obj1: Option<Obj<V>>, obj2: Option<Obj<V>>)
    requires obj1.Some? ==> DistinctKeys(obj1.value)
    requires obj2.Some? ==> DistinctKeys(obj2.value)
    ensures ShallowCompare(obj1, obj2, None) == ShallowCompare(obj2, obj1, None)
  {
    ShallowCompareMeaning(obj1, obj2, None);
    ShallowCompareMeaning(obj2, obj1, None);
    if obj1.Some? && obj2.Some? && |obj1.value| == |obj2.value| {
      if AgreesOn(obj1.value, obj2.value, None) {
        AgreesBack(obj1.value, obj2.value);
      }
      if AgreesOn(obj2.value, obj1.value, None) {
        AgreesBack(obj2.value, obj1.value);
      }
    }
  }
}
