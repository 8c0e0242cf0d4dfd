/** `extractReduxPersistState` (src/store/utils/extractReduxPersistState.ts):
    keeps, at every depth, only the `_persist` entries of the store state and
    the objects on the way to them. */
module PersistState {
  import opened JsonValue
  import Seqs

  const PersistKey: string := "_persist"

  /** The extraction of an object given by its entries. */
  function Extract(fields: seq<Field>): (r: seq<Field>)
    ensures |r| <= |fields|
  {
    if fields == [] then []
    else
      var f := fields[0];
      var rest := Extract(fields[1..]);
      if f.key == PersistKey then [f] + rest
      else if f.value.JObj? then
        var inner := Extract(f.value.fields);
        if |inner| > 0 then [Field(f.key, JObj(inner))] + rest else rest
      else rest
  }

  /** `_persist` entries are kept as they are, and object entries whose own
      extraction is not empty are kept with that extraction. */
  lemma {:induction false} ExtractKeeps(fields: seq<Field>, i: nat)
    requires i < |fields|
    ensures fields[i].key == PersistKey ==> fields[i] in Extract(fields)
    ensures fields[i].key != PersistKey && fields[i].value.JObj? && |Extract(fields[i].value.fields)| > 0 ==>
      Field(fields[i].key, JObj(Extract(fields[i].value.fields))) in Extract(fields)
  {
    if i > 0 {
      ExtractKeeps(fields[1..], i - 1);
    }
  }

  /** In an object (distinct keys), an entry that is neither `_persist` nor an
      object with a non-empty extraction leaves no trace in the result. */
  lemma {:induction false} ExtractDrops(fields: seq<Field>, i: nat)
    requires i < |fields| && DistinctKeys(fields)
    requires fields[i].key != PersistKey
    requires !fields[i].value.JObj? || |Extract(fields[i].value.fields)| == 0
    ensures fields[i].key !in Keys(Extract(fields))
  {
    var k := fields[i].key;
    if i > 0 {
      assert DistinctKeys(fields[1..]) by {
        forall a, b | 0 <= a < b < |fields[1..]| ensures fields[1..][a].key != fields[1..][b].key {
          assert fields[1..][a] == fields[a + 1] && fields[1..][b] == fields[b + 1];
        }
      }
      ExtractDrops(fields[1..], i - 1);
      assert fields[0].key != k;
    } else {
      var rest := Extract(fields[1..]);
      forall n | 0 <= n < |rest| ensures Keys(rest)[n] != k {
        KeyOfExtracted(fields[1..], rest[n]);
        var j' :| 0 <= j' < |fields[1..]| && fields[1..][j'].key == rest[n].key;
        assert fields[j' + 1].key == rest[n].key;
      }
    }
  }

  /** Every kept entry comes from an input entry with the same key. */
  lemma {:induction false} KeyOfExtracted(fields: seq<Field>, g: Field)
    requires g in Extract(fields)
    ensures exists j | 0 <= j < |fields| :: fields[j].key == g.key
  {
    if fields != [] {
      if g in Extract(fields[1..]) {
        KeyOfExtracted(fields[1..], g);
        var j' :| 0 <= j' < |fields[1..]| && fields[1..][j'].key == g.key;
        assert fields[j' + 1].key == g.key;
      } else {
        assert fields[0].key == g.key;
      }
    }
  }

  /** The result's keys are some of the input's keys, in input order. */
  lemma {:induction false} ExtractKeysSubsequence(fields: seq<Field>)
    ensures Seqs.Subsequence(Keys(Extract(fields)), Keys(fields))
  {
    if fields != [] {
      ExtractKeysSubsequence(fields[1..]);
      var r := Extract(fields);
      var rest := Extract(fields[1..]);
      assert Keys(fields)[1..] == Keys(fields[1..]);
      if r == rest {
        Seqs.SubsequenceOfTail(Keys(r), Keys(fields));
      } else {
        assert Keys(r)[0] == fields[0].key;
        assert Keys(r)[1..] == Keys(rest);
      }
    }
  }

  /** No `_persist` key at any depth. */
  predicate NoPersist(fields: seq<Field>) {
    forall i | 0 <= i < |fields| ::
      fields[i].key != PersistKey && (fields[i].value.JObj? ==> NoPersist(fields[i].value.fields))
  }

  /** A tree without `_persist` extracts to an empty object. */
  lemma {:induction false} ExtractWithoutPersistIsEmpty(fields: seq<Field>)
    requires NoPersist(fields)
    ensures Extract(fields) == []
  {
    if fields != [] {
      assert fields[0] in fields;
      var f := fields[0];
      if f.value.JObj? {
        assert NoPersist(f.value.fields);
        ExtractWithoutPersistIsEmpty(f.value.fields);
      }
      assert NoPersist(fields[1..]) by {
        forall i | 0 <= i < |fields[1..]|
          ensures fields[1..][i].key != PersistKey
          ensures fields[1..][i].value.JObj? ==> NoPersist(fields[1..][i].value.fields)
        {
          assert fields[1..][i] == fields[i + 1];
        }
      }
      ExtractWithoutPersistIsEmpty(fields[1..]);
    }
  }

  /** Extracting again changes nothing. */
  lemma {:induction false} ExtractIdempotent(fields: seq<Field>)
    ensures Extract(Extract(fields)) == Extract(fields)
  {
    if fields != [] {
      var f := fields[0];
      ExtractIdempotent(fields[1..]);
      if f.key != PersistKey && f.value.JObj? {
        ExtractIdempotent(f.value.fields);
      }
    }
  }
}
