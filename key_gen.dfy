/** `createKeyGen` (src/utils/keyGen.ts): stable React keys for objects,
    handed out from a counter and remembered per object identity, with
    primitives rendered by a pluggable function. */
module KeyGen {
  import opened Wrappers
  import opened Text

  /** The values `getKey` can receive. Objects and functions are known only
      by their identity. */
  datatype Value =
    | Undefined
    | Null
    | Bool(b: bool)
    | Num(n: int)
    | Str(s: string)
    | Obj(id: nat)

  /** `!value || !['object', 'function'].includes(typeof value)`: every value
      except a (truthy) object or function. `null` is falsy, so it counts. */
  predicate IsPrimitive(v: Value) {
    !v.Obj?
  }

  /** The `TypeError` of calling `toString` on `null`. */
  datatype KeyError = NullToString

  /** `defaultPrimitiveToKey`: `undefined` has no key, `null` throws, the
      others render with `toString`. */
  function DefaultPrimitiveToKey(v: Value): (r: Result<Option<string>, KeyError>)
    requires IsPrimitive(v)
    ensures r.Err? <==> v == Null
    ensures r == Ok(None) <==> v == Undefined
    ensures v.Str? ==> r == Ok(Some(v.s))
  {
    match v
    case Undefined => Ok(None)
    case Null => Err(NullToString)
    case Bool(b) => Ok(Some(if b then "true" else "false"))
    case Num(n) => Ok(Some(IntToString(n)))
    case Str(s) => Ok(Some(s))
  }

  /** `defaultPrimitiveToKey` as the total renderer the generator holds.
      `getKey` only passes it primitives; an object, which it never sees,
      gets no key. */
  function DefaultKey(v: Value): (r: Result<Option<string>, KeyError>)
    ensures IsPrimitive(v) ==> r == DefaultPrimitiveToKey(v)
    ensures r.Err? <==> v == Null
    ensures r == Ok(None) <==> v == Undefined || v.Obj?
  {
    if IsPrimitive(v) then DefaultPrimitiveToKey(v) else Ok(None)
  }

  /** The default `keyBaseName`. */
  const DefaultKeyBaseName: string := "keyGen_"

  /** The key handed out for the `n`-th new object. */
  function KeyFor(keyBaseName: string, n: nat): string {
    keyBaseName + NatToString(n)
  }

  /** Different counter values give different keys. */
  lemma KeyForInjective(keyBaseName: string, m: nat, n: nat)
    requires KeyFor(keyBaseName, m) == KeyFor(keyBaseName, n)
    ensures m == n
  {
    var a, b := KeyFor(keyBaseName, m), KeyFor(keyBaseName, n);
    assert a[|keyBaseName|..] == NatToString(m);
    assert b[|keyBaseName|..] == NatToString(n);
    NatToStringInjective(m, n);
  }

  /** One key generator: the object-to-key map, the counter of the inner
      `getUniqueKey` closure, and the two options. */
  class KeyGenerator {
    var keysMap: map<nat, string>
    var cpt: int
    const keyBaseName: string
    const primitiveToKey: Value -> Result<Option<string>, KeyError>
    /** Which counter value each remembered object received. */
    ghost var issued: map<nat, nat>

    ghost predicate Valid()
      reads this
    {
      && cpt >= -1
      && issued.Keys == keysMap.Keys
      && (forall id | id in issued :: issued[id] <= cpt && keysMap[id] == KeyFor(keyBaseName, issued[id]))
      && (forall a, b | a in issued && b in issued && a != b :: issued[a] != issued[b])
    }

    /** `createKeyGen({keyBaseName, primitiveToKey})`. */
    constructor (keyBaseName: string, primitiveToKey: Value -> Result<Option<string>, KeyError>)
      ensures Valid()
      ensures keysMap == map[] && cpt == -1
      ensures this.keyBaseName == keyBaseName && this.primitiveToKey == primitiveToKey
    {
      keysMap := map[];
      cpt := -1;
      this.keyBaseName := keyBaseName;
      this.primitiveToKey := primitiveToKey;
      issued := map[];
    }

    /** `getUniqueKey()`: bump the counter and render it. */
    method GetUniqueKey() returns (key: string)
      modifies this`cpt
      ensures cpt == old(cpt) + 1
      ensures key == keyBaseName + IntToString(cpt)
      ensures cpt >= 0 ==> key == KeyFor(keyBaseName, cpt)
    {
      cpt := cpt + 1;
      key := keyBaseName + IntToString(cpt);
    }

    /** `getKey(value)`. */
    method GetKey(v: Value) returns (r: Result<Option<string>, KeyError>)
      requires Valid()
      modifies this`keysMap, this`cpt, this`issued
      ensures Valid()
      ensures IsPrimitive(v) ==> r == primitiveToKey(v) && keysMap == old(keysMap) && cpt == old(cpt)
      ensures v.Obj? && v.id in old(keysMap) ==>
        r == Ok(Some(old(keysMap)[v.id])) && keysMap == old(keysMap) && cpt == old(cpt)
      ensures v.Obj? && v.id !in old(keysMap) ==>
        && cpt == old(cpt) + 1
        && r == Ok(Some(KeyFor(keyBaseName, cpt)))
        && keysMap == old(keysMap)[v.id := KeyFor(keyBaseName, cpt)]
    {
      if IsPrimitive(v) {
        return primitiveToKey(v);
      }
      if v.id in keysMap {
        assert |NatToString(issued[v.id])| >= 1;
      }
      if v.id in keysMap && keysMap[v.id] != "" {
        return Ok(Some(keysMap[v.id]));
      }
      var newKey := GetUniqueKey();
      keysMap := keysMap[v.id := newKey];
      issued := issued[v.id := cpt];
      return Ok(Some(newKey));
    }
  }

  /** `createKeyGen()` with no options: the base name `keyGen_` and the
      default renderer. */
  method CreateDefaultKeyGen() returns (g: KeyGenerator)
    ensures fresh(g) && g.Valid()
    ensures g.keysMap == map[] && g.cpt == -1
    ensures g.keyBaseName == DefaultKeyBaseName && g.primitiveToKey == DefaultKey
  {
    g := new KeyGenerator(DefaultKeyBaseName, DefaultKey);
  }

  /** A valid generator never gives two objects the same key. */
  lemma DistinctObjectsDistinctKeys(g: KeyGenerator, a: nat, b: nat)
    requires g.Valid()
    requires a in g.keysMap && b in g.keysMap && a != b
    ensures g.keysMap[a] != g.keysMap[b]
  {
    if g.keysMap[a] == g.keysMap[b] {
      KeyForInjective(g.keyBaseName, g.issued[a], g.issued[b]);
    }
  }

  /** Keys are never empty, so the truthiness test on a remembered key
      always passes. */
  lemma RememberedKeyNonEmpty(g: KeyGenerator, id: nat)
    requires g.Valid() && id in g.keysMap
    ensures g.keysMap[id] != ""
  {
    assert |NatToString(g.issued[id])| >= 1;
  }
}
