/** JavaScript values as seen by code that walks plain data (`Object.entries`,
    `typeof`, truthiness). An array is an object whose keys are its indices,
    which is how `Object.entries` presents it. */
module JsonValue {
  import opened Wrappers

  datatype Json =
    | JNull
    | JBool(b: bool)
    | JNum(n: real)
    | JStr(s: string)
    | JObj(fields: seq<Field>)

  datatype Field = Field(key: string, value: Json)

  /** `!!v` (NaN is not modelled). */
  predicate Truthy(v: Json) {
    match v
    case JNull => false
    case JBool(b) => b
    case JNum(n) => n != 0.0
    case JStr(s) => s != ""
    case JObj(_) => true
  }

  /** `typeof v === 'object' && v`. */
  predicate IsObject(v: Json) {
    v.JObj?
  }

  /** `Object.keys(o)`. */
  function Keys(fields: seq<Field>): (ks: seq<string>)
    ensures |ks| == |fields|
    ensures forall i | 0 <= i < |fields| :: ks[i] == fields[i].key
  {
    if fields == [] then [] else [fields[0].key] + Keys(fields[1..])
  }

  /** An object never has two fields with the same key. */
  predicate DistinctKeys(fields: seq<Field>) {
    forall i, j | 0 <= i < j < |fields| :: fields[i].key != fields[j].key
  }

  /** `o[k]`, absent keys giving `None` (undefined). */
  function Get(fields: seq<Field>, k: string): (r: Option<Json>)
    ensures r.Some? <==> k in Keys(fields)
  {
    if fields == [] then None
    else if fields[0].key == k then Some(fields[0].value)
    else Get(fields[1..], k)
  }
}
