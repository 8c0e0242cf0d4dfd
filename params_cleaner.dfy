/** `paramsCleaner` (src/utils/paramsCleaner.ts): the query-string serialiser
    of the API clients. `isSafe` (src/utils/safety.ts) is not part of this
    model and is a parameter, as are `encodeURIComponent`, `JSON.stringify`
    and template-string conversion. */
module ParamsCleaner {
  import opened Text

  /** A parameter value. `Object` is any value whose `typeof` is 'object'
      (arrays included) other than null; `Scalar` is any other value. */
  datatype Value = Null | Undefined | Str(s: string) | Object(id: nat) | Scalar(id: nat)

  /** The parameters, as a record or as a list of pairs. */
  datatype Params = Record(entries: seq<(string, Value)>) | Pairs(pairs: seq<(string, Value)>)

  /** `Array.isArray(params) ? params : Object.entries(params)`: a record is
      given by its entries in `Object.entries` order. */
  function EntriesOf(params: Params): seq<(string, Value)> {
    match params
    case Record(entries) => entries
    case Pairs(pairs) => pairs
  }

  /** Template-string conversion of what `stringValue` holds. */
  function ValueText(v: Value, toText: Value -> string): string {
    match v
    case Undefined => "undefined"
    case Str(s) => s
    case _ => toText(v)
  }

  /** `stringValue` for one entry value. */
  function StringValue(v: Value, isSafe: Value -> bool, toText: Value -> string,
                       stringify: Value -> string): Value
  {
    if v == Null then Undefined
    else if v.Object? then Str(stringify(v))
    else if isSafe(v) then Str(ValueText(v, toText))
    else Undefined
  }

  /** The `flatMap` step: the kept pairs, in input order. */
  function Clean(entries: seq<(string, Value)>, isSafe: Value -> bool, toText: Value -> string,
                 stringify: Value -> string): (r: seq<(string, string)>)
    ensures |r| <= |entries|
  {
    if entries == [] then []
    else
      var sv := StringValue(entries[0].1, isSafe, toText, stringify);
      var rest := Clean(entries[1..], isSafe, toText, stringify);
      if isSafe(sv) then [(entries[0].0, ValueText(sv, toText))] + rest else rest
  }

  /** `k=v` for each kept pair, both sides encoded. */
  function Serialize(pairs: seq<(string, string)>, esc: string -> string): (r: seq<string>)
    ensures |r| == |pairs|
    ensures forall i | 0 <= i < |pairs| :: r[i] == esc(pairs[i].0) + "=" + esc(pairs[i].1)
  {
    if pairs == [] then [] else [esc(pairs[0].0) + "=" + esc(pairs[0].1)] + Serialize(pairs[1..], esc)
  }

  /** `paramsCleaner(params)`. */
  function ParamsCleaner(params: Params, isSafe: Value -> bool, toText: Value -> string,
                         stringify: Value -> string, esc: string -> string): string
  {
    Join(Serialize(Clean(EntriesOf(params), isSafe, toText, stringify), esc), '&')
  }

  /** Cleaning works entry by entry: the output for a concatenation is the
      concatenation of the outputs, so kept pairs stay in input order. */
  lemma {:induction false} CleanAppend(a: seq<(string, Value)>, b: seq<(string, Value)>,
                                       isSafe: Value -> bool, toText: Value -> string, stringify: Value -> string)
    ensures Clean(a + b, isSafe, toText, stringify) == Clean(a, isSafe, toText, stringify) + Clean(b, isSafe, toText, stringify)
  {
    if a != [] {
      assert (a + b)[1..] == a[1..] + b;
      CleanAppend(a[1..], b, isSafe, toText, stringify);
    } else {
      assert a + b == b;
    }
  }

  /** A null value yields no pair when `isSafe` rejects undefined; an object
      yields its JSON text when `isSafe` accepts strings. */
  lemma CleanOneEntry(k: string, v: Value, isSafe: Value -> bool, toText: Value -> string, stringify: Value -> string)
    ensures v == Null && !isSafe(Undefined) ==> Clean([(k, v)], isSafe, toText, stringify) == []
    ensures v.Object? && isSafe(Str(stringify(v))) ==> Clean([(k, v)], isSafe, toText, stringify) == [(k, stringify(v))]
    ensures v.Scalar? && isSafe(v) && isSafe(Str(toText(v))) ==> Clean([(k, v)], isSafe, toText, stringify) == [(k, toText(v))]
    ensures v.Scalar? && !isSafe(v) && !isSafe(Undefined) ==> Clean([(k, v)], isSafe, toText, stringify) == []
  {
  }

  /** With no surviving entry the query string is empty. */
  lemma EmptyWhenNothingKept(params: Params, isSafe: Value -> bool, toText: Value -> string,
                             stringify: Value -> string, esc: string -> string)
    requires Clean(EntriesOf(params), isSafe, toText, stringify) == []
    ensures ParamsCleaner(params, isSafe, toText, stringify, esc) == ""
  {
  }

  /** A record and a list of pairs with the same entries serialise alike. */
  lemma RecordAndPairsAgree(entries: seq<(string, Value)>, isSafe: Value -> bool, toText: Value -> string,
                            stringify: Value -> string, esc: string -> string)
    ensures ParamsCleaner(Record(entries), isSafe, toText, stringify, esc)
         == ParamsCleaner(Pairs(entries), isSafe, toText, stringify, esc)
  {
  }

  /** Because the encoder never produces `&` or `=`, splitting the output on
      `&` and each piece on `=` recovers exactly the encoded kept pairs. */
  lemma SplitRecoversPairs(params: Params, isSafe: Value -> bool, toText: Value -> string,
                           stringify: Value -> string, esc: string -> string)
    requires forall s :: '&' !in esc(s) && '=' !in esc(s)
    requires Clean(EntriesOf(params), isSafe, toText, stringify) != []
    ensures var kept := Clean(EntriesOf(params), isSafe, toText, stringify);
            var pieces := Split(ParamsCleaner(params, isSafe, toText, stringify, esc), '&');
            |pieces| == |kept| &&
            forall i | 0 <= i < |kept| :: Split(pieces[i], '=') == [esc(kept[i].0), esc(kept[i].1)]
  {
    var kept := Clean(EntriesOf(params), isSafe, toText, stringify);
    var parts := Serialize(kept, esc);
    forall p | p in parts ensures '&' !in p {
      var i :| 0 <= i < |parts| && parts[i] == p;
      assert p == esc(kept[i].0) + "=" + esc(kept[i].1);
    }
    SplitJoin(parts, '&');
    forall i | 0 <= i < |kept| ensures Split(parts[i], '=') == [esc(kept[i].0), esc(kept[i].1)] {
      SplitConcat(esc(kept[i].0), esc(kept[i].1), '=');
      SplitNoSeparator(esc(kept[i].1), '=');
    }
  }
}
