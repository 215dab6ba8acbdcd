/** Decoded JSON values and the few Python operations the modelled code
    applies to them: truthiness, `x["key"]` and `for item in x`. */
module Json {
  import opened Wrappers
  import Dicts

  /** An object is a dict (Dicts.Dict): keys in document order. The type does
      not exclude a repeated key; `Subscript` then takes the first binding, where
      `json.loads` keeps the last. Numbers are integers; the modelled code never
      inspects a fractional one. */
  datatype Json =
    | Null
    | Bool(b: bool)
    | Number(n: int)
    | Str(s: string)
    | Array(items: seq<Json>)
    | Object(fields: Dicts.Dict<Json>)

  /** `bool(x)`: `None`, `False`, `0`, `""`, `[]` and `{}` are falsy. */
  predicate Truthy(j: Json)
  {
    match j
    case Null => false
    case Bool(b) => b
    case Number(n) => n != 0
    case Str(s) => s != ""
    case Array(items) => items != []
    case Object(fields) => fields != []
  }

  /** `x[key]` with a string key. */
  function Subscript(j: Json, key: string): (r: Result<Json>)
    ensures r.Ok? <==> j.Object? && key in Dicts.Keys(j.fields)
    ensures r.Raised? ==> r.error == (if j.Object? then KeyError(key) else TypeError)
    ensures r.Ok? ==> (key, r.value) in j.fields
  {
    match j
    case Object(fields) =>
      (match Dicts.Get(fields, key)
       case Some(v) => Ok(v)
       case None => Raised(KeyError(key)))
    case _ => Raised(TypeError)
  }

  /** The items `for item in x` visits: a list's elements, a dict's keys, a
      string's characters; `None`, booleans and numbers are not iterable. */
  function Iterate(j: Json): (r: Result<seq<Json>>)
    ensures r.Raised? <==> j.Null? || j.Bool? || j.Number?
    ensures j.Array? ==> r == Ok(j.items)
    ensures j.Object? ==>
      r.Ok? && |r.value| == |j.fields| && forall i :: 0 <= i < |j.fields| ==> r.value[i] == Str(j.fields[i].0)
    ensures j.Str? ==>
      r.Ok? && |r.value| == |j.s| && forall i :: 0 <= i < |j.s| ==> r.value[i] == Str([j.s[i]])
  {
    match j
    case Array(items) => Ok(items)
    case Object(fields) => Ok(seq(|fields|, i requires 0 <= i < |fields| => Str(fields[i].0)))
    case Str(s) => Ok(seq(|s|, i requires 0 <= i < |s| => Str([s[i]])))
    case _ => Raised(TypeError)
  }
}
