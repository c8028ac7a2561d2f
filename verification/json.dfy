/** Decoded JSON, as a generic decoder into untyped values hands it over.

    The helpers only ever ask three questions of a value: is it a string, an
    array, or an object. Numbers, booleans and null are never inspected, so
    they share the single case `JOther`.
 */
module Json {

  datatype Json =
    | JString(str: string)
    | JArray(elems: seq<Json>)
    | JObject(fields: Record)
    | JOther

  /** A decoded JSON object whose values have not been inspected yet. */
  type Record = map<string, Json>

  datatype Option<+T> = None | Some(value: T)

  /** The checked string assertion on an object field: a value exactly when
      the key is present and holds a string. An absent key and a key holding
      any other kind of value look the same to the caller. */
  function StringAt(rec: Record, key: string): (r: Option<string>)
    ensures r.Some? <==> key in rec && rec[key].JString?
    ensures r.Some? ==> rec[key] == JString(r.value)
  {
    if key in rec && rec[key].JString? then Some(rec[key].str) else None
  }
}
