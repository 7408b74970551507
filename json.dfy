/** The closed JSON value type that both platforms' dynamic values are modelled by
    (string, number, boolean, null, array, object), with the small wrappers the
    decoders return. Numbers are integers here; floating point is not modelled. */
module Json {

  datatype Option<+T> = None | Some(value: T) {
    function GetOr(default: T): T {
      match this
      case Some(v) => v
      case None => default
    }
  }

  /** A decoder either yields a value or fails, as the Kotlin getters do when they throw. */
  datatype Result<+T> = Ok(value: T) | Err(reason: string)

  datatype Json =
    | JNull
    | JBool(b: bool)
    | JNum(n: int)
    | JStr(s: string)
    | JArr(items: seq<Json>)
    | JObj(fields: map<string, Json>)

  /** The member `key` of an object, if it is an object that has it. */
  function Field(j: Json, key: string): (r: Option<Json>)
    ensures r.Some? <==> j.JObj? && key in j.fields
    ensures r.Some? ==> r.value == j.fields[key]
  {
    if j.JObj? && key in j.fields then Some(j.fields[key]) else None
  }

  /** org.json `has`: the key is present (a JSON null counts as present). */
  predicate Has(j: Json, key: string) {
    j.JObj? && key in j.fields
  }
}
