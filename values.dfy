/** Values that cross the boundaries of the pipeline: optional configuration
    strings and the JSON documents the web layer and the generation service
    exchange (what Python's `json.loads` and `request.get_json()` produce). */
module Values {

  datatype Option<+T> = None | Some(value: T)

  /** Python truthiness of an optional string: `None` and `""` are false. */
  predicate Present(o: Option<string>) {
    o.Some? && o.value != []
  }

  datatype Json =
    | JNull
    | JBool(b: bool)
    | JInt(i: int)
    | JFloat(r: real)
    | JString(s: string)
    | JArray(items: seq<Json>)
    | JObject(fields: map<string, Json>)

  /** Python truthiness of a decoded JSON value (`if not data`, `x or y`). */
  predicate Truthy(j: Json) {
    match j
    case JNull => false
    case JBool(b) => b
    case JInt(i) => i != 0
    case JFloat(r) => r != 0.0
    case JString(s) => s != []
    case JArray(xs) => xs != []
    case JObject(f) => f != map[]
  }
}
