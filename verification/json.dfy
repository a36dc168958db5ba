/** Parsed JSON values, as a request body, a response body or a `jsonb` column holds them. */
module Json {

  /** A JSON value. Numbers are kept as integers: nothing in the model looks at a fraction. */
  datatype Json =
    | JNull
    | JBool(b: bool)
    | JNumber(n: int)
    | JString(s: string)
    | JArray(items: seq<Json>)
    | JObject(fields: map<string, Json>)

  /** JavaScript truthiness of a value, as `x || fallback` and `if (x)` use it. */
  predicate Truthy(v: Json) {
    match v
    case JNull => false
    case JBool(b) => b
    case JNumber(n) => n != 0
    case JString(s) => s != ""
    case JArray(_) => true
    case JObject(_) => true
  }
}
