/** JSON documents as values: what Jackson serialises the client's payloads to,
    and what it reads a response body into. Objects are unordered, as the
    Java `HashMap` and bean properties they come from are. */
module Json {

  /** A JSON number: an integral Java value (`int`, `long`) or a floating one. */
  datatype Number = Integral(i: int) | Floating(r: real)

  datatype Value =
    | JNull
    | JBool(b: bool)
    | JNum(n: Number)
    | JString(s: string)
    | JArray(items: seq<Value>)
    | JObject(fields: map<string, Value>)
}
