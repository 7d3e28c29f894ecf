/** Request bodies as Express's JSON body parser hands them to a handler. */
module Json {

  /** A parsed JSON value. A number is the real its literal denotes; the rounding to a double, and the `Infinity` that an out-of-range literal parses to, are not modelled. */
  datatype Value =
    | JString(s: string)
    | JNumber(n: real)
    | JBool(b: bool)
    | JNull
    | JArray(items: seq<Value>)
    | JObject(members: map<string, Value>)

  /** `req.body`: the keys of the request object and their values. */
  type Body = map<string, Value>

  /** JavaScript truthiness of a parsed JSON value: "", 0, false and null are falsy. */
  predicate Truthy(v: Value)
  {
    match v
    case JString(s) => s != ""
    case JNumber(n) => n != 0.0
    case JBool(b) => b
    case JNull => false
    case JArray(_) => true
    case JObject(_) => true
  }

  /** The string stored under `key`, or "" when the key is absent or holds no string. */
  function StringAt(body: Body, key: string): string
  {
    if key in body && body[key].JString? then body[key].s else ""
  }
}
