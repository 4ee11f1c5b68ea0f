/**
 * The values `JSON.parse` can produce (RFC 8259), and the two pieces of
 * JavaScript semantics the gift pipeline applies to them: truthiness and
 * property access.
 */
module Json {

  /** A parsed JSON value. An object is a map: `JSON.parse` keeps the last
      of duplicate keys, so a key has one value. Numbers are the parser's
      finite (already rounded) double values, taken as reals; the infinities
      an out-of-range literal parses to are not represented. */
  datatype JsonValue =
    | JNull
    | JBool(b: bool)
    | JNumber(n: real)
    | JString(s: string)
    | JArray(elems: seq<JsonValue>)
    | JObject(fields: map<string, JsonValue>)

  /** JavaScript truthiness of a JSON value: `null`, `false`, `0`/`-0` and
      `""` are falsy; every array and object is truthy (even empty ones). */
  predicate Truthy(v: JsonValue)
  {
    match v
    case JNull => false
    case JBool(b) => b
    case JNumber(n) => n != 0.0
    case JString(s) => s != ""
    case JArray(_) => true
    case JObject(_) => true
  }

  /** The outcome of evaluating `v.key` in JavaScript. */
  datatype Access = TypeError | Undefined | Found(value: JsonValue)

  /** `v.key` for a key that no built-in prototype defines (the gift fields
      `name`, `description`, `reason`, `priceRange` are such keys):
      reading a property of `null` throws a TypeError, an object yields its
      own field or `undefined`, and every other value yields `undefined`. */
  function Get(v: JsonValue, key: string): (r: Access)
    ensures r.TypeError? <==> v.JNull?
    ensures r.Found? <==> v.JObject? && key in v.fields
    ensures r.Found? ==> r.value == v.fields[key]
  {
    match v
    case JNull => TypeError
    case JObject(m) => if key in m then Found(m[key]) else Undefined
    case _ => Undefined
  }

  /** Truthiness of the result of a property read that did not throw. */
  predicate AccessTruthy(a: Access)
  {
    a.Found? && Truthy(a.value)
  }
}
