/** JavaScript values as the upload controller sees them: absent values
    (`null`/`undefined`), parsed JSON payloads, and the JavaScript
    truthiness of JSON values. The truthiness tests on strings and files
    elsewhere are written out where they occur. */
module Js {

  /** A value that may be `null`/`undefined` (None) or present (Some). */
  datatype Option<+T> = None | Some(value: T)

  /** A value produced by `JSON.parse`. Numbers are exact reals: JSON cannot
      spell NaN or an infinity, and only zero-ness matters here. */
  datatype Json =
    | JNull
    | JBool(b: bool)
    | JNumber(n: real)
    | JString(s: string)
    | JArray(items: seq<Json>)
    | JObject(fields: map<string, Json>)

  /** JavaScript truthiness of a JSON value. */
  predicate Truthy(v: Json) {
    match v
    case JNull => false
    case JBool(b) => b
    case JNumber(n) => n != 0.0
    case JString(s) => s != ""
    case JArray(_) => true
    case JObject(_) => true
  }

  /** The outcome of reading a property `v.key` of a parsed body, for a
      key (such as `error`) that no built-in or inherited property shares:
      reading a property of `null` throws a TypeError, and only an object
      holding the key has it. Built-in properties such as a string's
      `length` or an object's `toString` are not modelled. */
  datatype Property = Throws | Undefined | Defined(value: Json)

  function GetProperty(v: Json, key: string): (p: Property)
    ensures p.Throws? <==> v.JNull?
    ensures p.Defined? <==> v.JObject? && key in v.fields
    ensures p.Defined? ==> p.value == v.fields[key]
  {
    match v
    case JNull => Throws
    case JObject(fields) => if key in fields then Defined(fields[key]) else Undefined
    case _ => Undefined
  }
}
