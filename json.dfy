/**
 * Decoded JSON values as the configuration and session files hold them,
 * with Python's truthiness and `dict.get` defaults.
 */
module Json {

  /** A decoded JSON document. Numbers are integers (see README). */
  datatype Json =
    | JNull
    | JBool(b: bool)
    | JNum(n: int)
    | JStr(s: string)
    | JArr(items: seq<Json>)
    | JObj(fields: map<string, Json>)

  /** Python's `bool(value)` for a decoded JSON value. */
  predicate Truthy(j: Json)
  {
    match j
    case JNull => false
    case JBool(b) => b
    case JNum(n) => n != 0
    case JStr(s) => s != ""
    case JArr(items) => items != []
    case JObj(fields) => fields != map[]
  }

  /** `d.get(key, default)`. */
  function Get(d: map<string, Json>, key: string, default: Json): (r: Json)
    ensures key in d ==> r == d[key]
    ensures key !in d ==> r == default
  {
    if key in d then d[key] else default
  }

  /** What reading a JSON file can give: absent, blank, undecodable, or a value. */
  datatype FileState = Missing | Blank | Malformed | Parsed(value: Json)
}
