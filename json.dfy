/**
 * Decoded JSON values, as Python's `json` module hands them to the code:
 * `null` is Python's `None`, objects are dicts, arrays are lists.
 */
module Json {
  import opened Wrappers

  datatype Json =
    | JNull
    | JBool(b: bool)
    | JNum(n: real)
    | JStr(s: string)
    | JArr(items: seq<Json>)
    | JObj(fields: map<string, Json>)

  /** Python truthiness, `bool(x)`, of a decoded JSON value. */
  predicate Truthy(j: Json) {
    match j
    case JNull => false
    case JBool(b) => b
    case JNum(n) => n != 0.0
    case JStr(s) => s != ""
    case JArr(items) => items != []
    case JObj(fields) => fields != map[]
  }

  /** `d.get(key)`: the value stored under `key`, or `None` (JSON null) when absent. */
  function GetOrNull(fields: map<string, Json>, key: string): Json
  {
    if key in fields then fields[key] else JNull
  }

  /** A Python `Optional[str]` as a JSON value. */
  function OptStr(o: Option<string>): Json
  {
    match o
    case None => JNull
    case Some(s) => JStr(s)
  }
}
