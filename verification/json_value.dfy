/** A parsed JSON document, as the modelled code sees it after `json.loads` or `JSON.parse`. */
module JsonValue {
  import opened Wrappers

  /** Python's `json` tells integers and floats apart; JavaScript sees both as numbers. */
  datatype Json =
    | JNull
    | JBool(b: bool)
    | JInt(i: int)
    | JFloat(f: real)
    | JStr(s: string)
    | JArr(items: seq<Json>)
    | JObj(fields: map<string, Json>)

  /** What a storage read produced: nothing stored, text that did not parse, or a parsed value. */
  datatype Stored = Missing | Unparsable | Parsed(value: Json)

  /** Python's `dict.get(key)`. */
  function Get(m: map<string, Json>, key: string): Option<Json> {
    if key in m then Some(m[key]) else None
  }

  /** Python's truth value of a JSON-derived object (`bool(x)`), with `None` for an absent key. */
  predicate PyTruthy(v: Option<Json>) {
    match v
    case None => false
    case Some(JNull) => false
    case Some(JBool(b)) => b
    case Some(JInt(i)) => i != 0
    case Some(JFloat(f)) => f != 0.0
    case Some(JStr(s)) => |s| > 0
    case Some(JArr(a)) => |a| > 0
    case Some(JObj(m)) => |m| > 0
  }
}
