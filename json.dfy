/**
 * A JSON value as Go's `encoding/json` builds it before writing it out: an
 * object is a map from keys to values (the order in which keys are written
 * is not modelled).
 */
module JsonTree {
  datatype Json =
    | JNull
    | JBool(b: bool)
    | JInt(n: int)
    | JString(s: string)
    | JArray(items: seq<Json>)
    | JObject(fields: map<string, Json>)
}
