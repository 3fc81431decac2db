/**
 * An already-decoded JSON value, as `encoding/json` hands it to the bot in
 * an `interface{}`: `nil`, `bool`, `float64`, `string`, `[]interface{}` or
 * `map[string]interface{}`.
 */
module JsonValue {
  datatype Json =
    | JNull
    | JBool(b: bool)
    | JNum(n: real)      // a float64; the bot never looks at numbers
    | JStr(s: string)
    | JArr(items: seq<Json>)
    | JObj(fields: map<string, Json>)

  /** The string stored under `key`, or "" when the key is missing or holds
      something else: Go's `v, _ := m[key].(string)`. */
  function StringOr(fields: map<string, Json>, key: string): string
  {
    if key in fields && fields[key].JStr? then fields[key].s else ""
  }
}
