/** A decoded JSON value, as Go's `json.Unmarshal` produces it into `interface{}`:
    `nil`, `string`, `float64`, `bool`, `[]interface{}` and `map[string]interface{}`. */
module Json {

  datatype J =
    | JNull
    | JStr(s: string)
    | JNum(n: real)
    | JBool(b: bool)
    | JArr(elems: seq<J>)
    | JObj(fields: map<string, J>)

  /** The object stored under `key`, when `m` has one there (Go's `m[key].(map[string]interface{})`). */
  predicate HasObject(m: map<string, J>, key: string) {
    key in m && m[key].JObj?
  }
}
