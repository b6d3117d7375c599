/** The values `json.load` produces from a gallery or `info.json` file. */
module Json {

  /** A parsed JSON document. Numbers are kept as integers. */
  datatype Json =
    | JNull
    | JBool(b: bool)
    | JNum(n: int)
    | JStr(s: string)
    | JArr(items: seq<Json>)
    | JObj(fields: map<string, Json>)

  /** Python's truth value of the object `json.load` builds for `v`. */
  predicate Truthy(v: Json)
    ensures Truthy(v) <==> v !in [JNull, JBool(false), JNum(0), JStr(""), JArr([]), JObj(map[])]
  {
    match v
    case JNull => false
    case JBool(b) => b
    case JNum(n) => n != 0
    case JStr(s) => s != ""
    case JArr(items) => items != []
    case JObj(fields) => fields != map[]
  }
}
