/** Parsed JSON values with finite numbers and strings of Unicode scalars, and
    Python's truthiness on them. */
module Json {

  /** A JSON value as Python holds it: `None`, `bool`, `int`, finite `float`,
      `str`, `list` and `dict`. */
  datatype Json =
    | JNull
    | JBool(b: bool)
    | JInt(i: int)
    | JFloat(f: real)
    | JStr(s: string)
    | JArr(items: seq<Json>)
    | JObj(fields: map<string, Json>)

  /** Python's `bool(x)`: empty containers, zero, `""`, `False` and `None` are falsy. */
  predicate Truthy(x: Json) {
    match x
    case JNull => false
    case JBool(b) => b
    case JInt(i) => i != 0
    case JFloat(f) => f != 0.0
    case JStr(s) => s != []
    case JArr(items) => items != []
    case JObj(fields) => fields != map[]
  }

  /** Python's `str(x)`. For a string it is the string itself; for any other
      value the rendering is supplied by `show`. */
  function PyStr(x: Json, show: Json -> string): string {
    if x.JStr? then x.s else show(x)
  }
}
