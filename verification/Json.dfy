/** Parsed JSON, and how Python reads and compares it. */
module Json {

  datatype Json =
    | Null
    | Bool(b: bool)
    | Int(n: int)
    | Float(x: real)
    | Text(s: string)
    | List(items: seq<Json>)
    | Object(fields: map<string, Json>)

  /** `document.get(key)`, and nothing from what is not an object. */
  function Get(document: Json, key: string): Json {
    if document.Object? && key in document.fields then document.fields[key] else Null
  }

  /** Python's `==` against an integer: a flag and a float can equal one. */
  predicate EqualsInt(document: Json, n: int) {
    match document
    case Bool(b) => (if b then 1 else 0) == n
    case Int(m) => m == n
    case Float(x) => x == n as real
    case _ => false
  }
}
