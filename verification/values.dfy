/** The structured values a browser storage backend holds under each key. */
module Values {

  /** A JSON-like tree: what the backend stores and what callers hand to the store.
      Numbers are modelled as integers; their floating-point nature plays no role here. */
  datatype Value =
    | Null
    | Bool(b: bool)
    | Num(n: int)
    | Str(s: string)
    | List(items: seq<Value>)
    | Object(fields: map<string, Value>)
}
