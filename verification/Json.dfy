/** Parsed JSON values. Objects keep their fields in document order, as Python dictionaries do. */
module Json {

  datatype Option<+T> = None | Some(value: T)

  datatype Json =
    | Null
    | Bool(b: bool)
    | Number(n: real)
    | Str(s: string)
    | Arr(items: seq<Json>)
    | Obj(fields: seq<Field>)

  datatype Field = Field(key: string, value: Json)

  /** `fields.get(key)`. */
  function Get(fields: seq<Field>, key: string): (r: Option<Json>)
    ensures r.Some? <==> exists f <- fields :: f.key == key
    ensures r.Some? ==> exists f <- fields :: f.key == key && f.value == r.value
  {
    if fields == [] then None
    else if fields[0].key == key then Some(fields[0].value)
    else
      assert fields == [fields[0]] + fields[1..];
      Get(fields[1..], key)
  }

  function Lookup(node: Json, key: string): (r: Option<Json>) {
    if node.Obj? then Get(node.fields, key) else None
  }

  /** The node reached from `node` by following object keys. */
  function Walk(node: Json, path: seq<string>): (r: Option<Json>)
    decreases |path|
  {
    if path == [] then Some(node)
    else
      var next := Lookup(node, path[0]);
      if next.None? then None else Walk(next.value, path[1..])
  }

  /** Python truthiness. */
  predicate Truthy(j: Json) {
    match j
    case Null => false
    case Bool(b) => b
    case Number(n) => n != 0.0
    case Str(s) => s != ""
    case Arr(items) => items != []
    case Obj(fields) => fields != []
  }
}
