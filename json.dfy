/** JSON values as the validation tools and the site receive them from `json.loads` /
    `JSON.parse`. Integers and floats are kept apart because Python keeps them apart;
    a float may be NaN or infinite, which `json.loads` accepts. */
module Json {
  import opened Floats

  datatype Value =
    | Null
    | Bool(b: bool)
    | Int(i: int)
    | Float(x: Num)
    | Str(s: string)
    | List(items: seq<Value>)
    | Object(fields: map<string, Value>)

  /** Python's `type(v).__name__` for a decoded JSON value. */
  function TypeName(v: Value): (name: string)
    ensures name in {"NoneType", "bool", "int", "float", "str", "list", "dict"}
  {
    match v
    case Null => "NoneType"
    case Bool(_) => "bool"
    case Int(_) => "int"
    case Float(_) => "float"
    case Str(_) => "str"
    case List(_) => "list"
    case Object(_) => "dict"
  }
}
