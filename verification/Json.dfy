/** Decoded JSON and YAML values, as the pack domain handles them. */
module Json {
  import opened Wrappers

  /** Num is a finite float64, which is a real number; Int is an int64. */
  datatype Value =
    | Null
    | Bool(b: bool)
    | Int(i: int)
    | Num(x: real)
    | Str(s: string)
    | List(items: seq<Value>)
    | Obj(fields: map<string, Value>)

  /** `sub` is v, or is somewhere inside it. */
  ghost predicate Within(v: Value, sub: Value)
    decreases v
  {
    || v == sub
    || match v
       case List(items) => exists i :: 0 <= i < |items| && Within(items[i], sub)
       case Obj(fields) => exists key :: key in fields && Within(fields[key], sub)
       case _ => false
  }

  /** What the mapping keys of `path` lead to. */
  function At(v: Value, path: seq<string>): Option<Value> {
    if path == [] then Some(v)
    else if v.Obj? && path[0] in v.fields then At(v.fields[path[0]], path[1..])
    else None
  }
}
