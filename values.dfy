/** JavaScript values as the extensible stylesheet sees them: the leaves and
    plain objects of a style description, their truthiness, and paths into them. */
module Values {

  datatype Option<+T> = None | Some(value: T)

  /** A value that can sit in a style description. `Obj` is a plain object
      (the only kind of value that substitution and merging descend into);
      `Arr` is an array, kept whole; `Opaque` stands for any other non-plain
      object (a symbol, a function, a class instance, a registered handle). */
  datatype Value =
    | Str(s: string)
    | Num(n: real)
    | Bool(b: bool)
    | Null
    | Arr(items: seq<Value>)
    | Opaque(tag: nat)
    | Obj(fields: map<string, Value>)

  /** The own entries of a plain object: a style description, a variable
      table, a tree handed to the style registrar. */
  type Tree = map<string, Value>

  /** JavaScript truthiness: `''`, `0`, `false` and `null` are falsy, every
      object (plain or not, arrays included) is truthy. */
  predicate Truthy(v: Value) {
    match v
    case Str(s) => s != ""
    case Num(n) => n != 0.0
    case Bool(b) => b
    case Null => false
    case Arr(_) => true
    case Opaque(_) => true
    case Obj(_) => true
  }

  /** A top-level key that declares a variable: its first character is `$`. */
  predicate IsVariableName(key: string) {
    |key| > 0 && key[0] == '$'
  }

  /** The value reached from `v` by following `path` key by key through plain
      objects, or None when a key is missing or a non-object is met first. */
  function Lookup(v: Value, path: seq<string>): Option<Value>
    decreases |path|
  {
    if path == [] then Some(v)
    else if v.Obj? && path[0] in v.fields then Lookup(v.fields[path[0]], path[1..])
    else None
  }

  /** Following `path` from `v` meets a value that is not a plain object
      before the path is used up, so nothing can ever sit at `path`. */
  predicate Shadowed(v: Value, path: seq<string>)
    decreases |path|
  {
    path != [] && (!v.Obj? || (path[0] in v.fields && Shadowed(v.fields[path[0]], path[1..])))
  }
}
