/** The values `json.load` produces and the Python operations the core applies to them:
    truth value, `key in v`, `v[key]`, `v.items()`, `==` against an int, and `str(v)`. */
module Json {
  import opened Wrappers
  import opened Text
  import opened Exceptions

  /** A decoded JSON value. An object keeps its keys in insertion order, as a Python dict does. */
  datatype Value =
    | Null
    | Bool(b: bool)
    | Int(i: int)
    | Float(f: real)
    | Str(s: string)
    | Array(items: seq<Value>)
    | Object(fields: seq<(string, Value)>)

  /** The keys of an object's fields, in order. */
  function Keys(fields: seq<(string, Value)>): (ks: seq<string>)
    ensures |ks| == |fields| && forall i :: 0 <= i < |fields| ==> ks[i] == fields[i].0
  {
    if fields == [] then [] else [fields[0].0] + Keys(fields[1..])
  }

  /** The value stored under `key` in an object's fields (the first such field). */
  function Lookup(fields: seq<(string, Value)>, key: string): (r: Option<Value>)
    ensures r.None? <==> key !in Keys(fields)
    ensures r.Some? ==> exists i :: 0 <= i < |fields| && fields[i] == (key, r.value)
  {
    if fields == [] then None
    else if fields[0].0 == key then Some(fields[0].1)
    else Lookup(fields[1..], key)
  }

  /** `bool(v)`. */
  predicate Truthy(v: Value) {
    match v
    case Null => false
    case Bool(b) => b
    case Int(i) => i != 0
    case Float(f) => f != 0.0
    case Str(s) => s != ""
    case Array(items) => items != []
    case Object(fields) => fields != []
  }

  function TypeName(v: Value): string {
    match v
    case Null => "NoneType"
    case Bool(_) => "bool"
    case Int(_) => "int"
    case Float(_) => "float"
    case Str(_) => "str"
    case Array(_) => "list"
    case Object(_) => "dict"
  }

  /** `key in v`: a key of a dict, an element of a list, a substring of a str; a TypeError otherwise. */
  function HasKey(v: Value, key: string): (r: Result<bool, Error>)
    ensures v.Object? ==> r == Ok(key in Keys(v.fields))
  {
    match v
    case Object(fields) => Ok(key in Keys(fields))
    case Array(items) => Ok(Str(key) in items)
    case Str(s) => Ok(Contains(s, key))
    case _ => Err(TypeError("argument of type '" + TypeName(v) + "' is not iterable"))
  }

  /** `v[key]` with a string key: a KeyError when a dict lacks it, a TypeError for a non-dict. */
  function Index(v: Value, key: string): (r: Result<Value, Error>)
    ensures r.Ok? <==> v.Object? && key in Keys(v.fields)
  {
    match v
    case Object(fields) =>
      (match Lookup(fields, key)
       case Some(x) => Ok(x)
       case None => Err(KeyError(key)))
    case Array(_) => Err(TypeError("list indices must be integers or slices, not str"))
    case Str(_) => Err(TypeError("string indices must be integers, not 'str'"))
    case _ => Err(TypeError("'" + TypeName(v) + "' object is not subscriptable"))
  }

  /** `v.items()`: only a dict has them. */
  function Items(v: Value): (r: Result<seq<(string, Value)>, Error>)
    ensures r.Ok? <==> v.Object?
  {
    match v
    case Object(fields) => Ok(fields)
    case _ => Err(TypeError("'" + TypeName(v) + "' object has no attribute 'items'"))
  }

  /** Python's `v == n` for an int `n`: a bool compares as 0 or 1 and a float by value. */
  predicate EqualsInt(v: Value, n: int) {
    match v
    case Int(i) => i == n
    case Bool(b) => (if b then 1 else 0) == n
    case Float(f) => f == n as real
    case _ => false
  }

  /** `str(v)` for scalars; a float, a list and a dict are shown by placeholders. */
  function Show(v: Value): string {
    match v
    case Null => "None"
    case Bool(b) => if b then "True" else "False"
    case Int(i) => IntToString(i)
    case Float(_) => "<float>"
    case Str(s) => s
    case Array(_) => "[...]"
    case Object(_) => "{...}"
  }

  /** `str(names)` for a list of strings: `['a', 'b']`. */
  function ShowNames(names: seq<string>): string {
    "[" + ShowNamesInner(names) + "]"
  }

  function ShowNamesInner(names: seq<string>): string {
    if names == [] then ""
    else if |names| == 1 then "'" + names[0] + "'"
    else "'" + names[0] + "', " + ShowNamesInner(names[1..])
  }
}
