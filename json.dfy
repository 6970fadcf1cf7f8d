/**
  A JSON value as `JSON.parse` hands it to the front end, and the handful of
  JavaScript operations the front end applies to it: property access,
  truthiness, `Array.isArray`, `===` and string conversion.
*/
module Json {
  import opened Wrappers
  import opened Text

  /** Numbers are integers here; object fields keep the key order of the parsed object. */
  datatype Value =
    | Null
    | Bool(b: bool)
    | Num(n: int)
    | Str(s: string)
    | Arr(items: seq<Value>)
    | Obj(fields: seq<(string, Value)>)

  /** The value of the first field named `key`. */
  function Lookup(fields: seq<(string, Value)>, key: string): (r: Option<Value>)
    ensures r.Some? ==> exists i :: 0 <= i < |fields| && fields[i] == (key, r.value)
    ensures r.None? ==> forall i :: 0 <= i < |fields| ==> fields[i].0 != key
  {
    if fields == [] then None
    else if fields[0].0 == key then Some(fields[0].1)
    else Lookup(fields[1..], key)
  }

  /**
    Property access `v.key` on a value that is not `null` (reading a property
    of `null` throws); `None` stands for `undefined`. Only objects have own
    properties under the names the front end reads (`parts`, `warning`,
    `part`, `candidates`, `name`).
  */
  function Member(v: Value, key: string): Option<Value>
    requires !v.Null?
  {
    if v.Obj? then Lookup(v.fields, key) else None
  }

  /** JavaScript truthiness of a value or of `undefined`. */
  predicate Truthy(v: Option<Value>) {
    match v
    case None => false
    case Some(Null) => false
    case Some(Bool(b)) => b
    case Some(Num(n)) => n != 0
    case Some(Str(s)) => s != []
    case Some(Arr(_)) => true
    case Some(Obj(_)) => true
  }

  /** `Array.isArray(v)`. */
  predicate IsArray(v: Option<Value>) {
    v.Some? && v.value.Arr?
  }

  /** `a === b` for values from two different parses: arrays and objects are never the same object. */
  predicate StrictEquals(a: Option<Value>, b: Option<Value>) {
    a == b && !(a.Some? && (a.value.Arr? || a.value.Obj?))
  }

  function IntText(n: int): string {
    if n < 0 then "-" + NatText(-n) else NatText(n)
  }

  /** `String(v)`: arrays join their elements with commas, `null` elements becoming empty. */
  function Stringify(v: Value): string {
    match v
    case Null => "null"
    case Bool(b) => if b then "true" else "false"
    case Num(n) => IntText(n)
    case Str(s) => s
    case Arr(items) =>
      Join(",", seq(|items|, i requires 0 <= i < |items| => if items[i].Null? then "" else Stringify(items[i])))
    case Obj(_) => "[object Object]"
  }

  /** `String(v)` where `v` may be `undefined`. */
  function ToJsString(v: Option<Value>): string {
    if v.None? then "undefined" else Stringify(v.value)
  }
}
