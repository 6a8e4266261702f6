/** JSON values as JavaScript sees them after `JSON.parse`: the untyped data
    that the zod schemas and the relay's error handling inspect. */
module Json {
  import opened Wrappers

  datatype Value =
    | Null
    | Bool(b: bool)
    | Number(n: real)
    | Str(s: string)
    | Arr(items: seq<Value>)
    | Obj(fields: map<string, Value>)

  /** Property access `v.key`: `None` stands for `undefined`, which is what
      JavaScript yields for a missing key and for a key looked up on a
      primitive or an array. (Reading a property of `null` throws instead;
      callers handle `Null` before calling this.) */
  function Member(v: Value, key: string): (r: Option<Value>)
    ensures r.Some? <==> v.Obj? && key in v.fields
    ensures r.Some? ==> r.value == v.fields[key]
  {
    if v.Obj? && key in v.fields then Some(v.fields[key]) else None
  }

  /** JavaScript truthiness of a JSON value (`NaN` cannot come out of JSON). */
  predicate Truthy(v: Value) {
    match v
    case Null => false
    case Bool(b) => b
    case Number(n) => n != 0.0
    case Str(s) => s != ""
    case Arr(_) => true
    case Obj(_) => true
  }
}
