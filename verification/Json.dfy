/** The values that templates, inputs and overrides are made of. */
module Json {
  /** A JavaScript value as the compiler meets it; objects are maps of their own fields. */
  datatype Value =
    | Undefined
    | Null
    | Bool(b: bool)
    | Num(n: real)
    | Str(s: string)
    | Arr(items: seq<Value>)
    | Obj(fields: map<string, Value>)

  type Object = v: Value | v.Obj? witness Obj(map[])

  /** Reading a property: `undefined` when the object has none. */
  function Field(o: Object, k: string): Value {
    if k in o.fields then o.fields[k] else Undefined
  }
}
