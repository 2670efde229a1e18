/** The values a Python dict built by the system can hold (JSON-like). */
module Dict {
  import opened Wrappers

  datatype Value =
    | Null
    | Str(text: string)
    | Int(number: int)
    | Real(decimal: real)
    | StrList(items: seq<string>)

  function OptStr(o: Option<string>): Value {
    if o.Some? then Str(o.value) else Null
  }

  function OptInt(o: Option<int>): Value {
    if o.Some? then Int(o.value) else Null
  }

  function OptReal(o: Option<real>): Value {
    if o.Some? then Real(o.value) else Null
  }

  function OptStrList(o: Option<seq<string>>): Value {
    if o.Some? then StrList(o.value) else Null
  }
}
