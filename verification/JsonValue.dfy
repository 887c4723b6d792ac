/** JSON documents. Numbers are opaque leaves: nothing here looks inside one. */
module JsonValue {
  import opened Wrappers

  datatype Value =
    | Null
    | Bool(b: bool)
    | Number(n: int)
    | Str(s: string)
    | Arr(items: seq<Value>)
    | Obj(fields: map<string, Value>)
  {
    function AsStr(): Option<string> {
      if Str? then Some(s) else None
    }
  }

  /** `slice.get(i)` */
  function At(items: seq<Value>, i: nat): Option<Value> {
    if i < |items| then Some(items[i]) else None
  }

  /** `map.get(key)` */
  function Field(fields: map<string, Value>, key: string): Option<Value> {
    if key in fields then Some(fields[key]) else None
  }
}
