/** An abstract `serde_json::Value`: numbers are integers, objects are maps from key to value. */
module Json {
  import opened Wrappers

  datatype JsonValue =
    | Null
    | Bool(b: bool)
    | Num(n: int)
    | Str(s: string)
    | Arr(items: seq<JsonValue>)
    | Obj(fields: map<string, JsonValue>)

  /** The value under `key` when `v` is an object holding that key. */
  function Field(v: JsonValue, key: string): (r: Option<JsonValue>)
    ensures r.Some? <==> v.Obj? && key in v.fields
    ensures r.Some? ==> r.value == v.fields[key]
  {
    if v.Obj? && key in v.fields then Some(v.fields[key]) else None
  }
}
