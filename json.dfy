/**
 * The part of a decoded JSON document that the engine inspects, with the
 * accessors of the JSON library the program uses (`get`, `as_array`,
 * `as_str`, `as_i64`).
 */
module Json {
  import opened Wrappers

  /** A decoded JSON value. Integers are unbounded here; `Float` is any number with a fraction or exponent. */
  datatype Json =
    | Null
    | Bool(b: bool)
    | Int(i: int)
    | Float
    | Str(s: string)
    | Arr(items: seq<Json>)
    | Obj(fields: map<string, Json>)

  const I64_MIN: int := -0x8000_0000_0000_0000
  const I64_MAX: int := 0x7FFF_FFFF_FFFF_FFFF

  /** `value.get(key)`: the member of an object, nothing for every other kind of value. */
  function Get(v: Json, key: string): (r: Option<Json>)
    ensures r.Some? <==> v.Obj? && key in v.fields
    ensures r.Some? ==> r.value == v.fields[key]
  {
    match v
    case Obj(fields) => if key in fields then Some(fields[key]) else None
    case _ => None
  }

  /** `value.as_array()`. */
  function AsArray(v: Json): (r: Option<seq<Json>>)
    ensures r.Some? <==> v.Arr?
    ensures r.Some? ==> r.value == v.items
  {
    if v.Arr? then Some(v.items) else None
  }

  /** `value.as_str()`. */
  function AsStr(v: Json): (r: Option<string>)
    ensures r.Some? <==> v.Str?
    ensures r.Some? ==> r.value == v.s
  {
    if v.Str? then Some(v.s) else None
  }

  /** `value.as_i64()`: an integer that fits in a signed 64-bit word; floats and wider integers give nothing. */
  function AsI64(v: Json): (r: Option<int>)
    ensures r.Some? <==> v.Int? && I64_MIN <= v.i <= I64_MAX
    ensures r.Some? ==> r.value == v.i
  {
    match v
    case Int(i) => if I64_MIN <= i <= I64_MAX then Some(i) else None
    case _ => None
  }

  /** `data.get("data")?.get("projects")?.as_array()?`: the project list of a statistics reply. */
  function ProjectList(data: Json): (r: Option<seq<Json>>)
    ensures r.Some? <==>
      (Get(data, "data").Some? && Get(Get(data, "data").value, "projects").Some?
       && Get(Get(data, "data").value, "projects").value.Arr?)
    ensures r.Some? ==> r.value == Get(Get(data, "data").value, "projects").value.items
  {
    match Get(data, "data")
    case None => None
    case Some(d) =>
      match Get(d, "projects")
      case None => None
      case Some(p) => AsArray(p)
  }
}
