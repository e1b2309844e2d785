/** JSON values with the accessors the engine uses on them (`get`, `as_str`, `as_i64`, `as_f64`). */
module Json {
  import opened Wrappers

  const I64_MIN := -0x8000_0000_0000_0000
  const I64_MAX := 0x7FFF_FFFF_FFFF_FFFF

  datatype Json =
    | Null
    | Bool(b: bool)
    | Int(i: int)
    | Float(f: real)
    | Str(s: string)
    | Arr(items: seq<Json>)
    | Obj(fields: map<string, Json>)
  {
    function Get(key: string): (r: Option<Json>)
      ensures r.Some? <==> Obj? && key in fields
      ensures r.Some? ==> r.value == fields[key]
    {
      if Obj? && key in fields then Some(fields[key]) else None
    }

    /** The string stored under `key`; absent, or of another type, reads as None. */
    function GetStr(key: string): (r: Option<string>)
      ensures r.Some? <==> Obj? && key in fields && fields[key].Str?
      ensures r.Some? ==> fields[key] == Str(r.value)
    {
      match Get(key)
      case Some(Str(s)) => Some(s)
      case _ => None
    }

    /** `as_i64`: an integer outside the 64-bit range is not an i64. */
    function GetInt(key: string): (r: Option<int>)
      ensures r.Some? <==>
        Obj? && key in fields && fields[key].Int? && -0x8000_0000_0000_0000 <= fields[key].i < 0x8000_0000_0000_0000
      ensures r.Some? ==> fields[key] == Int(r.value)
    {
      match Get(key)
      case Some(Int(i)) => if I64_MIN <= i <= I64_MAX then Some(i) else None
      case _ => None
    }

    /** `as_f64`: integers convert, over exact reals. */
    function GetReal(key: string): (r: Option<real>)
      ensures r.Some? <==> Obj? && key in fields && (fields[key].Int? || fields[key].Float?)
      ensures r.Some? ==> fields[key] == Float(r.value) || (fields[key].Int? && r.value == fields[key].i as real)
    {
      match Get(key)
      case Some(Int(i)) => Some(i as real)
      case Some(Float(f)) => Some(f)
      case _ => None
    }
  }
}
