/** A parsed JSON value as `serde_json::Value` holds it, with the indexing and the
    `as_*` accessors the request translation reads it through. */
module Json {
  import opened Wrappers

  newtype u64 = x: int | 0 <= x < 0x1_0000_0000_0000_0000

  /** `serde_json::Number`: a non-negative integer that fits in a `u64`, a negative
      integer, or a float (kept as an exact real: floats are only copied, never
      computed with). */
  datatype Number = PosInt(u: u64) | NegInt(i: NegI64) | Float(f: real)

  /** The integers `serde_json` stores as a negative `i64`. */
  type NegI64 = i: int | -0x8000_0000_0000_0000 <= i < 0 witness -1

  /** Objects are maps: `serde_json::Map` keeps one value per key. */
  datatype Json =
    | JNull
    | JBool(b: bool)
    | JNum(n: Number)
    | JStr(s: string)
    | JArr(items: seq<Json>)
    | JObj(fields: map<string, Json>)

  /** `value[key]`: the field of an object, and `null` for a missing key or for any
      value that is not an object. */
  function Get(v: Json, key: string): (r: Json)
    ensures v.JObj? && key in v.fields ==> r == v.fields[key]
    ensures !(v.JObj? && key in v.fields) ==> r == JNull
  {
    if v.JObj? && key in v.fields then v.fields[key] else JNull
  }

  /** `Value::as_array`. */
  function AsArray(v: Json): Option<seq<Json>> {
    if v.JArr? then Some(v.items) else None
  }

  /** `Value::as_str`. */
  function AsStr(v: Json): Option<string> {
    if v.JStr? then Some(v.s) else None
  }

  /** `Value::as_u64`: only a non-negative integer number converts. */
  function AsU64(v: Json): Option<u64> {
    if v.JNum? && v.n.PosInt? then Some(v.n.u) else None
  }

  /** `Value::as_f64`: every number converts. */
  function AsF64(v: Json): Option<real> {
    match v
    case JNum(PosInt(u)) => Some(u as real)
    case JNum(NegInt(i)) => Some(i as real)
    case JNum(Float(f)) => Some(f)
    case _ => None
  }
}
