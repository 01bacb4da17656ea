/** Decoded JSON and the numbers Go code puts beside it: what an `any` may hold. */
module Values {
  datatype Kind = Int | Int8 | Int16 | Int32 | Int64 | Uint | Uint8 | Uint16 | Uint32 | Uint64 | Float32 | Float64

  /** Floating-point numbers are reals; NonFinite stands for the infinities and NaN, which JSON cannot carry. */
  datatype Value =
    | Null
    | Bool(b: bool)
    | Num(kind: Kind, n: int)
    | Flt(kind: Kind, r: real)
    | NonFinite(kind: Kind)
    | Str(s: string)
    | Arr(items: seq<Value>)
    | Obj(fields: map<string, Value>)

  type Record = map<string, Value>
}
