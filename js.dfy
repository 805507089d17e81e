/** The JavaScript values the core inspects (request bodies, parsed JSON, filter values)
    and the language rules it depends on: truthiness, named property reads, the 32-bit
    integer conversion behind `<<`, and the truncating remainder `%`. */
module Js {
  import opened Text

  /** A JavaScript value as produced by `JSON.parse` or found in a request body; numbers are
      finite (JSON has no NaN or Infinity), and an object is its own enumerable properties. */
  datatype Value =
    | Undefined
    | Null
    | Bool(b: bool)
    | Num(n: real)
    | Str(s: string)
    | Arr(items: seq<Value>)
    | Obj(fields: map<string, Value>)

  /** `!!v`: false exactly for undefined, null, false, 0 and the empty string. */
  predicate Truthy(v: Value) {
    match v
    case Undefined => false
    case Null => false
    case Bool(b) => b
    case Num(n) => n != 0.0
    case Str(s) => s != []
    case Arr(_) => true
    case Obj(_) => true
  }

  /** Reading a property can throw only on null and undefined. */
  predicate Readable(v: Value) {
    !v.Undefined? && !v.Null?
  }

  /** `v[key]` for a property name that is neither an array index nor `length` (every name
      the core reads is of that kind): an object's own field, otherwise `undefined`. */
  function Field(v: Value, key: string): (r: Value)
    requires Readable(v)
    ensures !v.Obj? ==> r == Undefined
    ensures v.Obj? ==> (r == Undefined || key in v.fields)
  {
    if v.Obj? && key in v.fields then v.fields[key] else Undefined
  }

  const TwoTo32: int := 0x1_0000_0000
  const TwoTo31: int := 0x8000_0000

  predicate IsInt32(x: int) {
    -TwoTo31 <= x < TwoTo31
  }

  /** ECMAScript ToInt32 on an integral number: reduce modulo 2^32 into the signed range. */
  function ToInt32(x: int): (r: int)
    ensures IsInt32(r)
    ensures (x - r) % TwoTo32 == 0
    ensures IsInt32(x) ==> r == x
  {
    var m := x % TwoTo32;
    if m >= TwoTo31 then m - TwoTo32 else m
  }

  /** `x << 5` on an integral number: ToInt32, shift, and keep the low 32 bits as signed. */
  function ShiftLeft5(x: int): (r: int)
    ensures IsInt32(r)
  {
    ToInt32(ToInt32(x) * 32)
  }

  /** `a % b` for integral numbers: the remainder of division truncated toward zero, so it
      carries the sign of `a` (Dafny's own `%` is Euclidean). */
  function TruncRem(a: int, b: int): (r: int)
    requires b > 0
    ensures -b < r < b
    ensures a >= 0 ==> r >= 0
    ensures a <= 0 ==> r <= 0
  {
    if a >= 0 then a % b else -((-a) % b)
  }
}
