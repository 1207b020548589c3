/**
 The slice of JavaScript number semantics that the terrain generator relies on:
 reading a byte from a typed array (where an index past the end yields
 `undefined`, and `Number(undefined)` is NaN), addition, and division by the
 vertical scale. Values are exact; floating-point rounding is not modelled.
 */
module JsNumbers {

  /** One channel byte of an RGBA pixel buffer. */
  type Byte = b: int | 0 <= b < 256

  /** A JavaScript number as far as this program can produce one: a value or NaN. */
  datatype JsNum<T> = Num(v: T) | NaN

  /** `Number(data[i])`: a byte when `i` is inside the buffer, NaN otherwise. */
  function Read(data: seq<Byte>, i: nat): (r: JsNum<int>)
    ensures r.NaN? <==> i >= |data|
    ensures r.Num? ==> 0 <= r.v < 256
  {
    if i < |data| then Num(data[i]) else NaN
  }

  /** `a + b`: NaN as soon as either operand is NaN. */
  function Add(a: JsNum<int>, b: JsNum<int>): (r: JsNum<int>)
    ensures r.NaN? <==> a.NaN? || b.NaN?
  {
    if a.NaN? || b.NaN? then NaN else Num(a.v + b.v)
  }

  /** `a / d` for a non-zero integer divisor, computed exactly. */
  function Divide(a: JsNum<int>, d: int): (r: JsNum<real>)
    requires d != 0
    ensures r.NaN? <==> a.NaN?
  {
    match a
    case NaN => NaN
    case Num(n) => Num(n as real / d as real)
  }
}
