/** The JavaScript number behaviour the image code relies on: NaN from 0/0,
    `Math.round`, `x || 0`, `Math.min`/`Math.max` clamping, and the conversions a
    value undergoes when it is stored into a `Uint8ClampedArray` or written with
    `DataView.setUint8` / `setUint16`. Numbers are exact reals: IEEE-754
    rounding is not modelled. */
module JsNumber {

  /** A JavaScript number: NaN or a finite value. */
  datatype Num = NaN | Finite(value: real)

  /** `a / b` for the divisions this code performs, where a zero divisor only
      ever meets a zero dividend (0/0 is NaN). */
  function Div(a: real, b: real): (q: Num)
    requires b == 0.0 ==> a == 0.0
    ensures q.NaN? <==> b == 0.0
    ensures q.Finite? ==> q.value * b == a
  {
    if b == 0.0 then NaN else Finite(a / b)
  }

  /** `n * k`: NaN absorbs the product. */
  function Times(n: Num, k: real): Num
  {
    match n
    case NaN => NaN
    case Finite(v) => Finite(v * k)
  }

  /** `n || 0`: NaN and 0 are falsy and give 0; any other number is itself. */
  function OrZero(n: Num): (r: real)
    ensures n.NaN? ==> r == 0.0
    ensures n.Finite? ==> r == n.value
  {
    match n
    case NaN => 0.0
    case Finite(v) => if v != 0.0 then v else 0.0
  }

  /** The integer nearest to `x`, ties going up: `Math.round` is `floor(x + 1/2)`. */
  function RoundHalfUp(x: real): (r: int)
    ensures r as real - 0.5 <= x < r as real + 0.5
  {
    (x + 0.5).Floor
  }

  /** `Math.round(n)`: NaN stays NaN. */
  function Round(n: Num): (r: Num)
    ensures r.NaN? <==> n.NaN?
    ensures n.Finite? ==> r.value == RoundHalfUp(n.value) as real
  {
    match n
    case NaN => NaN
    case Finite(v) => Finite(RoundHalfUp(v) as real)
  }

  /** The integer nearest to `x`, ties going to the even neighbour. */
  function RoundHalfEven(x: real): (r: int)
    ensures r as real - 0.5 <= x <= r as real + 0.5
    ensures x == r as real - 0.5 || x == r as real + 0.5 ==> r % 2 == 0
  {
    var f := x.Floor;
    var d := x - f as real;
    if d < 0.5 then f
    else if d > 0.5 then f + 1
    else if f % 2 == 0 then f
    else f + 1
  }

  /** `Math.min(hi, Math.max(lo, v))`. */
  function ClampReal(lo: real, hi: real, v: real): (r: real)
    requires lo <= hi
    ensures lo <= r <= hi
    ensures lo <= v <= hi ==> r == v
    ensures v <= lo ==> r == lo
    ensures v >= hi ==> r == hi
  {
    var m := if lo < v then v else lo;
    if hi < m then hi else m
  }

  /** `ClampReal` on whole numbers, whose result is again a whole number. */
  function ClampInt(lo: int, hi: int, v: int): (r: int)
    requires lo <= hi
    ensures r as real == ClampReal(lo as real, hi as real, v as real)
  {
    ClampReal(lo as real, hi as real, v as real).Floor
  }

  /** The value a `Uint8ClampedArray` holds after `n` is stored into it
      (ECMAScript ToUint8Clamp): NaN becomes 0, the value is clamped to
      [0, 255] and then rounded half to even. */
  function ToUint8Clamp(n: Num): (r: int)
    ensures 0 <= r <= 255
    ensures n.NaN? ==> r == 0
    ensures n.Finite? && n.value <= 0.0 ==> r == 0
    ensures n.Finite? && n.value >= 255.0 ==> r == 255
    ensures n.Finite? && 0.0 <= n.value <= 255.0 ==>
              r as real - 0.5 <= n.value <= r as real + 0.5
    ensures n.Finite? && 0.0 < n.value < 255.0 && (n.value == r as real - 0.5 || n.value == r as real + 0.5) ==> r % 2 == 0
  {
    match n
    case NaN => 0
    case Finite(v) =>
      if v <= 0.0 then 0
      else if v >= 255.0 then 255
      else RoundHalfEven(v)
  }

  /** A tie goes to the even neighbour: 127.5, the bilinear blend of 127 and
      128 halfway between them, is stored as 128, and 0.5 as 0. */
  lemma StoreTies()
    ensures ToUint8Clamp(Finite(127.5)) == 128
    ensures ToUint8Clamp(Finite(0.5)) == 0
    ensures ToUint8Clamp(Finite(254.5)) == 254
  {
  }

  /** Storing an integer sample keeps it. */
  lemma StoreKeepsByte(v: int)
    requires 0 <= v <= 255
    ensures ToUint8Clamp(Finite(v as real)) == v
  {
  }

  /** Storing a value that lies between two byte values gives a byte between them. */
  lemma StoreBetween(v: real, lo: int, hi: int)
    requires 0 <= lo && hi <= 255
    requires lo as real <= v <= hi as real
    ensures lo <= ToUint8Clamp(Finite(v)) <= hi
  {
  }

  /** `DataView.setUint8` on an integer: the value modulo 256. */
  function ToUint8(x: int): (r: int)
    ensures 0 <= r < 256
    ensures 0 <= x < 256 ==> r == x
    ensures (x - r) % 256 == 0
  {
    x % 256
  }

  /** `DataView.setUint16` on an integer: the value modulo 65536. */
  function ToUint16(x: int): (r: int)
    ensures 0 <= r < 65536
    ensures 0 <= x < 65536 ==> r == x
    ensures (x - r) % 65536 == 0
  {
    x % 65536
  }

}
