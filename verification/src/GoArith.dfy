/** The Go number types and operators the gateway relies on, written out over
    Dafny's unbounded integers and reals. */
module GoArith {

  type byte = x: int | 0 <= x < 256
  type int16 = x: int | -32768 <= x <= 32767

  function Abs(x: int): nat {
    if x < 0 then -x else x
  }

  /** The absolute difference of two samples. */
  function Gap(a: int, b: int): nat {
    Abs(a - b)
  }

  /** Go's `/` on signed integers truncates toward zero. */
  function TruncDiv(a: int, b: int): int
    requires b > 0
  {
    if a >= 0 then a / b else -(-a / b)
  }

  /** The conversion `int16(x)`: two's-complement wrap-around. */
  function WrapInt16(x: int): int16 {
    var u := x % 0x1_0000;
    if u < 0x8000 then u else u - 0x1_0000
  }

  /** Negation of an `int16`; the smallest one is its own negative. */
  function Negate16(x: int): int16 {
    WrapInt16(-x)
  }

  /** The conversion `uint16(x)`. */
  function Uint16(x: int): (u: nat)
    ensures u < 0x1_0000
    ensures -0x8000 <= x < 0x8000 ==> u == if x < 0 then x + 0x1_0000 else x
  {
    x % 0x1_0000
  }

  /** The factor of a left shift by `n`. */
  function Pow2(n: nat): (r: nat)
    ensures r >= 1
  {
    if n == 0 then 1 else 2 * Pow2(n - 1)
  }

  /** `math.Round`: halves go away from zero. */
  function Round(x: real): int {
    if x >= 0.0 then (x + 0.5).Floor else -(-x + 0.5).Floor
  }

  /** The shift factors that an eight-segment code can use. */
  lemma Pow2Values()
    ensures Pow2(0) == 1 && Pow2(1) == 2 && Pow2(2) == 4 && Pow2(3) == 8
    ensures Pow2(4) == 16 && Pow2(5) == 32 && Pow2(6) == 64 && Pow2(7) == 128
  {
    assert Pow2(3) == 8;
    assert Pow2(5) == 32;
  }
}
