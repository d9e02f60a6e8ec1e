/** Kotlin's 32-bit `Int` arithmetic, written out over Dafny's unbounded integers. */
module KotlinInt {

  const MinValue: int := -0x8000_0000
  const MaxValue: int := 0x7fff_ffff
  /** Number of distinct `Int` values. */
  const Modulus: int := 0x1_0000_0000

  predicate IsInt(x: int) {
    MinValue <= x <= MaxValue
  }

  /** The `Int` that an addition or subtraction yields when its exact result is `x`
      (two's-complement wrap-around). */
  function Wrap(x: int): (r: int)
    ensures IsInt(r)
    ensures (x - r) % Modulus == 0
    ensures IsInt(x) ==> r == x
  {
    var offset := x - MinValue;
    assert offset == Modulus * (offset / Modulus) + offset % Modulus;
    offset % Modulus + MinValue
  }

  /** `maxOf(a, b)` on two `Int`s. */
  function MaxOf(a: int, b: int): (r: int)
    ensures r >= a && r >= b
    ensures r == a || r == b
  {
    if a >= b then a else b
  }

  /** Kotlin's `/` on `Int` for a positive divisor: the quotient rounded toward zero,
      where Dafny's own `/` rounds toward minus infinity for a negative dividend. */
  function Div(a: int, b: int): (q: int)
    requires b > 0
    ensures a >= 0 ==> 0 <= a - q * b < b
    ensures a < 0 ==> -b < a - q * b <= 0
    ensures a >= 0 ==> q >= 0
    ensures a <= 0 ==> q <= 0
  {
    if a >= 0 then a / b else -((-a) / b)
  }
}
