/** Kotlin's 32-bit `Int`: its range, its wrap-around and its truncating division. */
module Ints {

  const INT_MIN: int := -0x8000_0000
  const INT_MAX: int := 0x7fff_ffff
  const TWO_TO_32: int := 0x1_0000_0000

  predicate IsInt(x: int) {
    INT_MIN <= x <= INT_MAX
  }

  /** The values of a Kotlin `Int`. */
  type Int32 = x: int | IsInt(x)

  /** The value an `Int` operation whose exact result is `x` produces (two's complement). */
  function Wrap(x: int): (r: int)
    ensures IsInt(r)
    ensures (x - r) % TWO_TO_32 == 0
    ensures IsInt(x) ==> r == x
  {
    (x - INT_MIN) % TWO_TO_32 + INT_MIN
  }

  /** Kotlin's `a / b` for a positive divisor: rounds toward zero. */
  function Quot(a: int, b: int): (q: int)
    requires b > 0
    ensures a >= 0 ==> 0 <= a - q * b < b
    ensures a < 0 ==> -b < a - q * b <= 0
  {
    if a >= 0 then a / b else -((-a) / b)
  }
}
