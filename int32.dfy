/**
 * C#'s 32-bit `int` and the arithmetic `Crypto.GenerateRandomString` and
 * `TokenService.GenerateAccessToken` rely on: unchecked wrap-around on
 * overflow, and integer division and remainder that truncate toward zero
 * (Dafny's own `/` and `%` are Euclidean).
 */
module Int32 {

  const MinInt32: int := -0x8000_0000
  const MaxInt32: int := 0x7fff_ffff

  newtype int32 = x: int | -0x8000_0000 <= x < 0x8000_0000

  /** The value an unchecked conversion or sum produces: `x` reduced modulo 2^32 into the int range. */
  function Wrap(x: int): (r: int32)
    ensures (r as int - x) % 0x1_0000_0000 == 0
    ensures MinInt32 <= x <= MaxInt32 ==> r as int == x
  {
    ((x - MinInt32) % 0x1_0000_0000 + MinInt32) as int32
  }

  /** C#'s `a / b` on integers: the quotient rounded toward zero. */
  function DivTrunc(a: int, b: int): (q: int)
    requires b > 0
    ensures a >= 0 ==> 0 <= a - q * b < b
    ensures a < 0 ==> -b < a - q * b <= 0
  {
    if a >= 0 then a / b else -((-a) / b)
  }

  /** C#'s `a % b` on integers: the remainder takes the sign of `a`. */
  function RemTrunc(a: int, b: int): (r: int)
    requires b > 0
    ensures a == DivTrunc(a, b) * b + r
    ensures a >= 0 ==> 0 <= r < b
    ensures a < 0 ==> -b < r <= 0
  {
    if a >= 0 then a % b else -((-a) % b)
  }
}
