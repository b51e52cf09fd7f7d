/**
 * Python's integer division and remainder. Python floors the quotient, so for a negative
 * divisor they differ from Dafny's Euclidean `/` and `%`.
 */
module PyArith {

  /** `a // b` in Python: the quotient rounded towards minus infinity. */
  function FloorDiv(a: int, b: int): int
    requires b != 0
  {
    if b > 0 then a / b else (-a) / (-b)
  }

  /** `a % b` in Python: what is left of a after FloorDiv(a, b) times b. */
  function Mod(a: int, b: int): int
    requires b != 0
  {
    a - FloorDiv(a, b) * b
  }

  /** The quotient is the largest q with q * b <= a for a positive b, and the least with a <= q * b for a negative one. */
  lemma FloorDivBounds(a: int, b: int)
    requires b != 0
    ensures var q := FloorDiv(a, b);
      && (b > 0 ==> q * b <= a < q * b + b)
      && (b < 0 ==> q * b + b < a <= q * b)
  {
  }

  /** The remainder completes the quotient and takes the sign of the divisor. */
  lemma ModBounds(a: int, b: int)
    requires b != 0
    ensures var r := Mod(a, b);
      && a == FloorDiv(a, b) * b + r
      && (b > 0 ==> 0 <= r < b)
      && (b < 0 ==> b < r <= 0)
  {
    FloorDivBounds(a, b);
  }

  /**
   * `a // b` on a numpy integer, as the driver's row count is: the Python quotient, and 0
   * (with a warning, not an exception) for a zero divisor.
   */
  function NpFloorDiv(a: int, b: int): int
  {
    if b == 0 then 0 else FloorDiv(a, b)
  }

  /** `a % b` on a numpy integer: the Python remainder, and 0 for a zero divisor. */
  function NpMod(a: int, b: int): int
  {
    if b == 0 then 0 else Mod(a, b)
  }

  function Min(a: int, b: int): int
  {
    if a <= b then a else b
  }

  function Max0(a: int): nat
  {
    if a > 0 then a else 0
  }
}
