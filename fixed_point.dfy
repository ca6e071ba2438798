/**
 * Signed 128-bit fixed-point numbers with 18 decimals (`FixedI128`), as
 * integers scaled by UNIT. Checked operations return None when the result
 * leaves the 128-bit range; multiplication and division round toward zero.
 */
module FixedPoint {
  import opened Wrappers

  const UNIT: int := 1_000_000_000_000_000_000
  const FIXED_MIN: int := -0x8000_0000_0000_0000_0000_0000_0000_0000
  const FIXED_MAX: int := 0x7fff_ffff_ffff_ffff_ffff_ffff_ffff_ffff

  predicate InRange(x: int) {
    FIXED_MIN <= x <= FIXED_MAX
  }

  function Abs(x: int): nat {
    if x < 0 then -x else x
  }

  /** Integer division rounding toward zero, unlike Dafny's Euclidean `/`. */
  function DivTrunc(a: int, b: int): (q: int)
    requires b != 0
    ensures a >= 0 && b > 0 ==> q == a / b
  {
    if (a >= 0) == (b > 0) then Abs(a) / Abs(b) else -(Abs(a) / Abs(b))
  }

  function CheckedAdd(a: int, b: int): Option<int> {
    if InRange(a + b) then Some(a + b) else None
  }

  function CheckedSub(a: int, b: int): Option<int> {
    if InRange(a - b) then Some(a - b) else None
  }

  /** Fixed-point product: (a * b) / UNIT. */
  function CheckedMul(a: int, b: int): Option<int> {
    var p := DivTrunc(a * b, UNIT);
    if InRange(p) then Some(p) else None
  }

  /** Fixed-point quotient: (a * UNIT) / b; None on a zero divisor. */
  function CheckedDiv(a: int, b: int): Option<int> {
    if b == 0 then None
    else
      var q := DivTrunc(a * UNIT, b);
      if InRange(q) then Some(q) else None
  }

  /** `checked_from_integer`: the fixed-point value of an integer balance. */
  function CheckedFromInteger(n: int): Option<int> {
    if InRange(n * UNIT) then Some(n * UNIT) else None
  }

  /** `truncate_to_inner`: the integer part, rounded toward zero. */
  function TruncateToInner(x: int): int {
    DivTrunc(x, UNIT)
  }
}
