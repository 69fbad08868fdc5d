/** Unsigned counter arithmetic shared by the usage statistics: saturating subtraction,
    maxima, and fractions kept as exact numerator/denominator pairs. */
module Counters {
  /** `u64::MAX + 1`. */
  const U64Bound: nat := 0x1_0000_0000_0000_0000

  /** Unchecked `u64` arithmetic in a release build: the result wraps around at 2^64. */
  function Wrapping(x: int): (r: nat)
    ensures r < U64Bound
    ensures 0 <= x < U64Bound ==> r == x
  {
    x % U64Bound
  }

  /** `u64::saturating_mul`: the product, or `u64::MAX` when it does not fit. */
  function SaturatingMul(a: nat, b: nat): (r: nat)
    ensures r < U64Bound
    ensures a * b < U64Bound ==> r == a * b
    ensures a * b >= U64Bound ==> r == U64Bound - 1
  {
    if a * b < U64Bound then a * b else U64Bound - 1
  }

  /** `u64::saturating_add`: the sum, or `u64::MAX` when it does not fit. */
  function SaturatingAdd(a: nat, b: nat): (r: nat)
    ensures r < U64Bound
    ensures a + b < U64Bound ==> r == a + b
    ensures a + b >= U64Bound ==> r == U64Bound - 1
  {
    if a + b < U64Bound then a + b else U64Bound - 1
  }

  /** `saturating_sub`: the difference, or 0 when the counter went backwards. */
  function SaturatingSub(a: nat, b: nat): (r: nat)
    ensures r <= a
    ensures a >= b ==> r + b == a
    ensures a <= b ==> r == 0
  {
    if a >= b then a - b else 0
  }

  /** `std::cmp::max`. */
  function Max(a: nat, b: nat): (r: nat)
    ensures r >= a && r >= b && (r == a || r == b)
  {
    if a >= b then a else b
  }

  /** A usage fraction as the source computes it, `numerator as f32 / denominator as f32`,
      kept exact; a zero denominator is what the floating-point division sees as well. */
  datatype Quotient = Quotient(numerator: nat, denominator: nat)
}
