/** Go's `int64`: its range, and the two's-complement wrap-around of its arithmetic. */
module Int64 {

  const Min: int := -0x8000_0000_0000_0000
  const Max: int := 0x7FFF_FFFF_FFFF_FFFF
  const Modulus: int := 0x1_0000_0000_0000_0000

  predicate InRange(x: int) {
    Min <= x <= Max
  }

  /** The int64 value Go produces for the mathematical result `x`. */
  function Wrap(x: int): (r: int)
    ensures InRange(r)
    ensures InRange(x) ==> r == x
    ensures exists k: int :: r == x + k * Modulus
  {
    var m := x % Modulus;
    var q := x / Modulus;
    assert x == q * Modulus + m;
    if m > Max then
      assert m - Modulus == x + (-q - 1) * Modulus;
      m - Modulus
    else
      assert m == x + (-q) * Modulus;
      m
  }

  /** Go's unary minus on int64: `-Min` overflows back to `Min`. */
  function Neg(x: int): (r: int)
    ensures InRange(x) && x != Min ==> r == -x
    ensures x == Min ==> r == Min
    ensures InRange(r)
  {
    Wrap(-x)
  }
}
