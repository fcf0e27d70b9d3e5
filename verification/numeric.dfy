/** The three Go numeric conversions the pipeline relies on, on exact reals:
    `int(x)` of a float, `math.Round` and `math.Mod`. */
module Numeric {

  /** True when `x` has no fractional part. */
  predicate IsIntegral(x: real) {
    x.Floor as real == x
  }

  /** Go's `int(x)` conversion: truncation toward zero. */
  function Trunc(x: real): (r: int)
    ensures 0.0 <= x ==> 0 <= r && r as real <= x < r as real + 1.0
    ensures x < 0.0 ==> r <= 0 && r as real - 1.0 < x <= r as real
  {
    if x >= 0.0 then x.Floor else -((-x).Floor)
  }

  /** Go's `math.Round`: nearest integer, halves rounded away from zero. */
  function Round(x: real): (r: int)
    ensures 0.0 <= x ==> x - 0.5 < r as real <= x + 0.5
    ensures x < 0.0 ==> x - 0.5 <= r as real < x + 0.5
  {
    if x >= 0.0 then (x + 0.5).Floor else -((-x + 0.5).Floor)
  }

  /** Go's `math.Mod(x, 60)`, the only divisor the pipeline uses: the
      remainder of `x / 60` whose sign agrees with `x` and whose magnitude is
      below 60. */
  function ModSixty(x: real): (r: real)
    ensures 0.0 <= x ==> 0.0 <= r < 60.0
    ensures x < 0.0 ==> -60.0 < r <= 0.0
    ensures IsIntegral((x - r) / 60.0)
  {
    var q := Trunc(x / 60.0);
    assert (q as real).Floor == q;
    x - 60.0 * q as real
  }

  /** Dividing by a positive number keeps the sign, and multiplying back
      undoes the division. */
  lemma QuotientSign(x: real, y: real)
    requires y > 0.0
    ensures x / y * y == x
    ensures 0.0 <= x <==> 0.0 <= x / y
  {
    var z := x / y;
    assert z * y == x;
    if z < 0.0 {
      ScaleLt(z, 0.0, y);
    } else {
      ScaleLe(0.0, z, y);
    }
  }

  /** Multiplying both sides by a positive factor keeps their order. */
  lemma ScaleLe(lo: real, hi: real, y: real)
    requires y > 0.0 && lo <= hi
    ensures lo * y <= hi * y
  {
  }

  /** Multiplying both sides by a positive factor keeps strict order. */
  lemma ScaleLt(lo: real, hi: real, y: real)
    requires y > 0.0 && lo < hi
    ensures lo * y < hi * y
  {
  }

  /** On non-negative operands, flooring the exact quotient is integer division. */
  lemma FloorOfQuotient(n: int, k: int)
    requires 0 <= n && 0 < k
    ensures (n as real / k as real).Floor == n / k
  {
    var q, m := n / k, n % k;
    assert n as real == q as real * k as real + m as real;
    assert n as real / k as real == q as real + m as real / k as real;
    assert 0.0 <= m as real / k as real < 1.0;
  }
}
