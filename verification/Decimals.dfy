/** Exact decimal arithmetic: the three roundings the program uses.
    Amounts are reals; `Clean` is both `clean` in the calculators and the
    rounding PostgreSQL applies on storing into numeric(30, 10). */
module Decimals {

  const SCALE: real := 10000000000.0
  const HALF_UNIT: real := 0.00000000005

  /** ROUND_HALF_UP to an integer: ties go away from zero. */
  function RoundHalfUp(x: real): (n: int)
    ensures -0.5 <= n as real - x <= 0.5
    ensures x >= 0.0 ==> n as real - x > -0.5 && n >= 0
    ensures x <= 0.0 ==> n as real - x < 0.5 && n <= 0
  {
    if x >= 0.0 then (x + 0.5).Floor else -(-x + 0.5).Floor
  }

  /** Ten decimals, ties away from zero. */
  function Clean(x: real): (r: real)
    ensures -HALF_UNIT <= r - x <= HALF_UNIT
    ensures x >= 0.0 ==> r >= 0.0 && r - x > -HALF_UNIT
    ensures x <= 0.0 ==> r <= 0.0 && r - x < HALF_UNIT
  {
    RoundHalfUp(x * SCALE) as real / SCALE
  }

  /** At most ten decimals. */
  predicate Ten(x: real) {
    (x * SCALE).Floor as real == x * SCALE
  }

  /** An integer closer than half to x is the rounding of x. */
  lemma RoundHalfUpUnique(x: real, n: int)
    requires -0.5 < n as real - x < 0.5
    ensures RoundHalfUp(x) == n
  {
  }

  /** `clean` is the identity on exactly the values with at most ten decimals. */
  lemma CleanFixesExactlyTen(x: real)
    ensures Clean(x) == x <==> Ten(x)
  {
    var n := RoundHalfUp(x * SCALE);
    if Ten(x) {
      RoundHalfUpUnique(x * SCALE, (x * SCALE).Floor);
    }
    if Clean(x) == x {
      assert x * SCALE == n as real;
      assert (n as real).Floor == n;
    }
  }

  lemma CleanIsTen(x: real)
    ensures Ten(Clean(x)) && Clean(Clean(x)) == Clean(x)
  {
    var n := RoundHalfUp(x * SCALE);
    assert Clean(x) * SCALE == n as real;
    assert (n as real).Floor == n;
    CleanFixesExactlyTen(Clean(x));
  }

  lemma TenAdds(x: real, y: real)
    requires Ten(x) && Ten(y)
    ensures Ten(x + y)
  {
    var n := (x * SCALE).Floor + (y * SCALE).Floor;
    assert (x + y) * SCALE == n as real;
    assert (n as real).Floor == n;
  }

  /** Rounding half away from zero commutes with negation. */
  lemma CleanOdd(x: real)
    ensures Clean(-x) == -Clean(x)
  {
    assert (-x) * SCALE == -(x * SCALE);
    assert RoundHalfUp(-(x * SCALE)) == -RoundHalfUp(x * SCALE);
  }

  lemma CleanMonotone(x: real, y: real)
    requires x <= y
    ensures Clean(x) <= Clean(y)
  {
    var a, b := x * SCALE, y * SCALE;
    assert RoundHalfUp(a) <= RoundHalfUp(b);
  }

  /** ROUND_HALF_EVEN to cents: the default of a `quantize` with no rounding argument. */
  function Cents(x: real): (r: real)
    ensures -0.005 <= r - x <= 0.005
  {
    var n := (x * 100.0).Floor;
    var rest := x * 100.0 - n as real;
    (if rest < 0.5 || (rest == 0.5 && n % 2 == 0) then n as real else (n + 1) as real) / 100.0
  }

  /** Cents are whole hundredths, the nearest to the amount, and of two equally near the even one. */
  lemma CentsAreNearest(x: real) returns (n: int)
    ensures Cents(x) == n as real / 100.0
    ensures -0.5 <= n as real - x * 100.0 <= 0.5
    ensures n as real - x * 100.0 == 0.5 || n as real - x * 100.0 == -0.5 ==> n % 2 == 0
  {
    var m := (x * 100.0).Floor;
    var rest := x * 100.0 - m as real;
    n := if rest < 0.5 || (rest == 0.5 && m % 2 == 0) then m else m + 1;
  }

  // ---- products and quotients ----

  lemma Distribute(p: real, x: real, y: real)
    ensures p * (x + y) == p * x + p * y
  {
  }

  lemma Associates(r: real, e: real, size: real)
    ensures r * e * size == r * (e * size)
  {
  }

  lemma NegateProduct(x: real, y: real)
    ensures (-x) * y == -(x * y)
  {
  }

  lemma NegateRatio(x: real, p: real, q: real)
    requires p != 0.0
    ensures (-x) / p * q == -(x / p * q)
  {
    assert (-x) / p == -(x / p);
  }

  lemma DifferenceTimes(x: real, y: real, q: real)
    ensures x * q - y * q == (x - y) * q
  {
  }

  lemma NonNegativeProduct(x: real, y: real)
    requires x >= 0.0 && y >= 0.0
    ensures x * y >= 0.0
  {
  }

  lemma PositiveProduct(x: real, y: real)
    requires x > 0.0 && y > 0.0
    ensures x * y > 0.0
  {
  }

  lemma PositiveRatio(x: real, q: real)
    requires x > 0.0 && q > 0.0
    ensures x / q > 0.0
  {
    assert x / q * q == x;
  }

  lemma Scaled(x: real, bound: real, q: real)
    requires -bound <= x <= bound && q >= 0.0
    ensures -(bound * q) <= x * q <= bound * q
  {
    NonNegativeProduct(bound - x, q);
    NonNegativeProduct(x - -bound, q);
    DifferenceTimes(bound, x, q);
    DifferenceTimes(x, -bound, q);
    NegateProduct(bound, q);
  }

  lemma ScaledUp(x: real, low: real, q: real)
    requires x >= low && q >= 0.0
    ensures x * q >= low * q
  {
  }

  lemma StrictlyScaled(x: real, y: real, q: real)
    requires x < y && q > 0.0
    ensures x * q < y * q
  {
  }

  lemma CancelFactor(a: real, b: real, c: real)
    requires a * c == b * c && c > 0.0
    ensures a == b
  {
    DifferenceTimes(a, b, c);
  }

  lemma UniqueQuotient(n: real, e: real, r: real)
    requires e > 0.0 && n == r * e
    ensures n / e == r
  {
    var q := n / e;
    assert q * e == n;
    CancelFactor(q, r, e);
  }
}
