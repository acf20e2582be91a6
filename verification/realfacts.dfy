/** Facts of real arithmetic that the gravity law needs, stated once. */
module RealFacts {
  /** The product of two positive numbers is positive. */
  lemma MulPos(a: real, b: real)
    requires 0.0 < a && 0.0 < b
    ensures 0.0 < a * b
  {
  }

  /** A product of three positive numbers is positive. */
  lemma PositiveProduct(g: real, m1: real, m2: real)
    requires 0.0 < g && 0.0 < m1 && 0.0 < m2
    ensures 0.0 < g * m1 * m2
  {
    MulPos(g, m1);
    MulPos(g * m1, m2);
  }

  /** A positive quantity over a positive square is positive. */
  lemma InverseSquarePositive(k: real, d: real)
    requires 0.0 < k && 0.0 < d
    ensures 0.0 < k / (d * d)
  {
    assert 0.0 < d * d;
  }

  /** Equal multiples of a non-zero number have equal factors. */
  lemma Cancel(u: real, v: real, d: real)
    requires d != 0.0 && u * d == v * d
    ensures u == v
  {
    assert (u - v) * d == 0.0;
  }

  /** If `u`, `b` and `c` are `x / d`, `k / d²` and `k / d³` then
      `u * b == x * c`, shown without dividing. */
  lemma Reassoc(u: real, b: real, c: real, x: real, k: real, d: real)
    requires d != 0.0 && u * d == x && b * (d * d) == k && c * (d * d * d) == k
    ensures u * b == x * c
  {
    assert d * d != 0.0;
    assert d * d * d != 0.0;
    assert (u * b) * (d * d * d) == (u * d) * (b * (d * d));
    assert (x * c) * (d * d * d) == x * (c * (d * d * d));
    Cancel(u * b, x * c, d * d * d);
  }

  /** `(x / d) * (k / d²) == x * (k / d³)`: a component of a unit vector
      times an inverse-square magnitude. */
  lemma InverseSquareOfUnit(x: real, d: real, k: real)
    requires 0.0 < d
    ensures (x / d) * (k / (d * d)) == x * (k / (d * d * d))
  {
    Reassoc(x / d, k / (d * d), k / (d * d * d), x, k, d);
  }
}
