/** Small facts of real arithmetic, stated once so that the proofs about the fit can
    cite them instead of asking the solver to rediscover non-linear steps. */
module RealFacts {

  lemma MulMonotone(a: real, b: real, c: real)
    requires a <= b && c >= 0.0
    ensures a * c <= b * c
  {
  }

  lemma DivIsMulInverse(z: real, s: real)
    requires s != 0.0
    ensures z / s == z * (1.0 / s)
  {
  }

  /** A quotient by a positive total lies between the bounds its numerator is scaled from. */
  lemma DivBetween(num: real, den: real, lo: real, hi: real)
    requires den > 0.0
    requires lo * den <= num <= hi * den
    ensures lo <= num / den <= hi
  {
    var q := num / den;
    assert q * den == num;
  }

  lemma CancelFactor(k: real, num: real, den: real)
    requires k != 0.0 && den != 0.0
    ensures (k * num) / (k * den) == num / den
  {
    var q := num / den;
    assert q * den == num;
    assert q * (k * den) == k * num;
  }

  lemma DivDistributes(alpha: real, u: real, beta: real, v: real, gamma: real, s: real)
    requires s != 0.0
    ensures (alpha * u + beta * v + gamma) / s == alpha * (u / s) + beta * (v / s) + gamma * (1.0 / s)
  {
    var p := u / s;
    var q := v / s;
    var r := 1.0 / s;
    assert p * s == u && q * s == v && r * s == 1.0;
    assert (alpha * p + beta * q + gamma * r) * s == alpha * u + beta * v + gamma;
  }

  lemma DivCombination(alpha: real, su: real, beta: real, sv: real, gamma: real, w: real)
    requires w != 0.0
    ensures (alpha * su + beta * sv + gamma * w) / w == alpha * (su / w) + beta * (sv / w) + gamma
  {
    DivDistributes(alpha, su, beta, sv, gamma * w, w);
    assert (gamma * w) * (1.0 / w) == gamma;
  }

  lemma DivDecreasesInDenominator(p: real, small: real, large: real)
    requires p >= 0.0 && 0.0 < small <= large
    ensures p / large <= p / small
  {
    var a := p / large;
    var b := p / small;
    assert a * large == p && b * small == p;
  }

  /** The identity on reals. */
  function Id(v: real): real {
    v
  }

  /** The square `v**2`.  The second factor is routed through `Id` so that the
      arithmetic solver treats the square as a product of two terms; the value is `v*v`. */
  function Sq(v: real): (s: real)
    ensures s >= 0.0
    ensures s == 0.0 <==> v == 0.0
  {
    v * Id(v)
  }

  /** Dividing by a product is dividing twice: by `s`, then by `q`, whose inverse is `k`. */
  lemma QuotientOfScaled(z: real, q: real, s: real, k: real)
    requires q != 0.0 && s != 0.0 && k == 1.0 / q
    ensures z / (q * s) == k * (z / s)
  {
  }

  /** The expansion of `(u − m)²`. */
  lemma SquareOfDifference(u: real, m: real)
    ensures Sq(u - m) == 1.0 * Sq(u) + (-2.0 * m) * u + Sq(m)
  {
  }

  lemma TwiceSquare(m: real)
    ensures 1.0 * Sq(m) + (-2.0 * m) * m + Sq(m) == 0.0
  {
  }

  /** The cross term vanishes when both moments of the residuals do. */
  lemma ShiftAlgebra(shifted: real, fit: real, cross: real, offsets: real, rx: real, r: real, p: real, q: real)
    requires shifted == 1.0 * fit + 2.0 * cross + 1.0 * offsets
    requires cross == p * rx + q * r + 0.0
    requires rx == 0.0 && r == 0.0
    ensures shifted == fit + offsets
  {
  }

  /** `mean(x²) − 2·m·mean(x) + m²` with `m = mean(x)` is `mean(x²) − m²`. */
  lemma CentredSquares(d: real, s2: real, m: real)
    requires d == 1.0 * s2 + (-2.0 * m) * m + Sq(m)
    ensures d == s2 - Sq(m)
  {
    TwiceSquare(m);
  }

  /** A product vanishes exactly when a factor does. */
  lemma ProductZeroIff(c: real, d: real)
    ensures c * d == 0.0 <==> c == 0.0 || d == 0.0
  {
  }

  /** Squaring commutes with multiplication. */
  lemma SquareOfProduct(c: real, d: real)
    ensures Sq(c * d) == Sq(c) * Sq(d)
  {
  }

  /** Squaring commutes with division. */
  lemma SquareOfQuotient(r: real, s: real)
    requires s != 0.0
    ensures Sq(r / s) == Sq(r) / Sq(s)
  {
  }

  /** Division by a non-zero total distributes over a combination of three terms. */
  lemma DivLinear(alpha: real, u: real, beta: real, v: real, gamma: real, z: real, s: real)
    requires s != 0.0
    ensures (alpha * u + beta * v + gamma * z) / s == alpha * (u / s) + beta * (v / s) + gamma * (z / s)
  {
  }

  lemma MulDiv(num: real, den: real)
    requires den != 0.0
    ensures den * (num / den) == num
  {
  }

  lemma DivMul(num: real, den: real)
    requires den != 0.0
    ensures (num / den) * den == num
  {
  }

  lemma MulMonotoneLeft(c: real, a: real, b: real)
    requires a <= b && c >= 0.0
    ensures c * a <= c * b
  {
  }

  /** The residual of a point against `a*x + b`, multiplied by `x`. */
  lemma ResidualTimes(y: real, a: real, x: real, b: real)
    ensures (y - (a * x + b)) * x == 1.0 * (x * y) + (-a) * Sq(x) + (-b) * x
  {
  }

  /** Moving from the line `(a, b)` to `(a', b')` shifts a residual by `(a − a')x + (b − b')`. */
  lemma ResidualShift(y: real, x: real, a: real, b: real, a': real, b': real)
    ensures y - (a' * x + b') == (y - (a * x + b)) + ((a - a') * x + (b - b'))
  {
  }

  /** The expansion of `(r + d)²`. */
  lemma ShiftSquare(r: real, d: real)
    ensures Sq(r + d) == 1.0 * Sq(r) + 2.0 * (r * d) + 1.0 * Sq(d)
  {
  }

  /** The same expansion with each square and product named. */
  lemma ShiftSquareAt(shifted: real, fit: real, cross: real, offset: real, r': real, r: real, d: real)
    requires r' == r + d && shifted == Sq(r') && fit == Sq(r) && cross == r * d && offset == Sq(d)
    ensures shifted == 1.0 * fit + 2.0 * cross + 1.0 * offset
  {
    ShiftSquare(r, d);
  }

  lemma ShiftTimes(r: real, x: real, p: real, q: real)
    ensures r * (p * x + q) == p * (r * x) + q * r + 0.0
  {
  }

  /** A point on the line `a0*x + b0`, multiplied by `x`. */
  lemma LineTimes(x: real, a0: real, b0: real)
    ensures x * (a0 * x + b0) == a0 * Sq(x) + b0 * x + 0.0
  {
  }

  /** The closed-form slope and intercept satisfy the two normal equations of weighted
      least squares: in terms of the means `xy`, `x`, `x2`, `y`, the residual has mean
      zero and is uncorrelated with x. */
  lemma NormalEquation(xy: real, x: real, x2: real, y: real, a: real, b: real)
    requires x2 - Sq(x) != 0.0
    requires a == (xy - x * y) / (x2 - Sq(x))
    requires b == y - a * x
    ensures 1.0 * xy + (-a) * x2 + (-b) * x == 0.0
    ensures 1.0 * y + (-a) * x + (-b) == 0.0
  {
  }

  /** When the means are those of points on the line `a0*x + b0`, the closed-form slope
      and intercept give back `a0` and `b0`. */
  lemma MomentsOfLine(xy: real, x: real, x2: real, y: real, a0: real, b0: real)
    requires x2 - Sq(x) != 0.0
    requires y == a0 * x + 0.0 * x + b0
    requires xy == a0 * x2 + b0 * x + 0.0
    ensures (xy - x * y) / (x2 - Sq(x)) == a0
    ensures y - a0 * x == b0
  {
  }
}
