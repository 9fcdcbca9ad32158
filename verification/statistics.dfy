/** The arithmetic of the fit, over ideal reals: the y-uncertainty-weighted mean
    (`calc_z_bar`), the two chi-square costs (`calc_chi_sqr`, `calc_chi_sqr_bonus`), the
    line evaluation (`calc_linear_values`) and the closed-form least-squares line of
    `calc_parameters`.

    Every division by zero the script can hit ends the run with ZeroDivisionError; the
    model returns `Err(DivisionByZero)` in exactly those cases.
 */
module Statistics {
  import opened Errors
  import opened Sums
  import opened RealFacts

  /** The four measured columns of a dataset. */
  datatype Measurements = Measurements(x: seq<real>, dx: seq<real>, y: seq<real>, dy: seq<real>) {

    /** The shape `check_data_validation` accepts: four lists of one length. */
    predicate Parallel() {
      |dx| == |x| && |y| == |x| && |dy| == |x|
    }

    /** The same points listed in the order `p`: point `i` of the result is point `p[i]`. */
    function Reordered(p: seq<int>): (m: Measurements)
      requires Parallel() && |p| == |x| && IsPermutation(p)
      ensures m.Parallel() && |m.x| == |x|
    {
      Measurements(Permute(x, p), Permute(dx, p), Permute(y, p), Permute(dy, p))
    }
  }

  /** None of the first `n` uncertainties is zero. */
  predicate NonZero(dy: seq<real>, n: nat)
    requires n <= |dy|
  {
    forall i :: 0 <= i < n ==> dy[i] != 0.0
  }

  /** All values of `z` are equal. */
  predicate Constant(z: seq<real>) {
    forall i, j :: 0 <= i < |z| && 0 <= j < |z| ==> z[i] == z[j]
  }

  /** Element-wise product, as the list comprehensions `[x[i]*y[i] for i in range(n)]`. */
  function Products(u: seq<real>, v: seq<real>): (p: seq<real>)
    requires |u| <= |v|
    ensures |p| == |u|
  {
    seq(|u|, i requires 0 <= i < |u| => u[i] * v[i])
  }

  /** Element-wise square, as `[x[i]*x[i] for i in range(n)]`. */
  function Squares(u: seq<real>): (p: seq<real>)
    ensures |p| == |u|
  {
    seq(|u|, i requires 0 <= i < |u| => Sq(u[i]))
  }

  function Min(z: seq<real>): (m: real)
    requires |z| > 0
    ensures forall i :: 0 <= i < |z| ==> m <= z[i]
    ensures exists i :: 0 <= i < |z| && m == z[i]
  {
    if |z| == 1 then z[0]
    else
      var m := Min(z[..|z| - 1]);
      assert forall i :: 0 <= i < |z| - 1 ==> z[..|z| - 1][i] == z[i];
      if z[|z| - 1] < m then z[|z| - 1] else m
  }

  function Max(z: seq<real>): (m: real)
    requires |z| > 0
    ensures forall i :: 0 <= i < |z| ==> z[i] <= m
    ensures exists i :: 0 <= i < |z| && m == z[i]
  {
    if |z| == 1 then z[0]
    else
      var m := Max(z[..|z| - 1]);
      assert forall i :: 0 <= i < |z| - 1 ==> z[..|z| - 1][i] == z[i];
      if z[|z| - 1] > m then z[|z| - 1] else m
  }

  // ---------------------------------------------------------------------------
  // calc_z_bar: the weighted mean
  // ---------------------------------------------------------------------------

  /** The weights 1/dy² of the first `n` points. */
  function Weights(dy: seq<real>, n: nat): (w: seq<real>)
    requires n <= |dy| && NonZero(dy, n)
    ensures |w| == n
  {
    seq(n, i requires 0 <= i < n => 1.0 / Sq(dy[i]))
  }

  /** The weighted terms z[i]/dy[i]² of the numerator. */
  function WeightedTerms(z: seq<real>, dy: seq<real>): (t: seq<real>)
    requires |z| <= |dy| && NonZero(dy, |z|)
    ensures |t| == |z|
  {
    seq(|z|, i requires 0 <= i < |z| => z[i] / Sq(dy[i]))
  }

  lemma WeightsPositive(dy: seq<real>, n: nat)
    requires n <= |dy| && NonZero(dy, n) && n > 0
    ensures Sum(Weights(dy, n)) > 0.0
  {
    var w := Weights(dy, n);
    forall i | 0 <= i < n
      ensures w[i] > 0.0
    {
      assert Sq(dy[i]) > 0.0;
    }
    SumPositive(w);
  }

  /** The mean of a non-empty `z` weighted by 1/dy²: `calc_z_bar` when it does not raise. */
  function Mean(z: seq<real>, dy: seq<real>): real
    requires |z| <= |dy| && NonZero(dy, |z|) && |z| > 0
  {
    WeightsPositive(dy, |z|);
    Sum(WeightedTerms(z, dy)) / Sum(Weights(dy, |z|))
  }

  /** Each weighted term is its value times a positive weight. */
  lemma WeightedTermAt(z: seq<real>, dy: seq<real>, i: int)
    requires |z| <= |dy| && NonZero(dy, |z|) && 0 <= i < |z|
    ensures Weights(dy, |z|)[i] > 0.0
    ensures WeightedTerms(z, dy)[i] == z[i] * Weights(dy, |z|)[i]
  {
    DivIsMulInverse(z[i], Sq(dy[i]));
  }

  /** A weighted mean lies between the least and the greatest of its values. */
  lemma MeanBetween(z: seq<real>, dy: seq<real>, lo: real, hi: real)
    requires |z| <= |dy| && NonZero(dy, |z|) && |z| > 0
    requires forall i :: 0 <= i < |z| ==> lo <= z[i] <= hi
    ensures lo <= Mean(z, dy) <= hi
  {
    var n := |z|;
    var w := Weights(dy, n);
    var t := WeightedTerms(z, dy);
    forall i | 0 <= i < n
      ensures w[i] > 0.0 && lo * w[i] <= t[i] <= hi * w[i]
    {
      WeightedTermAt(z, dy, i);
      MulMonotone(lo, z[i], w[i]);
      MulMonotone(z[i], hi, w[i]);
    }
    RatioBetween(t, w, lo, hi);
  }

  /** `calc_z_bar(z, dy)`: raises ZeroDivisionError when a weight divides by zero or
      `z` is empty (0/0); otherwise the weighted mean, which never leaves the range of `z`. */
  function CalcZBar(z: seq<real>, dy: seq<real>): (r: Result<real>)
    requires |z| <= |dy|
    ensures r.Err? <==> |z| == 0 || !NonZero(dy, |z|)
    ensures r.Err? ==> r.error == DivisionByZero
    ensures r.Ok? ==> Min(z) <= r.value <= Max(z)
  {
    if !NonZero(dy, |z|) || |z| == 0 then
      Err(DivisionByZero)
    else
      MeanBetween(z, dy, Min(z), Max(z));
      Ok(Mean(z, dy))
  }

  /** The weighted mean of a constant list is that constant. */
  lemma MeanOfConstant(z: seq<real>, dy: seq<real>, c: real)
    requires |z| <= |dy| && NonZero(dy, |z|) && |z| > 0
    requires forall i :: 0 <= i < |z| ==> z[i] == c
    ensures Mean(z, dy) == c
  {
    MeanBetween(z, dy, c, c);
  }

  /** Scaling every uncertainty by the same non-zero factor leaves the weighted mean unchanged. */
  lemma ZBarScaleInvariant(z: seq<real>, dy: seq<real>, dy': seq<real>, c: real)
    requires |z| <= |dy| && |dy'| == |dy| && c != 0.0
    requires forall i :: 0 <= i < |dy| ==> dy'[i] == c * dy[i]
    ensures CalcZBar(z, dy') == CalcZBar(z, dy)
  {
    forall i | 0 <= i < |z|
      ensures dy'[i] == 0.0 <==> dy[i] == 0.0
    {
      ProductZeroIff(c, dy[i]);
    }
    if NonZero(dy, |z|) && |z| > 0 {
      MeanScaleInvariant(z, dy, dy', c, 1.0 / Sq(c));
    }
  }

  /** Scaling the uncertainties by `c` scales every weight by `k = 1/c²`, which cancels
      in the mean. */
  lemma MeanScaleInvariant(z: seq<real>, dy: seq<real>, dy': seq<real>, c: real, k: real)
    requires |z| <= |dy| && |dy'| == |dy| && c != 0.0 && k == 1.0 / Sq(c)
    requires NonZero(dy, |z|) && NonZero(dy', |z|) && |z| > 0
    requires forall i :: 0 <= i < |dy| ==> dy'[i] == c * dy[i]
    ensures Mean(z, dy') == Mean(z, dy)
  {
    ScaledTermsSum(z, dy, dy', c, k);
    ScaledWeightsSum(z, dy, dy', c, k);
    WeightsPositive(dy, |z|);
    CancelFactor(k, Sum(WeightedTerms(z, dy)), Sum(Weights(dy, |z|)));
  }

  /** Scaling every uncertainty by `c` scales the sum of the weighted terms by `1/c²`. */
  lemma ScaledTermsSum(z: seq<real>, dy: seq<real>, dy': seq<real>, c: real, k: real)
    requires |z| <= |dy| && |dy'| == |dy| && c != 0.0 && k == 1.0 / Sq(c)
    requires NonZero(dy, |z|) && NonZero(dy', |z|)
    requires forall i :: 0 <= i < |dy| ==> dy'[i] == c * dy[i]
    ensures Sum(WeightedTerms(z, dy')) == k * Sum(WeightedTerms(z, dy))
  {
    forall i | 0 <= i < |z|
      ensures WeightedTerms(z, dy')[i] == k * WeightedTerms(z, dy)[i]
    {
      ScaledTermAt(z, dy, dy', c, k, i);
    }
    SumScaled(WeightedTerms(z, dy'), WeightedTerms(z, dy), k);
  }

  /** Scaling every uncertainty by `c` scales the sum of the weights by `1/c²`. */
  lemma ScaledWeightsSum(z: seq<real>, dy: seq<real>, dy': seq<real>, c: real, k: real)
    requires |z| <= |dy| && |dy'| == |dy| && c != 0.0 && k == 1.0 / Sq(c)
    requires NonZero(dy, |z|) && NonZero(dy', |z|)
    requires forall i :: 0 <= i < |dy| ==> dy'[i] == c * dy[i]
    ensures Sum(Weights(dy', |z|)) == k * Sum(Weights(dy, |z|))
  {
    forall i | 0 <= i < |z|
      ensures Weights(dy', |z|)[i] == k * Weights(dy, |z|)[i]
    {
      ScaledTermAt(z, dy, dy', c, k, i);
    }
    SumScaled(Weights(dy', |z|), Weights(dy, |z|), k);
  }

  lemma ScaledTermAt(z: seq<real>, dy: seq<real>, dy': seq<real>, c: real, k: real, i: int)
    requires |z| <= |dy| && |dy'| == |dy| && c != 0.0 && k == 1.0 / Sq(c)
    requires NonZero(dy, |z|) && NonZero(dy', |z|)
    requires 0 <= i < |z| && dy'[i] == c * dy[i]
    ensures WeightedTerms(z, dy')[i] == k * WeightedTerms(z, dy)[i]
    ensures Weights(dy', |z|)[i] == k * Weights(dy, |z|)[i]
  {
    SquareOfProduct(c, dy[i]);
    QuotientOfScaled(z[i], Sq(c), Sq(dy[i]), k);
    QuotientOfScaled(1.0, Sq(c), Sq(dy[i]), k);
  }

  /** One weighted term of an affine combination is the same combination of weighted terms. */
  lemma AffineTermAt(w: seq<real>, u: seq<real>, v: seq<real>, dy: seq<real>,
                     alpha: real, beta: real, gamma: real, i: int)
    requires |w| == |u| == |v| <= |dy| && NonZero(dy, |w|) && 0 <= i < |w|
    requires w[i] == alpha * u[i] + beta * v[i] + gamma
    ensures WeightedTerms(w, dy)[i]
         == alpha * WeightedTerms(u, dy)[i] + beta * WeightedTerms(v, dy)[i] + gamma * Weights(dy, |w|)[i]
  {
    DivDistributes(alpha, u[i], beta, v[i], gamma, Sq(dy[i]));
  }

  /** The weighted mean is affine: averaging `alpha*u + beta*v + gamma` gives
      `alpha*mean(u) + beta*mean(v) + gamma`. */
  lemma MeanAffine(w: seq<real>, u: seq<real>, v: seq<real>, dy: seq<real>,
                   alpha: real, beta: real, gamma: real)
    requires |w| == |u| == |v| <= |dy| && NonZero(dy, |w|) && |w| > 0
    requires forall i :: 0 <= i < |w| ==> w[i] == alpha * u[i] + beta * v[i] + gamma
    ensures Mean(w, dy) == alpha * Mean(u, dy) + beta * Mean(v, dy) + gamma
  {
    var n := |w|;
    var tw, tu, tv := WeightedTerms(w, dy), WeightedTerms(u, dy), WeightedTerms(v, dy);
    var ws := Weights(dy, n);
    forall i | 0 <= i < n
      ensures tw[i] == alpha * tu[i] + beta * tv[i] + gamma * ws[i]
    {
      AffineTermAt(w, u, v, dy, alpha, beta, gamma, i);
    }
    SumCombination(tw, tu, tv, ws, alpha, beta, gamma);
    WeightsPositive(dy, n);
    DivCombination(alpha, Sum(tu), beta, Sum(tv), gamma, Sum(ws));
  }

  /** One weighted term of a combination of three lists is the same combination of
      weighted terms. */
  lemma LinearTermAt(w: seq<real>, u: seq<real>, v: seq<real>, z: seq<real>, dy: seq<real>,
                     alpha: real, beta: real, gamma: real, i: int)
    requires |w| == |u| == |v| == |z| <= |dy| && NonZero(dy, |w|) && 0 <= i < |w|
    requires w[i] == alpha * u[i] + beta * v[i] + gamma * z[i]
    ensures WeightedTerms(w, dy)[i]
         == alpha * WeightedTerms(u, dy)[i] + beta * WeightedTerms(v, dy)[i] + gamma * WeightedTerms(z, dy)[i]
  {
    DivLinear(alpha, u[i], beta, v[i], gamma, z[i], Sq(dy[i]));
  }

  /** The weighted mean is linear: averaging `alpha*u + beta*v + gamma*z` gives the same
      combination of the means. */
  lemma MeanLinear(w: seq<real>, u: seq<real>, v: seq<real>, z: seq<real>, dy: seq<real>,
                   alpha: real, beta: real, gamma: real)
    requires |w| == |u| == |v| == |z| <= |dy| && NonZero(dy, |w|) && |w| > 0
    requires forall i :: 0 <= i < |w| ==> w[i] == alpha * u[i] + beta * v[i] + gamma * z[i]
    ensures Mean(w, dy) == alpha * Mean(u, dy) + beta * Mean(v, dy) + gamma * Mean(z, dy)
  {
    var tw, tu, tv, tz := WeightedTerms(w, dy), WeightedTerms(u, dy), WeightedTerms(v, dy), WeightedTerms(z, dy);
    forall i | 0 <= i < |w|
      ensures tw[i] == alpha * tu[i] + beta * tv[i] + gamma * tz[i]
    {
      LinearTermAt(w, u, v, z, dy, alpha, beta, gamma, i);
    }
    SumCombination(tw, tu, tv, tz, alpha, beta, gamma);
    WeightsPositive(dy, |w|);
    DivLinear(alpha, Sum(tu), beta, Sum(tv), gamma, Sum(tz), Sum(Weights(dy, |w|)));
  }

  /** The squared deviations `(x[i] − m)²` from a centre `m`. */
  function Deviations(x: seq<real>, m: real): (d: seq<real>)
    ensures |d| == |x|
    ensures forall i :: 0 <= i < |x| ==> d[i] >= 0.0 && (d[i] == 0.0 <==> x[i] == m)
  {
    seq(|x|, i requires 0 <= i < |x| => Sq(x[i] - m))
  }

  /** The weighted mean of the squared deviations from the mean is `mean(x²) − mean(x)²`. */
  lemma VarianceIsMeanDeviation(x: seq<real>, dy: seq<real>)
    requires |x| <= |dy| && NonZero(dy, |x|) && |x| > 0
    ensures Mean(Deviations(x, Mean(x, dy)), dy) == Mean(Squares(x), dy) - Sq(Mean(x, dy))
  {
    var m := Mean(x, dy);
    DeviationsExpand(x, m);
    MeanAffine(Deviations(x, m), Squares(x), x, dy, 1.0, -2.0 * m, Sq(m));
    CentredSquares(Mean(Deviations(x, m), dy), Mean(Squares(x), dy), m);
  }

  lemma DeviationsExpand(x: seq<real>, m: real)
    ensures forall i :: 0 <= i < |x| ==>
      Deviations(x, m)[i] == 1.0 * Squares(x)[i] + (-2.0 * m) * x[i] + Sq(m)
  {
    forall i | 0 <= i < |x|
      ensures Deviations(x, m)[i] == 1.0 * Squares(x)[i] + (-2.0 * m) * x[i] + Sq(m)
    {
      SquareOfDifference(x[i], m);
    }
  }

  /** A weighted mean of non-negative values is non-negative, and zero exactly when
      every value is zero. */
  lemma MeanZeroIff(z: seq<real>, dy: seq<real>)
    requires |z| <= |dy| && NonZero(dy, |z|) && |z| > 0
    requires forall i :: 0 <= i < |z| ==> z[i] >= 0.0
    ensures Mean(z, dy) >= 0.0
    ensures Mean(z, dy) == 0.0 <==> forall i :: 0 <= i < |z| ==> z[i] == 0.0
  {
    var t := WeightedTerms(z, dy);
    forall i | 0 <= i < |z|
      ensures t[i] >= 0.0 && (t[i] == 0.0 <==> z[i] == 0.0)
    {
      WeightedTermAt(z, dy, i);
    }
    SumNonNegative(t);
    SumZeroIff(t);
    WeightsPositive(dy, |z|);
    if Mean(z, dy) == 0.0 {
      assert Sum(t) == 0.0;
    }
  }

  /** The weighted variance `mean(x²) − mean(x)²` is never negative, and it is zero
      exactly when all x are equal: the degenerate input `calc_parameters` divides by. */
  lemma VarianceZeroIffConstant(x: seq<real>, dy: seq<real>)
    requires |x| <= |dy| && NonZero(dy, |x|) && |x| > 0
    ensures Mean(Squares(x), dy) - Sq(Mean(x, dy)) >= 0.0
    ensures Mean(Squares(x), dy) - Sq(Mean(x, dy)) == 0.0 <==> Constant(x)
  {
    var m := Mean(x, dy);
    var dev := Deviations(x, m);
    VarianceIsMeanDeviation(x, dy);
    MeanZeroIff(dev, dy);
    if Constant(x) {
      MeanOfConstant(x, dy, x[0]);
      assert forall i :: 0 <= i < |x| ==> dev[i] == 0.0;
    } else {
      var i, j :| 0 <= i < |x| && 0 <= j < |x| && x[i] != x[j];
      assert dev[i] != 0.0 || dev[j] != 0.0;
    }
  }

  // ---------------------------------------------------------------------------
  // calc_chi_sqr: the y-only cost
  // ---------------------------------------------------------------------------

  /** The residual of point `i` against the line `a*x + b`, as the script writes it. */
  function Residual(y: seq<real>, a: real, x: seq<real>, b: real, i: int): real
    requires 0 <= i < |y| && i < |x|
  {
    y[i] - (a * x[i] + b)
  }

  /** The points `0 <= i < n` all lie on the line `a*x + b`. */
  predicate OnLine(y: seq<real>, a: real, x: seq<real>, b: real, n: nat)
    requires n <= |y| && n <= |x|
  {
    forall i :: 0 <= i < n ==> y[i] == a * x[i] + b
  }

  function ChiTerms(y: seq<real>, a: real, x: seq<real>, b: real, dy: seq<real>, n: nat): (t: seq<real>)
    requires n <= |y| && n <= |x| && n <= |dy| && NonZero(dy, n)
    ensures |t| == n
  {
    seq(n, i requires 0 <= i < n => Sq(Residual(y, a, x, b, i) / dy[i]))
  }

  /** The y-only chi-square of the first `n` points, when no uncertainty is zero. */
  function ChiSqr(y: seq<real>, a: real, x: seq<real>, b: real, dy: seq<real>, n: nat): real
    requires n <= |y| && n <= |x| && n <= |dy| && NonZero(dy, n)
  {
    Sum(ChiTerms(y, a, x, b, dy, n))
  }

  /** Chi-square is non-negative and vanishes exactly on data lying on the line. */
  lemma ChiSqrZeroIffOnLine(y: seq<real>, a: real, x: seq<real>, b: real, dy: seq<real>, n: nat)
    requires n <= |y| && n <= |x| && n <= |dy| && NonZero(dy, n)
    ensures ChiSqr(y, a, x, b, dy, n) >= 0.0
    ensures ChiSqr(y, a, x, b, dy, n) == 0.0 <==> OnLine(y, a, x, b, n)
  {
    var t := ChiTerms(y, a, x, b, dy, n);
    forall i | 0 <= i < n
      ensures t[i] >= 0.0 && (t[i] == 0.0 <==> y[i] == a * x[i] + b)
    {
      var q := Residual(y, a, x, b, i) / dy[i];
      assert q == 0.0 <==> Residual(y, a, x, b, i) == 0.0;
    }
    SumNonNegative(t);
    SumZeroIff(t);
  }

  /** `calc_chi_sqr(y, a, x, b, dy, n)`: ZeroDivisionError exactly when one of the first
      `n` uncertainties is zero; otherwise a non-negative cost that is zero exactly when
      every point lies on the line. */
  function CalcChiSqr(y: seq<real>, a: real, x: seq<real>, b: real, dy: seq<real>, n: nat): (r: Result<real>)
    requires n <= |y| && n <= |x| && n <= |dy|
    ensures r.Err? <==> !NonZero(dy, n)
    ensures r.Err? ==> r.error == DivisionByZero
    ensures r.Ok? ==> r.value >= 0.0
    ensures r.Ok? ==> (r.value == 0.0 <==> OnLine(y, a, x, b, n))
  {
    if !NonZero(dy, n) then
      Err(DivisionByZero)
    else
      ChiSqrZeroIffOnLine(y, a, x, b, dy, n);
      Ok(ChiSqr(y, a, x, b, dy, n))
  }

  // ---------------------------------------------------------------------------
  // calc_linear_values and calc_chi_sqr_bonus: the x-aware cost
  // ---------------------------------------------------------------------------

  /** `calc_linear_values(x, a, b)`: the line evaluated at every x, appended in order. */
  function LinearValues(x: seq<real>, a: real, b: real): (f: seq<real>)
    ensures |f| == |x|
    ensures forall i :: 0 <= i < |x| ==> f[i] == b + x[i] * a
  {
    if |x| == 0 then [] else LinearValues(x[..|x| - 1], a, b) + [b + x[|x| - 1] * a]
  }

  /** `x[i] + dx[i]` (sign +1) or `x[i] - dx[i]` (sign -1) for the first `n` points. */
  function Shifted(x: seq<real>, dx: seq<real>, sign: real, n: nat): (s: seq<real>)
    requires n <= |x| && n <= |dx|
    ensures |s| == n
  {
    seq(n, i requires 0 <= i < n => x[i] + sign * dx[i])
  }

  /** The quadrature denominators `dy² + (f(x+dx) − f(x−dx))²` of the bonus cost; the
      finite difference of a line is exactly `2·a·dx`. */
  function BonusDenominators(a: real, x: seq<real>, b: real, dy: seq<real>, dx: seq<real>, n: nat): (d: seq<real>)
    requires n <= |x| && n <= |dy| && n <= |dx|
    ensures |d| == n
    ensures forall i :: 0 <= i < n ==> d[i] == Sq(dy[i]) + Sq(2.0 * a * dx[i])
  {
    var fPlus := LinearValues(Shifted(x, dx, 1.0, n), a, b);
    var fMinus := LinearValues(Shifted(x, dx, -1.0, n), a, b);
    seq(n, i requires 0 <= i < n => Sq(dy[i]) + Sq(fPlus[i] - fMinus[i]))
  }

  lemma SquaresVanish(u: real, v: real)
    ensures Sq(u) + Sq(v) >= Sq(u)
    ensures Sq(u) + Sq(v) == 0.0 <==> u == 0.0 && v == 0.0
  {
    assert Sq(u) >= 0.0 && Sq(v) >= 0.0;
    assert Sq(u) == 0.0 ==> u == 0.0;
  }

  /** Some bonus denominator among the first `n` is zero. */
  predicate BonusSingular(a: real, x: seq<real>, dy: seq<real>, dx: seq<real>, n: nat)
    requires n <= |x| && n <= |dy| && n <= |dx|
  {
    exists i :: 0 <= i < n && dy[i] == 0.0 && a * dx[i] == 0.0
  }

  lemma BonusDenominatorsZero(a: real, x: seq<real>, b: real, dy: seq<real>, dx: seq<real>, n: nat)
    requires n <= |x| && n <= |dy| && n <= |dx|
    ensures forall i :: 0 <= i < n ==>
      (BonusDenominators(a, x, b, dy, dx, n)[i] == 0.0 <==> dy[i] == 0.0 && a * dx[i] == 0.0)
  {
    var d := BonusDenominators(a, x, b, dy, dx, n);
    forall i | 0 <= i < n
      ensures d[i] == 0.0 <==> dy[i] == 0.0 && a * dx[i] == 0.0
    {
      SquaresVanish(dy[i], 2.0 * a * dx[i]);
    }
  }

  /** The bonus terms `((y − f)/√D)²`, written `(y − f)²/D` since the root is squared again. */
  function BonusTerms(y: seq<real>, a: real, x: seq<real>, b: real, dy: seq<real>, dx: seq<real>, n: nat): (t: seq<real>)
    requires n <= |y| && n <= |x| && n <= |dy| && n <= |dx|
    requires !BonusSingular(a, x, dy, dx, n)
    ensures |t| == n
  {
    var f := LinearValues(x, a, b);
    var d := BonusDenominators(a, x, b, dy, dx, n);
    BonusDenominatorsZero(a, x, b, dy, dx, n);
    seq(n, i requires 0 <= i < n => Sq(y[i] - f[i]) / d[i])
  }

  /** Squaring the quotient by a square root of `d` cancels the root: the step that
      turns the script's `((y-f)/(D)**0.5)**2` into `(y-f)²/D`. */
  lemma RootCancels(r: real, d: real, root: real)
    requires root > 0.0 && Sq(root) == d
    ensures Sq(r / root) == Sq(r) / d
  {
    assert root != 0.0;
  }

  /** The terms in the script's own form: for any positive square roots of the
      denominators, term `i` is `((y − f)/root)²` with `f = b + x·a`. */
  lemma BonusTermsAsRoots(y: seq<real>, a: real, x: seq<real>, b: real, dy: seq<real>, dx: seq<real>, n: nat,
                          roots: seq<real>)
    requires n <= |y| && n <= |x| && n <= |dy| && n <= |dx|
    requires !BonusSingular(a, x, dy, dx, n)
    requires |roots| == n
    requires forall i :: 0 <= i < n ==>
      roots[i] > 0.0 && Sq(roots[i]) == BonusDenominators(a, x, b, dy, dx, n)[i]
    ensures forall i :: 0 <= i < n ==>
      BonusTerms(y, a, x, b, dy, dx, n)[i] == Sq((y[i] - (b + x[i] * a)) / roots[i])
  {
    forall i | 0 <= i < n
      ensures BonusTerms(y, a, x, b, dy, dx, n)[i] == Sq((y[i] - (b + x[i] * a)) / roots[i])
    {
      BonusTermAt(y, a, x, b, dy, dx, n, i);
      RootCancels(y[i] - (b + x[i] * a), BonusDenominators(a, x, b, dy, dx, n)[i], roots[i]);
    }
  }

  lemma BonusTermAt(y: seq<real>, a: real, x: seq<real>, b: real, dy: seq<real>, dx: seq<real>, n: nat, i: nat)
    requires n <= |y| && n <= |x| && n <= |dy| && n <= |dx|
    requires !BonusSingular(a, x, dy, dx, n) && i < n
    ensures BonusTerms(y, a, x, b, dy, dx, n)[i] == Sq(y[i] - (b + x[i] * a)) / BonusDenominators(a, x, b, dy, dx, n)[i]
  {
  }

  /** `calc_chi_sqr_bonus(y, a, x, b, dy, dx, n)`: ZeroDivisionError exactly when some
      point has `dy == 0` and `a·dx == 0`; otherwise a non-negative cost that is zero
      exactly when every point lies on the line. */
  function CalcChiSqrBonus(y: seq<real>, a: real, x: seq<real>, b: real, dy: seq<real>, dx: seq<real>, n: nat): (r: Result<real>)
    requires n <= |y| && n <= |x| && n <= |dy| && n <= |dx|
    ensures r.Err? <==> BonusSingular(a, x, dy, dx, n)
    ensures r.Err? ==> r.error == DivisionByZero
    ensures r.Ok? ==> r.value >= 0.0
    ensures r.Ok? ==> (r.value == 0.0 <==> OnLine(y, a, x, b, n))
  {
    if BonusSingular(a, x, dy, dx, n) then
      Err(DivisionByZero)
    else
      BonusZeroIffOnLine(y, a, x, b, dy, dx, n);
      Ok(Sum(BonusTerms(y, a, x, b, dy, dx, n)))
  }

  lemma BonusZeroIffOnLine(y: seq<real>, a: real, x: seq<real>, b: real, dy: seq<real>, dx: seq<real>, n: nat)
    requires n <= |y| && n <= |x| && n <= |dy| && n <= |dx|
    requires !BonusSingular(a, x, dy, dx, n)
    ensures Sum(BonusTerms(y, a, x, b, dy, dx, n)) >= 0.0
    ensures Sum(BonusTerms(y, a, x, b, dy, dx, n)) == 0.0 <==> OnLine(y, a, x, b, n)
  {
    var t := BonusTerms(y, a, x, b, dy, dx, n);
    var d := BonusDenominators(a, x, b, dy, dx, n);
    BonusDenominatorsZero(a, x, b, dy, dx, n);
    forall i | 0 <= i < n
      ensures t[i] >= 0.0 && (t[i] == 0.0 <==> y[i] == a * x[i] + b)
    {
      SquaresVanish(dy[i], 2.0 * a * dx[i]);
      assert d[i] > 0.0;
      var r := y[i] - (b + x[i] * a);
      assert t[i] == Sq(r) / d[i];
      assert Sq(r) >= 0.0;
      assert Sq(r) == 0.0 <==> r == 0.0;
    }
    SumNonNegative(t);
    SumZeroIff(t);
  }

  /** Accounting for x-uncertainty only enlarges each denominator, so the x-aware cost
      never exceeds the y-only cost of the same line. */
  lemma BonusAtMostChiSqr(y: seq<real>, a: real, x: seq<real>, b: real, dy: seq<real>, dx: seq<real>, n: nat)
    requires n <= |y| && n <= |x| && n <= |dy| && n <= |dx| && NonZero(dy, n)
    ensures CalcChiSqrBonus(y, a, x, b, dy, dx, n).Ok?
    ensures CalcChiSqrBonus(y, a, x, b, dy, dx, n).value <= CalcChiSqr(y, a, x, b, dy, n).value
  {
    var t := BonusTerms(y, a, x, b, dy, dx, n);
    var c := ChiTerms(y, a, x, b, dy, n);
    forall i | 0 <= i < n
      ensures t[i] <= c[i]
    {
      BonusTermAtMost(y, a, x, b, dy, dx, n, i);
    }
    SumMonotone(t, c);
  }

  lemma BonusTermAtMost(y: seq<real>, a: real, x: seq<real>, b: real, dy: seq<real>, dx: seq<real>, n: nat, i: int)
    requires n <= |y| && n <= |x| && n <= |dy| && n <= |dx| && NonZero(dy, n) && 0 <= i < n
    ensures !BonusSingular(a, x, dy, dx, n)
    ensures BonusTerms(y, a, x, b, dy, dx, n)[i] <= ChiTerms(y, a, x, b, dy, n)[i]
  {
    var r := Residual(y, a, x, b, i);
    assert y[i] - LinearValues(x, a, b)[i] == r;
    SquareOfQuotient(r, dy[i]);
    DivDecreasesInDenominator(Sq(r), Sq(dy[i]), BonusDenominators(a, x, b, dy, dx, n)[i]);
  }

  /** With no x-uncertainty the x-aware cost is the y-only cost. */
  lemma BonusWithoutXErrors(y: seq<real>, a: real, x: seq<real>, b: real, dy: seq<real>, dx: seq<real>, n: nat)
    requires n <= |y| && n <= |x| && n <= |dy| && n <= |dx| && NonZero(dy, n)
    requires forall i :: 0 <= i < n ==> dx[i] == 0.0
    ensures CalcChiSqrBonus(y, a, x, b, dy, dx, n) == CalcChiSqr(y, a, x, b, dy, n)
  {
    var t := BonusTerms(y, a, x, b, dy, dx, n);
    var c := ChiTerms(y, a, x, b, dy, n);
    var d := BonusDenominators(a, x, b, dy, dx, n);
    forall i | 0 <= i < n
      ensures t[i] == c[i]
    {
      var r := Residual(y, a, x, b, i);
      assert d[i] == Sq(dy[i]);
      assert t[i] == Sq(r) / Sq(dy[i]);
    }
    assert t == c;
  }

  // ---------------------------------------------------------------------------
  // calc_parameters: the closed-form weighted least-squares line
  // ---------------------------------------------------------------------------

  /** The residuals `y[i] − (a*x[i] + b)` of every point. */
  function Residuals(y: seq<real>, a: real, x: seq<real>, b: real): (r: seq<real>)
    requires |x| <= |y|
    ensures |r| == |x|
    ensures forall i :: 0 <= i < |x| ==> r[i] == Residual(y, a, x, b, i)
  {
    seq(|x|, i requires 0 <= i < |x| => Residual(y, a, x, b, i))
  }

  /** The chi-square of all points is the total weight times the weighted mean of the
      squared residuals. */
  lemma ChiSqrAsMean(y: seq<real>, a: real, x: seq<real>, b: real, dy: seq<real>)
    requires |y| == |x| <= |dy| && NonZero(dy, |x|) && |x| > 0
    ensures ChiSqr(y, a, x, b, dy, |x|)
         == Sum(Weights(dy, |x|)) * Mean(Squares(Residuals(y, a, x, b)), dy)
  {
    var r := Residuals(y, a, x, b);
    forall i | 0 <= i < |x|
      ensures ChiTerms(y, a, x, b, dy, |x|)[i] == WeightedTerms(Squares(r), dy)[i]
    {
      SquareOfQuotient(r[i], dy[i]);
    }
    assert ChiTerms(y, a, x, b, dy, |x|) == WeightedTerms(Squares(r), dy);
    WeightsPositive(dy, |x|);
    MulDiv(Sum(WeightedTerms(Squares(r), dy)), Sum(Weights(dy, |x|)));
  }

  /** The data admit a unique weighted least-squares line: it is non-empty, no
      uncertainty is zero and not every x is equal. */
  predicate Fittable(x: seq<real>, y: seq<real>, dy: seq<real>) {
    |y| == |x| <= |dy| && |x| > 0 && NonZero(dy, |x|) && !Constant(x)
  }

  /** The slope formula of `calc_parameters`, from the weighted means of x·y, x, x² and y. */
  function SlopeOf(xyBar: real, xBar: real, x2Bar: real, yBar: real): real
    requires x2Bar - Sq(xBar) != 0.0
  {
    (xyBar - xBar * yBar) / (x2Bar - Sq(xBar))
  }

  /** The intercept formula of `calc_parameters`. */
  function InterceptOf(a: real, xBar: real, yBar: real): real {
    yBar - a * xBar
  }

  /** The slope of the closed-form fit of the data. */
  function Slope(x: seq<real>, y: seq<real>, dy: seq<real>): real
    requires Fittable(x, y, dy)
  {
    VarianceZeroIffConstant(x, dy);
    SlopeOf(Mean(Products(x, y), dy), Mean(x, dy), Mean(Squares(x), dy), Mean(y, dy))
  }

  /** The intercept of the closed-form fit of the data. */
  function Intercept(x: seq<real>, y: seq<real>, dy: seq<real>): real
    requires Fittable(x, y, dy)
  {
    InterceptOf(Slope(x, y, dy), Mean(x, dy), Mean(y, dy))
  }

  lemma ResidualsExpand(y: seq<real>, a: real, x: seq<real>, b: real)
    requires |x| <= |y|
    ensures forall i :: 0 <= i < |x| ==> Residuals(y, a, x, b)[i] == 1.0 * y[i] + (-a) * x[i] + (-b)
    ensures forall i :: 0 <= i < |x| ==>
      Products(Residuals(y, a, x, b), x)[i] == 1.0 * Products(x, y)[i] + (-a) * Squares(x)[i] + (-b) * x[i]
  {
    forall i | 0 <= i < |x|
      ensures Products(Residuals(y, a, x, b), x)[i] == 1.0 * Products(x, y)[i] + (-a) * Squares(x)[i] + (-b) * x[i]
    {
      ResidualTimes(y[i], a, x[i], b);
    }
  }

  /** The weighted means of the residuals and of the residuals times x, for any line. */
  lemma ResidualMoments(x: seq<real>, y: seq<real>, dy: seq<real>, a: real, b: real)
    requires |y| == |x| <= |dy| && |x| > 0 && NonZero(dy, |x|)
    ensures Mean(Residuals(y, a, x, b), dy) == 1.0 * Mean(y, dy) + (-a) * Mean(x, dy) + (-b)
    ensures Mean(Products(Residuals(y, a, x, b), x), dy)
         == 1.0 * Mean(Products(x, y), dy) + (-a) * Mean(Squares(x), dy) + (-b) * Mean(x, dy)
  {
    ResidualMean(x, y, dy, a, b);
    ResidualXMean(x, y, dy, a, b);
  }

  lemma ResidualMean(x: seq<real>, y: seq<real>, dy: seq<real>, a: real, b: real)
    requires |y| == |x| <= |dy| && |x| > 0 && NonZero(dy, |x|)
    ensures Mean(Residuals(y, a, x, b), dy) == 1.0 * Mean(y, dy) + (-a) * Mean(x, dy) + (-b)
  {
    ResidualsExpand(y, a, x, b);
    MeanAffine(Residuals(y, a, x, b), y, x, dy, 1.0, -a, -b);
  }

  lemma ResidualXMean(x: seq<real>, y: seq<real>, dy: seq<real>, a: real, b: real)
    requires |y| == |x| <= |dy| && |x| > 0 && NonZero(dy, |x|)
    ensures Mean(Products(Residuals(y, a, x, b), x), dy)
         == 1.0 * Mean(Products(x, y), dy) + (-a) * Mean(Squares(x), dy) + (-b) * Mean(x, dy)
  {
    ResidualsExpand(y, a, x, b);
    MeanLinear(Products(Residuals(y, a, x, b), x), Products(x, y), Squares(x), x, dy, 1.0, -a, -b);
  }

  /** The residuals of the closed-form line have weighted mean zero and are uncorrelated
      with x: the normal equations of weighted least squares. */
  lemma NormalEquations(x: seq<real>, y: seq<real>, dy: seq<real>)
    requires Fittable(x, y, dy)
    ensures Mean(Residuals(y, Slope(x, y, dy), x, Intercept(x, y, dy)), dy) == 0.0
    ensures Mean(Products(Residuals(y, Slope(x, y, dy), x, Intercept(x, y, dy)), x), dy) == 0.0
  {
    var a, b := Slope(x, y, dy), Intercept(x, y, dy);
    VarianceZeroIffConstant(x, dy);
    ResidualMoments(x, y, dy, a, b);
    SlopeNormal(Mean(Products(x, y), dy), Mean(x, dy), Mean(Squares(x), dy), Mean(y, dy), a, b);
  }

  /** The normal equations in terms of the four means, for the slope and intercept
      formulas of `calc_parameters`. */
  lemma SlopeNormal(xy: real, x: real, x2: real, y: real, a: real, b: real)
    requires x2 - Sq(x) != 0.0
    requires a == SlopeOf(xy, x, x2, y) && b == InterceptOf(a, x, y)
    ensures 1.0 * xy + (-a) * x2 + (-b) * x == 0.0
    ensures 1.0 * y + (-a) * x + (-b) == 0.0
  {
    NormalEquation(xy, x, x2, y, a, b);
  }

  /** The offsets `p*x[i] + q` between the residuals of two lines. */
  function Offsets(x: seq<real>, p: real, q: real): (d: seq<real>)
    ensures |d| == |x|
    ensures forall i :: 0 <= i < |x| ==> d[i] == p * x[i] + q
  {
    seq(|x|, i requires 0 <= i < |x| => p * x[i] + q)
  }

  lemma ShiftExpand(x: seq<real>, y: seq<real>, a: real, b: real, a': real, b': real)
    requires |x| <= |y|
    ensures forall i :: 0 <= i < |x| ==>
      Squares(Residuals(y, a', x, b'))[i]
        == 1.0 * Squares(Residuals(y, a, x, b))[i]
         + 2.0 * Products(Residuals(y, a, x, b), Offsets(x, a - a', b - b'))[i]
         + 1.0 * Squares(Offsets(x, a - a', b - b'))[i]
    ensures forall i :: 0 <= i < |x| ==>
      Products(Residuals(y, a, x, b), Offsets(x, a - a', b - b'))[i]
        == (a - a') * Products(Residuals(y, a, x, b), x)[i] + (b - b') * Residuals(y, a, x, b)[i] + 0.0
  {
    SquaresShift(x, y, a, b, a', b');
    CrossShift(x, y, a, b, a', b');
  }

  lemma SquaresShift(x: seq<real>, y: seq<real>, a: real, b: real, a': real, b': real)
    requires |x| <= |y|
    ensures forall i :: 0 <= i < |x| ==>
      Squares(Residuals(y, a', x, b'))[i]
        == 1.0 * Squares(Residuals(y, a, x, b))[i]
         + 2.0 * Products(Residuals(y, a, x, b), Offsets(x, a - a', b - b'))[i]
         + 1.0 * Squares(Offsets(x, a - a', b - b'))[i]
  {
    var r, d := Residuals(y, a, x, b), Offsets(x, a - a', b - b');
    forall i | 0 <= i < |x|
      ensures Squares(Residuals(y, a', x, b'))[i] == 1.0 * Squares(r)[i] + 2.0 * Products(r, d)[i] + 1.0 * Squares(d)[i]
    {
      var r' := Residuals(y, a', x, b');
      ResidualShift(y[i], x[i], a, b, a', b');
      ShiftSquareAt(Squares(r')[i], Squares(r)[i], Products(r, d)[i], Squares(d)[i], r'[i], r[i], d[i]);
    }
  }

  lemma CrossShift(x: seq<real>, y: seq<real>, a: real, b: real, a': real, b': real)
    requires |x| <= |y|
    ensures forall i :: 0 <= i < |x| ==>
      Products(Residuals(y, a, x, b), Offsets(x, a - a', b - b'))[i]
        == (a - a') * Products(Residuals(y, a, x, b), x)[i] + (b - b') * Residuals(y, a, x, b)[i] + 0.0
  {
    var r, d := Residuals(y, a, x, b), Offsets(x, a - a', b - b');
    forall i | 0 <= i < |x|
      ensures Products(r, d)[i] == (a - a') * Products(r, x)[i] + (b - b') * r[i] + 0.0
    {
      ShiftTimes(r[i], x[i], a - a', b - b');
    }
  }

  /** Squared residuals of another line are those of the fit, plus a cross term, plus the
      squared offsets; the cross term averages to zero by the normal equations. */
  lemma MeanSquaredResidualsShift(x: seq<real>, y: seq<real>, dy: seq<real>, a': real, b': real)
    requires Fittable(x, y, dy)
    ensures Mean(Squares(Residuals(y, a', x, b')), dy)
         == Mean(Squares(Residuals(y, Slope(x, y, dy), x, Intercept(x, y, dy))), dy)
          + Mean(Squares(Offsets(x, Slope(x, y, dy) - a', Intercept(x, y, dy) - b')), dy)
  {
    NormalEquations(x, y, dy);
    ShiftFromNormal(x, y, dy, Slope(x, y, dy), Intercept(x, y, dy), a', b');
  }

  /** The same for any line `(a, b)` whose residuals satisfy the normal equations. */
  lemma ShiftFromNormal(x: seq<real>, y: seq<real>, dy: seq<real>, a: real, b: real, a': real, b': real)
    requires |y| == |x| <= |dy| && |x| > 0 && NonZero(dy, |x|)
    requires Mean(Residuals(y, a, x, b), dy) == 0.0 && Mean(Products(Residuals(y, a, x, b), x), dy) == 0.0
    ensures Mean(Squares(Residuals(y, a', x, b')), dy)
         == Mean(Squares(Residuals(y, a, x, b)), dy) + Mean(Squares(Offsets(x, a - a', b - b')), dy)
  {
    var r, d := Residuals(y, a, x, b), Offsets(x, a - a', b - b');
    ShiftExpand(x, y, a, b, a', b');
    MeanOfShift(Squares(Residuals(y, a', x, b')), Squares(r), Products(r, d), Squares(d), Products(r, x), r,
                dy, a - a', b - b');
  }

  /** Averaging the pointwise expansion: when the residuals `r` and their products with x
      `rx` average to zero, so does the cross term `c`. */
  lemma MeanOfShift(shifted: seq<real>, fit: seq<real>, c: seq<real>, offsets: seq<real>,
                    rx: seq<real>, r: seq<real>, dy: seq<real>, p: real, q: real)
    requires |shifted| == |fit| == |c| == |offsets| == |rx| == |r| <= |dy| && NonZero(dy, |r|) && |r| > 0
    requires forall i :: 0 <= i < |r| ==> shifted[i] == 1.0 * fit[i] + 2.0 * c[i] + 1.0 * offsets[i]
    requires forall i :: 0 <= i < |r| ==> c[i] == p * rx[i] + q * r[i] + 0.0
    requires Mean(rx, dy) == 0.0 && Mean(r, dy) == 0.0
    ensures Mean(shifted, dy) == Mean(fit, dy) + Mean(offsets, dy)
  {
    MeanLinear(shifted, fit, c, offsets, dy, 1.0, 2.0, 1.0);
    MeanAffine(c, rx, r, dy, p, q, 0.0);
    ShiftAlgebra(Mean(shifted, dy), Mean(fit, dy), Mean(c, dy), Mean(offsets, dy), Mean(rx, dy), Mean(r, dy), p, q);
  }

  /** The closed-form line minimises chi-square: no other line fits the data better. */
  lemma LeastSquaresOptimal(x: seq<real>, y: seq<real>, dy: seq<real>, a': real, b': real)
    requires Fittable(x, y, dy)
    ensures ChiSqr(y, Slope(x, y, dy), x, Intercept(x, y, dy), dy, |x|) <= ChiSqr(y, a', x, b', dy, |x|)
  {
    MeanSquaredResidualsShift(x, y, dy, a', b');
    OptimalFromShift(x, y, dy, Slope(x, y, dy), Intercept(x, y, dy), a', b');
  }

  /** A line `(a, b)` whose mean squared residual grows by the mean squared offset when it
      is moved has a chi-square no larger than any other line's. */
  lemma OptimalFromShift(x: seq<real>, y: seq<real>, dy: seq<real>, a: real, b: real, a': real, b': real)
    requires |y| == |x| <= |dy| && |x| > 0 && NonZero(dy, |x|)
    requires Mean(Squares(Residuals(y, a', x, b')), dy)
          == Mean(Squares(Residuals(y, a, x, b)), dy) + Mean(Squares(Offsets(x, a - a', b - b')), dy)
    ensures ChiSqr(y, a, x, b, dy, |x|) <= ChiSqr(y, a', x, b', dy, |x|)
  {
    var d := Offsets(x, a - a', b - b');
    forall i | 0 <= i < |x|
      ensures Squares(d)[i] >= 0.0
    {
    }
    MeanZeroIff(Squares(d), dy);
    ChiSqrAsMean(y, a, x, b, dy);
    ChiSqrAsMean(y, a', x, b', dy);
    WeightsPositive(dy, |x|);
    MulMonotoneLeft(Sum(Weights(dy, |x|)),
                    Mean(Squares(Residuals(y, a, x, b)), dy),
                    Mean(Squares(Residuals(y, a', x, b')), dy));
  }

  /** The weighted means of y and of x·y for points on the line `a0*x + b0`. */
  lemma MomentsOnLine(x: seq<real>, y: seq<real>, dy: seq<real>, a0: real, b0: real)
    requires |y| == |x| <= |dy| && |x| > 0 && NonZero(dy, |x|) && OnLine(y, a0, x, b0, |x|)
    ensures Mean(y, dy) == a0 * Mean(x, dy) + 0.0 * Mean(x, dy) + b0
    ensures Mean(Products(x, y), dy) == a0 * Mean(Squares(x), dy) + b0 * Mean(x, dy) + 0.0
  {
    MeanAffine(y, x, x, dy, a0, 0.0, b0);
    CrossMomentOnLine(x, y, dy, a0, b0);
  }

  lemma CrossMomentOnLine(x: seq<real>, y: seq<real>, dy: seq<real>, a0: real, b0: real)
    requires |y| == |x| <= |dy| && |x| > 0 && NonZero(dy, |x|) && OnLine(y, a0, x, b0, |x|)
    ensures Mean(Products(x, y), dy) == a0 * Mean(Squares(x), dy) + b0 * Mean(x, dy) + 0.0
  {
    forall i | 0 <= i < |x|
      ensures Products(x, y)[i] == a0 * Squares(x)[i] + b0 * x[i] + 0.0
    {
      LineTimes(x[i], a0, b0);
    }
    MeanAffine(Products(x, y), Squares(x), x, dy, a0, b0, 0.0);
  }

  /** Data lying exactly on a line give back that line, whatever the uncertainties. */
  lemma ExactLineRecovered(x: seq<real>, y: seq<real>, dy: seq<real>, a0: real, b0: real)
    requires Fittable(x, y, dy) && OnLine(y, a0, x, b0, |x|)
    ensures Slope(x, y, dy) == a0 && Intercept(x, y, dy) == b0
  {
    MomentsOnLine(x, y, dy, a0, b0);
    FitFromMoments(x, y, dy, a0, b0);
  }

  /** The fit of data whose weighted means are those of the line `a0*x + b0`. */
  lemma FitFromMoments(x: seq<real>, y: seq<real>, dy: seq<real>, a0: real, b0: real)
    requires Fittable(x, y, dy)
    requires Mean(y, dy) == a0 * Mean(x, dy) + 0.0 * Mean(x, dy) + b0
    requires Mean(Products(x, y), dy) == a0 * Mean(Squares(x), dy) + b0 * Mean(x, dy) + 0.0
    ensures Slope(x, y, dy) == a0 && Intercept(x, y, dy) == b0
  {
    VarianceZeroIffConstant(x, dy);
    LineFromMoments(Mean(Products(x, y), dy), Mean(x, dy), Mean(Squares(x), dy), Mean(y, dy), a0, b0);
  }

  /** The slope and intercept formulas applied to the moments of a line give that line. */
  lemma LineFromMoments(xyBar: real, xBar: real, x2Bar: real, yBar: real, a0: real, b0: real)
    requires x2Bar - Sq(xBar) != 0.0
    requires yBar == a0 * xBar + 0.0 * xBar + b0
    requires xyBar == a0 * x2Bar + b0 * xBar + 0.0
    ensures SlopeOf(xyBar, xBar, x2Bar, yBar) == a0
    ensures InterceptOf(a0, xBar, yBar) == b0
  {
    MomentsOfLine(xyBar, xBar, x2Bar, yBar, a0, b0);
  }

  /** `q` is `chi` shared out over the `n - 2` degrees of freedom of a two-parameter fit. */
  predicate PerDegreeOfFreedom(q: real, chi: real, n: nat) {
    q * ((n - 2) as real) == chi
  }

  /** `chi_sqr/(n-2)`: chi-square per degree of freedom of a two-parameter fit, with
      ZeroDivisionError when there are exactly two points. */
  function ReducedChiSqr(chi: real, n: nat): (r: Result<real>)
    ensures r.Err? <==> n == 2
    ensures r.Err? ==> r.error == DivisionByZero
    ensures r.Ok? ==> PerDegreeOfFreedom(r.value, chi, n)
  {
    if n == 2 then
      Err(DivisionByZero)
    else
      DivMul(chi, (n - 2) as real);
      Ok(chi / ((n - 2) as real))
  }

  /** The line `calc_parameters` fits, with the chi-square values it reports. */
  datatype LineFit = LineFit(a: real, b: real, chiSqr: real, chiSqrReduced: real)

  /** `calc_parameters(work_data)`: the weighted least-squares line through the data,
      with its chi-square and reduced chi-square.  Raises ZeroDivisionError for no points,
      a zero uncertainty, all x equal, or exactly two points.  The line it returns fits
      at least as well as any other, and data lying exactly on a line give that line back. */
  function CalcParameters(m: Measurements): (r: Result<LineFit>)
    requires m.Parallel()
    ensures r.Err? <==> |m.x| == 0 || !NonZero(m.dy, |m.x|) || Constant(m.x) || |m.x| == 2
    ensures r.Err? ==> r.error == DivisionByZero
    ensures r.Ok? ==> r.value.chiSqr == ChiSqr(m.y, r.value.a, m.x, r.value.b, m.dy, |m.x|)
    ensures r.Ok? ==> forall a', b' :: r.value.chiSqr <= ChiSqr(m.y, a', m.x, b', m.dy, |m.x|)
    ensures r.Ok? ==> forall a0, b0 :: OnLine(m.y, a0, m.x, b0, |m.x|) ==>
                        r.value.a == a0 && r.value.b == b0 && r.value.chiSqr == 0.0
    ensures r.Ok? ==> PerDegreeOfFreedom(r.value.chiSqrReduced, r.value.chiSqr, |m.x|)
  {
    var n := |m.x|;
    var xyBar :- CalcZBar(Products(m.x, m.y), m.dy);
    // The other three means divide by the same weights, so they succeed once this one has.
    var xBar := CalcZBar(m.x, m.dy).value;
    var x2Bar := CalcZBar(Squares(m.x), m.dy).value;
    var yBar := CalcZBar(m.y, m.dy).value;
    VarianceZeroIffConstant(m.x, m.dy);
    if x2Bar - Sq(xBar) == 0.0 then
      Err(DivisionByZero)
    else
      var a := SlopeOf(xyBar, xBar, x2Bar, yBar);
      var b := InterceptOf(a, xBar, yBar);
      var chi := CalcChiSqr(m.y, a, m.x, b, m.dy, n).value;
      var chiReduced :- ReducedChiSqr(chi, n);
      FitIsBest(m.x, m.y, m.dy);
      Ok(LineFit(a, b, chi, chiReduced))
  }

  /** The closed-form line is optimal, and exact on data lying on a line. */
  lemma FitIsBest(x: seq<real>, y: seq<real>, dy: seq<real>)
    requires Fittable(x, y, dy)
    ensures forall a', b' :: ChiSqr(y, Slope(x, y, dy), x, Intercept(x, y, dy), dy, |x|) <= ChiSqr(y, a', x, b', dy, |x|)
    ensures forall a0, b0 :: OnLine(y, a0, x, b0, |x|) ==>
              Slope(x, y, dy) == a0 && Intercept(x, y, dy) == b0
              && ChiSqr(y, Slope(x, y, dy), x, Intercept(x, y, dy), dy, |x|) == 0.0
  {
    forall a', b'
      ensures ChiSqr(y, Slope(x, y, dy), x, Intercept(x, y, dy), dy, |x|) <= ChiSqr(y, a', x, b', dy, |x|)
    {
      LeastSquaresOptimal(x, y, dy, a', b');
    }
    forall a0, b0 | OnLine(y, a0, x, b0, |x|)
      ensures Slope(x, y, dy) == a0 && Intercept(x, y, dy) == b0
      ensures ChiSqr(y, Slope(x, y, dy), x, Intercept(x, y, dy), dy, |x|) == 0.0
    {
      ExactLineRecovered(x, y, dy, a0, b0);
      ChiSqrZeroIffOnLine(y, a0, x, b0, dy, |x|);
    }
  }

  // ---------------------------------------------------------------------------
  // The order of the points does not matter
  // ---------------------------------------------------------------------------

  /** Reordering the uncertainties neither makes nor removes a zero among them. */
  lemma NonZeroPermute(dy: seq<real>, p: seq<int>)
    requires |p| == |dy| && IsPermutation(p)
    ensures NonZero(Permute(dy, p), |dy|) <==> NonZero(dy, |dy|)
  {
    if !NonZero(dy, |dy|) {
      var k :| 0 <= k < |dy| && dy[k] == 0.0;
      PermutationOnto(p, k);
      var i :| 0 <= i < |p| && p[i] == k;
      assert Permute(dy, p)[i] == 0.0;
    }
  }

  /** Reordering the values neither makes nor removes a difference among them. */
  lemma ConstantPermute(z: seq<real>, p: seq<int>)
    requires |p| == |z| && IsPermutation(p)
    ensures Constant(Permute(z, p)) <==> Constant(z)
  {
    if !Constant(z) {
      var k, l :| 0 <= k < |z| && 0 <= l < |z| && z[k] != z[l];
      PermutationOnto(p, k);
      PermutationOnto(p, l);
      var i :| 0 <= i < |p| && p[i] == k;
      var j :| 0 <= j < |p| && p[j] == l;
      assert Permute(z, p)[i] != Permute(z, p)[j];
    }
  }

  /** The weighted mean does not depend on the order of the points. */
  lemma MeanPermute(z: seq<real>, dy: seq<real>, p: seq<int>)
    requires |z| == |dy| == |p| > 0 && IsPermutation(p) && NonZero(dy, |z|)
    ensures NonZero(Permute(dy, p), |z|)
    ensures Mean(Permute(z, p), Permute(dy, p)) == Mean(z, dy)
  {
    NonZeroPermute(dy, p);
    assert WeightedTerms(Permute(z, p), Permute(dy, p)) == Permute(WeightedTerms(z, dy), p);
    assert Weights(Permute(dy, p), |z|) == Permute(Weights(dy, |z|), p);
    SumPermute(WeightedTerms(z, dy), p);
    SumPermute(Weights(dy, |z|), p);
  }

  /** Chi-square does not depend on the order of the points. */
  lemma ChiSqrPermute(y: seq<real>, a: real, x: seq<real>, b: real, dy: seq<real>, p: seq<int>)
    requires |y| == |x| == |dy| == |p| && IsPermutation(p) && NonZero(dy, |x|)
    ensures NonZero(Permute(dy, p), |x|)
    ensures ChiSqr(Permute(y, p), a, Permute(x, p), b, Permute(dy, p), |x|) == ChiSqr(y, a, x, b, dy, |x|)
  {
    NonZeroPermute(dy, p);
    var t := ChiTerms(y, a, x, b, dy, |x|);
    var t' := ChiTerms(Permute(y, p), a, Permute(x, p), b, Permute(dy, p), |x|);
    forall i | 0 <= i < |x|
      ensures t'[i] == Permute(t, p)[i]
    {
      assert Residual(Permute(y, p), a, Permute(x, p), b, i) == Residual(y, a, x, b, p[i]);
    }
    assert t' == Permute(t, p);
    SumPermute(t, p);
  }

  /** The closed-form line does not depend on the order of the points. */
  lemma SlopePermute(x: seq<real>, y: seq<real>, dy: seq<real>, p: seq<int>)
    requires |y| == |x| == |dy| == |p| && IsPermutation(p) && Fittable(x, y, dy)
    ensures Fittable(Permute(x, p), Permute(y, p), Permute(dy, p))
    ensures Slope(Permute(x, p), Permute(y, p), Permute(dy, p)) == Slope(x, y, dy)
    ensures Intercept(Permute(x, p), Permute(y, p), Permute(dy, p)) == Intercept(x, y, dy)
  {
    NonZeroPermute(dy, p);
    ConstantPermute(x, p);
    forall i | 0 <= i < |x|
      ensures Products(Permute(x, p), Permute(y, p))[i] == Permute(Products(x, y), p)[i]
    {
    }
    assert Products(Permute(x, p), Permute(y, p)) == Permute(Products(x, y), p);
    assert Squares(Permute(x, p)) == Permute(Squares(x), p);
    MeanPermute(Products(x, y), dy, p);
    MeanPermute(x, dy, p);
    MeanPermute(Squares(x), dy, p);
    MeanPermute(y, dy, p);
  }

  /** What `calc_parameters` returns for fittable data with more than two points. */
  lemma CalcParametersValue(m: Measurements)
    requires m.Parallel() && Fittable(m.x, m.y, m.dy) && |m.x| != 2
    ensures CalcParameters(m).Ok?
    ensures CalcParameters(m).value.a == Slope(m.x, m.y, m.dy)
    ensures CalcParameters(m).value.b == Intercept(m.x, m.y, m.dy)
    ensures CalcParameters(m).value.chiSqrReduced
         == CalcParameters(m).value.chiSqr / ((|m.x| - 2) as real)
  {
  }

  /** Listing the points in another order gives the same fit, the same chi-square and
      the same failures: `calc_parameters` only ever sums over the points. */
  lemma CalcParametersPermute(m: Measurements, p: seq<int>)
    requires m.Parallel() && |p| == |m.x| && IsPermutation(p)
    ensures CalcParameters(m.Reordered(p)) == CalcParameters(m)
  {
    var m' := m.Reordered(p);
    NonZeroPermute(m.dy, p);
    ConstantPermute(m.x, p);
    if CalcParameters(m).Ok? {
      SlopePermute(m.x, m.y, m.dy, p);
      CalcParametersValue(m);
      CalcParametersValue(m');
      ChiSqrPermute(m.y, CalcParameters(m).value.a, m.x, CalcParameters(m).value.b, m.dy, p);
    }
  }
}
