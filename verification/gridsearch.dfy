/** The numeric search of the bonus part: the candidate slopes and intercepts
    (`create_parameter_list`) and the exhaustive search over their grid for the line of
    least x-aware chi-square (`numeric_fit`). */
module GridSearch {
  import opened Errors
  import opened RealFacts
  import opened Statistics

  // ---------------------------------------------------------------------------
  // create_parameter_list
  // ---------------------------------------------------------------------------

  function Abs(v: real): (r: real)
    ensures r >= 0.0
    ensures r == v || r == -v
  {
    if v < 0.0 then -v else v
  }

  /** Value number `k` of the progression: `start` after `k` additions of `step`. */
  function Term(start: real, step: real, k: nat): real {
    start + (k as real) * step
  }

  lemma TermNext(start: real, step: real, k: nat)
    ensures Term(start, step, k + 1) == Term(start, step, k) + step
  {
  }

  /** The loop `while abs(i) <= abs(stop)` ends: either the step moves `i`, or the very
      first test fails.  With a zero step and `abs(start) <= abs(stop)` the script never
      returns. */
  predicate Stops(start: real, stop: real, step: real) {
    step != 0.0 || Abs(start) > Abs(stop)
  }

  /** A number of steps after which every value of the progression is out of range. */
  function StepsBound(start: real, stop: real, step: real): nat
    requires step != 0.0
  {
    var q := (Abs(stop) + Abs(start)) / Abs(step);
    if q < 0.0 then 1 else (q.Floor + 1) as nat
  }

  /** `|k·step| = k·|step|` for a count `k`. */
  lemma AbsScaled(k: real, step: real)
    requires k >= 0.0
    ensures Abs(k * step) == k * Abs(step)
  {
  }

  lemma MulStrict(a: real, b: real, c: real)
    requires a < b && c > 0.0
    ensures a * c < b * c
  {
    assert (b - a) * c > 0.0;
  }

  /** Past the bound, the distance covered, `k·|step|`, exceeds `|start| + |stop|`. */
  lemma StepsCover(start: real, stop: real, step: real, k: nat)
    requires step != 0.0 && k >= StepsBound(start, stop, step)
    ensures (k as real) * Abs(step) > Abs(start) + Abs(stop)
  {
    var s, t := Abs(start) + Abs(stop), Abs(step);
    var q := s / t;
    DivMul(s, t);
    Overtakes(s, t, q, StepsBound(start, stop, step) as real, k as real);
  }

  lemma Overtakes(s: real, t: real, q: real, bound: real, n: real)
    requires t > 0.0 && q * t == s && q < bound <= n
    ensures n * t > s
  {
    MulMonotone(bound, n, t);
    MulStrict(q, bound, t);
    Below(q * t, bound * t, n * t);
  }

  lemma Below(x: real, y: real, z: real)
    requires x < y <= z
    ensures x < z
  {
  }

  /** From `StepsBound` on, the progression has left the range `[-|stop|, |stop|]`. */
  lemma PastBound(start: real, stop: real, step: real, k: nat)
    requires step != 0.0 && k >= StepsBound(start, stop, step)
    ensures Abs(Term(start, step, k)) > Abs(stop)
  {
    DistanceCovered(start, stop, step, k);
    Triangle(start, (k as real) * step, stop, Term(start, step, k));
  }

  lemma DistanceCovered(start: real, stop: real, step: real, k: nat)
    requires step != 0.0 && k >= StepsBound(start, stop, step)
    ensures Abs((k as real) * step) > Abs(start) + Abs(stop)
  {
    StepsCover(start, stop, step, k);
    AbsScaled(k as real, step);
  }

  lemma Triangle(u: real, d: real, w: real, v: real)
    requires v == u + d && Abs(d) > Abs(u) + Abs(w)
    ensures Abs(v) > Abs(w)
  {
  }

  /** The values the loop appends from value number `k` on, up to the first one whose
      absolute value exceeds `|stop|`. */
  function ValuesFrom(start: real, stop: real, step: real, k: nat): (vs: seq<real>)
    requires Stops(start, stop, step)
    ensures forall j :: 0 <= j < |vs| ==> vs[j] == Term(start, step, k + j)
    ensures forall j :: k <= j < k + |vs| ==> Abs(Term(start, step, j)) <= Abs(stop)
    ensures Abs(Term(start, step, k + |vs|)) > Abs(stop)
    decreases if step == 0.0 then 0 else StepsBound(start, stop, step) - k
  {
    var v := Term(start, step, k);
    if Abs(v) > Abs(stop) then
      []
    else
      StepsRemain(start, stop, step, k);
      [v] + ValuesFrom(start, stop, step, k + 1)
  }

  /** A value still in range means the loop has a step left before `StepsBound`. */
  lemma StepsRemain(start: real, stop: real, step: real, k: nat)
    requires Stops(start, stop, step)
    requires Abs(Term(start, step, k)) <= Abs(stop)
    ensures step != 0.0 && k < StepsBound(start, stop, step)
  {
    if step != 0.0 && k >= StepsBound(start, stop, step) {
      PastBound(start, stop, step, k);
    }
  }

  /** The progression `start, start + step, ...` while `abs(i) <= abs(stop)`. */
  function Progression(start: real, stop: real, step: real): (vs: seq<real>)
    requires Stops(start, stop, step)
    ensures forall j :: 0 <= j < |vs| ==> vs[j] == Term(start, step, j)
    ensures forall j :: 0 <= j < |vs| ==> Abs(Term(start, step, j)) <= Abs(stop)
    ensures Abs(Term(start, step, |vs|)) > Abs(stop)
    ensures |vs| == 0 <==> Abs(start) > Abs(stop)
  {
    ValuesFrom(start, stop, step, 0)
  }

  /** The list is exactly the values of the progression before the first one out of range. */
  lemma ProgressionUnique(start: real, stop: real, step: real, vs: seq<real>)
    requires Stops(start, stop, step)
    requires forall j :: 0 <= j < |vs| ==> vs[j] == Term(start, step, j)
    requires forall j :: 0 <= j < |vs| ==> Abs(Term(start, step, j)) <= Abs(stop)
    requires Abs(Term(start, step, |vs|)) > Abs(stop)
    ensures vs == Progression(start, stop, step)
  {
  }

  /** `create_parameter_list(q_data)` for `q_data = [start, stop, step, ...]`.  IndexError
      when the list is too short for the element the loop reads: `q_data[1]` is read by
      the first test, `q_data[2]` only once the loop body runs. */
  function CreateParameterList(q: seq<real>): (r: Result<seq<real>>)
    requires |q| >= 3 ==> Stops(q[0], q[1], q[2])
    ensures r.Err? <==> |q| < 2 || (|q| == 2 && Abs(q[0]) <= Abs(q[1]))
    ensures r.Err? ==> r.error == IndexOutOfRange
    ensures r.Ok? && |q| >= 3 ==> r.value == Progression(q[0], q[1], q[2])
    ensures r.Ok? ==> (r.value == [] <==> Abs(q[0]) > Abs(q[1]))
  {
    if |q| < 2 then
      Err(IndexOutOfRange)
    else if Abs(q[0]) > Abs(q[1]) then
      Ok([])
    else if |q| == 2 then
      Err(IndexOutOfRange)
    else
      Ok(Progression(q[0], q[1], q[2]))
  }

  /** A zero range with a unit step lists zero alone. */
  lemma ZeroRange()
    ensures CreateParameterList([0.0, 0.0, 1.0]) == Ok([0.0])
  {
    var vs := Progression(0.0, 0.0, 1.0);
    assert Term(0.0, 1.0, 1) == 1.0;
    assert vs[0] == Term(0.0, 1.0, 0) == 0.0;
    assert |vs| == 1;
    assert vs == [0.0];
    var q := [0.0, 0.0, 1.0];
    assert q[0] == 0.0 && q[1] == 0.0 && q[2] == 1.0;
    assert CreateParameterList(q) == Ok(vs);
  }

  /** The loop of `create_parameter_list` as written: `i` starts at `start` and `step` is
      added after every append. */
  method ParameterListLoop(start: real, stop: real, step: real) returns (values: seq<real>)
    requires Stops(start, stop, step)
    ensures values == Progression(start, stop, step)
  {
    values := [];
    var i := start;
    ghost var k: nat := 0;
    while Abs(i) <= Abs(stop)
      invariant i == Term(start, step, k)
      invariant |values| == k
      invariant forall j :: 0 <= j < k ==> values[j] == Term(start, step, j)
      invariant forall j :: 0 <= j < k ==> Abs(Term(start, step, j)) <= Abs(stop)
      decreases if step == 0.0 then 0 else StepsBound(start, stop, step) - k
    {
      StepsRemain(start, stop, step, k);
      values := values + [i];
      TermNext(start, step, k);
      i := i + step;
      k := k + 1;
    }
    ProgressionUnique(start, stop, step, values);
  }

  // ---------------------------------------------------------------------------
  // numeric_fit
  // ---------------------------------------------------------------------------

  /** The x-aware cost of the line `a*x + b`, total once no y-uncertainty is zero: it is
      never above the plain chi-square of the same line. */
  function GridCost(m: Measurements, a: real, b: real): (c: real)
    requires m.Parallel() && NonZero(m.dy, |m.x|)
    ensures 0.0 <= c <= CalcChiSqr(m.y, a, m.x, b, m.dy, |m.x|).value
    ensures c == 0.0 <==> OnLine(m.y, a, m.x, b, |m.x|)
  {
    BonusAtMostChiSqr(m.y, a, m.x, b, m.dy, m.dx, |m.x|);
    CalcChiSqrBonus(m.y, a, m.x, b, m.dy, m.dx, |m.x|).value
  }

  /** The cost `numeric_fit` ranks the pairs by, as a function value. */
  function Cost(m: Measurements): (real, real) -> real
    requires m.Parallel() && NonZero(m.dy, |m.x|)
  {
    (a, b) => GridCost(m, a, b)
  }

  predicate InGrid(aValues: seq<real>, bValues: seq<real>, i: int, j: int) {
    0 <= i < |aValues| && 0 <= j < |bValues|
  }

  /** `(i', j')` comes strictly after `(i, j)` in the order the nested loops visit the grid. */
  predicate Later(i: int, j: int, i': int, j': int) {
    i < i' || (i == i' && j < j')
  }

  /** Pair `(i, j)` has the least cost of the grid, and every pair visited after it costs
      strictly more: it is the last minimum the loops meet. */
  ghost predicate LastMinimum(cost: (real, real) -> real, aValues: seq<real>, bValues: seq<real>, i: int, j: int)
    requires InGrid(aValues, bValues, i, j)
  {
    forall i', j' :: InGrid(aValues, bValues, i', j') ==>
      cost(aValues[i], bValues[j]) <= cost(aValues[i'], bValues[j']) &&
      (Later(i, j, i', j') ==> cost(aValues[i], bValues[j]) < cost(aValues[i'], bValues[j']))
  }

  /** No pair of the grid costs at most `seed`, so the loops never replace the seed pair. */
  ghost predicate SeedKept(cost: (real, real) -> real, aValues: seq<real>, bValues: seq<real>, seed: real) {
    forall i, j :: InGrid(aValues, bValues, i, j) ==> cost(aValues[i], bValues[j]) > seed
  }

  /** The state of the selection once the pairs before `(i, j)` have been visited: `best`
      is either the untouched seed, or the cost of the last minimum so far, `(bi, bj)`. */
  ghost predicate Selected(cost: (real, real) -> real, aValues: seq<real>, bValues: seq<real>, seed: real,
                           i: int, j: int, best: real, bestA: real, bestB: real, bi: int, bj: int)
    requires |aValues| > 0 && |bValues| > 0
  {
    && best <= seed
    && (forall i', j' :: InGrid(aValues, bValues, i', j') && Later(i', j', i, j) ==>
          best <= cost(aValues[i'], bValues[j']))
    && if bi < 0 then
         && best == seed && bestA == aValues[0] && bestB == bValues[0]
         && (forall i', j' :: InGrid(aValues, bValues, i', j') && Later(i', j', i, j) ==>
               cost(aValues[i'], bValues[j']) > seed)
       else
         && InGrid(aValues, bValues, bi, bj) && Later(bi, bj, i, j)
         && best == cost(aValues[bi], bValues[bj])
         && bestA == aValues[bi] && bestB == bValues[bj]
         && (forall i', j' :: InGrid(aValues, bValues, i', j') && Later(i', j', i, j) && Later(bi, bj, i', j') ==>
               cost(aValues[i'], bValues[j']) > best)
  }

  /** A pair costing at most the best so far becomes the last minimum so far. */
  lemma SelectTake(cost: (real, real) -> real, aValues: seq<real>, bValues: seq<real>, seed: real,
                   i: int, j: int, best: real, bestA: real, bestB: real, bi: int, bj: int)
    requires |aValues| > 0 && |bValues| > 0 && InGrid(aValues, bValues, i, j)
    requires Selected(cost, aValues, bValues, seed, i, j, best, bestA, bestB, bi, bj)
    requires cost(aValues[i], bValues[j]) <= best
    ensures Selected(cost, aValues, bValues, seed, i, j + 1, cost(aValues[i], bValues[j]), aValues[i], bValues[j], i, j)
  {
  }

  /** A pair costing more than the best so far leaves the selection as it is. */
  lemma SelectSkip(cost: (real, real) -> real, aValues: seq<real>, bValues: seq<real>, seed: real,
                   i: int, j: int, best: real, bestA: real, bestB: real, bi: int, bj: int)
    requires |aValues| > 0 && |bValues| > 0 && InGrid(aValues, bValues, i, j)
    requires Selected(cost, aValues, bValues, seed, i, j, best, bestA, bestB, bi, bj)
    requires cost(aValues[i], bValues[j]) > best
    ensures Selected(cost, aValues, bValues, seed, i, j + 1, best, bestA, bestB, bi, bj)
  {
  }

  /** The end of a row is the start of the next one. */
  lemma RowDone(cost: (real, real) -> real, aValues: seq<real>, bValues: seq<real>, seed: real,
                i: int, best: real, bestA: real, bestB: real, bi: int, bj: int)
    requires |aValues| > 0 && |bValues| > 0
    requires Selected(cost, aValues, bValues, seed, i, |bValues|, best, bestA, bestB, bi, bj)
    ensures Selected(cost, aValues, bValues, seed, i + 1, 0, best, bestA, bestB, bi, bj)
  {
  }

  /** After the last row the selection holds the seed or the last minimum of the grid. */
  lemma GridDone(cost: (real, real) -> real, aValues: seq<real>, bValues: seq<real>, seed: real,
                 best: real, bestA: real, bestB: real, bi: int, bj: int)
    requires |aValues| > 0 && |bValues| > 0
    requires Selected(cost, aValues, bValues, seed, |aValues|, 0, best, bestA, bestB, bi, bj)
    ensures forall i, j :: InGrid(aValues, bValues, i, j) ==> best <= cost(aValues[i], bValues[j])
    ensures || (SeedKept(cost, aValues, bValues, seed) && best == seed && bestA == aValues[0] && bestB == bValues[0])
            || (exists i, j :: InGrid(aValues, bValues, i, j) && LastMinimum(cost, aValues, bValues, i, j) &&
                 best == cost(aValues[i], bValues[j]) && bestA == aValues[i] && bestB == bValues[j])
  {
    if 0 <= bi {
      assert LastMinimum(cost, aValues, bValues, bi, bj);
    }
  }

  /** The nested loops of `numeric_fit`: a pair replaces the best so far when its cost is at
      most the best cost, so among equal costs the last one visited wins. */
  method SelectBest(aValues: seq<real>, bValues: seq<real>, cost: (real, real) -> real, seed: real)
    returns (best: real, bestA: real, bestB: real)
    requires |aValues| > 0 && |bValues| > 0
    ensures best <= seed
    ensures forall i, j :: InGrid(aValues, bValues, i, j) ==> best <= cost(aValues[i], bValues[j])
    ensures || (SeedKept(cost, aValues, bValues, seed) && best == seed && bestA == aValues[0] && bestB == bValues[0])
            || (exists i, j :: InGrid(aValues, bValues, i, j) && LastMinimum(cost, aValues, bValues, i, j) &&
                 best == cost(aValues[i], bValues[j]) && bestA == aValues[i] && bestB == bValues[j])
  {
    best, bestA, bestB := seed, aValues[0], bValues[0];
    ghost var bi, bj := -1, -1;
    var i := 0;
    while i < |aValues|
      invariant 0 <= i <= |aValues|
      invariant Selected(cost, aValues, bValues, seed, i, 0, best, bestA, bestB, bi, bj)
    {
      var j := 0;
      while j < |bValues|
        invariant 0 <= j <= |bValues|
        invariant Selected(cost, aValues, bValues, seed, i, j, best, bestA, bestB, bi, bj)
      {
        var c := cost(aValues[i], bValues[j]);
        if c <= best {
          SelectTake(cost, aValues, bValues, seed, i, j, best, bestA, bestB, bi, bj);
          best, bestA, bestB := c, aValues[i], bValues[j];
          bi, bj := i, j;
        } else {
          SelectSkip(cost, aValues, bValues, seed, i, j, best, bestA, bestB, bi, bj);
        }
        j := j + 1;
      }
      RowDone(cost, aValues, bValues, seed, i, best, bestA, bestB, bi, bj);
      i := i + 1;
    }
    GridDone(cost, aValues, bValues, seed, best, bestA, bestB, bi, bj);
  }

  /** At most one pair of a grid is its last minimum. */
  lemma LastMinimumUnique(cost: (real, real) -> real, aValues: seq<real>, bValues: seq<real>,
                            i: int, j: int, i': int, j': int)
    requires InGrid(aValues, bValues, i, j) && LastMinimum(cost, aValues, bValues, i, j)
    requires InGrid(aValues, bValues, i', j') && LastMinimum(cost, aValues, bValues, i', j')
    ensures i == i' && j == j'
  {
    var c, c' := cost(aValues[i], bValues[j]), cost(aValues[i'], bValues[j']);
    assert c <= c' && c' <= c;
    assert Later(i, j, i', j') ==> c < c';
    assert Later(i', j', i, j) ==> c' < c;
  }

  /** Every pair's x-aware cost is at most the plain chi-square the seed is ranked by, so the
      first pair visited already replaces the seed. */
  lemma SeedNeverKept(m: Measurements, aValues: seq<real>, bValues: seq<real>, seed: real)
    requires m.Parallel() && NonZero(m.dy, |m.x|)
    requires |aValues| > 0 && |bValues| > 0
    requires seed == CalcChiSqr(m.y, aValues[0], m.x, bValues[0], m.dy, |m.x|).value
    ensures !SeedKept(Cost(m), aValues, bValues, seed)
  {
    assert Cost(m)(aValues[0], bValues[0]) == GridCost(m, aValues[0], bValues[0]);
  }

  /** A grid containing a line through every point makes the search pick such a line. */
  lemma ExactLineOnGrid(m: Measurements, aValues: seq<real>, bValues: seq<real>, i: int, j: int, i0: int, j0: int)
    requires m.Parallel() && NonZero(m.dy, |m.x|)
    requires InGrid(aValues, bValues, i, j) && LastMinimum(Cost(m), aValues, bValues, i, j)
    requires InGrid(aValues, bValues, i0, j0) && OnLine(m.y, aValues[i0], m.x, bValues[j0], |m.x|)
    ensures GridCost(m, aValues[i], bValues[j]) == 0.0
    ensures OnLine(m.y, aValues[i], m.x, bValues[j], |m.x|)
  {
    assert Cost(m)(aValues[i0], bValues[j0]) == GridCost(m, aValues[i0], bValues[j0]) == 0.0;
    assert Cost(m)(aValues[i], bValues[j]) == GridCost(m, aValues[i], bValues[j]);
  }

  /** Without x-uncertainties the x-aware cost is the plain chi-square. */
  lemma CostWithoutXErrors(m: Measurements, a: real, b: real)
    requires m.Parallel() && NonZero(m.dy, |m.x|)
    requires forall i :: 0 <= i < |m.dx| ==> m.dx[i] == 0.0
    ensures GridCost(m, a, b) == CalcChiSqr(m.y, a, m.x, b, m.dy, |m.x|).value
  {
    BonusWithoutXErrors(m.y, a, m.x, b, m.dy, m.dx, |m.x|);
  }

  /** What `numeric_fit` reports: the best pair with the raw steps of both ranges as their
      uncertainties, the candidate slopes, and the chi-square values it prints. */
  datatype GridFit = GridFit(a: real, da: real, b: real, db: real, aList: seq<real>,
                             chiSqr: real, chiSqrReduced: real)

  /** Indexing the candidates of `q` at 0 fails: the list cannot be built or is empty. */
  predicate NoCandidates(q: seq<real>) {
    |q| < 3 || Abs(q[0]) > Abs(q[1])
  }

  lemma NoCandidatesIff(q: seq<real>)
    requires |q| >= 3 ==> Stops(q[0], q[1], q[2])
    ensures NoCandidates(q) <==> CreateParameterList(q).Err? || CreateParameterList(q).value == []
  {
  }

  /** `numeric_fit`: the seed is the plain chi-square of the first pair; the nested loops
      then keep the last pair of least x-aware chi-square; the reduced value divides by
      `n - 2`. */
  method NumericFit(m: Measurements, aData: seq<real>, bData: seq<real>) returns (r: Result<GridFit>)
    requires m.Parallel()
    requires |aData| >= 3 ==> Stops(aData[0], aData[1], aData[2])
    requires |bData| >= 3 && CreateParameterList(aData).Ok? ==> Stops(bData[0], bData[1], bData[2])
    ensures r.Err? <==> NoCandidates(aData) || NoCandidates(bData) || !NonZero(m.dy, |m.x|) || |m.x| == 2
    ensures NoCandidates(aData) || NoCandidates(bData) ==> r == Err(IndexOutOfRange)
    ensures r.Err? && !NoCandidates(aData) && !NoCandidates(bData) ==> r.error == DivisionByZero
    ensures r.Ok? ==>
      && |aData| >= 3 && |bData| >= 3 && NonZero(m.dy, |m.x|)
      && r.value.aList == Progression(aData[0], aData[1], aData[2])
      && r.value.da == aData[2] && r.value.db == bData[2]
      && PerDegreeOfFreedom(r.value.chiSqrReduced, r.value.chiSqr, |m.x|)
      && r.value.chiSqr == GridCost(m, r.value.a, r.value.b)
    ensures r.Ok? ==>
      var aValues, bValues := Progression(aData[0], aData[1], aData[2]), Progression(bData[0], bData[1], bData[2]);
      exists i, j :: InGrid(aValues, bValues, i, j) && LastMinimum(Cost(m), aValues, bValues, i, j) &&
        r.value.a == aValues[i] && r.value.b == bValues[j]
    ensures r.Ok? ==>
      var aValues, bValues := Progression(aData[0], aData[1], aData[2]), Progression(bData[0], bData[1], bData[2]);
      && r.value.chiSqr <= CalcChiSqr(m.y, aValues[0], m.x, bValues[0], m.dy, |m.x|).value
      && forall i, j :: InGrid(aValues, bValues, i, j) ==> r.value.chiSqr <= GridCost(m, aValues[i], bValues[j])
  {
    NoCandidatesIff(aData);
    var aValues :- CreateParameterList(aData);
    NoCandidatesIff(bData);
    var bValues :- CreateParameterList(bData);
    if |aValues| == 0 || |bValues| == 0 {
      return Err(IndexOutOfRange);
    }
    var seed :- CalcChiSqr(m.y, aValues[0], m.x, bValues[0], m.dy, |m.x|);
    var best, bestA, bestB := SelectBest(aValues, bValues, Cost(m), seed);
    SeedNeverKept(m, aValues, bValues, seed);
    var chiReduced :- ReducedChiSqr(best, |m.x|);
    r := Ok(GridFit(bestA, aData[2], bestB, bData[2], aValues, best, chiReduced));
  }
}
