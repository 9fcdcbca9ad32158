/** Finite sums of reals, the shape of every `total += term` loop in the script. */
module Sums {
  import opened RealFacts

  /** The running total of `t`, accumulated from the first term to the last. */
  function Accumulate(t: seq<real>): real {
    if |t| == 0 then 0.0 else Accumulate(t[..|t| - 1]) + t[|t| - 1]
  }

  /** The sum of the terms of `t`.  It is kept apart from the recursion so that a
      product with a sum is one and the same term wherever it appears in a proof. */
  function Sum(t: seq<real>): real {
    Accumulate(t)
  }

  lemma {:induction false} SumAppend(a: seq<real>, b: seq<real>)
    ensures Sum(a + b) == Sum(a) + Sum(b)
    decreases |b|
  {
    if |b| == 0 {
      assert a + b == a;
    } else {
      SumAppend(a, b[..|b| - 1]);
      assert (a + b)[..|a + b| - 1] == a + b[..|b| - 1];
    }
  }

  /** Appending one term adds it to the total. */
  lemma SumSnoc(a: seq<real>, x: real)
    ensures Sum(a + [x]) == Sum(a) + x
  {
    assert (a + [x])[..|a|] == a;
  }

  /** Taking out the term at `j` takes it out of the sum. */
  lemma SumRemove(t: seq<real>, j: int)
    requires 0 <= j < |t|
    ensures Sum(t) == Sum(t[..j] + t[j + 1..]) + t[j]
  {
    assert t == t[..j] + [t[j]] + t[j + 1..];
    SumAppend(t[..j] + [t[j]], t[j + 1..]);
    SumSnoc(t[..j], t[j]);
    SumAppend(t[..j], t[j + 1..]);
  }

  /** `p` lists distinct indices below its own length, so every index exactly once. */
  predicate IsPermutation(p: seq<int>) {
    (forall i :: 0 <= i < |p| ==> 0 <= p[i] < |p|)
    && (forall i, j :: 0 <= i < j < |p| ==> p[i] != p[j])
  }

  /** `t` reordered by `p`: term `i` of the result is term `p[i]` of `t`. */
  function Permute<T>(t: seq<T>, p: seq<int>): (u: seq<T>)
    requires |p| == |t| && IsPermutation(p)
    ensures |u| == |t|
    ensures forall i :: 0 <= i < |t| ==> u[i] == t[p[i]]
  {
    seq(|t|, i requires 0 <= i < |t| => t[p[i]])
  }

  /** The permutation `p` with its last entry `p[n]` taken out and the indices above it
      closed up, so that it permutes the indices below `n`. */
  function DropLast(p: seq<int>): (q: seq<int>)
    requires |p| > 0 && IsPermutation(p)
    ensures |q| == |p| - 1 && IsPermutation(q)
    ensures forall i :: 0 <= i < |q| ==> q[i] == if p[i] < p[|q|] then p[i] else p[i] - 1
  {
    var n := |p| - 1;
    seq(n, i requires 0 <= i < n => if p[i] < p[n] then p[i] else p[i] - 1)
  }

  /** Reordering the terms does not change the sum. */
  lemma {:induction false} SumPermute(t: seq<real>, p: seq<int>)
    requires |p| == |t| && IsPermutation(p)
    ensures Sum(Permute(t, p)) == Sum(t)
    decreases |t|
  {
    if |t| > 0 {
      var n := |t| - 1;
      var u := Permute(t, p);
      var j := p[n];
      var t' := t[..j] + t[j + 1..];
      var q := DropLast(p);
      forall i | 0 <= i < n
        ensures u[..n][i] == Permute(t', q)[i]
      {
        assert p[i] != j;
      }
      assert u[..n] == Permute(t', q);
      SumPermute(t', q);
      SumRemove(t, j);
    }
  }

  /** A permutation reaches every index: the indicator of `k` keeps its sum of one when
      reordered, so some entry of `p` is `k`. */
  lemma PermutationOnto(p: seq<int>, k: int)
    requires IsPermutation(p) && 0 <= k < |p|
    ensures exists i :: 0 <= i < |p| && p[i] == k
  {
    var e := seq(|p|, i requires 0 <= i < |p| => if i == k then 1.0 else 0.0);
    SumRemove(e, k);
    SumZeroIff(e[..k] + e[k + 1..]);
    SumPermute(e, p);
    SumZeroIff(Permute(e, p));
  }

  /** A sum of non-negative terms is non-negative. */
  lemma {:induction false} SumNonNegative(t: seq<real>)
    requires forall i :: 0 <= i < |t| ==> t[i] >= 0.0
    ensures Sum(t) >= 0.0
  {
    if |t| > 0 {
      SumNonNegative(t[..|t| - 1]);
    }
  }

  /** A sum of non-negative terms vanishes exactly when every term does. */
  lemma {:induction false} SumZeroIff(t: seq<real>)
    requires forall i :: 0 <= i < |t| ==> t[i] >= 0.0
    ensures Sum(t) == 0.0 <==> forall i :: 0 <= i < |t| ==> t[i] == 0.0
  {
    if |t| > 0 {
      var init := t[..|t| - 1];
      SumZeroIff(init);
      SumNonNegative(init);
      if Sum(t) == 0.0 {
        assert forall i :: 0 <= i < |t| - 1 ==> t[i] == init[i];
      } else {
        assert !(forall i :: 0 <= i < |init| ==> init[i] == 0.0) || t[|t| - 1] != 0.0;
      }
    }
  }

  /** A non-empty sum of positive terms is positive. */
  lemma {:induction false} SumPositive(t: seq<real>)
    requires |t| > 0
    requires forall i :: 0 <= i < |t| ==> t[i] > 0.0
    ensures Sum(t) > 0.0
  {
    SumNonNegative(t[..|t| - 1]);
  }

  /** Summing is monotone in every term. */
  lemma {:induction false} SumMonotone(s: seq<real>, t: seq<real>)
    requires |s| == |t|
    requires forall i :: 0 <= i < |s| ==> s[i] <= t[i]
    ensures Sum(s) <= Sum(t)
  {
    if |s| > 0 {
      SumMonotone(s[..|s| - 1], t[..|t| - 1]);
    }
  }

  /** Summing is linear: a pointwise combination of three sequences sums to the
      same combination of their sums. */
  lemma {:induction false} SumCombination(w: seq<real>, u: seq<real>, v: seq<real>, z: seq<real>,
                                          alpha: real, beta: real, gamma: real)
    requires |w| == |u| == |v| == |z|
    requires forall i :: 0 <= i < |w| ==> w[i] == alpha * u[i] + beta * v[i] + gamma * z[i]
    ensures Sum(w) == alpha * Sum(u) + beta * Sum(v) + gamma * Sum(z)
  {
    if |w| > 0 {
      var n := |w| - 1;
      SumCombination(w[..n], u[..n], v[..n], z[..n], alpha, beta, gamma);
      assert Sum(w) == Sum(w[..n]) + w[n];
      assert Sum(u) == Sum(u[..n]) + u[n];
      assert Sum(v) == Sum(v[..n]) + v[n];
      assert Sum(z) == Sum(z[..n]) + z[n];
      assert alpha * Sum(u) == alpha * Sum(u[..n]) + alpha * u[n];
      assert beta * Sum(v) == beta * Sum(v[..n]) + beta * v[n];
      assert gamma * Sum(z) == gamma * Sum(z[..n]) + gamma * z[n];
    }
  }

  /** Every term multiplied by `c`. */
  function Scale(u: seq<real>, c: real): (w: seq<real>)
    ensures |w| == |u|
    ensures forall i :: 0 <= i < |u| ==> w[i] == c * u[i]
  {
    seq(|u|, i requires 0 <= i < |u| => c * u[i])
  }

  /** Scaling every term scales the sum. */
  lemma SumScale(u: seq<real>, c: real)
    ensures Sum(Scale(u, c)) == c * Sum(u)
  {
    SumScaled(Scale(u, c), u, c);
  }

  /** Scaling every term scales the sum. */
  lemma SumScaled(w: seq<real>, u: seq<real>, c: real)
    requires |w| == |u|
    requires forall i :: 0 <= i < |w| ==> w[i] == c * u[i]
    ensures Sum(w) == c * Sum(u)
  {
    SumCombination(w, u, u, u, c, 0.0, 0.0);
  }

  /** Termwise lower bounds `lo * w[i] <= t[i]` add up. */
  lemma SumAtLeast(t: seq<real>, w: seq<real>, lo: real)
    requires |t| == |w|
    requires forall i :: 0 <= i < |t| ==> lo * w[i] <= t[i]
    ensures lo * Sum(w) <= Sum(t)
  {
    SumMonotone(Scale(w, lo), t);
    SumScale(w, lo);
  }

  /** Termwise upper bounds `t[i] <= hi * w[i]` add up. */
  lemma SumAtMost(t: seq<real>, w: seq<real>, hi: real)
    requires |t| == |w|
    requires forall i :: 0 <= i < |t| ==> t[i] <= hi * w[i]
    ensures Sum(t) <= hi * Sum(w)
  {
    SumMonotone(t, Scale(w, hi));
    SumScale(w, hi);
  }

  /** A ratio of sums whose terms are bounded by multiples of positive weights lies
      between those multiples. */
  lemma RatioBetween(t: seq<real>, w: seq<real>, lo: real, hi: real)
    requires |t| == |w| > 0
    requires forall i :: 0 <= i < |w| ==> w[i] > 0.0
    requires forall i :: 0 <= i < |t| ==> lo * w[i] <= t[i] <= hi * w[i]
    ensures Sum(w) > 0.0
    ensures lo <= Sum(t) / Sum(w) <= hi
  {
    SumPositive(w);
    SumAtLeast(t, w, lo);
    SumAtMost(t, w, hi);
    DivBetween(Sum(t), Sum(w), lo, hi);
  }
}
