/** The algebra of src/aggregation/aggregate.cpp over exact reals: Welford's update, Chan's merge and the
    fixed reduction tree compute the same statistics as one pass over all observations. */
module Statistics {
  import opened Types
  import opened Basics
  import opened Reduction

  datatype Stats = Stats(n: nat, mean: real, m2: real, min: real, max: real)

  const EMPTY := Stats(0, 0.0, 0.0, 0.0, 0.0)

  function Smaller(a: real, b: real): real { if b < a then b else a }

  function Larger(a: real, b: real): real { if a < b then b else a }

  // ---------------------------------------------------------------- the definition by the whole list

  function RealSum(xs: seq<real>): real
  {
    if xs == [] then 0.0 else xs[0] + RealSum(xs[1..])
  }

  function Mean(xs: seq<real>): real
    requires xs != []
  {
    RealSum(xs) / |xs| as real
  }

  /** The sum of squared deviations from c. */
  function Deviations(xs: seq<real>, c: real): real
  {
    if xs == [] then 0.0 else (xs[0] - c) * (xs[0] - c) + Deviations(xs[1..], c)
  }

  function Min(xs: seq<real>): real
    requires xs != []
  {
    if |xs| == 1 then xs[0] else Smaller(xs[0], Min(xs[1..]))
  }

  function Max(xs: seq<real>): real
    requires xs != []
  {
    if |xs| == 1 then xs[0] else Larger(xs[0], Max(xs[1..]))
  }

  /** The count, mean, sum of squared deviations from the mean, minimum and maximum of a list. */
  function Of(xs: seq<real>): Stats
  {
    if xs == [] then EMPTY else Stats(|xs|, Mean(xs), Deviations(xs, Mean(xs)), Min(xs), Max(xs))
  }

  lemma {:induction false} RealSumConcat(a: seq<real>, b: seq<real>)
    ensures RealSum(a + b) == RealSum(a) + RealSum(b)
    decreases |a|
  {
    if a == [] {
      assert a + b == b;
    } else {
      assert (a + b)[1..] == a[1..] + b;
      RealSumConcat(a[1..], b);
    }
  }

  lemma {:induction false} DeviationsConcat(a: seq<real>, b: seq<real>, c: real)
    ensures Deviations(a + b, c) == Deviations(a, c) + Deviations(b, c)
    decreases |a|
  {
    if a == [] {
      assert a + b == b;
    } else {
      assert (a + b)[1..] == a[1..] + b;
      DeviationsConcat(a[1..], b, c);
    }
  }

  lemma {:induction false} ExtremesConcat(a: seq<real>, b: seq<real>)
    requires a != [] && b != []
    ensures Min(a + b) == Smaller(Min(a), Min(b)) && Max(a + b) == Larger(Max(a), Max(b))
    decreases |a|
  {
    assert (a + b)[1..] == a[1..] + b;
    if |a| == 1 {
      assert a[1..] + b == b;
    } else {
      ExtremesConcat(a[1..], b);
    }
  }

  /** Min and Max are attained and bound every observation. */
  lemma {:induction false} ExtremesBound(xs: seq<real>, i: nat)
    requires i < |xs|
    ensures Min(xs) <= xs[i] <= Max(xs) && Min(xs) in xs && Max(xs) in xs
    decreases |xs|
  {
    if |xs| > 1 {
      ExtremesBound(xs[1..], if i == 0 then 0 else i - 1);
    }
  }

  function Weighted(n: real, x: real): real { n * (x * x) }

  /** What changes when n observations with sum s are measured from d - e instead of d. */
  function Correction(n: real, s: real, d: real, e: real): real
  {
    2.0 * e * (s - n * d) + n * (e * e)
  }

  lemma CorrectionStep(x: real, n: real, s: real, c: real, d: real)
    ensures (x - c) * (x - c) + Correction(n, s, d, d - c) ==
            (x - d) * (x - d) + Correction(n + 1.0, x + s, d, d - c)
  {
    var e, k := d - c, s - n * d;
    assert x - c == (x - d) + e;
    assert (x - c) * (x - c) == (x - d) * (x - d) + 2.0 * e * (x - d) + e * e;
    assert x + s - (n + 1.0) * d == (x - d) + k;
    assert 2.0 * e * ((x - d) + k) == 2.0 * e * (x - d) + 2.0 * e * k;
    assert (n + 1.0) * (e * e) == n * (e * e) + e * e;
  }

  /** Moving the reference point from d to c. */
  lemma {:induction false} Shifted(xs: seq<real>, c: real, d: real)
    ensures Deviations(xs, c) == Deviations(xs, d) + Correction(|xs| as real, RealSum(xs), d, d - c)
    decreases |xs|
  {
    if xs != [] {
      var x, rest := xs[0], xs[1..];
      assert Deviations(xs, c) == (x - c) * (x - c) + Deviations(rest, c);
      assert Deviations(xs, d) == (x - d) * (x - d) + Deviations(rest, d);
      assert RealSum(xs) == x + RealSum(rest) && |xs| as real == |rest| as real + 1.0;
      hide Deviations, RealSum, Correction;
      Shifted(rest, c, d);
      CorrectionStep(x, |rest| as real, RealSum(rest), c, d);
    }
  }

  lemma MeanSum(xs: seq<real>)
    requires xs != []
    ensures |xs| as real * Mean(xs) == RealSum(xs)
  {
    hide RealSum;
  }

  /** From the mean, the cross term vanishes. */
  lemma ShiftedFromMean(xs: seq<real>, c: real)
    requires xs != []
    ensures Deviations(xs, c) == Deviations(xs, Mean(xs)) + Weighted(|xs| as real, Mean(xs) - c)
  {
    hide Deviations, RealSum, Mean;
    Shifted(xs, c, Mean(xs));
    MeanSum(xs);
  }

  // ---------------------------------------------------------------- merge

  /** The value merge computes once its checks have passed. */
  function Merge(l: Stats, r: Stats): Stats
  {
    if l.n == 0 then r
    else if r.n == 0 then l
    else
      var total := (l.n + r.n) as real;
      var delta := r.mean - l.mean;
      Stats(l.n + r.n,
            l.mean + delta * (r.n as real / total),
            l.m2 + r.m2 + delta * delta * (l.n as real * r.n as real / total),
            Smaller(l.min, r.min), Larger(l.max, r.max))
  }

  lemma MergedMean(p: real, q: real, u: real, v: real)
    requires p > 0.0 && q > 0.0
    ensures u + (v - u) * (q / (p + q)) == (p * u + q * v) / (p + q)
  {
    var total := p + q;
    var t := q / total;
    assert t * total == q;
    assert (u + (v - u) * t) * total == u * total + (v - u) * (t * total);
    assert u * total + (v - u) * q == p * u + q * v;
    DivideBack(u + (v - u) * t, total, p * u + q * v);
  }

  lemma DivideBack(x: real, d: real, y: real)
    requires d > 0.0 && x * d == y
    ensures x == y / d
  {
  }

  function Between(p: real, q: real, u: real, v: real): real
    requires p > 0.0 && q > 0.0
  {
    (v - u) * (v - u) * (p * q / (p + q))
  }

  /** The between-group term: p (u-w)^2 + q (v-w)^2 for the weighted mean w. */
  lemma MergedDeviation(p: real, q: real, u: real, v: real, w: real)
    requires p > 0.0 && q > 0.0 && w == u + (v - u) * (q / (p + q))
    ensures Weighted(p, u - w) + Weighted(q, v - w) == Between(p, q, u, v)
  {
    var total, d := p + q, v - u;
    var t := q / total;
    assert t * total == q;
    assert u - w == -(d * t) && v - w == d * (1.0 - t);
    assert (u - w) * (u - w) == (d * d) * (t * t);
    assert (v - w) * (v - w) == (d * d) * ((1.0 - t) * (1.0 - t));
    Weights(p, q, t);
    assert p * ((d * d) * (t * t)) + q * ((d * d) * ((1.0 - t) * (1.0 - t))) ==
           (d * d) * (p * (t * t) + q * ((1.0 - t) * (1.0 - t)));
  }

  lemma Weights(p: real, q: real, t: real)
    requires p > 0.0 && q > 0.0 && t * (p + q) == q
    ensures p * (t * t) + q * ((1.0 - t) * (1.0 - t)) == p * q / (p + q)
  {
    var total := p + q;
    var s := 1.0 - t;
    assert s * total == p;
    var e := p * (t * t) + q * (s * s);
    assert e * total == p * t * (t * total) + q * s * (s * total);
    assert p * t * q + q * s * p == p * q * (t + s);
    DivideBack(e, total, p * q);
  }

  function WeightedMean(p: real, q: real, u: real, v: real): real
    requires p > 0.0 && q > 0.0
  {
    u + (v - u) * (q / (p + q))
  }

  lemma ConcatMean(a: seq<real>, b: seq<real>)
    requires a != [] && b != []
    ensures Mean(a + b) == WeightedMean(|a| as real, |b| as real, Mean(a), Mean(b))
  {
    RealSumConcat(a, b);
    MeanSum(a);
    MeanSum(b);
    MergedMean(|a| as real, |b| as real, Mean(a), Mean(b));
    assert Mean(a + b) == RealSum(a + b) / |a + b| as real;
    hide RealSum, Mean;
    assert |a + b| as real == |a| as real + |b| as real;
  }

  lemma ConcatDeviations(a: seq<real>, b: seq<real>)
    requires a != [] && b != []
    ensures Deviations(a + b, Mean(a + b)) == Deviations(a, Mean(a)) + Deviations(b, Mean(b)) +
      Between(|a| as real, |b| as real, Mean(a), Mean(b))
  {
    hide Deviations, Mean;
    var p, q, u, v := |a| as real, |b| as real, Mean(a), Mean(b);
    var w := Mean(a + b);
    ConcatMean(a, b);
    DeviationsConcat(a, b, w);
    ShiftedFromMean(a, w);
    ShiftedFromMean(b, w);
    MergedDeviation(p, q, u, v, w);
    hide Between, Weighted;
  }

  /** Homomorphism: merging the statistics of two lists gives those of their concatenation. */
  lemma MergeIsConcat(a: seq<real>, b: seq<real>)
    ensures Merge(Of(a), Of(b)) == Of(a + b)
  {
    hide Deviations, Mean, Min, Max;
    if a == [] {
      assert a + b == b;
    } else if b == [] {
      assert a + b == a;
    } else {
      ConcatMean(a, b);
      ConcatDeviations(a, b);
      ExtremesConcat(a, b);
      assert (|a| + |b|) as real == |a| as real + |b| as real;
    }
  }

  // ---------------------------------------------------------------- add

  function Add(s: Stats, x: real): Stats
  {
    if s.n == 0 then Stats(1, x, 0.0, x, x)
    else
      var delta := x - s.mean;
      var mean := s.mean + delta / (s.n + 1) as real;
      Stats(s.n + 1, mean, s.m2 + delta * (x - mean), Smaller(s.min, x), Larger(s.max, x))
  }

  lemma OfOne(x: real)
    ensures Of([x]) == Stats(1, x, 0.0, x, x)
  {
    assert [x][1..] == [];
    assert RealSum([x]) == x && Mean([x]) == x;
    assert Deviations([x], x) == 0.0 by { assert Deviations([], x) == 0.0; }
  }

  /** Welford's update is Chan's merge with a single observation. */
  lemma AddIsMerge(s: Stats, x: real)
    ensures Add(s, x) == Merge(s, Of([x]))
  {
    OfOne(x);
    hide Of;
    if s.n != 0 {
      var n, d := s.n as real, x - s.mean;
      WelfordStep(n, d);
      assert (s.n + 1) as real == n + 1.0;
      assert d * (x - (s.mean + d / (n + 1.0))) == d * (d - d / (n + 1.0));
    }
  }

  lemma WelfordStep(n: real, d: real)
    requires n > 0.0
    ensures d / (n + 1.0) == d * (1.0 / (n + 1.0))
    ensures d * (d - d / (n + 1.0)) == d * d * (n * 1.0 / (n + 1.0))
  {
    var t := 1.0 / (n + 1.0);
    assert t * (n + 1.0) == 1.0;
    DivideBack(d * t, n + 1.0, d) by { assert (d * t) * (n + 1.0) == d * (t * (n + 1.0)); }
    DivideBack(1.0 - t, n + 1.0, n) by { assert (1.0 - t) * (n + 1.0) == (n + 1.0) - t * (n + 1.0); }
    assert d - d * t == d * (1.0 - t);
  }

  /** Adding the observations one by one. */
  function Fold(xs: seq<real>): Stats
  {
    if xs == [] then EMPTY else Add(Fold(xs[..|xs| - 1]), xs[|xs| - 1])
  }

  lemma {:induction false} FoldIsOf(xs: seq<real>)
    ensures Fold(xs) == Of(xs)
    decreases |xs|
  {
    if xs != [] {
      var init, x := xs[..|xs| - 1], xs[|xs| - 1];
      FoldIsOf(init);
      AddIsMerge(Of(init), x);
      MergeIsConcat(init, [x]);
      assert init + [x] == xs;
    }
  }

  // ---------------------------------------------------------------- the reduction tree

  /** Whatever the blocks, reducing their aggregates along the fixed tree is one pass over all
      observations in order. */
  lemma {:induction false} TreeIsOnePass(blocks: seq<seq<real>>, leaves: seq<Stats>)
    requires |leaves| == |blocks| && forall i :: 0 <= i < |blocks| ==> leaves[i] == Fold(blocks[i])
    ensures Tree(Merge, EMPTY, leaves) == Fold(Flatten(blocks))
    decreases |blocks|
  {
    hide Tree, Fold, Flatten, Merge, Of, SplitPoint;
    if |blocks| <= 1 {
      FewBlocks(blocks, leaves);
    } else {
      var p := SplitPoint(|blocks|);
      TreeSplits(Merge, EMPTY, leaves);
      TreeIsOnePass(blocks[..p], leaves[..p]);
      TreeIsOnePass(blocks[p..], leaves[p..]);
      FoldOfParts(blocks[..p], blocks[p..]);
      assert blocks[..p] + blocks[p..] == blocks;
    }
  }

  lemma FewBlocks(blocks: seq<seq<real>>, leaves: seq<Stats>)
    requires |leaves| == |blocks| <= 1 && (blocks != [] ==> leaves[0] == Fold(blocks[0]))
    ensures Tree(Merge, EMPTY, leaves) == Fold(Flatten(blocks))
  {
    if blocks != [] {
      assert Flatten(blocks[1..]) == [];
      assert Flatten(blocks) == blocks[0];
    }
  }

  lemma FoldOfParts(a: seq<seq<real>>, b: seq<seq<real>>)
    ensures Merge(Fold(Flatten(a)), Fold(Flatten(b))) == Fold(Flatten(a + b))
  {
    hide Fold, Flatten, Merge, Of;
    FlattenConcat(a, b);
    FoldIsOf(Flatten(a));
    FoldIsOf(Flatten(b));
    FoldIsOf(Flatten(a) + Flatten(b));
    MergeIsConcat(Flatten(a), Flatten(b));
  }

  // ---------------------------------------------------------------- the invariant

  function Abs(x: real): real { if x < 0.0 then -x else x }

  function Tolerance(s: Stats): real
  {
    64.0 / 4503599627370496.0 * Larger(Larger(Larger(1.0, Abs(s.mean)), Abs(s.min)), Abs(s.max))
  }

  /** invariant_error reports nothing. */
  predicate Consistent(s: Stats)
  {
    if s.n == 0 then s == EMPTY
    else
      && s.m2 >= 0.0 && s.min <= s.max
      && s.min - Tolerance(s) <= s.mean <= s.max + Tolerance(s)
      && (s.n == 1 ==>
            s.m2 == 0.0 && Abs(s.mean - s.min) <= Tolerance(s) && Abs(s.mean - s.max) <= Tolerance(s))
  }

  /** t is 2^-46, which is 64 units in the last place of 1, times the largest of 1 and the magnitudes. */
  ghost predicate IsTolerance(s: Stats, t: real)
  {
    var u := 70368744177664.0 * t;
    && u >= 1.0 && -u <= s.mean <= u && -u <= s.min <= u && -u <= s.max <= u
    && (u == 1.0 || u == s.mean || u == -s.mean || u == s.min || u == -s.min || u == s.max || u == -s.max)
  }

  lemma ToleranceIs(s: Stats, t: real)
    ensures IsTolerance(s, t) <==> t == Tolerance(s)
  {
    assert 64.0 / 4503599627370496.0 * 70368744177664.0 == 1.0;
  }

  /** What invariant_error reports, check by check: an aggregate of nothing that is not all zeros, a negative sum of
      squares, a minimum above the maximum, a mean outside them by more than the tolerance, and a single observation
      that has spread or does not equal its mean within the tolerance. */
  lemma InvariantErrorExactly(s: Stats, t: real)
    requires IsTolerance(s, t)
    ensures !Consistent(s) <==>
      if s.n == 0 then s.mean != 0.0 || s.m2 != 0.0 || s.min != 0.0 || s.max != 0.0
      else
        || s.m2 < 0.0 || s.min > s.max || s.mean < s.min - t || s.mean > s.max + t
        || (s.n == 1 &&
              (s.m2 != 0.0 || s.mean - s.min > t || s.min - s.mean > t || s.mean - s.max > t || s.max - s.mean > t))
  {
    ToleranceIs(s, t);
    hide Tolerance, IsTolerance;
  }

  lemma SquareNonNegative(x: real)
    ensures x * x >= 0.0
  {
  }

  lemma {:induction false} DeviationsNonNegative(xs: seq<real>, c: real)
    ensures Deviations(xs, c) >= 0.0
    decreases |xs|
  {
    if xs != [] {
      DeviationsNonNegative(xs[1..], c);
      SquareNonNegative(xs[0] - c);
    }
  }

  lemma {:induction false} RealSumBounds(xs: seq<real>, lo: real, hi: real)
    requires forall i :: 0 <= i < |xs| ==> lo <= xs[i] <= hi
    ensures |xs| as real * lo <= RealSum(xs) <= |xs| as real * hi
    decreases |xs|
  {
    if xs != [] {
      RealSumBounds(xs[1..], lo, hi);
    }
  }

  /** Every aggregate of a list is consistent, with its mean between the extremes without tolerance. */
  lemma OfIsConsistent(xs: seq<real>)
    ensures Consistent(Of(xs))
    ensures xs != [] ==> Min(xs) <= Mean(xs) <= Max(xs)
  {
    if xs != [] {
      var n, m := |xs| as real, Mean(xs);
      forall i | 0 <= i < |xs| ensures Min(xs) <= xs[i] <= Max(xs) { ExtremesBound(xs, i); }
      RealSumBounds(xs, Min(xs), Max(xs));
      MeanSum(xs);
      Cancel(n, Min(xs), m);
      Cancel(n, m, Max(xs));
      DeviationsNonNegative(xs, m);
      assert |xs| == 1 ==> m == xs[0] && Deviations(xs, m) == 0.0;
      assert Tolerance(Of(xs)) >= 0.0;
    }
  }

  lemma Positive(n: real, k: real)
    requires n > 0.0 && k > 0.0
    ensures n * k > 0.0
  {
  }

  lemma Cancel(n: real, a: real, b: real)
    requires n > 0.0 && n * a <= n * b
    ensures a <= b
  {
    if a > b {
      Positive(n, a - b);
      assert false;
    }
  }

  /** merge with its checks: it refuses inconsistent operands and an observation count that overflows. */
  function CheckedMerge(l: Stats, r: Stats): Result<Stats>
  {
    if !Consistent(l) then Err("left aggregate is invalid")
    else if !Consistent(r) then Err("right aggregate is invalid")
    else if l.n != 0 && r.n != 0 && U64_MAX - l.n < r.n then Err("aggregate observation count overflow")
    else if !Consistent(Merge(l, r)) then Err("merged aggregate is not representable")
    else Ok(Merge(l, r))
  }

  /** Over exact reals merge fails on aggregates of lists only when the counts overflow. */
  lemma CheckedMergeIsConcat(a: seq<real>, b: seq<real>)
    ensures CheckedMerge(Of(a), Of(b)).Ok? <==> a == [] || b == [] || |a| + |b| <= U64_MAX
    ensures CheckedMerge(Of(a), Of(b)).Ok? ==> CheckedMerge(Of(a), Of(b)).value == Of(a + b)
  {
    hide Consistent, Merge;
    OfIsConsistent(a);
    OfIsConsistent(b);
    OfIsConsistent(a + b);
    MergeIsConcat(a, b);
  }

  // ---------------------------------------------------------------- the accumulator

  /** AggregateStats::add updates the fields in place. */
  class Accumulator {
    var n: nat
    var mean: real
    var m2: real
    var min: real
    var max: real

    ghost function View(): Stats
      reads this
    {
      Stats(n, mean, m2, min, max)
    }

    constructor ()
      ensures View() == EMPTY
    {
      n, mean, m2, min, max := 0, 0.0, 0.0, 0.0, 0.0;
    }

    method Observe(x: real)
      modifies this
      ensures View() == Add(old(View()), x)
    {
      if n == 0 {
        n, mean, m2, min, max := 1, x, 0.0, x, x;
        return;
      }
      n := n + 1;
      var delta := x - mean;
      mean := mean + delta / n as real;
      var after := x - mean;
      m2 := m2 + delta * after;
      min := Smaller(min, x);
      max := Larger(max, x);
    }
  }

  /** The loop over a block's observations. */
  method ComputeBlock(observations: seq<real>) returns (s: Stats)
    ensures s == Of(observations) && Consistent(s)
  {
    var acc := new Accumulator();
    for i := 0 to |observations|
      invariant acc.View() == Fold(observations[..i])
    {
      assert observations[..i + 1][..i] == observations[..i];
      acc.Observe(observations[i]);
    }
    assert observations[..|observations|] == observations;
    FoldIsOf(observations);
    OfIsConsistent(observations);
    s := Stats(acc.n, acc.mean, acc.m2, acc.min, acc.max);
  }
}
