/**
 The precomputation: cleaning a series, moving means, squared differences, inverse norms, and the first row
 of covariances. Each loop updates a running quantity in constant time; each result is the window's own sum.
 */
module CpuStats {
  import opened Kernel
  import opened Statistics

  /** A sample as it arrives: a NaN or an infinity is `NonFinite`. */
  datatype Sample = NonFinite | Finite(x: real)

  const FLATNESS_EPSILON: real := 0.0000000000001

  /** Non-finite samples become 0; a window is flagged exactly when it contains one. */
  method ConvertNonFiniteToZero(t: seq<Sample>, m: nat) returns (clean: array<real>, nanvals: array<bool>)
    requires 0 < m <= |t|
    ensures clean.Length == |t| && nanvals.Length == |t| - m + 1
    ensures forall i :: 0 <= i < |t| ==> clean[i] == if t[i].Finite? then t[i].x else 0.0
    ensures forall i :: 0 <= i < nanvals.Length ==> (nanvals[i] <==> exists j :: i <= j < i + m && t[j].NonFinite?)
  {
    clean := new real[|t|];
    nanvals := new bool[|t| - m + 1];
    var stepsSinceLastNan := m;
    for i := 0 to |t|
      invariant forall j :: 0 <= j < i ==> clean[j] == if t[j].Finite? then t[j].x else 0.0
      invariant forall j :: 0 <= j < i && i - stepsSinceLastNan < j ==> t[j].Finite?
      invariant stepsSinceLastNan > 0
      invariant stepsSinceLastNan < m ==> stepsSinceLastNan <= i && t[i - stepsSinceLastNan].NonFinite?
      invariant forall k :: 0 <= k < nanvals.Length && k + m <= i ==>
        (nanvals[k] <==> exists j :: k <= j < k + m && t[j].NonFinite?)
    {
      if t[i].Finite? {
        clean[i] := t[i].x;
      } else {
        stepsSinceLastNan := 0;
        clean[i] := 0.0;
      }
      if i >= m - 1 {
        nanvals[i - m + 1] := stepsSinceLastNan < m;
        if stepsSinceLastNan < m {
          assert t[i - stepsSinceLastNan].NonFinite?;
        }
      }
      stepsSinceLastNan := stepsSinceLastNan + 1;
    }
  }

  /** The compensated moving mean. Every sum and difference may be rounded to anything at all, so long as the
      error terms are computed exactly: the means still come out exact. */
  method MovingMean(a: seq<real>, w: nat, round: real -> real) returns (result: array<real>)
    requires 0 < w <= |a|
    ensures fresh(result) && result.Length == |a| - w + 1
    ensures forall i :: 0 <= i < result.Length ==> result[i] == Mean(a, i, w)
  {
    result := new real[|a| - w + 1];
    var p, s := a[0], 0.0;
    for i := 1 to w
      invariant p + s == Sum(a, 0, i)
    {
      var x := round(p + a[i]);
      var z := x - p;
      s := s + ((p - (x - z)) + (a[i] - z));
      p := x;
    }
    result[0] := (p + s) / (w as real);
    for i := w to |a|
      invariant p + s == Sum(a, i - w, w)
      invariant forall k :: 0 <= k <= i - w ==> result[k] == Mean(a, k, w)
    {
      var x := round(p - a[i - w]);
      var z := x - p;
      s := s + ((p - (x - z)) - (a[i - w] + z));
      p := x;
      x := round(p + a[i]);
      z := x - p;
      s := s + ((p - (x - z)) + (a[i] - z));
      p := x;
      SumSlide(a, i - w, w);
      result[i - w + 1] := (p + s) / (w as real);
    }
  }

  method BruteForceMovingMean(a: seq<real>, w: nat) returns (result: array<real>)
    requires 0 < w <= |a|
    ensures fresh(result) && result.Length == |a| - w + 1
    ensures forall i :: 0 <= i < result.Length ==> result[i] == Mean(a, i, w)
  {
    result := new real[|a| - w + 1];
    for i := 0 to result.Length
      invariant forall k :: 0 <= k < i ==> result[k] == Mean(a, k, w)
    {
      var sum := 0.0;
      for j := 0 to w
        invariant sum == Sum(a, i, j)
      {
        sum := sum + a[i + j];
      }
      result[i] := sum / (w as real);
    }
  }

  method BruteForceSumOfSquaredDifference(a: seq<real>, means: array<real>, w: nat) returns (result: array<real>)
    requires 0 < w <= |a| && means.Length == |a| - w + 1
    requires forall i :: 0 <= i < means.Length ==> means[i] == Mean(a, i, w)
    ensures fresh(result) && result.Length == |a| - w + 1
    ensures forall i :: 0 <= i < result.Length ==> result[i] == SquaredDifferences(a, i, w)
  {
    result := new real[|a| - w + 1];
    for i := 0 to result.Length
      invariant forall k :: 0 <= k < i ==> result[k] == SquaredDifferences(a, k, w)
      invariant forall k :: 0 <= k < means.Length ==> means[k] == Mean(a, k, w)
    {
      var sum := 0.0;
      for j := 0 to w
        invariant sum == Dot(a, i, a, i, j, means[i], means[i])
      {
        var val := a[i + j] - means[i];
        sum := sum + val * val;
      }
      result[i] := sum;
    }
  }

  /** The constant-time update of a squared difference, from the two means and the two end points. */
  function Advance(square: real, mean: real, mean': real, leaving: real, entering: real): real {
    square + ((leaving - mean) + (entering - mean')) * (entering - leaving)
  }

  lemma SquaredDifferenceStep(a: seq<real>, i: nat, w: nat)
    requires w > 0 && i + w < |a|
    ensures SquaredDifferences(a, i + 1, w)
         == Advance(SquaredDifferences(a, i, w), Mean(a, i, w), Mean(a, i + 1, w), a[i], a[i + w])
  {
    hide CentredDot, Mean;
    CovarianceStep(a, i, a, i, w);
    HalvesAdd(a[i + w] - a[i], Dg(a, i, w));
  }

  lemma HalvesAdd(x: real, y: real)
    ensures x / 2.0 * y + y * (x / 2.0) == y * x
  {
  }

  method FastSumOfSquaredDifference(a: seq<real>, means: array<real>, w: nat) returns (result: array<real>)
    requires 0 < w <= |a| && means.Length == |a| - w + 1
    requires forall i :: 0 <= i < means.Length ==> means[i] == Mean(a, i, w)
    ensures fresh(result) && result.Length == |a| - w + 1
    ensures forall i :: 0 <= i < result.Length ==> result[i] == SquaredDifferences(a, i, w)
  {
    result := new real[|a| - w + 1];
    var sum := 0.0;
    for i := 0 to w
      invariant sum == Dot(a, 0, a, 0, i, means[0], means[0])
    {
      var val := a[i] - means[0];
      sum := sum + val * val;
    }
    result[0] := sum;
    assert sum == SquaredDifferences(a, 0, w);
    hide SquaredDifferences, Mean, Dot, Advance;
    for i := 1 to |a| - w + 1
      invariant forall k :: 0 <= k < i ==> result[k] == SquaredDifferences(a, k, w)
      invariant forall k :: 0 <= k < means.Length ==> means[k] == Mean(a, k, w)
    {
      SquaredDifferenceStep(a, i - 1, w);
      result[i] := Advance(result[i - 1], means[i - 1], means[i], a[i - 1], a[i + w - 1]);
    }
  }

  /** What a tile needs of one series. */
  ghost predicate StatsOf(t: seq<real>, nanvalues: seq<bool>, m: nat,
                          means: seq<real>, norms: seq<Norm>, df: seq<real>, dg: seq<real>)
    requires 0 < m <= |t| && |nanvalues| == |t| - m + 1
  {
    var n := |t| - m + 1;
    && |means| == |norms| == |df| == |dg| == n
    && (forall i :: 0 <= i < n ==> means[i] == Mean(t, i, m))
    && (forall i :: 0 <= i < n ==>
          (norms[i].Flat? <==> nanvalues[i] || SquaredDifferences(t, i, m) <= 0.0000000000001))
    && (forall i :: 0 <= i < n && norms[i].Inverse? ==> IsInverseNorm(norms[i].x, t, i, m))
    && (forall i :: 0 <= i < n - 1 ==> df[i] == Df(t, i, m) && dg[i] == Dg(t, i, m))
  }

  /** `sqrt` behaves as a positive square root on the positive reals. */
  ghost predicate IsSquareRoot(sqrt: real -> real) {
    forall x :: x > 0.0 ==> sqrt(x) > 0.0 && sqrt(x) * sqrt(x) == x
  }

  lemma InverseNorm(root: real, s: real)
    requires root > 0.0 && root * root == s
    ensures 1.0 / root > 0.0 && (1.0 / root) * (1.0 / root) * s == 1.0
  {
    var x := 1.0 / root;
    assert x * root == 1.0;
    assert x * x * (root * root) == (x * root) * (x * root);
  }

  /** All statistics of one series. `nanIdxs` lists the windows that have no norm. */
  method ComputeStatistics(t: seq<real>, nanvalues: seq<bool>, m: nat, highPrecisionNorms: bool,
                           round: real -> real, sqrt: real -> real)
      returns (means: array<real>, norms: array<Norm>, df: array<real>, dg: array<real>, nanIdxs: seq<int>)
    requires 0 < m <= |t| && |nanvalues| == |t| - m + 1
    requires IsSquareRoot(sqrt)
    ensures StatsOf(t, nanvalues, m, means[..], norms[..], df[..], dg[..])
    ensures forall i :: 0 <= i < norms.Length ==> (i in nanIdxs <==> norms[i].Flat?)
  {
    hide SquaredDifferences, Mean;
    var squares;
    if highPrecisionNorms {
      means := BruteForceMovingMean(t, m);
      squares := BruteForceSumOfSquaredDifference(t, means, m);
    } else {
      means := MovingMean(t, m, round);
      squares := FastSumOfSquaredDifference(t, means, m);
    }
    norms, nanIdxs := ComputeNorms(t, nanvalues, m, squares[..], sqrt);
    df, dg := ComputeDiffs(t, m, means);
  }

  method ComputeDiffs(t: seq<real>, m: nat, means: array<real>) returns (df: array<real>, dg: array<real>)
    requires 0 < m <= |t| && means.Length == |t| - m + 1
    requires forall i :: 0 <= i < means.Length ==> means[i] == Mean(t, i, m)
    ensures fresh(df) && fresh(dg) && df.Length == dg.Length == |t| - m + 1
    ensures forall i :: 0 <= i < |t| - m ==> df[i] == Df(t, i, m) && dg[i] == Dg(t, i, m)
  {
    hide Mean;
    var n := |t| - m + 1;
    df := new real[n](_ => 0.0);
    dg := new real[n](_ => 0.0);
    for i := 0 to n - 1
      invariant forall k :: 0 <= k < means.Length ==> means[k] == Mean(t, k, m)
      invariant forall k :: 0 <= k < i ==> df[k] == Df(t, k, m) && dg[k] == Dg(t, k, m)
    {
      df[i] := (t[i + m] - t[i]) / 2.0;
      dg[i] := (t[i + m] - means[i + 1]) + (t[i] - means[i]);
    }
  }

  method ComputeNorms(t: seq<real>, nanvalues: seq<bool>, m: nat, squares: seq<real>, sqrt: real -> real)
      returns (norms: array<Norm>, nanIdxs: seq<int>)
    requires 0 < m <= |t| && |squares| == |nanvalues| == |t| - m + 1
    requires forall i :: 0 <= i < |squares| ==> squares[i] == SquaredDifferences(t, i, m)
    requires IsSquareRoot(sqrt)
    ensures fresh(norms) && norms.Length == |squares|
    ensures forall i :: 0 <= i < norms.Length ==> (norms[i].Flat? <==> nanvalues[i] || squares[i] <= 0.0000000000001)
    ensures forall i :: 0 <= i < norms.Length && norms[i].Inverse? ==> IsInverseNorm(norms[i].x, t, i, m)
    ensures forall i :: 0 <= i < norms.Length ==> (i in nanIdxs <==> norms[i].Flat?)
  {
    norms := new Norm[|squares|];
    nanIdxs := [];
    for i := 0 to |squares|
      invariant forall k :: 0 <= k < i ==> (norms[k].Flat? <==> nanvalues[k] || squares[k] <= FLATNESS_EPSILON)
      invariant forall k :: 0 <= k < i && norms[k].Inverse? ==> IsInverseNorm(norms[k].x, t, k, m)
      invariant forall k :: k in nanIdxs ==> 0 <= k < i
      invariant forall k :: 0 <= k < i ==> (k in nanIdxs <==> norms[k].Flat?)
    {
      hide SquaredDifferences;
      if nanvalues[i] || squares[i] <= FLATNESS_EPSILON {
        norms[i] := Flat;
        nanIdxs := nanIdxs + [i];
      } else {
        var root := sqrt(squares[i]);
        InverseNorm(root, squares[i]);
        norms[i] := Inverse(1.0 / root);
      }
    }
  }

  /** The first covariances of a tile. `size` is the length of the work buffers, which may exceed the tile;
      entry `i` only looks at the first `i + w` elements of `t`, so every entry inside the tile is exact. */
  method ComputeQT(size: nat, w: nat, t: seq<real>, q: seq<real>) returns (qt: array<real>)
    requires 0 < w <= size && |t| >= size && |q| >= w
    ensures fresh(qt) && qt.Length == size - w + 1
    ensures forall i :: 0 <= i < qt.Length ==> qt[i] == CentredDot(t, i, q, 0, w)
  {
    var n := size - w + 1;
    qt := new real[n];
    var rollingSum, qmean := 0.0, 0.0;
    for i := 0 to w
      invariant rollingSum == Sum(t, 0, i) && qmean == Sum(q, 0, i)
    {
      rollingSum := rollingSum + t[i];
      qmean := qmean + q[i];
    }
    qmean := qmean / (w as real);
    for i := 0 to n
      invariant i < n ==> rollingSum == Sum(t, i, w)
      invariant qmean == Mean(q, 0, w)
      invariant forall k :: 0 <= k < i ==> qt[k] == CentredDot(t, k, q, 0, w)
    {
      var mu := rollingSum / (w as real);
      var sum := 0.0;
      for j := 0 to w
        invariant sum == Dot(t, i, q, 0, j, mu, qmean)
      {
        sum := sum + (t[i + j] - mu) * (q[j] - qmean);
      }
      qt[i] := sum;
      if i != n - 1 {
        SumSlide(t, i, w);
        rollingSum := rollingSum - t[i] + t[i + w];
      }
    }
  }
}
