/**
 The matrix profile of the samples themselves: what the statistics of a join are computed from, which subsequences
 have a correlation at all, and what a finished self-join says about them.
 */
module MatrixProfile {
  import opened Profiles
  import opened Statistics
  import opened Tiling
  import opened Coverage
  import opened Joins
  import opened TileExec
  import opened JoinPlan
  import opened JoinProfile
  import CpuStats
  import W = Workers
  import P = WorkersProgress

  /** A window of samples that is finite throughout and not flat. `ts` is the cleaned series. */
  ghost predicate Regular(samples: seq<CpuStats.Sample>, ts: seq<real>, i: nat, w: nat)
    requires 0 < w && i + w <= |samples| == |ts|
  {
    && (forall j :: i <= j < i + w ==> samples[j].Finite?)
    && SquaredDifferences(ts, i, w) > 0.0000000000001
  }

  /** `r` is the Pearson correlation of two windows of a series. */
  ghost predicate Correlate(ts: seq<real>, i: nat, j: nat, w: nat, r: real)
    requires 0 < w && i + w <= |ts| && j + w <= |ts|
  {
    IsPearson(r, CentredDot(ts, i, ts, j, w), SquaredDifferences(ts, i, w), SquaredDifferences(ts, j, w))
  }

  /** A window has a norm if and only if it is regular. */
  lemma NormIffRegular(samples: seq<CpuStats.Sample>, w: nat, ts: seq<real>, s: Stats, i: nat)
    requires FromSamples(samples, w, ts, s) && i + w <= |samples|
    ensures i < |s.norms| && (s.norms[i].Inverse? <==> Regular(samples, ts, i, w))
  {
    hide SquaredDifferences, IsInverseNorm;
  }

  lemma SquareRootsAgree(r: real, r': real, m: real)
    requires m > 0.0 && r * r * m == r' * r' * m
    requires (r > 0.0 <==> r' > 0.0) && (r < 0.0 <==> r' < 0.0)
    ensures r == r'
  {
    assert (r * r - r' * r') * m == 0.0;
    assert r * r - r' * r' == (r - r') * (r + r');
  }

  /** Two windows that are not flat have one correlation. */
  lemma CorrelationUnique(c: real, s: real, t: real, r: real, r': real)
    requires s > 0.0 && t > 0.0 && IsPearson(r, c, s, t) && IsPearson(r', c, s, t)
    ensures r == r'
  {
    SquareRootsAgree(r, r', s * t);
  }

  lemma SameLength(samples: seq<CpuStats.Sample>, w: nat, ts: seq<real>, s: Stats)
    requires FromSamples(samples, w, ts, s)
    ensures |samples| == |ts|
  {
    hide SquaredDifferences, IsInverseNorm;
  }

  lemma RegularIsNotFlat(samples: seq<CpuStats.Sample>, ts: seq<real>, i: nat, w: nat)
    requires 0 < w && i + w <= |samples| == |ts| && Regular(samples, ts, i, w)
    ensures SquaredDifferences(ts, i, w) > 0.0
  {
    hide SquaredDifferences;
  }

  lemma Prepared(join: Join, samples: seq<CpuStats.Sample>)
    requires join.Valid() && join.info.selfJoin && FromSamples(samples, join.info.mpWindow, join.a, join.statsA)
    ensures Precomputed(join)
  {
    hide IsInverseNorm, SquaredDifferences;
  }

  /** Element `best` holds the largest Pearson correlation of window `s` with a regular one outside its zone, rounded,
      and where it is. */
  ghost predicate IsBestMatch(join: Join, samples: seq<CpuStats.Sample>, s: nat, best: Entry)
    requires join.Valid() && s < join.info.CountA() && |samples| == |join.a|
  {
    var w, n := join.info.mpWindow, join.info.CountA();
    && 0 <= best.index < n && (4 * (best.index - s) >= w || 4 * (s - best.index) >= w)
    && Regular(samples, join.a, best.index, w)
    && (exists r :: Correlate(join.a, s, best.index, w, r) && best.value == join.cast(r))
    && forall g: nat, r: real
         | g < n && (4 * (g - s) >= w || 4 * (s - g) >= w) && Regular(samples, join.a, g, w)
           && Correlate(join.a, s, g, w, r)
         :: join.cast(r) <= best.value
  }

  lemma SelfJoinParts(join: Join)
    requires join.Valid() && join.info.selfJoin
    ensures join.a == join.b && join.statsA == join.statsB && join.info.CountA() == join.info.CountB()
    ensures join.info.mpWindow > 0 && join.info.CountA() == |join.a| - join.info.mpWindow + 1 == |join.statsA.norms|
  {
  }

  lemma SharedIsSelf(info: OpInfo, m: Mode)
    requires Shared(info, m)
    ensures info.selfJoin
  {
  }

  lemma ApartIs(info: OpInfo, g: int, s: int)
    ensures Apart(info, g, s) <==> 4 * (g - s) >= info.mpWindow || 4 * (s - g) >= info.mpWindow
  {
  }

  lemma CorrelateIs(join: Join, s: nat, g: nat)
    requires join.Valid() && Precomputed(join) && join.info.selfJoin && s < join.info.CountA() && g < join.info.CountA()
    requires s < |join.statsA.norms| && g < |join.statsB.norms| && HasNorms(join, s, g)
    ensures Correlate(join.a, s, g, join.info.mpWindow, Exact(join, s, g))
  {
    ExactIsPearson(join, s, g);
    SelfJoinParts(join);
    hide IsPearson, CentredDot, SquaredDifferences, Exact, Join.Valid, Precomputed;
  }

  lemma NormsOfPair(join: Join, s: nat, g: nat)
    requires s < |join.statsA.norms| && g < |join.statsB.norms|
    ensures HasNorms(join, s, g) <==> join.statsA.norms[s].Inverse? && join.statsB.norms[g].Inverse?
  {
  }

  lemma EntryIsBest(join: Join, samples: seq<CpuStats.Sample>, s: nat, best: Entry)
    requires join.Valid() && join.info.selfJoin && Precomputed(join) && s < join.info.CountA()
    requires FromSamples(samples, join.info.mpWindow, join.a, join.statsA) && |samples| == |join.a|
    requires s + join.info.mpWindow <= |samples| && join.info.mpWindow > 0
    requires Regular(samples, join.a, s, join.info.mpWindow)
    requires IsMatrixProfileEntry(join, s, best)
    ensures IsBestMatch(join, samples, s, best)
  {
    SelfJoinParts(join);
    StatsLengths(join);
    var w, n := join.info.mpWindow, join.info.CountA();
    assert 0 <= best.index < n && Apart(join.info, best.index, s) && HasNorms(join, s, best.index);
    assert best.value == join.cast(Exact(join, s, best.index));
    hide Regular, Correlate, Exact, FromSamples, Precomputed, Join.Valid, CentredDot, SquaredDifferences, IsPearson;
    NormIffRegular(samples, w, join.a, join.statsA, best.index);
    CorrelateIs(join, s, best.index);
    forall g: nat, r: real
      | g < n && (4 * (g - s) >= w || 4 * (s - g) >= w) && Regular(samples, join.a, g, w)
        && Correlate(join.a, s, g, w, r)
      ensures join.cast(r) <= best.value
    {
      NormIffRegular(samples, w, join.a, join.statsA, g);
      NormIffRegular(samples, w, join.a, join.statsA, s);
      assert Apart(join.info, g, s) && HasNorms(join, s, g);
      CorrelateIs(join, s, g);
      SameCorrelation(samples, join.a, s, g, w, r, Exact(join, s, g));
    }
  }

  lemma SameCorrelation(samples: seq<CpuStats.Sample>, ts: seq<real>, i: nat, j: nat, w: nat, r: real, r': real)
    requires 0 < w && i + w <= |ts| == |samples| && j + w <= |ts|
    requires Regular(samples, ts, i, w) && Regular(samples, ts, j, w)
    requires Correlate(ts, i, j, w, r) && Correlate(ts, i, j, w, r')
    ensures r == r'
  {
    RegularIsNotFlat(samples, ts, i, w);
    RegularIsNotFlat(samples, ts, j, w);
    hide SquaredDifferences, CentredDot, IsPearson;
    CorrelationUnique(CentredDot(ts, i, ts, j, w), SquaredDifferences(ts, i, w), SquaredDifferences(ts, j, w), r, r');
  }

  /** A self-join of samples ends, for every regular window that has a regular neighbour outside its zone, with the
      best of those neighbours. */
  lemma BestMatches(x: Setup, run: seq<W.State>, samples: seq<CpuStats.Sample>, s: nat, g: nat)
    requires FinishedRun(x, run) && Shared(x.join.info, x.mode) && x.join.kind.Nearest? && GoodCast(x.join.cast)
    requires FromSamples(samples, x.join.info.mpWindow, x.join.a, x.join.statsA)
    requires s < x.join.info.CountA() && g < x.join.info.CountA()
    requires 4 * (g - s) >= x.join.info.mpWindow || 4 * (s - g) >= x.join.info.mpWindow
    requires Regular(samples, x.join.a, s, x.join.info.mpWindow) && Regular(samples, x.join.a, g, x.join.info.mpWindow)
    ensures |run| > 0 && s < |P.Last(run).profile|
    ensures IsBestMatch(x.join, samples, s, P.Last(run).profile[s])
  {
    hide *;
    RunParts(x, run);
    SharedIsSelf(x.join.info, x.mode);
    SelfJoinParts(x.join);
    StatsLengths(x.join);
    Prepared(x.join, samples);
    var w := x.join.info.mpWindow;
    SameLength(samples, w, x.join.a, x.join.statsA);
    NormIffRegular(samples, w, x.join.a, x.join.statsA, s);
    NormIffRegular(samples, w, x.join.a, x.join.statsA, g);
    ApartIs(x.join.info, g, s);
    NormsOfPair(x.join, s, g);
    SelfJoinMaximum(x, run, s, g);
    EntryIsBest(x.join, samples, s, P.Last(run).profile[s]);
  }
}
