/**
 A whole join, and the distance it assigns to a pair of subsequences. Every tile's launch, straight or
 transposed, computes exactly these distances.
 */
module Joins {
  import opened Profiles
  import opened Kernel
  import opened Statistics
  import opened Tiling

  /** What is precomputed for one series: inverse norms, the two update series, and the positions without a norm. */
  datatype Stats = Stats(norms: seq<Norm>, df: seq<real>, dg: seq<real>, nanIdxs: seq<int>)

  ghost predicate StatsFor(ts: seq<real>, w: nat, s: Stats) {
    && 0 < w <= |ts| && |s.norms| == |s.df| == |s.dg| == |ts| - w + 1
    && (forall i :: 0 <= i < |ts| - w ==> s.df[i] == Df(ts, i, w) && s.dg[i] == Dg(ts, i, w))
    && (forall i :: 0 <= i < |s.norms| ==> (i in s.nanIdxs <==> s.norms[i].Flat?))
  }

  datatype Join = Join(info: OpInfo, kind: Kind, a: seq<real>, b: seq<real>, statsA: Stats, statsB: Stats,
    cast: real -> real) {
    ghost predicate Valid() {
      && info.Valid() && |a| == info.fullTsLenA && |b| == info.fullTsLenB
      && StatsFor(a, info.mpWindow, statsA) && StatsFor(b, info.mpWindow, statsB)
      && (info.selfJoin ==> a == b && statsA == statsB)
      && (kind.SumThresh? <==> info.sumProfile)
    }

    /** The correlation of column `j` and row `i` of the distance matrix. */
    ghost function PairDist(j: nat, i: nat): Dist
      requires Valid() && j < info.CountA() && i < info.CountB()
    {
      Correlation(cast, CentredDot(a, j, b, i, info.mpWindow), statsA.norms[j], statsB.norms[i])
    }
  }

  lemma {:induction false} DotSymmetric(a: seq<real>, i: nat, b: seq<real>, j: nat, w: nat, x: real, y: real)
    requires i + w <= |a| && j + w <= |b|
    ensures Dot(a, i, b, j, w, x, y) == Dot(b, j, a, i, w, y, x)
  {
    if w > 0 {
      DotSymmetric(a, i, b, j, w - 1, x, y);
    }
  }

  lemma CentredDotSymmetric(a: seq<real>, i: nat, b: seq<real>, j: nat, w: nat)
    requires w > 0 && i + w <= |a| && j + w <= |b|
    ensures CentredDot(a, i, b, j, w) == CentredDot(b, j, a, i, w)
  {
    DotSymmetric(a, i, b, j, w, Mean(a, i, w), Mean(b, j, w));
  }

  /** A self-join's distances do not depend on which subsequence is the row. */
  lemma PairDistSymmetric(join: Join, j: nat, i: nat)
    requires join.Valid() && join.info.selfJoin && j < join.info.CountA() && i < join.info.CountA()
    ensures join.PairDist(j, i) == join.PairDist(i, j)
  {
    hide CentredDot, Correlation;
    assert join.b == join.a && join.statsB == join.statsA;
    CentredDotSymmetric(join.a, j, join.a, i, join.info.mpWindow);
    CorrelationSymmetric(join.cast, CentredDot(join.a, j, join.a, i, join.info.mpWindow), join.statsA.norms[j],
      join.statsA.norms[i]);
  }

  // ---------- The arguments of a tile's launches ----------

  /** A tile lies inside the two series. */
  predicate Inside(info: OpInfo, t: Tile) {
    Width(info, t) > 0 && Height(info, t) > 0
  }

  lemma NeededIsInside(info: OpInfo, t: Tile)
    requires info.Valid() && Needed(info, t)
    ensures Inside(info, t)
    ensures TileCol(info, t) < info.CountA() && TileRow(info, t) < info.CountB()
  {
    NumTilesExact(info.CountA(), info.maxTileWidth, t.col);
    NumTilesExact(info.CountB(), info.maxTileHeight, t.row);
  }

  lemma TileBounds(info: OpInfo, t: Tile)
    requires info.Valid() && Inside(info, t)
    ensures TileCol(info, t) + Width(info, t) <= info.CountA() && TileRow(info, t) + Height(info, t) <= info.CountB()
    ensures Width(info, t) <= info.maxTileWidth && Height(info, t) <= info.maxTileHeight
  {
  }

  /** The arguments of a launch: columns are the tile's own, or its rows when the tile is run transposed. */
  function TileArgs(join: Join, t: Tile, transpose: bool, hasNanInput: bool, cov: seq<real>): Args
    requires join.info.Valid() && Inside(join.info, t)
    requires |join.statsA.norms| == |join.statsA.df| == |join.statsA.dg| == join.info.CountA()
    requires |join.statsB.norms| == |join.statsB.df| == |join.statsB.dg| == join.info.CountB()
  {
    var info := join.info;
    var col, row, width, height := TileCol(info, t), TileRow(info, t), Width(info, t), Height(info, t);
    var ex := Exclusions(info, t, !transpose);
    if transpose then
      Args(cov, join.statsB.df[row..row + height], join.statsB.dg[row..row + height],
        join.statsB.norms[row..row + height],
        join.statsA.df[col..col + width], join.statsA.dg[col..col + width], join.statsA.norms[col..col + width],
        height, width, ex.0, ex.1, hasNanInput, join.cast)
    else
      Args(cov, join.statsA.df[col..col + width], join.statsA.dg[col..col + width], join.statsA.norms[col..col + width],
        join.statsB.df[row..row + height], join.statsB.dg[row..row + height], join.statsB.norms[row..row + height],
        width, height, ex.0, ex.1, hasNanInput, join.cast)
  }

  /** `hasNanInput` is set whenever one of the tile's subsequences has no norm. */
  ghost predicate NanFlagOk(join: Join, t: Tile, hasNanInput: bool) {
    && (forall j :: j in join.statsA.nanIdxs && 0 <= j - TileCol(join.info, t) < Width(join.info, t) ==> hasNanInput)
    && (forall i :: i in join.statsB.nanIdxs && 0 <= i - TileRow(join.info, t) < Height(join.info, t) ==> hasNanInput)
  }

  /** The first covariances of a launch are those of its first row. */
  ghost predicate CovFor(join: Join, t: Tile, transpose: bool, cov: seq<real>)
    requires join.Valid() && Inside(join.info, t)
  {
    var info := join.info;
    var col, row := TileCol(info, t), TileRow(info, t);
    TileBounds(info, t);
    if transpose then
      && |cov| >= Height(info, t)
      && forall c :: 0 <= c < Height(info, t) ==> cov[c] == CentredDot(join.b, row + c, join.a, col, info.mpWindow)
    else
      && |cov| >= Width(info, t)
      && forall c :: 0 <= c < Width(info, t) ==> cov[c] == CentredDot(join.a, col + c, join.b, row, info.mpWindow)
  }

  /** Both launches of a tile get arguments that belong to the join's series. */
  lemma ArgsAreFromSeries(join: Join, t: Tile, transpose: bool, hasNanInput: bool, cov: seq<real>)
    requires join.Valid() && Inside(join.info, t) && NanFlagOk(join, t, hasNanInput) && CovFor(join, t, transpose, cov)
    ensures
      var args := TileArgs(join, t, transpose, hasNanInput, cov);
      var col, row := TileCol(join.info, t), TileRow(join.info, t);
      && args.Valid()
      && if transpose then FromSeries(args, join.b, row, join.a, col, join.info.mpWindow)
         else FromSeries(args, join.a, col, join.b, row, join.info.mpWindow)
  {
    hide CentredDot, Df, Dg, Exclusions, TileCol, TileRow, Width, Height;
    TileBounds(join.info, t);
    StatsLengths(join);
    ArgsValid(join, t, transpose, hasNanInput, cov);
    hide Args.Valid;
  }

  lemma ArgsValid(join: Join, t: Tile, transpose: bool, hasNanInput: bool, cov: seq<real>)
    requires join.Valid() && Inside(join.info, t) && NanFlagOk(join, t, hasNanInput) && CovFor(join, t, transpose, cov)
    ensures TileArgs(join, t, transpose, hasNanInput, cov).Valid()
  {
    hide CentredDot, Df, Dg, Exclusions, TileCol, TileRow, Width, Height;
    TileBounds(join.info, t);
    StatsLengths(join);
  }

  /** A launch's distances are the join's: of column `c` and row `r`, or the other way round when transposed. */
  lemma LaunchDist(join: Join, t: Tile, transpose: bool, hasNanInput: bool, cov: seq<real>, r: nat, c: nat)
    requires join.Valid() && Inside(join.info, t) && NanFlagOk(join, t, hasNanInput) && CovFor(join, t, transpose, cov)
    requires
      var args := TileArgs(join, t, transpose, hasNanInput, cov);
      r <= c < args.nx && r < args.ny
    ensures
      var args := TileArgs(join, t, transpose, hasNanInput, cov);
      var col, row := TileCol(join.info, t), TileRow(join.info, t);
      && args.Valid()
      && (if transpose then col + r < join.info.CountA() && row + c < join.info.CountB()
          else col + c < join.info.CountA() && row + r < join.info.CountB())
      && args.DistAt(r, c) == if transpose then join.PairDist(col + r, row + c) else join.PairDist(col + c, row + r)
  {
    hide CentredDot, FromSeries, Exclusions, CovFor, NanFlagOk, StatsFor, Args.Cov, Correlation, TileCol, TileRow,
      Width, Height;
    StatsLengths(join);
    var args := TileArgs(join, t, transpose, hasNanInput, cov);
    var col, row, w := TileCol(join.info, t), TileRow(join.info, t), join.info.mpWindow;
    TileBounds(join.info, t);
    ArgsAreFromSeries(join, t, transpose, hasNanInput, cov);
    if transpose {
      CovarianceIsExact(args, join.b, row, join.a, col, w, r, c);
      CentredDotSymmetric(join.a, col + r, join.b, row + c, w);
      CorrelationSymmetric(join.cast, CentredDot(join.a, col + r, join.b, row + c, w), join.statsA.norms[col + r],
        join.statsB.norms[row + c]);
    } else {
      CovarianceIsExact(args, join.a, col, join.b, row, w, r, c);
    }
  }

  lemma StatsLengths(join: Join)
    requires join.Valid()
    ensures join.info.Valid()
    ensures |join.statsA.norms| == |join.statsA.df| == |join.statsA.dg| == join.info.CountA()
    ensures |join.statsB.norms| == |join.statsB.df| == |join.statsB.dg| == join.info.CountB()
    ensures |join.a| == join.info.CountA() + join.info.mpWindow - 1
    ensures |join.b| == join.info.CountB() + join.info.mpWindow - 1
  {
  }
}
