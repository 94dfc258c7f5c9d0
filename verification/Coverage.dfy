/**
 Which pairs of subsequences a join evaluates, and how often: the schedule, the exclusion zones, the launch
 guard and the two triangular kernels together.
 */
module Coverage {
  import opened Arithmetic
  import opened Tiling

  /** A pair that is not a trivial match: at least a quarter of the window apart. */
  predicate Apart(info: OpInfo, i: int, j: int) {
    4 * (i - j) >= info.mpWindow || 4 * (j - i) >= info.mpWindow
  }

  /** The block coordinates of a pair, with the bounds every case analysis needs. */
  lemma HomeBounds(info: OpInfo, i: nat, j: nat)
    requires info.Valid() && i < info.CountB() && j < info.CountA()
    ensures
      var t := Home(info, i, j);
      && TileRow(info, t) <= i < TileRow(info, t) + info.maxTileHeight
      && TileCol(info, t) <= j < TileCol(info, t) + info.maxTileWidth
      && Width(info, t) == Min(info.maxTileWidth, info.CountA() - TileCol(info, t))
      && Height(info, t) == Min(info.maxTileHeight, info.CountB() - TileRow(info, t))
      && t.row < TileRows(info) && t.col < TileCols(info)
  {
    var t := Home(info, i, j);
    DivFloor(i, info.maxTileHeight);
    DivFloor(j, info.maxTileWidth);
    NumTilesExact(info.CountB(), info.maxTileHeight, t.row);
    NumTilesExact(info.CountA(), info.maxTileWidth, t.col);
  }

  /** Distinct block coordinates are at least one tile apart. */
  lemma BlocksApart(p: nat, q: nat, t: nat)
    requires p < q
    ensures p * t + t <= q * t
    ensures q > p + 1 ==> p * t + 2 * t <= q * t
    ensures q == p + 1 ==> p * t + t == q * t
  {
    MulMonotone(p + 1, q, t);
    if q > p + 1 {
      MulMonotone(p + 2, q, t);
    }
  }

  // ---------- Self-joins ----------

  lemma SelfJoinDiagonalTile(info: OpInfo, i: nat, j: nat)
    requires info.Valid() && info.selfJoin && i < info.CountB() && j < info.CountA()
    requires Home(info, i, j).row == Home(info, i, j).col
    ensures TileEvaluations(info, Home(info, i, j), i, j) == if 4 * (j - i) >= info.mpWindow then 1 else 0
  {
    HomeBounds(info, i, j);
  }

  lemma SelfJoinFullTile(info: OpInfo, i: nat, j: nat)
    requires info.Valid() && info.selfJoin && i < info.CountB() && j < info.CountA()
    requires Home(info, i, j).row < Home(info, i, j).col
    ensures TileEvaluations(info, Home(info, i, j), i, j) > 0 <==> 4 * (j - i) >= info.mpWindow
    ensures info.sumProfile ==> TileEvaluations(info, Home(info, i, j), i, j) <= 1
  {
    hide Home;
    var t := Home(info, i, j);
    HomeBounds(info, i, j);
    BlocksApart(t.row, t.col, info.maxTileWidth);
    assert Height(info, t) == info.maxTileHeight;
    assert SelfJoinExclusion(info, t, true) == (0, 0);
  }

  /** Every pair far enough above the diagonal is evaluated, no nearer one is, and a sum counts it once. */
  lemma SelfJoinCoverage(info: OpInfo, queue: seq<Tile>, i: nat, j: nat)
    requires info.Valid() && info.selfJoin && Enumerates(info, queue)
    requires i < info.CountB() && j < info.CountA()
    ensures Evaluations(info, queue, i, j) > 0 <==> 4 * (j - i) >= info.mpWindow
    ensures info.sumProfile ==> Evaluations(info, queue, i, j) == if 4 * (j - i) >= info.mpWindow then 1 else 0
  {
    hide TileEvaluations;
    var t := Home(info, i, j);
    EvaluationsByHome(info, queue, i, j);
    HomeBounds(info, i, j);
    if t.row == t.col {
      SelfJoinDiagonalTile(info, i, j);
    } else if t.row < t.col {
      SelfJoinFullTile(info, i, j);
    } else {
      BlocksApart(t.col, t.row, info.maxTileWidth);
    }
  }

  // ---------- AB-joins ----------

  lemma UnalignedTile(info: OpInfo, i: nat, j: nat)
    requires info.Valid() && !info.selfJoin && !info.isAligned && i < info.CountB() && j < info.CountA()
    ensures TileEvaluations(info, Home(info, i, j), i, j) > 0
    ensures info.sumProfile ==> TileEvaluations(info, Home(info, i, j), i, j) == 1
  {
    hide Home;
    HomeBounds(info, i, j);
  }

  /** An unaligned join evaluates every pair of the grid; a sum counts each pair once. */
  lemma AbJoinCoverage(info: OpInfo, queue: seq<Tile>, i: nat, j: nat)
    requires info.Valid() && !info.selfJoin && !info.isAligned && Enumerates(info, queue)
    requires i < info.CountB() && j < info.CountA()
    ensures Evaluations(info, queue, i, j) > 0
    ensures info.sumProfile ==> Evaluations(info, queue, i, j) == 1
  {
    hide TileEvaluations;
    EvaluationsByHome(info, queue, i, j);
    HomeBounds(info, i, j);
    UnalignedTile(info, i, j);
  }

  /** An aligned join of two series with equally many subsequences, not part of a distributed join. */
  predicate AlignedLocal(info: OpInfo) {
    && !info.selfJoin && info.isAligned && info.fullTsLenA == info.fullTsLenB
    && (info.globalStartColPosition < 0 || info.globalStartRowPosition < 0)
  }

  lemma AlignedTileOnDiagonal(info: OpInfo, i: nat, j: nat)
    requires info.Valid() && AlignedLocal(info) && i < info.CountB() && j < info.CountA()
    requires Home(info, i, j).row == Home(info, i, j).col
    ensures TileEvaluations(info, Home(info, i, j), i, j) == if Apart(info, i, j) then 1 else 0
  {
    hide Home;
    HomeBounds(info, i, j);
  }

  lemma AlignedTileAbove(info: OpInfo, i: nat, j: nat)
    requires info.Valid() && AlignedLocal(info) && i < info.CountB() && j < info.CountA()
    requires Home(info, i, j).row < Home(info, i, j).col
    ensures TileEvaluations(info, Home(info, i, j), i, j) > 0 <==> Apart(info, i, j)
    ensures info.sumProfile ==> TileEvaluations(info, Home(info, i, j), i, j) <= 1
  {
    hide Home;
    var t := Home(info, i, j);
    HomeBounds(info, i, j);
    BlocksApart(t.row, t.col, info.maxTileWidth);
    assert Height(info, t) == info.maxTileHeight;
  }

  lemma AlignedTileBelow(info: OpInfo, i: nat, j: nat)
    requires info.Valid() && AlignedLocal(info) && i < info.CountB() && j < info.CountA()
    requires Home(info, i, j).col < Home(info, i, j).row
    ensures TileEvaluations(info, Home(info, i, j), i, j) > 0 <==> Apart(info, i, j)
    ensures info.sumProfile ==> TileEvaluations(info, Home(info, i, j), i, j) <= 1
  {
    hide Home;
    var t := Home(info, i, j);
    HomeBounds(info, i, j);
    BlocksApart(t.col, t.row, info.maxTileWidth);
    assert Width(info, t) == info.maxTileWidth;
  }

  /** An aligned join evaluates exactly the pairs outside the trivial-match zone, on both sides. */
  lemma AlignedJoinCoverage(info: OpInfo, queue: seq<Tile>, i: nat, j: nat)
    requires info.Valid() && AlignedLocal(info) && Enumerates(info, queue)
    requires i < info.CountB() && j < info.CountA()
    ensures Evaluations(info, queue, i, j) > 0 <==> Apart(info, i, j)
    ensures info.sumProfile ==> Evaluations(info, queue, i, j) == if Apart(info, i, j) then 1 else 0
  {
    hide TileEvaluations;
    var t := Home(info, i, j);
    EvaluationsByHome(info, queue, i, j);
    HomeBounds(info, i, j);
    if t.row == t.col {
      AlignedTileOnDiagonal(info, i, j);
    } else if t.row < t.col {
      AlignedTileAbove(info, i, j);
    } else {
      AlignedTileBelow(info, i, j);
    }
  }

  // ---------- Aligned joins that are part of a larger one ----------

  /** How far the columns of a join lie behind its rows in the larger join, when both positions are given. */
  function Shift(info: OpInfo): int {
    if info.globalStartRowPosition >= 0 && info.globalStartColPosition >= 0
    then info.globalStartColPosition - info.globalStartRowPosition else 0
  }

  /** Row `i` and column `j` are not a trivial match in the larger join. */
  predicate ApartInWhole(info: OpInfo, i: int, j: int) {
    var d := j - i + Shift(info);
    4 * d >= info.mpWindow || 4 * -d >= info.mpWindow
  }

  predicate InTile(info: OpInfo, t: Tile, i: int, j: int) {
    && TileRow(info, t) <= i < TileRow(info, t) + Height(info, t)
    && TileCol(info, t) <= j < TileCol(info, t) + Width(info, t)
  }

  /** A tile evaluates exactly its pairs outside the trivial-match zone. */
  ghost predicate TileExact(info: OpInfo, t: Tile) {
    forall i: int, j: int :: InTile(info, t, i, j) ==>
      (TileEvaluations(info, t, i, j) > 0 <==> ApartInWhole(info, i, j))
  }

  predicate FullTile(info: OpInfo, t: Tile) {
    !info.selfJoin && info.isAligned && Width(info, t) == Height(info, t) == info.maxTileWidth
  }

  /** How far the corner of a tile is off the diagonal of the larger join. */
  function Corner(info: OpInfo, t: Tile): int {
    TileCol(info, t) - TileRow(info, t) + Shift(info)
  }

  /** A corner on the diagonal, one tile off, or so far off that the tile does not meet the zone. */
  predicate GoodCorner(info: OpInfo, t: Tile) {
    var d := Corner(info, t);
    || d == 0 || d == info.maxTileWidth || d + info.maxTileWidth == 0
    || 4 * (d - info.maxTileWidth + 1) >= info.mpWindow || 4 * (-d - info.maxTileWidth + 1) >= info.mpWindow
  }

  lemma GoodCornerIsExact(info: OpInfo, t: Tile, i: int, j: int)
    requires info.Valid() && FullTile(info, t) && GoodCorner(info, t) && InTile(info, t, i, j)
    ensures TileEvaluations(info, t, i, j) > 0 <==> ApartInWhole(info, i, j)
  {
    hide TileRow, TileCol, Width, Height;
  }

  /** A trivial match that a tile with another corner evaluates: the lower kernel does if the corner is above the
      diagonal, else the upper one. */
  lemma BadCornerPair(info: OpInfo, t: Tile) returns (i: int, j: int)
    requires info.Valid() && FullTile(info, t) && !GoodCorner(info, t)
    ensures InTile(info, t, i, j) && TileEvaluations(info, t, i, j) > 0 && !ApartInWhole(info, i, j)
  {
    if Corner(info, t) > 0 {
      i, j := BadCornerAbove(info, t);
    } else {
      i, j := BadCornerBelow(info, t);
    }
    hide LowerCell, UpperCell, InTile, ApartInWhole;
  }

  lemma BadCornerAbove(info: OpInfo, t: Tile) returns (i: int, j: int)
    requires info.Valid() && FullTile(info, t) && !GoodCorner(info, t) && Corner(info, t) > 0
    ensures InTile(info, t, i, j) && LowerCell(info, t, i, j) && !ApartInWhole(info, i, j)
  {
    hide TileRow, TileCol, Width, Height;
    var d, e := Corner(info, t), (info.mpWindow + 3) / 4;
    i, j := TileRow(info, t) + if d < e then 0 else Min(info.maxTileWidth - 1, d - e + 1), TileCol(info, t);
  }

  lemma BadCornerBelow(info: OpInfo, t: Tile) returns (i: int, j: int)
    requires info.Valid() && FullTile(info, t) && !GoodCorner(info, t) && Corner(info, t) <= 0
    ensures InTile(info, t, i, j) && UpperCell(info, t, i, j) && !ApartInWhole(info, i, j)
  {
    hide TileRow, TileCol, Width, Height;
    var d, e := Corner(info, t), (info.mpWindow + 3) / 4;
    i, j := TileRow(info, t), TileCol(info, t) + if -d < e then 1 else Min(info.maxTileWidth - 1, -d - e + 1);
  }

  /** A full tile of an aligned join is right about trivial matches if and only if its corner is good. */
  lemma FullTileExactIff(info: OpInfo, t: Tile)
    requires info.Valid() && FullTile(info, t)
    ensures TileExact(info, t) <==> GoodCorner(info, t)
  {
    hide TileEvaluations, ApartInWhole, InTile, GoodCorner, FullTile;
    if GoodCorner(info, t) {
      forall i: int, j: int | InTile(info, t, i, j)
        ensures TileEvaluations(info, t, i, j) > 0 <==> ApartInWhole(info, i, j)
      {
        GoodCornerIsExact(info, t, i, j);
      }
    } else {
      var i, j := BadCornerPair(info, t);
    }
  }

  /** In particular it is when the join's own position in the larger one is a multiple of the tile size. */
  lemma GridAligned(info: OpInfo, t: Tile, k: int)
    requires info.Valid() && FullTile(info, t) && Shift(info) == k * info.maxTileWidth
    ensures TileExact(info, t)
  {
    Multiples(t.col, t.row, k, info.maxTileWidth);
    FullTileExactIff(info, t);
  }

  lemma Multiples(a: nat, b: nat, k: int, n: nat)
    ensures var d := a * n - b * n + k * n; d == 0 || d == n || d + n == 0 || d >= 2 * n || d <= -2 * n
  {
    var m, d := a - b + k, a * n - b * n + k * n;
    assert d == m * n;
    if m >= 2 {
      MulMonotone(2, m, n);
    } else if m <= -2 {
      MulMonotone(2, -m, n);
      assert -m * n == -(m * n);
    }
  }

  /** Joining a series with itself, aligned, compares each subsequence with the same ones as the self-join. */
  lemma AlignedJoinAgreesWithSelfJoin(self: OpInfo, selfQueue: seq<Tile>, ab: OpInfo, abQueue: seq<Tile>, i: nat,
                                      j: nat)
    requires self.Valid() && self.selfJoin && Enumerates(self, selfQueue)
    requires ab.Valid() && AlignedLocal(ab) && Enumerates(ab, abQueue)
    requires self.fullTsLenA == ab.fullTsLenA && self.mpWindow == ab.mpWindow
    requires i < self.CountA() && j < self.CountA()
    ensures Evaluations(ab, abQueue, i, j) > 0
       <==> Evaluations(self, selfQueue, i, j) > 0 || Evaluations(self, selfQueue, j, i) > 0
  {
    hide Evaluations;
    AlignedJoinCoverage(ab, abQueue, i, j);
    SelfJoinCoverage(self, selfQueue, i, j);
    SelfJoinCoverage(self, selfQueue, j, i);
  }
}
