/**
 The sliding-window kernel, one warp: what its threads contribute to a tile put together, when its lanes stay on the
 same path, and the row sums that they add up with shuffles.
 */
module SlidingWarp {
  import opened Arithmetic
  import opened Profiles
  import opened ShflRing
  import opened GpuBlock
  import opened SlidingWindow
  import opened SlidingTile

  // ---------- Putting contributions together ----------

  /** Some rows, then the rows after them. */
  lemma ContributedRows(g: Geo, lo: int, hi: int, tileRow: nat, from: int, mid: int, to: int, was: Shared, half: Shared,
                        now: Shared)
    requires g.Valid() && from <= mid <= to
    requires Contributed(g, lo, hi, tileRow, from, mid, was, half)
    requires Contributed(g, lo, hi, tileRow, mid, to, half, now)
    ensures Contributed(g, lo, hi, tileRow, from, to, was, now)
  {
    hide Gathered, Geo.Width, Diag;
    forall x: nat | x < |was.localMpCol|
      ensures ColOk(g, lo, hi, from, to, g.startCol + tileRow + x, was.localMpCol[x], now.localMpCol[x])
    {
      var c := g.startCol + tileRow + x;
      assert ColOk(g, lo, hi, from, mid, c, was.localMpCol[x], half.localMpCol[x]);
      assert ColOk(g, lo, hi, mid, to, c, half.localMpCol[x], now.localMpCol[x]);
      if g.cols && c < g.a.nx {
        var first, second := DiagRows(g, lo, hi, from, mid, c), DiagRows(g, lo, hi, mid, to, c);
        GatherThen(g.kind, g.a.ColDists(c), was.localMpCol[x], first, half.localMpCol[x], second, now.localMpCol[x]);
        assert DiagRows(g, lo, hi, from, to, c) == first + second;
      }
    }
    forall i: nat | i < |was.localMpRow|
      ensures RowOk(g, lo, hi, from, to, tileRow + i, was.localMpRow[i], now.localMpRow[i])
    {
      var r := tileRow + i;
      assert RowOk(g, lo, hi, from, mid, r, was.localMpRow[i], half.localMpRow[i]);
      assert RowOk(g, lo, hi, mid, to, r, half.localMpRow[i], now.localMpRow[i]);
      if g.rows && r < g.a.ny {
        var cells := DiagCols(g, lo, hi, r);
        var first, second := if from <= r < mid then cells else {}, if mid <= r < to then cells else {};
        GatherThen(g.kind, g.a.RowDists(r), was.localMpRow[i], first, half.localMpRow[i], second, now.localMpRow[i]);
        assert first + second == if from <= r < to then cells else {};
      }
    }
  }

  /** Some diagonals, then the diagonals after them. */
  lemma ColsDiagonals(g: Geo, lo: int, mid: int, hi: int, tileRow: nat, from: int, to: int,
                      was: seq<Entry>, half: seq<Entry>, now: seq<Entry>)
    requires g.Valid() && lo <= mid <= hi
    requires ColsContributed(g, lo, mid, tileRow, from, to, was, half)
    requires ColsContributed(g, mid, hi, tileRow, from, to, half, now)
    ensures ColsContributed(g, lo, hi, tileRow, from, to, was, now)
  {
    hide Gathered, Geo.Width;
    forall x: nat | x < |was| ensures ColOk(g, lo, hi, from, to, g.startCol + tileRow + x, was[x], now[x]) {
      var c := g.startCol + tileRow + x;
      assert ColOk(g, lo, mid, from, to, c, was[x], half[x]);
      assert ColOk(g, mid, hi, from, to, c, half[x], now[x]);
      if g.cols && c < g.a.nx {
        var first, second := DiagRows(g, lo, mid, from, to, c), DiagRows(g, mid, hi, from, to, c);
        GatherThen(g.kind, g.a.ColDists(c), was[x], first, half[x], second, now[x]);
        assert DiagRows(g, lo, hi, from, to, c) == first + second;
      }
    }
  }

  lemma RowsDiagonals(g: Geo, lo: int, mid: int, hi: int, tileRow: nat, from: int, to: int,
                      was: seq<Entry>, half: seq<Entry>, now: seq<Entry>)
    requires g.Valid() && lo <= mid <= hi
    requires RowsContributed(g, lo, mid, tileRow, from, to, was, half)
    requires RowsContributed(g, mid, hi, tileRow, from, to, half, now)
    ensures RowsContributed(g, lo, hi, tileRow, from, to, was, now)
  {
    hide Gathered, Geo.Width;
    forall i: nat | i < |was| ensures RowOk(g, lo, hi, from, to, tileRow + i, was[i], now[i]) {
      var r := tileRow + i;
      assert RowOk(g, lo, mid, from, to, r, was[i], half[i]);
      assert RowOk(g, mid, hi, from, to, r, half[i], now[i]);
      if g.rows && r < g.a.ny {
        var first, second := DiagCols(g, lo, mid, r), DiagCols(g, mid, hi, r);
        if from <= r < to {
          GatherThen(g.kind, g.a.RowDists(r), was[i], first, half[i], second, now[i]);
          assert DiagCols(g, lo, hi, r) == first + second;
        } else {
          GatherThen(g.kind, g.a.RowDists(r), was[i], {}, half[i], {}, now[i]);
          assert {} + {} == Range(0, 0);
          assert Range(0, 0) == {};
        }
      }
    }
  }

  lemma ContributedDiagonals(g: Geo, lo: int, mid: int, hi: int, tileRow: nat, from: int, to: int,
                             was: Shared, half: Shared, now: Shared)
    requires g.Valid() && lo <= mid <= hi
    requires Contributed(g, lo, mid, tileRow, from, to, was, half)
    requires Contributed(g, mid, hi, tileRow, from, to, half, now)
    ensures Contributed(g, lo, hi, tileRow, from, to, was, now)
  {
    hide ColsContributed, RowsContributed, Geo.Width;
    ColsDiagonals(g, lo, mid, hi, tileRow, from, to, was.localMpCol, half.localMpCol, now.localMpCol);
    RowsDiagonals(g, lo, mid, hi, tileRow, from, to, was.localMpRow, half.localMpRow, now.localMpRow);
  }

  /** Rows or diagonals without a cell contribute nothing. */
  lemma NothingContributed(g: Geo, lo: int, hi: int, tileRow: nat, from: int, to: int, sm: Shared)
    requires g.Valid()
    requires forall r: int, c: int :: from <= r < to ==> !Diag(g, lo, hi, r, c)
    ensures Contributed(g, lo, hi, tileRow, from, to, sm, sm)
  {
    hide Gathered, Geo.Width, ColOk, Diag;
    forall x: nat | x < |sm.localMpCol|
      ensures ColOk(g, lo, hi, from, to, g.startCol + tileRow + x, sm.localMpCol[x], sm.localMpCol[x])
    {
      NoRows(g, lo, hi, from, to, g.startCol + tileRow + x, sm.localMpCol[x]);
    }
    forall i: nat | i < |sm.localMpRow|
      ensures RowOk(g, lo, hi, from, to, tileRow + i, sm.localMpRow[i], sm.localMpRow[i])
    {
      var r := tileRow + i;
      if r < g.a.ny {
        GatherNothing(g.kind, g.a.RowDists(r), sm.localMpRow[i]);
        assert from <= r < to ==> DiagCols(g, lo, hi, r) == {};
      }
    }
  }

  lemma ContributedKeepsSeeded(g: Geo, lo: int, hi: int, tileRow: nat, from: int, to: int, was: Shared, now: Shared)
    requires g.Valid() && Contributed(g, lo, hi, tileRow, from, to, was, now) && Seeded(g, tileRow, was)
    ensures Seeded(g, tileRow, now)
  {
    hide Geo.Width, Diag;
    if g.kind.Nearest? && g.cols {
      forall x: nat | x < |now.localMpCol| && g.startCol + tileRow + x < g.a.nx
        ensures now.localMpCol[x].value >= InitDist(g.kind)
      {
        assert ColOk(g, lo, hi, from, to, g.startCol + tileRow + x, was.localMpCol[x], now.localMpCol[x]);
      }
    }
    if g.kind.Nearest? && g.rows {
      forall i: nat | i < |now.localMpRow| && tileRow + i < g.a.ny ensures now.localMpRow[i].value >= InitDist(g.kind) {
        assert RowOk(g, lo, hi, from, to, tileRow + i, was.localMpRow[i], now.localMpRow[i]);
      }
    }
  }

  /** A contribution keeps all that the next one needs. */
  lemma Carries(g: Geo, lo: int, hi: int, tileRow: nat, from: int, to: int, was: Shared, now: Shared)
    requires g.Valid() && Contributed(g, lo, hi, tileRow, from, to, was, now) && Shaped(g, was)
    requires Mirrors(g, was, tileRow) && Seeded(g, tileRow, was)
    ensures Shaped(g, now) && Mirrors(g, now, tileRow) && Seeded(g, tileRow, now)
  {
    ContributedKeepsSeeded(g, lo, hi, tileRow, from, to, was, now);
    hide Geo.Width, ColOk, RowOk, Seeded;
  }

  /** The fast path leaves the same values as the checked path on the same rows and diagonals, whether a thread's or a
      whole warp's: both take in the same cells. And it leaves the same covariances to the thread at `off`. */
  lemma FastMatchesEdge(g: Geo, off: nat, lo: int, hi: int, tileRow: nat, from: int, to: int, was: Shared, fast: Shared,
                        edge: Shared, covFast: seq<real>, covEdge: seq<real>)
    requires g.Valid() && FastTile(g, off, tileRow) && Shaped(g, was)
    requires Contributed(g, lo, hi, tileRow, from, to, was, fast)
    requires Contributed(g, lo, hi, tileRow, from, to, was, edge)
    requires tileRow <= to <= tileRow + g.height && off + g.dpt <= g.Width()
    requires CovOk(g, off, to, covFast) && CovOk(g, off, to, covEdge)
    ensures covFast == covEdge
    ensures g.cols ==> forall x :: 0 <= x < |was.localMpCol| ==> fast.localMpCol[x].value == edge.localMpCol[x].value
    ensures g.rows ==> forall i :: 0 <= i < |was.localMpRow| ==> fast.localMpRow[i].value == edge.localMpRow[i].value
  {
    hide Gathered, Geo.Width;
    forall x: nat | g.cols && x < |was.localMpCol| ensures fast.localMpCol[x].value == edge.localMpCol[x].value {
      var c := g.startCol + tileRow + x;
      assert ColOk(g, lo, hi, from, to, c, was.localMpCol[x], fast.localMpCol[x]);
      assert ColOk(g, lo, hi, from, to, c, was.localMpCol[x], edge.localMpCol[x]);
      GatheredValueUnique(g.kind, g.a.ColDists(c), was.localMpCol[x], DiagRows(g, lo, hi, from, to, c),
        fast.localMpCol[x], edge.localMpCol[x]);
    }
    forall i: nat | g.rows && i < |was.localMpRow| ensures fast.localMpRow[i].value == edge.localMpRow[i].value {
      var r := tileRow + i;
      assert RowOk(g, lo, hi, from, to, r, was.localMpRow[i], fast.localMpRow[i]);
      assert RowOk(g, lo, hi, from, to, r, was.localMpRow[i], edge.localMpRow[i]);
      GatheredValueUnique(g.kind, g.a.RowDists(r), was.localMpRow[i], if from <= r < to then DiagCols(g, lo, hi, r)
        else {},
        fast.localMpRow[i], edge.localMpRow[i]);
    }
  }

  // ---------- When the lanes of a warp part ways ----------

  /** The first diagonal of a thread, counted from the block's first. */
  function Offset(g: Geo, thread: nat): nat {
    thread * g.dpt
  }

  lemma OffsetIs(g: Geo, t: nat)
    ensures Offset(g, t) == t * g.dpt && Offset(g, t + 1) == t * g.dpt + g.dpt
  {
    NextThread(t, g.dpt);
  }

  /** The rows of a sum, where they are computed, are added up across the lanes of a warp. */
  predicate Shuffles(g: Geo) {
    g.rows && g.kind.SumThresh?
  }

  /** Lane `l` of a warp takes the same path in a tile as lane 0. */
  predicate LaneAgrees(g: Geo, warp: nat, l: nat, tileRow: nat) {
    FastTile(g, Offset(g, 32 * warp + l), tileRow) <==> FastTile(g, Offset(g, 32 * warp), tileRow)
  }

  /** All lanes of every warp take the same path in every tile. The row sums need that: their shuffles name all 32. */
  ghost predicate UniformWarps(g: Geo) {
    forall warp: nat, l: nat, tileRow: nat :: warp < g.warps && l < 32 ==> LaneAgrees(g, warp, l, tileRow)
  }

  /** Where the band ends inside the block: after whole warps, or in the first diagonals of one. */
  predicate NoSplitWarp(g: Geo)
    requires g.Valid()
  {
    var left := g.a.NumDiags() - g.startCol;
    || g.startCol + g.Width() + g.height >= g.a.nx || g.height >= g.a.ny
    || left < 0 || left >= g.Width() || Rem(left, g.Span()) < g.dpt
  }

  lemma LaneOffset(g: Geo, warp: nat, l: nat)
    requires l < 32
    ensures Offset(g, 32 * warp) == warp * g.Span() && Offset(g, 32 * warp + l) == warp * g.Span() + l * g.dpt
    ensures l * g.dpt + g.dpt <= g.Span() && (l == 31 ==> l * g.dpt + g.dpt == g.Span())
  {
    ThreadSlots(l, g.dpt, 32);
    LaneAlgebra(warp, l, g.dpt);
  }

  lemma LaneAlgebra(warp: nat, l: nat, dpt: nat)
    ensures 32 * warp * dpt == warp * (32 * dpt) && (32 * warp + l) * dpt == warp * (32 * dpt) + l * dpt
  {
  }

  /** The lanes of every warp stay together, in every tile, if and only if the band does not end inside a warp of a
      block that has a fast tile. */
  lemma UniformWarpsIff(g: Geo)
    requires g.Valid()
    ensures UniformWarps(g) <==> NoSplitWarp(g)
  {
    var left, span := g.a.NumDiags() - g.startCol, g.Span();
    hide LaneAgrees, NoSplitWarp, Offset, Geo.Width, Geo.Span;
    if NoSplitWarp(g) {
      forall warp: nat, l: nat, tileRow: nat | warp < g.warps && l < 32 ensures LaneAgrees(g, warp, l, tileRow) {
        LanesTogether(g, warp, l, tileRow);
      }
    } else {
      var warp := SplitWarp(g);
      assert !LaneAgrees(g, warp, 31, 0);
    }
  }

  lemma LanesTogether(g: Geo, warp: nat, l: nat, tileRow: nat)
    requires g.Valid() && NoSplitWarp(g) && warp < g.warps && l < 32
    ensures LaneAgrees(g, warp, l, tileRow)
  {
    hide *;
    LaneOffset(g, warp, l);
    FastTileIs(g, Offset(g, 32 * warp), tileRow);
    FastTileIs(g, Offset(g, 32 * warp + l), tileRow);
    if FastTile(g, Offset(g, 32 * warp), tileRow) {
      WarpReached(g, warp);
    }
    LaneAgreesIs(g, warp, l, tileRow);
  }

  lemma LaneAgreesIs(g: Geo, warp: nat, l: nat, tileRow: nat)
    ensures LaneAgrees(g, warp, l, tileRow) ==
      (FastTile(g, Offset(g, 32 * warp + l), tileRow) == FastTile(g, Offset(g, 32 * warp), tileRow))
  {
    hide FastTile, Offset;
  }

  lemma FastTileIs(g: Geo, off: nat, tileRow: nat)
    ensures FastTile(g, off, tileRow) == (TileInside(g, tileRow) && g.startCol + off + g.dpt <= g.a.NumDiags())
    ensures TileInside(g, tileRow) ==> TileInside(g, 0)
  {
    hide Geo.Width;
  }

  predicate TileInside(g: Geo, tileRow: nat) {
    g.startCol + tileRow + g.Width() + g.height < g.a.nx && tileRow + g.height < g.a.ny
  }

  /** In a block with a fast tile, a warp whose first lane has all its diagonals has all of them. */
  lemma WarpReached(g: Geo, warp: nat)
    requires g.Valid() && NoSplitWarp(g) && warp < g.warps && TileInside(g, 0)
    requires g.startCol + warp * g.Span() + g.dpt <= g.a.NumDiags()
    ensures g.startCol + warp * g.Span() + g.Span() <= g.a.NumDiags()
  {
    LastSlotOfWarp(g, warp);
    hide Geo.Width, Geo.Span, Rem;
    var left := g.a.NumDiags() - g.startCol;
    if left < g.Width() {
      WidthPositive(g);
      BandEndsBetweenWarps(left, g.Span(), warp, g.dpt);
    }
  }

  /** A length that ends in the first `dpt` positions of a warp's span, or at its start, cannot end further inside. */
  lemma BandEndsBetweenWarps(left: nat, span: nat, warp: nat, dpt: nat)
    requires span > 0 && warp * span + dpt <= left && Rem(left, span) < dpt
    ensures left >= warp * span + span
  {
    if left < warp * span + span {
      QuotRemUnique(left, span, warp, left - warp * span);
    }
  }

  /** The warp in which the band ends. */
  lemma SplitWarp(g: Geo) returns (warp: nat)
    requires g.Valid() && !NoSplitWarp(g)
    ensures warp < g.warps && !LaneAgrees(g, warp, 31, 0)
  {
    var left, span := g.a.NumDiags() - g.startCol, g.Span();
    hide Offset, Geo.Width, Geo.Span, Quot, Rem;
    WidthPositive(g);
    QuotRem(left, span);
    warp := Quot(left, span);
    if warp >= g.warps {
      MulMonotone(g.warps, warp, span);
      WidthIs(g);
    }
    LaneOffset(g, warp, 31);
  }

  /** No warp is split when the upper exclusion zone is at most a tile's height and one more. */
  lemma LowExclusionIsUniform(g: Geo)
    requires g.Valid() && g.a.exclusionUpper <= g.height + 1
    ensures NoSplitWarp(g)
  {
    hide Geo.Width, Rem;
  }

  /** The last launch of a self-join of 2325 subsequences for sums, window 2048, second block: lane 0 of warp 6 takes
      the fast path, lane 31 does not. */
  lemma SplitWarpExample(g: Geo)
    requires g.Valid() && g.a.nx == g.a.ny == 2325 && g.a.exclusionLower == 1 && g.a.exclusionUpper == 512
    requires g.dpt == 4 && g.warps == 8 && g.height == 256 && g.startCol == 1025
    ensures FastTile(g, Offset(g, 32 * 6), 0) && !FastTile(g, Offset(g, 32 * 6 + 31), 0)
    ensures !NoSplitWarp(g) && !UniformWarps(g)
  {
    assert !LaneAgrees(g, 6, 31, 0);
    UniformWarpsIff(g);
  }

  // ---------- The row sums of a warp ----------

  /** The row results of a warp's lanes, one sequence of `our` rows per lane. */
  ghost predicate LanePartsOk(g: Geo, warp: nat, first: nat, our: nat, parts: seq<seq<Entry>>)
    requires g.Valid()
  {
    forall l: nat :: l < |parts| ==> LanePartOk(g, warp, l, first, our, parts[l])
  }

  ghost predicate LanePartOk(g: Geo, warp: nat, l: nat, first: nat, our: nat, part: seq<Entry>)
    requires g.Valid()
  {
    |part| == our && DistrOk(g, Offset(g, 32 * warp + l), first, our, part)
  }

  /** The columns of a warp in one row, lane by lane. */
  ghost function LaneCols(g: Geo, warp: nat, row: int): (s: seq<set<int>>)
    ensures |s| == 32
    ensures forall l :: 0 <= l < 32 ==>
      s[l] == DiagCols(g, Offset(g, 32 * warp + l), Offset(g, 32 * warp + l) + g.dpt, row)
  {
    seq(32, l requires 0 <= l < 32 => DiagCols(g, Offset(g, 32 * warp + l), Offset(g, 32 * warp + l) + g.dpt, row))
  }

  lemma LaneColsDisjoint(g: Geo, warp: nat, row: int, l: nat, l': nat)
    requires l < l' < 32
    ensures LaneCols(g, warp, row)[l] !! LaneCols(g, warp, row)[l']
  {
    hide Diag;
    LaneOffset(g, warp, l);
    LaneOffset(g, warp, l');
    ThreadSlots(l, g.dpt, l');
    hide Offset, Geo.Span;
    DiagColsApart(g, Offset(g, 32 * warp + l), Offset(g, 32 * warp + l'), row);
  }

  lemma DiagColsApart(g: Geo, off: nat, off': nat, row: int)
    requires off + g.dpt <= off'
    ensures DiagCols(g, off, off + g.dpt, row) !! DiagCols(g, off', off' + g.dpt, row)
  {
    hide Geo.Cell;
  }

  lemma LaneOfDiag(g: Geo, warp: nat, d: nat) returns (l: nat)
    requires g.dpt > 0 && warp * g.Span() <= d < warp * g.Span() + g.Span()
    ensures l < 32 && Offset(g, 32 * warp + l) <= d < Offset(g, 32 * warp + l) + g.dpt
  {
    hide Quot;
    l := Quot(d - warp * g.Span(), g.dpt);
    SlotOfThread(d - warp * g.Span(), g.dpt, 32);
    LaneOffset(g, warp, l);
  }

  lemma LaneColsUnion(g: Geo, warp: nat, row: int)
    requires g.dpt > 0
    ensures UnionOf(LaneCols(g, warp, row)) == DiagCols(g, warp * g.Span(), warp * g.Span() + g.Span(), row)
  {
    hide Geo.Cell, Offset, Geo.Span;
    var lo := warp * g.Span();
    var parts := LaneCols(g, warp, row);
    forall c | c in UnionOf(parts) ensures c in DiagCols(g, lo, lo + g.Span(), row) {
      var l :| 0 <= l < |parts| && c in parts[l];
      LaneOffset(g, warp, l);
    }
    forall c | c in DiagCols(g, lo, lo + g.Span(), row) ensures c in UnionOf(parts) {
      var l := LaneOfDiag(g, warp, c - g.startCol - row);
      assert c in parts[l];
    }
  }

  /** What the shuffles leave in lane 0 is the warp's whole row. */
  lemma WarpRowGathers(g: Geo, warp: nat, first: nat, our: nat, parts: seq<seq<Entry>>, r: nat, lanes: seq<Entry>)
    requires g.Valid() && g.rows && |parts| == 32 && LanePartsOk(g, warp, first, our, parts) && r < our && |lanes| == 32
    requires forall l: nat :: l < 32 ==> r < |parts[l]| && lanes[l] == parts[l][r]
    ensures first + r < g.a.ny && PowerOfTwo(32)
    ensures Gathered(g.kind, g.a.RowDists(first + r), InitEntry(g.kind),
              DiagCols(g, warp * g.Span(), warp * g.Span() + g.Span(), first + r), TreeReduce(g.kind, lanes))
  {
    hide Gathered, DiagCols, Offset, Geo.Span, TreeReduce;
    var row := first + r;
    LaneRow(g, warp, 0, first, our, parts[0], r);
    forall l: nat | l < 32
      ensures Gathered(g.kind, g.a.RowDists(row), InitEntry(g.kind), LaneCols(g, warp, row)[l], lanes[l])
    {
      assert LanePartOk(g, warp, l, first, our, parts[l]);
      LaneRow(g, warp, l, first, our, parts[l], r);
    }
    forall l: nat, l': nat | l < l' < 32 ensures LaneCols(g, warp, row)[l] !! LaneCols(g, warp, row)[l'] {
      LaneColsDisjoint(g, warp, row, l, l');
    }
    LaneColsUnion(g, warp, row);
    assert PowerOfTwo(32);
    TreeReduceGathers(g.kind, g.a.RowDists(row), LaneCols(g, warp, row), lanes);
  }

  lemma LaneRow(g: Geo, warp: nat, l: nat, first: nat, our: nat, part: seq<Entry>, r: nat)
    requires g.Valid() && g.rows && LanePartOk(g, warp, l, first, our, part) && r < our
    ensures r < |part| && first + r < g.a.ny
    ensures
      var off := Offset(g, 32 * warp + l);
      Gathered(g.kind, g.a.RowDists(first + r), InitEntry(g.kind), DiagCols(g, off, off + g.dpt, first + r), part[r])
  {
    hide Gathered, DiagCols, Offset;
    assert PartOk(g, Offset(g, 32 * warp + l), first + r, part[r]);
  }

  /** The row update of a sum: 32 lanes are added up with shuffles, and lane 0 adds the result to the row's element. */
  method UpdateWarpRows(g: Geo, warp: nat, our: nat, local: nat, parts: seq<seq<Entry>>, mp: seq<Entry>,
                        ghost tileRow: nat) returns (now: seq<Entry>)
    requires g.Valid() && Shuffles(g) && warp < g.warps && local + our <= |mp| && |parts| == 32
    requires LanePartsOk(g, warp, tileRow + local, our, parts)
    ensures RowsContributed(g, warp * g.Span(), warp * g.Span() + g.Span(), tileRow, tileRow + local,
      tileRow + local + our, mp, now)
  {
    hide Gathered, Geo.Width, Geo.Span, RowOk, Combine, DistrOk, TreeReduce, PowerOfTwo;
    ghost var lo, hi := warp * g.Span(), warp * g.Span() + g.Span();
    now := mp;
    NoRowsYet(g, lo, hi, tileRow, tileRow + local, mp);
    for r := 0 to our
      invariant |now| == |mp| && forall i: nat :: local + r <= i < |mp| ==> now[i] == mp[i]
      invariant RowsContributed(g, lo, hi, tileRow, tileRow + local, tileRow + local + r, mp, now)
    {
      var lanes := seq(32, l requires 0 <= l < 32 => LaneEntry(g, parts, l, r));
      forall l: nat | l < 32 ensures r < |parts[l]| && lanes[l] == parts[l][r] {
        assert LanePartOk(g, warp, l, tileRow + local, our, parts[l]);
      }
      var sum := WarpReduce(g.kind, lanes);
      WarpRowGathers(g, warp, tileRow + local, our, parts, r, lanes);
      ghost var before := now;
      now := now[local + r := Combine(g.kind, now[local + r], sum)];
      OneMoreRow(g, lo, hi, tileRow, local, r, mp, before, now, sum);
    }
  }

  function LaneEntry(g: Geo, parts: seq<seq<Entry>>, l: nat, r: nat): Entry
    requires l < |parts|
  {
    if r < |parts[l]| then parts[l][r] else InitEntry(g.kind)
  }

  lemma NoRowsYet(g: Geo, lo: int, hi: int, tileRow: nat, first: nat, mp: seq<Entry>)
    requires g.Valid()
    ensures RowsContributed(g, lo, hi, tileRow, first, first, mp, mp)
  {
    hide Gathered;
    forall i: nat | i < |mp| ensures RowOk(g, lo, hi, first, first, tileRow + i, mp[i], mp[i]) {
      if tileRow + i < g.a.ny {
        GatherNothing(g.kind, g.a.RowDists(tileRow + i), mp[i]);
      }
    }
  }

  lemma OneMoreRow(g: Geo, lo: int, hi: int, tileRow: nat, local: nat, r: nat, was: seq<Entry>, mid: seq<Entry>,
                   now: seq<Entry>,
                   part: Entry)
    requires g.Valid() && g.kind.SumThresh? && local + r < |was| == |mid| && mid[local + r] == was[local + r]
    requires now == mid[local + r := Combine(g.kind, mid[local + r], part)] && tileRow + local + r < g.a.ny
    requires RowsContributed(g, lo, hi, tileRow, tileRow + local, tileRow + local + r, was, mid)
    requires Gathered(g.kind, g.a.RowDists(tileRow + local + r), InitEntry(g.kind),
      DiagCols(g, lo, hi, tileRow + local + r), part)
    ensures RowsContributed(g, lo, hi, tileRow, tileRow + local, tileRow + local + r + 1, was, now)
  {
    hide Gathered, DiagCols, Combine;
    forall i: nat | i < |was|
      ensures RowOk(g, lo, hi, tileRow + local, tileRow + local + r + 1, tileRow + i, was[i], now[i])
    {
      if i == local + r {
        RowFlush(g, lo, hi, tileRow + i, was[i], part);
      } else {
        assert RowOk(g, lo, hi, tileRow + local, tileRow + local + r, tileRow + i, was[i], mid[i]);
      }
    }
  }

  // ---------- A warp on the fast path ----------

  /** All lanes of a warp stand at row `row` of the tile with their covariances. */
  ghost predicate LanesReady(g: Geo, warp: nat, tileRow: nat, local: nat, infos: seq<Info>)
    requires g.Valid()
  {
    forall l: nat :: l < |infos| ==> LaneReady(g, Offset(g, 32 * warp + l), tileRow, local, infos[l])
  }

  ghost predicate LaneReady(g: Geo, off: nat, tileRow: nat, local: nat, info: Info)
    requires g.Valid()
  {
    At(g, off, tileRow, info) && info.localRow == local && CovOk(g, off, tileRow + local, info.cov)
  }

  lemma LanesFast(g: Geo, warp: nat, tileRow: nat)
    requires g.Valid() && warp < g.warps && NoSplitWarp(g) && FastTile(g, Offset(g, 32 * warp), tileRow)
    ensures forall l: nat :: l < 32 ==> LaneFast(g, warp, l, tileRow)
  {
    hide FastTile, NoSplitWarp;
    forall l: nat | l < 32 ensures LaneFast(g, warp, l, tileRow) {
      LanesTogether(g, warp, l, tileRow);
    }
  }

  predicate LaneFast(g: Geo, warp: nat, l: nat, tileRow: nat) {
    FastTile(g, Offset(g, 32 * warp + l), tileRow)
  }

  /** The columns that the first lanes of a warp have taken in, with the rows still in their registers. */
  ghost predicate LanesDone(g: Geo, warp: nat, l: nat, tileRow: nat, first: nat, our: nat, was: Shared, now: Shared,
                            parts: seq<seq<Entry>>)
    requires g.Valid()
  {
    && now == was.(localMpCol := now.localMpCol) && |parts| == l && LanePartsOk(g, warp, first, our, parts)
    && ColsContributed(g, warp * g.Span(), Offset(g, 32 * warp + l), tileRow, first, first + our, was.localMpCol,
      now.localMpCol)
  }

  lemma NoLaneDone(g: Geo, warp: nat, tileRow: nat, first: nat, our: nat, sm: Shared)
    requires g.Valid()
    ensures LanesDone(g, warp, 0, tileRow, first, our, sm, sm, [])
  {
    hide Gathered, Geo.Span, Offset;
    LaneOffset(g, warp, 0);
    forall x: nat | x < |sm.localMpCol|
      ensures ColOk(g, warp * g.Span(), warp * g.Span(), first, first + our, g.startCol + tileRow + x, sm.localMpCol[x],
        sm.localMpCol[x])
    {
      NoRows(g, warp * g.Span(), warp * g.Span(), first, first + our, g.startCol + tileRow + x, sm.localMpCol[x]);
    }
  }

  lemma OneMoreLane(g: Geo, warp: nat, l: nat, tileRow: nat, first: nat, our: nat, was: Shared, mid: Shared,
                    now: Shared,
                    parts: seq<seq<Entry>>, distr: seq<Entry>)
    requires g.Valid() && g.kind.SumThresh? && l < 32 && LanesDone(g, warp, l, tileRow, first, our, was, mid, parts)
    requires ThreadIteration(g, Offset(g, 32 * warp + l), tileRow, first, our, mid, now, distr)
    ensures LanesDone(g, warp, l + 1, tileRow, first, our, was, now, parts + [distr])
  {
    hide Geo.Span, Offset, ColsContributed, DistrOk;
    LaneOffset(g, warp, l);
    OffsetIs(g, 32 * warp + l);
    var off := Offset(g, 32 * warp + l);
    assert Offset(g, 32 * warp + (l + 1)) == off + g.dpt;
    ColsDiagonals(g, warp * g.Span(), off, off + g.dpt, tileRow, first, first + our, was.localMpCol, mid.localMpCol,
      now.localMpCol);
    assert LanePartOk(g, warp, l, first, our, distr);
  }

  /** What a lane needs of shared memory stays as it is while the others add to the columns. */
  lemma SharedStays(g: Geo, tileRow: nat, was: Shared, now: Shared)
    requires g.Valid() && g.kind.SumThresh? && Shaped(g, was) && Mirrors(g, was, tileRow)
    requires now == was.(localMpCol := now.localMpCol) && |now.localMpCol| == |was.localMpCol|
    ensures Shaped(g, now) && Mirrors(g, now, tileRow) && Seeded(g, tileRow, now)
  {
    hide Geo.Width;
  }

  /** One iteration of all lanes of a warp for a sum. The lanes are taken one after the other up to their row sums,
      which are then added up across the warp. */
  method WarpIteration(g: Geo, ur: nat, outerIters: nat, warp: nat, infos: seq<Info>, sm: Shared, local: nat,
                       ghost tileRow: nat)
      returns (infos': seq<Info>, sm': Shared)
    requires g.Valid() && Shuffles(g) && Shaped(g, sm) && Mirrors(g, sm, tileRow) && warp < g.warps && |infos| == 32
    requires LanesReady(g, warp, tileRow, local, infos) && forall l: nat :: l < 32 ==> LaneFast(g, warp, l, tileRow)
    requires ur > 0 && outerIters > 0 && local + Base(outerIters, ur) <= g.height
    ensures |infos'| == 32 && LanesReady(g, warp, tileRow, local + Base(outerIters, ur), infos')
    ensures Contributed(g, warp * g.Span(), warp * g.Span() + g.Span(), tileRow,
              tileRow + local, tileRow + local + Base(outerIters, ur), sm, sm')
  {
    hide Geo.Width, Geo.Span, Base, Offset, Shaped, Mirrors, Seeded, FastTile, CovOk, ThreadIteration, LanesDone,
      Gathered, LanePartsOk, RowsContributed, ColsContributed;
    var our := Base(outerIters, ur);
    ghost var first := tileRow + local;
    var parts: seq<seq<Entry>> := [];
    infos', sm' := infos, sm;
    NoLaneDone(g, warp, tileRow, first, our, sm);
    SharedStays(g, tileRow, sm, sm);
    for l := 0 to 32
      invariant |infos'| == 32 && LanesDone(g, warp, l, tileRow, first, our, sm, sm', parts)
      invariant forall k: nat :: k < l ==> LaneReady(g, Offset(g, 32 * warp + k), tileRow, local + our, infos'[k])
      invariant forall k: nat :: l <= k < 32 ==> infos'[k] == infos[k]
      invariant Shaped(g, sm') && Mirrors(g, sm', tileRow) && Seeded(g, tileRow, sm')
    {
      ghost var off := Offset(g, 32 * warp + l);
      assert LaneReady(g, off, tileRow, local, infos[l]);
      assert LaneFast(g, warp, l, tileRow);
      LaneInBlock(g, warp, l);
      var info, next, distr := DoIterationFast(g, ur, outerIters, infos[l], sm', off, tileRow);
      OneMoreLane(g, warp, l, tileRow, first, our, sm, sm', next, parts, distr);
      LanesDoneIs(g, warp, l + 1, tileRow, first, our, sm, next, parts + [distr]);
      SharedStays(g, tileRow, sm, next);
      infos', sm', parts := infos'[l := info], next, parts + [distr];
    }
    LanesDoneIs(g, warp, 32, tileRow, first, our, sm, sm', parts);
    LaneOffset(g, warp, 31);
    OffsetIs(g, 32 * warp + 31);
    RowsFit(g, sm', local + our);
    var rows := UpdateWarpRows(g, warp, our, local, parts, sm'.localMpRow, tileRow);
    sm' := sm'.(localMpRow := rows);
    WarpContributed(g, warp, tileRow, first, our, sm, sm');
  }

  lemma RowsFit(g: Geo, sm: Shared, n: nat)
    requires Shaped(g, sm) && n <= g.height
    ensures n <= |sm.localMpRow|
  {
  }

  lemma LaneInBlock(g: Geo, warp: nat, l: nat)
    requires g.dpt > 0 && warp < g.warps && l < 32
    ensures Offset(g, 32 * warp + l) + g.dpt <= g.Width()
  {
    hide Offset, Geo.Width, Geo.Span;
    LaneOffset(g, warp, l);
    LastSlotOfWarp(g, warp);
  }

  lemma LanesDoneIs(g: Geo, warp: nat, l: nat, tileRow: nat, first: nat, our: nat, was: Shared, now: Shared,
                    parts: seq<seq<Entry>>)
    requires g.Valid() && LanesDone(g, warp, l, tileRow, first, our, was, now, parts)
    ensures now == was.(localMpCol := now.localMpCol) && |now.localMpCol| == |was.localMpCol|
    ensures |parts| == l && LanePartsOk(g, warp, first, our, parts)
    ensures ColsContributed(g, warp * g.Span(), Offset(g, 32 * warp + l), tileRow, first, first + our, was.localMpCol,
      now.localMpCol)
  {
    hide ColOk;
  }

  lemma WarpContributed(g: Geo, warp: nat, tileRow: nat, first: nat, our: nat, was: Shared, now: Shared)
    requires g.Valid() && now == was.(localMpCol := now.localMpCol, localMpRow := now.localMpRow)
    requires ColsContributed(g, warp * g.Span(), warp * g.Span() + g.Span(), tileRow, first, first + our,
      was.localMpCol, now.localMpCol)
    requires RowsContributed(g, warp * g.Span(), warp * g.Span() + g.Span(), tileRow, first, first + our,
      was.localMpRow, now.localMpRow)
    ensures Contributed(g, warp * g.Span(), warp * g.Span() + g.Span(), tileRow, first, first + our, was, now)
  {
    hide ColsContributed, RowsContributed;
  }

  /** The fast path of a sum: whole iterations of the whole warp until the tile is done. */
  method WarpFastRows(g: Geo, ur: nat, outerIters: nat, tileIters: nat, warp: nat, infos: seq<Info>, sm: Shared,
                      ghost tileRow: nat) returns (infos': seq<Info>, sm': Shared)
    requires g.Valid() && Shuffles(g) && Shaped(g, sm) && Mirrors(g, sm, tileRow) && warp < g.warps && |infos| == 32
    requires LanesReady(g, warp, tileRow, 0, infos) && forall l: nat :: l < 32 ==> LaneFast(g, warp, l, tileRow)
    requires ur > 0 && outerIters > 0 && g.height == Base(tileIters, Base(outerIters, ur))
    ensures |infos'| == 32 && LanesReady(g, warp, tileRow, g.height, infos')
    ensures Contributed(g, warp * g.Span(), warp * g.Span() + g.Span(), tileRow, tileRow, tileRow + g.height, sm, sm')
  {
    hide Gathered, Geo.Width, Geo.Span, Contributed, Mirrors, Seeded, Shaped, Diag, FastTile, Base, LanesReady,
      LaneFast;
    infos', sm' := infos, sm;
    var our := Base(outerIters, ur);
    BatchFits(outerIters, 1, ur);
    BatchFits(tileIters, 0, our);
    ghost var m, lo, hi := 0, warp * g.Span(), warp * g.Span() + g.Span();
    NothingContributed(g, lo, hi, tileRow, tileRow, tileRow, sm);
    SharedStays(g, tileRow, sm, sm);
    var local := 0;
    while local < g.height
      invariant m <= tileIters && local == Base(m, our) && |infos'| == 32 && LanesReady(g, warp, tileRow, local, infos')
      invariant Contributed(g, lo, hi, tileRow, tileRow, tileRow + local, sm, sm')
      invariant Shaped(g, sm') && Mirrors(g, sm', tileRow) && Seeded(g, tileRow, sm')
      decreases tileIters - m
    {
      BatchFits(tileIters, m, our);
      var moved, next := WarpIteration(g, ur, outerIters, warp, infos', sm', local, tileRow);
      ContributedRows(g, lo, hi, tileRow, tileRow, tileRow + local, tileRow + local + our, sm, sm', next);
      Carries(g, lo, hi, tileRow, tileRow + local, tileRow + local + our, sm', next);
      infos', sm' := moved, next;
      local := local + our;
      m := m + 1;
    }
    BatchFits(tileIters, m, our);
  }
}
