/**
 Merging in the cov-shuffle kernel: masks, column accumulators that travel with their slot, and rows reduced
 by a warp shuffle.
 */
module ShflMerge {
  import opened Profiles
  import opened ShflRing
  import opened GpuBlock

  // ---------- Masks ----------

  /** One distance of a row, with the mask of the checked path. */
  function MaskSlow(g: Geo, row: nat, col: int, localCol: int, r: nat, raw: Dist): Dist {
    var diag := localCol - r;
    if 0 <= diag < g.Width() && row < g.a.ny && col < g.a.nx && col - row < g.a.NumDiags() then raw
    else Corr(InitDist(g.kind))
  }

  /** The fast path only looks at the diagonal. */
  function MaskFast(g: Geo, localCol: int, r: nat, raw: Dist): Dist {
    var diag := localCol - r;
    if 0 <= diag < g.Width() then raw else Corr(InitDist(g.kind))
  }

  /** When a tile may take the fast path. */
  predicate FastTile(g: Geo, tileCol: int, tileRow: int) {
    && tileCol + g.Width() + g.height < g.a.nx && tileRow + g.height < g.a.ny
    && tileCol + g.Width() <= g.a.NumDiags() && tileCol >= g.a.exclusionUpper + g.height
  }

  /** On a fast tile every guard of the checked path holds, for every slot and row, and so does the bound of
      every fetch: the two paths agree. */
  lemma FastPathAgrees(g: Geo, tileRow: nat, r: nat, p: nat, raw: Dist)
    requires g.Valid() && g.Width() > 0 && p < g.Width() && r < g.height
    requires FastTile(g, g.startCol + tileRow, tileRow)
    ensures
      var row := tileRow + r;
      var col := g.Col(p, row);
      && g.Cell(row, col) && col + (if Owned(p, row, g.Width()) == row then g.Width() else 0) < g.a.nx
      && MaskFast(g, col - g.startCol - tileRow, r, raw) == MaskSlow(g, row, col, col - g.startCol - tileRow, r, raw) ==
        raw
  {
    OwnedRange(p, tileRow + r, g.Width());
  }

  /** The distances a row merges: its own cells, and neutral values elsewhere. */
  ghost predicate DistOk(g: Geo, row: nat, dist: seq<Dist>)
    requires g.Valid() && g.Width() > 0
  {
    && |dist| == g.Width()
    && forall p :: 0 <= p < g.Width() ==> SlotDistOk(g, row, p, dist[p])
  }

  ghost predicate SlotDistOk(g: Geo, row: nat, p: int, d: Dist)
    requires g.Valid() && g.Width() > 0
  {
    d == if g.Cell(row, g.Col(p, row)) then g.a.DistAt(row, g.Col(p, row)) else Corr(InitDist(g.kind))
  }

  /** The checked mask lets through exactly the cells of the block. */
  lemma MaskIsCell(g: Geo, tileRow: nat, r: nat, p: nat, raw: Dist)
    requires g.Valid() && g.Width() > 0 && p < g.Width()
    ensures
      var row := tileRow + r;
      var col := g.Col(p, row);
      MaskSlow(g, row, col, col - g.startCol - tileRow, r, raw) == if g.Cell(row, col) then raw
        else Corr(InitDist(g.kind))
  {
    OwnedRange(p, tileRow + r, g.Width());
  }

  // ---------- Columns ----------

  /** Slot `p`'s accumulator holds exactly what its column has seen of this tile. */
  ghost predicate AccOk(g: Geo, tileRow: nat, row: nat, p: int, acc: Entry)
    requires g.Valid() && g.Width() > 0
  {
    g.cols && 0 <= g.Col(p, row) < g.a.nx ==>
      Gathered(g.kind, g.a.ColDists(g.Col(p, row)), InitEntry(g.kind), Rows(g, tileRow, row, g.Col(p, row)), acc)
  }

  /** Merging a row extends an accumulator by that row, if the row has a cell in its column. */
  lemma MergeColumnStep(g: Geo, tileRow: nat, row: nat, p: nat, acc: Entry, d: Dist)
    requires g.Valid() && g.Width() > 0 && p < g.Width() && tileRow <= row
    requires AccOk(g, tileRow, row, p, acc) && SlotDistOk(g, row, p, d)
    ensures
      var c := g.Col(p, row);
      g.cols && 0 <= c < g.a.nx ==>
        Gathered(g.kind, g.a.ColDists(c), InitEntry(g.kind), Rows(g, tileRow, row + 1, c),
          MergeCell(g.kind, acc, d, row))
  {
    var c := g.Col(p, row);
    OwnedRange(p, row, g.Width());
    if g.cols && c < g.a.nx {
      var before, after := Rows(g, tileRow, row, c), Rows(g, tileRow, row + 1, c);
      if g.Cell(row, c) {
        GatherOne(g.kind, g.a.ColDists(c), InitEntry(g.kind), before, acc, row);
        assert after == before + {row};
      } else {
        assert after == before;
        MaskedCellIsNeutral(g.kind, acc, row);
      }
    }
  }

  /** A column that starts in the block has seen nothing of the tile yet. */
  lemma FreshColumn(g: Geo, tileRow: nat, row: nat, p: nat)
    requires g.Valid() && g.Width() > 0 && p < g.Width()
    requires g.Col(p, row) - g.startCol >= row + g.Width() - 1 || tileRow == row
    ensures AccOk(g, tileRow, row, p, InitEntry(g.kind))
  {
    var c := g.Col(p, row);
    assert Rows(g, tileRow, row, c) == {};
    if 0 <= c < g.a.nx {
      GatherNothing(g.kind, g.a.ColDists(c), InitEntry(g.kind));
    }
  }

  /** What a tile's column buffer holds at offset `j` once `row` is reached: the whole column if it was retired. */
  ghost predicate MpColOk(g: Geo, tileRow: nat, row: nat, j: nat, seed: Entry, entry: Entry)
    requires g.Valid() && g.Width() > 0
  {
    var c := g.startCol + tileRow + j;
    g.cols && c < g.a.nx ==>
      if tileRow + j < row
      then Gathered(g.kind, g.a.ColDists(c), seed, Rows(g, tileRow, row, c), entry)
      else entry == seed
  }

  /** A retired column gets no further cell. */
  lemma RetiredColumnStays(g: Geo, tileRow: nat, row: nat, j: nat, seed: Entry, entry: Entry)
    requires g.Valid() && g.Width() > 0 && tileRow + j < row && MpColOk(g, tileRow, row, j, seed, entry)
    ensures MpColOk(g, tileRow, row + 1, j, seed, entry)
  {
    var c := g.startCol + tileRow + j;
    assert Rows(g, tileRow, row + 1, c) == Rows(g, tileRow, row, c);
  }

  /** Flushing an accumulator into the buffer element of its own column. */
  lemma FlushGathers(g: Geo, tileRow: nat, row: nat, c: nat, seed: Entry, acc: Entry)
    requires g.Valid() && g.Width() > 0 && c < g.a.nx && (g.kind.Nearest? ==> seed.value >= InitDist(g.kind))
    requires Gathered(g.kind, g.a.ColDists(c), InitEntry(g.kind), Rows(g, tileRow, row, c), acc)
    ensures Gathered(g.kind, g.a.ColDists(c), seed, Rows(g, tileRow, row, c), Combine(g.kind, seed, acc))
  {
    GatherNothing(g.kind, g.a.ColDists(c), seed);
    GatherCombine(g.kind, g.a.ColDists(c), seed, {}, seed, Rows(g, tileRow, row, c), acc);
    assert {} + Rows(g, tileRow, row, c) == Rows(g, tileRow, row, c);
  }

  // ---------- Rows ----------

  /** The columns of a row that the slots in `[lo, hi)` own. */
  ghost function SlotCols(g: Geo, row: nat, lo: int, hi: int): (s: set<int>)
    requires g.Width() > 0
    ensures forall c :: c in s <==> exists p :: lo <= p < hi && g.Col(p, row) == c && g.Cell(row, c)
  {
    set p | p in Range(lo, hi) && g.Cell(row, g.Col(p, row)) :: g.Col(p, row)
  }

  /** The columns of a row that one thread's slots own. */
  ghost function ThreadCols(g: Geo, row: nat, thread: nat): set<int>
    requires g.Width() > 0
  {
    SlotCols(g, row, thread * g.dpt, thread * g.dpt + g.dpt)
  }

  lemma ThreadColsIs(g: Geo, row: nat, thread: nat)
    requires g.Width() > 0
    ensures ThreadCols(g, row, thread) == SlotCols(g, row, thread * g.dpt, thread * g.dpt + g.dpt)
  {
  }

  /** A thread folds the distances of its own slots, the first of which is `first`. */
  method MergeToRowLane(g: Geo, row: nat, dist: seq<Dist>, globalCol: seq<int>, first: nat) returns (partial: Entry)
    requires g.Valid() && g.Width() > 0 && row < g.a.ny && first + g.dpt <= g.Width() && DistOk(g, row, dist)
    requires |globalCol| == g.Width() && forall p :: 0 <= p < g.Width() ==> globalCol[p] == g.Col(p, row)
    ensures Gathered(g.kind, g.a.RowDists(row), InitEntry(g.kind), SlotCols(g, row, first, first + g.dpt), partial)
  {
    hide Gathered, Geo.Width, SlotDistOk, Owned;
    partial := InitEntry(g.kind);
    GatherNothing(g.kind, g.a.RowDists(row), partial);
    assert SlotCols(g, row, first, first) == {};
    for i := 0 to g.dpt
      invariant Gathered(g.kind, g.a.RowDists(row), InitEntry(g.kind), SlotCols(g, row, first, first + i), partial)
    {
      var p := first + i;
      LaneStep(g, row, first, p, partial, dist[p]);
      partial := MergeCell(g.kind, partial, dist[p], globalCol[p]);
    }
  }

  lemma LaneStep(g: Geo, row: nat, lo: nat, p: nat, acc: Entry, d: Dist)
    requires g.Valid() && g.Width() > 0 && row < g.a.ny && lo <= p < g.Width() && SlotDistOk(g, row, p, d)
    requires Gathered(g.kind, g.a.RowDists(row), InitEntry(g.kind), SlotCols(g, row, lo, p), acc)
    ensures Gathered(g.kind, g.a.RowDists(row), InitEntry(g.kind), SlotCols(g, row, lo, p + 1),
              MergeCell(g.kind, acc, d, g.Col(p, row)))
  {
    var c := g.Col(p, row);
    var before, after := SlotCols(g, row, lo, p), SlotCols(g, row, lo, p + 1);
    OwnedRange(p, row, g.Width());
    if g.Cell(row, c) {
      assert c !in before by {
        if c in before {
          var q :| lo <= q < p && g.Col(q, row) == c;
          OwnedInjective(p, q, row, g.Width());
        }
      }
      assert after == before + {c} by {
        assert g.Col(p, row) == c;
      }
      GatherOne(g.kind, g.a.RowDists(row), InitEntry(g.kind), before, acc, c);
    } else {
      assert after == before;
      MaskedCellIsNeutral(g.kind, acc, c);
    }
  }

  /** The lanes of a warp reduce to all columns of the warp's slots. */
  lemma WarpGathers(g: Geo, row: nat, warp: nat, lanes: seq<Entry>)
    requires g.Valid() && g.Width() > 0 && row < g.a.ny && warp < g.warps && |lanes| == 32
    requires forall l :: 0 <= l < 32 ==>
      Gathered(g.kind, g.a.RowDists(row), InitEntry(g.kind), ThreadCols(g, row, warp * 32 + l), lanes[l])
    ensures PowerOfTwo(32)
    ensures Gathered(g.kind, g.a.RowDists(row), InitEntry(g.kind),
              SlotCols(g, row, warp * g.Span(), warp * g.Span() + g.Span()), TreeReduce(g.kind, lanes))
  {
    hide Gathered, ThreadCols, Geo.Width, Geo.Span;
    var parts := seq(32, l requires 0 <= l < 32 => ThreadCols(g, row, warp * 32 + l));
    forall i, j | 0 <= i < j < 32 ensures parts[i] !! parts[j] {
      ThreadsDisjoint(g, row, warp * 32 + i, warp * 32 + j);
    }
    WarpIsItsThreads(g, row, warp, parts);
    TreeReduceGathers(g.kind, g.a.RowDists(row), parts, lanes);
  }

  lemma ThreadsDisjoint(g: Geo, row: nat, t: nat, u: nat)
    requires g.Valid() && g.Width() > 0 && t < u < 32 * g.warps
    ensures ThreadCols(g, row, t) !! ThreadCols(g, row, u)
  {
    ThreadFits(g, u);
    ThreadSlots(t, g.dpt, u);
    hide Geo.Width;
    SlotColsDisjoint(g, row, t * g.dpt, t * g.dpt + g.dpt, u * g.dpt, u * g.dpt + g.dpt);
  }

  lemma SlotColsDisjoint(g: Geo, row: nat, lo: nat, hi: nat, lo': nat, hi': nat)
    requires g.Valid() && g.Width() > 0 && hi <= lo' && hi' <= g.Width()
    ensures SlotCols(g, row, lo, hi) !! SlotCols(g, row, lo', hi')
  {
    forall c | c in SlotCols(g, row, lo, hi) ensures c !in SlotCols(g, row, lo', hi') {
      var p :| lo <= p < hi && g.Col(p, row) == c;
      if c in SlotCols(g, row, lo', hi') {
        var q :| lo' <= q < hi' && g.Col(q, row) == c;
        OwnedInjective(p, q, row, g.Width());
      }
    }
  }

  /** The slots of a warp are the slots of its 32 threads. */
  lemma WarpIsItsThreads(g: Geo, row: nat, warp: nat, parts: seq<set<int>>)
    requires g.Valid() && g.Width() > 0 && warp < g.warps && |parts| == 32
    requires forall l :: 0 <= l < 32 ==> parts[l] == ThreadCols(g, row, warp * 32 + l)
    ensures UnionOf(parts) == SlotCols(g, row, warp * g.Span(), warp * g.Span() + g.Span())
  {
    hide ThreadCols, Geo.Width;
    var all := SlotCols(g, row, warp * g.Span(), warp * g.Span() + g.Span());
    forall c | c in UnionOf(parts) ensures c in all {
      var l :| 0 <= l < |parts| && c in parts[l];
      ThreadColInWarp(g, row, warp, l, c);
    }
    forall c | c in all ensures c in UnionOf(parts) {
      var l := WarpColHasThread(g, row, warp, c);
      assert c in parts[l];
    }
  }

  lemma ThreadColInWarp(g: Geo, row: nat, warp: nat, l: nat, c: int)
    requires g.Valid() && g.Width() > 0 && warp < g.warps && l < 32 && c in ThreadCols(g, row, warp * 32 + l)
    ensures c in SlotCols(g, row, warp * g.Span(), warp * g.Span() + g.Span())
  {
    hide Geo.Col, Geo.Width;
    ThreadRange(warp, l, g.dpt, g.Span());
    SlotColsGrow(g, row, (warp * 32 + l) * g.dpt, (warp * 32 + l) * g.dpt + g.dpt, warp * g.Span(),
      warp * g.Span() + g.Span(), c);
  }

  lemma SlotColsGrow(g: Geo, row: nat, lo: int, hi: int, lo': int, hi': int, c: int)
    requires g.Width() > 0 && lo' <= lo && hi <= hi' && c in SlotCols(g, row, lo, hi)
    ensures c in SlotCols(g, row, lo', hi')
  {
    hide Geo.Col, Geo.Width, Geo.Cell;
  }

  lemma ThreadRange(warp: nat, l: nat, dpt: nat, span: nat)
    requires l < 32 && span == 32 * dpt
    ensures warp * span <= (warp * 32 + l) * dpt && (warp * 32 + l) * dpt + dpt <= warp * span + span
  {
    ThreadInWarp(warp * 32 + l, warp, l, dpt, span);
    ThreadSlots(l, dpt, 32);
  }

  lemma WarpColHasThread(g: Geo, row: nat, warp: nat, c: int) returns (l: nat)
    requires g.Valid() && g.Width() > 0 && warp < g.warps
    requires c in SlotCols(g, row, warp * g.Span(), warp * g.Span() + g.Span())
    ensures l < 32 && c in ThreadCols(g, row, warp * 32 + l)
  {
    var p :| warp * g.Span() <= p < warp * g.Span() + g.Span() && g.Col(p, row) == c;
    hide Geo.Col, Geo.Width;
    l := Quot(p - warp * g.Span(), g.dpt);
    SlotOfThread(p - warp * g.Span(), g.dpt, 32);
    ThreadInWarp(warp * 32 + l, warp, l, g.dpt, g.Span());
    var first := (warp * 32 + l) * g.dpt;
    assert first <= p < first + g.dpt;
  }

  /** All slots of the block own all its columns of a row. */
  lemma AllSlotsAllCols(g: Geo, row: nat)
    requires g.Valid() && g.Width() > 0
    ensures SlotCols(g, row, 0, g.Width()) == Cols(g, row)
  {
    var w := g.Width();
    forall c | c in Cols(g, row) ensures c in SlotCols(g, row, 0, w) {
      var o := c - g.startCol;
      OwnedUnique(o % w, row, w, o);
      assert g.Col(o % w, row) == c;
    }
  }

  lemma SlotColsSplit(g: Geo, row: nat, mid: nat, hi: nat)
    requires g.Valid() && g.Width() > 0 && mid <= hi <= g.Width()
    ensures SlotCols(g, row, 0, hi) == SlotCols(g, row, 0, mid) + SlotCols(g, row, mid, hi)
  {
    var a, b := SlotCols(g, row, 0, mid), SlotCols(g, row, mid, hi);
    forall c | c in SlotCols(g, row, 0, hi) ensures c in a + b {
      var p :| 0 <= p < hi && g.Col(p, row) == c && g.Cell(row, c);
      assert p < mid ==> c in a;
    }
  }

  /** Every warp reduces its lanes and merges the result into the row's element. */
  method MergeRow(g: Geo, row: nat, dist: seq<Dist>, globalCol: seq<int>, seed: Entry) returns (entry: Entry)
    requires g.Valid() && g.Width() > 0 && row < g.a.ny && DistOk(g, row, dist)
    requires |globalCol| == g.Width() && forall p :: 0 <= p < g.Width() ==> globalCol[p] == g.Col(p, row)
    requires g.kind.Nearest? ==> seed.value >= InitDist(g.kind)
    ensures Gathered(g.kind, g.a.RowDists(row), seed, Cols(g, row), entry)
  {
    hide Gathered, DistOk, Geo.Width, Geo.Span, Owned, Geo.Col;
    entry := seed;
    GatherNothing(g.kind, g.a.RowDists(row), seed);
    assert SlotCols(g, row, 0, 0 * g.Span()) == {};
    for warp := 0 to g.warps
      invariant Gathered(g.kind, g.a.RowDists(row), seed, SlotCols(g, row, 0, warp * g.Span()), entry)
    {
      var partial := MergeWarp(g, row, dist, globalCol, warp);
      LastSlotOfWarp(g, warp);
      ghost var lo, hi := warp * g.Span(), warp * g.Span() + g.Span();
      SlotColsDisjoint(g, row, 0, lo, lo, hi);
      SlotColsSplit(g, row, lo, hi);
      GatherCombine(g.kind, g.a.RowDists(row), seed, SlotCols(g, row, 0, lo), entry, SlotCols(g, row, lo, hi), partial);
      entry := Combine(g.kind, entry, partial);
      assert (warp + 1) * g.Span() == hi;
    }
    WidthIs(g);
    AllSlotsAllCols(g, row);
  }

  method MergeWarp(g: Geo, row: nat, dist: seq<Dist>, globalCol: seq<int>, warp: nat) returns (partial: Entry)
    requires g.Valid() && g.Width() > 0 && row < g.a.ny && DistOk(g, row, dist) && warp < g.warps
    requires |globalCol| == g.Width() && forall p :: 0 <= p < g.Width() ==> globalCol[p] == g.Col(p, row)
    ensures Gathered(g.kind, g.a.RowDists(row), InitEntry(g.kind),
              SlotCols(g, row, warp * g.Span(), warp * g.Span() + g.Span()), partial)
  {
    hide Gathered, DistOk, ThreadCols, Geo.Width;
    var lanes := [];
    for lane := 0 to 32
      invariant |lanes| == lane
      invariant forall l :: 0 <= l < lane ==>
        Gathered(g.kind, g.a.RowDists(row), InitEntry(g.kind), ThreadCols(g, row, warp * 32 + l), lanes[l])
    {
      var thread := warp * 32 + lane;
      ThreadFits(g, thread);
      var d := MergeToRowLane(g, row, dist, globalCol, thread * g.dpt);
      assert SlotCols(g, row, thread * g.dpt, thread * g.dpt + g.dpt) == ThreadCols(g, row, thread) by {
        ThreadColsIs(g, row, thread);
      }
      lanes := lanes + [d];
    }
    partial := WarpReduce(g.kind, lanes);
    WarpGathers(g, row, warp, lanes);
  }
}
