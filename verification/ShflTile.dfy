/**
 The whole run of a cov-shuffle block: rows, tiles, and what reaches the global profiles.
 */
module ShflTile {
  import opened Profiles
  import opened ShflRing
  import opened GpuBlock
  import opened ShflKernel
  import opened ShflMerge
  import opened ShflBlock

  // ---------- One row ----------

  /** The countdowns and slots of all threads, in turn. */
  method RotateAll(g: Geo, st: State, mp: seq<Entry>, tileRow: nat, r: nat, ghost leading: nat, fast: bool)
      returns (st': State, mp': seq<Entry>)
    requires g.Valid() && g.Width() > 0 && r < g.height && |mp| == g.Width() + g.height
    requires |st.dfc| == |st.dgc| == |st.inormc| == |st.distc| == |st.globalCol| == |st.localCol| == g.Width()
    requires |st.updatesRemaining| == 32 * g.warps && Columns(g, st, tileRow, tileRow + r)
    requires leading < g.Width() && Owned(leading, tileRow + r, g.Width()) == tileRow + r
    requires fast ==> FastTile(g, g.startCol + tileRow, tileRow)
    ensures RotatedUpTo(g, st, mp, st', mp', tileRow + r, r, leading, 32 * g.warps, g.Width())
  {
    hide Owned, FastTile, SlotRotated, Geo.ColReal, Geo.ColNorm;
    st', mp' := st, mp;
    var first := 0;
    for t := 0 to 32 * g.warps
      invariant first == t * g.dpt
      invariant RotatedUpTo(g, st, mp, st', mp', tileRow + r, r, leading, t, first)
    {
      ThreadFits(g, t);
      st', mp' := RotateThread(g, st, mp, st', mp', tileRow, r, leading, t, first, fast);
      NextThread(t, g.dpt);
      first := first + g.dpt;
    }
    AllThreads(g);
  }

  lemma LeadingSlot(row: nat, w: nat) returns (leading: nat)
    requires w > 0
    ensures leading < w && Owned(leading, row, w) == row
  {
    leading := row % w;
    OwnedUnique(leading, row, w, row);
  }

  /** Column accumulators take in one row's distances. */
  function MergedColumns(g: Geo, st: State, dist: seq<Dist>, row: nat): (d: seq<Entry>)
    requires |st.distc| == |dist|
    ensures |d| == |dist|
    ensures forall p :: 0 <= p < |d| ==> d[p] == MergeCell(g.kind, st.distc[p], dist[p], row)
  {
    seq(|dist|, p requires 0 <= p < |dist| => MergeCell(g.kind, st.distc[p], dist[p], row))
  }

  lemma SourcesInRange(g: Geo)
    requires g.Valid()
    ensures forall p: nat :: p < g.Width() ==> 0 <= ShuffleSource(p, g.dpt) < g.Width()
  {
    hide ShuffleSource;
    WidthIs(g);
    forall p: nat | p < g.Width() ensures 0 <= ShuffleSource(p, g.dpt) < g.Width() {
      ShuffleSourceIsPrevious(p, g.dpt, g.Span(), g.warps);
    }
  }

  /** The covariances of the next row, published and shuffled. */
  lemma RowMovesCov(g: Geo, st: State, sm: Smem, tileRow: nat, r: nat)
    requires g.Valid() && g.Width() > 0 && Shaped(g, st, sm) && r < g.height
    requires Columns(g, st, tileRow, tileRow + r) && CovReady(g, st.cov, tileRow + r) && RowData(g, sm, tileRow)
    requires forall p: nat :: p < g.Width() ==> 0 <= ShuffleSource(p, g.dpt) < g.Width()
    ensures
      var cov := Advanced(st, sm.dfRow[r], sm.dgRow[r]);
      CovPending(g, Shuffled(g, cov), Published(g, cov, sm.handoff, r), r + 1, tileRow + r + 1)
  {
    hide Owned, Geo.Width, ShuffleSource, Published, Shuffled, Columns, CovReady, CovPending;
    var cov := Advanced(st, sm.dfRow[r], sm.dgRow[r]);
    forall p: nat | p < g.Width() && tileRow + r < g.a.ny && tileRow + r <= g.Col(p, tileRow + r)
      && g.Col(p, tileRow + r) + 1 < g.a.nx
      ensures cov[p] == g.a.Cov(tileRow + r + 1, g.Col(p, tileRow + r) + 1)
    {
      AdvanceSteps(g, st, tileRow, tileRow + r, sm.dfRow[r], sm.dgRow[r], p);
    }
    ShuffleKeepsCov(g, cov, sm.handoff, r, tileRow + r);
  }

  /** The first half of a row: read the hand-off, compute the distances, update and publish the covariances,
      shuffle them one slot on. */
  method ComputeRow(g: Geo, st0: State, sm0: Smem, tileRow: nat, r: nat, fast: bool)
      returns (st: State, sm: Smem, dist: seq<Dist>)
    requires g.Valid() && g.Width() > 0 && Shaped(g, st0, sm0) && r < g.height
    requires Columns(g, st0, tileRow, tileRow + r) && CovPending(g, st0.cov, sm0.handoff, r, tileRow + r)
    requires RowData(g, sm0, tileRow)
    requires fast ==> FastTile(g, g.startCol + tileRow, tileRow)
    ensures st == st0.(cov := st.cov) && sm == sm0.(handoff := sm.handoff) && Shaped(g, st, sm)
    ensures CovPending(g, st.cov, sm.handoff, r + 1, tileRow + r + 1)
    ensures |dist| == g.Width() && DistOk(g, tileRow + r, dist)
  {
    hide Owned, Columns, CovReady, CovPending, RowData, DistOk, FastTile, FixedUp, Published, Shuffled, Advanced,
      ShuffleSource, Geo.Width, RawDists, MaskedDists;
    var row := tileRow + r;
    SourcesInRange(g);
    FixUpMakesReady(g, st0.cov, sm0.handoff, r, row);
    st := st0.(cov := FixedUp(g, st0.cov, sm0.handoff, r, row));
    SameColumns(g, st0, st, tileRow, row);
    DistsAreCells(g, st, sm0, tileRow, r, fast);
    RowMovesCov(g, st, sm0, tileRow, r);
    var raw := RawDists(g, st, sm0.inormRow[r]);
    var cov := Advanced(st, sm0.dfRow[r], sm0.dgRow[r]);
    sm := sm0.(handoff := Published(g, cov, sm0.handoff, r));
    dist := MaskedDists(g, st, raw, row, r, fast);
    st := st.(cov := Shuffled(g, cov));
  }

  /** One row of the kernel, for all threads in step: compute, merge into columns and rows, rotate, count down. */
  method DoRow(g: Geo, st0: State, sm0: Smem, tileRow: nat, r: nat, fast: bool,
               ghost seedCol: seq<Entry>, ghost seedRow: seq<Entry>) returns (st: State, sm: Smem)
    requires r < g.height && RowInv(g, st0, sm0, tileRow, r, seedCol, seedRow)
    requires fast ==> FastTile(g, g.startCol + tileRow, tileRow)
    ensures RowInv(g, st, sm, tileRow, r + 1, seedCol, seedRow)
  {
    hide Owned, Columns, CovPending, RowData, MergesOk, DistOk, FastTile, SlotRotated, Geo.Width, MergedColumns,
      Countdown, Gathered;
    var row := tileRow + r;
    var dist;
    st, sm, dist := ComputeRow(g, st0, sm0, tileRow, r, fast);
    if g.cols {
      st := st.(distc := MergedColumns(g, st, dist, row));
    }
    SameColumns(g, st0, st, tileRow, row);
    if g.rows && row < g.a.ny {
      // A row past the end only offers neutral distances to an element that is never written back.
      RowSeedFloored(g, st0, sm0, tileRow, r, seedCol, seedRow);
      ColumnsGiveCols(g, st, tileRow, row);
      var entry := MergeRow(g, row, dist, st.globalCol, sm.localMpRow[r]);
      sm := sm.(localMpRow := sm.localMpRow[r := entry]);
    }
    ghost var leading := LeadingSlot(row, g.Width());
    ghost var held, heldSm := st, sm;
    var mp;
    st, mp := RotateAll(g, st, sm.localMpCol, tileRow, r, leading, fast);
    sm := sm.(localMpCol := mp);
    RowDone(g, st0, sm0, held, heldSm, st, sm, tileRow, r, dist, seedCol, seedRow, leading);
  }

  lemma SameColumns(g: Geo, st: State, st': State, tileRow: nat, row: nat)
    requires g.Valid() && g.Width() > 0
    requires |st.dfc| == |st.dgc| == |st.inormc| == |st.globalCol| == |st.localCol| == g.Width()
    requires |st.updatesRemaining| == 32 * g.warps && Columns(g, st, tileRow, row)
    requires st'.dfc == st.dfc && st'.dgc == st.dgc && st'.inormc == st.inormc
    requires st'.globalCol == st.globalCol && st'.localCol == st.localCol && st'.updatesRemaining == st.updatesRemaining
    ensures Columns(g, st', tileRow, row)
  {
    hide Owned, Countdown, Geo.Width;
    forall p: nat | p < g.Width() ensures SlotColumn(g, st', tileRow, row, p) {
      assert SlotColumn(g, st, tileRow, row, p);
    }
  }

  lemma ColumnsGiveCols(g: Geo, st: State, tileRow: nat, row: nat)
    requires g.Valid() && g.Width() > 0
    requires |st.dfc| == |st.dgc| == |st.inormc| == |st.globalCol| == |st.localCol| == g.Width()
    requires |st.updatesRemaining| == 32 * g.warps && Columns(g, st, tileRow, row)
    ensures forall p :: 0 <= p < g.Width() ==> st.globalCol[p] == g.Col(p, row)
  {
    hide Owned, Geo.Width;
    forall p: nat | p < g.Width() ensures st.globalCol[p] == g.Col(p, row) {
      assert SlotColumn(g, st, tileRow, row, p);
    }
  }

  lemma RowSeedFloored(g: Geo, st: State, sm: Smem, tileRow: nat, r: nat, seedCol: seq<Entry>, seedRow: seq<Entry>)
    requires r < g.height && RowInv(g, st, sm, tileRow, r, seedCol, seedRow) && tileRow + r < g.a.ny && g.rows
    ensures g.kind.Nearest? ==> sm.localMpRow[r].value >= InitDist(g.kind)
  {
    assert MpRowOk(g, tileRow, tileRow + r, r, seedRow[r], sm.localMpRow[r]);
  }

  /** The pieces of a finished row, put together. */
  lemma RowDone(g: Geo, before: State, sm0: Smem, held: State, heldSm: Smem, st: State, sm: Smem, tileRow: nat, r: nat,
                dist: seq<Dist>,
                seedCol: seq<Entry>, seedRow: seq<Entry>, leading: nat)
    requires g.Valid() && g.Width() > 0 && r < g.height && Shaped(g, before, sm0) && Shaped(g, held, heldSm)
    requires |seedCol| == |sm0.localMpCol| && |seedRow| == |sm0.localMpRow|
    requires MergesOk(g, before, sm0, tileRow, r, seedCol, seedRow) && DistOk(g, tileRow + r, dist)
    requires |before.distc| == |dist| && Columns(g, held, tileRow, tileRow + r)
    requires held.distc == if g.cols then MergedColumns(g, before, dist, tileRow + r) else before.distc
    requires leading < g.Width() && Owned(leading, tileRow + r, g.Width()) == tileRow + r
    requires heldSm.localMpCol == sm0.localMpCol && RowData(g, sm0, tileRow)
    requires heldSm.dfRow == sm0.dfRow && heldSm.dgRow == sm0.dgRow && heldSm.inormRow == sm0.inormRow
    requires if g.rows && tileRow + r < g.a.ny
      then Gathered(g.kind, g.a.RowDists(tileRow + r), sm0.localMpRow[r], Cols(g, tileRow + r), heldSm.localMpRow[r])
           && heldSm.localMpRow == sm0.localMpRow[r := heldSm.localMpRow[r]]
      else heldSm.localMpRow == sm0.localMpRow
    requires RotatedUpTo(g, held, heldSm.localMpCol, st, sm.localMpCol, tileRow + r, r, leading, 32 * g.warps,
      g.Width())
    requires sm == heldSm.(localMpCol := sm.localMpCol)
    requires CovPending(g, held.cov, heldSm.handoff, r + 1, tileRow + r + 1)
    ensures RowInv(g, st, sm, tileRow, r + 1, seedCol, seedRow)
  {
    hide Owned, Columns, CovPending, RowData, MergesOk, DistOk, Gathered, Geo.Width, Countdown, MergedColumns,
      SlotRotated;
    var row := tileRow + r;
    RotationKeepsColumns(g, held, st, tileRow, row);
    forall p: nat | p < g.Width()
      ensures st.distc[p] ==
        if Owned(p, row, g.Width()) == row then InitEntry(g.kind)
        else if g.cols then MergeCell(g.kind, before.distc[p], dist[p], row)
        else before.distc[p]
    {
      RotatedAccumulator(g, held, st, row, p);
    }
    RotationKeepsMerges(g, before, sm0, st, sm, tileRow, r, dist, seedCol, seedRow, leading);
    SameRowData(g, sm0, sm, tileRow);
  }

  lemma RotatedAccumulator(g: Geo, held: State, st: State, row: nat, p: nat)
    requires g.Valid() && g.Width() > 0 && p < g.Width()
    requires |held.dfc| == |held.dgc| == |held.inormc| == |held.distc| == |held.globalCol| == |held.localCol| ==
      g.Width()
    requires |st.dfc| == |st.dgc| == |st.inormc| == |st.distc| == |st.globalCol| == |st.localCol| == g.Width()
    requires SlotRotated(g, held, st, row, p)
    ensures st.distc[p] == if Owned(p, row, g.Width()) == row then InitEntry(g.kind) else held.distc[p]
  {
  }

  lemma SameRowData(g: Geo, sm: Smem, sm': Smem, tileRow: nat)
    requires g.Valid() && |sm.dfRow| == |sm.dgRow| == |sm.inormRow| == g.height && RowData(g, sm, tileRow)
    requires sm'.dfRow == sm.dfRow && sm'.dgRow == sm.dgRow && sm'.inormRow == sm.inormRow
    ensures RowData(g, sm', tileRow)
  {
  }

  // ---------- Flushing a tile ----------

  /** The columns still held in registers at the end of a tile. */
  method FlushAll(g: Geo, st: State, sm: Smem, tileRow: nat, ghost seedCol: seq<Entry>, ghost seedRow: seq<Entry>)
      returns (mp: seq<Entry>)
    requires RowInv(g, st, sm, tileRow, g.height, seedCol, seedRow) && g.cols
    ensures |mp| == |sm.localMpCol| && TileColsOk(g, tileRow, seedCol, mp)
  {
    hide CovPending, RowData, Owned, Geo.Width, Gathered, AccOk, MpColOk, MpRowOk, LocalOffset;
    SlotOffsets(g, tileRow);
    mp := sm.localMpCol;
    for p := 0 to g.Width()
      invariant |mp| == |sm.localMpCol|
      invariant forall q: nat :: q < g.Width() ==> g.height <= LocalOffset(g, tileRow, q) < |mp|
      invariant forall q: nat :: q < p ==>
        mp[LocalOffset(g, tileRow, q)] == Combine(g.kind, sm.localMpCol[LocalOffset(g, tileRow, q)], st.distc[q])
      invariant forall j: nat :: j < |mp| && (forall q: nat :: q < p ==> LocalOffset(g, tileRow, q) != j) ==>
        mp[j] == sm.localMpCol[j]
    {
      LocalColIs(g, st, tileRow, p);
      OffsetsDistinct(g, tileRow, p);
      mp := mp[st.localCol[p] := Combine(g.kind, mp[st.localCol[p]], st.distc[p])];
    }
    forall j: nat | j < |mp| && g.startCol + tileRow + j < g.a.nx
      ensures Gathered(g.kind, g.a.ColDists(g.startCol + tileRow + j), seedCol[j],
                Rows(g, tileRow, tileRow + g.height, g.startCol + tileRow + j), mp[j])
    {
      if j >= g.height {
        var q := FlushedSlot(g, tileRow, j);
        HeldColumnComplete(g, st, sm, tileRow, seedCol, seedRow, j, q);
      } else {
        RetiredColumnComplete(g, st, sm, tileRow, seedCol, seedRow, j);
      }
    }
  }

  /** Columns are flushed if they are computed. */
  method EndRows(g: Geo, st: State, sm: Smem, tileRow: nat, ghost seedCol: seq<Entry>, ghost seedRow: seq<Entry>)
      returns (mp: seq<Entry>)
    requires RowInv(g, st, sm, tileRow, g.height, seedCol, seedRow)
    ensures |mp| == |sm.localMpCol| == |seedCol| && TileColsOk(g, tileRow, seedCol, mp)
  {
    hide CovPending, RowData, Columns, MergesOk, Geo.Width;
    mp := sm.localMpCol;
    if g.cols {
      mp := FlushAll(g, st, sm, tileRow, seedCol, seedRow);
    }
  }

  /** Where in the tile's buffer a slot's column is once the tile's rows are done. */
  ghost function LocalOffset(g: Geo, tileRow: nat, q: nat): int
    requires g.Width() > 0
  {
    Owned(q, tileRow + g.height, g.Width()) - tileRow
  }

  lemma LocalColIs(g: Geo, st: State, tileRow: nat, p: nat)
    requires g.Valid() && g.Width() > 0 && p < g.Width()
    requires |st.dfc| == |st.dgc| == |st.inormc| == |st.globalCol| == |st.localCol| == g.Width()
    requires |st.updatesRemaining| == 32 * g.warps && Columns(g, st, tileRow, tileRow + g.height)
    ensures st.localCol[p] == LocalOffset(g, tileRow, p)
  {
    hide Owned, Geo.Width;
    assert SlotColumn(g, st, tileRow, tileRow + g.height, p);
  }

  lemma SlotOffsets(g: Geo, tileRow: nat)
    requires g.Valid() && g.Width() > 0
    ensures forall q: nat :: q < g.Width() ==> g.height <= LocalOffset(g, tileRow, q) < g.Width() + g.height
  {
    forall q: nat | q < g.Width() ensures g.height <= LocalOffset(g, tileRow, q) < g.Width() + g.height {
      OwnedRange(q, tileRow + g.height, g.Width());
    }
  }

  lemma OffsetsDistinct(g: Geo, tileRow: nat, p: nat)
    requires g.Valid() && g.Width() > 0 && p < g.Width()
    ensures forall q: nat :: q < p ==> LocalOffset(g, tileRow, q) != LocalOffset(g, tileRow, p)
  {
    forall q: nat | q < p ensures LocalOffset(g, tileRow, q) != LocalOffset(g, tileRow, p) {
      if LocalOffset(g, tileRow, q) == LocalOffset(g, tileRow, p) {
        OwnedInjective(q, p, tileRow + g.height, g.Width());
      }
    }
  }

  lemma FlushedSlot(g: Geo, tileRow: nat, j: nat) returns (q: nat)
    requires g.Valid() && g.Width() > 0 && g.height <= j < g.height + g.Width()
    ensures q < g.Width() && LocalOffset(g, tileRow, q) == j
  {
    q := (tileRow + j) % g.Width();
    OwnedUnique(q, tileRow + g.height, g.Width(), tileRow + j);
  }

  lemma HeldColumnComplete(g: Geo, st: State, sm: Smem, tileRow: nat, seedCol: seq<Entry>, seedRow: seq<Entry>, j: nat,
                           q: nat)
    requires RowInv(g, st, sm, tileRow, g.height, seedCol, seedRow) && g.cols && g.height <= j < |sm.localMpCol|
    requires q < g.Width() && LocalOffset(g, tileRow, q) == j && g.startCol + tileRow + j < g.a.nx
    ensures Gathered(g.kind, g.a.ColDists(g.startCol + tileRow + j), seedCol[j],
              Rows(g, tileRow, tileRow + g.height, g.startCol + tileRow + j),
                Combine(g.kind, sm.localMpCol[j], st.distc[q]))
  {
    hide Owned, Geo.Width, CovPending, RowData, Columns, Gathered;
    assert AccOk(g, tileRow, tileRow + g.height, q, st.distc[q]);
    assert MpColOk(g, tileRow, tileRow + g.height, j, seedCol[j], sm.localMpCol[j]);
    FlushGathers(g, tileRow, tileRow + g.height, g.startCol + tileRow + j, seedCol[j], st.distc[q]);
  }

  lemma RetiredColumnComplete(g: Geo, st: State, sm: Smem, tileRow: nat, seedCol: seq<Entry>, seedRow: seq<Entry>,
                              j: nat)
    requires RowInv(g, st, sm, tileRow, g.height, seedCol, seedRow) && g.cols && j < g.height && j < |sm.localMpCol|
    requires g.startCol + tileRow + j < g.a.nx
    ensures Gathered(g.kind, g.a.ColDists(g.startCol + tileRow + j), seedCol[j],
              Rows(g, tileRow, tileRow + g.height, g.startCol + tileRow + j), sm.localMpCol[j])
  {
    hide Owned, Geo.Width, CovPending, RowData, Columns, Gathered;
    assert MpColOk(g, tileRow, tileRow + g.height, j, seedCol[j], sm.localMpCol[j]);
  }

  // ---------- Starting a tile ----------

  function InitSmem(g: Geo, sm: Smem, tileCol: nat, tileRow: nat, profileA: seq<Entry>, profileB: seq<Entry>): (s: Smem)
    requires |g.a.dfb| == |g.a.dgb| == |g.a.normsb| == g.a.ny && |profileA| >= g.a.nx && |profileB| >= g.a.ny
    requires |sm.dfRow| == |sm.dgRow| == |sm.inormRow| == |sm.localMpRow| == g.height
  {
    sm.(dfRow := seq(g.height, i requires 0 <= i < g.height => if tileRow + i < g.a.ny then g.a.dfb[tileRow + i]
      else sm.dfRow[i]),
        dgRow := seq(g.height, i requires 0 <= i < g.height => if tileRow + i < g.a.ny then g.a.dgb[tileRow + i]
          else sm.dgRow[i]),
        inormRow := seq(g.height, i requires 0 <= i < g.height =>
          if tileRow + i < g.a.ny then g.a.normsb[tileRow + i] else sm.inormRow[i]),
        localMpCol := seq(|sm.localMpCol|, j requires 0 <= j < |sm.localMpCol| =>
          if tileCol + j < g.a.nx then Seed(g.kind, profileA[tileCol + j]) else sm.localMpCol[j]),
        localMpRow := seq(g.height, i requires 0 <= i < g.height =>
          if tileRow + i < g.a.ny then Seed(g.kind, profileB[tileRow + i]) else sm.localMpRow[i]))
  }

  /** Local columns and accumulators start over with each tile. */
  function StartTile(g: Geo, st: State, tileCol: nat): State {
    st.(localCol := seq(|st.globalCol|, p requires 0 <= p < |st.globalCol| => st.globalCol[p] - tileCol),
        distc := seq(|st.distc|, _ => InitEntry(g.kind)))
  }

  class Block {
    const g: Geo
    var state: State
    var smem: Smem
    var tileStartCol: nat
    var tileStartRow: nat
    var profileA: seq<Entry>
    var profileB: seq<Entry>

    /** What holds between two tiles. */
    ghost predicate Valid(wasA: seq<Entry>, wasB: seq<Entry>)
      reads this
    {
      && g.Valid() && g.Width() > 0 && g.height % 2 == 0 && Shaped(g, state, smem)
        && tileStartCol == g.startCol + tileStartRow
      && Columns(g, StartTile(g, state, tileStartCol), tileStartRow, tileStartRow)
      && CovPending(g, state.cov, smem.handoff, 0, tileStartRow)
      && g.a.nx <= |profileA| && g.a.ny <= |profileB|
      && ProfilesOk(g, tileStartRow, wasA, wasB, profileA, profileB)
    }

    /** The block's first registers: every thread loads its own columns and their first covariances. Shared memory
        holds whatever it held. */
    constructor (geo: Geo, memory: Smem, a: seq<Entry>, b: seq<Entry>)
      requires geo.Valid() && geo.height % 2 == 0 && geo.a.nx <= |a| && geo.a.ny <= |b| && Floored(geo.kind, a)
      requires Floored(geo.kind, b)
      requires |memory.dfRow| == |memory.dgRow| == |memory.inormRow| == |memory.localMpRow| == geo.height
      requires |memory.localMpCol| == geo.Width() + geo.height && |memory.handoff| == 2 * geo.warps
      ensures g == geo && Valid(a, b) && profileA == a && profileB == b && tileStartRow == 0
    {
      hide CovPending, Columns, Owned, Countdown, Geo.Width, Shaped, ProfilesOk;
      g := geo;
      var w := geo.Width();
      state := State(
        seq(w, p requires 0 <= p < w => if geo.startCol + p < geo.a.nx then geo.a.cov0[geo.startCol + p] else 0.0),
        seq(w, p requires 0 <= p < w => geo.ColReal(geo.a.dfa, geo.startCol + p)),
        seq(w, p requires 0 <= p < w => geo.ColReal(geo.a.dga, geo.startCol + p)),
        seq(w, p requires 0 <= p < w => geo.ColNorm(geo.startCol + p)),
        seq(w, _ => InitEntry(geo.kind)),
        seq(w, p requires 0 <= p < w => geo.startCol + p),
        seq(w, p requires 0 <= p < w => p),
        seq(32 * geo.warps, t requires 0 <= t < 32 * geo.warps => t * geo.dpt + geo.dpt - 1));
      smem := memory;
      tileStartCol := geo.startCol;
      tileStartRow := 0;
      profileA := a;
      profileB := b;
      new;
      WidthPositive(geo);
      FirstColumns(geo, state);
      FirstCov(geo, state, smem.handoff);
      ProfilesStart(geo, a, b);
      ShapedIs(geo, state, smem);
    }

    /** One tile: shared memory and accumulators start over, the rows run on one of the two paths, and the
        buffers are flushed and written back. */
    method RunTile(ghost wasA: seq<Entry>, ghost wasB: seq<Entry>)
      requires Valid(wasA, wasB)
      modifies this
      ensures Valid(wasA, wasB) && tileStartRow == old(tileStartRow) + g.height
    {
      hide CovPending, Columns, RowInv, Owned, Countdown, Geo.Width, ProfilesOk, InitSmem, StartTile, FastTile,
        TileColsOk, WrittenCols, WrittenRows;
      var col, row := tileStartCol, tileStartRow;
      var st, sm := StartTile(g, state, col), InitSmem(g, smem, col, row, profileA, profileB);
      ghost var seedCol, seedRow := sm.localMpCol, sm.localMpRow;
      TileStarts(g, state, smem, col, row, wasA, wasB, profileA, profileB);
      SeedsAreProfiles(g, smem, col, row, profileA, profileB);
      ghost var a0, b0 := profileA, profileB;
      var fastPath := FastTile(g, col, row);
      for r := 0 to g.height
        invariant RowInv(g, st, sm, row, r, seedCol, seedRow)
        invariant profileA == a0 && profileB == b0 && tileStartCol == col && tileStartRow == row
      {
        st, sm := DoRow(g, st, sm, row, r, fastPath, seedCol, seedRow);
      }
      var mp := EndRows(g, st, sm, row, seedCol, seedRow);
      TileEnds(g, st, sm, row, seedCol, seedRow, mp, wasA, wasB, profileA, profileB);
      state, smem := st, sm.(localMpCol := mp);
      profileA := WrittenCols(g, profileA, col, mp);
      profileB := WrittenRows(g, profileB, row, sm.localMpRow);
      tileStartCol := tileStartCol + g.height;
      tileStartRow := tileStartRow + g.height;
    }

    /** The whole block: every in-range cell of its band reaches its column and its row exactly once. */
    method DoTileShfl(ghost wasA: seq<Entry>, ghost wasB: seq<Entry>)
      requires Valid(wasA, wasB) && tileStartRow == 0
      modifies this
      ensures g.Valid() && BlockDone(g, wasA, wasB, profileA, profileB)
    {
      while tileStartCol < g.a.nx && tileStartRow < g.a.ny
        invariant Valid(wasA, wasB)
        decreases g.a.ny - tileStartRow
      {
        RunTile(wasA, wasB);
      }
      BlockComplete(g, tileStartRow, wasA, wasB, profileA, profileB);
    }
  }

  lemma ShapedIs(g: Geo, st: State, sm: Smem)
    requires |st.cov| == |st.dfc| == |st.dgc| == |st.inormc| == |st.distc| == |st.globalCol| == |st.localCol| ==
      g.Width()
    requires |st.updatesRemaining| == 32 * g.warps
    requires |sm.dfRow| == |sm.dgRow| == |sm.inormRow| == |sm.localMpRow| == g.height
    requires |sm.localMpCol| == g.Width() + g.height && |sm.handoff| == 2 * g.warps
    ensures Shaped(g, st, sm)
  {
  }

  lemma FirstColumns(g: Geo, st: State)
    requires g.Valid() && g.Width() > 0
    requires |st.dfc| == |st.dgc| == |st.inormc| == |st.globalCol| == |st.localCol| == g.Width()
    requires |st.updatesRemaining| == 32 * g.warps
    requires forall p: nat :: p < g.Width() ==>
      && st.globalCol[p] == g.startCol + p && st.dfc[p] == g.ColReal(g.a.dfa, g.startCol + p)
      && st.dgc[p] == g.ColReal(g.a.dga, g.startCol + p) && st.inormc[p] == g.ColNorm(g.startCol + p)
    requires forall t: nat :: t < 32 * g.warps ==> st.updatesRemaining[t] == t * g.dpt + g.dpt - 1
    ensures Columns(g, StartTile(g, st, g.startCol), 0, 0)
  {
    hide Geo.Width, Geo.ColReal, Geo.ColNorm, Owned, Countdown;
    forall p: nat | p < g.Width() ensures Owned(p, 0, g.Width()) == p {
      OwnedAtStart(p, g.Width());
    }
    forall t: nat | t < 32 * g.warps ensures st.updatesRemaining[t] == Countdown(t, g.dpt, 0, g.Width()) {
      ThreadFits(g, t);
      CountdownStart(t, g.dpt, g.Width());
    }
  }

  lemma OwnedAtStart(p: nat, w: nat)
    requires p < w
    ensures Owned(p, 0, w) == p
  {
    ModSmall(p, w);
  }

  lemma FirstCov(g: Geo, st: State, handoff: seq<real>)
    requires g.Valid() && g.Width() > 0 && |st.cov| == g.Width() && |handoff| == 2 * g.warps
    requires forall p: nat :: p < g.Width() && g.startCol + p < g.a.nx ==> st.cov[p] == g.a.cov0[g.startCol + p]
    ensures CovPending(g, st.cov, handoff, 0, 0)
  {
    hide Geo.Width, Owned;
    forall p: nat | p < g.Width() ensures IsCov(g, 0, p, Incoming(g, st.cov, handoff, 0, 0, p)) {
      OwnedAtStart(p, g.Width());
    }
  }

  lemma SeedsAreProfiles(g: Geo, sm: Smem, tileCol: nat, tileRow: nat, profileA: seq<Entry>, profileB: seq<Entry>)
    requires g.Valid() && tileCol == g.startCol + tileRow && |profileA| >= g.a.nx && |profileB| >= g.a.ny
    requires |sm.dfRow| == |sm.dgRow| == |sm.inormRow| == |sm.localMpRow| == g.height
    ensures
      var sm' := InitSmem(g, sm, tileCol, tileRow, profileA, profileB);
      && |sm'.localMpCol| == |sm.localMpCol| && |sm'.localMpRow| == g.height
      && (forall j :: 0 <= j < |sm'.localMpCol| && g.startCol + tileRow + j < g.a.nx ==>
            sm'.localMpCol[j] == Seed(g.kind, profileA[g.startCol + tileRow + j]))
      && (forall i :: 0 <= i < g.height && tileRow + i < g.a.ny ==>
        sm'.localMpRow[i] == Seed(g.kind, profileB[tileRow + i]))
  {
  }

  /** A tile begins with the invariant of its first row. */
  lemma TileStarts(g: Geo, st: State, sm: Smem, tileCol: nat, tileRow: nat,
                   wasA: seq<Entry>, wasB: seq<Entry>, profileA: seq<Entry>, profileB: seq<Entry>)
    requires g.Valid() && g.Width() > 0 && Shaped(g, st, sm) && tileCol == g.startCol + tileRow
    requires Columns(g, StartTile(g, st, tileCol), tileRow, tileRow) && CovPending(g, st.cov, sm.handoff, 0, tileRow)
    requires ProfilesOk(g, tileRow, wasA, wasB, profileA, profileB)
    ensures
      var sm' := InitSmem(g, sm, tileCol, tileRow, profileA, profileB);
      RowInv(g, StartTile(g, st, tileCol), sm', tileRow, 0, sm'.localMpCol, sm'.localMpRow)
  {
    hide Columns, CovPending, Gathered, Geo.Width, Owned;
    var st', sm' := StartTile(g, st, tileCol), InitSmem(g, sm, tileCol, tileRow, profileA, profileB);
    SeedsAreProfiles(g, sm, tileCol, tileRow, profileA, profileB);
    forall p: nat | p < g.Width() ensures AccOk(g, tileRow, tileRow, p, st'.distc[p]) {
      FreshColumn(g, tileRow, tileRow, p);
    }
    assert Shaped(g, st', sm');
    assert RowData(g, sm', tileRow);
    assert SeedsOk(g, tileRow, sm'.localMpCol, sm'.localMpRow);
    assert MergesOk(g, st', sm', tileRow, 0, sm'.localMpCol, sm'.localMpRow);
  }

  lemma NextTileColumns(g: Geo, st: State, tileRow: nat)
    requires g.Valid() && g.Width() > 0
    requires |st.dfc| == |st.dgc| == |st.inormc| == |st.globalCol| == |st.localCol| == g.Width()
    requires |st.updatesRemaining| == 32 * g.warps && Columns(g, st, tileRow, tileRow + g.height)
    ensures Columns(g, StartTile(g, st, g.startCol + tileRow + g.height), tileRow + g.height, tileRow + g.height)
  {
    hide Geo.Width, Owned, Countdown, Geo.ColReal, Geo.ColNorm;
    var row := tileRow + g.height;
    var st' := StartTile(g, st, g.startCol + row);
    forall p: nat | p < g.Width() ensures SlotColumn(g, st', row, row, p) {
      assert SlotColumn(g, st, tileRow, row, p);
    }
  }

  /** A tile ends with the invariant that holds between tiles. The hand-off slot of the next row only carries over
      because the tile height is even. */
  lemma TileEnds(g: Geo, st: State, sm: Smem, tileRow: nat, seedCol: seq<Entry>, seedRow: seq<Entry>, mp: seq<Entry>,
                 wasA: seq<Entry>, wasB: seq<Entry>, profileA: seq<Entry>, profileB: seq<Entry>)
    requires g.height % 2 == 0 && RowInv(g, st, sm, tileRow, g.height, seedCol, seedRow)
    requires |mp| == |sm.localMpCol| && TileColsOk(g, tileRow, seedCol, mp)
    requires ProfilesOk(g, tileRow, wasA, wasB, profileA, profileB)
    requires forall j :: 0 <= j < |seedCol| && g.startCol + tileRow + j < g.a.nx ==>
      seedCol[j] == Seed(g.kind, profileA[g.startCol + tileRow + j])
    requires forall i :: 0 <= i < |seedRow| && tileRow + i < g.a.ny ==>
      seedRow[i] == Seed(g.kind, profileB[tileRow + i])
    ensures Shaped(g, st, sm.(localMpCol := mp))
    ensures Columns(g, StartTile(g, st, g.startCol + tileRow + g.height), tileRow + g.height, tileRow + g.height)
    ensures CovPending(g, st.cov, sm.handoff, 0, tileRow + g.height)
    ensures ProfilesOk(g, tileRow + g.height, wasA, wasB,
              WrittenCols(g, profileA, g.startCol + tileRow, mp), WrittenRows(g, profileB, tileRow, sm.localMpRow))
  {
    hide Gathered, Geo.Width, Owned, Countdown, RowData, AccOk, MpColOk, MpRowOk, TileColsOk, ProfilesOk, WrittenCols,
      WrittenRows;
    var row := tileRow + g.height;
    forall p: nat | p < g.Width() ensures IsCov(g, row, p, Incoming(g, st.cov, sm.handoff, 0, row, p)) {
      assert IsCov(g, row, p, Incoming(g, st.cov, sm.handoff, g.height, row, p));
      assert g.height % 2 == 0 % 2;
    }
    NextTileColumns(g, st, tileRow);
    ProfilesAfterTile(g, tileRow, wasA, wasB, profileA, profileB, seedCol, seedRow, mp, sm.localMpRow);
  }
}
