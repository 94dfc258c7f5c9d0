/**
 What the two GPU kernels share: a thread block walks a band of diagonals in tiles of `height` rows, seeds the
 tile's buffers from the global profiles, and writes them back.
 */
module GpuBlock {
  import opened Arithmetic
  import opened Profiles
  import opened Kernel
  import opened ShflRing

  /** A launch, the block's geometry, the column its band starts at in row 0, and which profiles are computed. */
  datatype Geo = Geo(a: Args, kind: Kind, dpt: nat, warps: nat, height: nat, startCol: nat, rows: bool, cols: bool) {
    ghost predicate Valid() {
      && a.Valid() && a.exclusionUpper <= a.nx && startCol >= a.exclusionLower
      && dpt > 0 && warps > 0 && height > 0
    }

    /** The slots of one warp, and of the block. */
    function Span(): nat { 32 * dpt }
    function Width(): nat { warps * Span() }

    /** The band of this block, as the kernel masks it. */
    predicate Cell(r: int, c: int) {
      a.InBand(r, c) && 0 <= c - startCol - r < Width()
    }

    /** The column a slot owns before row `row`. */
    function Col(p: int, row: int): int
      requires Width() > 0
    {
      startCol + Owned(p, row, Width())
    }

    function ColReal(s: seq<real>, pos: nat): real
      requires |s| == a.nx
    {
      if pos < a.nx then s[pos] else 0.0
    }

    function ColNorm(pos: nat): Norm
      requires |a.normsa| == a.nx
    {
      if pos < a.nx then a.normsa[pos] else Inverse(0.0)
    }
  }

  lemma WidthPositive(g: Geo)
    requires g.Valid()
    ensures g.Width() >= g.Span() >= 32
  {
    PositiveMultiple(g.warps, g.Span());
  }

  lemma WidthIs(g: Geo)
    ensures g.Width() == g.warps * g.Span() && g.Span() == 32 * g.dpt
  {
  }

  lemma LastSlotOfWarp(g: Geo, warp: nat)
    requires warp < g.warps && g.dpt > 0
    ensures 0 <= warp * g.Span() + g.Span() - 1 < g.Width()
    ensures warp * g.Span() + g.Span() <= g.Width()
  {
    assert (warp + 1) * g.Span() <= g.warps * g.Span();
    assert (warp + 1) * g.Span() == warp * g.Span() + g.Span();
  }

  lemma ThreadFits(g: Geo, thread: nat)
    requires g.dpt > 0 && thread < 32 * g.warps
    ensures thread * g.dpt + g.dpt <= g.Width()
  {
    ThreadSlots(thread, g.dpt, 32 * g.warps);
    assert 32 * g.warps * g.dpt == g.warps * (32 * g.dpt);
  }

  lemma NextThread(t: nat, dpt: nat)
    ensures (t + 1) * dpt == t * dpt + dpt
  {
  }

  lemma AllThreads(g: Geo)
    ensures 32 * g.warps * g.dpt == g.Width()
  {
    assert 32 * g.warps * g.dpt == g.warps * (32 * g.dpt);
  }

  // ---------- The cells of a block, by column and by row ----------

  /** The rows of column `c` in `[from, to)` that belong to the block. */
  ghost function Rows(g: Geo, from: int, to: int, c: int): (s: set<int>)
    ensures forall r :: r in s <==> from <= r < to && g.Cell(r, c)
  {
    set r | r in Range(from, to) && g.Cell(r, c)
  }

  /** The block's columns of one row. */
  ghost function Cols(g: Geo, row: int): (s: set<int>)
    ensures forall c :: c in s <==> g.Cell(row, c)
  {
    set c | c in Range(0, g.a.nx) && g.Cell(row, c)
  }

  ghost predicate MpRowOk(g: Geo, tileRow: nat, row: nat, i: nat, seed: Entry, entry: Entry)
    requires g.Valid()
  {
    g.rows ==>
      if tileRow + i < row && tileRow + i < g.a.ny
      then Gathered(g.kind, g.a.RowDists(tileRow + i), seed, Cols(g, tileRow + i), entry)
      else entry == seed
  }

  /** Every column of the tile's buffer is complete. */
  ghost predicate TileColsOk(g: Geo, tileRow: nat, seedCol: seq<Entry>, mp: seq<Entry>)
    requires g.Valid() && |seedCol| == |mp|
  {
    g.cols ==>
      forall j :: 0 <= j < |mp| && g.startCol + tileRow + j < g.a.nx ==>
        Gathered(g.kind, g.a.ColDists(g.startCol + tileRow + j), seedCol[j],
          Rows(g, tileRow, tileRow + g.height, g.startCol + tileRow + j), mp[j])
  }

  // ---------- Reducing a warp ----------

  /** The butterfly of shuffles: lane 0 ends up with the tree reduction of all 32 lanes. */
  method WarpReduce(kind: Kind, lanes: seq<Entry>) returns (result: Entry)
    requires |lanes| == 32
    ensures PowerOfTwo(32) && result == TreeReduce(kind, lanes)
  {
    var d := lanes;
    var delta := 16;
    assert d[..32] == d;
    while delta >= 1
      invariant |d| == 32 && (delta == 16 || delta == 8 || delta == 4 || delta == 2 || delta == 1 || delta == 0)
      invariant delta > 0 ==> PowerOfTwo(2 * delta) && TreeReduce(kind, d[..2 * delta]) == TreeReduce(kind, lanes)
      invariant delta == 0 ==> TreeReduce(kind, d[..1]) == TreeReduce(kind, lanes)
      decreases delta
    {
      ghost var was := d;
      d := seq(32, l requires 0 <= l < 32 => Combine(kind, d[l], if l + delta < 32 then d[l + delta] else d[l]));
      assert d[..delta] == Halve(kind, was[..2 * delta]);
      delta := delta / 2;
    }
    result := d[0];
  }

  // ---------- Starting a tile, and writing it back ----------

  /** A maximum starts from the global profile, a sum from zero. */
  function Seed(kind: Kind, entry: Entry): Entry {
    if kind.Nearest? then entry else InitEntry(kind)
  }

  function WrittenBack(kind: Kind, profile: seq<Entry>, n: nat, start: nat, buffer: seq<Entry>): (r: seq<Entry>)
    requires |profile| >= n
    ensures |r| == |profile|
    ensures forall c :: 0 <= c < |r| ==>
      r[c] == if start <= c < start + |buffer| && c < n then Combine(kind, profile[c], buffer[c - start])
        else profile[c]
  {
    seq(|profile|, c requires 0 <= c < |profile| =>
      if start <= c < start + |buffer| && c < n then Combine(kind, profile[c], buffer[c - start]) else profile[c])
  }

  /** Writing a complete buffer element back gathers the same cells into the global element. */
  lemma WriteBackGathers(kind: Kind, f: seq<Dist>, entry: Entry, cells: set<int>, buffer: Entry)
    requires Gathered(kind, f, Seed(kind, entry), cells, buffer)
    ensures Gathered(kind, f, entry, cells, Combine(kind, entry, buffer))
  {
  }

  // ---------- The profiles, tile after tile ----------

  /** The global profiles that are computed have gathered exactly the block's cells in the rows above `row`; one that is
      not is untouched. */
  ghost predicate ProfilesOk(g: Geo, row: nat, wasA: seq<Entry>, wasB: seq<Entry>, nowA: seq<Entry>, nowB: seq<Entry>)
    requires g.Valid()
  {
    && g.a.nx <= |wasA| == |nowA| && g.a.ny <= |wasB| == |nowB| && Floored(g.kind, nowA) && Floored(g.kind, nowB)
    && (if g.cols
        then forall c :: 0 <= c < g.a.nx ==> Gathered(g.kind, g.a.ColDists(c), wasA[c], Rows(g, 0, row, c), nowA[c])
        else nowA == wasA)
    && (if g.rows
        then forall r :: 0 <= r < g.a.ny ==>
          Gathered(g.kind, g.a.RowDists(r), wasB[r], if r < row then Cols(g, r) else {}, nowB[r])
        else nowB == wasB)
  }

  /** What writing a tile's buffers back makes of the profiles. */
  function WrittenCols(g: Geo, profile: seq<Entry>, tileCol: nat, buffer: seq<Entry>): (r: seq<Entry>)
    requires |profile| >= g.a.nx
    ensures |r| == |profile|
  {
    if g.cols then WrittenBack(g.kind, profile, g.a.nx, tileCol, buffer) else profile
  }

  function WrittenRows(g: Geo, profile: seq<Entry>, tileRow: nat, buffer: seq<Entry>): (r: seq<Entry>)
    requires |profile| >= g.a.ny
    ensures |r| == |profile|
  {
    if g.rows then WrittenBack(g.kind, profile, g.a.ny, tileRow, buffer) else profile
  }

  lemma ProfilesStart(g: Geo, wasA: seq<Entry>, wasB: seq<Entry>)
    requires g.Valid() && g.a.nx <= |wasA| && g.a.ny <= |wasB| && Floored(g.kind, wasA) && Floored(g.kind, wasB)
    ensures ProfilesOk(g, 0, wasA, wasB, wasA, wasB)
  {
    forall c | 0 <= c < g.a.nx ensures Gathered(g.kind, g.a.ColDists(c), wasA[c], Rows(g, 0, 0, c), wasA[c]) {
      assert Rows(g, 0, 0, c) == {};
      GatherNothing(g.kind, g.a.ColDists(c), wasA[c]);
    }
    forall r | 0 <= r < g.a.ny ensures Gathered(g.kind, g.a.RowDists(r), wasB[r], {}, wasB[r]) {
      GatherNothing(g.kind, g.a.RowDists(r), wasB[r]);
    }
  }

  lemma FlooredAfter(kind: Kind, profile: seq<Entry>, n: nat, start: nat, buffer: seq<Entry>)
    requires |profile| >= n && Floored(kind, profile)
    ensures Floored(kind, WrittenBack(kind, profile, n, start, buffer))
  {
  }

  /** A tile written back extends what the profiles have gathered by the tile's rows. */
  lemma ProfilesAfterTile(g: Geo, tileRow: nat, wasA: seq<Entry>, wasB: seq<Entry>, midA: seq<Entry>, midB: seq<Entry>,
                          seedCol: seq<Entry>, seedRow: seq<Entry>, mpCol: seq<Entry>, mpRow: seq<Entry>)
    requires g.Valid() && g.Width() > 0 && ProfilesOk(g, tileRow, wasA, wasB, midA, midB)
    requires |seedCol| == |mpCol| == g.Width() + g.height && |seedRow| == |mpRow| == g.height
    requires forall j :: 0 <= j < |seedCol| && g.startCol + tileRow + j < g.a.nx ==>
      seedCol[j] == Seed(g.kind, midA[g.startCol + tileRow + j])
    requires forall i :: 0 <= i < |seedRow| && tileRow + i < g.a.ny ==> seedRow[i] == Seed(g.kind, midB[tileRow + i])
    requires TileColsOk(g, tileRow, seedCol, mpCol)
    requires forall i: nat :: i < g.height && tileRow + i < g.a.ny ==>
      MpRowOk(g, tileRow, tileRow + g.height, i, seedRow[i], mpRow[i])
    ensures ProfilesOk(g, tileRow + g.height, wasA, wasB,
              WrittenCols(g, midA, g.startCol + tileRow, mpCol), WrittenRows(g, midB, tileRow, mpRow))
  {
    hide Gathered, Geo.Width, Floored;
    var nowA, nowB := WrittenCols(g, midA, g.startCol + tileRow, mpCol), WrittenRows(g, midB, tileRow, mpRow);
    FlooredAfter(g.kind, midA, g.a.nx, g.startCol + tileRow, mpCol);
    FlooredAfter(g.kind, midB, g.a.ny, tileRow, mpRow);
    if g.cols {
      forall c: nat | c < g.a.nx
        ensures Gathered(g.kind, g.a.ColDists(c), wasA[c], Rows(g, 0, tileRow + g.height, c), nowA[c])
      {
        ColumnAfterTile(g, tileRow, wasA[c], midA[c], seedCol, mpCol, c, nowA[c]);
      }
    }
    if g.rows {
      forall r: nat | r < g.a.ny
        ensures Gathered(g.kind, g.a.RowDists(r), wasB[r], if r < tileRow + g.height then Cols(g, r) else {}, nowB[r])
      {
        if tileRow <= r < tileRow + g.height {
          var i := r - tileRow;
          assert MpRowOk(g, tileRow, tileRow + g.height, i, seedRow[i], mpRow[i]);
          WriteBackGathers(g.kind, g.a.RowDists(r), midB[r], Cols(g, r), mpRow[i]);
          GatherThen(g.kind, g.a.RowDists(r), wasB[r], {}, midB[r], Cols(g, r), nowB[r]);
          assert {} + Cols(g, r) == Cols(g, r);
        }
      }
    }
  }

  lemma ColumnAfterTile(g: Geo, tileRow: nat, was: Entry, mid: Entry, seedCol: seq<Entry>, mpCol: seq<Entry>, c: nat,
                        now: Entry)
    requires g.Valid() && g.Width() > 0 && g.cols && c < g.a.nx && |seedCol| == |mpCol| == g.Width() + g.height
    requires Gathered(g.kind, g.a.ColDists(c), was, Rows(g, 0, tileRow, c), mid)
    requires TileColsOk(g, tileRow, seedCol, mpCol)
    requires
      var j := c - g.startCol - tileRow;
      if 0 <= j < |mpCol| then seedCol[j] == Seed(g.kind, mid) && now == Combine(g.kind, mid, mpCol[j]) else now == mid
    ensures Gathered(g.kind, g.a.ColDists(c), was, Rows(g, 0, tileRow + g.height, c), now)
  {
    hide Gathered, Geo.Width;
    var j := c - g.startCol - tileRow;
    var done, new' := Rows(g, 0, tileRow, c), Rows(g, tileRow, tileRow + g.height, c);
    assert Rows(g, 0, tileRow + g.height, c) == done + new';
    if 0 <= j < |mpCol| {
      WriteBackGathers(g.kind, g.a.ColDists(c), mid, new', mpCol[j]);
      GatherThen(g.kind, g.a.ColDists(c), was, done, mid, new', now);
    } else {
      assert new' == {};
      assert done + {} == done;
    }
  }

  /** Nothing of the block's band lies beyond the last tile. */
  lemma BlockComplete(g: Geo, row: nat, wasA: seq<Entry>, wasB: seq<Entry>, nowA: seq<Entry>, nowB: seq<Entry>)
    requires g.Valid() && g.Width() > 0 && ProfilesOk(g, row, wasA, wasB, nowA, nowB)
    requires g.startCol + row >= g.a.nx || row >= g.a.ny
    ensures BlockDone(g, wasA, wasB, nowA, nowB)
  {
    hide Gathered, Geo.Width;
    forall c | 0 <= c < g.a.nx ensures Rows(g, 0, g.a.ny, c) == Rows(g, 0, row, c) {
    }
    forall r | 0 <= r < g.a.ny ensures Cols(g, r) == if r < row then Cols(g, r) else {} {
    }
  }

  /** A finished block: every cell of its band has reached its column and its row exactly once, in the profiles that
      are computed; one that is not is untouched. */
  ghost predicate BlockDone(g: Geo, wasA: seq<Entry>, wasB: seq<Entry>, nowA: seq<Entry>, nowB: seq<Entry>)
    requires g.Valid()
  {
    && g.a.nx <= |wasA| == |nowA| && g.a.ny <= |wasB| == |nowB| && Floored(g.kind, nowA) && Floored(g.kind, nowB)
    && (if g.cols
        then forall c :: 0 <= c < g.a.nx ==> Gathered(g.kind, g.a.ColDists(c), wasA[c], Rows(g, 0, g.a.ny, c), nowA[c])
        else nowA == wasA)
    && (if g.rows
        then forall r :: 0 <= r < g.a.ny ==> Gathered(g.kind, g.a.RowDists(r), wasB[r], Cols(g, r), nowB[r])
        else nowB == wasB)
  }

  // ---------- The grid ----------

  /** The block that a cell's diagonal falls into, counted from the lower exclusion zone. */
  function BlockOf(a: Args, width: nat, r: int, c: int): nat
    requires width > 0 && a.InBand(r, c)
  {
    Quot(c - r - a.exclusionLower, width)
  }

  /** Each cell of the band belongs to one block, and to no other. */
  lemma BlocksPartitionTheBand(g: Geo, block: nat, r: int, c: int)
    requires g.Width() > 0 && g.startCol == g.a.exclusionLower + block * g.Width() && g.a.InBand(r, c)
    ensures g.Cell(r, c) <==> block == BlockOf(g.a, g.Width(), r, c)
  {
    var w, d := g.Width(), c - r - g.a.exclusionLower;
    hide Quot, Rem, Geo.Width;
    QuotRem(d, w);
    if 0 <= d - block * w < w {
      QuotRemUnique(d, w, block, d - block * w);
    }
  }

  function CeilDiv(n: nat, d: nat): nat
    requires d > 0
  {
    Quot(n + d - 1, d)
  }

  lemma CeilDivBounds(n: nat, d: nat)
    requires d > 0
    ensures n <= CeilDiv(n, d) * d < n + d
  {
    hide Quot, Rem;
    QuotRem(n + d - 1, d);
  }

  /** The diagonals that the launcher counts. The band has one more when its upper zone is not empty. */
  function Counted(a: Args): int {
    a.nx - (a.exclusionLower + a.exclusionUpper)
  }

  /** One thread for `dpt` diagonals, one block for `threads` threads. */
  function NumBlocks(a: Args, dpt: nat, threads: nat): nat
    requires dpt > 0 && threads > 0 && Counted(a) > 0
  {
    CeilDiv(CeilDiv(Counted(a), dpt), threads)
  }

  lemma NumBlocksReach(a: Args, dpt: nat, threads: nat)
    requires dpt > 0 && threads > 0 && Counted(a) > 0
    ensures Counted(a) <= NumBlocks(a, dpt, threads) * (threads * dpt)
  {
    hide CeilDiv;
    var workers, blocks := CeilDiv(Counted(a), dpt), NumBlocks(a, dpt, threads);
    CeilDivBounds(Counted(a), dpt);
    CeilDivBounds(workers, threads);
    MulMonotone(workers, blocks * threads, dpt);
    Regrouped(blocks, threads, dpt);
  }

  lemma Regrouped(n: nat, threads: nat, dpt: nat)
    ensures n * threads * dpt == n * (threads * dpt)
  {
  }

  /** Every cell of the band belongs to a block that is launched. */
  ghost predicate AllLaunched(a: Args, dpt: nat, threads: nat)
    requires dpt > 0 && threads > 0 && Counted(a) > 0
  {
    PositiveWidth(threads, dpt);
    forall r: int, c: int :: a.InBand(r, c) ==> BlockOf(a, threads * dpt, r, c) < NumBlocks(a, dpt, threads)
  }

  /** A launch with rows covers its whole band if and only if the upper exclusion zone is empty or the last block has
      room for one diagonal more than the launcher counts. */
  lemma LaunchCoversIff(a: Args, dpt: nat, threads: nat)
    requires dpt > 0 && threads > 0 && Counted(a) > 0 && a.ny > 0
    ensures AllLaunched(a, dpt, threads) <==>
      a.exclusionUpper == 0 || NumBlocks(a, dpt, threads) * (threads * dpt) > Counted(a)
  {
    hide NumBlocks, Quot;
    var width, blocks := threads * dpt, NumBlocks(a, dpt, threads);
    PositiveWidth(threads, dpt);
    NumBlocksReach(a, dpt, threads);
    if a.exclusionUpper == 0 || blocks * width > Counted(a) {
      forall r: int, c: int | a.InBand(r, c) ensures BlockOf(a, width, r, c) < blocks {
        BlockBelow(c - r - a.exclusionLower, width, blocks);
      }
    } else {
      var c := a.nx - a.exclusionUpper;
      assert a.InBand(0, c);
      assert c - 0 - a.exclusionLower == blocks * width;
      QuotRemUnique(blocks * width, width, blocks, 0);
    }
  }

  lemma PositiveWidth(threads: nat, dpt: nat)
    requires threads > 0 && dpt > 0
    ensures threads * dpt > 0
  {
  }

  lemma BlockBelow(d: nat, width: nat, blocks: nat)
    requires width > 0 && d < blocks * width
    ensures Quot(d, width) < blocks
  {
    hide Quot, Rem;
    QuotRem(d, width);
    MulLess(Quot(d, width), blocks, width);
  }

  /** The lower launch of a self-join of 2049 subsequences for sums, window 2048: three blocks of 512 diagonals are
      launched, and cell (0, 1537) belongs to a fourth. */
  lemma UnlaunchedExample(a: Args)
    requires a.nx == a.ny == 2049 && a.exclusionLower == 1 && a.exclusionUpper == 512
    ensures NumBlocks(a, 4, 128) == 3 && a.InBand(0, 1537) && BlockOf(a, 128 * 4, 0, 1537) == 3
    ensures !AllLaunched(a, 4, 128)
  {
    assert a.InBand(0, 1537);
    assert BlockOf(a, 128 * 4, 0, 1537) == 3;
  }
}
