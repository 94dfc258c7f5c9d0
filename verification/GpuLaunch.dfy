/**
 A whole launch of either GPU kernel: the blocks of its grid, one after the other, and the two launches of a tile.
 The blocks only meet in atomic maxima and additions, which commute.
 */
module GpuLaunch {
  import opened Profiles
  import opened Kernel
  import opened GpuBlock
  import opened Tiling
  import opened Joins
  import opened TileExec
  import ShflKernel
  import ShflTile
  import SlidingWindow
  import SlidingTile
  import SlidingWarp
  import SlidingBlock

  /** Which kernel is launched, with its geometry, and what the shared memory of each block holds at first. */
  datatype Config =
    | Shfl(dpt: nat, warps: nat, height: nat, memory: nat -> ShflKernel.Smem)
    | Sliding(dpt: nat, warps: nat, height: nat, ur: nat, outerIters: nat, tileIters: nat,
              shared: nat -> SlidingWindow.Shared)
  {
    /** The cov-shuffle kernel needs an even height; the other one's is made of whole iterations. */
    ghost predicate Valid() {
      && dpt > 0 && warps > 0 && height > 0
      && match this
         case Shfl(_, _, _, _) => height % 2 == 0
         case Sliding(_, _, _, _, _, _, _) =>
           ur > 0 && outerIters > 0 && height == SlidingTile.Base(tileIters, SlidingTile.Base(outerIters, ur))
    }

    function Threads(): nat { 32 * warps }

    /** The diagonals of one block. */
    function Width(): nat { warps * (32 * dpt) }
  }

  /** The geometry of one block of a launch. */
  function GeoOf(args: Args, kind: Kind, config: Config, rows: bool, cols: bool, block: nat): Geo {
    Geo(args, kind, config.dpt, config.warps, config.height, args.exclusionLower + block * config.Width(), rows, cols)
  }

  lemma GeoOfValid(args: Args, kind: Kind, config: Config, rows: bool, cols: bool, block: nat)
    requires args.Valid() && Counted(args) > 0 && config.Valid()
    ensures
      var g := GeoOf(args, kind, config, rows, cols, block);
      && g.Valid() && g.Width() == config.Width() > 0
      && g.startCol == args.exclusionLower + block * g.Width()
      && g.a == args && g.kind == kind && g.rows == rows && g.cols == cols && g.height == config.height
  {
    var g := GeoOf(args, kind, config, rows, cols, block);
    hide Args.Valid;
    WidthPositive(g);
  }

  ghost predicate MemoryFits(args: Args, kind: Kind, config: Config, rows: bool, cols: bool, block: nat) {
    var g := GeoOf(args, kind, config, rows, cols, block);
    match config
    case Shfl(_, _, _, memory) =>
      var m := memory(block);
      && |m.dfRow| == |m.dgRow| == |m.inormRow| == |m.localMpRow| == g.height
      && |m.localMpCol| == g.Width() + g.height && |m.handoff| == 2 * g.warps
    case Sliding(_, _, _, _, _, _, shared) => SlidingWindow.Shaped(g, shared(block))
  }

  /** A block can run: its shared memory has the kernel's layout, and no warp that adds up rows is split. */
  ghost predicate CanRun(args: Args, kind: Kind, config: Config, rows: bool, cols: bool, block: nat)
    requires args.Valid() && Counted(args) > 0 && config.Valid()
  {
    GeoOfValid(args, kind, config, rows, cols, block);
    var g := GeoOf(args, kind, config, rows, cols, block);
    && MemoryFits(args, kind, config, rows, cols, block)
    && (config.Sliding? && SlidingWarp.Shuffles(g) ==> SlidingWarp.NoSplitWarp(g))
  }

  // ---------- The blocks of a launch ----------

  /** The rows of column `c` in the first `b` blocks of the band. */
  ghost function RowsBefore(args: Args, width: nat, b: nat, c: int): (s: set<int>)
    requires width > 0
    ensures forall r :: r in s <==> args.InBand(r, c) && BlockOf(args, width, r, c) < b
  {
    set r | r in args.BandRows(c) && BlockOf(args, width, r, c) < b
  }

  ghost function ColsBefore(args: Args, width: nat, b: nat, r: int): (s: set<int>)
    requires width > 0
    ensures forall c :: c in s <==> args.InBand(r, c) && BlockOf(args, width, r, c) < b
  {
    set c | c in args.BandCols(r) && BlockOf(args, width, r, c) < b
  }

  /** The profiles have taken in the cells of the first `b` blocks. */
  ghost predicate BlocksDone(args: Args, kind: Kind, width: nat, rows: bool, cols: bool, b: nat,
                             wasA: seq<Entry>, wasB: seq<Entry>, nowA: seq<Entry>, nowB: seq<Entry>)
    requires args.Valid() && width > 0
  {
    && args.nx <= |wasA| == |nowA| && args.ny <= |wasB| == |nowB| && Floored(kind, nowA) && Floored(kind, nowB)
    && (if cols then forall c: nat :: c < args.nx ==> ColumnBefore(args, kind, width, b, c, wasA[c], nowA[c])
        else nowA == wasA)
    && (if rows then forall r: nat :: r < args.ny ==> RowBefore(args, kind, width, b, r, wasB[r], nowB[r])
        else nowB == wasB)
  }

  ghost predicate ColumnBefore(args: Args, kind: Kind, width: nat, b: nat, c: nat, was: Entry, now: Entry)
    requires args.Valid() && width > 0 && c < args.nx
  {
    Gathered(kind, args.ColDists(c), was, RowsBefore(args, width, b, c), now)
  }

  ghost predicate RowBefore(args: Args, kind: Kind, width: nat, b: nat, r: nat, was: Entry, now: Entry)
    requires args.Valid() && width > 0 && r < args.ny
  {
    Gathered(kind, args.RowDists(r), was, ColsBefore(args, width, b, r), now)
  }

  lemma NoBlocks(args: Args, kind: Kind, width: nat, rows: bool, cols: bool, a: seq<Entry>, b: seq<Entry>)
    requires args.Valid() && width > 0 && args.nx <= |a| && args.ny <= |b| && Floored(kind, a) && Floored(kind, b)
    ensures BlocksDone(args, kind, width, rows, cols, 0, a, b, a, b)
  {
    hide Gathered, Args.Valid;
    forall c: nat | c < args.nx ensures ColumnBefore(args, kind, width, 0, c, a[c], a[c]) {
      assert RowsBefore(args, width, 0, c) == {};
      GatherNothing(kind, args.ColDists(c), a[c]);
    }
    forall r: nat | r < args.ny ensures RowBefore(args, kind, width, 0, r, b[r], b[r]) {
      assert ColsBefore(args, width, 0, r) == {};
      GatherNothing(kind, args.RowDists(r), b[r]);
    }
  }

  lemma ColumnNext(g: Geo, block: nat, c: nat, was: Entry, mid: Entry, now: Entry)
    requires g.Valid() && g.Width() > 0 && g.startCol == g.a.exclusionLower + block * g.Width() && c < g.a.nx
    requires ColumnBefore(g.a, g.kind, g.Width(), block, c, was, mid)
    requires Gathered(g.kind, g.a.ColDists(c), mid, Rows(g, 0, g.a.ny, c), now)
    ensures ColumnBefore(g.a, g.kind, g.Width(), block + 1, c, was, now)
  {
    hide Gathered, Geo.Width, Geo.Cell, Args.InBand, BlockOf;
    var w := g.Width();
    var before, mine, after := RowsBefore(g.a, w, block, c), Rows(g, 0, g.a.ny, c), RowsBefore(g.a, w, block + 1, c);
    forall r ensures r in mine <==> g.a.InBand(r, c) && BlockOf(g.a, w, r, c) == block {
      CellOfBlock(g, block, r, c);
    }
    assert after == before + mine && before !! mine;
    GatherThen(g.kind, g.a.ColDists(c), was, before, mid, mine, now);
  }

  lemma RowNext(g: Geo, block: nat, r: nat, was: Entry, mid: Entry, now: Entry)
    requires g.Valid() && g.Width() > 0 && g.startCol == g.a.exclusionLower + block * g.Width() && r < g.a.ny
    requires RowBefore(g.a, g.kind, g.Width(), block, r, was, mid)
    requires Gathered(g.kind, g.a.RowDists(r), mid, Cols(g, r), now)
    ensures RowBefore(g.a, g.kind, g.Width(), block + 1, r, was, now)
  {
    hide Gathered, Geo.Width, Geo.Cell, Args.InBand, BlockOf;
    var w := g.Width();
    var before, mine, after := ColsBefore(g.a, w, block, r), Cols(g, r), ColsBefore(g.a, w, block + 1, r);
    forall c ensures c in mine <==> g.a.InBand(r, c) && BlockOf(g.a, w, r, c) == block {
      CellOfBlock(g, block, r, c);
    }
    assert after == before + mine && before !! mine;
    GatherThen(g.kind, g.a.RowDists(r), was, before, mid, mine, now);
  }

  lemma CellOfBlock(g: Geo, block: nat, r: int, c: int)
    requires g.Width() > 0 && g.startCol == g.a.exclusionLower + block * g.Width()
    ensures g.Cell(r, c) <==> g.a.InBand(r, c) && BlockOf(g.a, g.Width(), r, c) == block
    ensures g.a.InBand(r, c) ==> 0 <= r < g.a.ny
  {
    hide Geo.Width;
    if g.a.InBand(r, c) {
      BlocksPartitionTheBand(g, block, r, c);
    }
  }

  lemma NextBlock(g: Geo, block: nat, wasA: seq<Entry>, wasB: seq<Entry>, midA: seq<Entry>, midB: seq<Entry>,
                  nowA: seq<Entry>, nowB: seq<Entry>)
    requires g.Valid() && g.Width() > 0 && g.startCol == g.a.exclusionLower + block * g.Width()
    requires BlocksDone(g.a, g.kind, g.Width(), g.rows, g.cols, block, wasA, wasB, midA, midB)
    requires BlockDone(g, midA, midB, nowA, nowB)
    ensures BlocksDone(g.a, g.kind, g.Width(), g.rows, g.cols, block + 1, wasA, wasB, nowA, nowB)
  {
    hide Gathered, Geo.Width, ColumnBefore, RowBefore, Floored;
    if g.cols {
      forall c: nat | c < g.a.nx ensures ColumnBefore(g.a, g.kind, g.Width(), block + 1, c, wasA[c], nowA[c]) {
        ColumnNext(g, block, c, wasA[c], midA[c], nowA[c]);
      }
    }
    if g.rows {
      forall r: nat | r < g.a.ny ensures RowBefore(g.a, g.kind, g.Width(), block + 1, r, wasB[r], nowB[r]) {
        RowNext(g, block, r, wasB[r], midB[r], nowB[r]);
      }
    }
  }

  /** One block, on whichever kernel was chosen. */
  method RunBlock(args: Args, kind: Kind, config: Config, rows: bool, cols: bool, block: nat,
                  profileA: seq<Entry>, profileB: seq<Entry>) returns (nowA: seq<Entry>, nowB: seq<Entry>)
    requires args.Valid() && Counted(args) > 0 && config.Valid() && CanRun(args, kind, config, rows, cols, block)
    requires args.nx <= |profileA| && args.ny <= |profileB| && Floored(kind, profileA) && Floored(kind, profileB)
    ensures GeoOf(args, kind, config, rows, cols, block).Valid()
    ensures BlockDone(GeoOf(args, kind, config, rows, cols, block), profileA, profileB, nowA, nowB)
  {
    hide BlockDone, Floored, Args.Valid, SlidingTile.Base, SlidingWarp.NoSplitWarp;
    GeoOfValid(args, kind, config, rows, cols, block);
    var g := GeoOf(args, kind, config, rows, cols, block);
    match config {
      case Shfl(_, _, _, memory) =>
        var b := new ShflTile.Block(g, memory(block), profileA, profileB);
        b.DoTileShfl(profileA, profileB);
        nowA, nowB := b.profileA, b.profileB;
      case Sliding(_, _, _, ur, outerIters, tileIters, shared) =>
        var b := new SlidingBlock.Block(g, ur, outerIters, tileIters, shared(block), profileA, profileB);
        b.DoTile(profileA, profileB);
        nowA, nowB := b.profileA, b.profileB;
    }
  }

  /** A launch: nothing runs when the exclusion zones leave no diagonal; else the blocks of the grid run. */
  method Launch(args: Args, kind: Kind, config: Config, rows: bool, cols: bool,
                profileA: seq<Entry>, profileB: seq<Entry>) returns (nowA: seq<Entry>, nowB: seq<Entry>)
    requires args.Valid() && config.Valid()
    requires args.nx <= |profileA| && args.ny <= |profileB| && Floored(kind, profileA) && Floored(kind, profileB)
    requires Counted(args) > 0 ==>
      forall block: nat :: block < NumBlocks(args, config.dpt, config.Threads()) ==>
        CanRun(args, kind, config, rows, cols, block)
    ensures Counted(args) <= 0 ==> nowA == profileA && nowB == profileB
    ensures Counted(args) > 0 ==>
      && config.Width() > 0
      && BlocksDone(args, kind, config.Width(), rows, cols, NumBlocks(args, config.dpt, config.Threads()),
           profileA, profileB, nowA, nowB)
    ensures |nowA| == |profileA| && |nowB| == |profileB| && Floored(kind, nowA) && Floored(kind, nowB)
  {
    nowA, nowB := profileA, profileB;
    if Counted(args) > 0 {
      hide Args.Valid, Config.Valid, CanRun, BlockDone, ColumnBefore, RowBefore, NumBlocks;
      GeoOfValid(args, kind, config, rows, cols, 0);
      NoBlocks(args, kind, config.Width(), rows, cols, profileA, profileB);
      for block := 0 to NumBlocks(args, config.dpt, config.Threads())
        invariant BlocksDone(args, kind, config.Width(), rows, cols, block, profileA, profileB, nowA, nowB)
      {
        ghost var midA, midB := nowA, nowB;
        GeoOfValid(args, kind, config, rows, cols, block);
        nowA, nowB := RunBlock(args, kind, config, rows, cols, block, nowA, nowB);
        NextBlock(GeoOf(args, kind, config, rows, cols, block), block, profileA, profileB, midA, midB, nowA, nowB);
      }
    }
  }

  // ---------- A launch covers its band ----------

  /** The grid has a block for every cell of the band: by `LaunchCoversIff` when the upper exclusion zone is empty, or
      its last block has a diagonal to spare. */
  predicate Covers(args: Args, config: Config)
    requires config.dpt > 0 && config.warps > 0 && Counted(args) > 0
  {
    args.exclusionUpper == 0
    || NumBlocks(args, config.dpt, config.Threads()) * (config.Threads() * config.dpt) > Counted(args)
  }

  /** The blocks of a grid that covers its band do on it what a launch has to do. */
  lemma CoveredIsLaunch(args: Args, kind: Kind, config: Config, rows: bool, cols: bool,
                        wasA: seq<Entry>, wasB: seq<Entry>, nowA: seq<Entry>, nowB: seq<Entry>)
    requires args.Valid() && config.dpt > 0 && config.warps > 0 && config.Width() > 0 && Counted(args) > 0
    requires args.ny > 0
    requires Covers(args, config)
    requires BlocksDone(args, kind, config.Width(), rows, cols, NumBlocks(args, config.dpt, config.Threads()),
               wasA, wasB, nowA, nowB)
    ensures LaunchDone(args, kind, Gpu, rows, cols, wasA, wasB, nowA, nowB)
  {
    hide Gathered, Args.Valid, NumBlocks, BlockOf, Args.InBand;
    var w, n := config.Width(), NumBlocks(args, config.dpt, config.Threads());
    LaunchCoversIff(args, config.dpt, config.Threads());
    SameWidth(config);
    if cols {
      forall c: nat | c < args.nx ensures Gathered(kind, args.ColDists(c), wasA[c], args.BandRows(c), nowA[c]) {
        assert ColumnBefore(args, kind, w, n, c, wasA[c], nowA[c]);
        assert RowsBefore(args, w, n, c) == args.BandRows(c);
      }
    }
    if rows {
      forall r: nat | r < args.ny ensures LaunchRow(args, kind, Gpu, r, wasB[r], nowB[r]) {
        assert RowBefore(args, kind, w, n, r, wasB[r], nowB[r]);
        assert ColsBefore(args, w, n, r) == args.BandCols(r);
      }
    }
  }

  lemma SameWidth(config: Config)
    ensures config.Threads() * config.dpt == config.Width()
  {
    assert 32 * config.warps * config.dpt == config.warps * (32 * config.dpt);
  }

  // ---------- Both halves of a tile ----------

  /** A launch can run on a GPU worker, if it runs at all: all the blocks of its grid can. */
  ghost predicate LaunchFits(args: Args, kind: Kind, config: Config, rows: bool, cols: bool)
    requires config.Valid()
  {
    args.Valid() && (Counted(args) > 0 ==>
      forall block: nat :: block < NumBlocks(args, config.dpt, config.Threads()) ==>
        CanRun(args, kind, config, rows, cols, block))
  }

  /** What a launch does: the blocks of its grid have run, or nothing has. */
  ghost predicate LaunchRan(args: Args, kind: Kind, config: Config, rows: bool, cols: bool,
                            wasA: seq<Entry>, wasB: seq<Entry>, nowA: seq<Entry>, nowB: seq<Entry>)
    requires config.Valid()
  {
    && args.Valid()
    && if Counted(args) <= 0 then nowA == wasA && nowB == wasB
       else
         && config.Width() > 0
         && BlocksDone(args, kind, config.Width(), rows, cols, NumBlocks(args, config.dpt, config.Threads()),
              wasA, wasB, nowA, nowB)
  }

  /** The same for half of a tile, whose buffers and flags are swapped when it is run transposed. */
  ghost predicate HalfFits(join: Join, t: Tile, upper: bool, hasNan: bool, cov: seq<real>, config: Config, rows: bool,
                           cols: bool)
    requires join.Valid() && Inside(join.info, t) && config.Valid()
  {
    StatsLengths(join);
    var args := TileArgs(join, t, !upper, hasNan, cov);
    if upper then LaunchFits(args, join.kind, config, rows, cols) else LaunchFits(args, join.kind, config, cols, rows)
  }

  ghost predicate HalfRan(join: Join, t: Tile, upper: bool, hasNan: bool, cov: seq<real>, config: Config,
                          rows: bool, cols: bool,
                          wasA: seq<Entry>, wasB: seq<Entry>, nowA: seq<Entry>, nowB: seq<Entry>)
    requires join.Valid() && Inside(join.info, t) && config.Valid()
  {
    StatsLengths(join);
    var args := TileArgs(join, t, !upper, hasNan, cov);
    if upper then LaunchRan(args, join.kind, config, rows, cols, wasA, wasB, nowA, nowB)
    else LaunchRan(args, join.kind, config, cols, rows, wasB, wasA, nowB, nowA)
  }

  /** The grid of a half reaches its whole band. That is a matter of sizes alone. */
  ghost predicate HalfCovered(join: Join, t: Tile, upper: bool, config: Config)
    requires join.Valid() && Inside(join.info, t) && config.Valid()
  {
    StatsLengths(join);
    var args := TileArgs(join, t, !upper, false, []);
    Counted(args) > 0 ==> Covers(args, config)
  }

  lemma CoveredAnyway(join: Join, t: Tile, upper: bool, hasNan: bool, cov: seq<real>, config: Config)
    requires join.Valid() && Inside(join.info, t) && config.Valid() && HalfCovered(join, t, upper, config)
    ensures |join.statsA.norms| == |join.statsA.df| == |join.statsA.dg| == join.info.CountA()
    ensures |join.statsB.norms| == |join.statsB.df| == |join.statsB.dg| == join.info.CountB()
    ensures
      var args := TileArgs(join, t, !upper, hasNan, cov);
      Counted(args) > 0 ==> Covers(args, config)
  {
    StatsLengths(join);
    hide Exclusions, TileCol, TileRow, Width, Height, Join.Valid;
  }

  /** The upper kernel on the tile, or the lower kernel on the transposed tile with the buffers swapped. The first
      covariances are given. A half whose grid reaches its band is done. */
  method ExecuteHalf(join: Join, t: Tile, upper: bool, cov: seq<real>, hasNan: bool, config: Config,
                     rows: bool, cols: bool, profileA: seq<Entry>, profileB: seq<Entry>)
    returns (nowA: seq<Entry>, nowB: seq<Entry>)
    requires join.Valid() && Inside(join.info, t) && NanFlagOk(join, t, hasNan) && CovFor(join, t, !upper, cov)
    requires config.Valid() && (upper || !(join.info.selfJoin && t.row == t.col))
    requires |profileA| >= Width(join.info, t) && |profileB| >= Height(join.info, t)
    requires Floored(join.kind, profileA) && Floored(join.kind, profileB)
    requires HalfFits(join, t, upper, hasNan, cov, config, rows, cols)
    ensures HalfRan(join, t, upper, hasNan, cov, config, rows, cols, profileA, profileB, nowA, nowB)
    ensures HalfCovered(join, t, upper, config) ==>
      HalfDone(join, t, Gpu, upper, rows, cols, profileA, profileB, nowA, nowB)
    ensures |nowA| == |profileA| && |nowB| == |profileB| && Floored(join.kind, nowA) && Floored(join.kind, nowB)
  {
    hide Gathered, Exclusions, NanFlagOk, CovFor, TileCol, TileRow, Width, Height, HalfDone, Floored, Args.Valid,
      LaunchDone, Config.Valid, BlocksDone, CanRun, NumBlocks, Covers, HalfCovered;
    StatsLengths(join);
    InsideIs(join.info, t);
    var args := TileArgs(join, t, !upper, hasNan, cov);
    if upper {
      nowA, nowB := Launch(args, join.kind, config, rows, cols, profileA, profileB);
    } else {
      nowB, nowA := Launch(args, join.kind, config, cols, rows, profileB, profileA);
    }
    if HalfCovered(join, t, upper, config) {
      CoveredHalf(join, t, upper, cov, hasNan, config, rows, cols, profileA, profileB, nowA, nowB);
    }
  }

  /** What a half on a grid that reaches its band has done. */
  lemma CoveredHalf(join: Join, t: Tile, upper: bool, cov: seq<real>, hasNan: bool, config: Config,
                    rows: bool, cols: bool, wasA: seq<Entry>, wasB: seq<Entry>, nowA: seq<Entry>, nowB: seq<Entry>)
    requires join.Valid() && Inside(join.info, t) && NanFlagOk(join, t, hasNan) && CovFor(join, t, !upper, cov)
    requires config.Valid() && (upper || !(join.info.selfJoin && t.row == t.col))
    requires |wasA| == |nowA| >= Width(join.info, t) && |wasB| == |nowB| >= Height(join.info, t)
    requires HalfRan(join, t, upper, hasNan, cov, config, rows, cols, wasA, wasB, nowA, nowB)
    requires HalfCovered(join, t, upper, config)
    ensures HalfDone(join, t, Gpu, upper, rows, cols, wasA, wasB, nowA, nowB)
  {
    hide Gathered, Exclusions, NanFlagOk, CovFor, TileCol, TileRow, Width, Height, HalfDone, Floored, Args.Valid,
      LaunchDone, Config.Valid, BlocksDone, NumBlocks, Covers, HalfCovered;
    StatsLengths(join);
    InsideIs(join.info, t);
    CoveredAnyway(join, t, upper, hasNan, cov, config);
    ConfigIs(config);
    var args := TileArgs(join, t, !upper, hasNan, cov);
    if Counted(args) <= 0 {
      NoLaunch(join, t, Gpu, upper, rows, cols, wasA, wasB);
    } else if upper {
      CoveredIsLaunch(args, join.kind, config, rows, cols, wasA, wasB, nowA, nowB);
      UpperDone(join, t, Gpu, hasNan, cov, rows, cols, wasA, wasB, nowA, nowB);
    } else {
      CoveredIsLaunch(args, join.kind, config, cols, rows, wasB, wasA, nowB, nowA);
      LowerDone(join, t, Gpu, hasNan, cov, rows, cols, wasA, wasB, nowA, nowB);
    }
  }

  lemma InsideIs(info: OpInfo, t: Tile)
    requires Inside(info, t)
    ensures Width(info, t) > 0 && Height(info, t) > 0
  {
  }

  lemma ConfigIs(config: Config)
    requires config.Valid()
    ensures config.dpt > 0 && config.warps > 0 && config.height > 0
  {
  }

  /** A self-join has no lower half on its diagonal. */
  predicate UpperOnly(join: Join, t: Tile) {
    join.info.selfJoin && t.row == t.col
  }

  /** A GPU worker can run a tile: both launches split no warp that adds up rows. The flag for missing norms is not
      known beforehand. */
  ghost predicate TileFits(join: Join, t: Tile, upperCov: seq<real>, lowerCov: seq<real>, config: Config, rows: bool,
                           cols: bool)
    requires join.Valid() && Inside(join.info, t) && config.Valid()
  {
    && CovFor(join, t, false, upperCov) && CovFor(join, t, true, lowerCov)
    && forall hasNan: bool :: NanFlagOk(join, t, hasNan) ==>
         && HalfFits(join, t, true, hasNan, upperCov, config, rows, cols)
         && (UpperOnly(join, t) || HalfFits(join, t, false, hasNan, lowerCov, config, rows, cols))
  }

  /** Both grids of a tile reach their bands. */
  ghost predicate TileCovered(join: Join, t: Tile, config: Config)
    requires join.Valid() && Inside(join.info, t) && config.Valid()
  {
    HalfCovered(join, t, true, config) && (UpperOnly(join, t) || HalfCovered(join, t, false, config))
  }

  /** A tile can run, whatever the first covariances look like beyond the tile's own, and reaches both of its bands. */
  ghost predicate CanRunTile(join: Join, t: Tile, config: Config, rows: bool, cols: bool)
    requires join.Valid() && Inside(join.info, t)
  {
    && config.Valid() && TileCovered(join, t, config)
    && exists upperCov: seq<real>, lowerCov: seq<real> :: TileFits(join, t, upperCov, lowerCov, config, rows, cols)
  }

  /** What a tile does on any grids: its halves have run one after the other. */
  ghost predicate TileRan(join: Join, t: Tile, upperCov: seq<real>, lowerCov: seq<real>, config: Config, rows: bool,
                          cols: bool, wasA: seq<Entry>, wasB: seq<Entry>, nowA: seq<Entry>, nowB: seq<Entry>)
    requires join.Valid() && Inside(join.info, t) && config.Valid()
  {
    exists hasNan: bool, midA: seq<Entry>, midB: seq<Entry> ::
      && NanFlagOk(join, t, hasNan)
      && HalfRan(join, t, true, hasNan, upperCov, config, rows, cols, wasA, wasB, midA, midB)
      && if UpperOnly(join, t) then nowA == midA && nowB == midB
         else HalfRan(join, t, false, hasNan, lowerCov, config, rows, cols, midA, midB, nowA, nowB)
  }

  /** A tile on a GPU worker: the upper half, then the lower half except on a self-join's diagonal. Whatever the
      threshold, nothing is dropped within the launched blocks; so nothing is missing if the grids reach the bands. */
  method ExecuteTile(join: Join, t: Tile, upperCov: seq<real>, lowerCov: seq<real>, config: Config, rows: bool,
                     cols: bool, profileA: seq<Entry>, profileB: seq<Entry>)
    returns (nowA: seq<Entry>, nowB: seq<Entry>)
    requires join.Valid() && Inside(join.info, t) && config.Valid()
    requires TileFits(join, t, upperCov, lowerCov, config, rows, cols)
    requires |profileA| >= Width(join.info, t) && |profileB| >= Height(join.info, t)
    requires Floored(join.kind, profileA) && Floored(join.kind, profileB)
    ensures TileRan(join, t, upperCov, lowerCov, config, rows, cols, profileA, profileB, nowA, nowB)
    ensures TileCovered(join, t, config) ==> TileDone(join, t, Gpu, rows, cols, profileA, profileB, nowA, nowB)
  {
    hide Gathered, NanFlagOk, CovFor, TileCol, TileRow, Width, Height, HalfDone, TileDone, Floored, HalfFits, HalfRan,
      HalfCovered, Args.Valid, Config.Valid;
    var hasNan := HasNanInput(join, t);
    nowA, nowB := ExecuteHalf(join, t, true, upperCov, hasNan, config, rows, cols, profileA, profileB);
    ghost var midA, midB := nowA, nowB;
    if UpperOnly(join, t) {
      NoLaunch(join, t, Gpu, false, rows, cols, midA, midB);
    } else {
      nowA, nowB := ExecuteHalf(join, t, false, lowerCov, hasNan, config, rows, cols, nowA, nowB);
    }
    if TileCovered(join, t, config) {
      HalvesMakeTile(join, t, Gpu, rows, cols, profileA, profileB, midA, midB, nowA, nowB);
    }
  }
}
