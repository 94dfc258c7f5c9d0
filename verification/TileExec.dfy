/**
 Running one tile on a CPU worker: the upper kernel, then the lower kernel on the transposed tile with the two
 profile buffers swapped. Every element of the buffers gathers exactly the pairs the tile evaluates.
 */
module TileExec {
  import opened Arithmetic
  import opened Profiles
  import opened Kernel
  import opened Statistics
  import opened Tiling
  import opened Joins
  import CpuKernel
  import CpuStats

  // ---------- What a tile does to its buffers ----------

  /** The distances of the tile's column `k`, by tile row. */
  ghost function ColumnDists(join: Join, t: Tile, k: nat): (d: seq<Dist>)
    requires join.Valid() && Inside(join.info, t) && k < Width(join.info, t)
    ensures |d| == Height(join.info, t)
  {
    TileBounds(join.info, t);
    seq(Height(join.info, t), r requires 0 <= r < Height(join.info, t) =>
      join.PairDist(TileCol(join.info, t) + k, TileRow(join.info, t) + r))
  }

  /** The distances of the tile's row `k`, by tile column. */
  ghost function RowDists(join: Join, t: Tile, k: nat): (d: seq<Dist>)
    requires join.Valid() && Inside(join.info, t) && k < Height(join.info, t)
    ensures |d| == Width(join.info, t)
  {
    TileBounds(join.info, t);
    seq(Width(join.info, t), c requires 0 <= c < Width(join.info, t) =>
      join.PairDist(TileCol(join.info, t) + c, TileRow(join.info, t) + k))
  }

  predicate HalfCell(info: OpInfo, t: Tile, upper: bool, i: int, j: int) {
    if upper then UpperCell(info, t, i, j) else LowerCell(info, t, i, j)
  }

  /** The rows that one of the two kernels compares column `k` with. */
  ghost function HalfRows(info: OpInfo, t: Tile, upper: bool, k: int): (s: set<int>)
    ensures forall r :: r in s <==> 0 <= r < Height(info, t) && HalfCell(info, t, upper, TileRow(info, t) + r,
      TileCol(info, t) + k)
  {
    set r | r in Range(0, Height(info, t)) && HalfCell(info, t, upper, TileRow(info, t) + r, TileCol(info, t) + k)
  }

  ghost function HalfCols(info: OpInfo, t: Tile, upper: bool, k: int): (s: set<int>)
    ensures forall c :: c in s <==> 0 <= c < Width(info, t) && HalfCell(info, t, upper, TileRow(info, t) + k,
      TileCol(info, t) + c)
  {
    set c | c in Range(0, Width(info, t)) && HalfCell(info, t, upper, TileRow(info, t) + k, TileCol(info, t) + c)
  }

  /** The rows a tile compares column `k` with. */
  ghost function TileRows(info: OpInfo, t: Tile, k: int): (s: set<int>)
    ensures forall r :: r in s <==>
      0 <= r < Height(info, t) && TileEvaluations(info, t, TileRow(info, t) + r, TileCol(info, t) + k) > 0
  {
    set r | r in Range(0, Height(info, t)) && TileEvaluations(info, t, TileRow(info, t) + r, TileCol(info, t) + k) > 0
  }

  ghost function TileCols(info: OpInfo, t: Tile, k: int): (s: set<int>)
    ensures forall c :: c in s <==>
      0 <= c < Width(info, t) && TileEvaluations(info, t, TileRow(info, t) + k, TileCol(info, t) + c) > 0
  {
    set c | c in Range(0, Width(info, t)) && TileEvaluations(info, t, TileRow(info, t) + k, TileCol(info, t) + c) > 0
  }

  // ---------- Who runs a tile ----------

  type UnrollWidth = n: nat | n >= 2 witness 2

  /** A CPU worker reduces rows in batches and thresholds a batch's sum again; a GPU worker, wherever its grid covers
      the launch, adds up every selected correlation. */
  datatype Engine = Cpu(unrollWid: UnrollWidth) | Gpu

  /** A self-join has no lower half on the diagonal, and no half runs when its exclusion zones leave no diagonal. */
  predicate Runs(info: OpInfo, t: Tile, upper: bool) {
    var ex := Exclusions(info, t, upper);
    if upper then ex.0 + ex.1 < Width(info, t) else !(info.selfJoin && t.row == t.col) && ex.0 + ex.1 < Height(info, t)
  }

  /** The stretch of its row that a half evaluates at position `k` of a side, on a tile `n` wide in its direction. */
  function Stretch(ex: (nat, nat), n: int, k: nat): (int, int) {
    (k + ex.0, Min(n, k + n - ex.1 + 1))
  }

  /** What row `k` ends too high by: the batches that the upper kernel left out. */
  ghost function UpperExcess(join: Join, t: Tile, engine: Engine, k: nat): real
    requires join.Valid() && Inside(join.info, t) && k < Height(join.info, t)
  {
    var s := Stretch(Exclusions(join.info, t, true), Width(join.info, t), k);
    if engine.Gpu? || !Runs(join.info, t, true) then 0.0
    else CpuKernel.RowExcess(join.kind, RowDists(join, t, k), s.0, s.1, engine.unrollWid)
  }

  /** The same for column `k`, a row of the transposed launch. */
  ghost function LowerExcess(join: Join, t: Tile, engine: Engine, k: nat): real
    requires join.Valid() && Inside(join.info, t) && k < Width(join.info, t)
  {
    var s := Stretch(Exclusions(join.info, t, false), Height(join.info, t), k);
    if engine.Gpu? || !Runs(join.info, t, false) then 0.0
    else CpuKernel.RowExcess(join.kind, ColumnDists(join, t, k), s.0, s.1, engine.unrollWid)
  }

  /** One kernel's contribution to both buffers. */
  ghost predicate HalfDone(join: Join, t: Tile, engine: Engine, upper: bool, rows: bool, cols: bool,
                           wasA: seq<Entry>, wasB: seq<Entry>, nowA: seq<Entry>, nowB: seq<Entry>)
    requires join.Valid() && Inside(join.info, t)
  {
    && |wasA| == |nowA| >= Width(join.info, t) && |wasB| == |nowB| >= Height(join.info, t)
    && (cols ==> forall k: nat :: k < Width(join.info, t) ==> HalfColumn(join, t, engine, upper, k, wasA[k], nowA[k]))
    && (rows ==> forall k: nat :: k < Height(join.info, t) ==> HalfRow(join, t, engine, upper, k, wasB[k], nowB[k]))
  }

  ghost predicate HalfColumn(join: Join, t: Tile, engine: Engine, upper: bool, k: nat, was: Entry, now: Entry)
    requires join.Valid() && Inside(join.info, t) && k < Width(join.info, t)
  {
    Gathered(join.kind, ColumnDists(join, t, k),
      Raised(join.kind, was, if upper then 0.0 else LowerExcess(join, t, engine, k)), HalfRows(join.info, t, upper, k),
        now)
  }

  ghost predicate HalfRow(join: Join, t: Tile, engine: Engine, upper: bool, k: nat, was: Entry, now: Entry)
    requires join.Valid() && Inside(join.info, t) && k < Height(join.info, t)
  {
    Gathered(join.kind, RowDists(join, t, k),
      Raised(join.kind, was, if upper then UpperExcess(join, t, engine, k) else 0.0), HalfCols(join.info, t, upper, k),
        now)
  }

  /** A whole tile's contribution: each buffer element gathers the pairs the tile evaluates, each once, but for the
      batches that a negative threshold drops. */
  ghost predicate TileDone(join: Join, t: Tile, engine: Engine, rows: bool, cols: bool,
                           wasA: seq<Entry>, wasB: seq<Entry>, nowA: seq<Entry>, nowB: seq<Entry>)
    requires join.Valid() && Inside(join.info, t)
  {
    && |wasA| == |nowA| >= Width(join.info, t) && |wasB| == |nowB| >= Height(join.info, t)
    && (cols ==> forall k: nat :: k < Width(join.info, t) ==> ColumnDone(join, t, engine, k, wasA[k], nowA[k]))
    && (rows ==> forall k: nat :: k < Height(join.info, t) ==> RowDone(join, t, engine, k, wasB[k], nowB[k]))
  }

  ghost predicate ColumnDone(join: Join, t: Tile, engine: Engine, k: nat, was: Entry, now: Entry)
    requires join.Valid() && Inside(join.info, t) && k < Width(join.info, t)
  {
    Gathered(join.kind, ColumnDists(join, t, k), Raised(join.kind, was, LowerExcess(join, t, engine, k)),
      TileRows(join.info, t, k), now)
  }

  ghost predicate RowDone(join: Join, t: Tile, engine: Engine, k: nat, was: Entry, now: Entry)
    requires join.Valid() && Inside(join.info, t) && k < Height(join.info, t)
  {
    Gathered(join.kind, RowDists(join, t, k), Raised(join.kind, was, UpperExcess(join, t, engine, k)),
      TileCols(join.info, t, k), now)
  }

  // ---------- One launch ----------

  /** What a launch on either kind of worker does to row `k` of its band. */
  ghost predicate LaunchRow(args: Args, kind: Kind, engine: Engine, k: nat, was: Entry, now: Entry)
    requires args.Valid() && k < args.ny
  {
    if engine.Cpu? then CpuKernel.BandRowGathered(args, kind, engine.unrollWid, k, was, now)
    else Gathered(kind, args.RowDists(k), was, args.BandCols(k), now)
  }

  /** A launch has run on its band. */
  ghost predicate LaunchDone(args: Args, kind: Kind, engine: Engine, rows: bool, cols: bool,
                             wasA: seq<Entry>, wasB: seq<Entry>, nowA: seq<Entry>, nowB: seq<Entry>)
    requires args.Valid() && args.nx <= |wasA| == |nowA| && args.ny <= |wasB| == |nowB|
  {
    && (cols ==> forall c: nat :: c < args.nx ==>
          Gathered(kind, args.ColDists(c), wasA[c], args.BandRows(c), nowA[c]))
    && (rows ==> forall r: nat :: r < args.ny ==> LaunchRow(args, kind, engine, r, wasB[r], nowB[r]))
  }

  /** A column of the upper launch, in terms of the join. */
  lemma UpperColumn(join: Join, t: Tile, engine: Engine, hasNan: bool, cov: seq<real>, k: nat, was: Entry, now: Entry)
    requires join.Valid() && Inside(join.info, t) && NanFlagOk(join, t, hasNan) && CovFor(join, t, false, cov)
    requires k < Width(join.info, t) && TileArgs(join, t, false, hasNan, cov).Valid() && Runs(join.info, t, true)
    requires
      var args := TileArgs(join, t, false, hasNan, cov);
      Gathered(join.kind, args.ColDists(k), was, args.BandRows(k), now)
    ensures HalfColumn(join, t, engine, true, k, was, now)
  {
    hide Gathered, Exclusions, NanFlagOk, CovFor, TileCol, TileRow, Width, Height, Args.DistAt, Join.PairDist;
    var args := TileArgs(join, t, false, hasNan, cov);
    var f, g := args.ColDists(k), ColumnDists(join, t, k);
    forall r | r in args.BandRows(k) ensures f[r] == g[r] {
      LaunchDist(join, t, false, hasNan, cov, r, k);
    }
    GatheredSame(join.kind, f, g, was, args.BandRows(k), now);
    assert HalfRows(join.info, t, true, k) == args.BandRows(k);
    assert Raised(join.kind, was, 0.0) == was;
  }

  /** A row of the upper launch; on a CPU with the batches it drops. */
  lemma UpperRow(join: Join, t: Tile, engine: Engine, hasNan: bool, cov: seq<real>, k: nat, was: Entry, now: Entry)
    requires join.Valid() && Inside(join.info, t) && NanFlagOk(join, t, hasNan) && CovFor(join, t, false, cov)
    requires k < Height(join.info, t) && TileArgs(join, t, false, hasNan, cov).Valid() && Runs(join.info, t, true)
    requires LaunchRow(TileArgs(join, t, false, hasNan, cov), join.kind, engine, k, was, now)
    ensures HalfRow(join, t, engine, true, k, was, now)
  {
    hide Gathered, Exclusions, NanFlagOk, CovFor, TileCol, TileRow, Width, Height, Args.DistAt, Join.PairDist,
      CpuKernel.RowExcess;
    var args := TileArgs(join, t, false, hasNan, cov);
    var f, g, s := args.RowDists(k), RowDists(join, t, k), Stretch(Exclusions(join.info, t, true), Width(join.info, t),
      k);
    forall c | c in args.BandCols(k) ensures f[c] == g[c] {
      LaunchDist(join, t, false, hasNan, cov, k, c);
    }
    if engine.Cpu? {
      CpuKernel.RowExcessSame(join.kind, f, g, s.0, s.1, engine.unrollWid);
    }
    assert Raised(join.kind, was, 0.0) == was;
    GatheredSame(join.kind, f, g, Raised(join.kind, was, UpperExcess(join, t, engine, k)), args.BandCols(k), now);
    assert HalfCols(join.info, t, true, k) == args.BandCols(k);
  }

  /** A row of the transposed launch is a column of the tile. */
  lemma LowerColumn(join: Join, t: Tile, engine: Engine, hasNan: bool, cov: seq<real>, k: nat, was: Entry, now: Entry)
    requires join.Valid() && Inside(join.info, t) && NanFlagOk(join, t, hasNan) && CovFor(join, t, true, cov)
    requires k < Width(join.info, t) && TileArgs(join, t, true, hasNan, cov).Valid() && Runs(join.info, t, false)
    requires LaunchRow(TileArgs(join, t, true, hasNan, cov), join.kind, engine, k, was, now)
    ensures HalfColumn(join, t, engine, false, k, was, now)
  {
    hide Gathered, Exclusions, NanFlagOk, CovFor, TileCol, TileRow, Width, Height, Args.DistAt, Join.PairDist,
      CpuKernel.RowExcess;
    var args := TileArgs(join, t, true, hasNan, cov);
    var f, g, s := args.RowDists(k), ColumnDists(join, t, k),
      Stretch(Exclusions(join.info, t, false), Height(join.info, t), k);
    forall c | c in args.BandCols(k) ensures f[c] == g[c] {
      LaunchDist(join, t, true, hasNan, cov, k, c);
    }
    if engine.Cpu? {
      CpuKernel.RowExcessSame(join.kind, f, g, s.0, s.1, engine.unrollWid);
    }
    assert Raised(join.kind, was, 0.0) == was;
    GatheredSame(join.kind, f, g, Raised(join.kind, was, LowerExcess(join, t, engine, k)), args.BandCols(k), now);
    assert HalfRows(join.info, t, false, k) == args.BandCols(k);
  }

  /** A column of the transposed launch is a row of the tile. */
  lemma LowerRow(join: Join, t: Tile, engine: Engine, hasNan: bool, cov: seq<real>, k: nat, was: Entry, now: Entry)
    requires join.Valid() && Inside(join.info, t) && NanFlagOk(join, t, hasNan) && CovFor(join, t, true, cov)
    requires k < Height(join.info, t) && TileArgs(join, t, true, hasNan, cov).Valid() && Runs(join.info, t, false)
    requires
      var args := TileArgs(join, t, true, hasNan, cov);
      Gathered(join.kind, args.ColDists(k), was, args.BandRows(k), now)
    ensures HalfRow(join, t, engine, false, k, was, now)
  {
    hide Gathered, Exclusions, NanFlagOk, CovFor, TileCol, TileRow, Width, Height, Args.DistAt, Join.PairDist;
    var args := TileArgs(join, t, true, hasNan, cov);
    var f, g := args.ColDists(k), RowDists(join, t, k);
    forall r | r in args.BandRows(k) ensures f[r] == g[r] {
      LaunchDist(join, t, true, hasNan, cov, r, k);
    }
    GatheredSame(join.kind, f, g, was, args.BandRows(k), now);
    assert HalfCols(join.info, t, false, k) == args.BandRows(k);
    assert Raised(join.kind, was, 0.0) == was;
  }

  /** A half that does not run evaluates nothing. */
  lemma NoLaunch(join: Join, t: Tile, engine: Engine, upper: bool, rows: bool, cols: bool, a: seq<Entry>, b: seq<Entry>)
    requires join.Valid() && Inside(join.info, t) && |a| >= Width(join.info, t) && |b| >= Height(join.info, t)
    requires !Runs(join.info, t, upper)
    ensures HalfDone(join, t, engine, upper, rows, cols, a, b, a, b)
  {
    hide Gathered, Exclusions, TileCol, TileRow, Width, Height;
    forall k: nat | k < Width(join.info, t) ensures HalfColumn(join, t, engine, upper, k, a[k], a[k]) {
      assert HalfRows(join.info, t, upper, k) == {};
      GatherNothing(join.kind, ColumnDists(join, t, k), a[k]);
      assert Raised(join.kind, a[k], 0.0) == a[k];
    }
    forall k: nat | k < Height(join.info, t) ensures HalfRow(join, t, engine, upper, k, b[k], b[k]) {
      assert HalfCols(join.info, t, upper, k) == {};
      GatherNothing(join.kind, RowDists(join, t, k), b[k]);
      assert Raised(join.kind, b[k], 0.0) == b[k];
    }
  }

  lemma UpperDone(join: Join, t: Tile, engine: Engine, hasNan: bool, cov: seq<real>, rows: bool, cols: bool,
                  wasA: seq<Entry>, wasB: seq<Entry>, nowA: seq<Entry>, nowB: seq<Entry>)
    requires join.Valid() && Inside(join.info, t) && NanFlagOk(join, t, hasNan) && CovFor(join, t, false, cov)
    requires TileArgs(join, t, false, hasNan, cov).Valid() && Runs(join.info, t, true)
    requires |wasA| == |nowA| >= Width(join.info, t) && |wasB| == |nowB| >= Height(join.info, t)
    requires LaunchDone(TileArgs(join, t, false, hasNan, cov), join.kind, engine, rows, cols, wasA, wasB, nowA, nowB)
    ensures HalfDone(join, t, engine, true, rows, cols, wasA, wasB, nowA, nowB)
  {
    hide Gathered, Exclusions, NanFlagOk, CovFor, TileCol, TileRow, Width, Height, Args.DistAt, Join.PairDist,
      LaunchRow, HalfColumn, HalfRow, Runs;
    if cols {
      forall k: nat | k < Width(join.info, t) ensures HalfColumn(join, t, engine, true, k, wasA[k], nowA[k]) {
        UpperColumn(join, t, engine, hasNan, cov, k, wasA[k], nowA[k]);
      }
    }
    if rows {
      forall k: nat | k < Height(join.info, t) ensures HalfRow(join, t, engine, true, k, wasB[k], nowB[k]) {
        UpperRow(join, t, engine, hasNan, cov, k, wasB[k], nowB[k]);
      }
    }
  }

  /** The transposed launch: its columns are the tile's rows, and its flags are swapped. */
  lemma LowerDone(join: Join, t: Tile, engine: Engine, hasNan: bool, cov: seq<real>, rows: bool, cols: bool,
                  wasA: seq<Entry>, wasB: seq<Entry>, nowA: seq<Entry>, nowB: seq<Entry>)
    requires join.Valid() && Inside(join.info, t) && NanFlagOk(join, t, hasNan) && CovFor(join, t, true, cov)
    requires TileArgs(join, t, true, hasNan, cov).Valid() && Runs(join.info, t, false)
    requires |wasA| == |nowA| >= Width(join.info, t) && |wasB| == |nowB| >= Height(join.info, t)
    requires LaunchDone(TileArgs(join, t, true, hasNan, cov), join.kind, engine, cols, rows, wasB, wasA, nowB, nowA)
    ensures HalfDone(join, t, engine, false, rows, cols, wasA, wasB, nowA, nowB)
  {
    hide Gathered, Exclusions, NanFlagOk, CovFor, TileCol, TileRow, Width, Height, Args.DistAt, Join.PairDist,
      LaunchRow, HalfColumn, HalfRow, Runs;
    if cols {
      forall k: nat | k < Width(join.info, t) ensures HalfColumn(join, t, engine, false, k, wasA[k], nowA[k]) {
        LowerColumn(join, t, engine, hasNan, cov, k, wasA[k], nowA[k]);
      }
    }
    if rows {
      forall k: nat | k < Height(join.info, t) ensures HalfRow(join, t, engine, false, k, wasB[k], nowB[k]) {
        LowerRow(join, t, engine, hasNan, cov, k, wasB[k], nowB[k]);
      }
    }
  }

  // ---------- Both halves ----------

  /** A sum never counts a pair in both halves: one of the two leaves out the shared diagonal. */
  lemma HalvesDisjointForSums(info: OpInfo, t: Tile, i: int, j: int)
    requires info.Valid() && Inside(info, t) && info.sumProfile
    ensures !(UpperCell(info, t, i, j) && LowerCell(info, t, i, j))
  {
    hide Width, Height, TileCol, TileRow;
  }

  lemma HalvesMakeColumn(join: Join, t: Tile, engine: Engine, k: nat, was: Entry, mid: Entry, now: Entry)
    requires join.Valid() && Inside(join.info, t) && k < Width(join.info, t)
    requires HalfColumn(join, t, engine, true, k, was, mid) && HalfColumn(join, t, engine, false, k, mid, now)
    ensures ColumnDone(join, t, engine, k, was, now)
  {
    hide Gathered, UpperCell, LowerCell, TileCol, TileRow, Width, Height, ColumnDists, LowerExcess;
    var f, first, second := ColumnDists(join, t, k), HalfRows(join.info, t, true, k), HalfRows(join.info, t, false, k);
    if join.kind.SumThresh? {
      forall r | r in first ensures r !in second {
        HalvesDisjointForSums(join.info, t, TileRow(join.info, t) + r, TileCol(join.info, t) + k);
      }
    }
    assert Raised(join.kind, was, 0.0) == was;
    GatherRaised(join.kind, f, was, first, mid, LowerExcess(join, t, engine, k));
    GatherThen(join.kind, f, Raised(join.kind, was, LowerExcess(join, t, engine, k)), first,
      Raised(join.kind, mid, LowerExcess(join, t, engine, k)), second, now);
    assert TileRows(join.info, t, k) == first + second;
  }

  lemma HalvesMakeRow(join: Join, t: Tile, engine: Engine, k: nat, was: Entry, mid: Entry, now: Entry)
    requires join.Valid() && Inside(join.info, t) && k < Height(join.info, t)
    requires HalfRow(join, t, engine, true, k, was, mid) && HalfRow(join, t, engine, false, k, mid, now)
    ensures RowDone(join, t, engine, k, was, now)
  {
    hide Gathered, UpperCell, LowerCell, TileCol, TileRow, Width, Height, RowDists, UpperExcess;
    var f, first, second := RowDists(join, t, k), HalfCols(join.info, t, true, k), HalfCols(join.info, t, false, k);
    if join.kind.SumThresh? {
      forall c | c in first ensures c !in second {
        HalvesDisjointForSums(join.info, t, TileRow(join.info, t) + k, TileCol(join.info, t) + c);
      }
    }
    assert Raised(join.kind, mid, 0.0) == mid;
    GatherThen(join.kind, f, Raised(join.kind, was, UpperExcess(join, t, engine, k)), first, mid, second, now);
    assert TileCols(join.info, t, k) == first + second;
  }

  lemma HalvesMakeTile(join: Join, t: Tile, engine: Engine, rows: bool, cols: bool, wasA: seq<Entry>, wasB: seq<Entry>,
                       midA: seq<Entry>, midB: seq<Entry>, nowA: seq<Entry>, nowB: seq<Entry>)
    requires join.Valid() && Inside(join.info, t)
    requires HalfDone(join, t, engine, true, rows, cols, wasA, wasB, midA, midB)
    requires HalfDone(join, t, engine, false, rows, cols, midA, midB, nowA, nowB)
    ensures TileDone(join, t, engine, rows, cols, wasA, wasB, nowA, nowB)
  {
    hide HalfColumn, HalfRow, ColumnDone, RowDone, Width, Height;
    if cols {
      forall k: nat | k < Width(join.info, t) ensures ColumnDone(join, t, engine, k, wasA[k], nowA[k]) {
        HalvesMakeColumn(join, t, engine, k, wasA[k], midA[k], nowA[k]);
      }
    }
    if rows {
      forall k: nat | k < Height(join.info, t) ensures RowDone(join, t, engine, k, wasB[k], nowB[k]) {
        HalvesMakeRow(join, t, engine, k, wasB[k], midB[k], nowB[k]);
      }
    }
  }

  // ---------- Precomputing ----------

  /** What the samples of a series determine: the series, with everything that is not finite replaced by zero, and which
      windows have a norm. Those that hold a sample that is not finite have none, nor have flat ones. */
  ghost predicate FromSamples(samples: seq<CpuStats.Sample>, w: nat, ts: seq<real>, s: Stats) {
    && 0 < w <= |samples| == |ts| && StatsFor(ts, w, s)
    && (forall i :: 0 <= i < |ts| ==> ts[i] == if samples[i].Finite? then samples[i].x else 0.0)
    && (forall i :: 0 <= i < |s.norms| ==>
          (s.norms[i].Flat? <==> (exists j :: i <= j < i + w && samples[j].NonFinite?)
                                 || SquaredDifferences(ts, i, w) <= 0.0000000000001))
    && (forall i :: 0 <= i < |s.norms| && s.norms[i].Inverse? ==> IsInverseNorm(s.norms[i].x, ts, i, w))
  }

  /** The statistics of one series, from its samples. */
  method Precompute(samples: seq<CpuStats.Sample>, w: nat, highPrecision: bool, round: real -> real, sqrt: real -> real)
      returns (ts: seq<real>, s: Stats)
    requires 0 < w <= |samples| && CpuStats.IsSquareRoot(sqrt)
    ensures FromSamples(samples, w, ts, s)
  {
    hide Mean, SquaredDifferences, Df, Dg, IsInverseNorm;
    var clean, nanvals := CpuStats.ConvertNonFiniteToZero(samples, w);
    ts := clean[..];
    var means, norms, df, dg, nanIdxs := CpuStats.ComputeStatistics(ts, nanvals[..], w, highPrecision, round, sqrt);
    s := Stats(norms[..], df[..], dg[..], nanIdxs);
  }

  // ---------- Executing a tile ----------

  /** Does the tile hold a subsequence without a norm? The scan covers the tile's whole stretch of each series. */
  method HasNanInput(join: Join, t: Tile) returns (found: bool)
    requires join.Valid() && Inside(join.info, t)
    ensures NanFlagOk(join, t, found)
    ensures found <==>
      || AnyIn(join.statsA.nanIdxs, TileCol(join.info, t), Width(join.info, t) + join.info.mpWindow - 1)
      || AnyIn(join.statsB.nanIdxs, TileRow(join.info, t), Height(join.info, t) + join.info.mpWindow - 1)
  {
    var col, row := TileCol(join.info, t), TileRow(join.info, t);
    var width, height := Width(join.info, t) + join.info.mpWindow - 1, Height(join.info, t) + join.info.mpWindow - 1;
    found := Scan(join.statsA.nanIdxs, col, width);
    if !found {
      found := Scan(join.statsB.nanIdxs, row, height);
    }
  }

  ghost predicate AnyIn(idxs: seq<int>, start: nat, length: int) {
    exists k :: 0 <= k < |idxs| && start <= idxs[k] < start + length
  }

  method Scan(idxs: seq<int>, start: nat, length: int) returns (found: bool)
    ensures found <==> AnyIn(idxs, start, length)
  {
    for k := 0 to |idxs|
      invariant forall i :: 0 <= i < k ==> !(start <= idxs[i] < start + length)
    {
      if start <= idxs[k] < start + length {
        return true;
      }
    }
    found := false;
  }

  /** Whether two stretches of samples agree. */
  ghost predicate Holds(buffer: seq<real>, ts: seq<real>, from: nat, length: int) {
    0 <= length <= |buffer| && from + length <= |ts| && forall i :: 0 <= i < length ==> buffer[i] == ts[from + i]
  }

  lemma {:induction false} SumMoves(buffer: seq<real>, ts: seq<real>, from: nat, length: int, i: nat, w: nat)
    requires Holds(buffer, ts, from, length) && i + w <= length
    ensures Sum(buffer, i, w) == Sum(ts, from + i, w)
  {
    if w > 0 {
      SumMoves(buffer, ts, from, length, i, w - 1);
      assert buffer[i + w - 1] == ts[from + (i + w - 1)];
    }
  }

  lemma {:induction false} DotMoves(a: seq<real>, ta: seq<real>, p: nat, m: int, i: nat, b: seq<real>, tb: seq<real>,
                                    q: nat, n: int, j: nat,
                                    w: nat, x: real, y: real)
    requires Holds(a, ta, p, m) && i + w <= m && Holds(b, tb, q, n) && j + w <= n
    ensures Dot(a, i, b, j, w, x, y) == Dot(ta, p + i, tb, q + j, w, x, y)
  {
    if w > 0 {
      DotMoves(a, ta, p, m, i, b, tb, q, n, j, w - 1, x, y);
      assert a[i + w - 1] == ta[p + (i + w - 1)] && b[j + w - 1] == tb[q + (j + w - 1)];
    }
  }

  /** The covariances computed from the tile's copies of the series are those of the series. */
  lemma CovMoves(a: seq<real>, ta: seq<real>, p: nat, m: int, i: nat, b: seq<real>, tb: seq<real>, q: nat, n: int,
                 w: nat)
    requires w > 0 && Holds(a, ta, p, m) && i + w <= m && Holds(b, tb, q, n) && w <= n
    ensures CentredDot(a, i, b, 0, w) == CentredDot(ta, p + i, tb, q, w)
  {
    hide Sum, Dot;
    SumMoves(a, ta, p, m, i, w);
    SumMoves(b, tb, q, n, 0, w);
    DotMoves(a, ta, p, m, i, b, tb, q, n, 0, w, Mean(a, i, w), Mean(b, 0, w));
  }

  /** The tile's copies of the two series; what lies behind the tile's own stretch does not matter. */
  ghost predicate SeriesLoaded(join: Join, t: Tile, tA: seq<real>, tB: seq<real>)
    requires join.Valid()
  {
    && |tA| == |tB| == join.info.maxTileTsSize
    && Holds(tA, join.a, TileCol(join.info, t), Width(join.info, t) + join.info.mpWindow - 1)
    && Holds(tB, join.b, TileRow(join.info, t), Height(join.info, t) + join.info.mpWindow - 1)
  }

  /** The first covariances of one half, from the tile's copies of the series. */
  method FirstCovariances(join: Join, t: Tile, transpose: bool, tA: seq<real>, tB: seq<real>) returns (qt: array<real>)
    requires join.Valid() && Inside(join.info, t) && SeriesLoaded(join, t, tA, tB)
    ensures fresh(qt) && CovFor(join, t, transpose, qt[..])
  {
    var info := join.info;
    if transpose {
      qt := CpuStats.ComputeQT(info.maxTileTsSize, info.mpWindow, tB, tA);
    } else {
      qt := CpuStats.ComputeQT(info.maxTileTsSize, info.mpWindow, tA, tB);
    }
    CovarianceOfBuffers(join, t, transpose, tA, tB, qt[..]);
  }

  lemma CovarianceOfBuffers(join: Join, t: Tile, transpose: bool, tA: seq<real>, tB: seq<real>, qt: seq<real>)
    requires join.Valid() && Inside(join.info, t) && SeriesLoaded(join, t, tA, tB)
    requires |qt| == join.info.maxTileWidth
    requires forall i :: 0 <= i < |qt| ==>
      qt[i] == if transpose then CentredDot(tB, i, tA, 0, join.info.mpWindow)
        else CentredDot(tA, i, tB, 0, join.info.mpWindow)
    ensures CovFor(join, t, transpose, qt)
  {
    hide CentredDot, Holds, TileCol, TileRow, Width, Height;
    var info := join.info;
    var col, row, w, width, height := TileCol(info, t), TileRow(info, t), info.mpWindow, Width(info, t),
      Height(info, t);
    TileBounds(info, t);
    if transpose {
      forall c | 0 <= c < height ensures qt[c] == CentredDot(join.b, row + c, join.a, col, w) {
        CovMoves(tB, join.b, row, height + w - 1, c, tA, join.a, col, width + w - 1, w);
      }
    } else {
      forall c | 0 <= c < width ensures qt[c] == CentredDot(join.a, col + c, join.b, row, w) {
        CovMoves(tA, join.a, col, width + w - 1, c, tB, join.b, row, height + w - 1, w);
      }
    }
  }

  /** The upper kernel on the tile, or the lower kernel on the transposed tile with the buffers swapped. */
  method ExecuteHalf(join: Join, t: Tile, upper: bool, tA: seq<real>, tB: seq<real>, hasNan: bool,
                     unrollWid: UnrollWidth, rows: bool, cols: bool, profileA: array<Entry>, profileB: array<Entry>)
    requires join.Valid() && Inside(join.info, t) && SeriesLoaded(join, t, tA, tB) && NanFlagOk(join, t, hasNan)
    requires PowerOfTwo(unrollWid) && profileA != profileB
    requires upper || !(join.info.selfJoin && t.row == t.col)
    requires profileA.Length >= Width(join.info, t) && profileB.Length >= Height(join.info, t)
    requires Floored(join.kind, profileA[..]) && Floored(join.kind, profileB[..])
    modifies profileA, profileB
    ensures HalfDone(join, t, Cpu(unrollWid), upper, rows, cols, old(profileA[..]), old(profileB[..]), profileA[..],
      profileB[..])
    ensures Floored(join.kind, profileA[..]) && Floored(join.kind, profileB[..])
  {
    hide Gathered, Exclusions, NanFlagOk, CovFor, TileCol, TileRow, Width, Height, HalfDone, SeriesLoaded, Floored,
      CpuKernel.BandGathered, Args.Valid, LaunchDone;
    var cov := FirstCovariances(join, t, !upper, tA, tB);
    ghost var wasA, wasB := profileA[..], profileB[..];
    StatsLengths(join);
    var args := TileArgs(join, t, !upper, hasNan, cov[..]);
    ArgsAreFromSeries(join, t, !upper, hasNan, cov[..]);
    CovLongEnough(join, t, !upper, cov[..]);
    if upper {
      CpuKernel.Launch(args, join.kind, unrollWid, rows, cols, cov, profileA, profileB);
    } else {
      CpuKernel.Launch(args, join.kind, unrollWid, cols, rows, cov, profileB, profileA);
    }
    if args.exclusionLower + args.exclusionUpper >= args.nx {
      NoLaunch(join, t, Cpu(unrollWid), upper, rows, cols, wasA, wasB);
    } else if upper {
      BandIsLaunch(args, join.kind, unrollWid, rows, cols, wasA, wasB, profileA[..], profileB[..]);
      UpperDone(join, t, Cpu(unrollWid), hasNan, args.cov0, rows, cols, wasA, wasB, profileA[..], profileB[..]);
    } else {
      BandIsLaunch(args, join.kind, unrollWid, cols, rows, wasB, wasA, profileB[..], profileA[..]);
      LowerDone(join, t, Cpu(unrollWid), hasNan, args.cov0, rows, cols, wasA, wasB, profileA[..], profileB[..]);
    }
  }

  lemma BandIsLaunch(args: Args, kind: Kind, unroll: UnrollWidth, rows: bool, cols: bool,
                     wasA: seq<Entry>, wasB: seq<Entry>, nowA: seq<Entry>, nowB: seq<Entry>)
    requires args.Valid() && args.nx <= |wasA| == |nowA| && args.ny <= |wasB| == |nowB|
    requires CpuKernel.BandGathered(args, kind, unroll, rows, cols, wasA, wasB, nowA, nowB)
    ensures LaunchDone(args, kind, Cpu(unroll), rows, cols, wasA, wasB, nowA, nowB)
  {
    hide Gathered, CpuKernel.BandRowGathered;
  }

  lemma CovLongEnough(join: Join, t: Tile, transpose: bool, cov: seq<real>)
    requires join.Valid() && Inside(join.info, t) && CovFor(join, t, transpose, cov)
    ensures |cov| >= if transpose then Height(join.info, t) else Width(join.info, t)
  {
  }

  /** A tile of a join: the upper half, then the lower half except on a self-join's diagonal. */
  method ExecuteTile(join: Join, t: Tile, tA: seq<real>, tB: seq<real>, unrollWid: UnrollWidth, rows: bool, cols: bool,
                     profileA: array<Entry>, profileB: array<Entry>)
    requires join.Valid() && Inside(join.info, t) && SeriesLoaded(join, t, tA, tB)
    requires PowerOfTwo(unrollWid) && profileA != profileB
    requires profileA.Length >= Width(join.info, t) && profileB.Length >= Height(join.info, t)
    requires Floored(join.kind, profileA[..]) && Floored(join.kind, profileB[..])
    modifies profileA, profileB
    ensures TileDone(join, t, Cpu(unrollWid), rows, cols, old(profileA[..]), old(profileB[..]), profileA[..],
      profileB[..])
  {
    hide Gathered, NanFlagOk, TileCol, TileRow, Width, Height, HalfDone, TileDone, SeriesLoaded, Floored;
    var hasNan := HasNanInput(join, t);
    ghost var wasA, wasB := profileA[..], profileB[..];
    ExecuteHalf(join, t, true, tA, tB, hasNan, unrollWid, rows, cols, profileA, profileB);
    ghost var midA, midB := profileA[..], profileB[..];
    if join.info.selfJoin && t.row == t.col {
      NoLaunch(join, t, Cpu(unrollWid), false, rows, cols, midA, midB);
    } else {
      ExecuteHalf(join, t, false, tA, tB, hasNan, unrollWid, rows, cols, profileA, profileB);
    }
    HalvesMakeTile(join, t, Cpu(unrollWid), rows, cols, wasA, wasB, midA, midB, profileA[..], profileB[..]);
  }
}
