/**
 A join from end to end: the schedule's tiles, run by any number of workers in any interleaving, leave in every
 profile element what the join's own definition asks for; and exactly when they do not.
 */
module JoinProfile {
  import opened Profiles
  import opened Kernel
  import opened Statistics
  import opened Tiling
  import opened Coverage
  import opened Joins
  import opened TileExec
  import opened JoinPlan
  import opened JoinSlots
  import CpuKernel
  import GpuLaunch
  import W = Workers
  import P = WorkersProgress

  /** Every tile that is given to a GPU worker can run there, on the kernel and grid chosen for it. */
  ghost predicate GpuWorkersFit(x: Setup)
    requires x.Valid()
  {
    AllInside(x.join.info, x.queue);
    forall q: nat :: q < |x.queue| && x.engines[q].Gpu? ==>
      q in x.grids && GpuLaunch.CanRunTile(x.join, x.queue[q], x.grids[q], x.mode.rows, true)
  }

  /** A run of the workers on a join's tiles after which all of them have left. */
  ghost predicate FinishedRun(x: Setup, run: seq<W.State>) {
    && x.Valid() && GpuWorkersFit(x) && Enumerates(x.join.info, x.queue)
    && (PlanIsValid(x); W.Run(MakePlan(x), run)) && P.Finished(P.Last(run))
  }

  /** A fresh element of the global profile. */
  function Fresh(kind: Kind): Entry {
    Entry(InitDist(kind), -1)
  }

  // ---------- What a negative threshold drops ----------

  /** What all the tiles together add to slot `s` beyond the selected correlations. */
  ghost function Excess(x: Setup, s: nat): real
    requires x.Valid()
  {
    P.TotalExcess(MakePlan(x), s)
  }

  /** The lower kernel drops no batch of the tile's column `k`. */
  ghost predicate ColumnKept(join: Join, t: Tile, engine: Engine, k: nat)
    requires join.Valid() && Inside(join.info, t) && k < Width(join.info, t)
  {
    var s := Stretch(Exclusions(join.info, t, false), Height(join.info, t), k);
    engine.Cpu? && Runs(join.info, t, false) ==>
      CpuKernel.NoBatchDropped(join.kind, ColumnDists(join, t, k), s.0, s.1, engine.unrollWid)
  }

  /** The upper kernel drops no batch of the tile's row `k`. */
  ghost predicate RowKept(join: Join, t: Tile, engine: Engine, k: nat)
    requires join.Valid() && Inside(join.info, t) && k < Height(join.info, t)
  {
    var s := Stretch(Exclusions(join.info, t, true), Width(join.info, t), k);
    engine.Cpu? && Runs(join.info, t, true) ==>
      CpuKernel.NoBatchDropped(join.kind, TileExec.RowDists(join, t, k), s.0, s.1, engine.unrollWid)
  }

  lemma ColumnKeptIff(join: Join, t: Tile, engine: Engine, k: nat)
    requires join.Valid() && Inside(join.info, t) && k < Width(join.info, t)
    ensures LowerExcess(join, t, engine, k) >= 0.0
    ensures LowerExcess(join, t, engine, k) == 0.0 <==> ColumnKept(join, t, engine, k)
  {
    hide CpuKernel.RowExcess, CpuKernel.NoBatchDropped, Width, Height, Exclusions, ColumnDists, Join.Valid;
    if engine.Cpu? {
      var s := Stretch(Exclusions(join.info, t, false), Height(join.info, t), k);
      CpuKernel.RowExcessSign(join.kind, ColumnDists(join, t, k), s.0, s.1, engine.unrollWid);
    }
  }

  lemma RowKeptIff(join: Join, t: Tile, engine: Engine, k: nat)
    requires join.Valid() && Inside(join.info, t) && k < Height(join.info, t)
    ensures UpperExcess(join, t, engine, k) >= 0.0
    ensures UpperExcess(join, t, engine, k) == 0.0 <==> RowKept(join, t, engine, k)
  {
    hide CpuKernel.RowExcess, CpuKernel.NoBatchDropped, Width, Height, Exclusions, TileExec.RowDists, Join.Valid;
    if engine.Cpu? {
      var s := Stretch(Exclusions(join.info, t, true), Width(join.info, t), k);
      CpuKernel.RowExcessSign(join.kind, TileExec.RowDists(join, t, k), s.0, s.1, engine.unrollWid);
    }
  }

  /** No worker drops a batch of tile `q` that belongs to slot `s`. */
  ghost predicate TileKeeps(x: Setup, q: nat, s: nat)
    requires x.Valid() && q < |x.queue| && Inside(x.join.info, x.queue[q])
  {
    var info, t, engine := x.join.info, x.queue[q], x.engines[q];
    && (forall k: nat :: k < Width(info, t) && TileCol(info, t) + k == s ==> ColumnKept(x.join, t, engine, k))
    && (RowsMerged(info, x.mode) ==>
          forall k: nat :: k < Height(info, t) && RowBase(info, x.mode) + TileRow(info, t) + k == s ==>
            RowKept(x.join, t, engine, k))
  }

  ghost predicate NothingDropped(x: Setup, s: nat)
    requires x.Valid()
  {
    AllInside(x.join.info, x.queue);
    forall q: nat :: q < |x.queue| ==> TileKeeps(x, q, s)
  }

  lemma ElemExcess(x: Setup, q: nat, e: nat)
    requires x.Valid() && q < |MakePlan(x).tiles| && q < |x.queue| && e < |MakePlan(x).tiles[q].elems|
    ensures Inside(x.join.info, x.queue[q])
    ensures
      var t, engine, el := x.queue[q], x.engines[q], MakePlan(x).tiles[q].elems[e];
      && el.excess >= 0.0
      && if e < Width(x.join.info, t) then
           el.slot == TileCol(x.join.info, t) + e && (el.excess == 0.0 <==> ColumnKept(x.join, t, engine, e))
         else
           var k := e - Width(x.join.info, t);
           && RowsMerged(x.join.info, x.mode) && k < Height(x.join.info, t)
           && el.slot == RowBase(x.join.info, x.mode) + TileRow(x.join.info, t) + k
           && (el.excess == 0.0 <==> RowKept(x.join, t, engine, k))
  {
    hide *;
    JoinIsValid(x);
    PlanTile(x, q);
    var t, engine := x.queue[q], x.engines[q];
    ElemIs(x.join, x.mode, t, engine, e);
    if e < Width(x.join.info, t) {
      ColElemShape(x.join, t, engine, e);
      ColumnKeptIff(x.join, t, engine, e);
    } else {
      RowElemShape(x.join, x.mode, t, engine, e - Width(x.join.info, t));
      RowKeptIff(x.join, t, engine, e - Width(x.join.info, t));
    }
  }

  /** The elements of tile `q` that go to slot `s` have no excess. */
  ghost predicate TileAddsNothing(plan: W.Plan, q: nat, s: nat)
    requires q < |plan.tiles|
  {
    forall e :: 0 <= e < |plan.tiles[q].elems| && plan.tiles[q].elems[e].slot == s ==>
      plan.tiles[q].elems[e].excess == 0.0
  }

  lemma TileKeepsIff(x: Setup, q: nat, s: nat)
    requires x.Valid() && q < |x.queue|
    ensures Inside(x.join.info, x.queue[q]) && q < |MakePlan(x).tiles|
    ensures TileKeeps(x, q, s) <==> TileAddsNothing(MakePlan(x), q, s)
  {
    JoinIsValid(x);
    PlanShape(x);
    PlanTile(x, q);
    var info, t, engine, plan := x.join.info, x.queue[q], x.engines[q], MakePlan(x);
    TileShape(x.join, x.mode, t, engine);
    InsideIs(info, t);
    hide ColumnKept, RowKept, MakePlan, TilePlan, Setup.Valid, Join.Valid, AllNeeded, Width, Height, TileCol, TileRow,
      RowBase, RowsMerged, Inside;
    if TileKeeps(x, q, s) {
      forall e: nat | e < |plan.tiles[q].elems| && plan.tiles[q].elems[e].slot == s
        ensures plan.tiles[q].elems[e].excess == 0.0
      {
        ElemExcess(x, q, e);
      }
    }
    if TileAddsNothing(plan, q, s) {
      forall k: nat | k < Width(info, t) && TileCol(info, t) + k == s ensures ColumnKept(x.join, t, engine, k) {
        ElemExcess(x, q, k);
      }
      if RowsMerged(info, x.mode) {
        forall k: nat | k < Height(info, t) && RowBase(info, x.mode) + TileRow(info, t) + k == s
          ensures RowKept(x.join, t, engine, k)
        {
          ElemExcess(x, q, Width(info, t) + k);
        }
      }
    }
  }

  /** A whole join's sum never ends below the exact one, and it ends there if and only if no batch is dropped. */
  lemma ExcessIff(x: Setup, s: nat)
    requires x.Valid()
    ensures Excess(x, s) >= 0.0
    ensures Excess(x, s) == 0.0 <==> NothingDropped(x, s)
  {
    JoinIsValid(x);
    PlanShape(x);
    AllInside(x.join.info, x.queue);
    var plan := MakePlan(x);
    hide MakePlan, Setup.Valid, Join.Valid, AllNeeded, TileKeeps, Inside, Width, Height, ColumnKept, RowKept;
    forall q: nat, e: nat | q < |plan.tiles| && e < |plan.tiles[q].elems| ensures plan.tiles[q].elems[e].excess >= 0.0 {
      ElemExcess(x, q, e);
    }
    P.ExcessSign(plan, |plan.tiles|, s);
    forall q: nat | q < |x.queue| ensures TileKeeps(x, q, s) <==> TileAddsNothing(plan, q, s) {
      TileKeepsIff(x, q, s);
    }
    if NothingDropped(x, s) {
      forall q: nat, e: nat | q < |plan.tiles| && e < |plan.tiles[q].elems| && plan.tiles[q].elems[e].slot == s
        ensures plan.tiles[q].elems[e].excess == 0.0
      {
        assert TileKeeps(x, q, s);
      }
    }
  }

  /** No correlation of the join is below -1. */
  ghost predicate AtLeastMinusOne(join: Join)
    requires join.Valid()
  {
    forall j: nat, i: nat :: j < join.info.CountA() && i < join.info.CountB() && join.PairDist(j, i).Corr? ==>
      join.PairDist(j, i).v >= -1.0
  }

  /** A worker that never drops a batch: any for a maximum, a GPU worker for a sum, a CPU worker when the threshold is
      not negative, or too low for any batch. */
  ghost predicate EngineExact(join: Join, engine: Engine)
    requires join.Valid()
  {
    engine.Cpu? && join.kind.SumThresh? ==>
      join.kind.threshold >= 0.0 || (join.kind.threshold < -(engine.unrollWid as real) && AtLeastMinusOne(join))
  }

  lemma ExactEngineKeepsColumn(join: Join, t: Tile, engine: Engine, k: nat)
    requires join.Valid() && Inside(join.info, t) && k < Width(join.info, t) && EngineExact(join, engine)
    ensures ColumnKept(join, t, engine, k)
  {
    TileBounds(join.info, t);
    hide Width, Height, TileCol, TileRow, Exclusions, Join.Valid, Join.PairDist, CpuKernel.RowExcess,
      CpuKernel.NoBatchDropped;
    if engine.Cpu? {
      var s := Stretch(Exclusions(join.info, t, false), Height(join.info, t), k);
      CpuKernel.NoExcess(join.kind, ColumnDists(join, t, k), s.0, s.1, engine.unrollWid);
      CpuKernel.RowExcessSign(join.kind, ColumnDists(join, t, k), s.0, s.1, engine.unrollWid);
    }
  }

  lemma ExactEngineKeepsRow(join: Join, t: Tile, engine: Engine, k: nat)
    requires join.Valid() && Inside(join.info, t) && k < Height(join.info, t) && EngineExact(join, engine)
    ensures RowKept(join, t, engine, k)
  {
    TileBounds(join.info, t);
    hide Width, Height, TileCol, TileRow, Exclusions, Join.Valid, Join.PairDist, CpuKernel.RowExcess,
      CpuKernel.NoBatchDropped;
    if engine.Cpu? {
      var s := Stretch(Exclusions(join.info, t, true), Width(join.info, t), k);
      CpuKernel.NoExcess(join.kind, TileExec.RowDists(join, t, k), s.0, s.1, engine.unrollWid);
      CpuKernel.RowExcessSign(join.kind, TileExec.RowDists(join, t, k), s.0, s.1, engine.unrollWid);
    }
  }

  /** When every worker is exact, nothing is dropped anywhere. */
  lemma ExactWorkersDropNothing(x: Setup, s: nat)
    requires x.Valid() && forall q :: 0 <= q < |x.engines| ==> EngineExact(x.join, x.engines[q])
    ensures NothingDropped(x, s) && Excess(x, s) == 0.0
  {
    ExcessIff(x, s);
    JoinIsValid(x);
    AllInside(x.join.info, x.queue);
    hide EngineExact, ColumnKept, RowKept, Excess, Width, Height, TileCol, TileRow, RowBase, RowsMerged, Inside,
      AllNeeded, Join.Valid;
    forall q: nat | q < |x.queue| ensures TileKeeps(x, q, s) {
      var info, t, engine := x.join.info, x.queue[q], x.engines[q];
      forall k: nat | k < Width(info, t) ensures ColumnKept(x.join, t, engine, k) {
        ExactEngineKeepsColumn(x.join, t, engine, k);
      }
      forall k: nat | k < Height(info, t) ensures RowKept(x.join, t, engine, k) {
        ExactEngineKeepsRow(x.join, t, engine, k);
      }
    }
  }

  // ---------- Main results ----------

  /** Any element whose copies are harmless ends with what the tiles compare it with. */
  lemma FinalSlot(x: Setup, run: seq<W.State>, s: nat)
    requires FinishedRun(x, run) && s < NumSlots(x.join.info, x.mode)
    requires (PlanIsValid(x); MakePlan(x).SlotExact(s))
    ensures |run| > 0 && s < |P.Last(run).profile| && s < x.join.info.CountA() + x.join.info.CountB()
    ensures Gathered(x.join.kind, SlotDists(x.join, s), Raised(x.join.kind, Fresh(x.join.kind), Excess(x, s)),
              P.Compared(MakePlan(x), s), P.Last(run).profile[s])
  {
    hide *;
    RunParts(x, run);
    StatsLengths(x.join);
    PlanShape(x);
    PlanSlot(x, s);
    ExcessIs(x, s);
    P.FinalProfile(MakePlan(x), run, s);
  }

  lemma RunParts(x: Setup, run: seq<W.State>)
    requires FinishedRun(x, run)
    ensures x.Valid() && x.join.Valid() && Enumerates(x.join.info, x.queue) && MakePlan(x).Valid()
    ensures W.Run(MakePlan(x), run) && |run| > 0 && P.Finished(P.Last(run))
  {
    hide MakePlan, Enumerates, P.Finished, W.Plan.Valid, W.Init, Join.Valid;
    PlanIsValid(x);
  }

  lemma ExcessIs(x: Setup, s: nat)
    requires x.Valid()
    ensures Excess(x, s) == P.TotalExcess(MakePlan(x), s)
    ensures Fresh(x.join.kind) == Entry(InitDist(x.join.kind), -1)
  {
  }

  lemma FinalColumn(x: Setup, run: seq<W.State>, j: nat)
    requires FinishedRun(x, run) && j < x.join.info.CountA()
    ensures |run| > 0 && j < |P.Last(run).profile|
    ensures Gathered(x.join.kind, SlotDists(x.join, j), Raised(x.join.kind, Fresh(x.join.kind), Excess(x, j)),
              P.Compared(MakePlan(x), j), P.Last(run).profile[j])
  {
    hide Gathered, MakePlan, Enumerates, AllNeeded, P.Compared, W.Plan.Valid, P.Finished, Excess, W.Run, P.Last;
    RunParts(x, run);
    ColumnOwnsSlot(x, j);
    W.OwnSlotIsExact(MakePlan(x), j);
    FinalSlot(x, run, j);
  }

  /** A self-join from end to end: whatever the tile size, the kinds and number of workers and their interleaving,
      every element of the final profile has gathered its correlations with all subsequences outside its exclusion
      zone, each exactly once, and with no other. A sum is too high by exactly what the CPU workers have dropped. */
  lemma SelfJoinProfile(x: Setup, run: seq<W.State>, s: nat)
    requires FinishedRun(x, run) && Shared(x.join.info, x.mode) && s < x.join.info.CountA()
    ensures |run| > 0 && s < |P.Last(run).profile|
    ensures Gathered(x.join.kind, SlotDists(x.join, s), Raised(x.join.kind, Fresh(x.join.kind), Excess(x, s)),
              Neighbours(x.join.info, s), P.Last(run).profile[s])
    ensures Excess(x, s) >= 0.0 && (Excess(x, s) == 0.0 <==> NothingDropped(x, s))
  {
    hide Gathered, MakePlan, Enumerates, P.Compared, W.Plan.Valid, P.Finished, Neighbours, Excess, NothingDropped,
      W.Run, P.Last;
    FinalColumn(x, run, s);
    SelfJoinCompares(x, s);
    ExcessIff(x, s);
  }

  /** For a sum that means: the final value is exact if and only if no CPU worker has dropped a batch. */
  lemma SelfJoinSumExactIff(x: Setup, run: seq<W.State>, s: nat)
    requires FinishedRun(x, run) && Shared(x.join.info, x.mode) && s < x.join.info.CountA() && x.join.kind.SumThresh?
    ensures |run| > 0 && s < |P.Last(run).profile|
    ensures Gathered(x.join.kind, SlotDists(x.join, s), Fresh(x.join.kind), Neighbours(x.join.info, s),
      P.Last(run).profile[s])
       <==> NothingDropped(x, s)
  {
    hide SumBelow, MakePlan, Enumerates, W.Plan.Valid, P.Finished, Neighbours, Excess, NothingDropped, W.Run, P.Last,
      SlotDists;
    SelfJoinProfile(x, run, s);
  }

  /** Row `i` of a profile of its own has gathered exactly the columns the join asks for. */
  ghost predicate RowGathered(x: Setup, run: seq<W.State>, i: nat)
    requires x.Valid() && |run| > 0 && i < x.join.info.CountB()
  {
    var n := x.join.info.CountA();
    && n + i < |P.Last(run).profile|
    && Gathered(x.join.kind, SlotDists(x.join, n + i), Raised(x.join.kind, Fresh(x.join.kind), Excess(x, n + i)),
         ColsComparedWith(x.join.info, i), P.Last(run).profile[n + i])
  }

  /** A join whose rows do not share the profile of its columns: every column gathers exactly the pairs that the join
      asks for, each once. So does every row, when rows are computed and kept, unless a self-join without an index has
      several tiles, which then copy their row buffers from the wrong profile. */
  lemma SeparateProfiles(x: Setup, run: seq<W.State>, j: nat, i: nat)
    requires FinishedRun(x, run) && !Shared(x.join.info, x.mode) && Covered(x.join.info)
    requires j < x.join.info.CountA() && i < x.join.info.CountB()
    ensures |run| > 0 && j < |P.Last(run).profile|
    ensures Gathered(x.join.kind, SlotDists(x.join, j), Raised(x.join.kind, Fresh(x.join.kind), Excess(x, j)),
              RowsComparedWith(x.join.info, j), P.Last(run).profile[j])
    ensures x.mode.rows && x.mode.keepRows
            && (x.join.kind.SumThresh? || SeedsMatch(x.join.info, x.mode) || OneTile(x.join.info)) ==>
              RowGathered(x, run, i)
  {
    hide Gathered, MakePlan, Enumerates, P.Compared, W.Plan.Valid, P.Finished, RowsComparedWith, Excess, W.Run, P.Last,
      Covered, Shared, RowGathered, SeedsMatch, OneTile;
    FinalColumn(x, run, j);
    ComparesColumn(x, j);
    if x.mode.rows && x.mode.keepRows
       && (x.join.kind.SumThresh? || SeedsMatch(x.join.info, x.mode) || OneTile(x.join.info)) {
      KeptRow(x, run, i);
    }
  }

  lemma KeptRow(x: Setup, run: seq<W.State>, i: nat)
    requires FinishedRun(x, run) && Covered(x.join.info) && i < x.join.info.CountB() && x.mode.rows && x.mode.keepRows
    requires x.join.kind.SumThresh? || SeedsMatch(x.join.info, x.mode) || OneTile(x.join.info)
    ensures |run| > 0 && RowGathered(x, run, i)
  {
    hide Gathered, MakePlan, Enumerates, P.Compared, W.Plan.Valid, P.Finished, ColsComparedWith, Excess, W.Run, P.Last,
      Covered, SeedsMatch, OneTile, W.Plan.SlotExact;
    RowSlotExact(x, i);
    FinalSlot(x, run, x.join.info.CountA() + i);
    ComparesRow(x, i);
  }

  // ---------- Copying from the wrong profile ----------

  /** In every finished run every kept row is right. */
  ghost predicate KeptRowsExact(x: Setup)
    requires x.Valid()
  {
    forall run: seq<W.State>, i: nat :: FinishedRun(x, run) && i < x.join.info.CountB() ==> RowGathered(x, run, i)
  }

  lemma InQueue(info: OpInfo, queue: seq<Tile>, t: Tile) returns (q: nat)
    requires info.Valid() && Enumerates(info, queue) && Needed(info, t)
    ensures q < |queue| && queue[q] == t
  {
    assert multiset(queue)[t] == 1;
    assert t in queue;
    q :| 0 <= q < |queue| && queue[q] == t;
  }

  /** The tiles of the pairs (first, last) and (last, last) when there are several. */
  lemma CornerTiles(info: OpInfo)
    requires info.Valid() && info.selfJoin && info.CountA() > info.maxTileWidth
    ensures
      var last := info.CountA() - 1;
      var t, t' := Home(info, last, last), Home(info, 0, last);
      && Needed(info, t) && Needed(info, t') && t != t'
      && TileRow(info, t) <= last < TileRow(info, t) + Height(info, t)
      && TileCol(info, t') <= last < TileCol(info, t') + Width(info, t')
      && TileEvaluations(info, t', 0, last) > 0
  {
    hide TileEvaluations, Width, Height;
    var last := info.CountA() - 1;
    HomeBounds(info, last, last);
    HomeBounds(info, 0, last);
    DivAtLeast(info.maxTileWidth, last, info.maxTileWidth);
    DivOfSelf(info.maxTileWidth);
    DivAtLeast(0, last, info.maxTileWidth);
    SelfJoinFullTile(info, 0, last);
  }

  lemma DivOfSelf(t: nat)
    requires t > 0
    ensures t / t == 1 && 0 / t == 0
  {
  }

  /** With several tiles, a self-join without an index puts a value of its column profile into a kept row that has
      nothing to gather: the last subsequence has no neighbour to its right. */
  lemma WrongCopy(x: Setup) returns (run: seq<W.State>)
    requires x.Valid() && GpuWorkersFit(x) && Enumerates(x.join.info, x.queue)
    requires x.join.info.selfJoin && x.join.kind.Nearest?
    requires x.mode.rows && x.mode.keepRows && !x.mode.indexed && !OneTile(x.join.info)
    requires x.join.PairDist(x.join.info.CountA() - 1, 0).Corr? && x.join.PairDist(x.join.info.CountA() - 1, 0).v > -2.0
    ensures FinishedRun(x, run) && |run| > 0
    ensures !RowGathered(x, run, x.join.info.CountB() - 1)
  {
    hide *;
    JoinIsValid(x);
    StatsLengths(x.join);
    PlanIsValid(x);
    PlanShape(x);
    var info, plan := x.join.info, MakePlan(x);
    SeveralTiles(info);
    var last: nat := info.CountA() - 1;
    CornerTiles(info);
    var q := InQueue(info, x.queue, Home(info, last, last));
    var q' := InQueue(info, x.queue, Home(info, 0, last));
    SelfJoinSlots(info, x.mode);
    var e := RowElemOf(x, q, last);
    var e' := ColumnElem(x, q', last);
    ColumnOwnsSlot(x, last);
    W.OwnSlotIsExact(plan, last);
    W.ElemIsValid(plan, q, e);
    W.ElemIsValid(plan, q', e');
    PlanSlot(x, last);
    SlotDistsOfColumn(x.join, x.mode, last, 0);
    run := P.CopyLeaks(plan, q, e, q', e', 0);
    IsFinishedRun(x, run);
    NotGathered(x, run, last, x.join.PairDist(last, 0).v);
  }

  lemma SeveralTiles(info: OpInfo)
    requires info.Valid() && info.selfJoin && !OneTile(info)
    ensures info.CountA() > info.maxTileWidth && info.CountA() == info.CountB()
  {
  }

  lemma SelfJoinSlots(info: OpInfo, m: Mode)
    requires info.Valid() && info.selfJoin && m.rows && m.keepRows && !m.indexed
    ensures RowsMerged(info, m) && RowBase(info, m) == info.CountA() && SeedBase(info, m) == 0
    ensures NumSlots(info, m) == info.CountA() + info.CountB()
  {
  }

  lemma IsFinishedRun(x: Setup, run: seq<W.State>)
    requires x.Valid() && GpuWorkersFit(x) && Enumerates(x.join.info, x.queue)
    requires (PlanIsValid(x); W.Run(MakePlan(x), run)) && P.Finished(P.Last(run))
    ensures FinishedRun(x, run) && |run| > 0
  {
  }

  lemma NotGathered(x: Setup, run: seq<W.State>, i: nat, v: real)
    requires x.Valid() && x.join.kind.Nearest? && x.join.info.selfJoin && i == x.join.info.CountB() - 1 && |run| > 0
    requires x.join.info.CountA() + i < |P.Last(run).profile|
    requires P.Last(run).profile[x.join.info.CountA() + i].value >= v > -2.0
    ensures !RowGathered(x, run, i)
  {
    hide SlotDists, Excess, Join.Valid, AllNeeded, P.Last;
    StatsLengths(x.join);
    assert ColsComparedWith(x.join.info, i) == {};
  }

  /** When the first and the last subsequence have a correlation, all runs leave the kept rows of a maximum right if
      and only if its buffers are copied from its own profile, or there is a single tile. */
  lemma KeptRowsExactIff(x: Setup)
    requires x.Valid() && GpuWorkersFit(x) && Enumerates(x.join.info, x.queue) && Covered(x.join.info)
    requires x.join.kind.Nearest? && x.mode.rows && x.mode.keepRows
    requires x.join.PairDist(x.join.info.CountA() - 1, 0).Corr? && x.join.PairDist(x.join.info.CountA() - 1, 0).v > -2.0
    ensures KeptRowsExact(x) <==> SeedsMatch(x.join.info, x.mode) || OneTile(x.join.info)
  {
    hide MakePlan, Enumerates, FinishedRun, RowGathered, Covered, OneTile, Join.PairDist, W.Run, P.Finished,
      Setup.Valid;
    if SeedsMatch(x.join.info, x.mode) || OneTile(x.join.info) {
      forall run: seq<W.State>, i: nat | FinishedRun(x, run) && i < x.join.info.CountB()
        ensures |run| > 0 && RowGathered(x, run, i)
      {
        KeptRow(x, run, i);
      }
    } else {
      var run := WrongCopy(x);
      LastRow(x);
    }
  }

  lemma LastRow(x: Setup)
    requires x.Valid()
    ensures x.join.info.CountB() - 1 >= 0
  {
  }

  // ---------- The matrix profile ----------

  /** The norms are those that the precomputation leaves: inverse norms wherever there is one. */
  ghost predicate Precomputed(join: Join)
    requires join.Valid()
  {
    && (forall j :: 0 <= j < join.info.CountA() && join.statsA.norms[j].Inverse? ==>
          IsInverseNorm(join.statsA.norms[j].x, join.a, j, join.info.mpWindow))
    && (forall i :: 0 <= i < join.info.CountB() && join.statsB.norms[i].Inverse? ==>
          IsInverseNorm(join.statsB.norms[i].x, join.b, i, join.info.mpWindow))
  }

  /** Rounding keeps the order and does not take a correlation down to the initial value. */
  ghost predicate GoodCast(cast: real -> real) {
    (forall u, v :: u <= v ==> cast(u) <= cast(v)) && cast(-1.0) > -2.0
  }

  predicate HasNorms(join: Join, j: nat, i: nat)
    requires j < |join.statsA.norms| && i < |join.statsB.norms|
  {
    join.statsA.norms[j].Inverse? && join.statsB.norms[i].Inverse?
  }

  /** The correlation of two subsequences before it is rounded. */
  ghost function Exact(join: Join, j: nat, i: nat): real
    requires join.Valid() && j < join.info.CountA() && i < join.info.CountB() && HasNorms(join, j, i)
  {
    CentredDot(join.a, j, join.b, i, join.info.mpWindow) * join.statsA.norms[j].x * join.statsB.norms[i].x
  }

  /** `Exact` is the Pearson correlation, so it lies in [-1, 1] and rounding it never hides it. */
  lemma ExactIsPearson(join: Join, j: nat, i: nat)
    requires join.Valid() && Precomputed(join) && j < join.info.CountA() && i < join.info.CountB()
    requires HasNorms(join, j, i)
    ensures
      var w := join.info.mpWindow;
      IsPearson(Exact(join, j, i), CentredDot(join.a, j, join.b, i, w),
        SquaredDifferences(join.a, j, w), SquaredDifferences(join.b, i, w))
    ensures -1.0 <= Exact(join, j, i) <= 1.0
    ensures join.PairDist(j, i) == Corr(join.cast(Exact(join, j, i)))
  {
    hide SquaredDifferences, CentredDot, IsPearson, IsInverseNorm;
    var w, u, v := join.info.mpWindow, join.statsA.norms[j].x, join.statsB.norms[i].x;
    CorrelationIsPearson(join.a, j, join.b, i, w, u, v, Exact(join, j, i));
    CorrelationRange(join.a, j, join.b, i, w, u, v);
    PairDistIs(join, j, i);
  }

  lemma PairDistIs(join: Join, j: nat, i: nat)
    requires join.Valid() && j < join.info.CountA() && i < join.info.CountB() && HasNorms(join, j, i)
    ensures join.PairDist(j, i) == Corr(join.cast(Exact(join, j, i)))
  {
    hide CentredDot, Join.Valid;
  }

  /** A precomputed join never has a correlation below -1, if rounding keeps -1. */
  lemma PrecomputedAtLeastMinusOne(join: Join)
    requires join.Valid() && Precomputed(join) && GoodCast(join.cast) && join.cast(-1.0) >= -1.0
    ensures AtLeastMinusOne(join)
  {
    hide Precomputed, CentredDot;
    forall j: nat, i: nat | j < join.info.CountA() && i < join.info.CountB() && join.PairDist(j, i).Corr?
      ensures join.PairDist(j, i).v >= -1.0
    {
      ExactIsPearson(join, j, i);
    }
  }

  /** Element `best` holds the largest of the Pearson correlations of subsequence `s`, rounded, and where it is. */
  ghost predicate IsMatrixProfileEntry(join: Join, s: nat, best: Entry)
    requires join.Valid() && s < join.info.CountA() && join.info.selfJoin
  {
    && 0 <= best.index < join.info.CountA() && Apart(join.info, best.index, s) && HasNorms(join, s, best.index)
    && best.value == join.cast(Exact(join, s, best.index))
    && forall g: nat :: g < join.info.CountA() && Apart(join.info, g, s) && HasNorms(join, s, g) ==>
         join.cast(Exact(join, s, g)) <= best.value
  }

  /** The matrix profile itself: a join built from precomputed statistics ends, for every subsequence that has a norm
      and a neighbour with one outside its zone, with its largest Pearson correlation and where it is attained. */
  lemma SelfJoinMaximum(x: Setup, run: seq<W.State>, s: nat, g: nat)
    requires FinishedRun(x, run) && Shared(x.join.info, x.mode) && s < x.join.info.CountA() && x.join.kind.Nearest?
    requires Precomputed(x.join) && GoodCast(x.join.cast)
    requires g < x.join.info.CountA() && Apart(x.join.info, g, s) && HasNorms(x.join, s, g)
    ensures |run| > 0 && s < |P.Last(run).profile|
    ensures IsMatrixProfileEntry(x.join, s, P.Last(run).profile[s])
  {
    SelfJoinProfile(x, run, s);
    hide *;
    JoinIsValid(x);
    StatsLengths(x.join);
    BestIsEntry(x.join, s, g, P.Last(run).profile[s]);
  }

  lemma BestIsEntry(join: Join, s: nat, g: nat, best: Entry)
    requires join.Valid() && join.info.selfJoin && s < join.info.CountA() && join.kind.Nearest?
    requires Precomputed(join) && GoodCast(join.cast)
    requires g < join.info.CountA() && Apart(join.info, g, s) && HasNorms(join, s, g)
    requires Gathered(join.kind, SlotDists(join, s), Raised(join.kind, Fresh(join.kind), 0.0), Neighbours(join.info, s),
      best)
    ensures IsMatrixProfileEntry(join, s, best)
  {
    StatsLengths(join);
    hide Precomputed, Exact, Join.PairDist, IsPearson, Join.Valid, CentredDot;
    var f := SlotDists(join, s);
    forall h: nat | h < join.info.CountA() && Apart(join.info, h, s) && HasNorms(join, s, h)
      ensures h in Neighbours(join.info, s) && f[h] == Corr(join.cast(Exact(join, s, h))) && f[h].v > -2.0
    {
      ExactIsPearson(join, s, h);
    }
    assert best.value >= f[g].v;
    var b := best.index;
    assert b in Neighbours(join.info, s) && f[b] == join.PairDist(s, b);
    HasCorrelation(join, s, b);
    ExactIsPearson(join, s, b);
  }

  lemma HasCorrelation(join: Join, j: nat, i: nat)
    requires join.Valid() && j < join.info.CountA() && i < join.info.CountB() && join.PairDist(j, i).Corr?
    ensures HasNorms(join, j, i)
  {
  }

  // ---------- A concrete wrong row ----------

  /** Nine samples of a square wave: every window of four has mean 0 and norm 1/2. */
  ghost function Wave(): (a: seq<real>)
    ensures |a| == 9
  {
    [1.0, 1.0, -1.0, -1.0, 1.0, 1.0, -1.0, -1.0, 1.0]
  }

  lemma FourUnits(a: seq<real>, i: nat)
    requires i + 4 <= |a| && a[i] + a[i + 1] + a[i + 2] + a[i + 3] == 0.0
    requires forall k :: i <= k < i + 4 ==> a[k] == 1.0 || a[k] == -1.0
    ensures IsInverseNorm(0.5, a, i, 4)
  {
    assert Sum(a, i, 1) == a[i];
    assert Sum(a, i, 2) == a[i] + a[i + 1];
    assert Sum(a, i, 3) == a[i] + a[i + 1] + a[i + 2];
    assert Sum(a, i, 4) == 0.0 && Mean(a, i, 4) == 0.0;
    assert Dot(a, i, a, i, 1, 0.0, 0.0) == 1.0;
    assert Dot(a, i, a, i, 2, 0.0, 0.0) == 2.0;
    assert Dot(a, i, a, i, 3, 0.0, 0.0) == 3.0;
    assert Dot(a, i, a, i, 4, 0.0, 0.0) == 4.0;
  }

  lemma WaveWindow(i: nat)
    requires i <= 5
    ensures IsInverseNorm(0.5, Wave(), i, 4)
  {
    hide IsInverseNorm;
    var a := Wave();
    assert forall k :: 0 <= k < 9 ==> a[k] == if k % 4 < 2 then 1.0 else -1.0;
    FourUnits(a, i);
  }

  /** Its self-join with window 4, in tiles of five subsequences. */
  ghost function WaveInfo(): OpInfo {
    OpInfo(9, 9, 4, 8, 5, 5, -1, -1, true, false, false)
  }

  lemma WaveInfoIs()
    ensures WaveInfo().Valid() && WaveInfo().CountA() == WaveInfo().CountB() == 6 && !OneTile(WaveInfo())
    ensures WaveInfo().mpWindow == 4 && WaveInfo().fullTsLenA == WaveInfo().fullTsLenB == 9
    ensures WaveInfo().selfJoin && !WaveInfo().sumProfile
  {
  }

  ghost function WaveTiles(): (tiles: seq<Tile>)
    ensures |tiles| == 3
  {
    [Tile(0, 0), Tile(0, 1), Tile(1, 1)]
  }

  lemma WaveIsEnumerated()
    ensures WaveInfo().Valid() && Enumerates(WaveInfo(), WaveTiles())
  {
    assert NumTiles(6, 5) == 2;
    assert multiset(WaveTiles()) == multiset{Tile(0, 0), Tile(0, 1), Tile(1, 1)};
    hide WaveTiles, NumTiles;
    forall t: Tile ensures multiset(WaveTiles())[t] == if Needed(WaveInfo(), t) then 1 else 0 {
    }
  }

  /** Statistics of a series all of whose windows have the same norm. */
  ghost function EvenStats(a: seq<real>, w: nat, norm: real): Stats
    requires 0 < w <= |a|
  {
    var n := |a| - w;
    Stats(seq(n + 1, _ => Inverse(norm)), seq(n + 1, i requires 0 <= i <= n => if i < n then Df(a, i, w) else 0.0),
      seq(n + 1, i requires 0 <= i <= n => if i < n then Dg(a, i, w) else 0.0), [])
  }

  lemma EvenStatsFit(a: seq<real>, w: nat, norm: real)
    requires 0 < w <= |a|
    ensures StatsFor(a, w, EvenStats(a, w, norm))
    ensures forall i :: 0 <= i <= |a| - w ==> EvenStats(a, w, norm).norms[i] == Inverse(norm)
  {
    hide Df, Dg;
  }

  lemma EvenJoinIsValid(join: Join, norm: real)
    requires join.info.Valid() && join.info.selfJoin && !join.info.sumProfile && join.kind == Nearest
    requires join.a == join.b && |join.a| == join.info.fullTsLenA
    requires join.statsA == join.statsB == EvenStats(join.a, join.info.mpWindow, norm)
    requires forall i :: 0 <= i <= |join.a| - join.info.mpWindow ==> IsInverseNorm(norm, join.a, i, join.info.mpWindow)
    ensures join.Valid() && Precomputed(join)
    ensures forall j: nat, i: nat :: j < join.info.CountA() && i < join.info.CountB() ==> HasNorms(join, j, i)
  {
    EvenStatsFit(join.a, join.info.mpWindow, norm);
    hide EvenStats, IsInverseNorm;
  }

  ghost function WaveJoin(): Join {
    Join(WaveInfo(), Nearest, Wave(), Wave(), EvenStats(Wave(), 4, 0.5), EvenStats(Wave(), 4, 0.5), x => x)
  }

  lemma WaveJoinIs()
    ensures
      var join := WaveJoin();
      && join.info == WaveInfo() && join.kind == Nearest && join.a == join.b == Wave()
      && join.statsA == join.statsB == EvenStats(Wave(), 4, 0.5)
      && forall v: real {:trigger join.cast(v)} :: join.cast(v) == v
  {
    hide WaveInfo, Wave, EvenStats;
  }

  lemma IsSetup(x: Setup)
    requires x.join.Valid() && AllNeeded(x.join.info, x.queue) && |x.engines| == |x.queue|
    ensures x.Valid()
  {
  }

  lemma AllCpu(x: Setup)
    requires x.Valid() && forall q :: 0 <= q < |x.engines| ==> x.engines[q].Cpu?
    ensures GpuWorkersFit(x)
  {
  }

  /** A whole run whose last kept row is wrong, though all statistics are exact. */
  lemma WrongCopyExample() returns (x: Setup, run: seq<W.State>)
    ensures FinishedRun(x, run) && |run| > 0 && Precomputed(x.join) && x.mode == Mode(true, true, false)
    ensures x.join.a == Wave() && x.join.info == WaveInfo() && x.join.info.CountB() == 6
    ensures !RowGathered(x, run, 5)
  {
    hide *;
    WaveInfoIs();
    WaveJoinIs();
    WaveIsEnumerated();
    var join := WaveJoin();
    forall i | 0 <= i <= 9 - 4 ensures IsInverseNorm(0.5, join.a, i, 4) {
      WaveWindow(i);
    }
    EvenJoinIsValid(join, 0.5);
    x := Setup(join, Mode(true, true, false), WaveTiles(), [Cpu(2), Cpu(2), Cpu(2)], map[]);
    QueueIsNeeded(join.info, x.queue);
    IsSetup(x);
    AllCpu(x);
    ExactIsPearson(join, 5, 0);
    run := WrongCopy(x);
  }

  // ---------- A series joined with itself ----------

  /** Joining a series with itself as an aligned AB-join, with rows or without, gives the self-join's profile, value for
      value; for sums, once what either has dropped is taken off. */
  lemma AlignedJoinEqualsSelfJoin(self: Setup, selfRun: seq<W.State>, ab: Setup, abRun: seq<W.State>, s: nat)
    requires FinishedRun(self, selfRun) && Shared(self.join.info, self.mode)
    requires FinishedRun(ab, abRun) && AlignedLocal(ab.join.info)
    requires self.join.a == ab.join.a == ab.join.b && self.join.statsA == ab.join.statsA == ab.join.statsB
    requires self.join.kind == ab.join.kind && self.join.cast == ab.join.cast
    requires self.join.info.mpWindow == ab.join.info.mpWindow && s < self.join.info.CountA()
    ensures |selfRun| > 0 && |abRun| > 0 && s < |P.Last(selfRun).profile| && s < |P.Last(abRun).profile|
    ensures
      var x, y := P.Last(selfRun).profile[s].value, P.Last(abRun).profile[s].value;
      if self.join.kind.Nearest? then x == y else x - Excess(self, s) == y - Excess(ab, s)
  {
    hide *;
    RunSetup(self, selfRun);
    RunSetup(ab, abRun);
    SameSlotDists(self.join, ab.join, s);
    SameNeighbours(self.join.info, ab.join.info, s);
    SelfJoinProfile(self, selfRun, s);
    SeparateProfiles(ab, abRun, s, s);
    GatheredFromStarts(self.join.kind, SlotDists(self.join, s), Excess(self, s), Excess(ab, s),
      Neighbours(self.join.info, s),
      P.Last(selfRun).profile[s], P.Last(abRun).profile[s]);
  }

  lemma RunSetup(x: Setup, run: seq<W.State>)
    requires FinishedRun(x, run)
    ensures x.Valid() && x.join.Valid() && x.join.info.Valid() && x.join.info.CountA() >= 0 && x.join.info.CountB() >= 0
    ensures Shared(x.join.info, x.mode) ==> x.join.info.selfJoin
    ensures AlignedLocal(x.join.info) ==> !Shared(x.join.info, x.mode) && Covered(x.join.info)
                                          && x.join.info.CountA() == x.join.info.CountB()
  {
  }

  lemma SameNeighbours(self: OpInfo, ab: OpInfo, s: nat)
    requires self.Valid() && self.selfJoin && ab.Valid() && AlignedLocal(ab) && s < self.CountA()
    requires self.mpWindow == ab.mpWindow && self.CountA() == ab.CountA()
    ensures Neighbours(self, s) == RowsComparedWith(ab, s)
  {
  }

  lemma GatheredFromStarts(kind: Kind, f: seq<Dist>, u: real, v: real, cells: set<int>, one: Entry, other: Entry)
    requires Gathered(kind, f, Raised(kind, Fresh(kind), u), cells, one)
    requires Gathered(kind, f, Raised(kind, Fresh(kind), v), cells, other)
    ensures if kind.Nearest? then one.value == other.value else one.value - u == other.value - v
  {
    if kind.Nearest? {
      GatheredValueUnique(kind, f, Fresh(kind), cells, one, other);
    }
  }

  lemma SameSlotDists(self: Join, ab: Join, s: nat)
    requires self.Valid() && self.info.selfJoin && ab.Valid() && AlignedLocal(ab.info)
    requires self.a == ab.a == ab.b && self.statsA == ab.statsA == ab.statsB && self.cast == ab.cast
    requires self.info.mpWindow == ab.info.mpWindow && s < self.info.CountA()
    ensures s < ab.info.CountA() == self.info.CountA() && SlotDists(self, s) == SlotDists(ab, s)
  {
    hide CentredDot;
    forall g: nat | g < self.info.CountA() ensures SlotDists(self, s)[g] == SlotDists(ab, s)[g] {
      assert self.PairDist(s, g) == ab.PairDist(s, g);
    }
    assert SlotDists(self, s) == SlotDists(ab, s);
  }
}
