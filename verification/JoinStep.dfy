/**
 A worker's compute step carried out: from any state that a run of a join can reach, running the tile on the kernel of
 its worker takes exactly the step that the protocol allows.
 */
module JoinStep {
  import opened Profiles
  import opened Tiling
  import opened Joins
  import opened TileExec
  import opened JoinPlan
  import GpuLaunch
  import W = Workers
  import P = WorkersProgress

  /** Worker `w` of the last state of a run of the join is about to run tile `q` on the buffer `buf`. */
  ghost predicate AboutToRun(x: Setup, run: seq<W.State>, w: nat, q: nat, buf: seq<Entry>) {
    && x.Valid() && Enumerates(x.join.info, x.queue) && q < |x.queue|
    && (PlanIsValid(x); W.Run(MakePlan(x), run))
    && w < |P.Last(run).workers| && P.Last(run).workers[w] == W.Computing(q, buf)
  }

  /** What a worker needs beside its buffers: on a CPU the tile's copies of the series, on a GPU the first covariances
      and grids on which both halves can run and that reach their bands. */
  ghost predicate Equipped(x: Setup, q: nat, tA: seq<real>, tB: seq<real>, upperCov: seq<real>, lowerCov: seq<real>)
    requires x.Valid() && q < |x.queue| && Inside(x.join.info, x.queue[q])
  {
    var t := x.queue[q];
    match x.engines[q]
    case Cpu(unrollWid) => PowerOfTwo(unrollWid) && SeriesLoaded(x.join, t, tA, tB)
    case Gpu =>
      && q in x.grids && x.grids[q].Valid()
      && GpuLaunch.TileFits(x.join, t, upperCov, lowerCov, x.grids[q], x.mode.rows, true)
      && GpuLaunch.TileCovered(x.join, t, x.grids[q])
  }

  /** The state after the worker has run its tile. */
  function Ran(s: W.State, w: nat, q: nat, buf: seq<Entry>): W.State
    requires w < |s.workers|
  {
    s.(workers := s.workers[w := W.Merging(q, 0, buf, -1, W.NotLoaded)])
  }

  /** The buffers of a tile that is about to be run have its size and hold nothing below the initial value. */
  lemma BufferReady(x: Setup, run: seq<W.State>, w: nat, q: nat, buf: seq<Entry>)
    requires AboutToRun(x, run, w, q, buf)
    ensures Inside(x.join.info, x.queue[q]) && Floored(x.join.kind, buf)
    ensures
      var info, t := x.join.info, x.queue[q];
      |buf| == Width(info, t) + if RowsMerged(info, x.mode) then Height(info, t) else 0
  {
    PlanIsValid(x);
    var plan, s := MakePlan(x), P.Last(run);
    W.RunKeepsInv(plan, run, |run| - 1);
    P.BuffersAreFloored(plan, run, |run| - 1);
    ComputingShape(plan, s, w);
    hide *;
    JoinIsValid(x);
    PlanShape(x);
    PlanTile(x, q);
    TileShape(x.join, x.mode, x.queue[q], x.engines[q]);
  }

  lemma ComputingShape(plan: W.Plan, s: W.State, w: nat)
    requires plan.Valid() && W.Inv(plan, s) && P.AllFloored(plan, s) && w < |s.workers| && s.workers[w].Computing?
    ensures s.workers[w].t < |plan.tiles| && |s.workers[w].buf| == |plan.tiles[s.workers[w].t].elems|
    ensures Floored(plan.kind, s.workers[w].buf)
  {
    assert W.WorkerOk(plan, s, w);
    assert P.CopiesFloored(plan.kind, s.workers[w]);
  }

  /** A worker runs its tile. The row buffer of a tile whose rows are merged nowhere may hold anything admissible. */
  method ComputeTile(x: Setup, ghost run: seq<W.State>, ghost w: nat, q: nat, buf: seq<Entry>,
                     tA: seq<real>, tB: seq<real>, upperCov: seq<real>, lowerCov: seq<real>)
    returns (buf': seq<Entry>)
    requires AboutToRun(x, run, w, q, buf)
    requires Inside(x.join.info, x.queue[q]) && Equipped(x, q, tA, tB, upperCov, lowerCov)
    ensures MakePlan(x).Valid() && W.Compute(MakePlan(x), P.Last(run), Ran(P.Last(run), w, q, buf'), w)
  {
    BufferReady(x, run, w, q, buf);
    var info, t := x.join.info, x.queue[q];
    var width, height := Width(info, t), Height(info, t);
    var a := buf[..width];
    var b := if RowsMerged(info, x.mode) then buf[width..] else seq(height, _ => InitEntry(x.join.kind));
    var nowA, nowB := RunTile(x, q, a, b, tA, tB, upperCov, lowerCov);
    buf' := Buffers(info, x.mode, t, nowA, nowB);
    assert Buffers(info, x.mode, t, a, b) == buf;
    TileRefinesCompute(x, q, a, b, nowA, nowB);
    IsComputeStep(MakePlan(x), P.Last(run), w, q, buf, buf');
  }

  lemma IsComputeStep(plan: W.Plan, s: W.State, w: nat, q: nat, buf: seq<Entry>, buf': seq<Entry>)
    requires plan.Valid() && w < |s.workers| && s.workers[w] == W.Computing(q, buf) && q < |plan.tiles|
    requires W.TileResult(plan, q, buf, buf')
    ensures W.Compute(plan, s, Ran(s, w, q, buf'), w)
  {
    hide W.TileResult;
  }

  /** A tile on either kind of worker. */
  method RunTile(x: Setup, q: nat, a: seq<Entry>, b: seq<Entry>, tA: seq<real>, tB: seq<real>,
                 upperCov: seq<real>, lowerCov: seq<real>) returns (nowA: seq<Entry>, nowB: seq<Entry>)
    requires x.Valid() && q < |x.queue| && Inside(x.join.info, x.queue[q])
    requires Equipped(x, q, tA, tB, upperCov, lowerCov)
    requires |a| == Width(x.join.info, x.queue[q]) && |b| == Height(x.join.info, x.queue[q])
    requires Floored(x.join.kind, a) && Floored(x.join.kind, b)
    ensures TileDone(x.join, x.queue[q], x.engines[q], x.mode.rows, true, a, b, nowA, nowB)
  {
    hide TileDone, Floored, Width, Height, SeriesLoaded, GpuLaunch.TileFits, GpuLaunch.TileRan, GpuLaunch.TileCovered,
      GpuLaunch.Config.Valid, PowerOfTwo, AllNeeded, Join.Valid;
    match x.engines[q] {
      case Cpu(unrollWid) =>
        var profileA := new Entry[|a|](i requires 0 <= i < |a| => a[i]);
        var profileB := new Entry[|b|](i requires 0 <= i < |b| => b[i]);
        assert profileA[..] == a && profileB[..] == b;
        TileExec.ExecuteTile(x.join, x.queue[q], tA, tB, unrollWid, x.mode.rows, true, profileA, profileB);
        nowA, nowB := profileA[..], profileB[..];
      case Gpu =>
        nowA, nowB :=
          GpuLaunch.ExecuteTile(x.join, x.queue[q], upperCov, lowerCov, x.grids[q], x.mode.rows, true, a, b);
    }
  }
}
