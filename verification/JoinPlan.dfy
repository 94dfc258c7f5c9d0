/**
 A join as its workers see it: which elements of the global profile a tile's buffers are copied from and merged
 into, and why running a tile is the step that the workers' protocol assumes.
 */
module JoinPlan {
  import opened Profiles
  import opened Tiling
  import opened Coverage
  import opened Joins
  import opened TileExec
  import GpuLaunch
  import W = Workers

  /** Whether rows are computed, whether they have a profile of their own, and whether a maximum carries an index. */
  datatype Mode = Mode(rows: bool, keepRows: bool, indexed: bool)

  /** Rows are merged into their own profile if they have one, else into a self-join's only profile, else nowhere. */
  predicate RowsMerged(info: OpInfo, m: Mode) {
    m.rows && (m.keepRows || info.selfJoin)
  }

  /** The rows of a self-join without a row profile are merged into the profile of its columns. */
  predicate Shared(info: OpInfo, m: Mode) {
    m.rows && info.selfJoin && !m.keepRows
  }

  /** Where the row elements of the global profile begin. */
  function RowBase(info: OpInfo, m: Mode): nat
    requires info.Valid()
  {
    if m.keepRows then info.CountA() else 0
  }

  /** Where a tile's rows are copied from. With an index the row profile is tried first, without one the self-join. */
  function SeedBase(info: OpInfo, m: Mode): nat
    requires info.Valid()
  {
    if m.indexed then (if m.rows && m.keepRows then info.CountA() else 0)
    else (if info.selfJoin then 0 else info.CountA())
  }

  function NumSlots(info: OpInfo, m: Mode): nat
    requires info.Valid()
  {
    info.CountA() + if m.keepRows then info.CountB() else 0
  }

  /** The rows of the whole matrix that a tile compares column `j` with. */
  ghost function ComparedRows(info: OpInfo, t: Tile, j: int): (s: set<int>)
    ensures forall i :: i in s <==>
      TileRow(info, t) <= i < TileRow(info, t) + Height(info, t) && TileEvaluations(info, t, i, j) > 0
  {
    set i | i in Range(TileRow(info, t), TileRow(info, t) + Height(info, t)) && TileEvaluations(info, t, i, j) > 0
  }

  ghost function ComparedCols(info: OpInfo, t: Tile, i: int): (s: set<int>)
    ensures forall j :: j in s <==>
      TileCol(info, t) <= j < TileCol(info, t) + Width(info, t) && TileEvaluations(info, t, i, j) > 0
  {
    set j | j in Range(TileCol(info, t), TileCol(info, t) + Width(info, t)) && TileEvaluations(info, t, i, j) > 0
  }

  ghost function ColElem(join: Join, t: Tile, engine: Engine, k: nat): W.Elem
    requires join.Valid() && Inside(join.info, t) && k < Width(join.info, t)
  {
    var j := TileCol(join.info, t) + k;
    W.Elem(j, j, TileRow(join.info, t), Height(join.info, t), ComparedRows(join.info, t, j),
      LowerExcess(join, t, engine, k))
  }

  ghost function RowElem(join: Join, m: Mode, t: Tile, engine: Engine, k: nat): W.Elem
    requires join.Valid() && Inside(join.info, t) && k < Height(join.info, t)
  {
    var i := TileRow(join.info, t) + k;
    W.Elem(RowBase(join.info, m) + i, SeedBase(join.info, m) + i, TileCol(join.info, t), Width(join.info, t),
      ComparedCols(join.info, t, i), UpperExcess(join, t, engine, k))
  }

  /** A tile's buffers: its columns, then its rows if they are merged anywhere. */
  ghost function TilePlan(join: Join, m: Mode, t: Tile, engine: Engine): W.Tile
    requires join.Valid() && Inside(join.info, t)
  {
    var cols := seq(Width(join.info, t), k requires 0 <= k < Width(join.info, t) => ColElem(join, t, engine, k));
    var rows := seq(Height(join.info, t), k requires 0 <= k < Height(join.info, t) => RowElem(join, m, t, engine, k));
    W.Tile(cols + if RowsMerged(join.info, m) then rows else [], Width(join.info, t))
  }

  lemma TileShape(join: Join, m: Mode, t: Tile, engine: Engine)
    requires join.Valid() && Inside(join.info, t)
    ensures
      var p := TilePlan(join, m, t, engine);
      && p.split == Width(join.info, t)
      && |p.elems| == Width(join.info, t) + if RowsMerged(join.info, m) then Height(join.info, t) else 0
  {
    hide Width, Height, ColElem, RowElem, Join.Valid;
  }

  lemma ElemIs(join: Join, m: Mode, t: Tile, engine: Engine, e: nat)
    requires join.Valid() && Inside(join.info, t) && e < |TilePlan(join, m, t, engine).elems|
    ensures e >= Width(join.info, t) ==> e - Width(join.info, t) < Height(join.info, t) && RowsMerged(join.info, m)
    ensures TilePlan(join, m, t, engine).elems[e] ==
      if e < Width(join.info, t) then ColElem(join, t, engine, e)
        else RowElem(join, m, t, engine, e - Width(join.info, t))
  {
    hide Width, Height, ColElem, RowElem, Join.Valid;
  }

  /** The distances of one element of the global profile to all it can be compared with. */
  ghost function SlotDists(join: Join, s: nat): (d: seq<Dist>)
    requires join.Valid() && s < join.info.CountA() + join.info.CountB()
  {
    var n, m := join.info.CountA(), join.info.CountB();
    if s < n then seq(m, i requires 0 <= i < m => join.PairDist(s, i))
    else seq(n, j requires 0 <= j < n => join.PairDist(j, s - n))
  }

  ghost predicate AllNeeded(info: OpInfo, queue: seq<Tile>)
    requires info.Valid()
  {
    forall i :: 0 <= i < |queue| ==> Needed(info, queue[i])
  }

  /** A join, how it keeps its profiles, its tiles, which kind of worker happens to run each of them, and the kernel and
      grid of every tile run by a GPU. */
  datatype Setup = Setup(join: Join, mode: Mode, queue: seq<Tile>, engines: seq<Engine>,
    grids: map<nat, GpuLaunch.Config>) {
    ghost predicate Valid() {
      join.Valid() && AllNeeded(join.info, queue) && |engines| == |queue|
    }
  }

  lemma JoinIsValid(x: Setup)
    requires x.Valid()
    ensures x.join.Valid() && AllNeeded(x.join.info, x.queue) && |x.engines| == |x.queue|
  {
  }

  /** The join as the workers see it. A fresh maximum profile holds -2 and no index. */
  ghost function MakePlan(x: Setup): W.Plan
    requires x.Valid()
  {
    AllInside(x.join.info, x.queue);
    var n := NumSlots(x.join.info, x.mode);
    W.Plan(x.join.kind,
      seq(n, s requires 0 <= s < n => SlotDists(x.join, s)),
      seq(n, _ => Entry(InitDist(x.join.kind), -1)),
      x.join.info.CountA(),
      seq(|x.queue|, i requires 0 <= i < |x.queue| => TilePlan(x.join, x.mode, x.queue[i], x.engines[i])))
  }

  lemma AllInside(info: OpInfo, queue: seq<Tile>)
    requires info.Valid() && AllNeeded(info, queue)
    ensures forall i :: 0 <= i < |queue| ==> Inside(info, queue[i])
  {
    hide Inside;
    forall i | 0 <= i < |queue| ensures Inside(info, queue[i]) {
      NeededIsInside(info, queue[i]);
    }
  }

  lemma PlanShape(x: Setup)
    requires x.Valid()
    ensures
      var plan := MakePlan(x);
      && plan.kind == x.join.kind && |plan.tiles| == |x.queue|
      && |plan.dists| == |plan.initial| == NumSlots(x.join.info, x.mode) && plan.second == x.join.info.CountA()
  {
    hide Needed, NumSlots, SlotDists, TilePlan, Inside, Join.Valid, AllNeeded;
  }

  lemma PlanTile(x: Setup, q: nat)
    requires x.Valid() && q < |x.queue|
    ensures
      var plan := MakePlan(x);
      && |plan.tiles| == |x.queue| && Inside(x.join.info, x.queue[q]) && Needed(x.join.info, x.queue[q])
      && plan.tiles[q] == TilePlan(x.join, x.mode, x.queue[q], x.engines[q])
  {
    AllInside(x.join.info, x.queue);
    hide Needed, NumSlots, SlotDists, TilePlan, Inside, Join.Valid;
  }

  lemma PlanSlot(x: Setup, s: nat)
    requires x.Valid() && s < NumSlots(x.join.info, x.mode)
    ensures
      var plan := MakePlan(x);
      && s < |plan.dists| == |plan.initial| && s < x.join.info.CountA() + x.join.info.CountB()
      && plan.dists[s] == SlotDists(x.join, s) && plan.initial[s] == Entry(InitDist(x.join.kind), -1)
  {
    hide Needed, SlotDists, TilePlan, Inside, AllNeeded;
  }

  // ---------- Enumerated queues ----------

  lemma QueueIsNeeded(info: OpInfo, queue: seq<Tile>)
    requires info.Valid() && Enumerates(info, queue)
    ensures AllNeeded(info, queue)
    ensures forall i, j :: 0 <= i < j < |queue| ==> queue[i] != queue[j]
  {
    forall i | 0 <= i < |queue| ensures Needed(info, queue[i]) {
      assert queue[i] in multiset(queue);
    }
    forall i, j | 0 <= i < j < |queue| ensures queue[i] != queue[j] {
      TwiceInQueue(queue, i, j);
    }
  }

  /** A pair is evaluated by the queue when one of its tiles evaluates it. */
  lemma {:induction false} EvaluatedByTile(info: OpInfo, queue: seq<Tile>, i: int, j: int)
    ensures Evaluations(info, queue, i, j) > 0
       <==> exists q :: 0 <= q < |queue| && TileEvaluations(info, queue[q], i, j) > 0
  {
    hide TileEvaluations;
    if queue != [] {
      var rest := queue[..|queue| - 1];
      EvaluatedByTile(info, rest, i, j);
      if Evaluations(info, rest, i, j) > 0 {
        var q :| 0 <= q < |rest| && TileEvaluations(info, rest[q], i, j) > 0;
        assert TileEvaluations(info, queue[q], i, j) > 0;
      }
      if q :| 0 <= q < |queue| && TileEvaluations(info, queue[q], i, j) > 0 {
        if q < |rest| {
          assert TileEvaluations(info, rest[q], i, j) > 0;
        }
      }
    }
  }

  /** In a self-join whatever a scheduled tile evaluates lies above the diagonal. */
  lemma SelfJoinAbove(info: OpInfo, t: Tile, i: nat, j: nat)
    requires info.Valid() && info.selfJoin && Needed(info, t) && i < info.CountB() && j < info.CountA()
    requires TileEvaluations(info, t, i, j) > 0
    ensures 4 * (j - i) >= info.mpWindow
  {
    hide TileEvaluations;
    OnlyHomeEvaluates(info, t, i, j);
    if t.row == t.col {
      SelfJoinDiagonalTile(info, i, j);
    } else {
      SelfJoinFullTile(info, i, j);
    }
  }

  // ---------- The plan is valid ----------

  /** Where a column's and a row's distances are in the global profile's terms. */
  lemma SlotDistsOfColumn(join: Join, m: Mode, j: nat, i: nat)
    requires join.Valid() && j < join.info.CountA() && i < join.info.CountB()
    ensures j < NumSlots(join.info, m) && |SlotDists(join, j)| == join.info.CountB()
    ensures SlotDists(join, j)[i] == join.PairDist(j, i)
  {
    hide Join.PairDist;
  }

  lemma SlotDistsOfRow(join: Join, m: Mode, j: nat, i: nat)
    requires join.Valid() && j < join.info.CountA() && i < join.info.CountB() && RowsMerged(join.info, m)
    ensures
      var s := RowBase(join.info, m) + i;
      && s < NumSlots(join.info, m) && |SlotDists(join, s)| == join.info.CountA()
      && SlotDists(join, s)[j] == join.PairDist(j, i)
  {
    if Shared(join.info, m) {
      PairDistSymmetric(join, j, i);
    }
    hide Join.PairDist;
  }

  lemma TileDistsAt(join: Join, t: Tile, r: nat, c: nat)
    requires join.Valid() && Inside(join.info, t) && r < Height(join.info, t) && c < Width(join.info, t)
    ensures TileCol(join.info, t) + c < join.info.CountA() && TileRow(join.info, t) + r < join.info.CountB()
    ensures ColumnDists(join, t, c)[r] == join.PairDist(TileCol(join.info, t) + c, TileRow(join.info, t) + r)
    ensures TileExec.RowDists(join, t, r)[c] == join.PairDist(TileCol(join.info, t) + c, TileRow(join.info, t) + r)
  {
    TileBounds(join.info, t);
    hide Width, Height, TileCol, TileRow, Join.PairDist;
  }

  lemma ColumnSlice(join: Join, m: Mode, t: Tile, k: nat)
    requires join.Valid() && Inside(join.info, t) && k < Width(join.info, t)
    ensures
      var s, from, n := TileCol(join.info, t) + k, TileRow(join.info, t), Height(join.info, t);
      && s < join.info.CountA() && s < NumSlots(join.info, m) && from + n <= |SlotDists(join, s)|
      && SlotDists(join, s)[from..from + n] == ColumnDists(join, t, k)
  {
    hide *;
    StatsLengths(join);
    TileBounds(join.info, t);
    InsideIs(join.info, t);
    var s, from, n := TileCol(join.info, t) + k, TileRow(join.info, t), Height(join.info, t);
    TileDistsAt(join, t, 0, k);
    SlotDistsOfColumn(join, m, s, from);
    var f, all := ColumnDists(join, t, k), SlotDists(join, s);
    forall r: nat | r < n ensures f[r] == all[from..from + n][r] {
      TileDistsAt(join, t, r, k);
      SlotDistsOfColumn(join, m, s, from + r);
    }
    assert f == all[from..from + n];
  }

  lemma InsideIs(info: OpInfo, t: Tile)
    requires Inside(info, t)
    ensures Width(info, t) > 0 && Height(info, t) > 0
  {
  }

  lemma RowSlice(join: Join, m: Mode, t: Tile, k: nat)
    requires join.Valid() && Inside(join.info, t) && k < Height(join.info, t) && RowsMerged(join.info, m)
    ensures
      var s, from, n := RowBase(join.info, m) + TileRow(join.info, t) + k, TileCol(join.info, t), Width(join.info, t);
      && s < join.info.CountA() + join.info.CountB() && s < NumSlots(join.info, m) && from + n <= |SlotDists(join, s)|
      && SlotDists(join, s)[from..from + n] == TileExec.RowDists(join, t, k)
  {
    hide *;
    StatsLengths(join);
    TileBounds(join.info, t);
    InsideIs(join.info, t);
    SlotCount(join, m);
    var i, from, n := TileRow(join.info, t) + k, TileCol(join.info, t), Width(join.info, t);
    TileDistsAt(join, t, k, 0);
    SlotDistsOfRow(join, m, from, i);
    var f, all := TileExec.RowDists(join, t, k), SlotDists(join, RowBase(join.info, m) + i);
    forall c: nat | c < n ensures f[c] == all[from..from + n][c] {
      TileDistsAt(join, t, k, c);
      SlotDistsOfRow(join, m, from + c, i);
    }
    assert f == all[from..from + n];
  }

  lemma SlotCount(join: Join, m: Mode)
    requires join.Valid()
    ensures NumSlots(join.info, m) <= join.info.CountA() + join.info.CountB()
  {
  }

  lemma ColElemShape(join: Join, t: Tile, engine: Engine, k: nat)
    requires join.Valid() && Inside(join.info, t) && k < Width(join.info, t)
    ensures
      var el := ColElem(join, t, engine, k);
      && el.slot == el.from == TileCol(join.info, t) + k
      && el.offset == TileRow(join.info, t) && el.span == Height(join.info, t)
      && el.excess == LowerExcess(join, t, engine, k)
      && forall g :: g in el.cells ==> el.offset <= g < el.offset + el.span
  {
    hide TileEvaluations, Width, Height, TileCol, TileRow, Join.Valid, LowerExcess;
  }

  lemma RowElemShape(join: Join, m: Mode, t: Tile, engine: Engine, k: nat)
    requires join.Valid() && Inside(join.info, t) && k < Height(join.info, t)
    ensures
      var el := RowElem(join, m, t, engine, k);
      && el.slot == RowBase(join.info, m) + TileRow(join.info, t) + k
      && el.from == SeedBase(join.info, m) + TileRow(join.info, t) + k
      && el.offset == TileCol(join.info, t) && el.span == Width(join.info, t)
      && el.excess == UpperExcess(join, t, engine, k)
      && forall g :: g in el.cells ==> el.offset <= g < el.offset + el.span
  {
    hide TileEvaluations, Width, Height, TileCol, TileRow, RowBase, SeedBase, UpperExcess;
  }

  /** The place a row is copied from exists. */
  lemma SeedFits(join: Join, m: Mode, t: Tile, k: nat)
    requires join.Valid() && Inside(join.info, t) && k < Height(join.info, t) && RowsMerged(join.info, m)
    ensures SeedBase(join.info, m) + TileRow(join.info, t) + k < NumSlots(join.info, m)
  {
    TileBounds(join.info, t);
    hide Width, Height, TileCol, TileRow;
  }

  /** An element is valid when its stretch of the slot's distances exists and holds all its cells. */
  lemma ElemFits(plan: W.Plan, el: W.Elem)
    requires el.slot < |plan.dists| && el.from < |plan.dists| && el.offset + el.span <= |plan.dists[el.slot]|
    requires forall g :: g in el.cells ==> el.offset <= g < el.offset + el.span
    ensures plan.ElemValid(el) && W.LocalDists(plan, el) == plan.dists[el.slot][el.offset..el.offset + el.span]
  {
  }

  lemma ColElemValid(x: Setup, t: Tile, engine: Engine, k: nat)
    requires x.Valid() && Inside(x.join.info, t) && k < Width(x.join.info, t)
    ensures
      var plan, el := MakePlan(x), ColElem(x.join, t, engine, k);
      plan.ElemValid(el) && W.LocalDists(plan, el) == ColumnDists(x.join, t, k)
  {
    hide *;
    JoinIsValid(x);
    StatsLengths(x.join);
    PlanShape(x);
    ColumnSlice(x.join, x.mode, t, k);
    PlanSlot(x, TileCol(x.join.info, t) + k);
    ColElemShape(x.join, t, engine, k);
    ElemFits(MakePlan(x), ColElem(x.join, t, engine, k));
  }

  lemma RowElemValid(x: Setup, t: Tile, engine: Engine, k: nat)
    requires x.Valid() && Inside(x.join.info, t) && k < Height(x.join.info, t) && RowsMerged(x.join.info, x.mode)
    ensures
      var plan, el := MakePlan(x), RowElem(x.join, x.mode, t, engine, k);
      plan.ElemValid(el) && W.LocalDists(plan, el) == TileExec.RowDists(x.join, t, k)
  {
    hide *;
    JoinIsValid(x);
    StatsLengths(x.join);
    PlanShape(x);
    RowSlice(x.join, x.mode, t, k);
    SeedFits(x.join, x.mode, t, k);
    PlanSlot(x, RowBase(x.join.info, x.mode) + TileRow(x.join.info, t) + k);
    RowElemShape(x.join, x.mode, t, engine, k);
    ElemFits(MakePlan(x), RowElem(x.join, x.mode, t, engine, k));
  }

  /** The pair of subsequences behind neighbour `g` of a tile's element: (row, column). */
  ghost function PairOf(info: OpInfo, t: Tile, e: nat, g: int): (int, int) {
    if e < Width(info, t) then (g, TileCol(info, t) + e) else (TileRow(info, t) + (e - Width(info, t)), g)
  }

  lemma ColElemCells(join: Join, t: Tile, engine: Engine, k: nat, g: int)
    requires join.Valid() && Inside(join.info, t) && k < Width(join.info, t)
    ensures g in ColElem(join, t, engine, k).cells <==> TileEvaluations(join.info, t, g, TileCol(join.info, t) + k) > 0
  {
    hide *;
    if TileEvaluations(join.info, t, g, TileCol(join.info, t) + k) > 0 {
      PairIsCell(join.info, t, g, TileCol(join.info, t) + k);
    }
    CellsOfColumn(join, t, engine, k);
  }

  lemma CellsOfColumn(join: Join, t: Tile, engine: Engine, k: nat)
    requires join.Valid() && Inside(join.info, t) && k < Width(join.info, t)
    ensures ColElem(join, t, engine, k).cells == ComparedRows(join.info, t, TileCol(join.info, t) + k)
  {
    hide ComparedRows, Width, Height, LowerExcess, Join.Valid;
  }

  lemma RowElemCells(join: Join, m: Mode, t: Tile, engine: Engine, k: nat, g: int)
    requires join.Valid() && Inside(join.info, t) && k < Height(join.info, t)
    ensures g in RowElem(join, m, t, engine, k).cells <==>
      TileEvaluations(join.info, t, TileRow(join.info, t) + k, g) > 0
  {
    hide *;
    if TileEvaluations(join.info, t, TileRow(join.info, t) + k, g) > 0 {
      PairIsCell(join.info, t, TileRow(join.info, t) + k, g);
    }
    CellsOfRow(join, m, t, engine, k);
  }

  lemma CellsOfRow(join: Join, m: Mode, t: Tile, engine: Engine, k: nat)
    requires join.Valid() && Inside(join.info, t) && k < Height(join.info, t)
    ensures RowElem(join, m, t, engine, k).cells == ComparedCols(join.info, t, TileRow(join.info, t) + k)
  {
    hide ComparedCols, Width, Height, UpperExcess, RowBase, SeedBase;
  }

  /** What one element of a tile looks like: its slot, and the pairs it gathers. */
  lemma ElemFacts(join: Join, m: Mode, t: Tile, engine: Engine, e: nat, g: int)
    requires join.Valid() && Inside(join.info, t) && e < |TilePlan(join, m, t, engine).elems|
    ensures
      var p, el := PairOf(join.info, t, e, g), TilePlan(join, m, t, engine).elems[e];
      && (e >= Width(join.info, t) ==> RowsMerged(join.info, m))
      && el.slot == (if e < Width(join.info, t) then p.1 else RowBase(join.info, m) + p.0)
      && (g in el.cells <==> TileEvaluations(join.info, t, p.0, p.1) > 0)
      && (g in el.cells ==> TileRow(join.info, t) <= p.0 < TileRow(join.info, t) + Height(join.info, t)
                            && TileCol(join.info, t) <= p.1 < TileCol(join.info, t) + Width(join.info, t))
  {
    hide *;
    StatsLengths(join);
    PairOfElem(join.info, t, e, g);
    ElemIs(join, m, t, engine, e);
    var p := PairOf(join.info, t, e, g);
    if e < Width(join.info, t) {
      ColElemCells(join, t, engine, e, g);
      ColElemShape(join, t, engine, e);
    } else {
      RowElemCells(join, m, t, engine, e - Width(join.info, t), g);
      RowElemShape(join, m, t, engine, e - Width(join.info, t));
    }
    if TileEvaluations(join.info, t, p.0, p.1) > 0 {
      PairIsCell(join.info, t, p.0, p.1);
    }
  }

  lemma PairOfElem(info: OpInfo, t: Tile, e: nat, g: int)
    ensures PairOf(info, t, e, g) ==
      if e < Width(info, t) then (g, TileCol(info, t) + e) else (TileRow(info, t) + (e - Width(info, t)), g)
  {
  }

  lemma PairIsCell(info: OpInfo, t: Tile, i: int, j: int)
    requires TileEvaluations(info, t, i, j) > 0
    ensures TileRow(info, t) <= i < TileRow(info, t) + Height(info, t)
    ensures TileCol(info, t) <= j < TileCol(info, t) + Width(info, t)
  {
    hide Width, Height, TileCol, TileRow, Exclusions;
  }

  /** Two elements with the same slot and a neighbour in common are one and the same. */
  lemma ElemsDisjoint(join: Join, m: Mode, t: Tile, engine: Engine, e: nat, t': Tile, engine': Engine, e': nat, g: int)
    requires join.Valid() && Needed(join.info, t) && Needed(join.info, t') && Inside(join.info, t)
    requires Inside(join.info, t')
    requires
      var el, el' := TilePlan(join, m, t, engine).elems, TilePlan(join, m, t', engine').elems;
      e < |el| && e' < |el'| && el[e].slot == el'[e'].slot && g in el[e].cells && g in el'[e'].cells
    ensures t == t' && e == e'
  {
    var info := join.info;
    StatsLengths(join);
    hide *;
    TileBounds(info, t);
    TileBounds(info, t');
    ElemFacts(join, m, t, engine, e, g);
    ElemFacts(join, m, t', engine', e', g);
    var p, p' := PairOf(info, t, e, g), PairOf(info, t', e', g);
    SamePair(info, m, t, e, t', e', g);
    OnlyHomeEvaluates(info, t, p.0, p.1);
    OnlyHomeEvaluates(info, t', p'.0, p'.1);
    SameElem(info, t, e, e', g);
  }

  lemma SamePair(info: OpInfo, m: Mode, t: Tile, e: nat, t': Tile, e': nat, g: int)
    requires info.Valid() && Needed(info, t) && Needed(info, t')
    requires e >= Width(info, t) || e' >= Width(info, t') ==> RowsMerged(info, m)
    requires
      var p, p' := PairOf(info, t, e, g), PairOf(info, t', e', g);
      && 0 <= p.0 < info.CountB() && 0 <= p.1 < info.CountA() && 0 <= p'.0 < info.CountB() && 0 <= p'.1 < info.CountA()
      && TileEvaluations(info, t, p.0, p.1) > 0 && TileEvaluations(info, t', p'.0, p'.1) > 0
      && (if e < Width(info, t) then p.1 else RowBase(info, m) + p.0)
         == (if e' < Width(info, t') then p'.1 else RowBase(info, m) + p'.0)
    ensures PairOf(info, t, e, g) == PairOf(info, t', e', g) && (e < Width(info, t) <==> e' < Width(info, t'))
  {
    hide TileEvaluations, Width, Height, TileCol, TileRow, Needed;
    if Shared(info, m) {
      NotBothWays(info, t, t', PairOf(info, t, e, g), PairOf(info, t', e', g));
    }
  }

  lemma SameElem(info: OpInfo, t: Tile, e: nat, e': nat, g: int)
    requires PairOf(info, t, e, g) == PairOf(info, t, e', g) && (e < Width(info, t) <==> e' < Width(info, t))
    ensures e == e'
  {
    hide Width, TileCol, TileRow;
  }

  /** A self-join never evaluates a pair from both sides. */
  lemma NotBothWays(info: OpInfo, t: Tile, t': Tile, p: (int, int), p': (int, int))
    requires info.Valid() && Needed(info, t) && Needed(info, t') && info.selfJoin
    requires 0 <= p.0 < info.CountA() && 0 <= p.1 < info.CountA() && 0 <= p'.0 < info.CountA()
    requires 0 <= p'.1 < info.CountA()
    requires TileEvaluations(info, t, p.0, p.1) > 0 && TileEvaluations(info, t', p'.0, p'.1) > 0
    ensures p' != (p.1, p.0)
  {
    hide TileEvaluations, Needed;
    SelfJoinAbove(info, t, p.0, p.1);
    SelfJoinAbove(info, t', p'.0, p'.1);
  }

  lemma PlanElemValid(x: Setup, q: nat, e: nat)
    requires x.Valid() && q < |x.queue| && Inside(x.join.info, x.queue[q])
    requires e < |TilePlan(x.join, x.mode, x.queue[q], x.engines[q]).elems|
    ensures MakePlan(x).ElemValid(TilePlan(x.join, x.mode, x.queue[q], x.engines[q]).elems[e])
  {
    hide *;
    JoinIsValid(x);
    var t, engine := x.queue[q], x.engines[q];
    TileShape(x.join, x.mode, t, engine);
    ElemIs(x.join, x.mode, t, engine, e);
    if e < Width(x.join.info, t) {
      ColElemValid(x, t, engine, e);
    } else {
      RowElemValid(x, t, engine, e - Width(x.join.info, t));
    }
  }

  /** The join's tiles make a valid plan: no two elements merge the same pair into the same slot. */
  lemma PlanIsValid(x: Setup)
    requires x.Valid() && Enumerates(x.join.info, x.queue)
    ensures MakePlan(x).Valid()
  {
    hide *;
    JoinIsValid(x);
    StatsLengths(x.join);
    var plan := MakePlan(x);
    PlanShape(x);
    forall s: nat | s < |plan.initial| ensures plan.initial[s].value >= InitDist(plan.kind) {
      PlanSlot(x, s);
    }
    forall q: nat | q < |x.queue| ensures plan.tiles[q].split <= |plan.tiles[q].elems| {
      PlanTile(x, q);
      InsideIs(x.join.info, x.queue[q]);
      TileShape(x.join, x.mode, x.queue[q], x.engines[q]);
    }
    forall q: nat, e: nat | q < |plan.tiles| && e < |plan.tiles[q].elems|
      ensures plan.ElemValid(plan.tiles[q].elems[e])
    {
      PlanTile(x, q);
      PlanElemValid(x, q, e);
    }
    forall q: nat, e: nat, q': nat, e': nat
      | q < |plan.tiles| && e < |plan.tiles[q].elems| && q' < |plan.tiles| && e' < |plan.tiles[q'].elems|
        && (q, e) != (q', e') && plan.tiles[q].elems[e].slot == plan.tiles[q'].elems[e'].slot
      ensures plan.tiles[q].elems[e].cells !! plan.tiles[q'].elems[e'].cells
    {
      PlanElemsDisjoint(x, q, e, q', e');
    }
    forall q: nat | q < |plan.tiles| ensures plan.OneLockEach(plan.tiles[q]) {
      PlanTile(x, q);
      TileHasOneLockEach(x, q);
    }
    PlanParts(plan);
  }

  /** Columns go to the first profile; rows to the second, or, sharing the first, to that one. */
  lemma TileHasOneLockEach(x: Setup, q: nat)
    requires x.Valid() && q < |x.queue| && Inside(x.join.info, x.queue[q]) && Needed(x.join.info, x.queue[q])
    ensures MakePlan(x).OneLockEach(TilePlan(x.join, x.mode, x.queue[q], x.engines[q]))
  {
    hide *;
    JoinIsValid(x);
    StatsLengths(x.join);
    PlanShape(x);
    var info, t, engine := x.join.info, x.queue[q], x.engines[q];
    var tile := TilePlan(x.join, x.mode, t, engine);
    TileBounds(info, t);
    TileShape(x.join, x.mode, t, engine);
    RowBaseIs(info, x.mode);
    forall e: nat | e < |tile.elems|
      ensures tile.elems[e].slot >= x.join.info.CountA() <==> e >= tile.split && x.mode.keepRows
    {
      ElemIs(x.join, x.mode, t, engine, e);
      if e < Width(info, t) {
        ColElemShape(x.join, t, engine, e);
      } else {
        RowElemShape(x.join, x.mode, t, engine, e - Width(info, t));
      }
    }
    SplitLocks(MakePlan(x), tile, x.mode.keepRows);
  }

  lemma RowBaseIs(info: OpInfo, m: Mode)
    requires info.Valid()
    ensures RowBase(info, m) == if m.keepRows then info.CountA() else 0
    ensures RowsMerged(info, m) && !m.keepRows ==> info.CountB() == info.CountA()
  {
  }

  lemma SplitLocks(plan: W.Plan, tile: W.Tile, apart: bool)
    requires forall e: nat :: e < |tile.elems| ==> (tile.elems[e].slot >= plan.second <==> e >= tile.split && apart)
    ensures plan.OneLockEach(tile)
  {
  }

  lemma PlanElemsDisjoint(x: Setup, q: nat, e: nat, q': nat, e': nat)
    requires x.Valid() && Enumerates(x.join.info, x.queue)
    requires
      var plan := MakePlan(x);
      && q < |plan.tiles| && e < |plan.tiles[q].elems| && q' < |plan.tiles| && e' < |plan.tiles[q'].elems|
      && (q, e) != (q', e') && plan.tiles[q].elems[e].slot == plan.tiles[q'].elems[e'].slot
    ensures MakePlan(x).tiles[q].elems[e].cells !! MakePlan(x).tiles[q'].elems[e'].cells
  {
    hide *;
    JoinIsValid(x);
    StatsLengths(x.join);
    PlanShape(x);
    PlanTile(x, q);
    PlanTile(x, q');
    QueueIsNeeded(x.join.info, x.queue);
    var plan := MakePlan(x);
    assert q != q' ==> x.queue[q] != x.queue[q'];
    forall g | g in plan.tiles[q].elems[e].cells ensures g !in plan.tiles[q'].elems[e'].cells {
      if g in plan.tiles[q'].elems[e'].cells {
        ElemsDisjoint(x.join, x.mode, x.queue[q], x.engines[q], e, x.queue[q'], x.engines[q'], e', g);
      }
    }
    DisjointBy(plan.tiles[q].elems[e].cells, plan.tiles[q'].elems[e'].cells);
  }

  lemma PlanParts(plan: W.Plan)
    requires |plan.dists| == |plan.initial|
    requires forall s :: 0 <= s < |plan.initial| ==> plan.initial[s].value >= InitDist(plan.kind)
    requires forall t :: 0 <= t < |plan.tiles| ==> plan.tiles[t].split <= |plan.tiles[t].elems|
    requires forall t, e :: 0 <= t < |plan.tiles| && 0 <= e < |plan.tiles[t].elems| ==>
      plan.ElemValid(plan.tiles[t].elems[e])
    requires forall t :: 0 <= t < |plan.tiles| ==> plan.OneLockEach(plan.tiles[t])
    requires forall t, e, t', e' ::
      0 <= t < |plan.tiles| && 0 <= e < |plan.tiles[t].elems| && 0 <= t' < |plan.tiles|
        && 0 <= e' < |plan.tiles[t'].elems|
      && (t, e) != (t', e') && plan.tiles[t].elems[e].slot == plan.tiles[t'].elems[e'].slot
      ==> plan.tiles[t].elems[e].cells !! plan.tiles[t'].elems[e'].cells
    ensures plan.Valid()
  {
    hide W.Plan.ElemValid;
  }

  // ---------- Running a tile is the workers' step ----------

  /** What the buffers of a tile hold that is merged anywhere, columns first. */
  function Buffers(info: OpInfo, m: Mode, t: Tile, a: seq<Entry>, b: seq<Entry>): seq<Entry>
    requires Inside(info, t) && |a| >= Width(info, t) && |b| >= Height(info, t)
  {
    a[..Width(info, t)] + if RowsMerged(info, m) then b[..Height(info, t)] else []
  }

  /** One element of a tile's buffers has gathered its cells, in local positions. */
  ghost predicate ElemDone(plan: W.Plan, el: W.Elem, was: Entry, now: Entry) {
    plan.ElemValid(el) && W.ElemResult(plan, el, was, now)
  }

  lemma ColumnCells(join: Join, t: Tile, engine: Engine, k: nat)
    requires join.Valid() && Inside(join.info, t) && k < Width(join.info, t)
    ensures
      var el := ColElem(join, t, engine, k);
      W.Shift(el.cells, el.offset, el.span) == TileExec.TileRows(join.info, t, k)
  {
    hide TileEvaluations, Width, Height, TileCol, TileRow, LowerExcess;
  }

  lemma RowCells(join: Join, m: Mode, t: Tile, engine: Engine, k: nat)
    requires join.Valid() && Inside(join.info, t) && k < Height(join.info, t)
    ensures
      var el := RowElem(join, m, t, engine, k);
      W.Shift(el.cells, el.offset, el.span) == TileExec.TileCols(join.info, t, k)
  {
    hide TileEvaluations, Width, Height, TileCol, TileRow, UpperExcess, RowBase, SeedBase;
  }

  lemma ColumnResult(x: Setup, t: Tile, engine: Engine, k: nat, was: Entry, now: Entry)
    requires x.Valid() && Inside(x.join.info, t) && k < Width(x.join.info, t)
    requires ColumnDone(x.join, t, engine, k, was, now)
    ensures ElemDone(MakePlan(x), ColElem(x.join, t, engine, k), was, now)
  {
    ColElemValid(x, t, engine, k);
    PlanShape(x);
    ColumnCells(x.join, t, engine, k);
    ColElemShape(x.join, t, engine, k);
    hide Gathered, MakePlan, AllNeeded, Join.Valid, W.LocalDists, ColumnDists, W.Plan.ElemValid, ColElem, Inside, Width,
      Height, LowerExcess;
  }

  lemma RowResult(x: Setup, t: Tile, engine: Engine, k: nat, was: Entry, now: Entry)
    requires x.Valid() && Inside(x.join.info, t) && k < Height(x.join.info, t) && RowsMerged(x.join.info, x.mode)
    requires RowDone(x.join, t, engine, k, was, now)
    ensures ElemDone(MakePlan(x), RowElem(x.join, x.mode, t, engine, k), was, now)
  {
    RowElemValid(x, t, engine, k);
    PlanShape(x);
    RowCells(x.join, x.mode, t, engine, k);
    RowElemShape(x.join, x.mode, t, engine, k);
    hide Gathered, MakePlan, AllNeeded, Join.Valid, W.LocalDists, TileExec.RowDists, W.Plan.ElemValid, RowElem, Inside,
      Width, Height, RowBase, SeedBase, UpperExcess;
  }

  /** Executing a tile is exactly the workers' compute step on that tile's buffers. */
  lemma TileRefinesCompute(x: Setup, q: nat, wasA: seq<Entry>, wasB: seq<Entry>, nowA: seq<Entry>, nowB: seq<Entry>)
    requires x.Valid() && Enumerates(x.join.info, x.queue) && q < |x.queue| && Inside(x.join.info, x.queue[q])
    requires TileDone(x.join, x.queue[q], x.engines[q], x.mode.rows, true, wasA, wasB, nowA, nowB)
    ensures MakePlan(x).Valid() && q < |MakePlan(x).tiles|
    ensures W.TileResult(MakePlan(x), q,
              Buffers(x.join.info, x.mode, x.queue[q], wasA, wasB), Buffers(x.join.info, x.mode, x.queue[q], nowA,
                nowB))
  {
    PlanIsValid(x);
    PlanShape(x);
    PlanTile(x, q);
    var plan, t, engine := MakePlan(x), x.queue[q], x.engines[q];
    var buf, buf' := Buffers(x.join.info, x.mode, t, wasA, wasB), Buffers(x.join.info, x.mode, t, nowA, nowB);
    TileShape(x.join, x.mode, t, engine);
    assert |buf| == |buf'| == |plan.tiles[q].elems|;
    hide *;
    forall e: nat | e < |buf| ensures ElemDone(plan, plan.tiles[q].elems[e], buf[e], buf'[e]) {
      BufferResult(x, t, engine, wasA, wasB, nowA, nowB, e);
    }
    AllElemsDone(plan, q, buf, buf');
  }

  lemma AllElemsDone(plan: W.Plan, q: nat, buf: seq<Entry>, buf': seq<Entry>)
    requires plan.Valid() && q < |plan.tiles| && |buf| == |buf'| == |plan.tiles[q].elems|
    requires forall e: nat :: e < |buf| ==> ElemDone(plan, plan.tiles[q].elems[e], buf[e], buf'[e])
    ensures W.TileResult(plan, q, buf, buf')
  {
    hide W.ElemResult;
    forall e: nat | e < |buf|
      ensures plan.ElemValid(plan.tiles[q].elems[e]) && W.ElemResult(plan, plan.tiles[q].elems[e], buf[e], buf'[e])
    {
      assert ElemDone(plan, plan.tiles[q].elems[e], buf[e], buf'[e]);
    }
  }

  lemma BufferIs(info: OpInfo, m: Mode, t: Tile, a: seq<Entry>, b: seq<Entry>, e: nat)
    requires Inside(info, t) && |a| >= Width(info, t) && |b| >= Height(info, t) && e < |Buffers(info, m, t, a, b)|
    ensures
      if e < Width(info, t) then Buffers(info, m, t, a, b)[e] == a[e]
      else e - Width(info, t) < Height(info, t) && Buffers(info, m, t, a, b)[e] == b[e - Width(info, t)]
  {
    hide Width, Height;
  }

  lemma BufferResult(x: Setup, t: Tile, engine: Engine,
                     wasA: seq<Entry>, wasB: seq<Entry>, nowA: seq<Entry>, nowB: seq<Entry>, e: nat)
    requires x.Valid() && Inside(x.join.info, t)
    requires TileDone(x.join, t, engine, x.mode.rows, true, wasA, wasB, nowA, nowB)
    requires e < |TilePlan(x.join, x.mode, t, engine).elems|
    requires e < |Buffers(x.join.info, x.mode, t, wasA, wasB)| == |Buffers(x.join.info, x.mode, t, nowA, nowB)|
    ensures ElemDone(MakePlan(x), TilePlan(x.join, x.mode, t, engine).elems[e],
              Buffers(x.join.info, x.mode, t, wasA, wasB)[e], Buffers(x.join.info, x.mode, t, nowA, nowB)[e])
  {
    hide *;
    JoinIsValid(x);
    StatsLengths(x.join);
    TileDoneShape(x.join, t, engine, x.mode.rows, wasA, wasB, nowA, nowB);
    ElemIs(x.join, x.mode, t, engine, e);
    BufferIs(x.join.info, x.mode, t, wasA, wasB, e);
    BufferIs(x.join.info, x.mode, t, nowA, nowB, e);
    if e < Width(x.join.info, t) {
      ColumnOfTile(x.join, t, engine, x.mode.rows, wasA, wasB, nowA, nowB, e);
      ColumnResult(x, t, engine, e, wasA[e], nowA[e]);
    } else {
      var k := e - Width(x.join.info, t);
      MergedMeansComputed(x.join.info, x.mode);
      RowOfTile(x.join, t, engine, wasA, wasB, nowA, nowB, k);
      RowResult(x, t, engine, k, wasB[k], nowB[k]);
    }
  }

  lemma MergedMeansComputed(info: OpInfo, m: Mode)
    ensures RowsMerged(info, m) ==> m.rows
  {
  }

  lemma TileDoneShape(join: Join, t: Tile, engine: Engine, rows: bool,
                      wasA: seq<Entry>, wasB: seq<Entry>, nowA: seq<Entry>, nowB: seq<Entry>)
    requires join.Valid() && Inside(join.info, t) && TileDone(join, t, engine, rows, true, wasA, wasB, nowA, nowB)
    ensures |wasA| == |nowA| >= Width(join.info, t) && |wasB| == |nowB| >= Height(join.info, t)
  {
    hide ColumnDone, RowDone, Width, Height, Join.Valid;
  }

  lemma ColumnOfTile(join: Join, t: Tile, engine: Engine, rows: bool,
                     wasA: seq<Entry>, wasB: seq<Entry>, nowA: seq<Entry>, nowB: seq<Entry>, k: nat)
    requires join.Valid() && Inside(join.info, t) && TileDone(join, t, engine, rows, true, wasA, wasB, nowA, nowB)
    requires k < Width(join.info, t)
    ensures k < |wasA| == |nowA| && ColumnDone(join, t, engine, k, wasA[k], nowA[k])
  {
    hide ColumnDone, RowDone, Width, Height, Join.Valid;
  }

  lemma RowOfTile(join: Join, t: Tile, engine: Engine,
                  wasA: seq<Entry>, wasB: seq<Entry>, nowA: seq<Entry>, nowB: seq<Entry>, k: nat)
    requires join.Valid() && Inside(join.info, t) && TileDone(join, t, engine, true, true, wasA, wasB, nowA, nowB)
    requires k < Height(join.info, t)
    ensures k < |wasB| == |nowB| && RowDone(join, t, engine, k, wasB[k], nowB[k])
  {
    hide ColumnDone, RowDone, Width, Height, Join.Valid;
  }
}
