/**
 What each element of a join's global profile is compared with by all its tiles together, and where the copies that
 the tiles start from are taken.
 */
module JoinSlots {
  import opened Profiles
  import opened Tiling
  import opened Coverage
  import opened Joins
  import opened JoinPlan
  import W = Workers
  import P = WorkersProgress

  // ---------- What the tiles compare ----------

  /** An element of the columns is compared with rows, an element of the rows with columns. */
  ghost predicate ComparedPair(info: OpInfo, m: Mode, s: int, g: int, i: int, j: int)
    requires info.Valid()
  {
    && 0 <= i < info.CountB() && 0 <= j < info.CountA()
    && ((s == j && g == i) || (RowsMerged(info, m) && s == RowBase(info, m) + i && g == j))
  }

  /** Whatever an element is compared with belongs to an evaluated pair. */
  lemma ComparedIsEvaluated(x: Setup, s: nat, g: int) returns (i: nat, j: nat)
    requires x.Valid() && g in P.Compared(MakePlan(x), s)
    ensures ComparedPair(x.join.info, x.mode, s, g, i, j) && Evaluations(x.join.info, x.queue, i, j) > 0
  {
    hide *;
    JoinIsValid(x);
    StatsLengths(x.join);
    PlanShape(x);
    var info, plan := x.join.info, MakePlan(x);
    var q, e := ComparedElem(plan, s, g);
    PlanTile(x, q);
    TileBounds(info, x.queue[q]);
    ElemFacts(x.join, x.mode, x.queue[q], x.engines[q], e, g);
    var p := PairOf(info, x.queue[q], e, g);
    i, j := p.0, p.1;
    PairOfElem(info, x.queue[q], e, g);
    EvaluatedByTile(info, x.queue, i, j);
    PairOfSlot(info, x.mode, s, g, i, j);
  }

  lemma PairOfSlot(info: OpInfo, m: Mode, s: int, g: int, i: int, j: int)
    requires info.Valid() && 0 <= i < info.CountB() && 0 <= j < info.CountA()
    requires (s == j && g == i) || (RowsMerged(info, m) && s == RowBase(info, m) + i && g == j)
    ensures ComparedPair(info, m, s, g, i, j)
  {
  }

  lemma ComparedElem(plan: W.Plan, s: nat, g: int) returns (q: nat, e: nat)
    requires g in P.Compared(plan, s)
    ensures q < |plan.tiles| && e < |plan.tiles[q].elems|
    ensures plan.tiles[q].elems[e].slot == s && g in plan.tiles[q].elems[e].cells
  {
    q, e :| 0 <= q < |plan.tiles| && 0 <= e < |plan.tiles[q].elems| && plan.tiles[q].elems[e].slot == s
            && g in plan.tiles[q].elems[e].cells;
  }

  lemma IsCompared(plan: W.Plan, q: nat, e: nat, g: int)
    requires q < |plan.tiles| && e < |plan.tiles[q].elems| && g in plan.tiles[q].elems[e].cells
    ensures g in P.Compared(plan, plan.tiles[q].elems[e].slot)
  {
  }

  /** The element of a tile that stands for a column of the whole matrix. */
  lemma ColumnElem(x: Setup, q: nat, j: nat) returns (e: nat)
    requires x.Valid() && q < |x.queue|
    requires TileCol(x.join.info, x.queue[q]) <= j < TileCol(x.join.info, x.queue[q]) + Width(x.join.info, x.queue[q])
    ensures q < |MakePlan(x).tiles| && e < |MakePlan(x).tiles[q].elems|
    ensures
      var el := MakePlan(x).tiles[q].elems[e];
      && el.slot == el.from == j
      && forall i :: i in el.cells <==> TileEvaluations(x.join.info, x.queue[q], i, j) > 0
  {
    hide *;
    JoinIsValid(x);
    PlanShape(x);
    PlanTile(x, q);
    var t, engine := x.queue[q], x.engines[q];
    TileShape(x.join, x.mode, t, engine);
    InsideIs(x.join.info, t);
    e := j - TileCol(x.join.info, t);
    ElemIs(x.join, x.mode, t, engine, e);
    ColElemShape(x.join, t, engine, e);
    forall i ensures i in ColElem(x.join, t, engine, e).cells <==> TileEvaluations(x.join.info, t, i, j) > 0 {
      ColElemCells(x.join, t, engine, e, i);
    }
  }

  /** The element of a tile that stands for a row of the whole matrix, if rows are merged. */
  lemma RowElemOf(x: Setup, q: nat, i: nat) returns (e: nat)
    requires x.Valid() && q < |x.queue| && RowsMerged(x.join.info, x.mode)
    requires TileRow(x.join.info, x.queue[q]) <= i < TileRow(x.join.info, x.queue[q]) + Height(x.join.info, x.queue[q])
    ensures q < |MakePlan(x).tiles| && e < |MakePlan(x).tiles[q].elems|
    ensures
      var el := MakePlan(x).tiles[q].elems[e];
      && el.slot == RowBase(x.join.info, x.mode) + i && el.from == SeedBase(x.join.info, x.mode) + i
      && forall j :: j in el.cells <==> TileEvaluations(x.join.info, x.queue[q], i, j) > 0
  {
    hide *;
    JoinIsValid(x);
    PlanShape(x);
    PlanTile(x, q);
    var t, engine := x.queue[q], x.engines[q];
    TileShape(x.join, x.mode, t, engine);
    InsideIs(x.join.info, t);
    var k: nat := i - TileRow(x.join.info, t);
    e := Width(x.join.info, t) + k;
    ElemIs(x.join, x.mode, t, engine, e);
    RowElemShape(x.join, x.mode, t, engine, k);
    forall j ensures j in RowElem(x.join, x.mode, t, engine, k).cells <==> TileEvaluations(x.join.info, t, i, j) > 0 {
      RowElemCells(x.join, x.mode, t, engine, k, j);
    }
  }

  /** The column of an evaluated pair is compared with its row; the row with its column, wherever rows are merged. */
  lemma EvaluatedIsCompared(x: Setup, i: nat, j: nat)
    requires x.Valid() && Evaluations(x.join.info, x.queue, i, j) > 0
    ensures i in P.Compared(MakePlan(x), j)
    ensures RowsMerged(x.join.info, x.mode) ==> j in P.Compared(MakePlan(x), RowBase(x.join.info, x.mode) + i)
  {
    hide *;
    JoinIsValid(x);
    StatsLengths(x.join);
    var info := x.join.info;
    EvaluatedByTile(info, x.queue, i, j);
    var q :| 0 <= q < |x.queue| && TileEvaluations(info, x.queue[q], i, j) > 0;
    PairIsCell(info, x.queue[q], i, j);
    var e := ColumnElem(x, q, j);
    IsCompared(MakePlan(x), q, e, i);
    if RowsMerged(info, x.mode) {
      var e' := RowElemOf(x, q, i);
      IsCompared(MakePlan(x), q, e', j);
    }
  }

  /** The subsequences a self-join compares one with: all but its trivial matches. */
  ghost function Neighbours(info: OpInfo, s: nat): (r: set<int>)
    requires info.Valid()
    ensures forall g :: g in r <==> 0 <= g < info.CountA() && Apart(info, g, s)
  {
    set g | g in Range(0, info.CountA()) && Apart(info, g, s)
  }

  lemma SelfJoinCompares(x: Setup, s: nat)
    requires x.Valid() && Enumerates(x.join.info, x.queue) && Shared(x.join.info, x.mode) && s < x.join.info.CountA()
    ensures P.Compared(MakePlan(x), s) == Neighbours(x.join.info, s)
  {
    JoinIsValid(x);
    StatsLengths(x.join);
    hide Evaluations, MakePlan, Enumerates, AllNeeded, P.Compared, Setup.Valid, Join.Valid;
    var info, plan := x.join.info, MakePlan(x);
    forall g | g in P.Compared(plan, s) ensures g in Neighbours(info, s) {
      var i, j := ComparedIsEvaluated(x, s, g);
      SelfJoinCoverage(info, x.queue, i, j);
    }
    forall g | g in Neighbours(info, s) ensures g in P.Compared(plan, s) {
      if g < s {
        SelfJoinCoverage(info, x.queue, g, s);
        EvaluatedIsCompared(x, g, s);
      } else {
        SelfJoinCoverage(info, x.queue, s, g);
        EvaluatedIsCompared(x, s, g);
      }
    }
  }

  /** The pairs a join asks for: those above the zone in a self-join, those outside it in an aligned AB-join, and
      all of them otherwise. */
  predicate Compares(info: OpInfo, i: int, j: int) {
    if info.selfJoin then 4 * (j - i) >= info.mpWindow else info.isAligned ==> Apart(info, i, j)
  }

  /** Aligned AB-joins are taken local and with equally many subsequences. */
  predicate Covered(info: OpInfo) {
    info.selfJoin || (info.isAligned ==> AlignedLocal(info))
  }

  lemma ScheduleEvaluates(info: OpInfo, queue: seq<Tile>, i: nat, j: nat)
    requires info.Valid() && Covered(info) && Enumerates(info, queue)
    requires i < info.CountB() && j < info.CountA()
    ensures Evaluations(info, queue, i, j) > 0 <==> Compares(info, i, j)
  {
    hide Evaluations, Enumerates;
    if info.selfJoin {
      SelfJoinCoverage(info, queue, i, j);
    } else if info.isAligned {
      AlignedJoinCoverage(info, queue, i, j);
    } else {
      AbJoinCoverage(info, queue, i, j);
    }
  }

  ghost function RowsComparedWith(info: OpInfo, j: nat): (r: set<int>)
    requires info.Valid()
    ensures forall i :: i in r <==> 0 <= i < info.CountB() && Compares(info, i, j)
  {
    set i | i in Range(0, info.CountB()) && Compares(info, i, j)
  }

  ghost function ColsComparedWith(info: OpInfo, i: nat): (r: set<int>)
    requires info.Valid()
    ensures forall j :: j in r <==> 0 <= j < info.CountA() && Compares(info, i, j)
  {
    set j | j in Range(0, info.CountA()) && Compares(info, i, j)
  }

  /** Unless the rows share its profile, a column meets exactly the rows the join asks for. */
  lemma ComparesColumn(x: Setup, j: nat)
    requires x.Valid() && Enumerates(x.join.info, x.queue) && Covered(x.join.info) && !Shared(x.join.info, x.mode)
    requires j < x.join.info.CountA()
    ensures P.Compared(MakePlan(x), j) == RowsComparedWith(x.join.info, j)
  {
    JoinIsValid(x);
    StatsLengths(x.join);
    hide Evaluations, MakePlan, Enumerates, AllNeeded, P.Compared, Setup.Valid, Join.Valid, Compares, Covered;
    var info, plan := x.join.info, MakePlan(x);
    forall g | g in P.Compared(plan, j) ensures g in RowsComparedWith(info, j) {
      var i, j' := ComparedIsEvaluated(x, j, g);
      ScheduleEvaluates(info, x.queue, i, j');
    }
    forall g | g in RowsComparedWith(info, j) ensures g in P.Compared(plan, j) {
      ScheduleEvaluates(info, x.queue, g, j);
      EvaluatedIsCompared(x, g, j);
    }
  }

  /** A row with a profile of its own meets exactly the columns the join asks for. */
  lemma ComparesRow(x: Setup, i: nat)
    requires x.Valid() && Enumerates(x.join.info, x.queue) && Covered(x.join.info)
    requires x.mode.rows && x.mode.keepRows && i < x.join.info.CountB()
    ensures P.Compared(MakePlan(x), x.join.info.CountA() + i) == ColsComparedWith(x.join.info, i)
  {
    JoinIsValid(x);
    StatsLengths(x.join);
    hide Evaluations, MakePlan, Enumerates, AllNeeded, P.Compared, Setup.Valid, Join.Valid, Compares, Covered;
    var info, plan := x.join.info, MakePlan(x);
    forall g | g in P.Compared(plan, info.CountA() + i) ensures g in ColsComparedWith(info, i) {
      var i', j := ComparedIsEvaluated(x, info.CountA() + i, g);
      ScheduleEvaluates(info, x.queue, i', j);
    }
    forall g | g in ColsComparedWith(info, i) ensures g in P.Compared(plan, info.CountA() + i) {
      ScheduleEvaluates(info, x.queue, i, g);
      EvaluatedIsCompared(x, i, g);
    }
  }

  // ---------- Where the tiles' buffers come from ----------

  /** What any element of a plan is: a column with its own slot, or a row. */
  lemma ElemSlots(x: Setup, q: nat, e: nat)
    requires x.Valid() && q < |MakePlan(x).tiles| && e < |MakePlan(x).tiles[q].elems|
    ensures
      var el, info := MakePlan(x).tiles[q].elems[e], x.join.info;
      || (el.slot == el.from && el.slot < info.CountA())
      || (RowsMerged(info, x.mode) && el.slot - RowBase(info, x.mode) == el.from - SeedBase(info, x.mode)
          && 0 <= el.slot - RowBase(info, x.mode) < info.CountB())
  {
    hide *;
    JoinIsValid(x);
    StatsLengths(x.join);
    PlanShape(x);
    PlanTile(x, q);
    var t, engine := x.queue[q], x.engines[q];
    TileBounds(x.join.info, t);
    ElemIs(x.join, x.mode, t, engine, e);
    if e < Width(x.join.info, t) {
      ColElemShape(x.join, t, engine, e);
    } else {
      RowElemShape(x.join, x.mode, t, engine, e - Width(x.join.info, t));
    }
  }

  /** Whatever is merged into a column's slot was copied from there. */
  lemma ColumnOwnsSlot(x: Setup, j: nat)
    requires x.Valid() && j < x.join.info.CountA()
    ensures MakePlan(x).OwnSlot(j)
  {
    hide MakePlan, Join.Valid, AllNeeded;
    var plan := MakePlan(x);
    forall q: nat, e: nat | q < |plan.tiles| && e < |plan.tiles[q].elems| && plan.tiles[q].elems[e].slot == j
      ensures plan.tiles[q].elems[e].from == j
    {
      ElemSlots(x, q, e);
    }
  }

  /** Rows with a profile of their own are copied from it: always with an index, and without one in an AB-join. */
  predicate SeedsMatch(info: OpInfo, m: Mode) {
    m.indexed || !info.selfJoin
  }

  lemma RowOwnsSlot(x: Setup, i: nat)
    requires x.Valid() && x.mode.rows && x.mode.keepRows && SeedsMatch(x.join.info, x.mode) && i < x.join.info.CountB()
    ensures MakePlan(x).OwnSlot(x.join.info.CountA() + i)
  {
    hide MakePlan, Join.Valid, AllNeeded;
    var plan := MakePlan(x);
    forall q: nat, e: nat
      | q < |plan.tiles| && e < |plan.tiles[q].elems| && plan.tiles[q].elems[e].slot == x.join.info.CountA() + i
      ensures plan.tiles[q].elems[e].from == x.join.info.CountA() + i
    {
      ElemSlots(x, q, e);
    }
  }

  /** A join of one tile has nothing to copy wrongly. */
  predicate OneTile(info: OpInfo) {
    info.CountA() <= info.maxTileWidth
  }

  lemma OneTileOnly(info: OpInfo, t: Tile, t': Tile)
    requires info.Valid() && info.selfJoin && info.CountA() <= info.maxTileWidth && Needed(info, t) && Needed(info, t')
    ensures t == t' == Tile(0, 0)
  {
    NumTilesExact(info.CountA(), info.maxTileWidth, 1);
  }

  lemma SingleTile(info: OpInfo, queue: seq<Tile>)
    requires info.Valid() && info.selfJoin && OneTile(info) && Enumerates(info, queue)
    ensures |queue| <= 1
  {
    hide Enumerates, Needed;
    QueueIsNeeded(info, queue);
    if |queue| > 1 {
      OneTileOnly(info, queue[0], queue[1]);
    }
  }

  lemma NobodyElseFills(x: Setup, q: nat, j: nat)
    requires x.Valid() && Enumerates(x.join.info, x.queue) && x.join.info.selfJoin && OneTile(x.join.info)
    requires q < |x.queue| && j < x.join.info.CountA()
    ensures MakePlan(x).OnlyTile(q, j)
  {
    hide *;
    JoinIsValid(x);
    StatsLengths(x.join);
    PlanShape(x);
    var plan, info := MakePlan(x), x.join.info;
    SingleTile(info, x.queue);
    OnlyTileIs(plan, q, j);
  }

  lemma OnlyTileIs(plan: W.Plan, q: nat, c: nat)
    requires forall q': nat, e: nat
      | q' < |plan.tiles| && q' != q && e < |plan.tiles[q'].elems| && plan.tiles[q'].elems[e].slot == c
      :: plan.tiles[q'].elems[e].cells == {}
    ensures plan.OnlyTile(q, c)
  {
  }

  lemma SeedOfRow(info: OpInfo, m: Mode, s: int, from: int, i: nat)
    requires info.Valid() && m.keepRows && info.selfJoin && !m.indexed && s == info.CountA() + i && i < info.CountB()
    requires
      || (s == from && s < info.CountA())
      || (RowsMerged(info, m) && s - RowBase(info, m) == from - SeedBase(info, m))
    ensures from == i < info.CountA() && s < NumSlots(info, m) && i < NumSlots(info, m)
  {
  }

  /** Without an index, the kept rows of a self-join are copied from its columns. */
  lemma RowSeeded(x: Setup, q: nat, e: nat, i: nat)
    requires x.Valid() && Enumerates(x.join.info, x.queue) && x.join.info.selfJoin && OneTile(x.join.info)
    requires x.mode.rows && x.mode.keepRows && !x.mode.indexed && i < x.join.info.CountB()
    requires q < |MakePlan(x).tiles| && e < |MakePlan(x).tiles[q].elems|
    requires MakePlan(x).tiles[q].elems[e].slot == x.join.info.CountA() + i
    requires MakePlan(x).ElemValid(MakePlan(x).tiles[q].elems[e])
    ensures |MakePlan(x).dists| == |MakePlan(x).initial| && MakePlan(x).Seeded(q, MakePlan(x).tiles[q].elems[e])
  {
    hide *;
    JoinIsValid(x);
    StatsLengths(x.join);
    PlanShape(x);
    ElemSlots(x, q, e);
    var plan, info := MakePlan(x), x.join.info;
    var el := plan.tiles[q].elems[e];
    SeedOfRow(info, x.mode, el.slot, el.from, i);
    ColumnOwnsSlot(x, i);
    NobodyElseFills(x, q, i);
    PlanSlot(x, i);
    PlanSlot(x, el.slot);
    CopiedIsSeeded(plan, q, el);
  }

  lemma CopiedIsSeeded(plan: W.Plan, q: nat, el: W.Elem)
    requires |plan.dists| == |plan.initial| && plan.ElemValid(el)
    requires plan.OwnSlot(el.from) && plan.OnlyTile(q, el.from)
    requires plan.initial[el.from].value <= plan.initial[el.slot].value
    ensures plan.Seeded(q, el)
  {
  }

  /** A kept row ends right when its buffers were copied from its own profile, or when there was nothing to copy. */
  lemma RowSlotExact(x: Setup, i: nat)
    requires x.Valid() && Enumerates(x.join.info, x.queue)
    requires x.mode.rows && x.mode.keepRows && i < x.join.info.CountB()
    requires x.join.kind.SumThresh? || SeedsMatch(x.join.info, x.mode) || OneTile(x.join.info)
    ensures MakePlan(x).Valid() && MakePlan(x).SlotExact(x.join.info.CountA() + i)
  {
    StatsLengths(x.join);
    hide MakePlan, Join.Valid, AllNeeded, Enumerates, Setup.Valid, W.Plan.Valid, OneTile, W.Plan.OwnSlot,
      W.Plan.OnlyTile, NumSlots, W.Plan.ElemValid;
    var plan, info := MakePlan(x), x.join.info;
    PlanShape(x);
    PlanIsValid(x);
    if plan.kind.Nearest? {
      if SeedsMatch(info, x.mode) {
        RowOwnsSlot(x, i);
        W.OwnSlotIsExact(plan, info.CountA() + i);
      } else {
        forall q: nat, e: nat
          | q < |plan.tiles| && e < |plan.tiles[q].elems| && plan.tiles[q].elems[e].slot == info.CountA() + i
          ensures plan.ElemValid(plan.tiles[q].elems[e]) && plan.Seeded(q, plan.tiles[q].elems[e])
        {
          W.ElemIsValid(plan, q, e);
          RowSeeded(x, q, e, i);
        }
      }
    }
  }
}
