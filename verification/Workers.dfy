/**
 The worker threads of a join as interleaved steps: popping tiles, copying a snapshot of the global profile
 without a lock, running a tile, and merging it back element by element, each part under the lock of its profile.
 */
module Workers {
  import opened Profiles

  /** One element of a tile's profile buffers. It starts as a copy of slot `from` of the global profile and is merged
      into `slot`; a tile-local neighbour `l` is the global neighbour `l + offset`; `cells` are the global neighbours
      the tile compares; `excess` is what running the tile adds to a sum beyond its cells. */
  datatype Elem = Elem(slot: nat, from: nat, offset: nat, span: nat, cells: set<int>, excess: real)

  /** A tile: its column elements come first, the row elements start at `split`. */
  datatype Tile = Tile(elems: seq<Elem>, split: nat)

  /** A whole join: the distances of every slot to its neighbours, the starting profile, and the tiles. The slots from
      `second` on belong to a second profile, with a lock of its own. */
  datatype Plan = Plan(kind: Kind, dists: seq<seq<Dist>>, initial: seq<Entry>, second: nat, tiles: seq<Tile>) {
    ghost predicate Valid() {
      && |dists| == |initial|
      && (kind.Nearest? ==> forall c :: 0 <= c < |initial| ==> initial[c].value >= InitDist(kind))
      && (forall t :: 0 <= t < |tiles| ==> tiles[t].split <= |tiles[t].elems|)
      && (forall t, e :: 0 <= t < |tiles| && 0 <= e < |tiles[t].elems| ==> ElemValid(tiles[t].elems[e]))
      && (forall t, e, t', e' ::
            0 <= t < |tiles| && 0 <= e < |tiles[t].elems| && 0 <= t' < |tiles| && 0 <= e' < |tiles[t'].elems|
            && (t, e) != (t', e') && tiles[t].elems[e].slot == tiles[t'].elems[e'].slot
            ==> tiles[t].elems[e].cells !! tiles[t'].elems[e'].cells)
      && (forall t :: 0 <= t < |tiles| ==> OneLockEach(tiles[t]))
    }

    /** The lock that guards a slot: 0 for the first profile, 1 for the second. */
    function LockOf(slot: nat): nat {
      if slot < second then 0 else 1
    }

    /** The elements of each part of a tile go to the same profile. */
    ghost predicate OneLockEach(tile: Tile) {
      forall e, e' :: 0 <= e < |tile.elems| && 0 <= e' < |tile.elems| && (e < tile.split <==> e' < tile.split) ==>
        LockOf(tile.elems[e].slot) == LockOf(tile.elems[e'].slot)
    }

    ghost predicate ElemValid(el: Elem) {
      && el.slot < |dists| && el.from < |dists| && el.offset + el.span <= |dists[el.slot]|
      && forall g :: g in el.cells ==> el.offset <= g < el.offset + el.span
    }

    /** Whatever is merged into slot `c` started as a copy of slot `c`. */
    ghost predicate OwnSlot(c: nat) {
      forall t, e :: 0 <= t < |tiles| && 0 <= e < |tiles[t].elems| && tiles[t].elems[e].slot == c ==>
        tiles[t].elems[e].from == c
    }

    /** No tile but `t` compares slot `c` with anything. */
    ghost predicate OnlyTile(t: nat, c: nat) {
      forall t', e :: 0 <= t' < |tiles| && t' != t && 0 <= e < |tiles[t'].elems| && tiles[t'].elems[e].slot == c ==>
        tiles[t'].elems[e].cells == {}
    }

    /** Where an element of tile `t` is copied from can do no harm: it is its own slot, or one that still has its
        starting value whenever `t` reads it. */
    ghost predicate Seeded(t: nat, el: Elem)
      requires |dists| == |initial| && ElemValid(el)
    {
      || el.from == el.slot
      || (OwnSlot(el.from) && OnlyTile(t, el.from) && initial[el.from].value <= initial[el.slot].value)
    }

    /** All elements merged into slot `c` are copied from harmless places; sums are never copied. */
    ghost predicate SlotExact(c: nat)
      requires Valid()
    {
      kind.Nearest? ==>
        forall t, e :: 0 <= t < |tiles| && 0 <= e < |tiles[t].elems| && tiles[t].elems[e].slot == c ==>
          Seeded(t, tiles[t].elems[e])
    }
  }

  datatype Worker =
    | Checking
    | Popping
    | Reading(t: nat, k: nat, buf: seq<Entry>)
    | Computing(t: nat, buf: seq<Entry>)
    | Merging(t: nat, k: nat, buf: seq<Entry>, end: int, loaded: Loaded)
    | Exited

  datatype Loaded = NotLoaded | IsLoaded(entry: Entry)

  /** `holders[l]` is the worker that holds lock `l`, or -1. `merged[t]` counts the elements of tile `t` merged so far;
      no thread reads it. */
  datatype State = State(queue: seq<nat>, workers: seq<Worker>, profile: seq<Entry>, holders: seq<int>,
    merged: seq<nat>)

  predicate Holds(w: Worker, t: nat) {
    (w.Reading? || w.Computing? || w.Merging?) && w.t == t
  }

  /** A merging worker between its acquire and its release has the lock of the part it merges. */
  predicate HasLock(plan: Plan, w: Worker, l: nat) {
    && w.Merging? && w.t < |plan.tiles| && 0 < w.end <= |plan.tiles[w.t].elems|
    && plan.LockOf(plan.tiles[w.t].elems[w.end - 1].slot) == l
  }

  // ---------- The steps ----------

  ghost predicate Init(plan: Plan, s: State) {
    && |s.queue| == |plan.tiles| && (forall i :: 0 <= i < |s.queue| ==> s.queue[i] < |plan.tiles|)
    && (forall i, j :: 0 <= i < j < |s.queue| ==> s.queue[i] != s.queue[j])
    && (forall t: nat :: t < |plan.tiles| ==> t in s.queue)
    && (forall w :: 0 <= w < |s.workers| ==> s.workers[w].Checking?)
    && s.profile == plan.initial && s.holders == [-1, -1]
    && s.merged == seq(|plan.tiles|, _ => 0)
  }

  predicate Check(s: State, s': State, w: nat)
    requires w < |s.workers|
  {
    && s.workers[w].Checking?
    && s' == s.(workers := s.workers[w := if s.queue == [] then Exited else Popping])
  }

  /** Another worker may have emptied the queue since the check; the sentinel then ends the loop. */
  predicate Pop(plan: Plan, s: State, s': State, w: nat)
    requires w < |s.workers|
  {
    && s.workers[w].Popping?
    && if s.queue == [] then s' == s.(workers := s.workers[w := Exited])
       else
         && s.queue[0] < |plan.tiles|
         && s' == s.(queue := s.queue[1..],
                     workers := s.workers[w := Reading(s.queue[0], 0,
                       seq(|plan.tiles[s.queue[0]].elems|, _ => InitEntry(plan.kind)))])
  }

  /** Copy one element of the snapshot; a sum starts from zeros and copies nothing. */
  predicate Read(plan: Plan, s: State, s': State, w: nat)
    requires w < |s.workers|
  {
    var v := s.workers[w];
    && v.Reading? && v.t < |plan.tiles|
    && var elems := plan.tiles[v.t].elems;
       && |v.buf| == |elems|
       && if plan.kind.SumThresh? || v.k >= |elems| then
            s' == s.(workers := s.workers[w := Computing(v.t, v.buf)])
          else
            && elems[v.k].from < |s.profile|
            && s' == s.(workers := s.workers[w := Reading(v.t, v.k + 1, v.buf[v.k := s.profile[elems[v.k].from]])])
  }

  /** Global positions in `[offset, offset + span)` as tile-local ones. */
  function Shift(cells: set<int>, offset: int, span: int): (r: set<int>)
    ensures forall l :: l in r <==> 0 <= l < span && l + offset in cells
  {
    set l | l in Range(0, span) && l + offset in cells
  }

  /** The distances of an element to the neighbours its tile can see, in tile-local positions. */
  ghost function LocalDists(plan: Plan, el: Elem): seq<Dist>
    requires plan.ElemValid(el)
  {
    plan.dists[el.slot][el.offset..el.offset + el.span]
  }

  ghost predicate ElemResult(plan: Plan, el: Elem, was: Entry, now: Entry)
    requires plan.ElemValid(el)
  {
    Gathered(plan.kind, LocalDists(plan, el), Raised(plan.kind, was, el.excess), Shift(el.cells, el.offset, el.span),
      now)
  }

  /** What running a tile does to its buffers: every element gathers its cells, in local positions, and its excess. */
  ghost predicate TileResult(plan: Plan, t: nat, buf: seq<Entry>, buf': seq<Entry>)
    requires plan.Valid() && t < |plan.tiles|
  {
    var elems := plan.tiles[t].elems;
    && |buf| == |buf'| == |elems|
    && forall e :: 0 <= e < |elems| ==> ElemResult(plan, elems[e], buf[e], buf'[e])
  }

  ghost predicate Compute(plan: Plan, s: State, s': State, w: nat)
    requires plan.Valid() && w < |s.workers|
  {
    var v := s.workers[w];
    && v.Computing? && v.t < |plan.tiles|
    && exists buf' :: TileResult(plan, v.t, v.buf, buf')
         && s' == s.(workers := s.workers[w := Merging(v.t, 0, buf', -1, NotLoaded)])
  }

  /** Where the part of a tile that holds element `k` ends. */
  function PartEnd(tile: Tile, k: nat): nat {
    if k < tile.split then tile.split else |tile.elems|
  }

  /** A lock is taken once for the column elements and once for the row elements: that of the profile they go to. */
  predicate Acquire(plan: Plan, s: State, s': State, w: nat)
    requires w < |s.workers|
  {
    var v := s.workers[w];
    && v.Merging? && v.t < |plan.tiles| && v.end < 0 && v.k < |plan.tiles[v.t].elems|
    && var end, l := PartEnd(plan.tiles[v.t], v.k), plan.LockOf(plan.tiles[v.t].elems[v.k].slot);
       && l < |s.holders| && s.holders[l] == -1
       && s' == s.(holders := s.holders[l := w], workers := s.workers[w := v.(end := end)])
  }

  /** The locks are apart: a part that goes to the first profile waits for nobody who merges into the second, and the
      other way round. */
  lemma LocksAreApart(plan: Plan, s: State, w: nat)
    requires w < |s.workers| && |s.holders| == 2 && s.workers[w].Merging? && s.workers[w].end < 0
    requires s.workers[w].t < |plan.tiles| && s.workers[w].k < |plan.tiles[s.workers[w].t].elems|
    ensures
      var slot := plan.tiles[s.workers[w].t].elems[s.workers[w].k].slot;
      (exists s' :: Acquire(plan, s, s', w)) <==> s.holders[if slot < plan.second then 0 else 1] == -1
  {
    var v := s.workers[w];
    var l := plan.LockOf(plan.tiles[v.t].elems[v.k].slot);
    if s.holders[l] == -1 {
      var s' := s.(holders := s.holders[l := w], workers := s.workers[w := v.(end := PartEnd(plan.tiles[v.t], v.k))]);
      assert Acquire(plan, s, s', w);
    }
  }

  predicate Load(plan: Plan, s: State, s': State, w: nat)
    requires w < |s.workers|
  {
    var v := s.workers[w];
    && v.Merging? && v.t < |plan.tiles| && v.loaded.NotLoaded? && v.k < v.end <= |plan.tiles[v.t].elems|
    && plan.tiles[v.t].elems[v.k].slot < |s.profile|
    && s' == s.(workers := s.workers[w := v.(loaded := IsLoaded(s.profile[plan.tiles[v.t].elems[v.k].slot]))])
  }

  /** The element-wise sum, or the element-wise maximum with its index rebased. */
  function MergeElem(kind: Kind, e1: Entry, e2: Entry, offset: int): Entry {
    match kind
    case SumThresh(_) => e1.(value := e1.value + e2.value)
    case Nearest => if e1.value < e2.value then Entry(e2.value, e2.index + offset) else e1
  }

  predicate Store(plan: Plan, s: State, s': State, w: nat)
    requires w < |s.workers|
  {
    var v := s.workers[w];
    && v.Merging? && v.t < |plan.tiles| && v.t < |s.merged| && v.loaded.IsLoaded?
    && v.k < |plan.tiles[v.t].elems| && v.k < |v.buf|
    && var el := plan.tiles[v.t].elems[v.k];
       && el.slot < |s.profile|
       && s' == s.(profile := s.profile[el.slot := MergeElem(plan.kind, v.loaded.entry, v.buf[v.k], el.offset)],
                   merged := s.merged[v.t := v.k + 1],
                   workers := s.workers[w := v.(k := v.k + 1, loaded := NotLoaded)])
  }

  predicate Release(plan: Plan, s: State, s': State, w: nat)
    requires w < |s.workers|
  {
    var v := s.workers[w];
    && v.Merging? && v.t < |plan.tiles| && 0 < v.k == v.end <= |plan.tiles[v.t].elems| && v.loaded.NotLoaded?
    && var l := plan.LockOf(plan.tiles[v.t].elems[v.end - 1].slot);
       && l < |s.holders|
       && s' == s.(holders := s.holders[l := -1], workers := s.workers[w := v.(end := -1)])
  }

  predicate Finish(plan: Plan, s: State, s': State, w: nat)
    requires w < |s.workers|
  {
    var v := s.workers[w];
    && v.Merging? && v.t < |plan.tiles| && v.end < 0 && v.k >= |plan.tiles[v.t].elems|
    && s' == s.(workers := s.workers[w := Checking])
  }

  ghost predicate WorkerStep(plan: Plan, s: State, s': State, w: nat)
    requires plan.Valid()
  {
    && w < |s.workers|
    && (|| Check(s, s', w) || Pop(plan, s, s', w) || Read(plan, s, s', w) || Compute(plan, s, s', w)
        || Acquire(plan, s, s', w) || Load(plan, s, s', w) || Store(plan, s, s', w) || Release(plan, s, s', w)
        || Finish(plan, s, s', w))
  }

  /** Any worker may take the next step. */
  ghost predicate Step(plan: Plan, s: State, s': State)
    requires plan.Valid()
  {
    exists w: nat :: WorkerStep(plan, s, s', w)
  }

  ghost predicate Run(plan: Plan, run: seq<State>)
    requires plan.Valid()
  {
    && |run| > 0 && Init(plan, run[0])
    && forall i :: 0 <= i < |run| - 1 ==> Step(plan, run[i], run[i + 1])
  }

  // ---------- What every step keeps ----------

  /** The neighbours already merged into a slot. */
  ghost function MergedAt(plan: Plan, merged: seq<nat>, c: nat): set<int>
    requires |merged| == |plan.tiles| && forall t :: 0 <= t < |merged| ==> merged[t] <= |plan.tiles[t].elems|
  {
    set t, e, g | 0 <= t < |merged| && 0 <= e < merged[t] && plan.tiles[t].elems[e].slot == c
                  && g in plan.tiles[t].elems[e].cells :: g
  }

  /** The excess of the first `n` of some elements that goes to slot `c`. */
  ghost function ElemsExcess(elems: seq<Elem>, n: nat, c: nat): real
    requires n <= |elems|
  {
    if n == 0 then 0.0 else ElemsExcess(elems, n - 1, c) + if elems[n - 1].slot == c then elems[n - 1].excess else 0.0
  }

  /** The excess merged into slot `c` by the first `n` tiles. */
  ghost function ExcessAt(plan: Plan, merged: seq<nat>, n: nat, c: nat): real
    requires |merged| == |plan.tiles| && n <= |merged|
    requires forall t :: 0 <= t < |merged| ==> merged[t] <= |plan.tiles[t].elems|
  {
    if n == 0 then 0.0
    else ExcessAt(plan, merged, n - 1, c) + ElemsExcess(plan.tiles[n - 1].elems, merged[n - 1], c)
  }

  /** Where slot `c` starts from, with the excess merged so far. */
  ghost function StartAt(plan: Plan, merged: seq<nat>, c: nat): Entry
    requires |merged| == |plan.tiles| && c < |plan.initial|
    requires forall t :: 0 <= t < |merged| ==> merged[t] <= |plan.tiles[t].elems|
  {
    Raised(plan.kind, plan.initial[c], ExcessAt(plan, merged, |merged|, c))
  }

  ghost predicate Shaped(plan: Plan, s: State) {
    && |s.profile| == |plan.initial| == |plan.dists|
    && |s.merged| == |plan.tiles| && (forall t :: 0 <= t < |s.merged| ==> s.merged[t] <= |plan.tiles[t].elems|)
  }

  /** Every exact slot holds exactly what its merged neighbours amount to. */
  ghost predicate ProfileOk(plan: Plan, s: State)
    requires plan.Valid() && Shaped(plan, s)
  {
    forall c :: 0 <= c < |s.profile| && plan.SlotExact(c) ==> SlotOk(plan, s.merged, c, s.profile[c])
  }

  ghost predicate SlotOk(plan: Plan, merged: seq<nat>, c: nat, entry: Entry)
    requires |merged| == |plan.tiles| && c < |plan.initial| == |plan.dists|
    requires forall t :: 0 <= t < |merged| ==> merged[t] <= |plan.tiles[t].elems|
  {
    Gathered(plan.kind, plan.dists[c], StartAt(plan, merged, c), MergedAt(plan, merged, c), entry)
  }

  /** A snapshot entry never beats the entry that is in the profile now. */
  ghost predicate SnapshotOk(kind: Kind, profile: seq<Entry>, el: Elem, entry: Entry) {
    el.slot < |profile| && if kind.SumThresh? then entry.value == 0.0 else entry.value <= profile[el.slot].value
  }

  /** A finished element is either stale or names one of its own tile's cells, by local position. */
  ghost predicate ResultOk(plan: Plan, profile: seq<Entry>, el: Elem, entry: Entry)
    requires plan.ElemValid(el)
  {
    && el.slot < |profile|
    && match plan.kind
       case SumThresh(t) =>
         entry.value == SumBelow(plan.dists[el.slot], el.cells, t, |plan.dists[el.slot]|) + el.excess
       case Nearest =>
         && (forall g :: g in el.cells && plan.dists[el.slot][g].Corr? ==> plan.dists[el.slot][g].v <= entry.value)
         && (entry.value <= profile[el.slot].value
             || (entry.index + el.offset in el.cells
                 && plan.dists[el.slot][entry.index + el.offset] == Corr(entry.value)))
  }

  /** The snapshots of the elements that are merged into exact slots. */
  ghost predicate SnapshotsOk(plan: Plan, profile: seq<Entry>, t: nat, buf: seq<Entry>)
    requires plan.Valid() && t < |plan.tiles| && |buf| == |plan.tiles[t].elems|
  {
    forall e :: 0 <= e < |buf| && plan.SlotExact(plan.tiles[t].elems[e].slot) ==>
      SnapshotOk(plan.kind, profile, plan.tiles[t].elems[e], buf[e])
  }

  ghost predicate ResultsOk(plan: Plan, profile: seq<Entry>, t: nat, k: nat, buf: seq<Entry>)
    requires plan.Valid() && t < |plan.tiles| && |buf| == |plan.tiles[t].elems|
  {
    forall e :: k <= e < |buf| && plan.SlotExact(plan.tiles[t].elems[e].slot) ==>
      ResultOk(plan, profile, plan.tiles[t].elems[e], buf[e])
  }

  ghost predicate WorkerOk(plan: Plan, s: State, w: nat)
    requires plan.Valid() && w < |s.workers| && |s.merged| == |plan.tiles|
  {
    var v := s.workers[w];
    && (forall l: nat :: l < |s.holders| ==> (s.holders[l] == w <==> HasLock(plan, v, l)))
    && match v
       case Reading(t, k, buf) =>
         && t < |plan.tiles| && |buf| == |plan.tiles[t].elems| && s.merged[t] == 0 && k <= |buf|
         && SnapshotsOk(plan, s.profile, t, buf)
       case Computing(t, buf) =>
         && t < |plan.tiles| && |buf| == |plan.tiles[t].elems| && s.merged[t] == 0
         && SnapshotsOk(plan, s.profile, t, buf)
       case Merging(t, k, buf, end, loaded) =>
         && t < |plan.tiles| && |buf| == |plan.tiles[t].elems| && s.merged[t] == k <= |buf|
         && (end >= 0 ==> k <= end <= |buf| && 0 < end && (k < plan.tiles[t].split ==> end <= plan.tiles[t].split))
         && (loaded.IsLoaded? ==> k < end && plan.tiles[t].elems[k].slot < |s.profile|
                                  && loaded.entry == s.profile[plan.tiles[t].elems[k].slot])
         && ResultsOk(plan, s.profile, t, k, buf)
       case Exited => s.queue == []
       case _ => true
  }

  /** Every tile is queued, held by one worker, or merged in full. */
  ghost predicate TilesOk(plan: Plan, s: State)
    requires |s.merged| == |plan.tiles|
  {
    && (forall i :: 0 <= i < |s.queue| ==> s.queue[i] < |plan.tiles| && s.merged[s.queue[i]] == 0)
    && (forall i, j :: 0 <= i < j < |s.queue| ==> s.queue[i] != s.queue[j])
    && (forall i, w :: 0 <= i < |s.queue| && 0 <= w < |s.workers| ==> !Holds(s.workers[w], s.queue[i]))
    && (forall w, w', t: nat :: 0 <= w < w' < |s.workers| && Holds(s.workers[w], t) ==> !Holds(s.workers[w'], t))
    && (forall t: nat :: t < |plan.tiles| ==>
          || t in s.queue || s.merged[t] == |plan.tiles[t].elems|
          || exists w :: 0 <= w < |s.workers| && Holds(s.workers[w], t))
  }

  ghost predicate HoldersOk(s: State) {
    |s.holders| == 2 && forall l :: 0 <= l < |s.holders| ==> -1 <= s.holders[l] < |s.workers|
  }

  ghost predicate Inv(plan: Plan, s: State)
    requires plan.Valid()
  {
    && Shaped(plan, s) && ProfileOk(plan, s) && TilesOk(plan, s) && HoldersOk(s)
    && forall w :: 0 <= w < |s.workers| ==> WorkerOk(plan, s, w)
  }

  lemma InitEstablishesInv(plan: Plan, s: State)
    requires plan.Valid() && Init(plan, s)
    ensures Inv(plan, s)
  {
    hide Plan.SlotExact;
    forall c: nat | c < |s.profile| ensures SlotOk(plan, s.merged, c, s.profile[c]) {
      NoExcessYet(plan, s.merged, |s.merged|, c);
      assert Raised(plan.kind, plan.initial[c], 0.0) == plan.initial[c];
      assert MergedAt(plan, s.merged, c) == {};
      GatherNothing(plan.kind, plan.dists[c], plan.initial[c]);
    }
  }

  lemma {:induction false} NoExcessYet(plan: Plan, merged: seq<nat>, n: nat, c: nat)
    requires |merged| == |plan.tiles| && n <= |merged| && forall t :: 0 <= t < |merged| ==> merged[t] == 0
    ensures ExcessAt(plan, merged, n, c) == 0.0
  {
    if n > 0 {
      NoExcessYet(plan, merged, n - 1, c);
    }
  }

  // ---------- Running a tile ----------

  lemma {:induction false} SumBelowOutside(f: seq<Dist>, cells: set<int>, threshold: real, lo: nat, n: nat)
    requires lo <= n <= |f| && forall g :: g in cells ==> !(lo <= g < n)
    ensures SumBelow(f, cells, threshold, n) == SumBelow(f, cells, threshold, lo)
  {
    if n > lo {
      SumBelowOutside(f, cells, threshold, lo, n - 1);
    }
  }

  lemma {:induction false} SumBelowShift(f: seq<Dist>, cells: set<int>, offset: nat, span: nat, threshold: real, n: nat)
    requires offset + span <= |f| && n <= span && forall g :: g in cells ==> offset <= g < offset + span
    ensures SumBelow(f[offset..offset + span], Shift(cells, offset, span), threshold, n) == SumBelow(f, cells,
      threshold, offset + n)
  {
    if n == 0 {
      SumBelowOutside(f, cells, threshold, 0, offset);
    } else {
      SumBelowShift(f, cells, offset, span, threshold, n - 1);
    }
  }

  /** A tile run from an admissible snapshot gives an admissible result. */
  lemma ResultFromSnapshot(plan: Plan, profile: seq<Entry>, el: Elem, entry: Entry, entry': Entry)
    requires plan.ElemValid(el) && SnapshotOk(plan.kind, profile, el, entry)
    requires ElemResult(plan, el, entry, entry')
    ensures ResultOk(plan, profile, el, entry')
  {
    var f := plan.dists[el.slot];
    if plan.kind.SumThresh? {
      SumBelowShift(f, el.cells, el.offset, el.span, plan.kind.threshold, el.span);
      SumBelowOutside(f, el.cells, plan.kind.threshold, el.offset + el.span, |f|);
    } else {
      forall g | g in el.cells && f[g].Corr? ensures f[g].v <= entry'.value {
        assert (g - el.offset) + el.offset in el.cells;
        assert LocalDists(plan, el)[g - el.offset] == f[g];
      }
    }
  }

  /** Merging an admissible result leaves the slot exactly as if its cells had been merged one by one. */
  lemma MergeGathers(plan: Plan, profile: seq<Entry>, el: Elem, entry: Entry, start: Entry, done: set<int>)
    requires plan.Valid() && plan.ElemValid(el) && ResultOk(plan, profile, el, entry)
    requires Gathered(plan.kind, plan.dists[el.slot], start, done, profile[el.slot])
    requires done !! el.cells
    ensures Gathered(plan.kind, plan.dists[el.slot], Raised(plan.kind, start, el.excess), done + el.cells,
              MergeElem(plan.kind, profile[el.slot], entry, el.offset))
  {
    if plan.kind.SumThresh? {
      SumBelowUnion(plan.dists[el.slot], done, el.cells, plan.kind.threshold, |plan.dists[el.slot]|);
    }
  }

  /** Two elements of one slot never share a neighbour. */
  lemma MergedAtDisjoint(plan: Plan, merged: seq<nat>, t: nat, c: nat)
    requires plan.Valid() && |merged| == |plan.tiles| && t < |merged| && merged[t] < |plan.tiles[t].elems|
    requires forall t :: 0 <= t < |merged| ==> merged[t] <= |plan.tiles[t].elems|
    requires plan.tiles[t].elems[merged[t]].slot == c
    ensures MergedAt(plan, merged, c) !! plan.tiles[t].elems[merged[t]].cells
  {
    var el := plan.tiles[t].elems[merged[t]];
    forall g | g in MergedAt(plan, merged, c) ensures g !in el.cells {
      var u, e :| 0 <= u < |merged| && 0 <= e < merged[u] && plan.tiles[u].elems[e].slot == c
        && g in plan.tiles[u].elems[e].cells;
      assert (u, e) != (t, merged[t]);
      assert plan.tiles[u].elems[e].cells !! el.cells;
    }
  }

  lemma MergedAtStep(plan: Plan, merged: seq<nat>, t: nat, c: nat)
    requires plan.Valid() && |merged| == |plan.tiles| && t < |merged| && merged[t] < |plan.tiles[t].elems|
    requires forall t :: 0 <= t < |merged| ==> merged[t] <= |plan.tiles[t].elems|
    ensures
      var el := plan.tiles[t].elems[merged[t]];
      MergedAt(plan, merged[t := merged[t] + 1], c) == MergedAt(plan, merged, c) + (if el.slot == c then el.cells
        else {})
  {
    var el := plan.tiles[t].elems[merged[t]];
    var merged' := merged[t := merged[t] + 1];
    var before, after := MergedAt(plan, merged, c), MergedAt(plan, merged', c);
    var added := if el.slot == c then el.cells else {};
    forall g ensures g in after <==> g in before + added {
      MergedAtCell(plan, merged, t, c, g);
    }
  }

  lemma MergedAtCell(plan: Plan, merged: seq<nat>, t: nat, c: nat, g: int)
    requires |merged| == |plan.tiles| && t < |merged| && merged[t] < |plan.tiles[t].elems|
    requires forall t :: 0 <= t < |merged| ==> merged[t] <= |plan.tiles[t].elems|
    ensures
      var el := plan.tiles[t].elems[merged[t]];
      g in MergedAt(plan, merged[t := merged[t] + 1], c) <==>
        g in MergedAt(plan, merged, c) || (el.slot == c && g in el.cells)
  {
    var el := plan.tiles[t].elems[merged[t]];
    var merged' := merged[t := merged[t] + 1];
    if g in MergedAt(plan, merged', c) {
      var u, e :| 0 <= u < |merged'| && 0 <= e < merged'[u] && plan.tiles[u].elems[e].slot == c
        && g in plan.tiles[u].elems[e].cells;
      if (u, e) != (t, merged[t]) {
        assert e < merged[u];
      }
    }
    if g in MergedAt(plan, merged, c) {
      var u, e :| 0 <= u < |merged| && 0 <= e < merged[u] && plan.tiles[u].elems[e].slot == c
        && g in plan.tiles[u].elems[e].cells;
      assert e < merged'[u];
    }
    if el.slot == c && g in el.cells {
      assert merged[t] < merged'[t];
    }
  }

  lemma {:induction false} ExcessStep(plan: Plan, merged: seq<nat>, t: nat, n: nat, c: nat)
    requires |merged| == |plan.tiles| && t < |merged| && n <= |merged| && merged[t] < |plan.tiles[t].elems|
    requires forall t :: 0 <= t < |merged| ==> merged[t] <= |plan.tiles[t].elems|
    ensures
      var el := plan.tiles[t].elems[merged[t]];
      ExcessAt(plan, merged[t := merged[t] + 1], n, c)
        == ExcessAt(plan, merged, n, c) + if t < n && el.slot == c then el.excess else 0.0
  {
    if n > 0 {
      ExcessStep(plan, merged, t, n - 1, c);
    }
  }

  // ---------- Every step keeps the invariant ----------

  /** A step that only moves worker `w` on, with the same tile or none, keeps the tile accounts. */
  lemma SameTileKeepsTilesOk(plan: Plan, s: State, s': State, w: nat, v: Worker)
    requires plan.Valid() && Inv(plan, s) && w < |s.workers|
    requires s'.queue == s.queue && s'.merged == s.merged && s'.workers == s.workers[w := v]
    requires forall t: nat :: Holds(v, t) ==> Holds(s.workers[w], t)
    requires forall t: nat :: Holds(s.workers[w], t) ==>
      Holds(v, t) || (t < |plan.tiles| && s.merged[t] == |plan.tiles[t].elems|)
    ensures TilesOk(plan, s')
  {
    forall t: nat | t < |plan.tiles| && t !in s'.queue && s'.merged[t] != |plan.tiles[t].elems|
      ensures exists u :: 0 <= u < |s'.workers| && Holds(s'.workers[u], t)
    {
      var u :| 0 <= u < |s.workers| && Holds(s.workers[u], t);
      assert Holds(s'.workers[u], t);
    }
  }

  ghost predicate SameHolds(s: State, s': State, u: int) {
    |s'.holders| == |s.holders| && forall l :: 0 <= l < |s.holders| ==> (s'.holders[l] == u <==> s.holders[l] == u)
  }

  /** A step that leaves the profile and the merged counts alone concerns no other worker. */
  lemma OthersStayOk(plan: Plan, s: State, s': State, u: nat)
    requires plan.Valid() && u < |s.workers| == |s'.workers| && |s.merged| == |plan.tiles| && WorkerOk(plan, s, u)
    requires s'.workers[u] == s.workers[u] && s'.profile == s.profile && s'.merged == s.merged
    requires (s.queue == [] ==> s'.queue == []) && SameHolds(s, s', u)
    ensures WorkerOk(plan, s', u)
  {
    hide ResultsOk, SnapshotsOk, Plan.Valid;
  }

  lemma SameProfileOk(plan: Plan, s: State, s': State)
    requires plan.Valid() && Shaped(plan, s) && ProfileOk(plan, s) && s'.profile == s.profile && s'.merged == s.merged
    ensures Shaped(plan, s') && ProfileOk(plan, s')
  {
    hide SlotOk, Plan.SlotExact;
  }

  lemma CheckKeepsInv(plan: Plan, s: State, s': State, w: nat)
    requires plan.Valid() && Inv(plan, s) && w < |s.workers| && Check(s, s', w)
    ensures Inv(plan, s')
  {
    hide Gathered, ResultsOk, SnapshotsOk, SlotOk, Plan.SlotExact;
    SameTileKeepsTilesOk(plan, s, s', w, s'.workers[w]);
    forall u | 0 <= u < |s'.workers| ensures WorkerOk(plan, s', u) {
      assert WorkerOk(plan, s, u);
    }
  }

  lemma PopKeepsInv(plan: Plan, s: State, s': State, w: nat)
    requires plan.Valid() && Inv(plan, s) && w < |s.workers| && Pop(plan, s, s', w)
    ensures Inv(plan, s')
  {
    SameProfileOk(plan, s, s');
    hide Gathered, ResultsOk, SnapshotsOk, Plan.Valid, Plan.SlotExact, ProfileOk, TilesOk;
    if s.queue == [] {
      SameTileKeepsTilesOk(plan, s, s', w, Exited);
    } else {
      PopKeepsTilesOk(plan, s, s', w);
    }
    forall u: nat | u < |s'.workers| ensures WorkerOk(plan, s', u) {
      if u == w {
        PoppedWorkerOk(plan, s, s', w);
      } else {
        OthersStayOk(plan, s, s', u);
      }
    }
  }

  lemma PoppedWorkerOk(plan: Plan, s: State, s': State, w: nat)
    requires plan.Valid() && Inv(plan, s) && w < |s.workers| && Pop(plan, s, s', w)
    ensures WorkerOk(plan, s', w)
  {
    hide Gathered, ResultsOk, SlotOk, Plan.SlotExact;
    assert WorkerOk(plan, s, w);
    if s.queue != [] {
      var t := s.queue[0];
      forall e | 0 <= e < |plan.tiles[t].elems| && plan.SlotExact(plan.tiles[t].elems[e].slot)
        ensures SnapshotOk(plan.kind, s.profile, plan.tiles[t].elems[e], InitEntry(plan.kind))
      {
        assert plan.ElemValid(plan.tiles[t].elems[e]);
        if plan.kind.Nearest? {
          FloorHolds(plan, s, plan.tiles[t].elems[e].slot);
        }
      }
    }
  }

  lemma FloorHolds(plan: Plan, s: State, c: nat)
    requires plan.Valid() && Shaped(plan, s) && ProfileOk(plan, s) && c < |s.profile| && plan.kind.Nearest?
    requires plan.SlotExact(c)
    ensures s.profile[c].value >= plan.initial[c].value >= InitDist(plan.kind)
  {
    assert SlotOk(plan, s.merged, c, s.profile[c]);
  }

  lemma PopKeepsTilesOk(plan: Plan, s: State, s': State, w: nat)
    requires plan.Valid() && Inv(plan, s) && w < |s.workers| && Pop(plan, s, s', w) && s.queue != []
    ensures |s'.merged| == |plan.tiles| && TilesOk(plan, s')
  {
    hide Gathered, ResultsOk, SnapshotsOk, ProfileOk, WorkerOk;
    var t0 := s.queue[0];
    forall t: nat | t < |plan.tiles| && t !in s'.queue && s'.merged[t] != |plan.tiles[t].elems|
      ensures exists u :: 0 <= u < |s'.workers| && Holds(s'.workers[u], t)
    {
      if t == t0 {
        assert Holds(s'.workers[w], t);
      } else {
        assert s.queue == [t0] + s'.queue;
        var u :| 0 <= u < |s.workers| && Holds(s.workers[u], t);
        assert Holds(s'.workers[u], t);
      }
    }
  }

  /** A copy taken from a harmless place never beats the element's own slot. */
  lemma CopyIsOk(plan: Plan, s: State, t: nat, e: nat)
    requires plan.Valid() && Shaped(plan, s) && ProfileOk(plan, s) && plan.kind.Nearest?
    requires t < |plan.tiles| && s.merged[t] == 0 && e < |plan.tiles[t].elems|
    requires plan.SlotExact(plan.tiles[t].elems[e].slot)
    ensures
      var el := plan.tiles[t].elems[e];
      el.from < |s.profile| && SnapshotOk(plan.kind, s.profile, el, s.profile[el.from])
  {
    hide ProfileOk, Gathered;
    var el := plan.tiles[t].elems[e];
    assert plan.ElemValid(el) && plan.Seeded(t, el);
    if el.from != el.slot {
      FloorHolds(plan, s, el.slot);
      OwnSlotIsExact(plan, el.from);
      StillAtStart(plan, s, t, el.from);
    }
  }

  lemma ElemIsValid(plan: Plan, t: nat, e: nat)
    requires plan.Valid() && t < |plan.tiles| && e < |plan.tiles[t].elems|
    ensures plan.ElemValid(plan.tiles[t].elems[e])
  {
  }

  lemma OwnSlotIsExact(plan: Plan, c: nat)
    requires plan.Valid() && plan.OwnSlot(c)
    ensures plan.SlotExact(c)
  {
  }

  /** A slot that only an unmerged tile fills has its starting value. */
  lemma StillAtStart(plan: Plan, s: State, t: nat, c: nat)
    requires plan.Valid() && Shaped(plan, s) && ProfileOk(plan, s) && plan.kind.Nearest?
    requires t < |plan.tiles| && s.merged[t] == 0 && c < |s.profile| && plan.SlotExact(c) && plan.OnlyTile(t, c)
    ensures s.profile[c] == plan.initial[c]
  {
    hide Plan.SlotExact;
    assert SlotOk(plan, s.merged, c, s.profile[c]);
    assert MergedAt(plan, s.merged, c) == {};
  }

  lemma ReadKeepsInv(plan: Plan, s: State, s': State, w: nat)
    requires plan.Valid() && Inv(plan, s) && w < |s.workers| && Read(plan, s, s', w)
    ensures Inv(plan, s')
  {
    hide Gathered, ResultsOk, Plan.SlotExact, SlotOk;
    ReaderOk(plan, s, s', w);
    SameProfileOk(plan, s, s');
    SameTileKeepsTilesOk(plan, s, s', w, s'.workers[w]);
    hide ProfileOk, TilesOk, SnapshotsOk;
    forall u: nat | u < |s'.workers| ensures WorkerOk(plan, s', u) {
      if u != w {
        assert WorkerOk(plan, s, u);
        OthersStayOk(plan, s, s', u);
      }
    }
  }

  lemma ReaderOk(plan: Plan, s: State, s': State, w: nat)
    requires plan.Valid() && Inv(plan, s) && w < |s.workers| && Read(plan, s, s', w)
    ensures WorkerOk(plan, s', w)
  {
    hide Gathered, ResultsOk, Plan.SlotExact, SlotOk, SnapshotOk, Plan.Valid, ProfileOk, TilesOk;
    assert WorkerOk(plan, s, w);
    var v := s.workers[w];
    var elems := plan.tiles[v.t].elems;
    if plan.kind.Nearest? && v.k < |elems| && plan.SlotExact(elems[v.k].slot) {
      CopyIsOk(plan, s, v.t, v.k);
    }
  }

  lemma ComputeKeepsInv(plan: Plan, s: State, s': State, w: nat)
    requires plan.Valid() && Inv(plan, s) && w < |s.workers| && Compute(plan, s, s', w)
    ensures Inv(plan, s')
  {
    hide Gathered, ResultOk, SnapshotOk, SlotOk, Plan.SlotExact, ElemResult;
    var v := s.workers[w];
    SameTileKeepsTilesOk(plan, s, s', w, s'.workers[w]);
    forall u | 0 <= u < |s'.workers| ensures WorkerOk(plan, s', u) {
      assert WorkerOk(plan, s, u);
      if u == w {
        forall e | 0 <= e < |v.buf| && plan.SlotExact(plan.tiles[v.t].elems[e].slot)
          ensures ResultOk(plan, s.profile, plan.tiles[v.t].elems[e], s'.workers[w].buf[e])
        {
          ResultFromSnapshot(plan, s.profile, plan.tiles[v.t].elems[e], v.buf[e], s'.workers[w].buf[e]);
        }
      }
    }
  }

  lemma LockKeepsInv(plan: Plan, s: State, s': State, w: nat)
    requires plan.Valid() && Inv(plan, s) && w < |s.workers|
    requires Acquire(plan, s, s', w) || Load(plan, s, s', w) || Release(plan, s, s', w) || Finish(plan, s, s', w)
    ensures Inv(plan, s')
  {
    SameProfileOk(plan, s, s');
    hide Gathered, ResultsOk, SnapshotsOk, Plan.Valid, Plan.SlotExact, ProfileOk, TilesOk;
    LockedWorkerOk(plan, s, s', w);
    SameTileKeepsTilesOk(plan, s, s', w, s'.workers[w]);
    forall u: nat | u < |s'.workers| ensures WorkerOk(plan, s', u) {
      if u != w {
        OthersStayOk(plan, s, s', u);
      }
    }
  }

  lemma LockedWorkerOk(plan: Plan, s: State, s': State, w: nat)
    requires plan.Valid() && Inv(plan, s) && w < |s.workers|
    requires Acquire(plan, s, s', w) || Load(plan, s, s', w) || Release(plan, s, s', w) || Finish(plan, s, s', w)
    ensures WorkerOk(plan, s', w) && HoldersOk(s')
    ensures forall u: nat :: u < |s.workers| && u != w ==> SameHolds(s, s', u)
    ensures forall t: nat :: Holds(s.workers[w], t) ==>
      Holds(s'.workers[w], t) || (t < |plan.tiles| && s.merged[t] == |plan.tiles[t].elems|)
    ensures forall t: nat :: Holds(s'.workers[w], t) ==> Holds(s.workers[w], t)
  {
    hide Gathered, ResultsOk, SnapshotsOk, ProfileOk, TilesOk, Plan.SlotExact;
    assert WorkerOk(plan, s, w);
  }

  lemma StoreKeepsProfileOk(plan: Plan, s: State, s': State, w: nat)
    requires plan.Valid() && Inv(plan, s) && w < |s.workers| && Store(plan, s, s', w)
    ensures Shaped(plan, s') && ProfileOk(plan, s')
    ensures plan.kind.Nearest? ==> forall c :: 0 <= c < |s.profile| ==> s.profile[c].value <= s'.profile[c].value
  {
    hide ResultOk, Gathered, SlotOk, Plan.SlotExact, StartAt;
    var v := s.workers[w];
    assert WorkerOk(plan, s, w);
    var el := plan.tiles[v.t].elems[v.k];
    assert v.loaded.entry == s.profile[el.slot];
    forall c: nat | c < |s.profile| && plan.SlotExact(c) ensures SlotOk(plan, s'.merged, c, s'.profile[c]) {
      if c == el.slot {
        assert ResultOk(plan, s.profile, el, v.buf[v.k]);
        StoredSlotOk(plan, s.merged, v.t, s.profile, v.buf[v.k]);
      } else {
        OtherSlotOk(plan, s.merged, v.t, c, s.profile[c]);
      }
    }
  }

  lemma StoredSlotOk(plan: Plan, merged: seq<nat>, t: nat, profile: seq<Entry>, entry: Entry)
    requires plan.Valid() && |merged| == |plan.tiles| && |profile| == |plan.initial|
    requires forall t :: 0 <= t < |merged| ==> merged[t] <= |plan.tiles[t].elems|
    requires t < |merged| && merged[t] < |plan.tiles[t].elems|
    requires
      var el := plan.tiles[t].elems[merged[t]];
      plan.ElemValid(el) && SlotOk(plan, merged, el.slot, profile[el.slot]) && ResultOk(plan, profile, el, entry)
    ensures
      var el := plan.tiles[t].elems[merged[t]];
      SlotOk(plan, merged[t := merged[t] + 1], el.slot, MergeElem(plan.kind, profile[el.slot], entry, el.offset))
  {
    var el := plan.tiles[t].elems[merged[t]];
    var c := el.slot;
    assert c < |plan.initial| == |plan.dists|;
    hide Gathered, ResultOk, Plan.Valid, Plan.ElemValid, MergedAt, ExcessAt;
    MergedAtStep(plan, merged, t, c);
    MergedAtDisjoint(plan, merged, t, c);
    ExcessStep(plan, merged, t, |merged|, c);
    MergeGathers(plan, profile, el, entry, StartAt(plan, merged, c), MergedAt(plan, merged, c));
    assert Raised(plan.kind, StartAt(plan, merged, c), el.excess) == StartAt(plan, merged[t := merged[t] + 1], c);
  }

  lemma OtherSlotOk(plan: Plan, merged: seq<nat>, t: nat, c: nat, entry: Entry)
    requires plan.Valid() && |merged| == |plan.tiles| && c < |plan.initial|
    requires forall t :: 0 <= t < |merged| ==> merged[t] <= |plan.tiles[t].elems|
    requires t < |merged| && merged[t] < |plan.tiles[t].elems| && plan.tiles[t].elems[merged[t]].slot != c
    requires SlotOk(plan, merged, c, entry)
    ensures SlotOk(plan, merged[t := merged[t] + 1], c, entry)
  {
    hide Gathered, MergedAt, ExcessAt, Plan.ElemValid;
    MergedAtStep(plan, merged, t, c);
    ExcessStep(plan, merged, t, |merged|, c);
    assert MergedAt(plan, merged, c) + {} == MergedAt(plan, merged, c);
  }

  lemma ResultOkGrows(plan: Plan, profile: seq<Entry>, profile': seq<Entry>, el: Elem, entry: Entry)
    requires plan.ElemValid(el) && ResultOk(plan, profile, el, entry) && |profile'| == |profile|
    requires plan.kind.Nearest? ==> forall c :: 0 <= c < |profile| ==> profile[c].value <= profile'[c].value
    ensures ResultOk(plan, profile', el, entry)
  {
  }

  /** A worker between its load and its store has the lock that guards the slot. */
  lemma LoadedHasLock(plan: Plan, s: State, w: nat)
    requires plan.Valid() && |s.merged| == |plan.tiles| && w < |s.workers| && WorkerOk(plan, s, w)
    requires s.workers[w].Merging? && s.workers[w].loaded.IsLoaded?
    ensures
      var v := s.workers[w];
      v.k < |plan.tiles[v.t].elems| && HasLock(plan, v, plan.LockOf(plan.tiles[v.t].elems[v.k].slot))
  {
    hide ResultsOk, SnapshotsOk;
    var v := s.workers[w];
    assert plan.OneLockEach(plan.tiles[v.t]);
  }

  /** Loading and storing need the lock: no other worker is between the two on the same slot. */
  lemma LoadedSlotsDiffer(plan: Plan, s: State, w: nat, u: nat)
    requires plan.Valid() && Inv(plan, s) && w < |s.workers| && u < |s.workers| && u != w
    requires s.workers[w].Merging? && s.workers[w].loaded.IsLoaded?
    requires s.workers[u].Merging? && s.workers[u].loaded.IsLoaded?
    ensures
      var v, x := s.workers[w], s.workers[u];
      && v.t < |plan.tiles| && v.k < |plan.tiles[v.t].elems| && x.t < |plan.tiles| && x.k < |plan.tiles[x.t].elems|
      && plan.tiles[v.t].elems[v.k].slot != plan.tiles[x.t].elems[x.k].slot
  {
    hide ResultsOk, SnapshotsOk, ProfileOk, TilesOk, HasLock, Plan.Valid;
    assert WorkerOk(plan, s, w) && WorkerOk(plan, s, u);
    LoadedHasLock(plan, s, w);
    LoadedHasLock(plan, s, u);
    var v := s.workers[w];
    assert s.holders[plan.LockOf(plan.tiles[v.t].elems[v.k].slot)] == w;
  }

  lemma ResultsGrow(plan: Plan, profile: seq<Entry>, profile': seq<Entry>, t: nat, k: nat, k': nat, buf: seq<Entry>)
    requires plan.Valid() && t < |plan.tiles| && |buf| == |plan.tiles[t].elems| && k <= k'
    requires ResultsOk(plan, profile, t, k, buf) && |profile'| == |profile|
    requires plan.kind.Nearest? ==> forall c :: 0 <= c < |profile| ==> profile[c].value <= profile'[c].value
    ensures ResultsOk(plan, profile', t, k', buf)
  {
    hide ResultOk, Plan.SlotExact;
    forall e | k' <= e < |buf| && plan.SlotExact(plan.tiles[t].elems[e].slot)
      ensures ResultOk(plan, profile', plan.tiles[t].elems[e], buf[e])
    {
      assert plan.ElemValid(plan.tiles[t].elems[e]);
      ResultOkGrows(plan, profile, profile', plan.tiles[t].elems[e], buf[e]);
    }
  }

  lemma SnapshotsGrow(plan: Plan, profile: seq<Entry>, profile': seq<Entry>, t: nat, buf: seq<Entry>)
    requires plan.Valid() && t < |plan.tiles| && |buf| == |plan.tiles[t].elems|
    requires SnapshotsOk(plan, profile, t, buf) && |profile'| == |profile|
    requires plan.kind.Nearest? ==> forall c :: 0 <= c < |profile| ==> profile[c].value <= profile'[c].value
    ensures SnapshotsOk(plan, profile', t, buf)
  {
    hide Plan.SlotExact, Plan.Valid;
  }

  /** A store only lets the profile grow, and no other worker has loaded the slot it changes. */
  lemma StoreKeepsWorkerOk(plan: Plan, s: State, s': State, w: nat, u: nat)
    requires plan.Valid() && Inv(plan, s) && w < |s.workers| && Store(plan, s, s', w) && u < |s.workers|
    requires plan.kind.Nearest? ==> forall c :: 0 <= c < |s.profile| ==> s.profile[c].value <= s'.profile[c].value
    ensures WorkerOk(plan, s', u)
  {
    hide Gathered, ResultsOk, SnapshotsOk, ProfileOk, TilesOk, Plan.Valid, Inv;
    var v, x := s.workers[w], s.workers[u];
    AreOk(plan, s, w, u);
    if x.Merging? {
      ResultsGrow(plan, s.profile, s'.profile, x.t, x.k, s'.workers[u].k, x.buf);
    } else if x.Reading? || x.Computing? {
      SnapshotsGrow(plan, s.profile, s'.profile, x.t, x.buf);
    }
    if u != w && x.Merging? && x.loaded.IsLoaded? {
      LoadedSlotsDiffer(plan, s, w, u);
    }
  }

  lemma AreOk(plan: Plan, s: State, w: nat, u: nat)
    requires plan.Valid() && Inv(plan, s) && w < |s.workers| && u < |s.workers|
    ensures |s.merged| == |plan.tiles| && WorkerOk(plan, s, w) && WorkerOk(plan, s, u)
    ensures u != w && s.workers[w].Merging? ==> !Holds(s.workers[u], s.workers[w].t)
  {
    hide Gathered, ResultsOk, SnapshotsOk, ProfileOk, Plan.Valid, HasLock;
    assert s.workers[w].Merging? ==> Holds(s.workers[w], s.workers[w].t);
  }

  lemma StoreKeepsInv(plan: Plan, s: State, s': State, w: nat)
    requires plan.Valid() && Inv(plan, s) && w < |s.workers| && Store(plan, s, s', w)
    ensures Inv(plan, s')
  {
    hide Gathered, ResultsOk, ProfileOk, SnapshotsOk, Plan.SlotExact;
    assert WorkerOk(plan, s, w);
    StoreKeepsProfileOk(plan, s, s', w);
    StoreKeepsTilesOk(plan, s, s', w);
    forall u | 0 <= u < |s'.workers| ensures WorkerOk(plan, s', u) {
      StoreKeepsWorkerOk(plan, s, s', w, u);
    }
  }

  lemma StoreKeepsTilesOk(plan: Plan, s: State, s': State, w: nat)
    requires plan.Valid() && Inv(plan, s) && w < |s.workers| && Store(plan, s, s', w)
    ensures |s'.merged| == |plan.tiles| && TilesOk(plan, s')
  {
    hide Gathered, ResultsOk, SnapshotsOk, ProfileOk, Plan.SlotExact;
    assert WorkerOk(plan, s, w);
    var t0 := s.workers[w].t;
    assert Holds(s.workers[w], t0) && Holds(s'.workers[w], t0);
    forall t: nat | t < |plan.tiles| && t !in s'.queue && s'.merged[t] != |plan.tiles[t].elems|
      ensures exists u :: 0 <= u < |s'.workers| && Holds(s'.workers[u], t)
    {
      if t != t0 {
        var u :| 0 <= u < |s.workers| && Holds(s.workers[u], t);
        assert Holds(s'.workers[u], t);
      }
    }
    forall u, t: nat | 0 <= u < |s.workers| ensures Holds(s'.workers[u], t) <==> Holds(s.workers[u], t) {
    }
  }

  lemma StepKeepsInv(plan: Plan, s: State, s': State)
    requires plan.Valid() && Inv(plan, s) && Step(plan, s, s')
    ensures Inv(plan, s')
  {
    hide Inv, Check, Pop, Read, Compute, Acquire, Load, Store, Release, Finish;
    var w: nat :| WorkerStep(plan, s, s', w);
    if Check(s, s', w) {
      CheckKeepsInv(plan, s, s', w);
    } else if Pop(plan, s, s', w) {
      PopKeepsInv(plan, s, s', w);
    } else if Read(plan, s, s', w) {
      ReadKeepsInv(plan, s, s', w);
    } else if Compute(plan, s, s', w) {
      ComputeKeepsInv(plan, s, s', w);
    } else if Store(plan, s, s', w) {
      StoreKeepsInv(plan, s, s', w);
    } else {
      LockKeepsInv(plan, s, s', w);
    }
  }

  lemma {:induction false} RunKeepsInv(plan: Plan, run: seq<State>, i: nat)
    requires plan.Valid() && Run(plan, run) && i < |run|
    ensures Inv(plan, run[i])
  {
    hide Inv, Step, Init;
    if i == 0 {
      InitEstablishesInv(plan, run[0]);
    } else {
      RunKeepsInv(plan, run, i - 1);
      assert Step(plan, run[i - 1], run[i - 1 + 1]);
      StepKeepsInv(plan, run[i - 1], run[i]);
    }
  }
}
