/**
 What a run of the workers ends in: the final profile, the absence of deadlock, and a bound on every run.
 */
module WorkersProgress {
  import opened Profiles
  import opened Workers

  /** All the neighbours the tiles of a join compare a slot with. */
  ghost function Compared(plan: Plan, c: nat): set<int> {
    set t, e, g | 0 <= t < |plan.tiles| && 0 <= e < |plan.tiles[t].elems| && plan.tiles[t].elems[e].slot == c
                  && g in plan.tiles[t].elems[e].cells :: g
  }

  ghost function Last(run: seq<State>): State
    requires |run| > 0
  {
    run[|run| - 1]
  }

  ghost predicate AllExited(s: State) {
    forall w :: 0 <= w < |s.workers| ==> s.workers[w].Exited?
  }

  ghost predicate Finished(s: State) {
    |s.workers| > 0 && AllExited(s)
  }

  lemma FinishedMeansAllMerged(plan: Plan, s: State)
    requires plan.Valid() && Inv(plan, s) && Finished(s)
    ensures s.queue == [] && forall t :: 0 <= t < |plan.tiles| ==> s.merged[t] == |plan.tiles[t].elems|
  {
    assert WorkerOk(plan, s, 0);
    assert forall w, t :: 0 <= w < |s.workers| ==> !Holds(s.workers[w], t);
  }

  ghost function FullCounts(plan: Plan): (m: seq<nat>)
    ensures |m| == |plan.tiles| && forall t :: 0 <= t < |m| ==> m[t] == |plan.tiles[t].elems|
  {
    seq(|plan.tiles|, t requires 0 <= t < |plan.tiles| => |plan.tiles[t].elems|)
  }

  /** All that the tiles of a join add to slot `c` beyond its cells. */
  ghost function TotalExcess(plan: Plan, c: nat): real {
    ExcessAt(plan, FullCounts(plan), |plan.tiles|, c)
  }

  /** Whatever the interleaving, every exact slot ends as if its whole set of neighbours had been merged exactly once:
      a maximum with the global index of a cell that attains it, or a sum that counts each cell once, plus the excess
      of its tiles. */
  lemma FinalProfile(plan: Plan, run: seq<State>, c: nat)
    requires plan.Valid() && Run(plan, run) && Finished(Last(run)) && c < |plan.dists| && plan.SlotExact(c)
    ensures c < |Last(run).profile|
    ensures Gathered(plan.kind, plan.dists[c], Raised(plan.kind, plan.initial[c], TotalExcess(plan, c)),
              Compared(plan, c), Last(run).profile[c])
  {
    var s := Last(run);
    RunKeepsInv(plan, run, |run| - 1);
    FinishedMeansAllMerged(plan, s);
    hide Plan.SlotExact, Gathered;
    assert MergedAt(plan, s.merged, c) == Compared(plan, c);
    assert s.merged == FullCounts(plan);
    assert SlotOk(plan, s.merged, c, s.profile[c]);
  }

  /** Slot `c` gets no excess from any tile. */
  ghost predicate NoExcess(plan: Plan, c: nat) {
    forall t, e :: 0 <= t < |plan.tiles| && 0 <= e < |plan.tiles[t].elems| && plan.tiles[t].elems[e].slot == c ==>
      plan.tiles[t].elems[e].excess == 0.0
  }

  lemma {:induction false} ElemsExcessSign(elems: seq<Elem>, n: nat, c: nat)
    requires n <= |elems| && forall e :: 0 <= e < n && elems[e].slot == c ==> elems[e].excess >= 0.0
    ensures ElemsExcess(elems, n, c) >= 0.0
    ensures ElemsExcess(elems, n, c) == 0.0 <==> forall e :: 0 <= e < n && elems[e].slot == c ==> elems[e].excess == 0.0
  {
    if n > 0 {
      ElemsExcessSign(elems, n - 1, c);
    }
  }

  lemma {:induction false} ExcessSign(plan: Plan, n: nat, c: nat)
    requires n <= |plan.tiles|
    requires forall t, e :: 0 <= t < n && 0 <= e < |plan.tiles[t].elems| && plan.tiles[t].elems[e].slot == c ==>
      plan.tiles[t].elems[e].excess >= 0.0
    ensures ExcessAt(plan, FullCounts(plan), n, c) >= 0.0
    ensures ExcessAt(plan, FullCounts(plan), n, c) == 0.0 <==>
      forall t, e :: 0 <= t < n && 0 <= e < |plan.tiles[t].elems| && plan.tiles[t].elems[e].slot == c ==>
        plan.tiles[t].elems[e].excess == 0.0
  {
    if n > 0 {
      ExcessSign(plan, n - 1, c);
      ElemsExcessSign(plan.tiles[n - 1].elems, |plan.tiles[n - 1].elems|, c);
    }
  }

  // ---------- No deadlock ----------

  /** A value that gathers the given cells always exists. */
  lemma {:induction false} GatheredExists(kind: Kind, f: seq<Dist>, start: Entry, cells: set<int>, n: nat)
      returns (acc: Entry)
    requires Within(f, cells) && forall k :: k in cells ==> k < n
    ensures Gathered(kind, f, start, cells, acc)
  {
    if n == 0 {
      acc := start;
      assert forall k :: k in cells ==> 0 <= k < 0;
      assert cells == Range(0, 0);
      GatherNothing(kind, f, start);
    } else if n - 1 in cells {
      var part := GatheredExists(kind, f, start, cells - {n - 1}, n - 1);
      GatherOne(kind, f, start, cells - {n - 1}, part, n - 1);
      assert cells - {n - 1} + {n - 1} == cells;
      acc := MergeCell(kind, part, f[n - 1], n - 1);
    } else {
      acc := GatheredExists(kind, f, start, cells, n - 1);
    }
  }

  lemma {:induction false} TileResultExists(plan: Plan, t: nat, buf: seq<Entry>, n: nat) returns (buf': seq<Entry>)
    requires plan.Valid() && t < |plan.tiles| && |buf| == |plan.tiles[t].elems| && n <= |buf|
    ensures |buf'| == n
    ensures forall e :: 0 <= e < n ==> ElemResult(plan, plan.tiles[t].elems[e], buf[e], buf'[e])
  {
    hide Gathered;
    if n == 0 {
      buf' := [];
    } else {
      var rest := TileResultExists(plan, t, buf, n - 1);
      var el := plan.tiles[t].elems[n - 1];
      var acc := GatheredExists(plan.kind, LocalDists(plan, el), Raised(plan.kind, buf[n - 1], el.excess),
        Shift(el.cells, el.offset, el.span), el.span);
      buf' := rest + [acc];
    }
  }

  lemma ComputeEnabled(plan: Plan, s: State, w: nat) returns (s': State)
    requires plan.Valid() && Inv(plan, s) && w < |s.workers| && s.workers[w].Computing?
    ensures Compute(plan, s, s', w)
  {
    hide ElemResult, SnapshotsOk;
    var v := s.workers[w];
    assert WorkerOk(plan, s, w);
    var buf' := TileResultExists(plan, v.t, v.buf, |v.buf|);
    assert TileResult(plan, v.t, v.buf, buf');
    s' := s.(workers := s.workers[w := Merging(v.t, 0, buf', -1, NotLoaded)]);
  }

  /** The holder of a lock can always go on. */
  lemma HolderEnabled(plan: Plan, s: State, w: nat, l: nat) returns (s': State)
    requires plan.Valid() && Inv(plan, s) && w < |s.workers| && l < |s.holders| && s.holders[l] == w
    ensures Load(plan, s, s', w) || Store(plan, s, s', w) || Release(plan, s, s', w)
  {
    hide Gathered, ResultsOk, SnapshotsOk, ProfileOk;
    assert WorkerOk(plan, s, w);
    var v := s.workers[w];
    if v.k == v.end && v.loaded.NotLoaded? {
      s' := s.(holders := s.holders[l := -1], workers := s.workers[w := v.(end := -1)]);
    } else {
      var el := plan.tiles[v.t].elems[v.k];
      assert plan.ElemValid(el);
      if v.loaded.NotLoaded? {
        s' := s.(workers := s.workers[w := v.(loaded := IsLoaded(s.profile[el.slot]))]);
      } else {
        s' := s.(profile := s.profile[el.slot := MergeElem(plan.kind, v.loaded.entry, v.buf[v.k], el.offset)],
                 merged := s.merged[v.t := v.k + 1],
                 workers := s.workers[w := v.(k := v.k + 1, loaded := NotLoaded)]);
      }
    }
  }

  lemma MidPartHasLock(plan: Plan, s: State, w: nat) returns (l: nat)
    requires plan.Valid() && |s.merged| == |plan.tiles| && w < |s.workers| && WorkerOk(plan, s, w)
    requires s.workers[w].Merging? && s.workers[w].end >= 0
    ensures l < 2 && HasLock(plan, s.workers[w], l)
  {
    hide ResultsOk, SnapshotsOk;
    var v := s.workers[w];
    l := plan.LockOf(plan.tiles[v.t].elems[v.end - 1].slot);
  }

  lemma UnlockedIsBetweenParts(plan: Plan, s: State, w: nat)
    requires plan.Valid() && |s.merged| == |plan.tiles| && w < |s.workers| && WorkerOk(plan, s, w)
    requires HoldersOk(s) && forall l :: 0 <= l < |s.holders| ==> s.holders[l] == -1
    ensures s.workers[w].Merging? ==> s.workers[w].end < 0
  {
    hide ResultsOk, SnapshotsOk, HasLock;
    if s.workers[w].Merging? && s.workers[w].end >= 0 {
      var l := MidPartHasLock(plan, s, w);
    }
  }

  lemma UnlockedEnabled(plan: Plan, s: State, w: nat) returns (s': State)
    requires plan.Valid() && Inv(plan, s) && w < |s.workers| && !s.workers[w].Exited?
    requires forall l :: 0 <= l < |s.holders| ==> s.holders[l] == -1
    ensures WorkerStep(plan, s, s', w)
  {
    hide Gathered, ResultsOk, SnapshotsOk, ProfileOk, Compute;
    assert WorkerOk(plan, s, w);
    UnlockedIsBetweenParts(plan, s, w);
    var v := s.workers[w];
    match v {
      case Checking =>
        s' := s.(workers := s.workers[w := if s.queue == [] then Exited else Popping]);
      case Popping =>
        if s.queue == [] {
          s' := s.(workers := s.workers[w := Exited]);
        } else {
          s' := s.(queue := s.queue[1..],
                   workers := s.workers[w := Reading(s.queue[0], 0,
                     seq(|plan.tiles[s.queue[0]].elems|, _ => InitEntry(plan.kind)))]);
        }
      case Reading(t, k, buf) =>
        if plan.kind.SumThresh? || k >= |buf| {
          s' := s.(workers := s.workers[w := Computing(t, buf)]);
        } else {
          assert plan.ElemValid(plan.tiles[t].elems[k]);
          s' := s.(workers := s.workers[w := Reading(t, k + 1, buf[k := s.profile[plan.tiles[t].elems[k].from]])]);
        }
        assert Read(plan, s, s', w);
      case Computing(_, _) =>
        s' := ComputeEnabled(plan, s, w);
      case Merging(t, k, buf, _, _) =>
        if k >= |buf| {
          s' := s.(workers := s.workers[w := Checking]);
        } else {
          var l := plan.LockOf(plan.tiles[t].elems[k].slot);
          s' := s.(holders := s.holders[l := w], workers := s.workers[w := v.(end := PartEnd(plan.tiles[t], k))]);
        }
    }
  }

  ghost predicate CanStep(plan: Plan, s: State)
    requires plan.Valid()
  {
    exists s' :: Step(plan, s, s')
  }

  /** No reachable state is stuck before every worker has left its loop. */
  lemma NeverStuck(plan: Plan, run: seq<State>)
    requires plan.Valid() && Run(plan, run)
    requires !AllExited(Last(run))
    ensures CanStep(plan, Last(run))
  {
    hide Inv, Load, Store, Release;
    var s := Last(run);
    RunKeepsInv(plan, run, |run| - 1);
    var s';
    HoldersInRange(plan, s);
    if forall l :: 0 <= l < |s.holders| ==> s.holders[l] == -1 {
      var w :| 0 <= w < |s.workers| && !s.workers[w].Exited?;
      s' := UnlockedEnabled(plan, s, w);
      assert WorkerStep(plan, s, s', w);
    } else {
      var l: nat :| l < |s.holders| && s.holders[l] != -1;
      s' := HolderEnabled(plan, s, s.holders[l], l);
      assert WorkerStep(plan, s, s', s.holders[l]);
    }
    assert Step(plan, s, s');
  }

  lemma HoldersInRange(plan: Plan, s: State)
    requires plan.Valid() && Inv(plan, s)
    ensures HoldersOk(s)
  {
  }

  // ---------- Every run is finite ----------

  ghost function ElemCount(plan: Plan, t: nat): nat {
    if t < |plan.tiles| then |plan.tiles[t].elems| else 0
  }

  /** The steps a worker may still take before it asks for another tile. */
  ghost function WorkerRank(plan: Plan, w: Worker): int {
    match w
    case Exited => 0
    case Popping => 1
    case Checking => 2
    case Merging(t, k, _, end, loaded) =>
      3 + 6 * (ElemCount(plan, t) - k)
      + (if loaded.IsLoaded? then 0 else if end < 0 then 2 else if k < end then 1 else 3)
    case Computing(t, _) => 6 * ElemCount(plan, t) + 7
    case Reading(t, k, _) => 7 * ElemCount(plan, t) - k + 8
  }

  ghost function WorkersRank(plan: Plan, ws: seq<Worker>): int {
    if ws == [] then 0 else WorkerRank(plan, ws[0]) + WorkersRank(plan, ws[1..])
  }

  ghost function QueueRank(plan: Plan, queue: seq<nat>): nat {
    if queue == [] then 0 else 7 * ElemCount(plan, queue[0]) + 9 + QueueRank(plan, queue[1..])
  }

  ghost function Rank(plan: Plan, s: State): int {
    QueueRank(plan, s.queue) + WorkersRank(plan, s.workers)
  }

  lemma {:induction false} WorkersRankUpdate(plan: Plan, ws: seq<Worker>, w: nat, v: Worker)
    requires w < |ws|
    ensures WorkersRank(plan, ws[w := v]) == WorkersRank(plan, ws) - WorkerRank(plan, ws[w]) + WorkerRank(plan, v)
  {
    if w == 0 {
      assert ws[w := v][1..] == ws[1..];
    } else {
      WorkersRankUpdate(plan, ws[1..], w - 1, v);
      assert ws[w := v][1..] == ws[1..][w - 1 := v];
    }
  }

  lemma {:induction false} WorkersRankNonNegative(plan: Plan, ws: seq<Worker>)
    requires forall w :: 0 <= w < |ws| ==> WorkerRank(plan, ws[w]) >= 0
    ensures WorkersRank(plan, ws) >= 0
  {
    if ws != [] {
      WorkersRankNonNegative(plan, ws[1..]);
    }
  }

  lemma RankNonNegative(plan: Plan, s: State)
    requires plan.Valid() && Inv(plan, s)
    ensures Rank(plan, s) >= 0
  {
    hide Gathered, ResultsOk, SnapshotsOk, ProfileOk;
    forall w | 0 <= w < |s.workers| ensures WorkerRank(plan, s.workers[w]) >= 0 {
      assert WorkerOk(plan, s, w);
    }
    WorkersRankNonNegative(plan, s.workers);
  }

  lemma StepLowersRank(plan: Plan, s: State, s': State)
    requires plan.Valid() && Inv(plan, s) && Step(plan, s, s')
    ensures Rank(plan, s') < Rank(plan, s)
  {
    hide Inv, Rank, Check, Pop, Read, Compute, Acquire, Load, Store, Release, Finish;
    var w: nat :| WorkerStep(plan, s, s', w);
    if Pop(plan, s, s', w) {
      PopLowersRank(plan, s, s', w);
    } else if Load(plan, s, s', w) || Store(plan, s, s', w) || Release(plan, s, s', w) {
      LockedStepLowersRank(plan, s, s', w);
    } else {
      LocalStepLowersRank(plan, s, s', w);
    }
  }

  lemma PopLowersRank(plan: Plan, s: State, s': State, w: nat)
    requires plan.Valid() && w < |s.workers| && Pop(plan, s, s', w)
    ensures Rank(plan, s') < Rank(plan, s)
  {
    hide WorkersRank;
    WorkersRankUpdate(plan, s.workers, w, s'.workers[w]);
  }

  lemma LockedStepLowersRank(plan: Plan, s: State, s': State, w: nat)
    requires plan.Valid() && Inv(plan, s) && w < |s.workers|
    requires Load(plan, s, s', w) || Store(plan, s, s', w) || Release(plan, s, s', w)
    ensures Rank(plan, s') < Rank(plan, s)
  {
    hide Gathered, ResultsOk, SnapshotsOk, ProfileOk, WorkersRank, QueueRank;
    assert WorkerOk(plan, s, w);
    WorkersRankUpdate(plan, s.workers, w, s'.workers[w]);
  }

  lemma LocalStepLowersRank(plan: Plan, s: State, s': State, w: nat)
    requires plan.Valid() && Inv(plan, s) && w < |s.workers|
    requires Check(s, s', w) || Read(plan, s, s', w) || Compute(plan, s, s', w) || Acquire(plan, s, s', w)
      || Finish(plan, s, s', w)
    ensures Rank(plan, s') < Rank(plan, s)
  {
    hide Gathered, ResultsOk, SnapshotsOk, ProfileOk, TileResult, WorkersRank, QueueRank;
    assert WorkerOk(plan, s, w);
    WorkersRankUpdate(plan, s.workers, w, s'.workers[w]);
  }

  /** No run is longer than the rank of its first state allows. */
  lemma {:induction false} RunsAreBounded(plan: Plan, run: seq<State>, i: nat)
    requires plan.Valid() && Run(plan, run) && i < |run|
    ensures 0 <= Rank(plan, run[i]) <= Rank(plan, run[0]) - i
  {
    hide Inv, Step, Init, Rank;
    RunKeepsInv(plan, run, i);
    RankNonNegative(plan, run[i]);
    if i > 0 {
      RunsAreBounded(plan, run, i - 1);
      RunKeepsInv(plan, run, i - 1);
      assert Step(plan, run[i - 1], run[i - 1 + 1]);
      StepLowersRank(plan, run[i - 1], run[i]);
    }
  }

  // ---------- A copy from another slot ----------

  /** A maximum never goes down. */
  lemma ProfileGrows(plan: Plan, s: State, s': State)
    requires plan.Valid() && Inv(plan, s) && Step(plan, s, s') && plan.kind.Nearest?
    ensures |s'.profile| == |s.profile| && forall c :: 0 <= c < |s.profile| ==>
      s.profile[c].value <= s'.profile[c].value
  {
    hide Gathered, ResultsOk, SnapshotsOk, ProfileOk, TilesOk, TileResult, Plan.Valid;
    var w: nat :| WorkerStep(plan, s, s', w);
    assert WorkerOk(plan, s, w);
  }

  /** The value `v` has reached the copy that tile `t` makes for its element `e`, and stays with it up to the merge. */
  ghost predicate Carried(plan: Plan, s: State, t: nat, e: nat, v: real)
    requires t < |plan.tiles| && e < |plan.tiles[t].elems|
  {
    var el := plan.tiles[t].elems[e];
    && el.from < |s.profile| && el.slot < |s.profile| && |s.merged| == |plan.tiles|
    && s.profile[el.from].value >= v
    && (s.merged[t] > e ==> s.profile[el.slot].value >= v)
    && forall w :: 0 <= w < |s.workers| && Holds(s.workers[w], t) ==> WorkerCarries(s.workers[w], e, v)
  }

  ghost predicate WorkerCarries(w: Worker, e: nat, v: real) {
    match w
    case Reading(_, k, buf) => k > e ==> e < |buf| && buf[e].value >= v
    case Computing(_, buf) => e < |buf| && buf[e].value >= v
    case Merging(_, k, buf, _, _) => e < |buf| && buf[e].value >= v
    case _ => true
  }

  lemma ActorCarries(plan: Plan, s: State, s': State, w: nat, t: nat, e: nat, v: real)
    requires plan.Valid() && Inv(plan, s) && WorkerStep(plan, s, s', w) && plan.kind.Nearest?
    requires t < |plan.tiles| && e < |plan.tiles[t].elems| && Carried(plan, s, t, e, v)
    requires Holds(s'.workers[w], t)
    ensures WorkerCarries(s'.workers[w], e, v)
  {
    hide ResultsOk, SnapshotsOk, ProfileOk, TilesOk, LocalDists;
    assert WorkerOk(plan, s, w);
    if Compute(plan, s, s', w) {
      assert Holds(s.workers[w], t);
      assert ElemResult(plan, plan.tiles[t].elems[e], s.workers[w].buf[e], s'.workers[w].buf[e]);
    }
  }

  lemma StoredValue(plan: Plan, s: State, s': State, w: nat, t: nat, e: nat, v: real)
    requires plan.Valid() && Inv(plan, s) && WorkerStep(plan, s, s', w) && plan.kind.Nearest?
    requires t < |plan.tiles| && e < |plan.tiles[t].elems| && Carried(plan, s, t, e, v)
    requires |s'.merged| == |plan.tiles| && s.merged[t] <= e < s'.merged[t]
    ensures plan.tiles[t].elems[e].slot < |s'.profile| && s'.profile[plan.tiles[t].elems[e].slot].value >= v
  {
    hide Gathered, ResultsOk, SnapshotsOk, ProfileOk, TilesOk, TileResult;
    assert WorkerOk(plan, s, w);
    assert Store(plan, s, s', w);
    assert Holds(s.workers[w], t);
  }

  lemma StepCarries(plan: Plan, s: State, s': State, t: nat, e: nat, v: real)
    requires plan.Valid() && Inv(plan, s) && Step(plan, s, s') && plan.kind.Nearest?
    requires t < |plan.tiles| && e < |plan.tiles[t].elems| && Carried(plan, s, t, e, v)
    ensures Carried(plan, s', t, e, v)
  {
    ProfileGrows(plan, s, s');
    StepKeepsInv(plan, s, s');
    var w: nat :| WorkerStep(plan, s, s', w);
    OthersUnchanged(plan, s, s', w);
    if Holds(s'.workers[w], t) {
      ActorCarries(plan, s, s', w, t, e, v);
    }
    if s.merged[t] <= e < s'.merged[t] {
      StoredValue(plan, s, s', w, t, e, v);
    }
    hide Plan.Valid, ProfileOk, TilesOk, WorkerOk, Step, WorkerStep, WorkerCarries, Holds;
  }

  lemma OthersUnchanged(plan: Plan, s: State, s': State, w: nat)
    requires plan.Valid() && WorkerStep(plan, s, s', w)
    ensures |s'.workers| == |s.workers| && forall u :: 0 <= u < |s.workers| && u != w ==> s'.workers[u] == s.workers[u]
    ensures w < |s.workers|
  {
    hide TileResult, Plan.Valid;
  }

  lemma {:induction false} RunCarries(plan: Plan, run: seq<State>, i: nat, j: nat, t: nat, e: nat, v: real)
    requires plan.Valid() && Run(plan, run) && i <= j < |run| && plan.kind.Nearest?
    requires t < |plan.tiles| && e < |plan.tiles[t].elems| && Carried(plan, run[i], t, e, v)
    ensures Carried(plan, run[j], t, e, v)
    decreases j
  {
    hide Inv, Step, Init, Carried;
    if i < j {
      RunCarries(plan, run, i, j - 1, t, e, v);
      RunKeepsInv(plan, run, j - 1);
      assert Step(plan, run[j - 1], run[j - 1 + 1]);
      StepCarries(plan, run[j - 1], run[j], t, e, v);
    }
  }

  /** Once a value is in the slot that a queued tile will copy, it ends up in the slot that the copy is merged into. */
  lemma CopiedValueArrives(plan: Plan, run: seq<State>, i: nat, t: nat, e: nat, v: real)
    requires plan.Valid() && Run(plan, run) && i < |run| && Finished(Last(run)) && plan.kind.Nearest?
    requires t < |plan.tiles| && e < |plan.tiles[t].elems| && t in run[i].queue
    requires |run[i].profile| == |plan.dists| && plan.ElemValid(plan.tiles[t].elems[e])
    requires run[i].profile[plan.tiles[t].elems[e].from].value >= v
    ensures |Last(run).profile| == |plan.dists| && Last(run).profile[plan.tiles[t].elems[e].slot].value >= v
  {
    RunKeepsInv(plan, run, i);
    RunKeepsInv(plan, run, |run| - 1);
    hide ProfileOk, WorkerOk, Plan.Valid, WorkerCarries;
    assert Carried(plan, run[i], t, e, v);
    RunCarries(plan, run, i, |run| - 1, t, e, v);
    FinishedMeansAllMerged(plan, Last(run));
  }

  // ---------- Buffers start from copies ----------

  /** The profile, and the copies that have been made of it, are nowhere below the initial value of a maximum. */
  ghost predicate AllFloored(plan: Plan, s: State) {
    && Floored(plan.kind, s.profile)
    && forall w :: 0 <= w < |s.workers| ==> CopiesFloored(plan.kind, s.workers[w])
  }

  ghost predicate CopiesFloored(kind: Kind, w: Worker) {
    w.Reading? || w.Computing? ==> Floored(kind, w.buf)
  }

  lemma ActorFloored(plan: Plan, s: State, s': State, w: nat)
    requires plan.Valid() && WorkerStep(plan, s, s', w) && AllFloored(plan, s)
    ensures w < |s'.workers| && CopiesFloored(plan.kind, s'.workers[w])
  {
    hide TileResult, Plan.Valid;
    assert CopiesFloored(plan.kind, s.workers[w]);
  }

  lemma StepKeepsFloored(plan: Plan, s: State, s': State)
    requires plan.Valid() && Inv(plan, s) && Step(plan, s, s') && AllFloored(plan, s)
    ensures AllFloored(plan, s')
  {
    hide Inv, WorkerStep, CopiesFloored, Plan.Valid;
    if plan.kind.Nearest? {
      ProfileGrows(plan, s, s');
    }
    var w: nat :| WorkerStep(plan, s, s', w);
    OthersUnchanged(plan, s, s', w);
    ActorFloored(plan, s, s', w);
  }

  /** Whatever the interleaving, a worker that is about to run a tile starts from such a buffer. */
  lemma {:induction false} BuffersAreFloored(plan: Plan, run: seq<State>, i: nat)
    requires plan.Valid() && Run(plan, run) && i < |run|
    ensures AllFloored(plan, run[i])
  {
    if i == 0 {
      assert run[0].profile == plan.initial;
    } else {
      hide Inv, Step, Init, AllFloored;
      BuffersAreFloored(plan, run, i - 1);
      RunKeepsInv(plan, run, i - 1);
      assert Step(plan, run[i - 1], run[i - 1 + 1]);
      StepKeepsFloored(plan, run[i - 1], run[i]);
    }
  }

  // ---------- A run that copies too late ----------

  /** Every run can be continued until all workers have left. */
  lemma {:induction false} RunToTheEnd(plan: Plan, run: seq<State>) returns (whole: seq<State>)
    requires plan.Valid() && Run(plan, run) && |run[0].workers| > 0
    requires |Last(run).workers| == |run[0].workers| && Rank(plan, Last(run)) >= 0
    ensures Run(plan, whole) && Finished(Last(whole)) && whole[0] == run[0]
    decreases Rank(plan, Last(run))
  {
    hide Inv, Step, Init, Rank;
    if AllExited(Last(run)) {
      whole := run;
    } else {
      NeverStuck(plan, run);
      RunKeepsInv(plan, run, |run| - 1);
      var s' :| Step(plan, Last(run), s');
      StepKeepsWorkers(plan, Last(run), s');
      StepLowersRank(plan, Last(run), s');
      StepKeepsInv(plan, Last(run), s');
      RankNonNegative(plan, s');
      whole := RunToTheEnd(plan, run + [s']);
    }
  }

  lemma StepKeepsWorkers(plan: Plan, s: State, s': State)
    requires plan.Valid() && Step(plan, s, s')
    ensures |s'.workers| == |s.workers|
  {
    hide WorkerStep;
    var w: nat :| WorkerStep(plan, s, s', w);
    OthersUnchanged(plan, s, s', w);
  }

  /** One worker, with tile `first` at the head of the queue. */
  lemma OneWorkerStart(plan: Plan, first: nat) returns (s: State)
    requires plan.Valid() && first < |plan.tiles|
    ensures Init(plan, s) && |s.workers| == 1 && s.queue != [] && s.queue[0] == first
  {
    var queue: seq<nat> := seq(|plan.tiles|, i requires 0 <= i < |plan.tiles| =>
      if i == 0 then first else if i <= first then i - 1 else i);
    forall t: nat | t < |plan.tiles| ensures t in queue {
      assert queue[if t == first then 0 else if t < first then t + 1 else t] == t;
    }
    s := State(queue, [Checking], plan.initial, [-1, -1], seq(|plan.tiles|, _ => 0));
  }

  lemma {:induction false} SoleWorker(plan: Plan, run: seq<State>, i: nat)
    requires plan.Valid() && Run(plan, run) && i < |run| && |run[0].workers| == 1 && run[0].queue != []
    ensures |run[i].workers| == 1
    ensures run[0].queue[0] in run[i].queue ==> run[i].queue[0] == run[0].queue[0]
    decreases i
  {
    hide Step, Inv, Plan.Valid;
    if i > 0 {
      SoleWorker(plan, run, i - 1);
      RunKeepsInv(plan, run, i - 1);
      assert Step(plan, run[i - 1], run[i - 1 + 1]);
      StepKeepsWorkers(plan, run[i - 1], run[i]);
      HeadStays(plan, run[i - 1], run[i], run[0].queue[0]);
    }
  }

  lemma HeadStays(plan: Plan, s: State, s': State, first: nat)
    requires plan.Valid() && Inv(plan, s) && Step(plan, s, s') && (first in s.queue ==> s.queue[0] == first)
    ensures first in s'.queue ==> s'.queue[0] == first
  {
    hide ProfileOk, WorkerOk, TileResult, Plan.Valid;
  }

  /** A sole worker has merged the first tile of the queue by the time it takes any other. */
  lemma {:induction false} FirstIsMerged(plan: Plan, run: seq<State>, j: nat, t: nat) returns (i: nat)
    requires plan.Valid() && Run(plan, run) && j < |run| && |run[0].workers| == 1 && run[0].queue != []
    requires t in run[0].queue && t != run[0].queue[0] && t !in run[j].queue
    ensures i < |run| && t in run[i].queue && |run[i].merged| == |plan.tiles|
    ensures run[0].queue[0] < |plan.tiles| && run[i].merged[run[0].queue[0]] == |plan.tiles[run[0].queue[0]].elems|
    decreases j
  {
    hide Step, Inv, Plan.Valid;
    if t !in run[j - 1].queue {
      i := FirstIsMerged(plan, run, j - 1, t);
    } else {
      i := j - 1;
      SoleWorker(plan, run, i);
      RunKeepsInv(plan, run, i);
      assert Step(plan, run[i], run[i + 1]);
      FirstWasMerged(plan, run[i], run[i + 1], run[0].queue[0], t);
    }
  }

  lemma FirstWasMerged(plan: Plan, s: State, s': State, first: nat, t: nat)
    requires plan.Valid() && Inv(plan, s) && Step(plan, s, s') && |s.workers| == 1 && first < |plan.tiles| && first != t
    requires (first in s.queue ==> s.queue[0] == first) && t in s.queue && t !in s'.queue
    ensures |s.merged| == |plan.tiles| && s.merged[first] == |plan.tiles[first].elems|
  {
    hide ProfileOk, WorkerOk, TileResult, Plan.Valid;
    assert s.workers[0].Popping? && s.queue[0] == t;
  }

  /** A maximum that another tile has put into slot `from` reaches slot `slot` in some run. */
  lemma CopyLeaks(plan: Plan, t: nat, e: nat, first: nat, e': nat, g: int) returns (run: seq<State>)
    requires plan.Valid() && plan.kind.Nearest? && t < |plan.tiles| && first < |plan.tiles| && first != t
    requires e < |plan.tiles[t].elems| && e' < |plan.tiles[first].elems|
    requires plan.ElemValid(plan.tiles[t].elems[e]) && plan.ElemValid(plan.tiles[first].elems[e'])
    requires plan.tiles[first].elems[e'].slot == plan.tiles[t].elems[e].from && g in plan.tiles[first].elems[e'].cells
    requires plan.SlotExact(plan.tiles[t].elems[e].from) && plan.dists[plan.tiles[t].elems[e].from][g].Corr?
    ensures Run(plan, run) && Finished(Last(run)) && |Last(run).profile| == |plan.dists|
    ensures Last(run).profile[plan.tiles[t].elems[e].slot].value >= plan.dists[plan.tiles[t].elems[e].from][g].v
  {
    var start := OneWorkerStart(plan, first);
    InitEstablishesInv(plan, start);
    RankNonNegative(plan, start);
    hide Inv, Step, Init, Rank, Plan.SlotExact;
    run := RunToTheEnd(plan, [start]);
    RunKeepsInv(plan, run, |run| - 1);
    FinishedMeansAllMerged(plan, Last(run));
    QueuedAtStart(plan, start, t);
    var i := FirstIsMerged(plan, run, |run| - 1, t);
    RunKeepsInv(plan, run, i);
    MergedValue(plan, run[i], first, e', g);
    CopiedValueArrives(plan, run, i, t, e, plan.dists[plan.tiles[t].elems[e].from][g].v);
  }

  lemma QueuedAtStart(plan: Plan, s: State, t: nat)
    requires Init(plan, s) && t < |plan.tiles|
    ensures t in s.queue
  {
  }

  /** A slot is at least every correlation merged into it. */
  lemma MergedValue(plan: Plan, s: State, t: nat, e: nat, g: int)
    requires plan.Valid() && Inv(plan, s) && plan.kind.Nearest? && t < |plan.tiles| && e < |plan.tiles[t].elems|
    requires |s.merged| == |plan.tiles| && s.merged[t] == |plan.tiles[t].elems|
    requires plan.ElemValid(plan.tiles[t].elems[e])
    requires
      var el := plan.tiles[t].elems[e];
      g in el.cells && plan.SlotExact(el.slot) && plan.dists[el.slot][g].Corr?
    ensures |s.profile| == |plan.dists|
    ensures s.profile[plan.tiles[t].elems[e].slot].value >= plan.dists[plan.tiles[t].elems[e].slot][g].v
  {
    hide Plan.SlotExact, WorkerOk, TilesOk, StartAt;
    var c := plan.tiles[t].elems[e].slot;
    assert SlotOk(plan, s.merged, c, s.profile[c]);
    assert e < s.merged[t];
    assert g in MergedAt(plan, s.merged, c);
  }
}
