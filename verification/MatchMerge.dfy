/**
 Merging a tile's sorted matches into the per-column queues of the best matches.
 */
module MatchMerge {

  datatype Match = Match(corr: real, row: int, col: int)

  /** The order of a sorted batch: by column, then by descending correlation. */
  predicate Before(x: Match, y: Match) {
    x.col < y.col || (x.col == y.col && x.corr >= y.corr)
  }

  predicate SortedBatch(matches: seq<Match>) {
    forall i, j :: 0 <= i < j < |matches| ==> Before(matches[i], matches[j])
  }

  /** A priority queue as the sequence of its elements, worst first: the first is the one it would pop. */
  predicate Heap(q: seq<Match>) {
    forall i, j :: 0 <= i < j < |q| ==> q[i].corr <= q[j].corr
  }

  function Position(q: seq<Match>, corr: real): (p: nat)
    ensures p <= |q|
    ensures forall i :: 0 <= i < p ==> q[i].corr < corr
    ensures p < |q| ==> corr <= q[p].corr
  {
    if q == [] || corr <= q[0].corr then 0 else 1 + Position(q[1..], corr)
  }

  function Emplace(q: seq<Match>, m: Match): seq<Match> {
    var p := Position(q, m.corr);
    q[..p] + [m] + q[p..]
  }

  lemma EmplaceKeeps(q: seq<Match>, m: Match)
    requires Heap(q)
    ensures
      var r := Emplace(q, m);
      Heap(r) && |r| == |q| + 1 && multiset(r) == multiset(q) + multiset{m}
  {
    var p := Position(q, m.corr);
    EmplaceMultiset(q, m, p);
    EmplaceHeap(q, m, p);
  }

  lemma EmplaceMultiset(q: seq<Match>, m: Match, p: nat)
    requires p <= |q|
    ensures multiset(q[..p] + [m] + q[p..]) == multiset(q) + multiset{m}
  {
    assert q == q[..p] + q[p..];
  }

  lemma EmplaceHeap(q: seq<Match>, m: Match, p: nat)
    requires Heap(q) && p <= |q|
    requires forall i :: 0 <= i < p ==> q[i].corr <= m.corr
    requires forall i :: p <= i < |q| ==> m.corr <= q[i].corr
    ensures Heap(q[..p] + [m] + q[p..])
  {
    var r := q[..p] + [m] + q[p..];
    assert forall i :: 0 <= i < |r| ==> r[i] == if i < p then q[i] else if i == p then m else q[i - 1];
  }

  lemma Pop(q: seq<Match>)
    requires Heap(q) && q != []
    ensures Heap(q[1..]) && multiset(q[1..]) == multiset(q) - multiset{q[0]}
    ensures forall x :: x in multiset(q) ==> x.corr >= q[0].corr
  {
    assert q == [q[0]] + q[1..];
  }

  /** `kept` are the `k` best of `all`: as many as there can be, and nothing left out beats anything kept. */
  ghost predicate KBest(k: nat, all: multiset<Match>, kept: multiset<Match>) {
    && kept <= all
    && |kept| == (if |all| <= k then |all| else k)
    && forall x, y :: x in kept && y in all - kept ==> x.corr >= y.corr
  }

  lemma SubCardinality(a: multiset<Match>, b: multiset<Match>)
    requires a <= b
    ensures |a| + |b - a| == |b|
  {
    assert b == a + (b - a);
  }

  /** A candidate that beats nothing in a full queue can be ignored. */
  lemma IgnoreIsSafe(k: nat, all: multiset<Match>, kept: multiset<Match>, m: Match)
    requires KBest(k, all, kept) && |kept| == k
    requires forall x :: x in kept ==> x.corr >= m.corr
    ensures KBest(k, all + multiset{m}, kept)
  {
    assert (all + multiset{m}) - kept == (all - kept) + multiset{m};
    SubCardinality(kept, all);
  }

  /** A queue with room keeps every candidate. */
  lemma KeepWhenRoom(k: nat, all: multiset<Match>, kept: multiset<Match>, m: Match)
    requires KBest(k, all, kept) && |kept| < k
    ensures KBest(k, all + multiset{m}, kept + multiset{m})
  {
    SubCardinality(kept, all);
    assert all - kept == multiset{};
    assert all == kept;
  }

  /** In a full queue a better candidate replaces the worst element. */
  lemma ReplaceWorst(k: nat, all: multiset<Match>, kept: multiset<Match>, worst: Match, m: Match)
    requires KBest(k, all, kept) && |kept| == k && worst in kept && worst.corr < m.corr
    requires forall x :: x in kept ==> x.corr >= worst.corr
    ensures KBest(k, all + multiset{m}, kept - multiset{worst} + multiset{m})
  {
    var all', kept' := all + multiset{m}, kept - multiset{worst} + multiset{m};
    assert all' - kept' == (all - kept) + multiset{worst};
    SubCardinality(kept, all);
    forall x, y | x in kept' && y in all' - kept' ensures x.corr >= y.corr {
      if y != worst {
        assert y in all - kept;
        assert worst.corr >= y.corr;
      }
      if x != m {
        assert x in kept;
      }
    }
  }

  /** When `k` elements of the whole are at least `bound`, so are the `k` best. */
  lemma EnoughGoodOnes(k: nat, all: multiset<Match>, kept: multiset<Match>, good: multiset<Match>, bound: real)
    requires KBest(k, all, kept) && good <= all && |good| >= k
    requires forall x :: x in good ==> x.corr >= bound
    ensures |kept| == k && forall x :: x in kept ==> x.corr >= bound
  {
    SubCardinality(good, all);
    forall x | x in kept ensures x.corr >= bound {
      if x.corr < bound {
        forall g | g in good ensures good[g] <= (kept - multiset{x})[g] {
          assert g !in all - kept;
          assert all[g] == kept[g] + (all - kept)[g];
        }
        assert good <= kept - multiset{x};
        SubCardinality(good, kept - multiset{x});
        SubCardinality(multiset{x}, kept);
      }
    }
  }

  /** A threshold no higher than a full queue's worst element is safe: candidates at or below it never matter. */
  lemma ThresholdIsSafe(k: nat, all: multiset<Match>, kept: multiset<Match>, threshold: real, later: seq<Match>)
    requires KBest(k, all, kept) && |kept| == k
    requires forall x :: x in kept ==> x.corr >= threshold
    requires forall m :: m in later ==> m.corr <= threshold
    ensures KBest(k, all + multiset(later), kept)
  {
    if later == [] {
      assert all + multiset(later) == all;
    } else {
      var init, last := later[..|later| - 1], later[|later| - 1];
      assert later == init + [last];
      assert last in later && forall m :: m in init ==> m in later;
      ThresholdIsSafe(k, all, kept, threshold, init);
      IgnoreIsSafe(k, all + multiset(init), kept, last);
      assert all + multiset(later) == all + multiset(init) + multiset{last};
    }
  }

  // ---------- The merge ----------

  /** A batch in global coordinates. */
  function Rebased(matches: seq<Match>, rowStart: int, colStart: int): (r: seq<Match>)
    ensures |r| == |matches|
    ensures forall i :: 0 <= i < |matches| ==>
      r[i] == Match(matches[i].corr, matches[i].row + rowStart, matches[i].col + colStart)
  {
    seq(|matches|, i requires 0 <= i < |matches| =>
      Match(matches[i].corr, matches[i].row + rowStart, matches[i].col + colStart))
  }

  /** The matches of one column. */
  function ForColumn(batch: seq<Match>, c: int): multiset<Match> {
    if batch == [] then multiset{}
    else ForColumn(batch[..|batch| - 1], c)
         + (if batch[|batch| - 1].col == c then multiset{batch[|batch| - 1]} else multiset{})
  }

  /** A stretch of one column adds that stretch to its own column only. */
  lemma {:induction false} ForColumnExtend(batch: seq<Match>, i: nat, n: nat, c: int)
    requires i <= n <= |batch| && forall j :: i <= j < n ==> batch[j].col == batch[i].col
    ensures ForColumn(batch[..n], c)
         == ForColumn(batch[..i], c) + (if i < n && batch[i].col == c then multiset(batch[i..n]) else multiset{})
  {
    hide ForColumn;
    if i < n {
      ForColumnExtend(batch, i, n - 1, c);
      ForColumnSnoc(batch, n, c);
      SliceSnoc(batch, i, n);
    }
  }

  lemma ForColumnSnoc(batch: seq<Match>, n: nat, c: int)
    requires 0 < n <= |batch|
    ensures ForColumn(batch[..n], c)
         == ForColumn(batch[..n - 1], c) + (if batch[n - 1].col == c then multiset{batch[n - 1]} else multiset{})
  {
    assert batch[..n][..n - 1] == batch[..n - 1];
  }

  lemma SliceSnoc(batch: seq<Match>, i: nat, n: nat)
    requires i < n <= |batch|
    ensures multiset(batch[i..n]) == multiset(batch[i..n - 1]) + multiset{batch[n - 1]}
    ensures i == n - 1 ==> multiset(batch[i..n]) == multiset{batch[i]}
  {
    assert batch[i..n] == batch[i..n - 1] + [batch[n - 1]];
  }

  lemma {:induction false} ForColumnNone(batch: seq<Match>, c: int)
    requires forall j :: 0 <= j < |batch| ==> batch[j].col != c
    ensures ForColumn(batch, c) == multiset{}
  {
    if batch != [] {
      ForColumnNone(batch[..|batch| - 1], c);
    }
  }

  ghost predicate Bounded(k: nat, q: seq<Match>, threshold: real) {
    |q| == k && forall x :: x in q ==> x.corr >= threshold
  }

  lemma ReplaceWorstInHeap(k: nat, all: multiset<Match>, q: seq<Match>, m: Match)
    requires Heap(q) && |q| == k > 0 && KBest(k, all, multiset(q)) && m.corr > q[0].corr
    ensures
      var r := Emplace(q[1..], m);
      Heap(r) && |r| == k && KBest(k, all + multiset{m}, multiset(r)) && Bounded(k, r, q[0].corr)
  {
    hide Emplace;
    Pop(q);
    EmplaceKeeps(q[1..], m);
    ReplaceWorst(k, all, multiset(q), q[0], m);
    var r := Emplace(q[1..], m);
    forall x | x in r ensures x.corr >= q[0].corr {
      assert x in multiset(r);
    }
  }

  lemma AddToHeap(k: nat, all: multiset<Match>, q: seq<Match>, m: Match)
    requires Heap(q) && |q| < k && KBest(k, all, multiset(q))
    ensures
      var r := Emplace(q, m);
      Heap(r) && |r| <= k && KBest(k, all + multiset{m}, multiset(r))
  {
    hide Emplace, KBest;
    EmplaceKeeps(q, m);
    KeepWhenRoom(k, all, multiset(q), m);
  }

  /** Offer one candidate to a queue. `popped` is the element it displaced, if any. */
  method Offer(k: nat, q: seq<Match>, m: Match, ghost all: multiset<Match>) returns (r: seq<Match>, popped: seq<Match>)
    requires Heap(q) && |q| <= k && k > 0 && KBest(k, all, multiset(q))
    requires |q| == k ==> m.corr > q[0].corr
    ensures Heap(r) && |r| <= k && KBest(k, all + multiset{m}, multiset(r))
    ensures popped == if |q| == k then [q[0]] else []
    ensures multiset(r) + multiset(popped) == multiset(q) + multiset{m}
    ensures popped != [] ==> |r| == k && Bounded(k, r, popped[0].corr)
  {
    hide KBest, Emplace, Heap, Bounded;
    if |q| == k {
      popped := [q[0]];
      Pop(q);
      EmplaceKeeps(q[1..], m);
      ReplaceWorstInHeap(k, all, q, m);
      r := Emplace(q[1..], m);
    } else {
      popped := [];
      EmplaceKeeps(q, m);
      AddToHeap(k, all, q, m);
      r := Emplace(q, m);
    }
  }

  /** What a queue has seen: its old elements and a stretch of the batch. */
  ghost function Seen(start: multiset<Match>, batch: seq<Match>, i: nat, n: nat): multiset<Match>
    requires i <= n <= |batch|
  {
    start + multiset(batch[i..n])
  }

  lemma Stretch(start: multiset<Match>, batch: seq<Match>, i: nat, n: nat)
    requires i <= n < |batch|
    ensures Seen(start, batch, i, n + 1) == Seen(start, batch, i, n) + multiset{batch[n]}
  {
    assert batch[i..n + 1] == batch[i..n] + [batch[n]];
  }

  lemma SeenNothing(k: nat, q: seq<Match>, batch: seq<Match>, i: nat)
    requires |q| <= k && i <= |batch|
    ensures KBest(k, Seen(multiset(q), batch, i, i), multiset(q))
  {
    assert Seen(multiset(q), batch, i, i) == multiset(q);
  }

  /** Matches of one column never get better. */
  lemma Descending(matches: seq<Match>, i: nat, n: nat)
    requires SortedBatch(matches) && i <= n < |matches| && matches[i].col == matches[n].col
    ensures forall j :: i <= j <= n ==> matches[j].col == matches[i].col && matches[j].corr >= matches[n].corr
  {
    forall j | i <= j <= n ensures matches[j].col == matches[i].col && matches[j].corr >= matches[n].corr {
      assert j < n ==> Before(matches[j], matches[n]);
      assert i < j ==> Before(matches[i], matches[j]);
    }
  }

  /** Nothing that is left of a column can enter a queue once `k` of its matches went in. */
  lemma RestIsUseless(k: nat, start: multiset<Match>, batch: seq<Match>, i: nat, q: seq<Match>, bound: real)
    requires i + k <= |batch| && KBest(k, Seen(start, batch, i, i + k), multiset(q))
    requires forall j :: i <= j < i + k ==> batch[j].corr >= bound
    ensures Bounded(k, q, bound)
  {
    var good := multiset(batch[i..i + k]);
    forall x | x in good ensures x.corr >= bound {
      assert x in batch[i..i + k];
    }
    EnoughGoodOnes(k, start + good, multiset(q), good, bound);
    forall x | x in q ensures x.corr >= bound {
      assert x in multiset(q);
    }
  }

  lemma IgnoreInHeap(k: nat, all: multiset<Match>, q: seq<Match>, m: Match)
    requires KBest(k, all, multiset(q)) && Bounded(k, q, m.corr)
    ensures KBest(k, all + multiset{m}, multiset(q))
  {
    IgnoreIsSafe(k, all, multiset(q), m);
  }

  lemma FullHeapBounds(k: nat, q: seq<Match>, bound: real)
    requires Heap(q) && |q| == k > 0 && bound <= q[0].corr
    ensures Bounded(k, q, bound)
  {
  }

  lemma LowerBound(k: nat, q: seq<Match>, bound: real, bound': real)
    requires Bounded(k, q, bound) && bound' <= bound
    ensures Bounded(k, q, bound')
  {
  }

  /** What a merge does to the threshold of a queue: it becomes the largest correlation among the old elements that had
      to leave; while none had to, it stays. */
  ghost predicate Raised(was: multiset<Match>, now: multiset<Match>, wasT: real, nowT: real) {
    if was - now == multiset{} then nowT == wasT
    else
      && (exists x :: x in was - now && x.corr == nowT)
      && forall x :: x in was - now ==> x.corr <= nowT
  }

  /** Balance of a column's queue: what it has now and what was popped is what it had and what went in. Everything that
      went in beats everything that was popped; `worst` is the best of the latter. */
  ghost predicate Balanced(was: multiset<Match>, now: multiset<Match>, inserted: multiset<Match>,
                           popped: multiset<Match>, worst: real) {
    && now + popped == was + inserted
    && (forall x, y :: x in popped && y in inserted ==> x.corr < y.corr)
    && (forall x :: x in popped ==> x.corr <= worst)
    && (popped != multiset{} ==> exists x :: x in popped && x.corr == worst)
  }

  lemma NothingMoved(q: multiset<Match>, worst: real)
    ensures Balanced(q, q, multiset{}, multiset{}, worst)
  {
  }

  /** So what was popped are exactly the old elements that are gone. */
  lemma PoppedAreGone(was: multiset<Match>, now: multiset<Match>, inserted: multiset<Match>, popped: multiset<Match>,
                      worst: real)
    requires Balanced(was, now, inserted, popped, worst)
    ensures was - now == popped
  {
    forall x ensures (was - now)[x] == popped[x] {
      assert (now + popped)[x] == (was + inserted)[x];
      assert x in popped ==> x !in inserted;
    }
  }

  lemma ThresholdIsRaised(was: multiset<Match>, now: multiset<Match>, inserted: multiset<Match>,
                          popped: multiset<Match>, worst: real, wasT: real)
    requires Balanced(was, now, inserted, popped, worst)
    ensures Raised(was, now, wasT, if popped == multiset{} then wasT else worst)
  {
    PoppedAreGone(was, now, inserted, popped, worst);
    hide Balanced;
    if popped != multiset{} {
      PoppedBest(was, now, inserted, popped, worst);
    }
  }

  lemma PoppedBest(was: multiset<Match>, now: multiset<Match>, inserted: multiset<Match>, popped: multiset<Match>,
                   worst: real)
    requires Balanced(was, now, inserted, popped, worst) && popped != multiset{}
    ensures (exists x :: x in popped && x.corr == worst) && forall x :: x in popped ==> x.corr <= worst
  {
  }

  /** One more candidate goes in. It is no better than any before it, and better than what it displaces. */
  lemma OneMore(was: multiset<Match>, q: seq<Match>, r: seq<Match>, inserted: multiset<Match>, popped: multiset<Match>,
                worst: real, m: Match, gone: seq<Match>)
    requires Balanced(was, multiset(q), inserted, popped, worst) && forall y :: y in inserted ==> y.corr >= m.corr
    requires multiset(r) + multiset(gone) == multiset(q) + multiset{m}
    requires |gone| <= 1 && (gone != [] ==> gone[0].corr < m.corr && (popped != multiset{} ==> worst <= gone[0].corr))
    requires gone == [] ==> popped == multiset{}
    ensures Balanced(was, multiset(r), inserted + multiset{m}, popped + multiset(gone),
              if gone == [] then worst else gone[0].corr)
  {
    StillBalanced(was, multiset(q), multiset(r), inserted, popped, multiset{m}, multiset(gone));
    if gone != [] {
      assert gone == [gone[0]];
      assert gone[0] in popped + multiset(gone);
    } else {
      assert popped + multiset(gone) == popped;
    }
  }

  lemma StillBalanced(was: multiset<Match>, q: multiset<Match>, r: multiset<Match>, inserted: multiset<Match>,
                      popped: multiset<Match>, more: multiset<Match>, gone: multiset<Match>)
    requires q + popped == was + inserted && r + gone == q + more
    ensures r + (popped + gone) == was + (inserted + more)
  {
    forall x ensures (r + (popped + gone))[x] == (was + (inserted + more))[x] {
      assert (q + popped)[x] == (was + inserted)[x] && (r + gone)[x] == (q + more)[x];
    }
  }

  /** Where the taking stands: the balance, and whether and by how much the threshold can be raised. Nothing worse than
      `last` has gone in. */
  ghost predicate Taking(k: nat, was: multiset<Match>, q: seq<Match>, inserted: multiset<Match>,
                         popped: multiset<Match>,
                         updatePossible: bool, oldVal: real, last: real) {
    && Balanced(was, multiset(q), inserted, popped, oldVal) && (updatePossible <==> popped != multiset{})
    && (updatePossible ==> Bounded(k, q, oldVal)) && forall y :: y in inserted ==> y.corr >= last
  }

  lemma TakingStarts(k: nat, q: seq<Match>, oldVal: real, last: real)
    ensures Taking(k, multiset(q), q, multiset{}, multiset{}, false, oldVal, last)
  {
    NothingMoved(multiset(q), oldVal);
  }

  lemma TakingGoesOn(k: nat, was: multiset<Match>, q: seq<Match>, r: seq<Match>, inserted: multiset<Match>,
                     popped: multiset<Match>, updatePossible: bool, oldVal: real, last: real, m: Match,
                       gone: seq<Match>)
    requires Taking(k, was, q, inserted, popped, updatePossible, oldVal, last) && m.corr <= last && k > 0
    requires multiset(r) + multiset(gone) == multiset(q) + multiset{m}
    requires gone == (if |q| == k then [q[0]] else []) && (|q| == k ==> q[0].corr < m.corr)
    requires gone != [] ==> Bounded(k, r, gone[0].corr)
    ensures Taking(k, was, r, inserted + multiset{m}, popped + multiset(gone), updatePossible || gone != [],
              if gone != [] then gone[0].corr else oldVal, m.corr)
  {
    if updatePossible {
      WorstOfBounded(k, q, oldVal);
    }
    OneMore(was, q, r, inserted, popped, oldVal, m, gone);
    hide Balanced;
    if gone != [] {
      assert gone[0] in multiset(gone);
    } else {
      assert popped + multiset(gone) == popped;
    }
  }

  lemma TakingEnds(k: nat, was: multiset<Match>, q: seq<Match>, inserted: multiset<Match>, popped: multiset<Match>,
                   updatePossible: bool, oldVal: real, last: real, threshold: real)
    requires Taking(k, was, q, inserted, popped, updatePossible, oldVal, last)
    ensures Raised(was, multiset(q), threshold, if updatePossible then oldVal else threshold)
    ensures updatePossible ==> Bounded(k, q, oldVal)
  {
    hide Balanced, Raised, Bounded;
    ThresholdIsRaised(was, multiset(q), inserted, popped, oldVal, threshold);
  }

  /** The first `n` matches of a batch have reached their columns, and only their columns. */
  ghost predicate Merged(k: nat, was: seq<seq<Match>>, wasT: seq<real>, batch: seq<Match>, n: nat,
                         queues: seq<seq<Match>>, thresholds: seq<real>)
    requires n <= |batch|
  {
    && |was| == |queues| == |wasT| == |thresholds|
    && forall c :: 0 <= c < |queues| ==>
         && KBest(k, multiset(was[c]) + ForColumn(batch[..n], c), multiset(queues[c]))
         && (ForColumn(batch[..n], c) == multiset{} ==> queues[c] == was[c] && thresholds[c] == wasT[c])
         && (thresholds[c] != wasT[c] ==> Bounded(k, queues[c], thresholds[c]))
         && Raised(multiset(was[c]), multiset(queues[c]), wasT[c], thresholds[c])
  }

  lemma MergedNothing(k: nat, was: seq<seq<Match>>, wasT: seq<real>, batch: seq<Match>)
    requires |was| == |wasT| && forall c :: 0 <= c < |was| ==> |was[c]| <= k
    ensures Merged(k, was, wasT, batch, 0, was, wasT)
  {
    hide KBest;
    forall c | 0 <= c < |was| ensures KBest(k, multiset(was[c]) + ForColumn(batch[..0], c), multiset(was[c])) {
      assert multiset(was[c]) + ForColumn(batch[..0], c) == multiset(was[c]);
      KBestItself(k, was[c]);
    }
  }

  lemma MergedColumn(k: nat, was: seq<seq<Match>>, wasT: seq<real>, batch: seq<Match>, i: nat, n: nat,
                     queues: seq<seq<Match>>, thresholds: seq<real>, queues': seq<seq<Match>>, thresholds': seq<real>)
    requires i < n <= |batch| && 0 <= batch[i].col < |queues|
    requires Merged(k, was, wasT, batch, i, queues, thresholds)
    requires forall j :: 0 <= j < i ==> batch[j].col < batch[i].col
    requires forall j :: i <= j < n ==> batch[j].col == batch[i].col
    requires |queues'| == |queues| && |thresholds'| == |thresholds|
    requires
      var c := batch[i].col;
      && queues' == queues[c := queues'[c]] && thresholds' == thresholds[c := thresholds'[c]]
      && KBest(k, Seen(multiset(queues[c]), batch, i, n), multiset(queues'[c]))
      && (thresholds'[c] != thresholds[c] ==> Bounded(k, queues'[c], thresholds'[c]))
      && Raised(multiset(queues[c]), multiset(queues'[c]), thresholds[c], thresholds'[c])
    ensures Merged(k, was, wasT, batch, n, queues', thresholds')
  {
    hide KBest, Bounded, ForColumn, Raised;
    var c0 := batch[i].col;
    ForColumnNone(batch[..i], c0);
    forall c | 0 <= c < |queues|
      ensures
        && KBest(k, multiset(was[c]) + ForColumn(batch[..n], c), multiset(queues'[c]))
        && (ForColumn(batch[..n], c) == multiset{} ==> queues'[c] == was[c] && thresholds'[c] == wasT[c])
        && (thresholds'[c] != wasT[c] ==> Bounded(k, queues'[c], thresholds'[c]))
        && Raised(multiset(was[c]), multiset(queues'[c]), wasT[c], thresholds'[c])
    {
      ForColumnExtend(batch, i, n, c);
      if c == c0 {
        assert batch[i] in batch[i..n] by {
          assert batch[i..n][0] == batch[i];
        }
        assert multiset(was[c]) + ForColumn(batch[..n], c) == Seen(multiset(queues[c]), batch, i, n);
      } else {
        assert ForColumn(batch[..n], c) == ForColumn(batch[..i], c);
      }
    }
  }

  lemma NextIsNoBetter(matches: seq<Match>, n: nat)
    requires SortedBatch(matches) && n < |matches|
    ensures n + 1 < |matches| && matches[n + 1].col == matches[n].col ==> matches[n + 1].corr <= matches[n].corr
  {
    if n + 1 < |matches| {
      assert Before(matches[n], matches[n + 1]);
    }
  }

  lemma WorstOfBounded(k: nat, q: seq<Match>, bound: real)
    requires Bounded(k, q, bound)
    ensures q != [] ==> bound <= q[0].corr
  {
  }

  lemma NextColumn(matches: seq<Match>, i: nat, n: nat)
    requires SortedBatch(matches) && i < n <= |matches|
    requires forall j :: 0 <= j < i ==> matches[j].col < matches[i].col
    requires forall j :: i <= j < n ==> matches[j].col == matches[i].col
    requires n < |matches| ==> matches[i].col < matches[n].col
    ensures n < |matches| ==> forall j :: 0 <= j < n ==> matches[j].col < matches[n].col
  {
  }

  class Profile {
    var queues: seq<seq<Match>>
    var thresholds: seq<real>

    constructor (size: nat, threshold: real)
      ensures queues == seq(size, _ => []) && thresholds == seq(size, _ => threshold)
    {
      queues := seq(size, _ => []);
      thresholds := seq(size, _ => threshold);
    }

    ghost predicate Valid(k: nat)
      reads this
    {
      |thresholds| == |queues| && forall c :: 0 <= c < |queues| ==> Heap(queues[c]) && |queues[c]| <= k
    }

    /** Each column keeps the `k` best of what it had and what arrives. Its threshold becomes the largest correlation
        that had to leave the queue, if one had to; that is at most the worst element of a full queue. */
    method MatchMerge(matches: seq<Match>, rowStart: int, colStart: int, k: nat)
      requires Valid(k) && SortedBatch(matches)
      requires forall i :: 0 <= i < |matches| ==> 0 <= matches[i].col + colStart < |queues|
      modifies this
      ensures Valid(k) && |queues| == |old(queues)|
      ensures forall c :: 0 <= c < |queues| ==>
        KBest(k, multiset(old(queues)[c]) + ForColumn(Rebased(matches, rowStart, colStart), c), multiset(queues[c]))
      ensures forall c :: 0 <= c < |queues| && ForColumn(Rebased(matches, rowStart, colStart), c) == multiset{} ==>
        queues[c] == old(queues)[c] && thresholds[c] == old(thresholds)[c]
      ensures forall c :: 0 <= c < |queues| && thresholds[c] != old(thresholds)[c] ==>
        Bounded(k, queues[c], thresholds[c])
      ensures forall c :: 0 <= c < |queues| ==>
        Raised(multiset(old(queues)[c]), multiset(queues[c]), old(thresholds)[c], thresholds[c])
    {
      hide KBest, Heap, Bounded, SortedBatch, Seen, ForColumn, Raised;
      var i := 0;
      ghost var batch, was, wasT := Rebased(matches, rowStart, colStart), queues, thresholds;
      MergedNothing(k, was, wasT, batch);
      while i < |matches|
        invariant 0 <= i <= |matches| && Valid(k) && |queues| == |was|
        invariant i < |matches| ==> forall j :: 0 <= j < i ==> batch[j].col < batch[i].col
        invariant Merged(k, was, wasT, batch, i, queues, thresholds)
      {
        ghost var i0, q0, t0 := i, queues, thresholds;
        i := MergeColumn(matches, i, rowStart, colStart, k);
        MergedColumn(k, was, wasT, batch, i0, i, q0, t0, queues, thresholds);
        NextColumn(matches, i0, i);
      }
      assert batch[..i] == batch;
    }

    /** All matches of one column; the result is where the next column starts. */
    method MergeColumn(matches: seq<Match>, i: nat, rowStart: int, colStart: int, k: nat) returns (next: nat)
      requires Valid(k) && SortedBatch(matches) && i < |matches| && 0 <= matches[i].col + colStart < |queues|
      modifies this
      ensures i < next <= |matches|
      ensures forall j :: i <= j < next ==> matches[j].col == matches[i].col
      ensures next < |matches| ==> matches[i].col < matches[next].col
      ensures
        var c := matches[i].col + colStart;
        && Valid(k) && |queues| == |old(queues)|
        && queues == old(queues)[c := queues[c]] && thresholds == old(thresholds)[c := thresholds[c]]
        && KBest(k, Seen(multiset(old(queues)[c]), Rebased(matches, rowStart, colStart), i, next), multiset(queues[c]))
        && (thresholds[c] != old(thresholds)[c] ==> Bounded(k, queues[c], thresholds[c]))
        && Raised(multiset(old(queues)[c]), multiset(queues[c]), old(thresholds)[c], thresholds[c])
    {
      hide KBest, Heap, Bounded, SortedBatch, Seen, Raised;
      var c := matches[i].col + colStart;
      var pq, count, updatePossible, oldVal :=
        TakeBest(matches, i, rowStart, colStart, k, queues[c], thresholds[c]);
      if i + count < |matches| && matches[i + count].col == matches[i].col {
        StoppedForGood(matches, i, count, k, multiset(queues[c]), Rebased(matches, rowStart, colStart), pq);
      }
      next := SkipRest(matches, i, i + count, k, multiset(queues[c]), Rebased(matches, rowStart, colStart), pq);
      queues := queues[c := pq];
      if updatePossible {
        thresholds := thresholds[c := oldVal];
      }
      ColumnEnds(matches, i, next);
    }
  }

  /** The taking has got to match `n` of a column that starts at `i`. */
  ghost predicate TakingAt(k: nat, was: seq<Match>, batch: seq<Match>, i: nat, n: nat, q: seq<Match>,
                           moved: (multiset<Match>, multiset<Match>), updatePossible: bool, oldVal: real, last: real)
    requires i <= n <= |batch|
  {
    && Heap(q) && |q| <= k && KBest(k, Seen(multiset(was), batch, i, n), multiset(q))
    && Taking(k, multiset(was), q, moved.0, moved.1, updatePossible, oldVal, last)
  }

  lemma TakingAtStart(k: nat, q: seq<Match>, batch: seq<Match>, i: nat, oldVal: real, last: real)
    requires Heap(q) && |q| <= k && i <= |batch|
    ensures TakingAt(k, q, batch, i, i, q, (multiset{}, multiset{}), false, oldVal, last)
  {
    hide Heap, KBest, Seen, Taking;
    SeenNothing(k, q, batch, i);
    TakingStarts(k, q, oldVal, last);
  }

  lemma TakingAtEnd(k: nat, was: seq<Match>, batch: seq<Match>, i: nat, n: nat, q: seq<Match>,
                    moved: (multiset<Match>, multiset<Match>), updatePossible: bool, oldVal: real, last: real,
                    threshold: real)
    requires i <= n <= |batch| && TakingAt(k, was, batch, i, n, q, moved, updatePossible, oldVal, last)
    ensures Heap(q) && |q| <= k && KBest(k, Seen(multiset(was), batch, i, n), multiset(q))
    ensures updatePossible ==> Bounded(k, q, oldVal)
    ensures Raised(multiset(was), multiset(q), threshold, if updatePossible then oldVal else threshold)
  {
    hide Heap, KBest, Seen, Taking, Raised, Bounded;
    TakingEnds(k, multiset(was), q, moved.0, moved.1, updatePossible, oldVal, last, threshold);
  }

  /** Let one match into a queue that it improves. */
  method TakeOne(k: nat, q: seq<Match>, m: Match, updatePossible: bool, oldVal: real, ghost was: seq<Match>,
                 ghost batch: seq<Match>, ghost i: nat, ghost n: nat, ghost moved: (multiset<Match>, multiset<Match>),
                 ghost last: real)
      returns (r: seq<Match>, updatePossible': bool, oldVal': real, ghost moved': (multiset<Match>, multiset<Match>))
    requires i <= n < |batch| && m == batch[n] && m.corr <= last && k > 0
    requires TakingAt(k, was, batch, i, n, q, moved, updatePossible, oldVal, last)
    requires |q| == k ==> m.corr > q[0].corr
    ensures TakingAt(k, was, batch, i, n + 1, r, moved', updatePossible', oldVal', m.corr)
  {
    hide Heap, KBest, Seen, Taking, Bounded;
    var gone;
    r, gone := Offer(k, q, m, Seen(multiset(was), batch, i, n));
    TakingGoesOn(k, multiset(was), q, r, moved.0, moved.1, updatePossible, oldVal, last, m, gone);
    Stretch(multiset(was), batch, i, n);
    moved' := (moved.0 + multiset{m}, moved.1 + multiset(gone));
    updatePossible', oldVal' := updatePossible, oldVal;
    if gone != [] {
      updatePossible', oldVal' := true, gone[0].corr;
    }
  }

  /** Take matches of one column while they improve a queue of at most `k`. */
  method TakeBest(matches: seq<Match>, i: nat, rowStart: int, colStart: int, k: nat, q: seq<Match>,
                  ghost threshold: real)
      returns (pq: seq<Match>, count: nat, updatePossible: bool, oldVal: real)
    requires SortedBatch(matches) && i < |matches| && Heap(q) && |q| <= k
    ensures i + count <= |matches| && Heap(pq) && |pq| <= k
    ensures count == 0 || matches[i + count - 1].col == matches[i].col
    ensures KBest(k, Seen(multiset(q), Rebased(matches, rowStart, colStart), i, i + count), multiset(pq))
    ensures updatePossible ==> Bounded(k, pq, oldVal)
    ensures Raised(multiset(q), multiset(pq), threshold, if updatePossible then oldVal else threshold)
    ensures i + count < |matches| && matches[i + count].col == matches[i].col ==>
      count == k || (|pq| == k > 0 && matches[i + count].corr <= pq[0].corr)
  {
    hide *;
    ghost var batch := Rebased(matches, rowStart, colStart);
    var currCol := matches[i].col;
    pq, count, updatePossible, oldVal := q, 0, false, 0.0;
    ghost var moved: (multiset<Match>, multiset<Match>) := (multiset{}, multiset{});
    ghost var last := matches[i].corr;
    TakingAtStart(k, q, batch, i, oldVal, last);
    while i + count < |matches| && matches[i + count].col == currCol && count < k
      invariant i + count <= |matches| && count <= k
      invariant count == 0 || matches[i + count - 1].col == currCol
      invariant TakingAt(k, q, batch, i, i + count, pq, moved, updatePossible, oldVal, last)
      invariant i + count < |matches| && matches[i + count].col == currCol ==> matches[i + count].corr <= last
    {
      var next := matches[i + count];
      if |pq| == k && next.corr <= pq[0].corr {
        break;
      }
      pq, updatePossible, oldVal, moved := TakeOne(k, pq, Match(next.corr, next.row + rowStart, next.col + colStart),
        updatePossible, oldVal, q, batch, i, i + count, moved, last);
      last := next.corr;
      NextIsNoBetter(matches, i + count);
      count := count + 1;
    }
    TakingAtEnd(k, q, batch, i, i + count, pq, moved, updatePossible, oldVal, last, threshold);
  }

  /** Whichever way the taking stopped, what is left of the column is no better than the whole queue. */
  lemma StoppedForGood(matches: seq<Match>, i: nat, count: nat, k: nat, start: multiset<Match>, batch: seq<Match>,
                       pq: seq<Match>)
    requires SortedBatch(matches) && i + count < |matches| == |batch| && matches[i + count].col == matches[i].col
    requires forall j :: 0 <= j < |matches| ==> batch[j].corr == matches[j].corr
    requires Heap(pq) && |pq| <= k && KBest(k, Seen(start, batch, i, i + count), multiset(pq))
    requires count == k || (|pq| == k > 0 && matches[i + count].corr <= pq[0].corr)
    ensures Bounded(k, pq, matches[i + count].corr)
  {
    hide *;
    Descending(matches, i, i + count);
    if count == k {
      RestIsUseless(k, start, batch, i, pq, matches[i + count].corr);
    } else {
      FullHeapBounds(k, pq, matches[i + count].corr);
    }
  }

  /** The rest of a column cannot change the queue. */
  method SkipRest(matches: seq<Match>, i: nat, from: nat, k: nat,
                  ghost start: multiset<Match>, ghost batch: seq<Match>, ghost pq: seq<Match>) returns (next: nat)
    requires SortedBatch(matches) && i < |matches| && i <= from <= |matches| && |batch| == |matches|
    requires forall j :: 0 <= j < |matches| ==> batch[j].corr == matches[j].corr
    requires from == i || matches[from - 1].col == matches[i].col
    requires KBest(k, Seen(start, batch, i, from), multiset(pq))
    requires from < |matches| && matches[from].col == matches[i].col ==> Bounded(k, pq, matches[from].corr)
    ensures i < next <= |matches| && matches[next - 1].col == matches[i].col
    ensures next < |matches| ==> matches[next].col != matches[i].col
    ensures KBest(k, Seen(start, batch, i, next), multiset(pq))
  {
    hide *;
    next := from;
    while next < |matches| && matches[next].col == matches[i].col
      invariant i <= next <= |matches|
      invariant next == i || matches[next - 1].col == matches[i].col
      invariant KBest(k, Seen(start, batch, i, next), multiset(pq))
      invariant next < |matches| && matches[next].col == matches[i].col ==> Bounded(k, pq, matches[next].corr)
    {
      IgnoreInHeap(k, Seen(start, batch, i, next), pq, batch[next]);
      Stretch(start, batch, i, next);
      if next + 1 < |matches| && matches[next + 1].col == matches[i].col {
        Descending(matches, i, next + 1);
        LowerBound(k, pq, matches[next].corr, matches[next + 1].corr);
      }
      next := next + 1;
    }
  }

  lemma ColumnEnds(matches: seq<Match>, i: nat, next: nat)
    requires SortedBatch(matches) && i < next <= |matches| && matches[next - 1].col == matches[i].col
    requires next < |matches| ==> matches[next].col != matches[i].col
    ensures forall j :: i <= j < next ==> matches[j].col == matches[i].col
    ensures next < |matches| ==> matches[i].col < matches[next].col
  {
    Descending(matches, i, next - 1);
    if next < |matches| {
      assert Before(matches[i], matches[next]);
    }
  }

  lemma KBestItself(k: nat, q: seq<Match>)
    requires |q| <= k
    ensures KBest(k, multiset(q), multiset(q))
  {
  }
}
