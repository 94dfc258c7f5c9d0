/**
 The lock-free maximum with its index: any number of threads in a compare-and-swap loop on one word.
 */
module AtomicMax {
  import opened Profiles

  /** A thread proposes one pair; `seen` is the word it last loaded or got back from its compare-and-swap. */
  datatype Thread =
    | Start(proposal: Entry)
    | Trying(proposal: Entry, seen: Entry)
    | Done(proposal: Entry)

  datatype State = State(word: Entry, threads: seq<Thread>)

  predicate Load(s: State, s': State, i: nat)
    requires i < |s.threads|
  {
    && s.threads[i].Start?
    && s' == s.(threads := s.threads[i := Trying(s.threads[i].proposal, s.word)])
  }

  /** The loop test fails. */
  predicate Leave(s: State, s': State, i: nat)
    requires i < |s.threads|
  {
    && s.threads[i].Trying? && s.threads[i].seen.value >= s.threads[i].proposal.value
    && s' == s.(threads := s.threads[i := Done(s.threads[i].proposal)])
  }

  /** One compare-and-swap of the whole word. It returns the old word, and the loop goes round again even when
      the swap succeeded. */
  predicate CompareAndSwap(s: State, s': State, i: nat)
    requires i < |s.threads|
  {
    var t := s.threads[i];
    && t.Trying? && t.seen.value < t.proposal.value
    && s' == State(if s.word == t.seen then t.proposal else s.word,
                   s.threads[i := Trying(t.proposal, s.word)])
  }

  predicate ThreadStep(s: State, s': State, i: nat) {
    i < |s.threads| && (Load(s, s', i) || Leave(s, s', i) || CompareAndSwap(s, s', i))
  }

  ghost predicate Step(s: State, s': State) {
    exists i: nat :: ThreadStep(s, s', i)
  }

  ghost predicate Run(run: seq<State>) {
    && |run| > 0 && (forall i :: 0 <= i < |run[0].threads| ==> run[0].threads[i].Start?)
    && forall i :: 0 <= i < |run| - 1 ==> Step(run[i], run[i + 1])
  }

  /** The word is the first one or one whole proposal; a thread's view is the word itself or strictly below it. */
  ghost predicate Inv(initial: Entry, s: State) {
    && initial.value <= s.word.value
    && (s.word == initial || exists i :: 0 <= i < |s.threads| && s.threads[i].proposal == s.word)
    && forall i :: 0 <= i < |s.threads| ==> ThreadOk(s.word, s.threads[i])
  }

  predicate ThreadOk(word: Entry, t: Thread) {
    match t
    case Start(_) => true
    case Trying(_, seen) => seen == word || seen.value < word.value
    case Done(p) => p.value <= word.value
  }

  lemma StepKeepsInv(initial: Entry, s: State, s': State)
    requires Inv(initial, s) && Step(s, s')
    ensures Inv(initial, s') && s.word.value <= s'.word.value
    ensures |s'.threads| == |s.threads| && forall i :: 0 <= i < |s.threads| ==>
      s'.threads[i].proposal == s.threads[i].proposal
  {
    var i: nat :| ThreadStep(s, s', i);
    assert ThreadOk(s.word, s.threads[i]);
    assert s'.threads[i].proposal == s.threads[i].proposal;
    if s'.word == s.word && s.word != initial {
      var k :| 0 <= k < |s.threads| && s.threads[k].proposal == s.word;
      assert s'.threads[k].proposal == s'.word;
    }
    forall j | 0 <= j < |s'.threads| ensures ThreadOk(s'.word, s'.threads[j]) {
      assert ThreadOk(s.word, s.threads[j]);
    }
  }

  lemma {:induction false} RunKeepsInv(run: seq<State>, i: nat)
    requires Run(run) && i < |run|
    ensures Inv(run[0].word, run[i]) && run[0].word.value <= run[i].word.value
    ensures |run[i].threads| == |run[0].threads|
    ensures forall k :: 0 <= k < |run[0].threads| ==> run[i].threads[k].proposal == run[0].threads[k].proposal
  {
    if i > 0 {
      RunKeepsInv(run, i - 1);
      assert Step(run[i - 1], run[i - 1 + 1]);
      StepKeepsInv(run[0].word, run[i - 1], run[i]);
    }
  }

  /** The stored value never goes down along a run. */
  lemma {:induction false} ValueNeverDecreases(run: seq<State>, i: nat, j: nat)
    requires Run(run) && i <= j < |run|
    ensures run[i].word.value <= run[j].word.value
    decreases j - i
  {
    if i < j {
      RunKeepsInv(run, i);
      assert Step(run[i], run[i + 1]);
      StepKeepsInv(run[0].word, run[i], run[i + 1]);
      ValueNeverDecreases(run, i + 1, j);
    }
  }

  ghost predicate AllDone(s: State) {
    forall i :: 0 <= i < |s.threads| ==> s.threads[i].Done?
  }

  /** Once every thread is done, the word is the old one or one of the proposals, whole, and it is the maximum. */
  lemma FinalWordIsMaximum(run: seq<State>)
    requires Run(run) && AllDone(run[|run| - 1])
    ensures
      var word := run[|run| - 1].word;
      && run[0].word.value <= word.value
      && (forall i :: 0 <= i < |run[0].threads| ==> run[0].threads[i].proposal.value <= word.value)
      && (word == run[0].word || exists i :: 0 <= i < |run[0].threads| && run[0].threads[i].proposal == word)
  {
    var s := run[|run| - 1];
    RunKeepsInv(run, |run| - 1);
    forall i | 0 <= i < |run[0].threads| ensures run[0].threads[i].proposal.value <= s.word.value {
      assert ThreadOk(s.word, s.threads[i]);
    }
    if s.word != run[0].word {
      var i :| 0 <= i < |s.threads| && s.threads[i].proposal == s.word;
      assert run[0].threads[i].proposal == s.word;
    }
  }

  // ---------- Termination ----------

  /** What a thread may still do: a proposal above the word can win once, and each win can make every thread's
      view stale. */
  function ThreadRank(word: Entry, t: Thread, n: nat): nat {
    (if !t.Done? && t.proposal.value > word.value then n + 2 else 0)
    + (match t case Done(_) => 0 case Trying(_, seen) => if seen == word then 1 else 2 case Start(_) => 3)
  }

  function Rank(word: Entry, threads: seq<Thread>, n: nat): nat {
    if threads == [] then 0 else ThreadRank(word, threads[0], n) + Rank(word, threads[1..], n)
  }

  lemma {:induction false} RankUpdate(word: Entry, threads: seq<Thread>, n: nat, i: nat, t: Thread)
    requires i < |threads|
    ensures Rank(word, threads[i := t], n) == Rank(word, threads, n) - ThreadRank(word, threads[i], n) +
      ThreadRank(word, t, n)
  {
    if i == 0 {
      assert threads[i := t][1..] == threads[1..];
    } else {
      RankUpdate(word, threads[1..], n, i - 1, t);
      assert threads[i := t][1..] == threads[1..][i - 1 := t];
    }
  }

  /** Raising the word costs the other threads at most a stale view each. */
  lemma {:induction false} RankWhenWordRises(word: Entry, word': Entry, threads: seq<Thread>, n: nat)
    requires word.value < word'.value
    ensures Rank(word', threads, n) <= Rank(word, threads, n) + |threads|
  {
    if threads != [] {
      RankWhenWordRises(word, word', threads[1..], n);
    }
  }

  lemma StepLowersRank(initial: Entry, s: State, s': State)
    requires Inv(initial, s) && Step(s, s')
    ensures Rank(s'.word, s'.threads, |s.threads|) < Rank(s.word, s.threads, |s.threads|)
  {
    var i: nat :| ThreadStep(s, s', i);
    var n, t := |s.threads|, s.threads[i];
    assert ThreadOk(s.word, t);
    RankUpdate(s.word, s.threads, n, i, s'.threads[i]);
    if s'.word != s.word {
      // A winning swap: first the word rises, then the winner's own view changes.
      RankWhenWordRises(s.word, s'.word, s.threads, n);
      WinnerPays(s.word, s'.word, s.threads, n, i);
      RankUpdate(s'.word, s.threads, n, i, s'.threads[i]);
    }
  }

  /** The winner no longer has a proposal above the word. */
  lemma {:induction false} WinnerPays(word: Entry, word': Entry, threads: seq<Thread>, n: nat, i: nat)
    requires word.value < word'.value && i < |threads| && !threads[i].Done? && threads[i].proposal == word'
    ensures Rank(word', threads, n) <= Rank(word, threads, n) + |threads| - (n + 2)
  {
    if i == 0 {
      RankWhenWordRises(word, word', threads[1..], n);
    } else {
      WinnerPays(word, word', threads[1..], n, i - 1);
    }
  }

  /** Every run ends: its length is bounded by the rank of its first state. */
  lemma {:induction false} RunsAreBounded(run: seq<State>, i: nat)
    requires Run(run) && i < |run|
    ensures Rank(run[i].word, run[i].threads, |run[0].threads|) <= Rank(run[0].word, run[0].threads,
      |run[0].threads|) - i
  {
    if i > 0 {
      RunsAreBounded(run, i - 1);
      RunKeepsInv(run, i - 1);
      assert Step(run[i - 1], run[i - 1 + 1]);
      StepLowersRank(run[0].word, run[i - 1], run[i]);
    }
  }

  ghost predicate CanStep(s: State) {
    exists s' :: Step(s, s')
  }

  /** A thread that is not done can always take its next step, whatever the others do. */
  lemma NeverBlocked(s: State, i: nat)
    requires i < |s.threads| && !s.threads[i].Done?
    ensures CanStep(s)
  {
    var t := s.threads[i];
    var s' :=
      if t.Start? then s.(threads := s.threads[i := Trying(t.proposal, s.word)])
      else if t.seen.value >= t.proposal.value then s.(threads := s.threads[i := Done(t.proposal)])
      else State(if s.word == t.seen then t.proposal else s.word, s.threads[i := Trying(t.proposal, s.word)]);
    assert ThreadStep(s, s', i);
    assert Step(s, s');
  }
}
