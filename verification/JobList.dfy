/**
 The server's list of running jobs and its round-robin scheduler.
 */
module JobList {

  /** Has this job work? The answers of one scheduling round, by job. */
  type Work = set<int>

  /** The first position of a job that has work, or the length of the list. */
  function FirstWith(runList: seq<int>, work: Work): (k: nat)
    ensures k <= |runList|
    ensures forall i :: 0 <= i < k ==> runList[i] !in work
    ensures k < |runList| ==> runList[k] in work
  {
    if runList == [] then 0 else if runList[0] in work then 0 else 1 + FirstWith(runList[1..], work)
  }

  /** The list after its first `k` jobs have been moved to the back. */
  function Rotated(runList: seq<int>, k: nat): seq<int>
    requires k <= |runList|
  {
    runList[k..] + runList[..k]
  }

  lemma RotatedIsPermutation(runList: seq<int>, k: nat)
    requires k <= |runList|
    ensures multiset(Rotated(runList, k)) == multiset(runList)
  {
    assert runList == runList[..k] + runList[k..];
  }

  /** What is left of a list when the jobs that no longer run leave it: `places` says where each one stood before, in
      order, and whoever runs is left. */
  ghost predicate StayedAt(was: seq<int>, now: seq<int>, running: set<int>, places: seq<nat>) {
    && |places| == |now| && (forall k: nat :: k < |now| ==> Came(was, now, running, places, k))
    && (forall k: nat, l: nat :: k < l < |places| ==> places[k] < places[l])
    && (forall i: nat :: i < |was| && was[i] in running ==> Stands(places, i))
  }

  ghost predicate Came(was: seq<int>, now: seq<int>, running: set<int>, places: seq<nat>, k: nat)
    requires k < |places| == |now|
  {
    places[k] < |was| && now[k] == was[places[k]] && now[k] in running
  }

  ghost predicate Stands(places: seq<nat>, i: nat) {
    exists k :: 0 <= k < |places| && places[k] == i
  }

  ghost predicate Stayed(was: seq<int>, now: seq<int>, running: set<int>) {
    exists places: seq<nat> :: StayedAt(was, now, running, places)
  }

  class Scheduler {
    var runList: seq<int>

    constructor ()
      ensures runList == []
    {
      runList := [];
    }

    method AddJob(id: int)
      modifies this
      ensures runList == old(runList) + [id]
    {
      runList := runList + [id];
    }

    /** Jobs that are no longer running leave the list; the others keep their order. */
    method CleanupJobs(running: set<int>)
      modifies this
      ensures Stayed(old(runList), runList, running)
    {
      var i := 0;
      ghost var was := runList;
      while i < |runList|
        invariant 0 <= i <= |runList|
        invariant Keep(was, running) == runList[..i] + Keep(runList[i..], running)
        decreases |runList| - i
      {
        assert runList[i..][1..] == runList[i + 1..];
        if runList[i] !in running {
          ghost var rest := runList[i..];
          runList := runList[..i] + runList[i + 1..];
          assert runList[i..] == rest[1..];
        } else {
          assert runList[..i + 1] == runList[..i] + [runList[i]];
          i := i + 1;
        }
      }
      assert runList[..i] == runList && runList[i..] == [];
      assert Keep(was, running) == runList;
      KeepIs(was, running);
    }

    /** Each job asked goes to the back; the first that has work is the answer, and there is none if no job has. */
    method ScheduleRoundRobin(work: Work) returns (job: seq<int>)
      modifies this
      ensures (job, runList) == Call(old(runList), work)
      ensures job == [] ==> runList == old(runList) && forall j :: 0 <= j < |runList| ==> runList[j] !in work
      ensures job != [] ==> exists k ::
        && 0 <= k < |old(runList)| && old(runList)[k] in work && (forall j :: 0 <= j < k ==> old(runList)[j] !in work)
        && job == [old(runList)[k]] && runList == old(runList)[k + 1..] + old(runList)[..k + 1]
      ensures multiset(runList) == old(multiset(runList))
    {
      ghost var was := runList;
      for i := 0 to |runList|
        invariant |runList| == |was| && runList == Rotated(was, i)
        invariant forall j :: 0 <= j < i ==> was[j] !in work
      {
        var id := runList[0];
        assert id == was[i];
        runList := runList[1..];
        runList := runList + [id];
        assert runList == Rotated(was, i + 1);
        RotatedIsPermutation(was, i + 1);
        if id in work {
          FirstIs(was, work, i);
          return [id];
        }
      }
      RotatedIsPermutation(was, |was|);
      assert runList == was;
      job := [];
    }
  }

  lemma FirstIs(runList: seq<int>, work: Work, k: nat)
    requires k < |runList| && runList[k] in work && forall j :: 0 <= j < k ==> runList[j] !in work
    ensures FirstWith(runList, work) == k
  {
  }

  function Keep(runList: seq<int>, running: set<int>): seq<int> {
    if runList == [] then [] else (if runList[0] in running then [runList[0]] else []) + Keep(runList[1..], running)
  }

  lemma KeepIs(runList: seq<int>, running: set<int>)
    ensures Stayed(runList, Keep(runList, running), running)
  {
    var places := Places(runList, running);
  }

  /** Where the jobs that stay stand. */
  lemma {:induction false} Places(runList: seq<int>, running: set<int>) returns (places: seq<nat>)
    ensures StayedAt(runList, Keep(runList, running), running, places)
  {
    if runList == [] {
      places := [];
    } else {
      var tail := runList[1..];
      var rest := Places(tail, running);
      var first := if runList[0] in running then [runList[0]] else [];
      assert Keep(runList, running) == first + Keep(tail, running);
      assert runList == [runList[0]] + tail;
      places := WithFirst(runList[0], tail, first, Keep(tail, running), running, rest);
    }
  }

  /** One more job in front, which stays or not. */
  lemma WithFirst(job: int, tail: seq<int>, first: seq<int>, kept: seq<int>, running: set<int>, rest: seq<nat>)
      returns (places: seq<nat>)
    requires StayedAt(tail, kept, running, rest) && first == if job in running then [job] else []
    ensures StayedAt([job] + tail, first + kept, running, places)
  {
    var n := |first|;
    places := seq(n + |rest|, k requires 0 <= k < n + |rest| => if k < n then 0 else rest[k - n] + 1);
    var was, now := [job] + tail, first + kept;
    hide Came, Stands;
    forall k: nat | k < |now| ensures Came(was, now, running, places, k) {
      if k >= n {
        assert Came(tail, kept, running, rest, k - n);
        CameLater(job, tail, first, kept, running, rest, places, k);
      } else {
        CameFirst(job, tail, first, kept, running, places);
      }
    }
    forall k: nat, l: nat | k < l < |places| ensures places[k] < places[l] {
      if k >= n {
        assert rest[k - n] < rest[l - n];
      }
    }
    forall i: nat | i < |was| && was[i] in running ensures Stands(places, i) {
      FirstOrLater(tail, running, rest, places, n, job, i);
    }
  }

  lemma CameLater(job: int, tail: seq<int>, first: seq<int>, kept: seq<int>, running: set<int>, rest: seq<nat>,
                  places: seq<nat>, k: nat)
    requires |first| <= k < |places| == |first| + |kept| && |rest| == |kept|
    requires Came(tail, kept, running, rest, k - |first|) && places[k] == rest[k - |first|] + 1
    ensures Came([job] + tail, first + kept, running, places, k)
  {
  }

  lemma CameFirst(job: int, tail: seq<int>, first: seq<int>, kept: seq<int>, running: set<int>, places: seq<nat>)
    requires first == [job] && job in running && |places| == 1 + |kept| && places[0] == 0
    ensures Came([job] + tail, first + kept, running, places, 0)
  {
  }

  lemma FirstOrLater(tail: seq<int>, running: set<int>, rest: seq<nat>, places: seq<nat>, n: nat, job: int, i: nat)
    requires i <= |tail| && ([job] + tail)[i] in running && |places| == n + |rest|
    requires job in running ==> n == 1 && places[0] == 0
    requires forall k: nat :: k < |rest| ==> places[n + k] == rest[k] + 1
    requires forall i: nat :: i < |tail| && tail[i] in running ==> Stands(rest, i)
    ensures Stands(places, i)
  {
    if i > 0 {
      assert Stands(rest, i - 1);
      var k: nat :| k < |rest| && rest[k] == i - 1;
      assert places[n + k] == i;
    } else {
      assert places[0] == 0;
    }
  }

  // ---------- Bounded bypass ----------

  /** One call: the answer and the list it leaves. */
  function Call(runList: seq<int>, work: Work): (seq<int>, seq<int>) {
    var k := FirstWith(runList, work);
    if k < |runList| then ([runList[k]], Rotated(runList, k + 1)) else ([], runList)
  }

  /** Which answers a series of calls gives. */
  function Answers(runList: seq<int>, works: seq<Work>): seq<seq<int>>
    decreases works
  {
    if works == [] then []
    else
      var (answer, rest) := Call(runList, works[0]);
      [answer] + Answers(rest, works[1..])
  }

  /** A waiting job moves forward with every call that answers another job. */
  lemma WaitingJobAdvances(runList: seq<int>, work: Work, p: nat)
    requires p < |runList| && runList[p] in work
    ensures
      var k := FirstWith(runList, work);
      var (answer, rest) := Call(runList, work);
      && k <= p && |rest| == |runList|
      && (k == p ==> answer == [runList[p]])
      && (k < p ==> rest[p - k - 1] == runList[p])
  {
  }

  /** With a fixed set of jobs, a job that has work at every call is the answer of one of the next `|runList|` calls. */
  lemma {:induction false} BoundedBypass(runList: seq<int>, works: seq<Work>, p: nat)
    requires p < |runList| && |works| > p
    requires forall i :: 0 <= i < |works| ==> runList[p] in works[i]
    ensures |Answers(runList, works)| == |works|
    ensures exists i :: 0 <= i <= p && Answers(runList, works)[i] == [runList[p]]
    decreases p
  {
    AnswersLength(runList, works);
    var k := FirstWith(runList, works[0]);
    var (answer, rest) := Call(runList, works[0]);
    WaitingJobAdvances(runList, works[0], p);
    if k < p {
      BoundedBypass(rest, works[1..], p - k - 1);
      var i :| 0 <= i <= p - k - 1 && Answers(rest, works[1..])[i] == [runList[p]];
      assert Answers(runList, works)[i + 1] == [runList[p]];
    } else {
      assert Answers(runList, works)[0] == [runList[p]];
    }
  }

  lemma {:induction false} AnswersLength(runList: seq<int>, works: seq<Work>)
    ensures |Answers(runList, works)| == |works|
    decreases works
  {
    if works != [] {
      AnswersLength(Call(runList, works[0]).1, works[1..]);
    }
  }
}
