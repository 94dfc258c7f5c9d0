/**
 One distributed job: its tiles, the queue of tiles ready to be handed out, and the retry protocol.
 */
module DistributedJob {
  import opened Arithmetic
  import opened DistributedTiles
  import opened Tiling

  const MAX_TILE_RETRIES := 3
  const MIN_TIMEOUT_SECONDS := 10

  const NO_TIMEOUT := 0x7fff_ffff

  datatype TileStatus = Ready | Running | Finished | Failed

  datatype JobStatus = JobRunning | JobFinished | JobFailed

  /** A tile's place in the distance matrix never changes; the rest is the state of its execution. Its own arguments
      say whether it keeps its rows apart, once it has been handed out. */
  datatype DistributedTile = DistributedTile(
    row: nat, col: nat, startRow: int, startCol: int, height: int, width: int,
    status: TileStatus, hasArgs: bool, keepRows: bool, retries: int, startTime: int, timeout: int)

  /** A tile of a self-join is a self-join on the diagonal; elsewhere it joins two series and always keeps its rows. */
  predicate TileHasB(hasB: bool, t: DistributedTile) {
    hasB || t.row != t.col
  }

  predicate TileKeepsRows(hasB: bool, keepRowsSeparate: bool, t: DistributedTile) {
    keepRowsSeparate || (!hasB && t.row != t.col)
  }

  /** What a worker sends back. */
  datatype Request = Request(tileId: int, height: int, width: int, startRow: int, startCol: int,
                             profileASize: int, profileBSize: int)

  function Count(flags: seq<bool>): nat {
    if flags == [] then 0 else (if flags[0] then 1 else 0) + Count(flags[1..])
  }

  lemma {:induction false} CountUpdate(flags: seq<bool>, i: nat, b: bool)
    requires i < |flags|
    ensures Count(flags[i := b]) == Count(flags) - (if flags[i] then 1 else 0) + (if b then 1 else 0)
  {
    if i == 0 {
      assert flags[i := b][1..] == flags[1..];
    } else {
      CountUpdate(flags[1..], i - 1, b);
      assert flags[i := b][1..] == flags[1..][i - 1 := b];
    }
  }

  /** How many tiles are finished. */
  function FinishedFlags(tiles: seq<DistributedTile>): (r: seq<bool>)
    ensures |r| == |tiles| && forall i :: 0 <= i < |tiles| ==> r[i] == tiles[i].status.Finished?
  {
    seq(|tiles|, i requires 0 <= i < |tiles| => tiles[i].status.Finished?)
  }

  function FinishedCount(tiles: seq<DistributedTile>): nat {
    Count(FinishedFlags(tiles))
  }

  lemma FinishedCountUpdate(tiles: seq<DistributedTile>, i: nat, t: DistributedTile)
    requires i < |tiles|
    ensures FinishedCount(tiles[i := t])
         == FinishedCount(tiles) - (if tiles[i].status.Finished? then 1 else 0) + (if t.status.Finished? then 1 else 0)
  {
    CountUpdate(FinishedFlags(tiles), i, t.status.Finished?);
    assert FinishedFlags(tiles[i := t]) == FinishedFlags(tiles)[i := t.status.Finished?];
  }

  predicate InQueue(queue: seq<int>, i: int) {
    i in queue
  }

  /** A queued tile is ready or failed, a ready tile is queued, and every stay in the queue is paid for by the
      first hand-out or by a retry. */
  predicate TileOk(t: DistributedTile, queued: bool, handouts: nat, merges: nat, lostReports: nat) {
    && (queued ==> t.status.Ready? || t.status.Failed?)
    && (t.status.Ready? ==> queued)
    && 0 <= t.retries <= MAX_TILE_RETRIES + 1
    && handouts + (if queued then 1 else 0) == 1 + t.retries
    && merges == (if t.status.Finished? then 1 else 0) + lostReports
  }

  predicate ArgsOk(hasB: bool, keepRowsSeparate: bool, t: DistributedTile) {
    t.hasArgs ==> t.keepRows == TileKeepsRows(hasB, keepRowsSeparate, t)
  }

  predicate SamePlace(t: DistributedTile, u: DistributedTile) {
    && t.row == u.row && t.col == u.col
    && t.startRow == u.startRow && t.startCol == u.startCol && t.height == u.height && t.width == u.width
  }

  /** No tile is finished now that was not before. */
  ghost predicate NoneFinishes(was: seq<DistributedTile>, now: seq<DistributedTile>) {
    |was| == |now| && forall i :: 0 <= i < |now| && now[i].status.Finished? ==> was[i].status.Finished?
  }

  /** A failed tile that has no retry left. */
  ghost predicate Exhausted(tiles: seq<DistributedTile>) {
    exists i :: 0 <= i < |tiles| && tiles[i].status.Failed? && tiles[i].retries > 3
  }

  function Indices(n: int): (r: set<int>)
    ensures forall i :: i in r <==> 0 <= i < n
    decreases n
  {
    if n <= 0 then {} else Indices(n - 1) + {n - 1}
  }

  lemma AllQueued(queue: seq<int>)
    requires forall i :: 0 <= i < |queue| ==> queue[i] == i
    ensures forall i :: 0 <= i < |queue| ==> InQueue(queue, i)
  {
    forall i | 0 <= i < |queue| ensures InQueue(queue, i) {
      assert queue[i] in queue;
    }
  }

  /** The failed tiles outside `remaining` are queued again, with one retry more; nothing else has changed. */
  ghost predicate Requeued(was: seq<DistributedTile>, tiles: seq<DistributedTile>, queue: seq<int>, remaining: set<int>,
                           now: int) {
    && |tiles| == |was|
    && (forall i :: 0 <= i < |was| ==>
          tiles[i] == if InQueue(queue, i) then was[i].(retries := was[i].retries + 1, startTime := now) else was[i])
    && (forall i :: 0 <= i < |was| && InQueue(queue, i) ==> was[i].status.Failed? && i !in remaining)
    && (forall i :: 0 <= i < |was| && i !in remaining && was[i].status.Failed? ==>
          InQueue(queue, i) && was[i].retries <= MAX_TILE_RETRIES)
  }

  lemma NoneRequeued(was: seq<DistributedTile>, remaining: set<int>, now: int)
    requires forall i :: 0 <= i < |was| ==> i in remaining
    ensures Requeued(was, was, [], remaining, now)
  {
  }

  lemma StillWaiting(was: seq<DistributedTile>, tiles: seq<DistributedTile>, queue: seq<int>, remaining: set<int>,
                     now: int, i: int)
    requires Requeued(was, tiles, queue, remaining, now) && i in remaining && 0 <= i < |was|
    ensures |tiles| == |was| && !InQueue(queue, i) && tiles[i] == was[i]
  {
  }

  lemma NextRequeued(was: seq<DistributedTile>, before: seq<DistributedTile>, tiles: seq<DistributedTile>,
                     queueBefore: seq<int>, queue: seq<int>, remaining: set<int>, now: int, i: int)
    requires Requeued(was, before, queueBefore, remaining, now) && i in remaining && 0 <= i < |was|
    requires
      if was[i].status.Failed? then
        && was[i].retries <= MAX_TILE_RETRIES && queue == queueBefore + [i] && |before| == |was|
        && tiles == before[i := was[i].(retries := was[i].retries + 1, startTime := now)]
      else
        tiles == before && queue == queueBefore
    ensures Requeued(was, tiles, queue, remaining - {i}, now)
  {
    assert forall k :: InQueue(queue, k) <==> InQueue(queueBefore, k) || (was[i].status.Failed? && k == i);
    hide InQueue;
  }

  lemma RequeueOutcome(was: seq<DistributedTile>, tiles: seq<DistributedTile>, queue: seq<int>, remaining: set<int>,
                       now: int)
    requires Requeued(was, tiles, queue, remaining, now)
    ensures |tiles| == |was| && forall i :: 0 <= i < |was| ==>
      tiles[i] == if InQueue(queue, i) then was[i].(retries := was[i].retries + 1, startTime := now) else was[i]
    ensures forall i :: 0 <= i < |was| && InQueue(queue, i) ==> was[i].status.Failed?
    ensures remaining == {} ==> !Exhausted(was)
    ensures remaining == {} ==> forall i :: 0 <= i < |was| && was[i].status.Failed? ==> InQueue(queue, i)
  {
    hide InQueue;
  }

  /** The time a tile gets: the estimate, halved for a self-join, but never less than the minimum. */
  function Timeout(estimate: int, halved: bool): (t: int)
    ensures t >= MIN_TIMEOUT_SECONDS
  {
    var t := if halved then estimate / 2 else estimate;
    if t < MIN_TIMEOUT_SECONDS then MIN_TIMEOUT_SECONDS else t
  }

  class Job {
    var tiles: seq<DistributedTile>
    var readyQueue: seq<int>
    var status: JobStatus
    var tilesCompleted: int
    const hasB: bool
    const keepRowsSeparate: bool
    const distributedTileSize: int

    // Histories, per tile: hand-outs, merges, and failure reports that named a finished tile.
    ghost var handouts: seq<nat>
    ghost var merges: seq<nat>
    ghost var lostReports: seq<nat>

    /** What holds between any two calls. */
    ghost predicate Valid()
      reads this
    {
      && |handouts| == |merges| == |lostReports| == |tiles|
      && (forall k :: 0 <= k < |readyQueue| ==> 0 <= readyQueue[k] < |tiles|)
      && (forall k, l :: 0 <= k < l < |readyQueue| ==> readyQueue[k] != readyQueue[l])
      && (forall i :: 0 <= i < |tiles| ==>
            TileOk(tiles[i], InQueue(readyQueue, i), handouts[i], merges[i], lostReports[i]))
      && (forall i :: 0 <= i < |tiles| ==> ArgsOk(hasB, keepRowsSeparate, tiles[i]))
      && tilesCompleted == FinishedCount(tiles) + Total(lostReports)
    }

    /** Every tile starts out ready and queued, in order. */
    constructor (geometry: seq<DistributedTile>, withB: bool, keepRows: bool, tileSize: int)
      requires forall i :: 0 <= i < |geometry| ==>
        geometry[i].status.Ready? && geometry[i].retries == 0 && !geometry[i].hasArgs
      ensures Valid() && tiles == geometry && status.JobRunning? && tilesCompleted == 0
      ensures hasB == withB && keepRowsSeparate == keepRows && distributedTileSize == tileSize
      ensures readyQueue == seq(|geometry|, i => i)
      ensures forall i :: 0 <= i < |tiles| ==> handouts[i] == merges[i] == lostReports[i] == 0
    {
      tiles := geometry;
      readyQueue := seq(|geometry|, i => i);
      status := JobRunning;
      tilesCompleted := 0;
      hasB := withB;
      keepRowsSeparate := keepRows;
      distributedTileSize := tileSize;
      handouts := seq(|geometry|, _ => 0);
      merges := seq(|geometry|, _ => 0);
      lostReports := seq(|geometry|, _ => 0);
      new;
      NoneFinished(geometry);
      TotalOfZeros(|geometry|);
      hide InQueue;
      AllQueued(readyQueue);
    }

    /** Failed tiles are queued again, in whatever order the table yields them, until one has used up its
        retries. The result says that none had; both callers read it the other way round. */
    method CleanupFailedTiles(now: int) returns (ok: bool)
      requires Valid() && readyQueue == []
      modifies this`tiles, this`readyQueue, this`status
      ensures Valid()
      ensures ok <==> !Exhausted(old(tiles))
      ensures status == if ok then old(status) else JobFailed
      ensures |tiles| == |old(tiles)|
      ensures forall i :: 0 <= i < |tiles| ==>
        tiles[i] ==
          if InQueue(readyQueue, i) then old(tiles)[i].(retries := old(tiles)[i].retries + 1, startTime := now)
          else old(tiles)[i]
      ensures forall i :: 0 <= i < |tiles| && InQueue(readyQueue, i) ==> old(tiles)[i].status.Failed?
      ensures ok ==> forall i :: 0 <= i < |tiles| && old(tiles)[i].status.Failed? ==> InQueue(readyQueue, i)
    {
      hide FinishedCount, Total, ArgsOk, TileOk, Requeued;
      ghost var was := tiles;
      var remaining := Indices(|tiles|);
      NoneRequeued(was, remaining, now);
      while remaining != {}
        invariant remaining <= Indices(|was|) && |tiles| == |was|
        invariant status == old(status) && Valid()
        invariant Requeued(was, tiles, readyQueue, remaining, now)
        decreases remaining
      {
        ghost var tilesBefore, queueBefore := tiles, readyQueue;
        var i :| i in remaining;
        StillWaiting(was, tiles, readyQueue, remaining, now, i);
        if tiles[i].status.Failed? {
          if tiles[i].retries > MAX_TILE_RETRIES {
            status := JobFailed;
            RequeueOutcome(was, tiles, readyQueue, remaining, now);
            return false;
          }
          Requeue(i, now);
        }
        NextRequeued(was, tilesBefore, tiles, queueBefore, readyQueue, remaining, now, i);
        remaining := remaining - {i};
      }
      RequeueOutcome(was, tiles, readyQueue, remaining, now);
      ok := true;
    }

    method Requeue(i: int, now: int)
      requires Valid() && 0 <= i < |tiles| && !InQueue(readyQueue, i)
      requires tiles[i].status.Failed? && tiles[i].retries <= MAX_TILE_RETRIES
      modifies this`tiles, this`readyQueue
      ensures Valid()
      ensures tiles == old(tiles)[i := old(tiles)[i].(retries := old(tiles)[i].retries + 1, startTime := now)]
      ensures readyQueue == old(readyQueue) + [i]
    {
      FinishedCountUpdate(tiles, i, tiles[i].(retries := tiles[i].retries + 1, startTime := now));
      tiles := tiles[i := tiles[i].(retries := tiles[i].retries + 1, startTime := now)];
      readyQueue := readyQueue + [i];
      assert forall k :: InQueue(readyQueue, k) <==> k == i || InQueue(old(readyQueue), k);
    }

    /** Hand out the next tile. A non-empty queue is served in order; an empty one is refilled first, and the
        inverted test then sends the caller away whenever the refill went well. */
    method FetchReadyTile(estimate: int, now: int) returns (fetched: seq<int>)
      requires Valid()
      modifies this`tiles, this`readyQueue, this`status, this`handouts
      ensures Valid() && |fetched| <= 1 && |tiles| == |old(tiles)|
      ensures !old(status).JobRunning? ==>
        fetched == [] && tiles == old(tiles) && readyQueue == old(readyQueue) && status == old(status)
      ensures old(status).JobRunning? && old(readyQueue) != [] ==>
        var i := old(readyQueue)[0];
        && fetched == [i] && readyQueue == old(readyQueue)[1..] && status == old(status)
        && tiles == old(tiles)[i := tiles[i]] && tiles[i].retries == old(tiles)[i].retries
      ensures old(status).JobRunning? && old(readyQueue) == [] ==>
        if Exhausted(old(tiles)) then status.JobFailed? && (fetched == [] ==> readyQueue == [] && tiles == old(tiles))
        else fetched == [] && status.JobRunning?
             && forall i :: 0 <= i < |tiles| && old(tiles)[i].status.Failed? ==> InQueue(readyQueue, i)
      ensures forall i :: 0 <= i < |tiles| ==> SamePlace(tiles[i], old(tiles)[i])
      ensures fetched == [] ==> handouts == old(handouts)
      ensures fetched != [] ==>
        && 0 <= fetched[0] < |tiles| && handouts == old(handouts)[fetched[0] := old(handouts)[fetched[0]] + 1]
        && tiles[fetched[0]].status.Running? && tiles[fetched[0]].hasArgs && tiles[fetched[0]].startTime == now
        && var t := tiles[fetched[0]];
           && (t.keepRows <==> keepRowsSeparate || (!hasB && t.row != t.col))
           && t.timeout == Max(10, if hasB || t.row != t.col then estimate else estimate / 2)
      ensures lostReports == old(lostReports) && NoneFinishes(old(tiles), tiles)
    {
      hide TileOk, FinishedCount, Total;
      if !status.JobRunning? {
        return [];
      }
      if readyQueue == [] {
        var failed := CleanupFailedTiles(now);
        if failed || readyQueue == [] {
          return [];
        }
      }
      var i := readyQueue[0];
      HandOut(i, Timeout(estimate, !TileHasB(hasB, tiles[i])), now);
      fetched := [i];
    }

    /** A tile that is handed out and comes back with its own place and the profiles of its own size is accepted. */
    method ServeTile(estimate: int, now: int) returns (accepted: bool)
      requires Valid() && status.JobRunning? && readyQueue != []
      modifies this
      ensures Valid() && accepted && tilesCompleted == old(tilesCompleted) + 1
      ensures
        var i := old(readyQueue)[0];
        && 0 <= i < |tiles| == |old(tiles)| && tiles[i].status.Finished? && merges[i] == old(merges)[i] + 1
    {
      var fetched := FetchReadyTile(estimate, now);
      var i := fetched[0];
      var t := tiles[i];
      accepted := CombineProfile(Request(i, t.height, t.width, t.startRow, t.startCol, t.width, t.height));
    }

    method HandOut(i: int, timeout: int, now: int)
      requires Valid() && readyQueue != [] && i == readyQueue[0]
      modifies this`tiles, this`readyQueue, this`handouts
      ensures Valid() && readyQueue == old(readyQueue)[1..]
      ensures tiles == old(tiles)[i := old(tiles)[i].(timeout := timeout, startTime := now, status := Running,
        hasArgs := true, keepRows := TileKeepsRows(hasB, keepRowsSeparate, old(tiles)[i]))]
      ensures handouts == old(handouts)[i := old(handouts)[i] + 1]
    {
      assert InQueue(readyQueue, i);
      var t := tiles[i].(timeout := timeout, startTime := now, status := Running, hasArgs := true,
        keepRows := TileKeepsRows(hasB, keepRowsSeparate, tiles[i]));
      FinishedCountUpdate(tiles, i, t);
      readyQueue := readyQueue[1..];
      tiles := tiles[i := t];
      handouts := handouts[i := handouts[i] + 1];
      assert old(readyQueue) == [i] + readyQueue;
      assert forall k :: InQueue(old(readyQueue), k) <==> k == i || InQueue(readyQueue, k);
    }

    /** A result is merged only for a running tile whose dimensions and position it matches. */
    method CombineProfile(r: Request) returns (accepted: bool)
      requires Valid()
      modifies this`tiles, this`tilesCompleted, this`merges
      ensures Valid()
      ensures accepted <==>
        && 0 <= r.tileId < |old(tiles)|
        && var t := old(tiles)[r.tileId];
           && t.hasArgs && t.status.Running?
           && r.height == t.height && r.width == t.width && r.startRow == t.startRow && r.startCol == t.startCol
           && r.profileASize == t.width
           && (keepRowsSeparate || (!hasB && t.row != t.col) ==> r.profileBSize == t.height)
      ensures !accepted ==> tiles == old(tiles) && tilesCompleted == old(tilesCompleted) && merges == old(merges)
      ensures accepted ==>
        && tiles == old(tiles)[r.tileId := old(tiles)[r.tileId].(status := Finished)]
        && tilesCompleted == old(tilesCompleted) + 1
        && merges == old(merges)[r.tileId := old(merges)[r.tileId] + 1]
    {
      if r.tileId < 0 || r.tileId >= |tiles| {
        return false;
      }
      var i, tile := r.tileId, tiles[r.tileId];
      if !tile.hasArgs || !tile.status.Running? || !Matches(tile, r)
         || (tile.keepRows && r.profileBSize != tile.height) {
        return false;
      }
      hide FinishedCount, Total;
      FinishedCountUpdate(tiles, i, tile.(status := Finished));
      tiles := tiles[i := tile.(status := Finished)];
      tilesCompleted := tilesCompleted + 1;
      merges := merges[i := merges[i] + 1];
      accepted := true;
    }

    /** A failure report is believed for any tile, whatever its state. */
    method SetTileFailed(id: int)
      requires Valid()
      modifies this`tiles, this`lostReports
      ensures Valid()
      ensures !(0 <= id < |old(tiles)|) ==> tiles == old(tiles) && lostReports == old(lostReports)
      ensures 0 <= id < |old(tiles)| ==>
        && tiles == old(tiles)[id := old(tiles)[id].(status := Failed)]
        && lostReports == old(lostReports)[id := old(lostReports)[id] + (if old(tiles)[id].status.Finished? then 1
          else 0)]
    {
      if 0 <= id < |tiles| {
        Fail(id);
      }
    }

    method Fail(i: int)
      requires Valid() && 0 <= i < |tiles|
      modifies this`tiles, this`lostReports
      ensures Valid()
      ensures tiles == old(tiles)[i := old(tiles)[i].(status := Failed)]
      ensures lostReports == old(lostReports)[i := old(lostReports)[i] + (if old(tiles)[i].status.Finished? then 1
        else 0)]
    {
      hide FinishedCount, Total;
      ghost var lost := if tiles[i].status.Finished? then 1 else 0;
      FinishedCountUpdate(tiles, i, tiles[i].(status := Failed));
      TotalUpdate(lostReports, i, lostReports[i] + lost);
      lostReports := lostReports[i := lostReports[i] + lost];
      tiles := tiles[i := tiles[i].(status := Failed)];
    }

    /** Running tiles that have used up their time fail; nothing else changes. */
    method CheckTimeTile(now: int)
      requires Valid()
      modifies this`tiles, this`lostReports
      ensures Valid() && lostReports == old(lostReports) && |tiles| == |old(tiles)|
      ensures forall i :: 0 <= i < |tiles| ==>
        tiles[i] ==
          if old(tiles)[i].status.Running? && now - old(tiles)[i].startTime > old(tiles)[i].timeout
          then old(tiles)[i].(status := Failed) else old(tiles)[i]
    {
      ghost var was, reports := tiles, lostReports;
      for i := 0 to |tiles|
        invariant Valid() && lostReports == reports && |tiles| == |was|
        invariant forall k :: i <= k < |was| ==> tiles[k] == was[k]
        invariant forall k :: 0 <= k < i ==>
          tiles[k] ==
            if was[k].status.Running? && now - was[k].startTime > was[k].timeout then was[k].(status := Failed)
              else was[k]
      {
        if tiles[i].status.Running? && now - tiles[i].startTime > tiles[i].timeout {
          Fail(i);
        }
      }
    }

    /** The job is done exactly when it was found done before or every tile is finished now. */
    method IsDone() returns (done: bool)
      requires Valid()
      modifies this`status
      ensures Valid()
      ensures done <==> old(status).JobFinished? || forall i :: 0 <= i < |tiles| ==> tiles[i].status.Finished?
      ensures status == if done then JobFinished else old(status)
    {
      if status.JobFinished? {
        return true;
      }
      for i := 0 to |tiles|
        invariant status == old(status)
        invariant forall k :: 0 <= k < i ==> tiles[k].status.Finished?
      {
        if !tiles[i].status.Finished? {
          return false;
        }
      }
      status := JobFinished;
      done := true;
    }

    method HasWork(now: int) returns (work: bool)
      requires Valid()
      modifies this`tiles, this`readyQueue, this`status
      ensures Valid()
      ensures old(status).JobRunning? && old(readyQueue) != [] ==> work
      ensures work ==> old(status).JobRunning? && readyQueue != []
      ensures old(status).JobRunning? && old(readyQueue) == [] ==> (work <==> Exhausted(old(tiles)) && readyQueue != [])
      ensures !old(status).JobRunning? || old(readyQueue) != [] ==>
        tiles == old(tiles) && readyQueue == old(readyQueue) && status == old(status)
      ensures |tiles| == |old(tiles)| && forall i :: 0 <= i < |tiles| ==> SamePlace(tiles[i], old(tiles)[i])
      ensures NoneFinishes(old(tiles), tiles)
    {
      if status.JobRunning? {
        if readyQueue == [] {
          var failed := CleanupFailedTiles(now);
          return readyQueue != [] && !failed;
        }
        return true;
      }
      return false;
    }
  }

  predicate Matches(t: DistributedTile, r: Request) {
    && t.height == r.height && t.width == r.width && t.startRow == r.startRow && t.startCol == r.startCol
    && r.profileASize == t.width
  }

  // ---------- What the invariant means for a whole run ----------

  /** However calls interleave, no tile is handed out more often than its first try and its retries allow. */
  lemma HandoutsAreBounded(job: Job, i: nat)
    requires job.Valid() && i < |job.tiles|
    ensures job.handouts[i] <= 5
  {
    assert TileOk(job.tiles[i], InQueue(job.readyQueue, i), job.handouts[i], job.merges[i], job.lostReports[i]);
  }

  lemma {:induction false} TotalZeroIff(counts: seq<nat>)
    ensures Total(counts) == 0 <==> forall i :: 0 <= i < |counts| ==> counts[i] == 0
  {
    if counts != [] {
      TotalZeroIff(counts[1..]);
      assert forall i :: 1 <= i < |counts| ==> counts[i] == counts[1..][i - 1];
    }
  }

  /** The completed count is the number of finished tiles exactly when no failure report ever named a finished
      tile; a tile is then merged at most once, and precisely when it is finished. */
  lemma CompletedIffNoLostReport(job: Job)
    requires job.Valid()
    ensures job.tilesCompleted == FinishedCount(job.tiles) <==> forall i :: 0 <= i < |job.tiles| ==>
      job.lostReports[i] == 0
    ensures forall i :: 0 <= i < |job.tiles| && job.lostReports[i] == 0 ==>
      job.merges[i] == if job.tiles[i].status.Finished? then 1 else 0
  {
    TotalZeroIff(job.lostReports);
  }

  /** A call some thread makes; the mutex puts calls in one order. */
  datatype Call =
    | Fetch(estimate: int, now: int)
    | Combine(request: Request)
    | Timeouts(now: int)
    | Report(tileId: int)
    | Query
    | Poll(now: int)

  // ---------- A whole job ----------

  /** A tile as it is created. */
  function FreshTile(p: Place, size: nat): DistributedTile {
    DistributedTile(p.row, p.col, p.row * size, p.col * size, p.height, p.width, Ready, false, false, 0, -1, NO_TIMEOUT)
  }

  function FreshTiles(places: seq<Place>, size: nat): (r: seq<DistributedTile>)
    ensures |r| == |places| && forall i :: 0 <= i < |r| ==> r[i] == FreshTile(places[i], size)
  {
    seq(|places|, i requires 0 <= i < |places| => FreshTile(places[i], size))
  }

  predicate HoldsCell(t: DistributedTile, i: int, j: int) {
    t.startRow <= i < t.startRow + t.height && t.startCol <= j < t.startCol + t.width
  }

  /** A cell that the job needs lies in exactly one of its tiles, another one in none. */
  ghost predicate CellOk(tiles: seq<DistributedTile>, size: nat, hasB: bool, i: nat, j: nat)
    requires size > 0
  {
    && ((exists k :: 0 <= k < |tiles| && HoldsCell(tiles[k], i, j)) <==> hasB || i / size <= j / size)
    && (forall k, l ::
          0 <= k < |tiles| && 0 <= l < |tiles| && HoldsCell(tiles[k], i, j) && HoldsCell(tiles[l], i, j) ==> k == l)
  }

  lemma TilesHoldCell(tiles: seq<DistributedTile>, places: seq<Place>, width: int, height: int, size: nat, hasB: bool,
                      i: nat, j: nat)
    requires width > 0 && height > 0 && size > 0 && i < height && j < width && (!hasB ==> height == width)
    requires Made(places, width, height, size)
    requires MadeUpTo(places, NumTiles(height, size), NumTiles(width, size), hasB, NumTiles(height, size), 0)
    requires |tiles| == |places| && forall k :: 0 <= k < |tiles| ==> SamePlace(tiles[k], FreshTile(places[k], size))
    ensures CellOk(tiles, size, hasB, i, j)
  {
    CellsArePartitioned(places, width, height, size, hasB, i, j);
    hide Made, MadeUpTo, NumTiles;
    forall k | 0 <= k < |tiles| ensures HoldsCell(tiles[k], i, j) <==> Holds(places[k], size, i, j) {
      assert SamePlace(tiles[k], FreshTile(places[k], size));
    }
    if hasB || i / size <= j / size {
      var k :| 0 <= k < |places| && Holds(places[k], size, i, j);
      assert HoldsCell(tiles[k], i, j);
    }
  }

  /** After `n` calls a result for tile `i` has been sent since the last failure report that named it. */
  predicate Sent(calls: seq<Call>, n: nat, i: int)
    requires n <= |calls|
  {
    n > 0 &&
      match calls[n - 1]
      case Combine(r) => r.tileId == i || Sent(calls, n - 1, i)
      case Report(id) => id != i && Sent(calls, n - 1, i)
      case _ => Sent(calls, n - 1, i)
  }

  /** The failure reports among the first `n` calls that came after a result for the same tile, one for each result. */
  function LateReports(calls: seq<Call>, n: nat, i: int): nat
    requires n <= |calls|
  {
    if n == 0 then 0
    else LateReports(calls, n - 1, i) + if calls[n - 1] == Report(i) && Sent(calls, n - 1, i) then 1 else 0
  }

  /** Only late reports are counted for a tile, and it is finished only while one of its results is the last word. */
  ghost predicate Accounted(tiles: seq<DistributedTile>, lostReports: seq<nat>, calls: seq<Call>, n: nat)
    requires n <= |calls|
  {
    |lostReports| == |tiles| && forall i :: 0 <= i < |tiles| ==>
      lostReports[i] <= LateReports(calls, n, i) && (tiles[i].status.Finished? ==> Sent(calls, n, i))
  }

  /** What one call may do to tile `i`: only a result finishes it, and only a failure report of the tile while it is
      finished is lost. */
  ghost predicate Effect(call: Call, i: int, was: DistributedTile, now: DistributedTile, lostWas: nat, lostNow: nat) {
    && SamePlace(now, was)
    && (now.status.Finished? && !was.status.Finished? ==> call.Combine? && call.request.tileId == i)
    && (call == Report(i) ==> !now.status.Finished?)
    && lostNow == lostWas + if call == Report(i) && was.status.Finished? then 1 else 0
  }

  method MakeCall(job: Job, call: Call)
    requires job.Valid()
    modifies job
    ensures job.Valid() && |job.tiles| == |old(job.tiles)|
    ensures forall i :: 0 <= i < |job.tiles| ==>
      Effect(call, i, old(job.tiles)[i], job.tiles[i], old(job.lostReports)[i], job.lostReports[i])
  {
    hide FinishedCount, Total, TileOk, ArgsOk;
    match call {
      case Fetch(estimate, now) => var fetched := job.FetchReadyTile(estimate, now);
      case Combine(request) => var accepted := job.CombineProfile(request);
      case Timeouts(now) => job.CheckTimeTile(now);
      case Report(id) => job.SetTileFailed(id);
      case Query => var done := job.IsDone();
      case Poll(now) => var work := job.HasWork(now);
    }
  }

  lemma NextAccounted(was: seq<DistributedTile>, lostWas: seq<nat>, now: seq<DistributedTile>, lostNow: seq<nat>,
                      calls: seq<Call>, n: nat)
    requires n < |calls| && Accounted(was, lostWas, calls, n) && |now| == |was| == |lostNow|
    requires forall i :: 0 <= i < |now| ==> Effect(calls[n], i, was[i], now[i], lostWas[i], lostNow[i])
    ensures Accounted(now, lostNow, calls, n + 1)
  {
  }

  /** Any sequence of calls on a job. */
  method RunCalls(job: Job, calls: seq<Call>)
    requires job.Valid() && Accounted(job.tiles, job.lostReports, calls, 0)
    modifies job
    ensures job.Valid() && |job.tiles| == |old(job.tiles)| && Accounted(job.tiles, job.lostReports, calls, |calls|)
    ensures forall i :: 0 <= i < |job.tiles| ==> SamePlace(job.tiles[i], old(job.tiles)[i])
  {
    hide FinishedCount, Total, TileOk, ArgsOk, Accounted, LateReports, Sent;
    for k := 0 to |calls|
      invariant job.Valid() && |job.tiles| == |old(job.tiles)| && Accounted(job.tiles, job.lostReports, calls, k)
      invariant forall i :: 0 <= i < |job.tiles| ==> SamePlace(job.tiles[i], old(job.tiles)[i])
    {
      ghost var was, lost := job.tiles, job.lostReports;
      MakeCall(job, calls[k]);
      NextAccounted(was, lost, job.tiles, job.lostReports, calls, k);
    }
  }

  /** A job from its creation through any calls: its tiles cover what it needs, none is handed out too often, and
      `late` counts the failure reports that named a finished tile. Each of them came after a result for its tile. */
  method RunJob(width: int, height: int, size: nat, hasB: bool, keepRows: bool, calls: seq<Call>)
      returns (job: Job, ghost late: nat)
    requires width > 0 && height > 0 && size > 0 && (!hasB ==> height == width)
    ensures job.Valid()
    ensures forall i: nat, j: nat :: i < height && j < width ==> CellOk(job.tiles, size, hasB, i, j)
    ensures forall i :: 0 <= i < |job.tiles| ==>
      job.tiles[i].startRow == job.tiles[i].row * size && job.tiles[i].startCol == job.tiles[i].col * size
    ensures forall i :: 0 <= i < |job.tiles| ==> job.handouts[i] <= 5
    ensures job.tilesCompleted == FinishedCount(job.tiles) + late
    ensures late == Total(job.lostReports)
    ensures forall i :: 0 <= i < |job.tiles| ==> job.lostReports[i] <= LateReports(calls, |calls|, i)
    ensures (forall i :: 0 <= i < |job.tiles| ==> LateReports(calls, |calls|, i) == 0) ==> late == 0
    ensures late == 0 ==> forall i :: 0 <= i < |job.tiles| ==> job.merges[i] == if job.tiles[i].status.Finished? then 1
      else 0
  {
    var places, _, _ := MakeTiles(width, height, size, hasB);
    hide FinishedCount, Total, Made, MadeUpTo, CellOk, FreshTile;
    var geometry := FreshTiles(places, size);
    AllFresh(places, size);
    job := new Job(geometry, hasB, keepRows, size);
    StartsOfTiles(geometry, places, size);
    RunCalls(job, calls);
    late := Total(job.lostReports);
    forall i: nat, j: nat | i < height && j < width ensures CellOk(job.tiles, size, hasB, i, j) {
      TilesHoldCell(job.tiles, places, width, height, size, hasB, i, j);
    }
    TotalZeroIff(job.lostReports);
  }

  lemma StartsOfTiles(tiles: seq<DistributedTile>, places: seq<Place>, size: nat)
    requires |tiles| == |places| && forall i :: 0 <= i < |tiles| ==> tiles[i] == FreshTile(places[i], size)
    ensures forall i :: 0 <= i < |tiles| ==>
      tiles[i].startRow == tiles[i].row * size && tiles[i].startCol == tiles[i].col * size
  {
  }

  lemma AllFresh(places: seq<Place>, size: nat)
    ensures forall i :: 0 <= i < |places| ==>
      var t := FreshTiles(places, size)[i];
      t.status.Ready? && t.retries == 0 && !t.hasArgs
  {
  }

  /** One late failure report after a merge: the tile is handed out again, merged twice, and counted twice. */
  method LateReportMergesTwice() returns (job: Job)
    ensures job.Valid() && |job.tiles| == 1 && job.merges[0] == 2 && job.tilesCompleted == 2
  {
    hide TileOk, FinishedCount, Total;
    var t := DistributedTile(0, 0, 0, 0, 4, 4, Ready, false, false, 0, -1, 0);
    var r := Request(0, 4, 4, 0, 0, 4, 4);
    job := new Job([t], false, false, 4);
    var fetched := job.FetchReadyTile(10, 0);
    assert job.readyQueue == [] && !Exhausted(job.tiles);
    var accepted := job.CombineProfile(r);
    job.SetTileFailed(0);
    assert job.merges == [1] && job.readyQueue == [] && job.tiles[0].status.Failed? && !Exhausted(job.tiles);
    fetched := job.FetchReadyTile(10, 1);
    assert job.readyQueue[0] == 0;
    fetched := job.FetchReadyTile(10, 2);
    accepted := job.CombineProfile(r);
  }

  ghost function Total(counts: seq<nat>): nat {
    if counts == [] then 0 else counts[0] + Total(counts[1..])
  }

  lemma {:induction false} TotalOfZeros(n: nat)
    ensures Total(seq(n, _ => 0)) == 0
  {
    if n > 0 {
      assert seq<nat>(n, _ => 0)[1..] == seq<nat>(n - 1, _ => 0);
      TotalOfZeros(n - 1);
    }
  }

  lemma {:induction false} TotalUpdate(counts: seq<nat>, i: nat, c: nat)
    requires i < |counts|
    ensures Total(counts[i := c]) == Total(counts) - counts[i] + c
  {
    if i == 0 {
      assert counts[i := c][1..] == counts[1..];
    } else {
      TotalUpdate(counts[1..], i - 1, c);
      assert counts[i := c][1..] == counts[1..][i - 1 := c];
    }
  }

  lemma {:induction false} NoneCounted(flags: seq<bool>)
    requires forall i :: 0 <= i < |flags| ==> !flags[i]
    ensures Count(flags) == 0
  {
    if flags != [] {
      NoneCounted(flags[1..]);
    }
  }

  lemma NoneFinished(tiles: seq<DistributedTile>)
    requires forall i :: 0 <= i < |tiles| ==> !tiles[i].status.Finished?
    ensures FinishedCount(tiles) == 0
  {
    NoneCounted(FinishedFlags(tiles));
  }
}
