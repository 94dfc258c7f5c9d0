/**
 The sliding-window kernel as a whole: the two paths of a thread and of a warp, and a thread block that walks its
 band tile by tile, each thread on its own diagonals.
 */
module SlidingBlock {
  import opened Profiles
  import opened GpuBlock
  import opened SlidingWindow
  import opened SlidingTile
  import opened SlidingWarp

  // ---------- The two paths of a thread ----------

  /** The checked path: one row at a time while there are rows, columns and room in the tile. A thread whose
      columns have run out stays where it is. */
  method EdgeRows(g: Geo, info: Info, sm: Shared, diag: int, numDiags: int, height: nat, ghost off: nat,
                  ghost tileRow: nat)
      returns (info': Info, sm': Shared)
    requires g.Valid() && Shaped(g, sm) && Mirrors(g, sm, tileRow) && Seeded(g, tileRow, sm)
    requires off + g.dpt <= g.Width() && diag == g.startCol + off && numDiags == g.a.NumDiags()
    requires At(g, off, tileRow, info) && CovOk(g, off, info.globalRow, info.cov) && info.localRow <= height <= g.height
    ensures At(g, off, tileRow, info') && CovOk(g, off, info'.globalRow, info'.cov)
    ensures info.localRow <= info'.localRow <= height
    ensures info'.globalCol >= g.a.nx || info'.globalRow >= g.a.ny || info'.localRow == height
    ensures Contributed(g, off, off + g.dpt, tileRow, info.globalRow, info'.globalRow, sm, sm')
  {
    hide Gathered, Geo.Width, CovOk, Contributed, Mirrors, Seeded, Diag;
    info', sm' := info, sm;
    NothingContributed(g, off, off + g.dpt, tileRow, info.globalRow, info.globalRow, sm);
    while info'.globalCol < g.a.nx && info'.globalRow < g.a.ny && info'.localRow < height
      invariant At(g, off, tileRow, info') && CovOk(g, off, info'.globalRow, info'.cov)
      invariant info.localRow <= info'.localRow <= height
      invariant Contributed(g, off, off + g.dpt, tileRow, info.globalRow, info'.globalRow, sm, sm')
      invariant Shaped(g, sm') && Mirrors(g, sm', tileRow) && Seeded(g, tileRow, sm')
      decreases height - info'.localRow
    {
      var cov, next := DoRowEdge(g, info', sm', diag, numDiags, off, tileRow);
      ContributedRows(g, off, off + g.dpt, tileRow, info.globalRow, info'.globalRow, info'.globalRow + 1, sm, sm',
        next);
      Carries(g, off, off + g.dpt, tileRow, info'.globalRow, info'.globalRow + 1, sm', next);
      sm' := next;
      info' := info'.(cov := cov, globalCol := info'.globalCol + 1, globalRow := info'.globalRow + 1,
        localCol := info'.localCol + 1, localRow := info'.localRow + 1);
    }
  }

  /** The fast path without row sums, whose threads need nothing of each other: whole iterations until the tile is
      done. */
  method FastRows(g: Geo, ur: nat, outerIters: nat, tileIters: nat, info: Info, sm: Shared, ghost off: nat,
                  ghost tileRow: nat)
      returns (info': Info, sm': Shared)
    requires g.Valid() && Shaped(g, sm) && Mirrors(g, sm, tileRow) && Seeded(g, tileRow, sm)
    requires FastTile(g, off, tileRow)
    requires At(g, off, tileRow, info) && off + g.dpt <= g.Width() && CovOk(g, off, info.globalRow, info.cov)
    requires ur > 0 && outerIters > 0 && g.height == Base(tileIters, Base(outerIters, ur)) && info.localRow == 0
    requires !Shuffles(g)
    ensures At(g, off, tileRow, info') && CovOk(g, off, info'.globalRow, info'.cov) && info'.localRow == g.height
    ensures Contributed(g, off, off + g.dpt, tileRow, tileRow, tileRow + g.height, sm, sm')
  {
    hide Gathered, Geo.Width, CovOk, Contributed, Mirrors, Seeded, Diag, FastTile, Base, ThreadIteration;
    info', sm' := info, sm;
    var our := Base(outerIters, ur);
    BatchFits(outerIters, 1, ur);
    BatchFits(tileIters, 0, our);
    ghost var m := 0;
    NothingContributed(g, off, off + g.dpt, tileRow, tileRow, tileRow, sm);
    while info'.localRow < g.height
      invariant m <= tileIters && info'.localRow == Base(m, our)
      invariant At(g, off, tileRow, info') && CovOk(g, off, info'.globalRow, info'.cov)
      invariant Contributed(g, off, off + g.dpt, tileRow, tileRow, info'.globalRow, sm, sm')
      invariant Shaped(g, sm') && Mirrors(g, sm', tileRow) && Seeded(g, tileRow, sm')
      decreases tileIters - m
    {
      BatchFits(tileIters, m, our);
      var moved, next, _ := DoIterationFast(g, ur, outerIters, info', sm', off, tileRow);
      SelfFlushed(g, off, tileRow, info'.globalRow, our, sm', next);
      ContributedRows(g, off, off + g.dpt, tileRow, tileRow, info'.globalRow, info'.globalRow + our, sm, sm', next);
      Carries(g, off, off + g.dpt, tileRow, info'.globalRow, info'.globalRow + our, sm', next);
      info', sm' := moved, next;
      m := m + 1;
    }
    BatchFits(tileIters, m, our);
  }

  lemma SelfFlushed(g: Geo, off: nat, tileRow: nat, first: nat, our: nat, was: Shared, now: Shared)
    requires g.Valid() && !Shuffles(g)
    requires exists distr: seq<Entry> :: ThreadIteration(g, off, tileRow, first, our, was, now, distr)
    ensures Contributed(g, off, off + g.dpt, tileRow, first, first + our, was, now)
  {
    hide ColsContributed, DistrOk, Gathered;
  }

  // ---------- One thread, one tile ----------

  /** Between tiles a thread stands at the tile's first row, or has run out of columns, or never had a diagonal. */
  ghost predicate ThreadOk(g: Geo, off: nat, tileRow: nat, info: Info)
    requires g.Valid()
  {
    || g.startCol + off >= g.a.NumDiags()
    || tileRow >= g.a.ny
    || (info.globalRow == tileRow && info.globalCol == g.startCol + off + tileRow && CovOk(g, off, tileRow, info.cov))
    || (info.globalCol >= g.a.nx && g.startCol + off + tileRow >= g.a.nx)
  }

  /** A thread's part of a tile, on whichever of the two paths its diagonals and the tile's position allow. With row
      sums the fast path is the whole warp's. */
  method ThreadTile(g: Geo, ur: nat, outerIters: nat, tileIters: nat, thread: nat, info: Info, sm: Shared,
                    tileCol: nat, tileRow: nat) returns (info': Info, sm': Shared)
    requires g.Valid() && Shaped(g, sm) && Mirrors(g, sm, tileRow) && Seeded(g, tileRow, sm)
    requires ur > 0 && outerIters > 0 && g.height == Base(tileIters, Base(outerIters, ur))
    requires thread < 32 * g.warps && tileCol == g.startCol + tileRow && tileRow < g.a.ny
    requires ThreadOk(g, thread * g.dpt, tileRow, info)
    requires Shuffles(g) ==> !FastTile(g, thread * g.dpt, tileRow)
    ensures ThreadOk(g, thread * g.dpt, tileRow + g.height, info')
    ensures Contributed(g, thread * g.dpt, thread * g.dpt + g.dpt, tileRow, tileRow, tileRow + g.height, sm, sm')
  {
    hide Gathered, Geo.Width, CovOk, Contributed, Mirrors, Seeded, Diag, Base, Shaped;
    var off := thread * g.dpt;
    ThreadFits(g, thread);
    var startDiag, numDiags := g.startCol + off, g.a.NumDiags();
    info', sm' := info.(localCol := off, localRow := 0), sm;
    if FastTile(g, off, tileRow) {
      InPlace(g, off, tileRow, info);
      info', sm' := FastRows(g, ur, outerIters, tileIters, info', sm', off, tileRow);
    } else if startDiag < numDiags {
      if info.globalCol < g.a.nx {
        info', sm' := EdgeRows(g, info', sm', startDiag, numDiags, g.height, off, tileRow);
        EdgeRowsEnd(g, off, tileRow, info', sm, sm');
      } else {
        NothingLeft(g, off, tileRow, tileRow, sm);
      }
    } else {
      NothingLeft(g, off, tileRow, tileRow, sm);
    }
  }

  lemma InPlace(g: Geo, off: nat, tileRow: nat, info: Info)
    requires g.Valid() && ThreadOk(g, off, tileRow, info) && FastTile(g, off, tileRow) && off + g.dpt <= g.Width()
    ensures info.globalRow == tileRow && info.globalCol == g.startCol + off + tileRow
    ensures CovOk(g, off, tileRow, info.cov)
  {
    hide Geo.Width, CovOk;
  }

  /** A thread out of diagonals, columns or rows has no cell left. */
  lemma NothingLeft(g: Geo, off: nat, tileRow: nat, from: nat, sm: Shared)
    requires g.Valid()
    requires g.startCol + off >= g.a.NumDiags() || g.startCol + off + from >= g.a.nx || from >= g.a.ny
    ensures Contributed(g, off, off + g.dpt, tileRow, from, tileRow + g.height, sm, sm)
  {
    hide Geo.Width, Contributed;
    NothingContributed(g, off, off + g.dpt, tileRow, from, tileRow + g.height, sm);
  }

  lemma EdgeRowsEnd(g: Geo, off: nat, tileRow: nat, info: Info, was: Shared, now: Shared)
    requires g.Valid() && At(g, off, tileRow, info) && info.localRow <= g.height
    requires CovOk(g, off, info.globalRow, info.cov)
    requires info.globalCol >= g.a.nx || info.globalRow >= g.a.ny || info.localRow == g.height
    requires Contributed(g, off, off + g.dpt, tileRow, tileRow, info.globalRow, was, now)
    ensures ThreadOk(g, off, tileRow + g.height, info)
    ensures Contributed(g, off, off + g.dpt, tileRow, tileRow, tileRow + g.height, was, now)
  {
    hide Geo.Width, Contributed, CovOk;
    if info.localRow < g.height {
      NothingLeft(g, off, tileRow, info.globalRow, now);
      ContributedRows(g, off, off + g.dpt, tileRow, tileRow, info.globalRow, tileRow + g.height, was, now, now);
    }
  }

  // ---------- The block ----------

  function InitSmem(g: Geo, sm: Shared, tileCol: nat, tileRow: nat, profileA: seq<Entry>,
                    profileB: seq<Entry>): (s: Shared)
    requires g.a.nx <= |profileA| && g.a.ny <= |profileB| && Shaped(g, sm)
    requires |g.a.dfa| == |g.a.dga| == |g.a.normsa| == g.a.nx && |g.a.dfb| == |g.a.dgb| == |g.a.normsb| == g.a.ny
  {
    Shared(Loaded(g.a.dfa, tileCol, sm.dfCol), Loaded(g.a.dga, tileCol, sm.dgCol),
      Loaded(g.a.normsa, tileCol, sm.inormCol),
      Loaded(g.a.dfb, tileRow, sm.dfRow), Loaded(g.a.dgb, tileRow, sm.dgRow), Loaded(g.a.normsb, tileRow, sm.inormRow),
      Loaded(Seeds(g.kind, profileA[..g.a.nx]), tileCol, sm.localMpCol),
      Loaded(Seeds(g.kind, profileB[..g.a.ny]), tileRow, sm.localMpRow))
  }

  /** Where the data ends, shared memory keeps whatever it held. */
  function Loaded<T>(data: seq<T>, start: nat, memory: seq<T>): (r: seq<T>)
    ensures |r| == |memory|
    ensures forall i :: 0 <= i < |r| ==> r[i] == if start + i < |data| then data[start + i] else memory[i]
  {
    seq(|memory|, i requires 0 <= i < |memory| => if start + i < |data| then data[start + i] else memory[i])
  }

  function Seeds(kind: Kind, profile: seq<Entry>): (r: seq<Entry>)
    ensures |r| == |profile|
    ensures forall i :: 0 <= i < |r| ==> r[i] == Seed(kind, profile[i])
  {
    seq(|profile|, i requires 0 <= i < |profile| => Seed(kind, profile[i]))
  }

  lemma TileStarts(g: Geo, sm: Shared, tileRow: nat, profileA: seq<Entry>, profileB: seq<Entry>)
    requires g.Valid() && g.a.nx <= |profileA| && g.a.ny <= |profileB| && Shaped(g, sm)
    requires Floored(g.kind, profileA) && Floored(g.kind, profileB)
    ensures
      var s := InitSmem(g, sm, g.startCol + tileRow, tileRow, profileA, profileB);
      && Shaped(g, s) && Mirrors(g, s, tileRow) && Seeded(g, tileRow, s)
      && (forall j :: 0 <= j < |s.localMpCol| && g.startCol + tileRow + j < g.a.nx ==>
            s.localMpCol[j] == Seed(g.kind, profileA[g.startCol + tileRow + j]))
      && (forall i :: 0 <= i < |s.localMpRow| && tileRow + i < g.a.ny ==>
        s.localMpRow[i] == Seed(g.kind, profileB[tileRow + i]))
  {
    hide Geo.Width;
  }

  /** All diagonals of the block contributed: the tile's buffers are complete. */
  lemma TileComplete(g: Geo, tileRow: nat, was: Shared, now: Shared)
    requires g.Valid() && Shaped(g, was)
    requires Contributed(g, 0, g.Width(), tileRow, tileRow, tileRow + g.height, was, now)
    ensures |now.localMpCol| == |was.localMpCol| && TileColsOk(g, tileRow, was.localMpCol, now.localMpCol)
    ensures |now.localMpRow| == g.height
    ensures forall i: nat :: i < g.height && tileRow + i < g.a.ny ==>
      MpRowOk(g, tileRow, tileRow + g.height, i, was.localMpRow[i], now.localMpRow[i])
  {
    hide Gathered, Geo.Width;
    forall j: nat | g.cols && j < |now.localMpCol| && g.startCol + tileRow + j < g.a.nx
      ensures Gathered(g.kind, g.a.ColDists(g.startCol + tileRow + j), was.localMpCol[j],
                Rows(g, tileRow, tileRow + g.height, g.startCol + tileRow + j), now.localMpCol[j])
    {
      var c := g.startCol + tileRow + j;
      assert ColOk(g, 0, g.Width(), tileRow, tileRow + g.height, c, was.localMpCol[j], now.localMpCol[j]);
      assert DiagRows(g, 0, g.Width(), tileRow, tileRow + g.height, c) == Rows(g, tileRow, tileRow + g.height, c);
    }
    forall i: nat | i < g.height && tileRow + i < g.a.ny
      ensures MpRowOk(g, tileRow, tileRow + g.height, i, was.localMpRow[i], now.localMpRow[i])
    {
      assert RowOk(g, 0, g.Width(), tileRow, tileRow + g.height, tileRow + i, was.localMpRow[i], now.localMpRow[i]);
      assert DiagCols(g, 0, g.Width(), tileRow + i) == Cols(g, tileRow + i);
    }
  }

  /** A warp's part of a tile. On the fast path of a sum its lanes go together, else each on its own. */
  method WarpTile(g: Geo, ur: nat, outerIters: nat, tileIters: nat, warp: nat, lanes: seq<Info>, sm: Shared,
                  tileCol: nat, tileRow: nat) returns (lanes': seq<Info>, sm': Shared)
    requires g.Valid() && Shaped(g, sm) && Mirrors(g, sm, tileRow) && Seeded(g, tileRow, sm)
    requires ur > 0 && outerIters > 0 && g.height == Base(tileIters, Base(outerIters, ur))
    requires warp < g.warps && |lanes| == 32 && tileCol == g.startCol + tileRow && tileRow < g.a.ny
    requires Shuffles(g) ==> NoSplitWarp(g)
    requires forall l: nat :: l < 32 ==> ThreadOk(g, Offset(g, 32 * warp + l), tileRow, lanes[l])
    ensures |lanes'| == 32 && forall l: nat :: l < 32 ==> ThreadOk(g, Offset(g, 32 * warp + l), tileRow + g.height,
      lanes'[l])
    ensures Contributed(g, warp * g.Span(), warp * g.Span() + g.Span(), tileRow, tileRow, tileRow + g.height, sm, sm')
  {
    hide Gathered, Geo.Width, Geo.Span, CovOk, Contributed, Mirrors, Seeded, Base, Shaped, FastTile, Offset, ThreadOk,
      NoSplitWarp, LaneFast, LaneReady;
    if Shuffles(g) && FastTile(g, Offset(g, 32 * warp), tileRow) {
      LanesFast(g, warp, tileRow);
      lanes' := seq(32, l requires 0 <= l < 32 => lanes[l].(localCol := Offset(g, 32 * warp + l), localRow := 0));
      forall l: nat | l < 32 ensures LaneReady(g, Offset(g, 32 * warp + l), tileRow, 0, lanes'[l]) {
        LaneStarts(g, warp, l, tileRow, lanes[l]);
      }
      lanes', sm' := WarpFastRows(g, ur, outerIters, tileIters, warp, lanes', sm, tileRow);
      forall l: nat | l < 32 ensures ThreadOk(g, Offset(g, 32 * warp + l), tileRow + g.height, lanes'[l]) {
        assert LaneReady(g, Offset(g, 32 * warp + l), tileRow, g.height, lanes'[l]);
        LaneEnds(g, warp, l, tileRow, lanes'[l]);
      }
    } else {
      lanes', sm' := EachLane(g, ur, outerIters, tileIters, warp, lanes, sm, tileCol, tileRow);
    }
  }

  lemma LaneStarts(g: Geo, warp: nat, l: nat, tileRow: nat, info: Info)
    requires g.Valid() && warp < g.warps && l < 32 && LaneFast(g, warp, l, tileRow)
    requires ThreadOk(g, Offset(g, 32 * warp + l), tileRow, info)
    ensures LaneReady(g, Offset(g, 32 * warp + l), tileRow, 0,
      info.(localCol := Offset(g, 32 * warp + l), localRow := 0))
  {
    hide Geo.Width, CovOk, Offset;
    LaneInBlock(g, warp, l);
    InPlace(g, Offset(g, 32 * warp + l), tileRow, info);
  }

  lemma LaneEnds(g: Geo, warp: nat, l: nat, tileRow: nat, info: Info)
    requires g.Valid() && LaneReady(g, Offset(g, 32 * warp + l), tileRow, g.height, info)
    ensures ThreadOk(g, Offset(g, 32 * warp + l), tileRow + g.height, info)
  {
    hide CovOk, Offset;
  }

  /** The lanes of a warp that need nothing of each other. Their updates of shared memory are atomic and commute; one
      order is taken. */
  method EachLane(g: Geo, ur: nat, outerIters: nat, tileIters: nat, warp: nat, lanes: seq<Info>, sm: Shared,
                  tileCol: nat, tileRow: nat) returns (lanes': seq<Info>, sm': Shared)
    requires g.Valid() && Shaped(g, sm) && Mirrors(g, sm, tileRow) && Seeded(g, tileRow, sm)
    requires ur > 0 && outerIters > 0 && g.height == Base(tileIters, Base(outerIters, ur))
    requires warp < g.warps && |lanes| == 32 && tileCol == g.startCol + tileRow && tileRow < g.a.ny
    requires Shuffles(g) ==> NoSplitWarp(g) && !FastTile(g, Offset(g, 32 * warp), tileRow)
    requires forall l: nat :: l < 32 ==> ThreadOk(g, Offset(g, 32 * warp + l), tileRow, lanes[l])
    ensures |lanes'| == 32 && forall l: nat :: l < 32 ==> ThreadOk(g, Offset(g, 32 * warp + l), tileRow + g.height,
      lanes'[l])
    ensures Contributed(g, warp * g.Span(), warp * g.Span() + g.Span(), tileRow, tileRow, tileRow + g.height, sm, sm')
  {
    hide Gathered, Geo.Width, Geo.Span, CovOk, Contributed, Mirrors, Seeded, Base, Shaped, FastTile, Offset, ThreadOk,
      NoSplitWarp;
    ghost var lo := warp * g.Span();
    lanes', sm' := lanes, sm;
    NothingContributed(g, lo, lo, tileRow, tileRow, tileRow + g.height, sm);
    LaneOffset(g, warp, 0);
    for l := 0 to 32
      invariant |lanes'| == 32
      invariant forall k: nat :: k < l ==> ThreadOk(g, Offset(g, 32 * warp + k), tileRow + g.height, lanes'[k])
      invariant forall k: nat :: l <= k < 32 ==> lanes'[k] == lanes[k]
      invariant Contributed(g, lo, Offset(g, 32 * warp + l), tileRow, tileRow, tileRow + g.height, sm, sm')
      invariant Shaped(g, sm') && Mirrors(g, sm', tileRow) && Seeded(g, tileRow, sm')
    {
      ghost var off := Offset(g, 32 * warp + l);
      OffsetIs(g, 32 * warp + l);
      LaneOffset(g, warp, l);
      if Shuffles(g) {
        LanesTogether(g, warp, l, tileRow);
        LaneAgreesIs(g, warp, l, tileRow);
      }
      var info, next := ThreadTile(g, ur, outerIters, tileIters, 32 * warp + l, lanes[l], sm', tileCol, tileRow);
      ContributedDiagonals(g, lo, off, off + g.dpt, tileRow, tileRow, tileRow + g.height, sm, sm', next);
      Carries(g, off, off + g.dpt, tileRow, tileRow, tileRow + g.height, sm', next);
      lanes', sm' := lanes'[l := info], next;
    }
    LaneOffset(g, warp, 31);
    OffsetIs(g, 32 * warp + 31);
  }

  /** All warps of the block on one tile. */
  method RunWarps(g: Geo, ur: nat, outerIters: nat, tileIters: nat, threads: seq<Info>, seeds: Shared, col: nat,
                  row: nat)
      returns (infos: seq<Info>, sm: Shared)
    requires g.Valid() && Shaped(g, seeds) && Mirrors(g, seeds, row) && Seeded(g, row, seeds)
    requires ur > 0 && outerIters > 0 && g.height == Base(tileIters, Base(outerIters, ur))
    requires |threads| == 32 * g.warps && col == g.startCol + row && row < g.a.ny
    requires Shuffles(g) ==> NoSplitWarp(g)
    requires forall t: nat :: t < |threads| ==> ThreadOk(g, Offset(g, t), row, threads[t])
    ensures |infos| == |threads| && Shaped(g, sm)
    ensures forall t: nat :: t < |infos| ==> ThreadOk(g, Offset(g, t), row + g.height, infos[t])
    ensures Contributed(g, 0, g.Width(), row, row, row + g.height, seeds, sm)
  {
    hide Geo.Width, Geo.Span, Base, ThreadOk, Shaped, Contributed, Mirrors, Seeded, Offset, NoSplitWarp;
    infos, sm := [], seeds;
    NothingContributed(g, 0, 0, row, row, row + g.height, sm);
    for warp := 0 to g.warps
      invariant |infos| == 32 * warp
      invariant forall t: nat :: t < |infos| ==> ThreadOk(g, Offset(g, t), row + g.height, infos[t])
      invariant Contributed(g, 0, warp * g.Span(), row, row, row + g.height, seeds, sm)
      invariant Shaped(g, sm) && Mirrors(g, sm, row) && Seeded(g, row, sm)
    {
      var lanes := threads[32 * warp..32 * warp + 32];
      forall l: nat | l < 32 ensures ThreadOk(g, Offset(g, 32 * warp + l), row, lanes[l]) {
        assert lanes[l] == threads[32 * warp + l];
      }
      var moved, next := WarpTile(g, ur, outerIters, tileIters, warp, lanes, sm, col, row);
      ghost var lo, hi := warp * g.Span(), warp * g.Span() + g.Span();
      ContributedDiagonals(g, 0, lo, hi, row, row, row + g.height, seeds, sm, next);
      Carries(g, lo, hi, row, row, row + g.height, sm, next);
      WarpsJoin(g, warp, row + g.height, infos, moved);
      infos, sm := infos + moved, next;
      NextThread(warp, g.Span());
    }
    WidthIs(g);
  }

  lemma WarpsJoin(g: Geo, warp: nat, row: nat, infos: seq<Info>, lanes: seq<Info>)
    requires g.Valid() && |infos| == 32 * warp && |lanes| == 32
    requires forall t: nat :: t < |infos| ==> ThreadOk(g, Offset(g, t), row, infos[t])
    requires forall l: nat :: l < 32 ==> ThreadOk(g, Offset(g, 32 * warp + l), row, lanes[l])
    ensures forall t: nat :: t < |infos + lanes| ==> ThreadOk(g, Offset(g, t), row, (infos + lanes)[t])
  {
    hide ThreadOk, Offset;
    forall t: nat | t < |infos + lanes| ensures ThreadOk(g, Offset(g, t), row, (infos + lanes)[t]) {
      if t >= 32 * warp {
        assert ThreadOk(g, Offset(g, 32 * warp + (t - 32 * warp)), row, lanes[t - 32 * warp]);
      }
    }
  }

  class Block {
    const g: Geo
    const ur: nat
    const outerIters: nat
    const tileIters: nat
    var threads: seq<Info>
    var smem: Shared
    var tileStartCol: nat
    var tileStartRow: nat
    var profileA: seq<Entry>
    var profileB: seq<Entry>

    /** What holds between two tiles. */
    ghost predicate Valid(wasA: seq<Entry>, wasB: seq<Entry>)
      reads this
    {
      && g.Valid() && g.Width() > 0 && Shaped(g, smem) && tileStartCol == g.startCol + tileStartRow
      && ur > 0 && outerIters > 0 && g.height == Base(tileIters, Base(outerIters, ur))
      && |threads| == 32 * g.warps && (Shuffles(g) ==> NoSplitWarp(g))
      && (forall t: nat :: t < |threads| ==> ThreadOk(g, Offset(g, t), tileStartRow, threads[t]))
      && g.a.nx <= |profileA| && g.a.ny <= |profileB|
      && ProfilesOk(g, tileStartRow, wasA, wasB, profileA, profileB)
    }

    constructor (geo: Geo, unrolled: nat, outer: nat, iters: nat, memory: Shared, a: seq<Entry>, b: seq<Entry>)
      requires geo.Valid() && Shaped(geo, memory) && geo.a.nx <= |a| && geo.a.ny <= |b|
      requires Floored(geo.kind, a) && Floored(geo.kind, b)
      requires unrolled > 0 && outer > 0 && geo.height == Base(iters, Base(outer, unrolled))
      requires Shuffles(geo) ==> NoSplitWarp(geo)
      ensures g == geo && Valid(a, b) && profileA == a && profileB == b && tileStartRow == 0
    {
      hide Geo.Width, Base, ThreadOk, Shaped, ProfilesOk, Offset, NoSplitWarp;
      g, ur, outerIters, tileIters := geo, unrolled, outer, iters;
      threads := seq(32 * geo.warps, t requires 0 <= t < 32 * geo.warps => FirstInfo(geo, t));
      smem := memory;
      tileStartCol, tileStartRow := geo.startCol, 0;
      profileA, profileB := a, b;
      new;
      WidthPositive(geo);
      ProfilesStart(geo, a, b);
      forall t: nat | t < |threads| ensures ThreadOk(geo, Offset(geo, t), 0, threads[t]) {
        FirstInfoOk(geo, t);
      }
    }

    /** One tile: load shared memory, let every thread do its part, write the buffers back. */
    method RunTile(ghost wasA: seq<Entry>, ghost wasB: seq<Entry>)
      requires Valid(wasA, wasB) && tileStartRow < g.a.ny
      modifies this
      ensures Valid(wasA, wasB) && tileStartRow == old(tileStartRow) + g.height
    {
      hide Geo.Width, Base, ThreadOk, Shaped, ProfilesOk, Contributed, Mirrors, Seeded, InitSmem, TileColsOk, MpRowOk,
        WrittenCols, WrittenRows, Offset, NoSplitWarp;
      var col, row := tileStartCol, tileStartRow;
      FlooredProfiles(g, row, wasA, wasB, profileA, profileB);
      var seeds := InitSmem(g, smem, col, row, profileA, profileB);
      TileStarts(g, smem, row, profileA, profileB);
      var infos, sm := RunWarps(g, ur, outerIters, tileIters, threads, seeds, col, row);
      TileComplete(g, row, seeds, sm);
      TileWritten(g, row, seeds, sm, wasA, wasB, profileA, profileB);
      threads, smem := infos, sm;
      profileA := WrittenCols(g, profileA, col, sm.localMpCol);
      profileB := WrittenRows(g, profileB, row, sm.localMpRow);
      tileStartCol, tileStartRow := col + g.height, row + g.height;
    }

    /** The whole block: every cell of its band reaches its column and its row exactly once. */
    method DoTile(ghost wasA: seq<Entry>, ghost wasB: seq<Entry>)
      requires Valid(wasA, wasB) && tileStartRow == 0
      modifies this
      ensures g.Valid() && BlockDone(g, wasA, wasB, profileA, profileB)
    {
      while tileStartCol < g.a.nx && tileStartRow < g.a.ny
        invariant Valid(wasA, wasB)
        decreases g.a.ny - tileStartRow
      {
        RunTile(wasA, wasB);
      }
      BlockComplete(g, tileStartRow, wasA, wasB, profileA, profileB);
    }
  }

  /** A thread loads the covariances of its first cells, where their columns exist. */
  function FirstInfo(g: Geo, thread: nat): Info
    requires |g.a.cov0| >= g.a.nx
  {
    var col := g.startCol + thread * g.dpt;
    Info(seq(g.dpt, i requires 0 <= i < g.dpt => if col + i < g.a.nx then g.a.cov0[col + i] else 0.0), col, 0, 0, 0)
  }

  lemma FirstInfoOk(g: Geo, t: nat)
    requires g.Valid()
    ensures ThreadOk(g, Offset(g, t), 0, FirstInfo(g, t))
  {
    hide Geo.Width;
    var col := g.startCol + t * g.dpt;
    forall i | 0 <= i < g.dpt && col + 0 + i < g.a.nx ensures FirstInfo(g, t).cov[i] == g.a.Cov(0, col + 0 + i) {
    }
  }

  lemma FlooredProfiles(g: Geo, row: nat, wasA: seq<Entry>, wasB: seq<Entry>, profileA: seq<Entry>,
                        profileB: seq<Entry>)
    requires g.Valid() && ProfilesOk(g, row, wasA, wasB, profileA, profileB)
    ensures Floored(g.kind, profileA) && Floored(g.kind, profileB)
  {
  }

  lemma TileWritten(g: Geo, row: nat, seeds: Shared, sm: Shared, wasA: seq<Entry>, wasB: seq<Entry>,
                    profileA: seq<Entry>, profileB: seq<Entry>)
    requires g.Valid() && g.Width() > 0 && Shaped(g, seeds) && Shaped(g, sm)
    requires ProfilesOk(g, row, wasA, wasB, profileA, profileB)
    requires forall j :: 0 <= j < |seeds.localMpCol| && g.startCol + row + j < g.a.nx ==>
      seeds.localMpCol[j] == Seed(g.kind, profileA[g.startCol + row + j])
    requires forall i :: 0 <= i < |seeds.localMpRow| && row + i < g.a.ny ==>
      seeds.localMpRow[i] == Seed(g.kind, profileB[row + i])
    requires TileColsOk(g, row, seeds.localMpCol, sm.localMpCol)
    requires forall i: nat :: i < g.height && row + i < g.a.ny ==>
      MpRowOk(g, row, row + g.height, i, seeds.localMpRow[i], sm.localMpRow[i])
    ensures ProfilesOk(g, row + g.height, wasA, wasB,
              WrittenCols(g, profileA, g.startCol + row, sm.localMpCol), WrittenRows(g, profileB, row, sm.localMpRow))
  {
    hide Gathered, Geo.Width, ProfilesOk, TileColsOk, MpRowOk, WrittenCols, WrittenRows;
    ProfilesAfterTile(g, row, wasA, wasB, profileA, profileB, seeds.localMpCol, seeds.localMpRow, sm.localMpCol,
      sm.localMpRow);
  }
}
