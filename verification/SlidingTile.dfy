/**
 The sliding-window kernel over whole tiles: one iteration of the fast path, its agreement with the checked path,
 and a thread block walking its band tile by tile.
 */
module SlidingTile {
  import opened Arithmetic
  import opened Profiles
  import opened Kernel
  import opened GpuBlock
  import opened SlidingWindow

  // ---------- The register window ----------

  /** The registers mirror shared memory from offset `at` on. */
  predicate Window<T(==)>(win: seq<T>, data: seq<T>, at: nat) {
    at + |win| <= |data| && win == data[at..at + |win|]
  }

  /** Slide the window left by `n` and load the next `n` elements at its right edge. */
  function Slid<T>(win: seq<T>, data: seq<T>, from: nat, n: nat): (r: seq<T>)
    requires n <= |win| && from + n <= |data|
    ensures |r| == |win|
  {
    win[n..] + data[from..from + n]
  }

  lemma SlideKeepsWindow<T>(win: seq<T>, data: seq<T>, at: nat, n: nat)
    requires Window(win, data, at) && n <= |win| && at + |win| + n <= |data|
    ensures Window(Slid(win, data, at + |win|, n), data, at + n)
  {
    assert Slid(win, data, at + |win|, n) == data[at + n..at + n + |win|];
  }

  lemma WindowMirrors(g: Geo, sm: Shared, tileRow: nat, at: nat, dfc: seq<real>, dgc: seq<real>, inormc: seq<Norm>,
                      k: nat)
    requires g.Valid() && Shaped(g, sm) && Mirrors(g, sm, tileRow)
    requires Window(dfc, sm.dfCol, at) && Window(dgc, sm.dgCol, at) && Window(inormc, sm.inormCol, at)
    requires k + g.dpt <= |dfc| == |dgc| == |inormc|
    ensures ColData(g, tileRow + at + k, dfc[k..k + g.dpt], dgc[k..k + g.dpt], inormc[k..k + g.dpt])
  {
    hide Geo.Width;
    assert dfc[k..k + g.dpt] == sm.dfCol[at + k..at + k + g.dpt];
    assert dgc[k..k + g.dpt] == sm.dgCol[at + k..at + k + g.dpt];
    assert inormc[k..k + g.dpt] == sm.inormCol[at + k..at + k + g.dpt];
  }

  // ---------- Flushing ----------

  /** The elements before `upto` are complete for the rows `[first, to)`, the others are untouched. */
  ghost predicate FlushedCols(g: Geo, off: nat, tileRow: nat, first: nat, to: nat, upto: nat, was: seq<Entry>,
                              now: seq<Entry>)
    requires g.Valid()
  {
    && |now| == |was|
    && (forall x: nat :: x < |was| ==>
          if x < upto then ColOk(g, off, off + g.dpt, first, to, g.startCol + tileRow + x, was[x], now[x])
          else now[x] == was[x])
  }

  ghost predicate FlushedRows(g: Geo, off: nat, tileRow: nat, first: nat, to: nat, upto: nat, was: seq<Entry>,
                              now: seq<Entry>)
    requires g.Valid()
  {
    && |now| == |was|
    && (forall i: nat :: i < |was| ==>
          if i < upto then RowOk(g, off, off + g.dpt, first, to, tileRow + i, was[i], now[i])
          else now[i] == was[i])
  }

  /** Flush part of the accumulators, each guarded by a snapshot of its element. */
  method Update(kind: Kind, num: nat, startIndex: nat, local: nat, dist: seq<Entry>, mp: seq<Entry>)
      returns (now: seq<Entry>)
    requires local + startIndex + num <= |mp| && startIndex + num <= |dist|
    ensures |now| == |mp|
    ensures forall x :: 0 <= x < |mp| ==>
      now[x] == if local + startIndex <= x < local + startIndex + num then Combine(kind, mp[x], dist[x - local])
        else mp[x]
  {
    hide Combine;
    var check := mp[local + startIndex..local + startIndex + num];
    now := mp;
    for i := 0 to num
      invariant |now| == |mp|
      invariant forall x :: 0 <= x < |mp| ==>
        now[x] == if local + startIndex <= x < local + startIndex + i then Combine(kind, mp[x], dist[x - local])
          else mp[x]
    {
      var x := local + i + startIndex;
      StaleCheckIsSafe(kind, now[x], dist[i + startIndex], check[i].value);
      now := now[x := FlushChecked(kind, now[x], dist[i + startIndex], check[i].value)];
    }
  }

  /** An accumulator is complete once its column has left the rows still to come. */
  lemma ColumnsComplete(g: Geo, off: nat, tileRow: nat, l: nat, rows: nat, done: nat, lo: nat, hi: nat,
                        distc: seq<Entry>, was: seq<Entry>, mid: seq<Entry>, now: seq<Entry>)
    requires g.Valid() && lo <= hi <= |distc| && (hi <= done || done == rows) && done <= rows
    requires g.kind.Nearest? && g.cols ==> forall x :: 0 <= x < |was| && g.startCol + tileRow + x < g.a.nx ==>
      was[x].value >= InitDist(g.kind)
    requires FlushedCols(g, off, tileRow, tileRow + l, tileRow + l + rows, off + l + lo, was, mid)
    requires DistcOk(g, off, tileRow + l, tileRow + l + done, distc)
    requires |now| == |mid| && forall x :: 0 <= x < |mid| ==>
      now[x] == if off + l + lo <= x < off + l + hi then Combine(g.kind, mid[x], distc[x - off - l]) else mid[x]
    ensures FlushedCols(g, off, tileRow, tileRow + l, tileRow + l + rows, off + l + hi, was, now)
  {
    hide Gathered, Geo.Width, Combine, ColOk, DistcOk;
    var first := tileRow + l;
    forall x: nat | off + l + lo <= x < off + l + hi && x < |was|
      ensures ColOk(g, off, off + g.dpt, first, first + rows, g.startCol + tileRow + x, was[x], now[x])
    {
      ColumnComplete(g, off, first, rows, done, x - off - l, distc, was[x], now[x]);
    }
  }

  lemma ColumnComplete(g: Geo, off: nat, first: nat, rows: nat, done: nat, q: nat, distc: seq<Entry>, was: Entry,
                       now: Entry)
    requires g.Valid() && q < |distc| && (q < done || done == rows) && done <= rows
    requires
      var c := g.startCol + off + first + q;
      g.kind.Nearest? && g.cols && c < g.a.nx ==> was.value >= InitDist(g.kind)
    requires DistcOk(g, off, first, first + done, distc) && now == Combine(g.kind, was, distc[q])
    ensures ColOk(g, off, off + g.dpt, first, first + rows, g.startCol + off + first + q, was, now)
  {
    hide Gathered, Geo.Width, Combine;
    var c := g.startCol + off + first + q;
    assert ColOk(g, off, off + g.dpt, first, first + done, c, InitEntry(g.kind), distc[q]);
    if g.cols && c < g.a.nx {
      var cells := DiagRows(g, off, off + g.dpt, first, first + done, c);
      assert cells == DiagRows(g, off, off + g.dpt, first, first + rows, c);
      GatherNothing(g.kind, g.a.ColDists(c), was);
      GatherCombine(g.kind, g.a.ColDists(c), was, {}, was, cells, distc[q]);
      assert {} + cells == cells;
    }
  }

  // ---------- One iteration ----------

  /** The row results of one iteration: complete before `upto`, initial from there on. */
  ghost predicate DistrOk(g: Geo, off: nat, first: nat, upto: nat, distr: seq<Entry>)
    requires g.Valid()
  {
    forall o: nat :: o < |distr| ==> if o < upto then PartOk(g, off, first + o, distr[o])
      else distr[o] == InitEntry(g.kind)
  }

  ghost predicate PartOk(g: Geo, off: nat, row: nat, part: Entry)
    requires g.Valid()
  {
    && row < g.a.ny
    && (g.rows ==> Gathered(g.kind, g.a.RowDists(row), InitEntry(g.kind), DiagCols(g, off, off + g.dpt, row), part))
  }

  lemma RowsComplete(g: Geo, off: nat, tileRow: nat, l: nat, rows: nat, lo: nat, hi: nat,
                     distr: seq<Entry>, was: seq<Entry>, mid: seq<Entry>, now: seq<Entry>)
    requires g.Valid() && lo <= hi <= |distr| == rows
    requires g.kind.Nearest? && g.rows ==> forall i :: 0 <= i < |was| && tileRow + i < g.a.ny ==>
      was[i].value >= InitDist(g.kind)
    requires FlushedRows(g, off, tileRow, tileRow + l, tileRow + l + rows, l + lo, was, mid)
    requires DistrOk(g, off, tileRow + l, hi, distr)
    requires |now| == |mid| && forall i :: 0 <= i < |mid| ==>
      now[i] == if l + lo <= i < l + hi then Combine(g.kind, mid[i], distr[i - l]) else mid[i]
    ensures FlushedRows(g, off, tileRow, tileRow + l, tileRow + l + rows, l + hi, was, now)
  {
    hide Gathered, Geo.Width, Combine;
    var first := tileRow + l;
    forall i: nat | l + lo <= i < l + hi && i < |was|
      ensures RowOk(g, off, off + g.dpt, first, first + rows, tileRow + i, was[i], now[i])
    {
      assert PartOk(g, off, first + (i - l), distr[i - l]);
      if g.rows {
        RowFlush(g, off, off + g.dpt, tileRow + i, was[i], distr[i - l]);
      }
    }
  }

  /** `ur` rows on the current window. */
  method RowBatch(g: Geo, ur: nat, base: nat, info: Info, sm: Shared, distc: seq<Entry>, distr: seq<Entry>,
                  dfc: seq<real>, dgc: seq<real>, inormc: seq<Norm>, ghost off: nat, ghost tileRow: nat)
      returns (cov: seq<real>, distc': seq<Entry>, distr': seq<Entry>)
    requires g.Valid() && Shaped(g, sm) && Mirrors(g, sm, tileRow) && FastTile(g, off, tileRow)
    requires At(g, off, tileRow, info) && off + g.dpt <= g.Width() && CovOk(g, off, info.globalRow + base, info.cov)
    requires info.localRow + base + ur <= g.height && |dfc| == |dgc| == |inormc| == g.dpt + ur
    requires Window(dfc, sm.dfCol, info.localCol + base) && Window(dgc, sm.dgCol, info.localCol + base)
    requires Window(inormc, sm.inormCol, info.localCol + base)
    requires base + ur <= |distr| && base + ur + g.dpt - 1 <= |distc|
    requires DistcOk(g, off, info.globalRow, info.globalRow + base, distc)
    requires DistrOk(g, off, info.globalRow, base, distr)
    ensures |distc'| == |distc| && |distr'| == |distr| && CovOk(g, off, info.globalRow + base + ur, cov)
    ensures DistcOk(g, off, info.globalRow, info.globalRow + base + ur, distc')
    ensures DistrOk(g, off, info.globalRow, base + ur, distr')
  {
    hide Gathered, Geo.Width, CovOk, DistcOk, PartOk, Window, ColData;
    var dfr, dgr := sm.dfRow[info.localRow + base..info.localRow + base + ur],
      sm.dgRow[info.localRow + base..info.localRow + base + ur];
    var inormr := sm.inormRow[info.localRow + base..info.localRow + base + ur];
    cov, distc', distr' := info.cov, distc, distr;
    for k := 0 to ur
      invariant |distc'| == |distc| && |distr'| == |distr| && CovOk(g, off, info.globalRow + base + k, cov)
      invariant DistcOk(g, off, info.globalRow, info.globalRow + base + k, distc')
      invariant DistrOk(g, off, info.globalRow, base + k, distr')
    {
      WindowMirrors(g, sm, tileRow, info.localCol + base, dfc, dgc, inormc, k);
      FastRowData(g, off, tileRow, info.localRow + base + k, sm);
      var part;
      cov, distc', part := DoRow(g, base + k, k, info.(cov := cov), distc', distr'[base + k], inormc, dfc, dgc,
        inormr[k], dfr[k], dgr[k], off, tileRow);
      distr' := distr'[base + k := part];
      PartIs(g, off, info.globalRow + base + k, part);
    }
  }

  lemma PartIs(g: Geo, off: nat, row: nat, part: Entry)
    requires g.Valid() && row < g.a.ny
    requires g.rows ==> Gathered(g.kind, g.a.RowDists(row), InitEntry(g.kind), DiagCols(g, off, off + g.dpt, row), part)
    ensures PartOk(g, off, row, part)
  {
    hide Gathered;
  }

  lemma FastRowData(g: Geo, off: nat, tileRow: nat, l: nat, sm: Shared)
    requires g.Valid() && Shaped(g, sm) && Mirrors(g, sm, tileRow) && FastTile(g, off, tileRow) && l < g.height
    ensures tileRow + l < g.a.ny && sm.dfRow[l] == g.a.dfb[tileRow + l] && sm.dgRow[l] == g.a.dgb[tileRow + l]
    ensures sm.inormRow[l] == g.a.normsb[tileRow + l]
  {
    hide Geo.Width;
  }

  /** What an iteration holds in registers: the window, the accumulators and the row results. */
  datatype Registers = Registers(cov: seq<real>, dfc: seq<real>, dgc: seq<real>, inormc: seq<Norm>,
                                 distc: seq<Entry>, distr: seq<Entry>)

  /** An iteration of `our` rows that began at `info`, after `done` of them. */
  ghost predicate IterationOk(g: Geo, off: nat, tileRow: nat, info: Info, our: nat, sm: Shared, done: nat,
                              regs: Registers, mpCol: seq<Entry>, mpRow: seq<Entry>)
    requires g.Valid()
  {
    && |regs.distc| == g.dpt + our - 1 && |regs.distr| == our && done <= our
    && CovOk(g, off, info.globalRow + done, regs.cov)
    && DistcOk(g, off, info.globalRow, info.globalRow + done, regs.distc)
    && DistrOk(g, off, info.globalRow, done, regs.distr)
    && FlushedCols(g, off, tileRow, info.globalRow, info.globalRow + our, info.localCol + done, sm.localMpCol, mpCol)
    && RowsSoFar(g, off, tileRow, info, our, sm, done, mpRow)
  }

  /** A maximum's row results are flushed batch by batch; a sum's stay in registers until the warp adds them up. */
  ghost predicate RowsSoFar(g: Geo, off: nat, tileRow: nat, info: Info, our: nat, sm: Shared, done: nat,
                            mpRow: seq<Entry>)
    requires g.Valid()
  {
    if g.kind.SumThresh? then mpRow == sm.localMpRow
    else FlushedRows(g, off, tileRow, info.globalRow, info.globalRow + our, info.localRow + done, sm.localMpRow, mpRow)
  }

  /** `our` rows in batches of `ur`, the window sliding along; every accumulator is flushed once, after its last row.
      The row results of a sum are handed back to the warp. */
  method DoIterationFast(g: Geo, ur: nat, outerIters: nat, info: Info, sm: Shared, ghost off: nat, ghost tileRow: nat)
      returns (info': Info, sm': Shared, distr: seq<Entry>)
    requires g.Valid() && Shaped(g, sm) && Mirrors(g, sm, tileRow) && Seeded(g, tileRow, sm)
    requires FastTile(g, off, tileRow)
    requires At(g, off, tileRow, info) && off + g.dpt <= g.Width() && CovOk(g, off, info.globalRow, info.cov)
    requires ur > 0 && outerIters > 0 && info.localRow + Base(outerIters, ur) <= g.height
    ensures At(g, off, tileRow, info') && info'.localRow == info.localRow + Base(outerIters, ur)
    ensures CovOk(g, off, info'.globalRow, info'.cov)
    ensures ThreadIteration(g, off, tileRow, info.globalRow, Base(outerIters, ur), sm, sm', distr)
  {
    hide Gathered, Geo.Width, CovOk, DistcOk, DistrOk, FastTile, Window, Mirrors, Seeded, FlushedCols, RowsSoFar,
      ThreadIteration, WindowsAt, ColOk, RowOk, Base;
    var inner, our := g.dpt + ur, Base(outerIters, ur);
    BatchFits(outerIters, 0, ur);
    var regs := Registers(info.cov, sm.dfCol[info.localCol..info.localCol + inner],
      sm.dgCol[info.localCol..info.localCol + inner],
      sm.inormCol[info.localCol..info.localCol + inner],
      seq(g.dpt + our - 1, _ => InitEntry(g.kind)), seq(our, _ => InitEntry(g.kind)));
    IterationStarts(g, off, tileRow, info, info.globalRow + our, regs.distc, regs.distr, sm);
    WindowStarts(sm, info.localCol, inner);
    var mpCol, mpRow := sm.localMpCol, sm.localMpRow;
    for j := 0 to outerIters
      invariant Base(j, ur) <= our && IterationOk(g, off, tileRow, info, our, sm, Base(j, ur), regs, mpCol, mpRow)
      invariant |regs.dfc| == |regs.dgc| == |regs.inormc| == inner
      invariant j > 0 ==> ur <= Base(j, ur)
      invariant WindowsAt(sm, regs.dfc, regs.dgc, regs.inormc, info.localCol + if j > 0 then Base(j, ur) - ur else 0)
    {
      BatchFits(outerIters, j, ur);
      if j > 0 {
        regs := SlideWindow(g, ur, Base(j, ur), info, sm, regs);
      }
      regs, mpCol, mpRow := DoBatch(g, ur, Base(j, ur), our, info, sm, regs, mpCol, mpRow, off, tileRow);
    }
    if g.cols {
      mpCol := FlushColumns(g, g.dpt - 1, our, info, our, regs.distc, sm, mpCol, our, off, tileRow);
    } else {
      NoColumnsFlushed(g, off, tileRow, info.globalRow, info.globalRow + our, info.localCol + our, g.dpt - 1,
        sm.localMpCol, mpCol);
    }
    info' := info.(cov := regs.cov, localCol := info.localCol + our, localRow := info.localRow + our,
      globalCol := info.globalCol + our, globalRow := info.globalRow + our);
    sm' := sm.(localMpCol := mpCol, localMpRow := mpRow);
    distr := regs.distr;
    IterationEnds(g, off, tileRow, info, our, sm, mpCol, mpRow, distr);
  }

  /** What one thread's iteration leaves: its columns, its rows if it flushes them itself, and its row results. */
  ghost predicate ThreadIteration(g: Geo, off: nat, tileRow: nat, first: nat, our: nat, was: Shared, now: Shared,
                                  distr: seq<Entry>)
    requires g.Valid()
  {
    && now == was.(localMpCol := now.localMpCol, localMpRow := now.localMpRow)
    && ColsContributed(g, off, off + g.dpt, tileRow, first, first + our, was.localMpCol, now.localMpCol)
    && (if g.kind.SumThresh? then now.localMpRow == was.localMpRow
        else RowsContributed(g, off, off + g.dpt, tileRow, first, first + our, was.localMpRow, now.localMpRow))
    && |distr| == our && DistrOk(g, off, first, our, distr)
  }

  /** Move the window to the next batch of rows, which begins at `base`. */
  method SlideWindow(g: Geo, ur: nat, base: nat, info: Info, sm: Shared, regs: Registers) returns (now: Registers)
    requires g.dpt > 0 && Shaped(g, sm) && ur <= base && info.localCol + base + g.dpt + ur <= g.Width() + g.height
    requires |regs.dfc| == |regs.dgc| == |regs.inormc| == g.dpt + ur
    requires WindowsAt(sm, regs.dfc, regs.dgc, regs.inormc, info.localCol + (base - ur))
    ensures now == regs.(dfc := now.dfc, dgc := now.dgc, inormc := now.inormc)
    ensures |now.dfc| == |now.dgc| == |now.inormc| == g.dpt + ur
    ensures WindowsAt(sm, now.dfc, now.dgc, now.inormc, info.localCol + base)
  {
    hide Geo.Width, WindowsAt, Slid;
    SlideAll(sm, regs.dfc, regs.dgc, regs.inormc, info.localCol + (base - ur), ur);
    var from := info.localCol + base + g.dpt;
    now := regs.(dfc := Slid(regs.dfc, sm.dfCol, from, ur), dgc := Slid(regs.dgc, sm.dgCol, from, ur),
      inormc := Slid(regs.inormc, sm.inormCol, from, ur));
  }

  /** The rows of one batch, then the flush of what they complete. */
  method DoBatch(g: Geo, ur: nat, base: nat, our: nat, info: Info, sm: Shared, regs: Registers, mpCol: seq<Entry>,
                 mpRow: seq<Entry>,
                 ghost off: nat, ghost tileRow: nat) returns (regs': Registers, mpCol': seq<Entry>, mpRow': seq<Entry>)
    requires g.Valid() && Shaped(g, sm) && Mirrors(g, sm, tileRow) && Seeded(g, tileRow, sm)
    requires FastTile(g, off, tileRow)
    requires At(g, off, tileRow, info) && off + g.dpt <= g.Width()
    requires base + ur <= our && info.localRow + our <= g.height
    requires IterationOk(g, off, tileRow, info, our, sm, base, regs, mpCol, mpRow)
    requires |regs.dfc| == |regs.dgc| == |regs.inormc| == g.dpt + ur
    requires WindowsAt(sm, regs.dfc, regs.dgc, regs.inormc, info.localCol + base)
    ensures IterationOk(g, off, tileRow, info, our, sm, base + ur, regs', mpCol', mpRow')
    ensures regs' == regs.(cov := regs'.cov, distc := regs'.distc, distr := regs'.distr)
  {
    hide Gathered, Geo.Width, CovOk, DistcOk, DistrOk, FastTile, Window, Mirrors, Seeded, FlushedCols, FlushedRows,
      ColOk, RowOk;
    var cov, distc, distr := RowBatch(g, ur, base, info.(cov := regs.cov), sm, regs.distc, regs.distr,
      regs.dfc, regs.dgc, regs.inormc, off, tileRow);
    mpCol', mpRow' := mpCol, mpRow;
    if g.cols {
      mpCol' := FlushColumns(g, ur, base, info, our, distc, sm, mpCol, base + ur, off, tileRow);
    } else {
      NoColumnsFlushed(g, off, tileRow, info.globalRow, info.globalRow + our, info.localCol + base, ur, sm.localMpCol,
        mpCol);
    }
    if g.rows && g.kind.Nearest? {
      mpRow' := FlushRows(g, ur, base, info, our, distr, sm, mpRow, off, tileRow);
    } else if g.kind.Nearest? {
      NoRowsFlushed(g, off, tileRow, info.globalRow, info.globalRow + our, info.localRow + base, ur, sm.localMpRow,
        mpRow);
    }
    regs' := regs.(cov := cov, distc := distc, distr := distr);
  }

  /** A side that is not computed has nothing to flush. */
  lemma NoColumnsFlushed(g: Geo, off: nat, tileRow: nat, first: nat, to: nat, upto: nat, num: nat, was: seq<Entry>,
                         now: seq<Entry>)
    requires g.Valid() && !g.cols && FlushedCols(g, off, tileRow, first, to, upto, was, now)
    ensures FlushedCols(g, off, tileRow, first, to, upto + num, was, now)
  {
  }

  lemma NoRowsFlushed(g: Geo, off: nat, tileRow: nat, first: nat, to: nat, upto: nat, num: nat, was: seq<Entry>,
                      now: seq<Entry>)
    requires g.Valid() && !g.rows && FlushedRows(g, off, tileRow, first, to, upto, was, now)
    ensures FlushedRows(g, off, tileRow, first, to, upto + num, was, now)
  {
  }

  predicate WindowsAt(sm: Shared, dfc: seq<real>, dgc: seq<real>, inormc: seq<Norm>, at: nat) {
    Window(dfc, sm.dfCol, at) && Window(dgc, sm.dgCol, at) && Window(inormc, sm.inormCol, at)
  }

  /** The first row of batch `j`. */
  function Base(j: nat, ur: nat): nat {
    j * ur
  }

  lemma BatchFits(batches: nat, j: nat, ur: nat)
    requires j <= batches
    ensures Base(0, ur) == 0 && Base(j + 1, ur) == Base(j, ur) + ur && Base(j, ur) <= Base(batches, ur)
    ensures j < batches ==> Base(j, ur) + ur <= Base(batches, ur)
    ensures j > 0 ==> ur <= Base(j, ur)
  {
    NextThread(j, ur);
    MulMonotone(j, batches, ur);
    if j > 0 {
      MulMonotone(1, j, ur);
    }
    if j < batches {
      MulMonotone(j + 1, batches, ur);
    }
  }

  lemma WindowStarts(sm: Shared, at: nat, n: nat)
    requires at + n <= |sm.dfCol| == |sm.dgCol| == |sm.inormCol|
    ensures WindowsAt(sm, sm.dfCol[at..at + n], sm.dgCol[at..at + n], sm.inormCol[at..at + n], at)
  {
  }

  lemma SlideAll(sm: Shared, dfc: seq<real>, dgc: seq<real>, inormc: seq<Norm>, at: nat, ur: nat)
    requires WindowsAt(sm, dfc, dgc, inormc, at) && ur <= |dfc| == |dgc| == |inormc|
    requires at + |dfc| + ur <= |sm.dfCol| == |sm.dgCol| == |sm.inormCol|
    ensures WindowsAt(sm, Slid(dfc, sm.dfCol, at + |dfc|, ur), Slid(dgc, sm.dgCol, at + |dfc|, ur),
              Slid(inormc, sm.inormCol, at + |dfc|, ur), at + ur)
  {
    hide Window, Slid;
    SlideKeepsWindow(dfc, sm.dfCol, at, ur);
    SlideKeepsWindow(dgc, sm.dgCol, at, ur);
    SlideKeepsWindow(inormc, sm.inormCol, at, ur);
  }

  /** Flush the column accumulators `[start, start + num)`, complete after `done` rows. */
  method FlushColumns(g: Geo, num: nat, start: nat, info: Info, our: nat, distc: seq<Entry>, ghost sm: Shared,
                      mp: seq<Entry>,
                      ghost done: nat, ghost off: nat, ghost tileRow: nat) returns (now: seq<Entry>)
    requires g.Valid() && Shaped(g, sm) && At(g, off, tileRow, info) && Seeded(g, tileRow, sm)
    requires start + num <= |distc| == g.dpt + our - 1 && off + g.dpt <= g.Width() && info.localRow + our <= g.height
    requires done <= our && (start + num <= done || done == our)
    requires DistcOk(g, off, info.globalRow, info.globalRow + done, distc)
    requires FlushedCols(g, off, tileRow, info.globalRow, info.globalRow + our, info.localCol + start, sm.localMpCol,
      mp)
    ensures FlushedCols(g, off, tileRow, info.globalRow, info.globalRow + our, info.localCol + start + num,
      sm.localMpCol, now)
  {
    hide Gathered, Geo.Width, DistcOk, ColOk, Combine;
    now := Update(g.kind, num, start, info.localCol, distc, mp);
    ColumnsComplete(g, off, tileRow, info.localRow, our, done, start, start + num, distc, sm.localMpCol, mp, now);
  }

  /** Flush the row results `[start, start + num)`. */
  method FlushRows(g: Geo, num: nat, start: nat, info: Info, our: nat, distr: seq<Entry>, ghost sm: Shared,
                   mp: seq<Entry>,
                   ghost off: nat, ghost tileRow: nat) returns (now: seq<Entry>)
    requires g.Valid() && Shaped(g, sm) && At(g, off, tileRow, info) && Seeded(g, tileRow, sm)
    requires start + num <= |distr| == our && info.localRow + our <= g.height
    requires DistrOk(g, off, info.globalRow, start + num, distr)
    requires FlushedRows(g, off, tileRow, info.globalRow, info.globalRow + our, info.localRow + start, sm.localMpRow,
      mp)
    ensures FlushedRows(g, off, tileRow, info.globalRow, info.globalRow + our, info.localRow + start + num,
      sm.localMpRow, now)
  {
    hide Gathered, Geo.Width, DistrOk, RowOk, Combine;
    now := Update(g.kind, num, start, info.localRow, distr, mp);
    RowsComplete(g, off, tileRow, info.localRow, our, start, start + num, distr, sm.localMpRow, mp, now);
  }

  lemma IterationStarts(g: Geo, off: nat, tileRow: nat, info: Info, to: nat, distc: seq<Entry>, distr: seq<Entry>,
                        sm: Shared)
    requires g.Valid() && At(g, off, tileRow, info)
    requires forall q :: 0 <= q < |distc| ==> distc[q] == InitEntry(g.kind)
    requires forall o :: 0 <= o < |distr| ==> distr[o] == InitEntry(g.kind)
    ensures DistcOk(g, off, info.globalRow, info.globalRow, distc) && DistrOk(g, off, info.globalRow, 0, distr)
    ensures FlushedCols(g, off, tileRow, info.globalRow, to, info.localCol, sm.localMpCol, sm.localMpCol)
    ensures FlushedRows(g, off, tileRow, info.globalRow, to, info.localRow, sm.localMpRow, sm.localMpRow)
    ensures to >= info.globalRow ==> RowsSoFar(g, off, tileRow, info, to - info.globalRow, sm, 0, sm.localMpRow)
  {
    hide Gathered, Geo.Width, ColOk;
    var first := info.globalRow;
    forall q: nat | q < |distc|
      ensures ColOk(g, off, off + g.dpt, first, first, g.startCol + off + first + q, InitEntry(g.kind), distc[q])
    {
      NoRows(g, off, off + g.dpt, first, first, g.startCol + off + first + q, distc[q]);
    }
    forall x: nat | x < |sm.localMpCol| && x < info.localCol
      ensures ColOk(g, off, off + g.dpt, first, to, g.startCol + tileRow + x, sm.localMpCol[x], sm.localMpCol[x])
    {
      NoRows(g, off, off + g.dpt, first, to, g.startCol + tileRow + x, sm.localMpCol[x]);
    }
    forall i: nat | i < |sm.localMpRow| && i < info.localRow
      ensures RowOk(g, off, off + g.dpt, first, to, tileRow + i, sm.localMpRow[i], sm.localMpRow[i])
    {
      if tileRow + i < g.a.ny {
        GatherNothing(g.kind, g.a.RowDists(tileRow + i), sm.localMpRow[i]);
      }
    }
  }

  /** The columns and rows beyond the iteration have no cell in it. */
  lemma IterationEnds(g: Geo, off: nat, tileRow: nat, info: Info, our: nat, sm: Shared, mpCol: seq<Entry>,
                      mpRow: seq<Entry>,
                      distr: seq<Entry>)
    requires g.Valid() && At(g, off, tileRow, info) && our > 0
    requires FlushedCols(g, off, tileRow, info.globalRow, info.globalRow + our, info.localCol + our + (g.dpt - 1),
      sm.localMpCol, mpCol)
    requires RowsSoFar(g, off, tileRow, info, our, sm, our, mpRow) && |distr| == our
    requires DistrOk(g, off, info.globalRow, our, distr)
    ensures ThreadIteration(g, off, tileRow, info.globalRow, our, sm, sm.(localMpCol := mpCol, localMpRow := mpRow),
      distr)
  {
    hide Gathered, Geo.Width, ColOk, DistrOk;
    var first, to := info.globalRow, info.globalRow + our;
    forall x: nat | x < |mpCol| && x >= info.localCol + our + (g.dpt - 1)
      ensures ColOk(g, off, off + g.dpt, first, to, g.startCol + tileRow + x, sm.localMpCol[x], mpCol[x])
    {
      NoRows(g, off, off + g.dpt, first, to, g.startCol + tileRow + x, mpCol[x]);
    }
    if g.kind.Nearest? {
      forall i: nat | i < |mpRow| && i >= info.localRow + our
        ensures RowOk(g, off, off + g.dpt, first, to, tileRow + i, sm.localMpRow[i], mpRow[i])
      {
        if tileRow + i < g.a.ny {
          GatherNothing(g.kind, g.a.RowDists(tileRow + i), sm.localMpRow[i]);
        }
      }
    }
  }
}
