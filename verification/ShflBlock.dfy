/**
 One thread block of the cov-shuffle kernel, tile by tile and row by row.
 */
module ShflBlock {
  import opened Profiles
  import opened Kernel
  import opened ShflRing
  import opened GpuBlock
  import opened ShflKernel
  import opened ShflMerge

  /** The row data of a tile, where the rows exist. */
  ghost predicate RowData(g: Geo, sm: Smem, tileRow: nat)
    requires g.Valid() && |sm.dfRow| == |sm.dgRow| == |sm.inormRow| == g.height
  {
    forall i :: 0 <= i < g.height && tileRow + i < g.a.ny ==>
      sm.dfRow[i] == g.a.dfb[tileRow + i] && sm.dgRow[i] == g.a.dgb[tileRow + i]
        && sm.inormRow[i] == g.a.normsb[tileRow + i]
  }

  /** The state of a block before row `r` of a tile. `seedCol` and `seedRow` are the buffers the tile began with. */
  ghost predicate RowInv(g: Geo, st: State, sm: Smem, tileRow: nat, r: nat, seedCol: seq<Entry>, seedRow: seq<Entry>) {
    && g.Valid() && g.Width() > 0 && Shaped(g, st, sm) && r <= g.height
    && |seedCol| == |sm.localMpCol| && |seedRow| == |sm.localMpRow|
    && Columns(g, st, tileRow, tileRow + r)
    && CovPending(g, st.cov, sm.handoff, r, tileRow + r)
    && RowData(g, sm, tileRow)
    && MergesOk(g, st, sm, tileRow, r, seedCol, seedRow)
  }

  ghost predicate MergesOk(g: Geo, st: State, sm: Smem, tileRow: nat, r: nat, seedCol: seq<Entry>, seedRow: seq<Entry>)
    requires g.Valid() && g.Width() > 0 && Shaped(g, st, sm) && |seedCol| == |sm.localMpCol|
    requires |seedRow| == |sm.localMpRow|
  {
    && SeedsOk(g, tileRow, seedCol, seedRow)
    && (forall p :: 0 <= p < g.Width() ==> AccOk(g, tileRow, tileRow + r, p, st.distc[p]))
    && (forall j :: 0 <= j < |sm.localMpCol| ==> MpColOk(g, tileRow, tileRow + r, j, seedCol[j], sm.localMpCol[j]))
    && (forall i :: 0 <= i < g.height ==> MpRowOk(g, tileRow, tileRow + r, i, seedRow[i], sm.localMpRow[i]))
  }

  ghost predicate SeedsOk(g: Geo, tileRow: nat, seedCol: seq<Entry>, seedRow: seq<Entry>) {
    g.kind.Nearest? ==>
      && (forall j :: 0 <= j < |seedCol| && g.startCol + tileRow + j < g.a.nx ==> seedCol[j].value >= InitDist(g.kind))
      && (forall i :: 0 <= i < |seedRow| && tileRow + i < g.a.ny ==> seedRow[i].value >= InitDist(g.kind))
  }

  // ---------- One row ----------

  /** The raw distances of a row, before any mask. */
  function RawDists(g: Geo, st: State, inormr: Norm): (d: seq<Dist>)
    requires |st.cov| == |st.inormc|
    ensures |d| == |st.cov| && forall p :: 0 <= p < |d| ==> d[p] == g.a.Correlate(st.cov[p], st.inormc[p], inormr)
  {
    seq(|st.cov|, p requires 0 <= p < |st.cov| => g.a.Correlate(st.cov[p], st.inormc[p], inormr))
  }

  function MaskedDists(g: Geo, st: State, raw: seq<Dist>, row: nat, r: nat, fast: bool): (d: seq<Dist>)
    requires |raw| == |st.globalCol| == |st.localCol|
    ensures |d| == |raw|
    ensures forall p :: 0 <= p < |d| ==>
      d[p] == if fast then MaskFast(g, st.localCol[p], r, raw[p]) else MaskSlow(g, row, st.globalCol[p], st.localCol[p],
        r, raw[p])
  {
    seq(|raw|, p requires 0 <= p < |raw| =>
      if fast then MaskFast(g, st.localCol[p], r, raw[p]) else MaskSlow(g, row, st.globalCol[p], st.localCol[p], r,
        raw[p]))
  }

  /** On either path the masked distances are the block's cells of the row. */
  lemma DistsAreCells(g: Geo, st: State, sm: Smem, tileRow: nat, r: nat, fast: bool)
    requires g.Valid() && g.Width() > 0 && Shaped(g, st, sm) && r < g.height
    requires Columns(g, st, tileRow, tileRow + r) && CovReady(g, st.cov, tileRow + r) && RowData(g, sm, tileRow)
    requires fast ==> FastTile(g, g.startCol + tileRow, tileRow)
    ensures DistOk(g, tileRow + r, MaskedDists(g, st, RawDists(g, st, sm.inormRow[r]), tileRow + r, r, fast))
  {
    hide Owned, Geo.Width, RowData;
    var row := tileRow + r;
    var raw := RawDists(g, st, sm.inormRow[r]);
    var dist := MaskedDists(g, st, raw, row, r, fast);
    forall p: nat | p < g.Width() ensures SlotDistOk(g, row, p, dist[p]) {
      assert SlotColumn(g, st, tileRow, row, p);
      RawIsDist(g, st, sm, tileRow, r, p);
      MaskIsCell(g, tileRow, r, p, raw[p]);
      if fast {
        FastPathAgrees(g, tileRow, r, p, raw[p]);
      }
    }
  }

  lemma RawIsDist(g: Geo, st: State, sm: Smem, tileRow: nat, r: nat, p: nat)
    requires g.Valid() && g.Width() > 0 && Shaped(g, st, sm) && r < g.height && p < g.Width()
    requires Columns(g, st, tileRow, tileRow + r) && CovReady(g, st.cov, tileRow + r) && RowData(g, sm, tileRow)
    ensures g.Cell(tileRow + r, g.Col(p, tileRow + r)) ==>
      RawDists(g, st, sm.inormRow[r])[p] == g.a.DistAt(tileRow + r, g.Col(p, tileRow + r))
  {
    hide Owned, Geo.Width;
    assert SlotColumn(g, st, tileRow, tileRow + r, p);
    assert IsCov(g, tileRow + r, p, st.cov[p]);
  }

  /** What one row does to the rotating slot: flush, fetch the next column, start afresh. */
  ghost predicate SlotRotated(g: Geo, st: State, st': State, row: nat, p: nat)
    requires g.Valid() && g.Width() > 0 && p < g.Width()
    requires |st.dfc| == |st.dgc| == |st.inormc| == |st.distc| == |st.globalCol| == |st.localCol| == g.Width()
    requires |st'.dfc| == |st'.dgc| == |st'.inormc| == |st'.distc| == |st'.globalCol| == |st'.localCol| == g.Width()
  {
    if Owned(p, row, g.Width()) == row then
      && st'.globalCol[p] == st.globalCol[p] + g.Width() >= 0 && st'.localCol[p] == st.localCol[p] + g.Width()
      && st'.dfc[p] == g.ColReal(g.a.dfa, st'.globalCol[p]) && st'.dgc[p] == g.ColReal(g.a.dga, st'.globalCol[p])
      && st'.inormc[p] == g.ColNorm(st'.globalCol[p]) && st'.distc[p] == InitEntry(g.kind)
    else
      && st'.globalCol[p] == st.globalCol[p] && st'.localCol[p] == st.localCol[p] && st'.dfc[p] == st.dfc[p]
      && st'.dgc[p] == st.dgc[p] && st'.inormc[p] == st.inormc[p] && st'.distc[p] == st.distc[p]
  }

  /** After the rotation every slot owns the column it must own in the next row. */
  lemma RotationKeepsColumns(g: Geo, st: State, st': State, tileRow: nat, row: nat)
    requires g.Valid() && g.Width() > 0
    requires |st.dfc| == |st.dgc| == |st.inormc| == |st.distc| == |st.globalCol| == |st.localCol| == g.Width()
    requires |st'.dfc| == |st'.dgc| == |st'.inormc| == |st'.distc| == |st'.globalCol| == |st'.localCol| == g.Width()
    requires |st.updatesRemaining| == |st'.updatesRemaining| == 32 * g.warps
    requires Columns(g, st, tileRow, row)
    requires forall p: nat :: p < g.Width() ==> SlotRotated(g, st, st', row, p)
    requires forall t: nat :: t < 32 * g.warps ==> st'.updatesRemaining[t] == Countdown(t, g.dpt, row + 1, g.Width())
    ensures Columns(g, st', tileRow, row + 1)
  {
    hide Owned, Geo.Width, Countdown, Geo.ColReal, Geo.ColNorm;
    var next := row + 1;
    forall p: nat | p < g.Width() ensures SlotColumn(g, st', tileRow, next, p) {
      OwnedNext(p, row, g.Width());
      assert SlotRotated(g, st, st', row, p);
      assert SlotColumn(g, st, tileRow, row, p);
    }
  }

  /** Row `r` merged and rotated: accumulators and buffers are right for row `r + 1`. */
  lemma RotationKeepsMerges(g: Geo, st: State, sm: Smem, st': State, sm': Smem, tileRow: nat, r: nat, dist: seq<Dist>,
                            seedCol: seq<Entry>, seedRow: seq<Entry>, leading: nat)
    requires g.Valid() && g.Width() > 0 && Shaped(g, st, sm) && Shaped(g, st', sm') && r < g.height
    requires |seedCol| == |sm.localMpCol| && |seedRow| == |sm.localMpRow|
    requires MergesOk(g, st, sm, tileRow, r, seedCol, seedRow) && DistOk(g, tileRow + r, dist)
    requires forall p: nat :: p < g.Width() ==>
      st'.distc[p] ==
        if Owned(p, tileRow + r, g.Width()) == tileRow + r then InitEntry(g.kind)
        else if g.cols then MergeCell(g.kind, st.distc[p], dist[p], tileRow + r)
        else st.distc[p]
    requires leading < g.Width() && Owned(leading, tileRow + r, g.Width()) == tileRow + r
    requires sm'.localMpCol ==
      if !g.cols then sm.localMpCol
      else sm.localMpCol[r := Combine(g.kind, sm.localMpCol[r], MergeCell(g.kind, st.distc[leading], dist[leading],
        tileRow + r))]
    requires forall i :: 0 <= i < g.height && i != r ==> sm'.localMpRow[i] == sm.localMpRow[i]
    requires if g.rows && tileRow + r < g.a.ny
      then Gathered(g.kind, g.a.RowDists(tileRow + r), sm.localMpRow[r], Cols(g, tileRow + r), sm'.localMpRow[r])
      else sm'.localMpRow[r] == sm.localMpRow[r]
    ensures MergesOk(g, st', sm', tileRow, r + 1, seedCol, seedRow)
  {
    hide Gathered, Owned, Geo.Width, SlotDistOk;
    var row := tileRow + r;
    forall p: nat | p < g.Width() ensures AccOk(g, tileRow, row + 1, p, st'.distc[p]) {
      OwnedNext(p, row, g.Width());
      if Owned(p, row, g.Width()) == row {
        FreshColumn(g, tileRow, row + 1, p);
      } else if g.cols {
        MergeColumnStep(g, tileRow, row, p, st.distc[p], dist[p]);
      }
    }
    forall j: nat | j < |sm'.localMpCol| ensures MpColOk(g, tileRow, row + 1, j, seedCol[j], sm'.localMpCol[j]) {
      assert MpColOk(g, tileRow, row, j, seedCol[j], sm.localMpCol[j]);
      if j < r {
        RetiredColumnStays(g, tileRow, row, j, seedCol[j], sm.localMpCol[j]);
      } else if g.cols && j == r && g.startCol + row < g.a.nx {
        MergeColumnStep(g, tileRow, row, leading, st.distc[leading], dist[leading]);
        FlushGathers(g, tileRow, row + 1, g.startCol + row, seedCol[j],
          MergeCell(g.kind, st.distc[leading], dist[leading], row));
      }
    }
    forall i: nat | i < g.height ensures MpRowOk(g, tileRow, row + 1, i, seedRow[i], sm'.localMpRow[i]) {
      assert MpRowOk(g, tileRow, row, i, seedRow[i], sm.localMpRow[i]);
    }
  }

  // ---------- The rotation, thread by thread ----------

  /** The `t` threads with the slots below `bound` have rotated and counted down; the others are as they were. */
  ghost predicate RotatedUpTo(g: Geo, st: State, mp: seq<Entry>, st': State, mp': seq<Entry>, row: nat, r: nat,
                              leading: nat,
                              t: nat, bound: nat)
    requires g.Valid() && g.Width() > 0 && leading < g.Width() && r < |mp|
    requires |st.dfc| == |st.dgc| == |st.inormc| == |st.distc| == |st.globalCol| == |st.localCol| == g.Width()
  {
    && |st'.dfc| == |st'.dgc| == |st'.inormc| == |st'.distc| == |st'.globalCol| == |st'.localCol| == g.Width()
    && |st'.updatesRemaining| == 32 * g.warps && st'.cov == st.cov
    && (forall p: nat :: p < g.Width() ==> if p < bound then SlotRotated(g, st, st', row, p)
      else SameSlot(g, st, st', p))
    && (forall u: nat :: u < 32 * g.warps ==>
          st'.updatesRemaining[u] == Countdown(u, g.dpt, if u < t then row + 1 else row, g.Width()))
    && mp' == if g.cols && leading < bound then mp[r := Combine(g.kind, mp[r], st.distc[leading])] else mp
  }

  ghost predicate SameSlot(g: Geo, st: State, st': State, p: nat)
    requires p < g.Width()
    requires |st.dfc| == |st.dgc| == |st.inormc| == |st.distc| == |st.globalCol| == |st.localCol| == g.Width()
    requires |st'.dfc| == |st'.dgc| == |st'.inormc| == |st'.distc| == |st'.globalCol| == |st'.localCol| == g.Width()
  {
    && st'.globalCol[p] == st.globalCol[p] && st'.localCol[p] == st.localCol[p] && st'.dfc[p] == st.dfc[p]
    && st'.dgc[p] == st.dgc[p] && st'.inormc[p] == st.inormc[p] && st'.distc[p] == st.distc[p]
  }

  /** Flush one slot, fetch its next column, reset its accumulator; a countdown of zero starts over. */
  method UpdateInfo(g: Geo, st: State, mp: seq<Entry>, t: nat, p: nat, fast: bool) returns (st': State, mp': seq<Entry>)
    requires g.a.Valid() && t < |st.updatesRemaining|
    requires p < |st.dfc| == |st.dgc| == |st.inormc| == |st.distc| == |st.globalCol| == |st.localCol|
    requires 0 <= st.localCol[p] < |mp| && st.globalCol[p] + g.Width() >= 0
    requires fast ==> st.globalCol[p] + g.Width() < g.a.nx
    ensures mp' == if g.cols then mp[st.localCol[p] := Combine(g.kind, mp[st.localCol[p]], st.distc[p])] else mp
    ensures
      var pos := st.globalCol[p] + g.Width();
      st' == st.(dfc := st.dfc[p := g.ColReal(g.a.dfa, pos)], dgc := st.dgc[p := g.ColReal(g.a.dga, pos)],
                 inormc := st.inormc[p := g.ColNorm(pos)], distc := st.distc[p := InitEntry(g.kind)],
                 globalCol := st.globalCol[p := pos], localCol := st.localCol[p := st.localCol[p] + g.Width()],
                 updatesRemaining :=
                   if st.updatesRemaining[t] == 0 then st.updatesRemaining[t := g.Width()] else st.updatesRemaining)
  {
    mp' := if g.cols then mp[st.localCol[p] := Combine(g.kind, mp[st.localCol[p]], st.distc[p])] else mp;
    var pos := st.globalCol[p] + g.Width();
    var df, dg, norm;
    if fast {
      df, dg, norm := g.a.dfa[pos], g.a.dga[pos], g.a.normsa[pos];
    } else if pos < g.a.nx {
      df, dg, norm := g.a.dfa[pos], g.a.dga[pos], g.a.normsa[pos];
    } else {
      df, dg, norm := 0.0, 0.0, Inverse(0.0);
    }
    st' := st.(dfc := st.dfc[p := df], dgc := st.dgc[p := dg], inormc := st.inormc[p := norm],
               distc := st.distc[p := InitEntry(g.kind)],
               globalCol := st.globalCol[p := pos], localCol := st.localCol[p := st.localCol[p] + g.Width()]);
    if st.updatesRemaining[t] == 0 {
      st' := st'.(updatesRemaining := st'.updatesRemaining[t := g.Width()]);
    }
  }

  /** One thread's turn; `first` is its first slot. */
  method RotateThread(g: Geo, st: State, mp: seq<Entry>, now: State, nowMp: seq<Entry>, tileRow: nat, r: nat,
                      ghost leading: nat, t: nat, first: nat, fast: bool) returns (st': State, mp': seq<Entry>)
    requires g.Valid() && g.Width() > 0 && t < 32 * g.warps && r < g.height && |mp| == g.Width() + g.height
    requires first == t * g.dpt && first + g.dpt <= g.Width()
    requires |st.dfc| == |st.dgc| == |st.inormc| == |st.distc| == |st.globalCol| == |st.localCol| == g.Width()
    requires |st.updatesRemaining| == 32 * g.warps && Columns(g, st, tileRow, tileRow + r)
    requires leading < g.Width() && Owned(leading, tileRow + r, g.Width()) == tileRow + r
    requires fast ==> FastTile(g, g.startCol + tileRow, tileRow)
    requires RotatedUpTo(g, st, mp, now, nowMp, tileRow + r, r, leading, t, first)
    ensures RotatedUpTo(g, st, mp, st', mp', tileRow + r, r, leading, t + 1, first + g.dpt)
  {
    ghost var row := tileRow + r;
    CountdownStep(t, g.dpt, row, g.Width());
    LeadingInThread(g, row, leading, t, first);
    hide Owned, Geo.Width, Countdown, Geo.ColReal, Geo.ColNorm, FastTile, SlotRotated;
    st', mp' := now, nowMp;
    var left := now.updatesRemaining[t];
    if left < g.dpt {
      var p := first + (g.dpt - 1 - left);
      ColumnInRange(g, st, tileRow, row, leading);
      assert SameSlot(g, st, now, p) && p == leading;
      if fast {
        FastFetch(g, tileRow, r, p);
      }
      st', mp' := UpdateInfo(g, now, nowMp, t, p, fast);
      UpdateRotates(g, now, st', row, p, t);
    }
    st' := st'.(updatesRemaining := st'.updatesRemaining[t := st'.updatesRemaining[t] - 1]);
    TurnSlots(g, st, now, st', row, leading, first, first + g.dpt);
  }

  lemma ColumnInRange(g: Geo, st: State, tileRow: nat, row: nat, p: nat)
    requires g.Valid() && g.Width() > 0 && p < g.Width()
    requires |st.dfc| == |st.dgc| == |st.inormc| == |st.globalCol| == |st.localCol| == g.Width()
    requires |st.updatesRemaining| == 32 * g.warps && Columns(g, st, tileRow, row)
    ensures st.globalCol[p] == g.Col(p, row) >= 0 && st.localCol[p] == st.globalCol[p] - g.startCol - tileRow
  {
    hide Geo.Width, Owned, Countdown, Geo.ColReal, Geo.ColNorm;
    assert SlotColumn(g, st, tileRow, row, p);
  }

  lemma UpdateRotates(g: Geo, st: State, st': State, row: nat, p: nat, t: nat)
    requires g.Valid() && g.Width() > 0 && p < g.Width() && t < |st.updatesRemaining|
    requires |st.dfc| == |st.dgc| == |st.inormc| == |st.distc| == |st.globalCol| == |st.localCol| == g.Width()
    requires Owned(p, row, g.Width()) == row && st.globalCol[p] >= 0
    requires
      var pos := st.globalCol[p] + g.Width();
      st' == st.(dfc := st.dfc[p := g.ColReal(g.a.dfa, pos)], dgc := st.dgc[p := g.ColReal(g.a.dga, pos)],
                 inormc := st.inormc[p := g.ColNorm(pos)], distc := st.distc[p := InitEntry(g.kind)],
                 globalCol := st.globalCol[p := pos], localCol := st.localCol[p := st.localCol[p] + g.Width()],
                 updatesRemaining :=
                   if st.updatesRemaining[t] == 0 then st.updatesRemaining[t := g.Width()] else st.updatesRemaining)
    ensures SlotRotated(g, st, st', row, p)
    ensures forall q: nat :: q < g.Width() && q != p ==> SameSlot(g, st, st', q)
  {
  }

  lemma TurnSlots(g: Geo, st: State, now: State, st': State, row: nat, leading: nat, first: nat, next: nat)
    requires g.Valid() && g.Width() > 0 && leading < g.Width() && first <= next && Owned(leading, row, g.Width()) == row
    requires |st.dfc| == |st.dgc| == |st.inormc| == |st.distc| == |st.globalCol| == |st.localCol| == g.Width()
    requires |now.dfc| == |now.dgc| == |now.inormc| == |now.distc| == |now.globalCol| == |now.localCol| == g.Width()
    requires |st'.dfc| == |st'.dgc| == |st'.inormc| == |st'.distc| == |st'.globalCol| == |st'.localCol| == g.Width()
    requires forall p: nat :: p < g.Width() ==> if p < first then SlotRotated(g, st, now, row, p)
      else SameSlot(g, st, now, p)
    requires first <= leading < next ==> SlotRotated(g, now, st', row, leading)
    requires forall p: nat :: p < g.Width() && (p != leading || !(first <= leading < next)) ==> SameSlot(g, now, st', p)
    ensures forall p: nat :: p < g.Width() ==> if p < next then SlotRotated(g, st, st', row, p)
      else SameSlot(g, st, st', p)
  {
    hide SlotRotated, SameSlot, Owned, Geo.Width;
    forall p: nat | p < g.Width()
      ensures if p < next then SlotRotated(g, st, st', row, p) else SameSlot(g, st, st', p)
    {
      SlotStep(g, st, now, st', row, leading, p, first, next);
    }
  }

  /** A slot is as it must be after its thread's turn. */
  lemma SlotStep(g: Geo, st: State, now: State, st': State, row: nat, leading: nat, p: nat, first: nat, next: nat)
    requires g.Valid() && g.Width() > 0 && leading < g.Width() && p < g.Width() && first <= next
    requires Owned(leading, row, g.Width()) == row
    requires |st.dfc| == |st.dgc| == |st.inormc| == |st.distc| == |st.globalCol| == |st.localCol| == g.Width()
    requires |now.dfc| == |now.dgc| == |now.inormc| == |now.distc| == |now.globalCol| == |now.localCol| == g.Width()
    requires |st'.dfc| == |st'.dgc| == |st'.inormc| == |st'.distc| == |st'.globalCol| == |st'.localCol| == g.Width()
    requires if p < first then SlotRotated(g, st, now, row, p) else SameSlot(g, st, now, p)
    requires p != leading || !(first <= leading < next) ==> SameSlot(g, now, st', p)
    requires first <= leading < next ==> SlotRotated(g, now, st', row, leading)
    ensures if p < next then SlotRotated(g, st, st', row, p) else SameSlot(g, st, st', p)
  {
    hide Owned, Geo.Width;
    if p != leading {
      OnlyLeading(g, row, leading, p);
    }
  }

  lemma FastFetch(g: Geo, tileRow: nat, r: nat, p: nat)
    requires g.Valid() && g.Width() > 0 && p < g.Width() && r < g.height
    requires FastTile(g, g.startCol + tileRow, tileRow) && Owned(p, tileRow + r, g.Width()) == tileRow + r
    ensures g.Col(p, tileRow + r) + g.Width() < g.a.nx
  {
    FastPathAgrees(g, tileRow, r, p, NoValue);
  }

  lemma OnlyLeading(g: Geo, row: nat, leading: nat, p: nat)
    requires g.Valid() && g.Width() > 0 && leading < g.Width() && p < g.Width() && p != leading
    requires Owned(leading, row, g.Width()) == row
    ensures Owned(p, row, g.Width()) != row
  {
    if Owned(p, row, g.Width()) == row {
      OwnedInjective(p, leading, row, g.Width());
    }
  }

  /** A thread's countdown is below `dpt` exactly when the rotating slot is one of its own, and it names the slot. */
  lemma LeadingInThread(g: Geo, row: nat, leading: nat, t: nat, first: nat)
    requires g.Valid() && g.Width() > 0 && leading < g.Width() && t < 32 * g.warps
    requires first == t * g.dpt && first + g.dpt <= g.Width()
    requires Owned(leading, row, g.Width()) == row
    ensures
      var left := Countdown(t, g.dpt, row, g.Width());
      && left >= 0
      && (left < g.dpt ==> leading == first + (g.dpt - 1 - left))
      && (left >= g.dpt ==> !(first <= leading < first + g.dpt))
  {
    hide Owned, Geo.Width, Countdown;
    var left := Countdown(t, g.dpt, row, g.Width());
    CountdownRange(t, g.dpt, row, g.Width());
    if left < g.dpt {
      var i := g.dpt - 1 - left;
      CountdownNamesSlot(t, g.dpt, i, row, g.Width());
      OwnedInjective(first + i, leading, row, g.Width());
    } else if first <= leading < first + g.dpt {
      CountdownNamesSlot(t, g.dpt, leading - first, row, g.Width());
    }
  }
}
