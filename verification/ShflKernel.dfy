/**
 The cov-shuffle kernel: one thread block walks a band of diagonals. Covariances move one register slot per
 row through the threads, columns stay with their slot and are handed over one slot per row.
 */
module ShflKernel {
  import opened Profiles
  import opened Kernel
  import opened ShflRing
  import opened GpuBlock

  /** The registers of all threads of the block, slot by slot; the countdown is per thread. */
  datatype State = State(
    cov: seq<real>, dfc: seq<real>, dgc: seq<real>, inormc: seq<Norm>, distc: seq<Entry>,
    globalCol: seq<int>, localCol: seq<int>, updatesRemaining: seq<int>)

  datatype Smem = Smem(
    dfRow: seq<real>, dgRow: seq<real>, inormRow: seq<Norm>,
    localMpCol: seq<Entry>, localMpRow: seq<Entry>, handoff: seq<real>)

  ghost predicate Shaped(g: Geo, st: State, sm: Smem) {
    && |st.cov| == |st.dfc| == |st.dgc| == |st.inormc| == |st.distc| == |st.globalCol| == |st.localCol| == g.Width()
    && |st.updatesRemaining| == 32 * g.warps
    && |sm.dfRow| == |sm.dgRow| == |sm.inormRow| == |sm.localMpRow| == g.height
    && |sm.localMpCol| == g.Width() + g.height && |sm.handoff| == 2 * g.warps
  }

  // ---------- The ring ----------

  /** A slot holds the data of the one column it owns. */
  ghost predicate SlotColumn(g: Geo, st: State, tileRow: nat, row: nat, p: nat)
    requires g.Valid() && g.Width() > 0 && p < g.Width()
    requires |st.dfc| == |st.dgc| == |st.inormc| == |st.globalCol| == |st.localCol| == g.Width()
  {
    && st.globalCol[p] == g.Col(p, row) >= 0
    && st.localCol[p] == st.globalCol[p] - g.startCol - tileRow
    && st.dfc[p] == g.ColReal(g.a.dfa, st.globalCol[p])
    && st.dgc[p] == g.ColReal(g.a.dga, st.globalCol[p])
    && st.inormc[p] == g.ColNorm(st.globalCol[p])
  }

  /** Every slot holds the data of the one column it owns, and every countdown is in step. */
  ghost predicate Columns(g: Geo, st: State, tileRow: nat, row: nat)
    requires g.Valid() && g.Width() > 0
    requires |st.dfc| == |st.dgc| == |st.inormc| == |st.globalCol| == |st.localCol| == g.Width()
    requires |st.updatesRemaining| == 32 * g.warps
  {
    && (forall p: nat :: p < g.Width() ==> SlotColumn(g, st, tileRow, row, p))
    && (forall t :: 0 <= t < 32 * g.warps ==> st.updatesRemaining[t] == Countdown(t, g.dpt, row, g.Width()))
  }

  function PrevWarp(g: Geo, warp: nat): nat
    requires g.warps > 0
  {
    Rem(warp + g.warps - 1, g.warps)
  }

  /** Where the covariance of slot `p` is before row `row`: in its register, or in the hand-off buffer for the
      first slot of a warp. */
  ghost function Incoming(g: Geo, cov: seq<real>, handoff: seq<real>, r: nat, row: nat, p: nat): real
    requires g.Valid() && g.Width() > 0 && p < g.Width() == |cov| && |handoff| == 2 * g.warps
  {
    if Rem(p, g.Span()) == 0 && row > 0 then
      HandoffIndex(g, r % 2, PrevWarp(g, Quot(p, g.Span())));
      handoff[(r % 2) * g.warps + PrevWarp(g, Quot(p, g.Span()))]
    else cov[p]
  }

  lemma HandoffIndex(g: Geo, parity: nat, warp: nat)
    requires parity < 2 && warp < g.warps
    ensures 0 <= parity * g.warps + warp < 2 * g.warps
  {
  }

  /** The value a slot must have in row `row`, wherever the column exists. */
  ghost predicate IsCov(g: Geo, row: nat, p: int, value: real)
    requires g.Valid() && g.Width() > 0
  {
    row <= g.a.ny && row <= g.Col(p, row) < g.a.nx ==> value == g.a.Cov(row, g.Col(p, row))
  }

  ghost predicate CovPending(g: Geo, cov: seq<real>, handoff: seq<real>, r: nat, row: nat)
    requires g.Valid() && g.Width() > 0 && g.Width() == |cov| && |handoff| == 2 * g.warps
  {
    forall p: nat :: p < g.Width() ==> IsCov(g, row, p, Incoming(g, cov, handoff, r, row, p))
  }

  ghost predicate CovReady(g: Geo, cov: seq<real>, row: nat)
    requires g.Valid() && g.Width() > 0 && g.Width() == |cov|
  {
    forall p :: 0 <= p < g.Width() ==> IsCov(g, row, p, cov[p])
  }

  /** Lane 0 of every warp takes what the warp before it published. */
  function FixedUp(g: Geo, cov: seq<real>, handoff: seq<real>, r: nat, row: nat): (c: seq<real>)
    requires g.dpt > 0 && g.warps > 0 && |cov| == g.Width() && |handoff| == 2 * g.warps
    ensures |c| == g.Width()
  {
    seq(g.Width(), p requires 0 <= p < g.Width() =>
      if Rem(p, g.Span()) == 0 && row > 0 then
        HandoffIndex(g, r % 2, PrevWarp(g, Quot(p, g.Span())));
        handoff[(r % 2) * g.warps + PrevWarp(g, Quot(p, g.Span()))]
      else cov[p])
  }

  lemma FixUpMakesReady(g: Geo, cov: seq<real>, handoff: seq<real>, r: nat, row: nat)
    requires g.Valid() && g.Width() > 0 && g.Width() == |cov| && |handoff| == 2 * g.warps
    requires CovPending(g, cov, handoff, r, row)
    ensures CovReady(g, FixedUp(g, cov, handoff, r, row), row)
  {
    forall p | 0 <= p < g.Width() ensures IsCov(g, row, p, FixedUp(g, cov, handoff, r, row)[p]) {
      assert IsCov(g, row, p, Incoming(g, cov, handoff, r, row, p));
    }
  }

  /** The covariance update of one row, in place. */
  function Advanced(st: State, dfr: real, dgr: real): (c: seq<real>)
    requires |st.cov| == |st.dfc| == |st.dgc|
    ensures |c| == |st.cov|
  {
    seq(|st.cov|, p requires 0 <= p < |st.cov| => st.cov[p] + st.dfc[p] * dgr + st.dgc[p] * dfr)
  }

  /** The update turns the covariance of a column into that of the next column in the next row. */
  lemma AdvanceSteps(g: Geo, st: State, tileRow: nat, row: nat, dfr: real, dgr: real, p: nat)
    requires g.Valid() && g.Width() > 0 && p < g.Width()
    requires |st.cov| == |st.dfc| == |st.dgc| == |st.inormc| == |st.globalCol| == |st.localCol| == g.Width()
    requires |st.updatesRemaining| == 32 * g.warps
    requires Columns(g, st, tileRow, row) && CovReady(g, st.cov, row)
    requires row < g.a.ny ==> dfr == g.a.dfb[row] && dgr == g.a.dgb[row]
    ensures row < g.a.ny && row <= g.Col(p, row) && g.Col(p, row) + 1 < g.a.nx ==>
      Advanced(st, dfr, dgr)[p] == g.a.Cov(row + 1, g.Col(p, row) + 1)
  {
    hide Owned, Geo.Width, Geo.ColNorm;
    assert IsCov(g, row, p, st.cov[p]) && SlotColumn(g, st, tileRow, row, p);
  }

  // ---------- The shuffle ----------

  function Shuffled(g: Geo, cov: seq<real>): (c: seq<real>)
    requires g.dpt > 0 && |cov| == g.Width()
    requires forall p: nat :: p < g.Width() ==> 0 <= ShuffleSource(p, g.dpt) < g.Width()
    ensures |c| == g.Width()
  {
    seq(g.Width(), p requires 0 <= p < g.Width() => cov[ShuffleSource(p, g.dpt)])
  }

  /** Lane 31 of every warp publishes its last covariance for the next row. */
  function Published(g: Geo, cov: seq<real>, handoff: seq<real>, r: nat): (h: seq<real>)
    requires g.dpt > 0 && |cov| == g.Width() && |handoff| == 2 * g.warps
    ensures |h| == |handoff|
  {
    var writeSlot := 1 - r % 2;
    seq(2 * g.warps, k requires 0 <= k < 2 * g.warps =>
      if writeSlot * g.warps <= k < writeSlot * g.warps + g.warps then
        LastSlotOfWarp(g, k - writeSlot * g.warps);
        cov[(k - writeSlot * g.warps) * g.Span() + g.Span() - 1]
      else handoff[k])
  }

  /** The slot before a warp's first slot is the last slot of the warp before it, around the ring. */
  lemma PreviousOfWarpStart(g: Geo, p: nat)
    requires g.Valid() && p < g.Width() && Rem(p, g.Span()) == 0
    ensures
      var previous := PrevWarp(g, Quot(p, g.Span()));
      && previous < g.warps
      && previous * g.Span() + g.Span() - 1 == if p == 0 then g.Width() - 1 else p - 1
  {
    hide Quot, Rem;
    var span, warp := g.Span(), Quot(p, g.Span());
    QuotRem(p, span);
    WidthIs(g);
    MulLess(warp, g.warps, span);
    if warp == 0 {
      QuotRemUnique(g.warps - 1, g.warps, 0, g.warps - 1);
      assert (g.warps - 1) * span == g.Width() - span;
    } else {
      QuotRemUnique(warp + g.warps - 1, g.warps, 1, warp - 1);
      assert (warp - 1) * span == p - span;
    }
  }

  /** Covariances after one row: published, shuffled, and one slot further on. */
  lemma ShuffleKeepsCov(g: Geo, cov: seq<real>, handoff: seq<real>, r: nat, row: nat)
    requires g.Valid() && g.Width() > 0 && |cov| == g.Width() && |handoff| == 2 * g.warps
    requires forall p: nat :: p < g.Width() ==> 0 <= ShuffleSource(p, g.dpt) < g.Width()
    requires forall p: nat :: p < g.Width() ==>
      (row < g.a.ny && row <= g.Col(p, row) && g.Col(p, row) + 1 < g.a.nx ==>
        cov[p] == g.a.Cov(row + 1, g.Col(p, row) + 1))
    ensures CovPending(g, Shuffled(g, cov), Published(g, cov, handoff, r), r + 1, row + 1)
  {
    hide Owned, Geo.Width, Quot, Rem, ShuffleSource;
    var cov', handoff' := Shuffled(g, cov), Published(g, cov, handoff, r);
    forall p: nat {:trigger Incoming(g, cov', handoff', r + 1, row + 1, p)} | p < g.Width()
      ensures IsCov(g, row + 1, p, Incoming(g, cov', handoff', r + 1, row + 1, p))
    {
      var q := if p == 0 then g.Width() - 1 else p - 1;
      OwnedShift(p, row, g.Width());
      OwnedRange(q, row, g.Width());
      assert g.Col(p, row + 1) == g.Col(q, row) + 1;
      assert Incoming(g, cov', handoff', r + 1, row + 1, p) == cov[q] by {
        if Rem(p, g.Span()) == 0 {
          PreviousOfWarpStart(g, p);
          NextParity(r);
          HandoffIndex(g, (r + 1) % 2, PrevWarp(g, Quot(p, g.Span())));
        } else {
          WidthIs(g);
          ShuffleSourceIsPrevious(p, g.dpt, g.Span(), g.warps);
        }
      }
    }
  }

  lemma NextParity(r: nat)
    ensures (r + 1) % 2 == 1 - r % 2
  {
  }
}
