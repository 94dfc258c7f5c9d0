/**
 The cross-warp hand-off of the cov-shuffle kernel as interleaved steps: each warp reads, publishes, arrives at
 the barrier and waits for it, once per row, with two slots per warp.
 */
module HandOff {
  import opened ShflRing
  import opened GpuBlock
  import ShflKernel

  /** Which of the two slots row `g` of the block reads and writes; tiles of `height` rows restart the parity. */
  function ReadSlot(g: nat, height: nat): nat
    requires height > 0
  {
    (g % height) % 2
  }

  function WriteSlot(g: nat, height: nat): nat
    requires height > 0
  {
    1 - (g % height) % 2
  }

  lemma {:induction false} SlotParity(g: nat, height: nat)
    requires height > 0 && height % 2 == 0
    ensures ReadSlot(g, height) == g % 2 && WriteSlot(g, height) == 1 - g % 2
  {
    var q, half := g / height, height / 2;
    assert g == q * height + g % height;
    assert q * height == 2 * (q * half);
  }

  /** The row after row `g` reads the slot that row `g` wrote. */
  predicate Agrees(g: nat, height: nat)
    requires height > 0
  {
    ReadSlot(g + 1, height) == WriteSlot(g, height)
  }

  lemma EvenHeightAgrees(g: nat, height: nat)
    requires height > 0 && height % 2 == 0
    ensures Agrees(g, height)
  {
    hide ReadSlot, WriteSlot;
    SlotParity(g, height);
    SlotParity(g + 1, height);
  }

  lemma RestOfSelf(n: nat)
    requires n > 0
    ensures n % n == 0 && (n - 1) % n == n - 1
  {
  }

  /** With an odd height the first row of a tile reads the slot that the last row before it did not write. */
  lemma OddTileClash(height: nat)
    requires height % 2 == 1
    ensures ReadSlot(height, height) == 0 && WriteSlot(height - 1, height) == 1 && !Agrees(height - 1, height)
  {
    RestOfSelf(height);
  }

  /** Every row reads the slot the row before wrote exactly when the tile height is even. */
  lemma HandOffNeedsEvenHeight(height: nat)
    requires height > 0
    ensures height % 2 == 0 <==> forall g: nat :: Agrees(g, height)
  {
    hide Agrees, ReadSlot, WriteSlot;
    if height % 2 == 0 {
      forall g: nat ensures Agrees(g, height) {
        EvenHeightAgrees(g, height);
      }
    } else {
      OddTileClash(height);
    }
  }

  datatype Pc = Reading | Publishing | Arriving | Waiting(token: nat)

  /** What a slot holds: nothing yet, or the value that a warp published in a row. */
  datatype Word = Nothing | Published(warp: nat, row: nat)

  /** A warp in row `row` of the block, counted across tiles, with the word it has read last. */
  datatype Warp = Warp(row: nat, pc: Pc, seen: Word)

  /** Two slots for every warp. The barrier counts completed phases. */
  datatype State = State(warps: seq<Warp>, slots: seq<seq<Word>>, phase: nat, arrived: seq<bool>)

  /** The warp whose slots warp `w` reads. */
  function Prev(w: nat, n: nat): nat
    requires n > 0
  {
    (w + n - 1) % n
  }

  /** That is the warp before it, and for warp 0 the last one. */
  lemma PrevIs(w: nat, n: nat)
    requires w < n
    ensures Prev(w, n) == if w > 0 then w - 1 else n - 1
  {
    if w > 0 {
      assert w + n - 1 == n + (w - 1);
    }
  }

  predicate Init(s: State, n: nat) {
    && |s.warps| == n && (forall w :: 0 <= w < n ==> s.warps[w] == Warp(0, Reading, Nothing))
    && s.slots == [seq(n, _ => Nothing), seq(n, _ => Nothing)]
    && s.phase == 0 && s.arrived == seq(n, _ => false)
  }

  /** Every row but the first starts with what the warp before has published. */
  predicate Read(s: State, s': State, w: nat, height: nat)
    requires height > 0
  {
    && w < |s.warps| && s.warps[w].pc.Reading?
    && var v := s.warps[w];
       if v.row == 0 then s' == s.(warps := s.warps[w := v.(pc := Publishing)])
       else
         var slot, before := ReadSlot(v.row, height), Prev(w, |s.warps|);
         && slot < |s.slots| && before < |s.slots[slot]|
         && s' == s.(warps := s.warps[w := v.(pc := Publishing, seen := s.slots[slot][before])])
  }

  predicate Publish(s: State, s': State, w: nat, height: nat)
    requires height > 0
  {
    && w < |s.warps| && s.warps[w].pc.Publishing?
    && var slot := WriteSlot(s.warps[w].row, height);
       && slot < |s.slots| && w < |s.slots[slot]|
       && s' == s.(slots := s.slots[slot := s.slots[slot][w := Published(w, s.warps[w].row)]],
                   warps := s.warps[w := s.warps[w].(pc := Arriving)])
  }

  /** The last warp to arrive completes the phase. */
  predicate Arrive(s: State, s': State, w: nat) {
    && w < |s.warps| == |s.arrived| && s.warps[w].pc.Arriving?
    && var arrived := s.arrived[w := true];
       var warps := s.warps[w := s.warps[w].(pc := Waiting(s.phase))];
       if forall u :: 0 <= u < |arrived| ==> arrived[u] then
         s' == s.(warps := warps, phase := s.phase + 1, arrived := seq(|arrived|, _ => false))
       else s' == s.(warps := warps, arrived := arrived)
  }

  predicate Wait(s: State, s': State, w: nat) {
    && w < |s.warps| && s.warps[w].pc.Waiting? && s.phase > s.warps[w].pc.token
    && s' == s.(warps := s.warps[w := s.warps[w].(row := s.warps[w].row + 1, pc := Reading)])
  }

  ghost predicate WarpStep(s: State, s': State, w: nat, height: nat)
    requires height > 0
  {
    Read(s, s', w, height) || Publish(s, s', w, height) || Arrive(s, s', w) || Wait(s, s', w)
  }

  ghost predicate Step(s: State, s': State, height: nat)
    requires height > 0
  {
    exists w: nat :: WarpStep(s, s', w, height)
  }

  ghost predicate Run(run: seq<State>, n: nat, height: nat)
    requires height > 0
  {
    |run| > 0 && Init(run[0], n) && forall i :: 0 <= i < |run| - 1 ==> Step(run[i], run[i + 1], height)
  }

  /** How many rows a warp has published. */
  function PublishedRows(w: Warp): nat {
    if w.pc.Reading? || w.pc.Publishing? then w.row else w.row + 1
  }

  /** A warp is in the current phase, or waits with the phase just completed; its two slots hold its last two rows. */
  ghost predicate WarpOk(s: State, w: nat, height: nat)
    requires height > 0 && w < |s.warps| == |s.arrived| && |s.slots| == 2 && |s.slots[0]| == |s.slots[1]| == |s.warps|
  {
    var v := s.warps[w];
    && (match v.pc
        case Waiting(token) => token == v.row && (if s.arrived[w] then v.row == s.phase else v.row + 1 == s.phase)
        case _ => v.row == s.phase && !s.arrived[w])
    && SlotsHold(s, w, PublishedRows(v)) && SeenOk(v, w, |s.warps|)
  }

  /** The last row whose read is done. */
  function ReadRows(v: Warp): int {
    if v.pc.Reading? then v.row - 1 else v.row
  }

  /** A warp that has read in row `g` has seen the value of its predecessor's row `g - 1`. */
  ghost predicate SeenOk(v: Warp, w: nat, n: nat)
    requires n > 0
  {
    ReadRows(v) > 0 ==> v.seen == Published(Prev(w, n), ReadRows(v) - 1)
  }

  /** After `published` rows one slot of warp `w` holds the last row and the other the one before it. */
  ghost predicate SlotsHold(s: State, w: nat, published: nat)
    requires |s.slots| == 2 && w < |s.slots[0]| == |s.slots[1]|
  {
    && s.slots[published % 2][w] == (if published >= 1 then Published(w, published - 1) else Nothing)
    && s.slots[1 - published % 2][w] == if published >= 2 then Published(w, published - 2) else Nothing
  }

  ghost predicate Inv(s: State, n: nat, height: nat)
    requires height > 0
  {
    && n > 0 && |s.warps| == |s.arrived| == n && |s.slots| == 2 && |s.slots[0]| == |s.slots[1]| == n
    && (exists w :: 0 <= w < n && !s.arrived[w])
    && forall w: nat :: w < n ==> WarpOk(s, w, height)
  }

  /** Before a read the predecessor has published the row before, and its slot still holds that. */
  lemma SlotIsReady(s: State, w: nat, n: nat, height: nat)
    requires height > 0 && height % 2 == 0 && Inv(s, n, height) && w < n && s.warps[w].pc.Reading? && s.warps[w].row > 0
    ensures
      var slot, before := ReadSlot(s.warps[w].row, height), Prev(w, n);
      && slot < 2 && before < n && s.slots[slot][before] == Published(before, s.warps[w].row - 1)
  {
    SlotParity(s.warps[w].row, height);
    PrevIs(w, n);
    hide ReadSlot, WriteSlot, Prev;
    assert WarpOk(s, w, height) && WarpOk(s, Prev(w, n), height);
  }

  lemma ReadKeepsInv(s: State, s': State, w: nat, n: nat, height: nat)
    requires height > 0 && height % 2 == 0 && Inv(s, n, height) && Read(s, s', w, height)
    ensures Inv(s', n, height)
  {
    if s.warps[w].row > 0 {
      SlotIsReady(s, w, n, height);
    }
    hide ReadSlot, WriteSlot, SlotsHold, Prev;
    forall u: nat | u < n ensures WarpOk(s', u, height) {
      assert WarpOk(s, u, height);
      SlotsOnlyMatter(s, s', u, PublishedRows(s.warps[u]));
    }
  }

  lemma SlotsOnlyMatter(s: State, s': State, w: nat, published: nat)
    requires |s.slots| == 2 && w < |s.slots[0]| == |s.slots[1]| && |s'.slots| == 2 && w < |s'.slots[0]| == |s'.slots[1]|
    requires s.slots[0][w] == s'.slots[0][w] && s.slots[1][w] == s'.slots[1][w]
    ensures SlotsHold(s, w, published) == SlotsHold(s', w, published)
  {
  }

  lemma PublishKeepsInv(s: State, s': State, w: nat, n: nat, height: nat)
    requires height > 0 && height % 2 == 0 && Inv(s, n, height) && Publish(s, s', w, height)
    ensures Inv(s', n, height)
  {
    SlotParity(s.warps[w].row, height);
    hide ReadSlot, WriteSlot;
    assert WarpOk(s, w, height);
    assert SlotsHold(s', w, s.warps[w].row + 1);
    hide SlotsHold;
    forall u: nat | u < n ensures WarpOk(s', u, height) {
      assert WarpOk(s, u, height);
      if u != w {
        SlotsOnlyMatter(s, s', u, PublishedRows(s.warps[u]));
      }
    }
  }

  lemma ArriveKeepsInv(s: State, s': State, w: nat, n: nat, height: nat)
    requires height > 0 && Inv(s, n, height) && Arrive(s, s', w)
    ensures Inv(s', n, height)
  {
    hide ReadSlot, WriteSlot, SlotsHold;
    assert WarpOk(s, w, height);
    if s'.phase == s.phase {
      var u :| 0 <= u < n && !s.arrived[w := true][u];
      assert !s'.arrived[u];
    } else {
      assert !s'.arrived[0];
      var arrived := s.arrived[w := true];
      assert forall u :: 0 <= u < n ==> arrived[u];
    }
    forall u: nat | u < n ensures WarpOk(s', u, height) {
      assert WarpOk(s, u, height);
      SlotsOnlyMatter(s, s', u, PublishedRows(s.warps[u]));
      assert u != w ==> s.arrived[w := true][u] == s.arrived[u];
    }
  }

  lemma WaitKeepsInv(s: State, s': State, w: nat, n: nat, height: nat)
    requires height > 0 && Inv(s, n, height) && Wait(s, s', w)
    ensures Inv(s', n, height)
  {
    hide ReadSlot, WriteSlot, SlotsHold;
    assert WarpOk(s, w, height);
    forall u: nat | u < n ensures WarpOk(s', u, height) {
      assert WarpOk(s, u, height);
      SlotsOnlyMatter(s, s', u, PublishedRows(s.warps[u]));
    }
  }

  /** Every step of every warp keeps the invariant. */
  lemma StepKeepsInv(s: State, s': State, n: nat, height: nat)
    requires height > 0 && height % 2 == 0 && Inv(s, n, height) && Step(s, s', height)
    ensures Inv(s', n, height)
  {
    hide Inv, Read, Publish, Arrive, Wait;
    var w: nat :| WarpStep(s, s', w, height);
    if Read(s, s', w, height) {
      ReadKeepsInv(s, s', w, n, height);
    } else if Publish(s, s', w, height) {
      PublishKeepsInv(s, s', w, n, height);
    } else if Arrive(s, s', w) {
      ArriveKeepsInv(s, s', w, n, height);
    } else {
      WaitKeepsInv(s, s', w, n, height);
    }
  }

  lemma {:induction false} RunKeepsInv(run: seq<State>, n: nat, height: nat, i: nat)
    requires n > 0 && height > 0 && height % 2 == 0 && Run(run, n, height) && i < |run|
    ensures Inv(run[i], n, height)
  {
    hide Step;
    if i == 0 {
      assert !run[0].arrived[0];
    } else {
      RunKeepsInv(run, n, height, i - 1);
      assert Step(run[i - 1], run[i - 1 + 1], height);
      StepKeepsInv(run[i - 1], run[i], n, height);
    }
  }

  /** Whatever the interleaving, a warp that has read in a row after the first has seen what warp `w - 1`, and in the
      case of warp 0 the last warp, published in the row before. */
  lemma ReadsPredecessor(run: seq<State>, n: nat, height: nat, i: nat, w: nat)
    requires n > 0 && height > 0 && height % 2 == 0 && Run(run, n, height) && i < |run| && w < n
    ensures w < |run[i].warps|
    ensures
      var v := run[i].warps[w];
      v.row > 0 && !v.pc.Reading? ==> v.seen == Published(if w > 0 then w - 1 else n - 1, v.row - 1)
  {
    RunKeepsInv(run, n, height, i);
    assert WarpOk(run[i], w, height);
    PrevIs(w, n);
  }

  /** And what it is about to read is already there. */
  lemma PublishedInTime(run: seq<State>, n: nat, height: nat, i: nat, w: nat)
    requires n > 0 && height > 0 && height % 2 == 0 && Run(run, n, height) && i < |run| && w < n
    requires w < |run[i].warps| && run[i].warps[w].pc.Reading? && run[i].warps[w].row > 0
    ensures
      var s := run[i];
      var slot, before := s.warps[w].row % 2, if w > 0 then w - 1 else n - 1;
      && slot < |s.slots| && before < |s.slots[slot]| && s.slots[slot][before] == Published(before, s.warps[w].row - 1)
  {
    RunKeepsInv(run, n, height, i);
    SlotParity(run[i].warps[w].row, height);
    SlotIsReady(run[i], w, n, height);
    PrevIs(w, n);
  }

  /** A warp only overwrites a slot when the warp after it, around the ring, has already read that value or a later one
      of the same warp. */
  lemma NothingUnreadIsOverwritten(run: seq<State>, n: nat, height: nat, i: nat, w: nat)
    requires n > 0 && height > 0 && height % 2 == 0 && Run(run, n, height) && i < |run|
    requires w < n && w < |run[i].warps| && run[i].warps[w].pc.Publishing?
    ensures
      var s := run[i];
      var slot, after := 1 - s.warps[w].row % 2, if w + 1 < n then w + 1 else 0;
      && slot < |s.slots| && w < |s.slots[slot]| && after < |s.warps|
      && (s.slots[slot][w].Published? ==>
            var seen := s.warps[after].seen; seen.Published? && seen.warp == w && seen.row >= s.slots[slot][w].row)
  {
    RunKeepsInv(run, n, height, i);
    var s := run[i];
    var after := if w + 1 < n then w + 1 else 0;
    assert WarpOk(s, w, height) && WarpOk(s, after, height);
    PrevIs(after, n);
  }

  // ---------- The values ----------

  /** The covariance that a word stands for: that of the warp's last slot after its row's update. */
  ghost function Value(g: Geo, covs: nat -> seq<real>, word: Word): real
    requires g.Valid() && word.Published? && word.warp < g.warps && |covs(word.row)| == g.Width()
  {
    LastSlotOfWarp(g, word.warp);
    covs(word.row)[word.warp * g.Span() + g.Span() - 1]
  }

  /** What lane 0 of a warp gets is the covariance of the slot before its own, around the ring. And it is what the rows
      of the block hand over when they are taken one after the other: row `r` of a tile publishes it for row `r + 1`. */
  lemma ReadsIncoming(run: seq<State>, g: Geo, i: nat, w: nat, covs: nat -> seq<real>, handoff: seq<real>, r: nat)
    requires g.Valid() && g.height % 2 == 0 && Run(run, g.warps, g.height) && i < |run| && w < g.warps
    requires (forall row: nat :: |covs(row)| == g.Width()) && |handoff| == 2 * g.warps
    requires w < |run[i].warps| && !run[i].warps[w].pc.Reading? && run[i].warps[w].row > 0
    ensures 0 <= w * g.Span() < g.Width() && g.Span() > 0
    ensures
      var seen, row := run[i].warps[w].seen, run[i].warps[w].row;
      var first := w * g.Span();
      && seen.Published? && seen.warp < g.warps && seen.row == row - 1
      && Value(g, covs, seen) == covs(row - 1)[if w == 0 then g.Width() - 1 else first - 1]
      && Value(g, covs, seen)
         == ShflKernel.Incoming(g, covs(row - 1), ShflKernel.Published(g, covs(row - 1), handoff, r), r + 1, row, first)
  {
    ReadsPredecessor(run, g.warps, g.height, i, w);
    var seen, first := run[i].warps[w].seen, w * g.Span();
    hide Run, Quot, Rem, Geo.Span, Geo.Width, ReadSlot, WriteSlot;
    WidthIs(g);
    LastSlotOfWarp(g, w);
    LastSlotOfWarp(g, seen.warp);
    QuotRemUnique(first, g.Span(), w, 0);
    ShflKernel.PreviousOfWarpStart(g, first);
    ShflKernel.NextParity(r);
    SameWarp(g.Span(), seen.warp, ShflKernel.PrevWarp(g, w), if w == 0 then g.Width() - 1 else first - 1);
  }

  /** The warp of a warp's last slot. */
  lemma SameWarp(span: nat, warp: nat, warp': nat, last: int)
    requires span > 0 && warp * span + span - 1 == last == warp' * span + span - 1
    ensures warp == warp'
  {
  }
}
