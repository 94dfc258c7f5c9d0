/**
 The ring of a cov-shuffle block: which column each register slot owns in each row, and which slot rotates.
 */
module ShflRing {

  /** Slot `p` of a ring of `w` slots owns, in row `r`, the one column offset in `[r, r + w)` congruent to `p`. */
  function Owned(p: int, r: int, w: int): int
    requires w > 0
  {
    r + (p - r) % w
  }

  lemma ModUnique(x: int, w: int, q: int, r: int)
    requires w > 0 && 0 <= r < w && x == q * w + r
    ensures x % w == r && x / w == q
  {
    var q', r' := x / w, x % w;
    PositiveMultiple(q - q', w);
    PositiveMultiple(q' - q, w);
    assert (q - q') * w == r' - r && (q' - q) * w == r - r';
  }

  lemma PositiveMultiple(k: int, w: int)
    requires w > 0
    ensures k >= 1 ==> k * w >= w
  {
  }

  /** Shifting by a multiple of the modulus changes nothing. */
  lemma ModShift(x: int, w: int, k: int)
    requires w > 0
    ensures (x + k * w) % w == x % w
  {
    var q, r := x / w, x % w;
    assert x + k * w == (q + k) * w + r by {
      assert (q + k) * w == q * w + k * w;
    }
    ModUnique(x + k * w, w, q + k, r);
  }

  lemma ModSmall(x: int, w: int)
    requires 0 <= x < w
    ensures x % w == x
  {
  }

  /** A residue goes down by one, or wraps. */
  lemma ModPredecessor(x: int, w: int)
    requires w > 0
    ensures (x - 1) % w == if x % w == 0 then w - 1 else x % w - 1
  {
    var q, r := x / w, x % w;
    if r == 0 {
      assert x - 1 == (q - 1) * w + (w - 1) by {
        assert (q - 1) * w == q * w - w;
      }
      ModUnique(x - 1, w, q - 1, w - 1);
    } else {
      ModUnique(x - 1, w, q, r - 1);
    }
  }

  lemma OwnedRange(p: int, r: int, w: int)
    requires w > 0 && 0 <= p < w
    ensures r <= Owned(p, r, w) < r + w && Owned(p, r, w) % w == p
  {
    var k := (p - r) / w;
    assert p - r == k * w + (p - r) % w;
    assert Owned(p, r, w) == p + (-k) * w by {
      assert (-k) * w == -(k * w);
    }
    ModShift(p, w, -k);
    ModSmall(p, w);
  }

  lemma OwnedUnique(p: int, r: int, w: int, c: int)
    requires w > 0 && 0 <= p < w && r <= c < r + w && c % w == p
    ensures c == Owned(p, r, w)
  {
    var k := c / w;
    assert p - r == (c - r) + (-k) * w by {
      assert (-k) * w == -(k * w);
    }
    ModShift(c - r, w, -k);
    ModSmall(c - r, w);
  }

  /** In row `r` only the slot congruent to `r` is at the left edge, and it is the one that moves on. */
  lemma OwnedNext(p: int, r: int, w: int)
    requires w > 0 && 0 <= p < w && r >= 0
    ensures Owned(p, r + 1, w) == if Owned(p, r, w) == r then Owned(p, r, w) + w else Owned(p, r, w)
    ensures Owned(p, r, w) == r <==> p == r % w
  {
    ModPredecessor(p - r, w);
    assert p - (r + 1) == (p - r) - 1;
    OwnedRange(p, r, w);
    if p == r % w {
      OwnedUnique(p, r, w, r);
    }
  }

  /** Moving one slot on and one row down moves one column on. */
  lemma OwnedShift(p: int, r: int, w: int)
    requires w > 0 && 0 <= p < w
    ensures Owned(p, r + 1, w) == Owned(if p == 0 then w - 1 else p - 1, r, w) + 1
  {
    if p == 0 {
      assert (w - 1 - r) == (0 - (r + 1)) + 1 * w;
      ModShift(0 - (r + 1), w, 1);
    }
  }

  /** At most one slot owns a column. */
  lemma OwnedInjective(p: int, q: int, r: int, w: int)
    requires w > 0 && 0 <= p < w && 0 <= q < w && Owned(p, r, w) == Owned(q, r, w)
    ensures p == q
  {
    OwnedRange(p, r, w);
    OwnedRange(q, r, w);
  }

  // ---------- The staggered countdown ----------

  /** What a thread's rotation countdown reads before row `r`. */
  function Countdown(t: nat, dpt: nat, r: int, w: int): int
    requires w > 0
  {
    (t * dpt + dpt - 1 - r) % w
  }

  /** The countdown is below `dpt` exactly when one of the thread's slots is at the left edge, and names it. */
  lemma CountdownNamesSlot(t: nat, dpt: nat, i: nat, r: nat, w: int)
    requires i < dpt <= w && t * dpt + i < w
    ensures Countdown(t, dpt, r, w) == dpt - 1 - i <==> Owned(t * dpt + i, r, w) == r
  {
    var p, x := t * dpt + i, t * dpt + dpt - 1 - r;
    assert x == (p - r) + (dpt - 1 - i);
    var k := (p - r) / w;
    if (p - r) % w == 0 {
      ModUnique(x, w, k, dpt - 1 - i);
    }
    if x % w == dpt - 1 - i {
      ModUnique(p - r, w, x / w, 0);
    }
  }

  lemma CountdownRange(t: nat, dpt: nat, r: nat, w: int)
    requires w > 0
    ensures 0 <= Countdown(t, dpt, r, w) < w
  {
  }

  lemma CountdownStart(t: nat, dpt: nat, w: int)
    requires dpt > 0 && t * dpt + dpt <= w
    ensures Countdown(t, dpt, 0, w) == t * dpt + dpt - 1
  {
    ModSmall(t * dpt + dpt - 1, w);
  }

  /** The countdown's own step: down by one, or back to the size of the ring less one after reading zero. */
  lemma CountdownStep(t: nat, dpt: nat, r: int, w: int)
    requires w > 0
    ensures Countdown(t, dpt, r + 1, w) == (if Countdown(t, dpt, r, w) == 0 then w else Countdown(t, dpt, r, w)) - 1
  {
    ModPredecessor(t * dpt + dpt - 1 - r, w);
    assert t * dpt + dpt - 1 - (r + 1) == (t * dpt + dpt - 1 - r) - 1;
  }

  // ---------- Threads, lanes and warps ----------

  /** Quotient and remainder by a size that is not a literal. */
  function Quot(p: nat, d: nat): nat
    requires d > 0
  {
    p / d
  }

  function Rem(p: nat, d: nat): nat
    requires d > 0
  {
    p % d
  }

  lemma QuotRem(p: nat, d: nat)
    requires d > 0
    ensures p == Quot(p, d) * d + Rem(p, d) && Rem(p, d) < d
  {
  }

  lemma QuotRemUnique(p: nat, d: nat, q: nat, r: nat)
    requires r < d && p == q * d + r
    ensures Quot(p, d) == q && Rem(p, d) == r
  {
    ModUnique(p, d, q, r);
  }

  lemma MulLess(q: int, n: int, s: int)
    requires s > 0 && q * s < n * s
    ensures q < n
  {
    PositiveMultiple(q - n, s);
    assert (q - n) * s == q * s - n * s;
  }

  /** A slot belongs to exactly one thread. */
  lemma SlotOfThread(p: nat, dpt: nat, threads: nat)
    requires dpt > 0 && p < threads * dpt
    ensures Quot(p, dpt) < threads && Quot(p, dpt) * dpt <= p < Quot(p, dpt) * dpt + dpt
  {
    hide Quot, Rem;
    QuotRem(p, dpt);
    MulLess(Quot(p, dpt), threads, dpt);
  }

  lemma ThreadSlots(t: nat, dpt: nat, threads: nat)
    requires t < threads
    ensures t * dpt + dpt <= threads * dpt
  {
    assert (t + 1) * dpt <= threads * dpt;
  }

  lemma ThreadInWarp(thread: int, warp: int, lane: int, dpt: int, span: int)
    requires thread == warp * 32 + lane && span == 32 * dpt
    ensures thread * dpt == warp * span + lane * dpt
  {
    assert thread * dpt == warp * 32 * dpt + lane * dpt;
    assert warp * 32 * dpt == warp * (32 * dpt);
  }

  /** Slot, thread, lane and warp: `span` slots make up a warp of 32 threads with `dpt` slots each. */
  lemma SlotCoordinates(p: nat, dpt: nat, span: nat, warps: nat)
    requires dpt > 0 && span == 32 * dpt && p < warps * span
    ensures
      var thread := Quot(p, dpt);
      var warp, lane := thread / 32, thread % 32;
      && Quot(p, span) == warp < warps && Rem(p, span) == lane * dpt + Rem(p, dpt)
      && p == warp * span + lane * dpt + Rem(p, dpt)
  {
    hide Quot, Rem;
    QuotRem(p, dpt);
    var thread := Quot(p, dpt);
    var warp, lane := thread / 32, thread % 32;
    ThreadInWarp(thread, warp, lane, dpt, span);
    ThreadSlots(lane, dpt, 32);
    QuotRemUnique(p, span, warp, lane * dpt + Rem(p, dpt));
    MulLess(warp, warps, span);
  }

  /** The slot a covariance comes from: the one before it in the thread, or the last slot of the thread that the
      warp shuffle names. */
  function ShuffleSource(p: nat, dpt: nat): int
    requires dpt > 0
  {
    if Rem(p, dpt) > 0 then p - 1 else ShuffledSlot(Quot(p, dpt), dpt)
  }

  function ShuffledSlot(thread: nat, dpt: nat): int {
    var source := (thread / 32) * 32 + (thread % 32 + 31) % 32;
    source * dpt + dpt - 1
  }

  /** It is the slot before, except for lane 0, which wraps to its own warp's last slot. */
  lemma ShuffleSourceIsPrevious(p: nat, dpt: nat, span: nat, warps: nat)
    requires dpt > 0 && span == 32 * dpt && p < warps * span
    ensures 0 <= ShuffleSource(p, dpt) < warps * span
    ensures Rem(p, span) != 0 ==> ShuffleSource(p, dpt) == p - 1
  {
    hide Quot, Rem, ShuffledSlot;
    SlotCoordinates(p, dpt, span, warps);
    ThreadSlots(Quot(p, span), span, warps);
    if Rem(p, dpt) == 0 {
      ShuffledSlotIs(p, Quot(p, dpt), dpt, span, Quot(p, span), Quot(p, dpt) % 32);
    } else {
      RemPositive(p, dpt);
    }
  }

  lemma RemPositive(p: nat, d: nat)
    requires d > 0 && Rem(p, d) > 0
    ensures p > 0
  {
  }

  lemma ShuffledSlotIs(p: nat, thread: nat, dpt: nat, span: nat, warp: nat, lane: nat)
    requires dpt > 0 && span == 32 * dpt && lane < 32 && thread == warp * 32 + lane && p == warp * span + lane * dpt
    ensures lane > 0 ==> ShuffledSlot(thread, dpt) == p - 1 >= 0
    ensures lane == 0 ==> ShuffledSlot(thread, dpt) == p + span - 1
  {
    var from := if lane > 0 then lane - 1 else 31;
    LaneBefore(thread, warp, lane);
    ThreadInWarp(warp * 32 + from, warp, from, dpt, span);
    if lane > 0 {
      LaneTimes(lane, dpt);
    }
  }

  lemma LaneBefore(thread: nat, warp: nat, lane: nat)
    requires lane < 32 && thread == warp * 32 + lane
    ensures (thread / 32) * 32 + (thread % 32 + 31) % 32 == warp * 32 + if lane > 0 then lane - 1 else 31
  {
    assert thread / 32 == warp && thread % 32 == lane;
  }

  lemma LaneTimes(lane: nat, dpt: nat)
    requires lane > 0
    ensures (lane - 1) * dpt == lane * dpt - dpt && lane * dpt >= dpt
  {
    assert (lane - 1) * dpt >= 0;
  }
}
