/**
 The CPU kernel: blocks of `unrollWid` diagonals are walked row by row, with a full-width path while the
 block fits and a clipped path near the edges.
 */
module CpuKernel {
  import opened Arithmetic
  import opened Profiles
  import opened Kernel

  // ---------- Reducing one row ----------

  /** The sum of the entries above the threshold, among the first `n`. */
  function SelectedPrefix(corr: seq<real>, threshold: real, n: nat): real
    requires n <= |corr|
  {
    if n == 0 then 0.0
    else SelectedPrefix(corr, threshold, n - 1) + Selected(threshold, Corr(corr[n - 1]))
  }

  /** Each value paired with its position. */
  function Indexed(corr: seq<real>): (d: seq<Entry>)
    ensures |d| == |corr|
    ensures forall i :: 0 <= i < |corr| ==> d[i] == Entry(corr[i], i)
  {
    seq(|corr|, i requires 0 <= i < |corr| => Entry(corr[i], i))
  }

  /** The first entries of the two arrays of the reduction, as pairs. */
  ghost predicate Holds(corr: array<real>, corrIdx: array<int>, d: seq<Entry>)
    reads corr, corrIdx
  {
    |d| <= corr.Length == corrIdx.Length && forall i :: 0 <= i < |d| ==> d[i] == Entry(corr[i], corrIdx[i])
  }

  /** The maximum of the halves is the maximum of the whole. */
  lemma HalfMaximum(d: seq<Entry>, half: seq<Entry>, l: nat, k: nat)
    requires |d| == 2 * |half| && l < |half| && k == if d[l + |half|].value > d[l].value then l + |half| else l
    requires forall i: nat :: i < |half| ==> half[i] == Combine(Nearest, d[i], d[i + |half|])
    requires forall i: nat :: i < |half| ==> half[i].value <= half[l].value
    ensures d[k] == half[l] && forall i :: 0 <= i < |d| ==> d[i].value <= d[k].value
  {
    assert half[l] == Combine(Nearest, d[l], d[l + |half|]);
    forall i | 0 <= i < |d| ensures d[i].value <= d[k].value {
      var j := if i < |half| then i else i - |half|;
      assert half[j] == Combine(Nearest, d[j], d[j + |half|]);
    }
  }

  lemma HalvingStep(d: seq<Entry>)
    requires PowerOfTwo(|d|)
    ensures |d| == 1 ==> TreeReduce(Nearest, d) == d[0]
    ensures |d| != 1 ==> |d| % 2 == 0 && PowerOfTwo(|d| / 2)
    ensures |d| != 1 ==> TreeReduce(Nearest, d) == TreeReduce(Nearest, Halve(Nearest, d))
  {
  }

  /** A maximum by halving is an element, and none is larger. */
  lemma {:induction false} TreeReduceIsMax(d: seq<Entry>) returns (k: nat)
    requires PowerOfTwo(|d|)
    ensures k < |d| && d[k] == TreeReduce(Nearest, d)
    ensures forall i :: 0 <= i < |d| ==> d[i].value <= d[k].value
    decreases |d|
  {
    hide Halve, TreeReduce, PowerOfTwo, Combine;
    HalvingStep(d);
    if |d| == 1 {
      k := 0;
    } else {
      var half := Halve(Nearest, d);
      var l := TreeReduceIsMax(half);
      k := if d[l + |half|].value > d[l].value then l + |half| else l;
      HalfMaximum(d, half, l, k);
    }
  }

  /** The halving reduction in place: the first element becomes the maximum, the result says where it was. */
  method ReduceRowFast(corr: array<real>) returns (index: int)
    requires corr.Length >= 2 && PowerOfTwo(corr.Length)
    modifies corr
    ensures 0 <= index < corr.Length && corr[0] == old(corr[..])[index]
    ensures forall k :: 0 <= k < corr.Length ==> old(corr[..])[k] <= corr[0]
  {
    ghost var was := Indexed(corr[..]);
    var corrIdx := new int[corr.Length];
    FirstHalving(corr, corrIdx, corr.Length / 2);
    hide Halve;
    ghost var d := Halve(Nearest, was);
    var offset := corr.Length / 4;
    while offset > 0
      invariant PowerOfTwo(|d|) && offset == |d| / 2
      invariant Holds(corr, corrIdx, d) && TreeReduce(Nearest, d) == TreeReduce(Nearest, was)
    {
      HorizontalReduction(corr, corrIdx, offset, d);
      d := Halve(Nearest, d);
      offset := offset / 2;
    }
    index := corrIdx[0];
    ghost var k := TreeReduceIsMax(was);
  }

  /** The first halving also sets up the positions. */
  method FirstHalving(corr: array<real>, corrIdx: array<int>, half: nat)
    requires corr.Length == corrIdx.Length == 2 * half
    modifies corr, corrIdx
    ensures Holds(corr, corrIdx, Halve(Nearest, Indexed(old(corr[..]))))
  {
    ghost var was := Indexed(corr[..]);
    for i := 0 to half
      invariant forall k :: 0 <= k < i ==> Entry(corr[k], corrIdx[k]) == Combine(Nearest, was[k], was[k + half])
      invariant forall k :: i <= k < corr.Length ==> corr[k] == was[k].value
    {
      corrIdx[i] := if corr[i] >= corr[i + half] then i else i + half;
      corr[i] := if corr[i] >= corr[i + half] then corr[i] else corr[i + half];
    }
  }

  method HorizontalReduction(corr: array<real>, corrIdx: array<int>, offset: nat, ghost d: seq<Entry>)
    requires Holds(corr, corrIdx, d) && |d| == 2 * offset
    modifies corr, corrIdx
    ensures Holds(corr, corrIdx, Halve(Nearest, d))
  {
    for i := 0 to offset
      invariant forall k :: 0 <= k < i ==> Entry(corr[k], corrIdx[k]) == Combine(Nearest, d[k], d[k + offset])
      invariant forall k :: i <= k < |d| ==> Entry(corr[k], corrIdx[k]) == d[k]
    {
      corrIdx[i] := if corr[i] >= corr[i + offset] then corrIdx[i] else corrIdx[i + offset];
      corr[i] := if corr[i] >= corr[i + offset] then corr[i] else corr[i + offset];
    }
  }

  /** The array library's reductions, which the clipped path uses. */
  method MaxCoeff(corr: array<real>) returns (m: real, index: int)
    requires corr.Length > 0
    ensures 0 <= index < corr.Length && m == corr[index]
    ensures forall k :: 0 <= k < corr.Length ==> corr[k] <= m
  {
    m, index := corr[0], 0;
    for i := 1 to corr.Length
      invariant 0 <= index < corr.Length && m == corr[index]
      invariant forall k :: 0 <= k < i ==> corr[k] <= m
    {
      if corr[i] > m {
        m, index := corr[i], i;
      }
    }
  }

  method SelectedTotal(corr: array<real>, threshold: real) returns (sum: real)
    ensures sum == SelectedPrefix(corr[..], threshold, corr.Length)
  {
    sum := 0.0;
    for i := 0 to corr.Length
      invariant sum == SelectedPrefix(corr[..], threshold, i)
    {
      sum := sum + (if corr[i] > threshold then corr[i] else 0.0);
    }
  }

  method ReduceRow(kind: Kind, corr: array<real>, fast: bool) returns (index: int)
    requires corr.Length > 0 && (fast ==> corr.Length >= 2 && PowerOfTwo(corr.Length))
    modifies corr
    ensures kind.Nearest? ==> 0 <= index < corr.Length && corr[0] == old(corr[..])[index]
    ensures kind.Nearest? ==> forall k :: 0 <= k < corr.Length ==> old(corr[..])[k] <= corr[0]
    ensures kind.SumThresh? ==> index == 0 && corr[0] == SelectedPrefix(old(corr[..]), kind.threshold, corr.Length)
  {
    index := 0;
    if kind.SumThresh? {
      var sum := SelectedTotal(corr, kind.threshold);
      corr[0] := sum;
    } else if fast {
      index := ReduceRowFast(corr);
    } else {
      var m;
      m, index := MaxCoeff(corr);
      corr[0] := m;
    }
  }

  /** The profile update of one value. A sum compares the value with the threshold here. */
  function UpdateMp(kind: Kind, acc: Entry, corr: real, matchIndex: int): Entry {
    MergeCell(kind, acc, Corr(corr), matchIndex)
  }

  // ---------- Thresholding a row sum twice ----------

  /** The row update of the sum profile: the batch is thresholded element by element, then its sum again. */
  function RowSumUpdate(threshold: real, acc: real, batch: seq<real>): real {
    UpdateMp(SumThresh(threshold), Entry(acc, 0), SelectedPrefix(batch, threshold, |batch|), 0).value
  }

  lemma {:induction false} SelectedPrefixSign(batch: seq<real>, threshold: real, n: nat)
    requires n <= |batch| && threshold >= 0.0
    ensures SelectedPrefix(batch, threshold, n) == 0.0 || SelectedPrefix(batch, threshold, n) > threshold
  {
    if n > 0 {
      SelectedPrefixSign(batch, threshold, n - 1);
    }
  }

  lemma {:induction false} SelectedPrefixBound(batch: seq<real>, threshold: real, n: nat)
    requires n <= |batch| && forall k :: 0 <= k < n ==> batch[k] >= -1.0
    ensures SelectedPrefix(batch, threshold, n) >= -(n as real)
  {
    if n > 0 {
      SelectedPrefixBound(batch, threshold, n - 1);
    }
  }

  lemma {:induction false} SelectedPrefixOfEqual(batch: seq<real>, threshold: real, x: real, n: nat)
    requires n <= |batch| && x > threshold && forall k :: 0 <= k < n ==> batch[k] == x
    ensures SelectedPrefix(batch, threshold, n) == (n as real) * x
  {
    if n > 0 {
      SelectedPrefixOfEqual(batch, threshold, x, n - 1);
    }
  }

  /** A full batch of equal correlations whose sum is exactly a negative threshold: each is selected, the sum is
      dropped. */
  lemma NegativeThresholdDropsARow(threshold: real, unroll: nat) returns (batch: seq<real>)
    requires unroll >= 2 && -(unroll as real) <= threshold < 0.0
    ensures |batch| == unroll && forall k :: 0 <= k < unroll ==> -1.0 <= batch[k] <= 1.0 && batch[k] > threshold
    ensures SelectedPrefix(batch, threshold, unroll) == threshold != RowSumUpdate(threshold, 0.0, batch)
  {
    var x := threshold / unroll as real;
    assert x * unroll as real == threshold;
    assert x >= -1.0 && x > threshold by {
      EqualShare(threshold, unroll as real, x);
    }
    batch := seq(unroll, _ => x);
    SelectedPrefixOfEqual(batch, threshold, x, unroll);
  }

  lemma ScaledLess(x: real, y: real, n: real)
    requires x < y && n > 0.0
    ensures x * n < y * n
  {
  }

  lemma EqualShare(threshold: real, n: real, x: real)
    requires x * n == threshold && n >= 2.0 && -n <= threshold < 0.0
    ensures -1.0 <= x < 0.0 && x > threshold
  {
    if x < -1.0 {
      ScaledLess(x, -1.0, n);
    }
    if x > 0.0 {
      ScaledLess(0.0, x, n);
    }
    ScaledLess(x, 0.0, n - 1.0);
  }

  /** A batch of correlations as the kernel can form it. */
  ghost predicate IsBatch(batch: seq<real>, unroll: nat) {
    |batch| <= unroll && forall k :: 0 <= k < |batch| ==> -1.0 <= batch[k] <= 1.0
  }

  /** Thresholding a batch's sum again is harmless for every batch when the threshold is not negative, or so low
      that no batch can reach it, and in no other case. */
  lemma RowSumExactIff(threshold: real, unroll: nat)
    requires unroll >= 2
    ensures threshold >= 0.0 || threshold < -(unroll as real) <==>
      forall acc: real, batch: seq<real> :: IsBatch(batch, unroll) ==>
        RowSumUpdate(threshold, acc, batch) == acc + SelectedPrefix(batch, threshold, |batch|)
  {
    if threshold >= 0.0 || threshold < -(unroll as real) {
      forall acc: real, batch: seq<real> | IsBatch(batch, unroll)
        ensures RowSumUpdate(threshold, acc, batch) == acc + SelectedPrefix(batch, threshold, |batch|)
      {
        if threshold >= 0.0 {
          SelectedPrefixSign(batch, threshold, |batch|);
        } else {
          SelectedPrefixBound(batch, threshold, |batch|);
        }
      }
    } else {
      var batch := NegativeThresholdDropsARow(threshold, unroll);
      assert IsBatch(batch, unroll);
      assert RowSumUpdate(threshold, 0.0, batch) != 0.0 + SelectedPrefix(batch, threshold, |batch|);
    }
  }

  // ---------- What the second threshold does to a row ----------

  /** A batch whose sum is at or below the threshold is left out, so the row ends that much higher than it should. */
  ghost function BatchExcess(kind: Kind, f: seq<Dist>, lo: int, hi: int): real {
    match kind
    case Nearest => 0.0
    case SumThresh(t) =>
      var sum := SumBelow(f, Range(lo, hi), t, |f|);
      if sum > t then 0.0 else -sum
  }

  /** The same for a whole stretch `[lo, hi)` of a row, taken in batches of `unroll`. */
  ghost function RowExcess(kind: Kind, f: seq<Dist>, lo: int, hi: int, unroll: nat): real
    requires unroll > 0
    decreases hi - lo
  {
    if lo >= hi then 0.0
    else BatchExcess(kind, f, lo, Min(lo + unroll, hi)) + RowExcess(kind, f, lo + unroll, hi, unroll)
  }

  /** No batch of the stretch has a sum that the second threshold drops. */
  ghost predicate NoBatchDropped(kind: Kind, f: seq<Dist>, lo: int, hi: int, unroll: nat)
    requires unroll > 0
    decreases hi - lo
  {
    lo < hi ==>
      && BatchExcess(kind, f, lo, Min(lo + unroll, hi)) == 0.0
      && NoBatchDropped(kind, f, lo + unroll, hi, unroll)
  }

  lemma {:induction false} SumBelowSign(f: seq<Dist>, cells: set<int>, threshold: real, n: nat)
    requires n <= |f| && threshold >= 0.0
    ensures SumBelow(f, cells, threshold, n) == 0.0 || SumBelow(f, cells, threshold, n) > threshold
  {
    if n > 0 {
      SumBelowSign(f, cells, threshold, n - 1);
    }
  }

  lemma BatchExcessSign(kind: Kind, f: seq<Dist>, lo: int, hi: int)
    ensures BatchExcess(kind, f, lo, hi) >= 0.0
  {
    if kind.SumThresh? && kind.threshold >= 0.0 {
      SumBelowSign(f, Range(lo, hi), kind.threshold, |f|);
    }
  }

  /** Dropping batches never lowers a row's sum, and leaves it alone only when none is dropped. */
  lemma {:induction false} RowExcessSign(kind: Kind, f: seq<Dist>, lo: int, hi: int, unroll: nat)
    requires unroll > 0
    ensures RowExcess(kind, f, lo, hi, unroll) >= 0.0
    ensures RowExcess(kind, f, lo, hi, unroll) == 0.0 <==> NoBatchDropped(kind, f, lo, hi, unroll)
    decreases hi - lo
  {
    if lo < hi {
      BatchExcessSign(kind, f, lo, Min(lo + unroll, hi));
      RowExcessSign(kind, f, lo + unroll, hi, unroll);
    }
  }

  lemma {:induction false} SumBelowBound(f: seq<Dist>, lo: int, hi: int, threshold: real, n: nat)
    requires n <= |f| && forall k :: 0 <= k < n && f[k].Corr? ==> f[k].v >= -1.0
    ensures SumBelow(f, Range(lo, hi), threshold, n) >= -(Max(0, Min(n, hi) - Max(0, lo)) as real)
  {
    if n > 0 {
      SumBelowBound(f, lo, hi, threshold, n - 1);
    }
  }

  /** Which thresholds are safe for correlations of at least -1. */
  predicate RowExact(kind: Kind, unroll: nat) {
    kind.SumThresh? ==> kind.threshold >= 0.0 || kind.threshold < -(unroll as real)
  }

  lemma {:induction false} NoExcess(kind: Kind, f: seq<Dist>, lo: int, hi: int, unroll: nat)
    requires unroll > 0 && RowExact(kind, unroll)
    requires kind.SumThresh? && kind.threshold < 0.0 ==> forall k :: 0 <= k < |f| && f[k].Corr? ==> f[k].v >= -1.0
    ensures RowExcess(kind, f, lo, hi, unroll) == 0.0
    decreases hi - lo
  {
    if lo < hi {
      NoExcess(kind, f, lo + unroll, hi, unroll);
      if kind.SumThresh? {
        var end := Min(lo + unroll, hi);
        if kind.threshold >= 0.0 {
          SumBelowSign(f, Range(lo, end), kind.threshold, |f|);
        } else {
          SumBelowBound(f, lo, end, kind.threshold, |f|);
        }
      }
    }
  }

  /** Only the distances of the stretch itself matter. */
  lemma {:induction false} RowExcessSame(kind: Kind, f: seq<Dist>, g: seq<Dist>, lo: int, hi: int, unroll: nat)
    requires unroll > 0 && |f| == |g| && forall k :: lo <= k < hi && 0 <= k < |f| ==> f[k] == g[k]
    ensures RowExcess(kind, f, lo, hi, unroll) == RowExcess(kind, g, lo, hi, unroll)
    decreases hi - lo
  {
    if lo < hi {
      RowExcessSame(kind, f, g, lo + unroll, hi, unroll);
      if kind.SumThresh? {
        SumBelowSame(f, g, Range(lo, Min(lo + unroll, hi)), kind.threshold, |f|);
      }
    }
  }

  // ---------- One row of one block of diagonals ----------

  /** The value kept for a distance once NaNs have been masked. */
  function Masked(kind: Kind, d: Dist): real {
    if d.Corr? then d.v else InitDist(kind)
  }

  ghost predicate MaskedRow(a: Args, kind: Kind, row: nat, start: nat, corr: seq<real>)
    requires a.Valid() && row < a.ny && row <= start && start + |corr| <= a.nx
  {
    forall k :: 0 <= k < |corr| ==> corr[k] == Masked(kind, a.DistAt(row, start + k))
  }

  lemma {:induction false} SelectedPrefixIsSum(a: Args, kind: Kind, row: nat, start: nat, corr: seq<real>, n: nat)
    requires a.Valid() && row < a.ny && row <= start && start + |corr| <= a.nx && n <= |corr|
    requires kind.SumThresh? && MaskedRow(a, kind, row, start, corr)
    ensures SelectedPrefix(corr, kind.threshold, n)
         == SumBelow(a.RowDists(row), Range(start, start + n), kind.threshold, a.nx)
  {
    var f, t := a.RowDists(row), kind.threshold;
    if n == 0 {
      SumBelowNone(f, t, a.nx);
    } else {
      SelectedPrefixIsSum(a, kind, row, start, corr, n - 1);
      SumBelowUnion(f, Range(start, start + n - 1), {start + n - 1}, t, a.nx);
      SumBelowOne(f, start + n - 1, t, a.nx);
      assert Range(start, start + n) == Range(start, start + n - 1) + {start + n - 1};
    }
  }

  /** Merging the reduced value of a row is merging each of its cells, but for a sum the second threshold drops. */
  lemma RowGathers(a: Args, kind: Kind, row: nat, start: nat, corr: seq<real>, value: real, index: int, acc: Entry)
    requires a.Valid() && row < a.ny && row <= start && start + |corr| <= a.nx
    requires MaskedRow(a, kind, row, start, corr)
    requires kind.SumThresh? ==> value == SelectedPrefix(corr, kind.threshold, |corr|)
    requires kind.Nearest? ==> 0 <= index < |corr| && value == corr[index] && acc.value >= InitDist(kind)
    requires kind.Nearest? ==> forall k :: 0 <= k < |corr| ==> corr[k] <= value
    ensures Gathered(kind, a.RowDists(row),
      Raised(kind, acc, BatchExcess(kind, a.RowDists(row), start, start + |corr|)),
              Range(start, start + |corr|), UpdateMp(kind, acc, value, start + index))
  {
    if kind.SumThresh? {
      SelectedPrefixIsSum(a, kind, row, start, corr, |corr|);
    } else {
      forall c | start <= c < start + |corr| && a.RowDists(row)[c].Corr?
        ensures a.RowDists(row)[c].v <= UpdateMp(kind, acc, value, start + index).value
      {
        assert corr[c - start] <= value;
      }
    }
  }

  /** One batch of a row has been merged, the columns `[lo, hi)`. */
  ghost predicate RowMerged(a: Args, kind: Kind, row: nat, lo: int, hi: int, was: Entry, now: Entry)
    requires a.Valid() && row < a.ny
  {
    Gathered(kind, a.RowDists(row), Raised(kind, was, BatchExcess(kind, a.RowDists(row), lo, hi)), Range(lo, hi), now)
  }

  method HandleRow(a: Args, kind: Kind, row: nat, tileDiag: nat, width: nat, fast: bool,
                   computingRows: bool, computingCols: bool,
                   cov: array<real>, profileA: array<Entry>, profileB: array<Entry>)
    requires a.Valid() && row < a.ny && width > 0 && tileDiag + row + width <= a.nx
    requires fast ==> width >= 2 && PowerOfTwo(width)
    requires cov.Length >= a.nx && profileA.Length >= a.nx && profileB.Length >= a.ny && profileA != profileB
    requires Floored(kind, profileA[..]) && Floored(kind, profileB[..])
    requires forall k :: tileDiag <= k < tileDiag + width ==> cov[k] == a.Cov(row, row + k)
    modifies cov, profileA, profileB
    ensures forall k :: tileDiag <= k < tileDiag + width ==> cov[k] == a.Cov(row + 1, row + 1 + k)
    ensures forall k :: 0 <= k < cov.Length && !(tileDiag <= k < tileDiag + width) ==> cov[k] == old(cov[k])
    ensures forall c :: 0 <= c < profileA.Length ==>
      profileA[c] ==
        if computingCols && tileDiag + row <= c < tileDiag + row + width
        then MergeCell(kind, old(profileA[c]), a.DistAt(row, c), row) else old(profileA[c])
    ensures forall r :: 0 <= r < profileB.Length && (r != row || !computingRows) ==> profileB[r] == old(profileB[r])
    ensures computingRows ==>
      RowMerged(a, kind, row, tileDiag + row, tileDiag + row + width, old(profileB[row]), profileB[row])
    ensures Floored(kind, profileA[..]) && Floored(kind, profileB[..])
  {
    var corr := ComputeCorr(a, kind, row, tileDiag, width, cov);
    if computingCols {
      UpdateColumnwise(a, kind, row, tileDiag, corr, profileA);
    }
    if computingRows {
      UpdateRowwise(a, kind, row, tileDiag, corr, fast, profileB);
    }
    UpdateCov(a, row, tileDiag, width, cov);
  }

  lemma CovNext(a: Args, row: nat, c: nat)
    requires a.Valid() && row <= c < a.nx && row < a.ny
    ensures a.Cov(row + 1, c + 1) == a.Cov(row, c) + a.dfa[c] * a.dgb[row] + a.dga[c] * a.dfb[row]
  {
  }

  method UpdateCov(a: Args, row: nat, tileDiag: nat, width: nat, cov: array<real>)
    requires a.Valid() && row < a.ny && tileDiag + row + width <= a.nx <= cov.Length
    requires forall k :: tileDiag <= k < tileDiag + width ==> cov[k] == a.Cov(row, row + k)
    modifies cov
    ensures forall k :: tileDiag <= k < tileDiag + width ==> cov[k] == a.Cov(row + 1, row + 1 + k)
    ensures forall k :: 0 <= k < cov.Length && !(tileDiag <= k < tileDiag + width) ==> cov[k] == old(cov[k])
  {
    hide Args.DistAt, Args.ColDists, Args.RowDists, Args.Cov;
    for k := tileDiag to tileDiag + width
      invariant forall j :: tileDiag <= j < k ==> cov[j] == a.Cov(row + 1, row + 1 + j)
      invariant forall j :: k <= j < tileDiag + width ==> cov[j] == a.Cov(row, row + j)
      invariant forall j :: 0 <= j < cov.Length && !(tileDiag <= j < tileDiag + width) ==> cov[j] == old(cov[j])
    {
      CovNext(a, row, row + k);
      cov[k] := cov[k] + a.dfa[k + row] * a.dgb[row];
      cov[k] := cov[k] + a.dga[k + row] * a.dfb[row];
    }
  }

  method UpdateRowwise(a: Args, kind: Kind, row: nat, tileDiag: nat, corr: array<real>, fast: bool,
                       profile: array<Entry>)
    requires a.Valid() && row < a.ny <= profile.Length && corr.Length > 0 && tileDiag + row + corr.Length <= a.nx
    requires fast ==> corr.Length >= 2 && PowerOfTwo(corr.Length)
    requires MaskedRow(a, kind, row, tileDiag + row, corr[..]) && Floored(kind, profile[..])
    modifies corr, profile
    ensures Floored(kind, profile[..])
    ensures forall r :: 0 <= r < profile.Length && r != row ==> profile[r] == old(profile[r])
    ensures RowMerged(a, kind, row, tileDiag + row, tileDiag + row + corr.Length, old(profile[row]), profile[row])
  {
    hide Gathered, MaskedRow, SelectedPrefix, PowerOfTwo, Args.DistAt;
    ghost var was, acc := corr[..], profile[row];
    var index := ReduceRow(kind, corr, fast);
    profile[row] := UpdateMp(kind, profile[row], corr[0], index + tileDiag + row);
    RowGathers(a, kind, row, tileDiag + row, was, corr[0], index, acc);
  }

  /** The correlations of one row, NaNs masked when the tile has any. */
  method ComputeCorr(a: Args, kind: Kind, row: nat, tileDiag: nat, width: nat, cov: array<real>)
      returns (corr: array<real>)
    requires a.Valid() && row < a.ny && tileDiag + row + width <= a.nx && cov.Length >= a.nx
    requires forall k :: tileDiag <= k < tileDiag + width ==> cov[k] == a.Cov(row, row + k)
    ensures fresh(corr) && corr.Length == width
    ensures MaskedRow(a, kind, row, tileDiag + row, corr[..])
  {
    corr := new real[width];
    for k := 0 to width
      invariant forall j :: 0 <= j < k ==> corr[j] == Masked(kind, a.DistAt(row, tileDiag + row + j))
    {
      var c := tileDiag + row + k;
      assert cov[tileDiag + k] == a.Cov(row, c);
      var d := a.Correlate(cov[tileDiag + k], a.normsa[c], a.normsb[row]);
      corr[k] := if a.hasNanInput then Masked(kind, d) else d.v;
    }
  }

  method UpdateColumnwise(a: Args, kind: Kind, row: nat, tileDiag: nat, corr: array<real>, profile: array<Entry>)
    requires a.Valid() && row < a.ny && tileDiag + row + corr.Length <= a.nx <= profile.Length
    requires MaskedRow(a, kind, row, tileDiag + row, corr[..]) && Floored(kind, profile[..])
    modifies profile
    ensures Floored(kind, profile[..])
    ensures forall c :: 0 <= c < profile.Length ==>
      profile[c] ==
        if tileDiag + row <= c < tileDiag + row + corr.Length
        then MergeCell(kind, old(profile[c]), a.DistAt(row, c), row) else old(profile[c])
  {
    for k := 0 to corr.Length
      invariant Floored(kind, profile[..])
      invariant forall c :: 0 <= c < profile.Length ==>
        profile[c] ==
          if tileDiag + row <= c < tileDiag + row + k
          then MergeCell(kind, old(profile[c]), a.DistAt(row, c), row) else old(profile[c])
    {
      var col := tileDiag + row + k;
      assert corr[..][k] == Masked(kind, a.DistAt(row, col));
      profile[col] := UpdateMp(kind, profile[col], corr[k], row);
    }
  }

  // ---------- The whole launch ----------

  /** The cells done once the blocks of diagonals below `d` are finished and the next one has reached `row`. */
  ghost predicate Visited(a: Args, unroll: nat, d: int, row: int, r: int, c: int) {
    a.InBand(r, c) && (c - r < d || (c - r < d + unroll && r < row))
  }

  ghost function VisitedRows(a: Args, unroll: nat, d: int, row: int, c: int): (s: set<int>)
    ensures forall r :: r in s <==> Visited(a, unroll, d, row, r, c)
  {
    set r | r in a.BandRows(c) && Visited(a, unroll, d, row, r, c)
  }

  ghost function VisitedCols(a: Args, unroll: nat, d: int, row: int, r: int): (s: set<int>)
    ensures forall c :: c in s <==> Visited(a, unroll, d, row, r, c)
  {
    set c | c in a.BandCols(r) && Visited(a, unroll, d, row, r, c)
  }

  /** One past the last column of the band in row `r`. */
  function RowEnd(a: Args, r: int): int {
    Min(a.nx, r + a.NumDiags())
  }

  /** What the batches of row `r` that were visited so far have left out. */
  ghost function ExcessSoFar(a: Args, kind: Kind, unroll: nat, d: int, row: int, r: nat): real
    requires a.Valid() && r < a.ny && unroll > 0
  {
    var f, end := a.RowDists(r), RowEnd(a, r);
    RowExcess(kind, f, r + a.exclusionLower, end, unroll)
    - RowExcess(kind, f, r + d + (if r < row then unroll else 0), end, unroll)
  }

  ghost predicate RowProgress(a: Args, kind: Kind, unroll: nat, d: int, row: int, r: nat, was: Entry, now: Entry)
    requires a.Valid() && r < a.ny && unroll > 0
  {
    Gathered(kind, a.RowDists(r), Raised(kind, was, ExcessSoFar(a, kind, unroll, d, row, r)),
      VisitedCols(a, unroll, d, row, r), now)
  }

  /** Both profiles have gathered exactly the visited cells. */
  ghost predicate Progress(a: Args, kind: Kind, unroll: nat, d: int, row: int, rows: bool, cols: bool,
                           wasA: seq<Entry>, wasB: seq<Entry>, nowA: seq<Entry>, nowB: seq<Entry>)
    requires a.Valid() && unroll > 0 && a.nx <= |wasA| == |nowA| && a.ny <= |wasB| == |nowB|
  {
    && (!cols ==> nowA == wasA)
    && (!rows ==> nowB == wasB)
    && nowA[a.nx..] == wasA[a.nx..] && nowB[a.ny..] == wasB[a.ny..]
    && (cols ==> forall c :: 0 <= c < a.nx ==>
          Gathered(kind, a.ColDists(c), wasA[c], VisitedRows(a, unroll, d, row, c), nowA[c]))
    && (rows ==> forall r :: 0 <= r < a.ny ==> RowProgress(a, kind, unroll, d, row, r, wasB[r], nowB[r]))
  }

  lemma ProgressStart(a: Args, kind: Kind, unroll: nat, rows: bool, cols: bool, wasA: seq<Entry>, wasB: seq<Entry>)
    requires a.Valid() && unroll > 0 && a.nx <= |wasA| && a.ny <= |wasB|
    ensures Progress(a, kind, unroll, a.exclusionLower, 0, rows, cols, wasA, wasB, wasA, wasB)
  {
    var d := a.exclusionLower;
    forall c | 0 <= c < a.nx
      ensures Gathered(kind, a.ColDists(c), wasA[c], VisitedRows(a, unroll, d, 0, c), wasA[c])
    {
      assert VisitedRows(a, unroll, d, 0, c) == {};
      GatherNothing(kind, a.ColDists(c), wasA[c]);
    }
    forall r | 0 <= r < a.ny
      ensures RowProgress(a, kind, unroll, d, 0, r, wasB[r], wasB[r])
    {
      assert VisitedCols(a, unroll, d, 0, r) == {};
      GatherNothing(kind, a.RowDists(r), wasB[r]);
      assert Raised(kind, wasB[r], 0.0) == wasB[r];
    }
  }

  /** The columns of the cells of one block in one row, after clipping. */
  function RowWidth(a: Args, unroll: nat, d: int, row: int): int {
    Min(Min(a.NumDiags(), a.nx - row), d + unroll) - d
  }

  lemma ColumnStep(a: Args, kind: Kind, unroll: nat, d: nat, row: nat, c: nat, was: Entry, mid: Entry)
    requires a.Valid() && row < a.ny && d >= a.exclusionLower && c < a.nx
    requires Gathered(kind, a.ColDists(c), was, VisitedRows(a, unroll, d, row, c), mid)
    ensures Gathered(kind, a.ColDists(c), was, VisitedRows(a, unroll, d, row + 1, c),
      if d + row <= c < d + row + RowWidth(a, unroll, d, row) then MergeCell(kind, mid, a.DistAt(row, c), row) else mid)
  {
    var before, after := VisitedRows(a, unroll, d, row, c), VisitedRows(a, unroll, d, row + 1, c);
    if d + row <= c < d + row + RowWidth(a, unroll, d, row) {
      assert after == before + {row};
      GatherOne(kind, a.ColDists(c), was, before, mid, row);
    } else {
      assert after == before;
    }
  }

  /** The batch of row `row` in the block at `d`, and those of the row before it. */
  lemma RowStep(a: Args, kind: Kind, unroll: nat, d: nat, row: nat, was: Entry, mid: Entry, now: Entry)
    requires a.Valid() && unroll > 0 && row < a.ny && d >= a.exclusionLower && RowWidth(a, unroll, d, row) > 0
    requires RowProgress(a, kind, unroll, d, row, row, was, mid)
    requires RowMerged(a, kind, row, d + row, d + row + RowWidth(a, unroll, d, row), mid, now)
    ensures RowProgress(a, kind, unroll, d, row + 1, row, was, now)
  {
    hide Gathered, Args.RowDists, Args.Valid, BatchExcess;
    var f, before, after := a.RowDists(row), VisitedCols(a, unroll, d, row, row),
      VisitedCols(a, unroll, d, row + 1, row);
    var added := Range(d + row, d + row + RowWidth(a, unroll, d, row));
    assert after == before + added && before !! added;
    var done, batch := ExcessSoFar(a, kind, unroll, d, row, row),
      BatchExcess(kind, f, d + row, d + row + RowWidth(a, unroll, d, row));
    assert ExcessSoFar(a, kind, unroll, d, row + 1, row) == done + batch;
    GatherRaised(kind, f, Raised(kind, was, done), before, mid, batch);
    assert Raised(kind, Raised(kind, was, done), batch) == Raised(kind, was, done + batch);
    GatherThen(kind, f, Raised(kind, was, done + batch), before, Raised(kind, mid, batch), added, now);
  }

  lemma ProgressRow(a: Args, kind: Kind, unroll: nat, d: nat, row: nat, rows: bool, cols: bool,
                    wasA: seq<Entry>, wasB: seq<Entry>, midA: seq<Entry>, midB: seq<Entry>, nowA: seq<Entry>,
                    nowB: seq<Entry>)
    requires a.Valid() && unroll > 0 && a.nx <= |wasA| == |midA| == |nowA| && a.ny <= |wasB| == |midB| == |nowB|
    requires row < a.ny && d >= a.exclusionLower && RowWidth(a, unroll, d, row) > 0
    requires Progress(a, kind, unroll, d, row, rows, cols, wasA, wasB, midA, midB)
    requires forall c :: 0 <= c < |nowA| ==>
      nowA[c] ==
        if cols && d + row <= c < d + row + RowWidth(a, unroll, d, row)
        then MergeCell(kind, midA[c], a.DistAt(row, c), row) else midA[c]
    requires forall r :: 0 <= r < |nowB| && (r != row || !rows) ==> nowB[r] == midB[r]
    requires rows ==> RowMerged(a, kind, row, d + row, d + row + RowWidth(a, unroll, d, row), midB[row], nowB[row])
    ensures Progress(a, kind, unroll, d, row + 1, rows, cols, wasA, wasB, nowA, nowB)
  {
    hide Gathered, MergeCell, Floored, RowMerged, RowProgress;
    if cols {
      forall c | 0 <= c < a.nx
        ensures Gathered(kind, a.ColDists(c), wasA[c], VisitedRows(a, unroll, d, row + 1, c), nowA[c])
      {
        ColumnStep(a, kind, unroll, d, row, c, wasA[c], midA[c]);
      }
    }
    if rows {
      forall r | 0 <= r < a.ny ensures RowProgress(a, kind, unroll, d, row + 1, r, wasB[r], nowB[r]) {
        if r == row {
          RowStep(a, kind, unroll, d, row, wasB[row], midB[row], nowB[row]);
        } else {
          OtherRow(a, kind, unroll, d, row, r, wasB[r], nowB[r]);
        }
      }
    }
  }

  lemma OtherRow(a: Args, kind: Kind, unroll: nat, d: nat, row: nat, r: nat, was: Entry, now: Entry)
    requires a.Valid() && unroll > 0 && r < a.ny && r != row && RowProgress(a, kind, unroll, d, row, r, was, now)
    ensures RowProgress(a, kind, unroll, d, row + 1, r, was, now)
  {
    hide Gathered, RowExcess, Args.RowDists, Args.Valid;
    assert VisitedCols(a, unroll, d, row + 1, r) == VisitedCols(a, unroll, d, row, r);
  }

  /** Nothing of a block is left once its last row is done. */
  lemma ProgressBlock(a: Args, kind: Kind, unroll: nat, d: nat, row: int, rows: bool, cols: bool,
                      wasA: seq<Entry>, wasB: seq<Entry>, nowA: seq<Entry>, nowB: seq<Entry>)
    requires a.Valid() && unroll > 0 && a.nx <= |wasA| == |nowA| && a.ny <= |wasB| == |nowB|
    requires Progress(a, kind, unroll, d, row, rows, cols, wasA, wasB, nowA, nowB)
    requires row == Min(a.nx - d, a.ny)
    ensures Progress(a, kind, unroll, d + unroll, 0, rows, cols, wasA, wasB, nowA, nowB)
  {
    hide Gathered, RowProgress;
    forall c | 0 <= c < a.nx
      ensures VisitedRows(a, unroll, d, row, c) == VisitedRows(a, unroll, d + unroll, 0, c)
    {
    }
    if rows {
      forall r | 0 <= r < a.ny ensures RowProgress(a, kind, unroll, d + unroll, 0, r, wasB[r], nowB[r]) {
        RowOfBlock(a, kind, unroll, d, row, r, wasB[r], nowB[r]);
      }
    }
  }

  lemma RowOfBlock(a: Args, kind: Kind, unroll: nat, d: nat, row: int, r: nat, was: Entry, now: Entry)
    requires a.Valid() && unroll > 0 && r < a.ny && row == Min(a.nx - d, a.ny)
    requires RowProgress(a, kind, unroll, d, row, r, was, now)
    ensures RowProgress(a, kind, unroll, d + unroll, 0, r, was, now)
  {
    hide Gathered, Args.RowDists, Args.Valid, BatchExcess;
    assert VisitedCols(a, unroll, d, row, r) == VisitedCols(a, unroll, d + unroll, 0, r);
  }

  /** What a launch promises: each profile element gathers its cells of the band, each exactly once; a row's sum
      misses the batches that the second threshold drops. */
  ghost predicate BandGathered(a: Args, kind: Kind, unroll: nat, rows: bool, cols: bool,
                               wasA: seq<Entry>, wasB: seq<Entry>, nowA: seq<Entry>, nowB: seq<Entry>)
    requires a.Valid() && unroll > 0 && a.nx <= |wasA| == |nowA| && a.ny <= |wasB| == |nowB|
  {
    && (!cols ==> nowA == wasA)
    && (!rows ==> nowB == wasB)
    && nowA[a.nx..] == wasA[a.nx..] && nowB[a.ny..] == wasB[a.ny..]
    && (cols ==> forall c :: 0 <= c < a.nx ==> Gathered(kind, a.ColDists(c), wasA[c], a.BandRows(c), nowA[c]))
    && (rows ==> forall r :: 0 <= r < a.ny ==> BandRowGathered(a, kind, unroll, r, wasB[r], nowB[r]))
  }

  ghost predicate BandRowGathered(a: Args, kind: Kind, unroll: nat, r: nat, was: Entry, now: Entry)
    requires a.Valid() && unroll > 0 && r < a.ny
  {
    var excess := RowExcess(kind, a.RowDists(r), r + a.exclusionLower, RowEnd(a, r), unroll);
    Gathered(kind, a.RowDists(r), Raised(kind, was, excess), a.BandCols(r), now)
  }

  lemma ProgressEnd(a: Args, kind: Kind, unroll: nat, d: nat, rows: bool, cols: bool,
                    wasA: seq<Entry>, wasB: seq<Entry>, nowA: seq<Entry>, nowB: seq<Entry>)
    requires a.Valid() && unroll > 0 && a.nx <= |wasA| == |nowA| && a.ny <= |wasB| == |nowB| && d >= a.NumDiags()
    requires Progress(a, kind, unroll, d, 0, rows, cols, wasA, wasB, nowA, nowB)
    ensures BandGathered(a, kind, unroll, rows, cols, wasA, wasB, nowA, nowB)
  {
    hide Gathered;
    forall c | 0 <= c < a.nx ensures VisitedRows(a, unroll, d, 0, c) == a.BandRows(c) {
    }
    forall r | 0 <= r < a.ny
      ensures VisitedCols(a, unroll, d, 0, r) == a.BandCols(r)
      ensures RowExcess(kind, a.RowDists(r), r + d, RowEnd(a, r), unroll) == 0.0
    {
    }
  }

  /** The covariances a block still needs when it reaches `row`. */
  ghost predicate BlockCov(a: Args, unroll: nat, d: nat, row: nat, cov: seq<real>)
    requires a.Valid() && a.nx <= |cov| && row <= a.ny
  {
    && (forall k :: d <= k < Min(d + unroll, a.NumDiags()) && k + row < a.nx ==> cov[k] == a.Cov(row, row + k))
    && (forall k :: d + unroll <= k < a.nx ==> cov[k] == a.cov0[k])
  }

  /** The state of a launch at `row` of the block of diagonals at `d`. */
  ghost predicate At(a: Args, kind: Kind, unroll: nat, d: nat, row: nat, rows: bool, cols: bool,
                     cov: array<real>, profileA: array<Entry>, profileB: array<Entry>,
                     wasA: seq<Entry>, wasB: seq<Entry>)
    reads cov, profileA, profileB
  {
    && a.Valid() && unroll > 0 && row <= a.ny && d >= a.exclusionLower
    && cov.Length >= a.nx && profileA.Length >= a.nx && profileB.Length >= a.ny && profileA != profileB
    && |wasA| == profileA.Length && |wasB| == profileB.Length
    && Floored(kind, profileA[..]) && Floored(kind, profileB[..])
    && BlockCov(a, unroll, d, row, cov[..])
    && Progress(a, kind, unroll, d, row, rows, cols, wasA, wasB, profileA[..], profileB[..])
  }

  method DoTile(a: Args, kind: Kind, unrollWid: nat, computingRows: bool, computingCols: bool,
                cov: array<real>, profileA: array<Entry>, profileB: array<Entry>)
    requires a.Valid() && unrollWid >= 2 && PowerOfTwo(unrollWid)
    requires cov.Length >= a.nx && forall k :: 0 <= k < a.nx ==> cov[k] == a.cov0[k]
    requires profileA.Length >= a.nx && profileB.Length >= a.ny && profileA != profileB
    requires Floored(kind, profileA[..]) && Floored(kind, profileB[..])
    modifies cov, profileA, profileB
    ensures BandGathered(a, kind, unrollWid, computingRows, computingCols, old(profileA[..]), old(profileB[..]),
      profileA[..], profileB[..])
    ensures Floored(kind, profileA[..]) && Floored(kind, profileB[..])
  {
    hide At, BandGathered, PowerOfTwo, Args.Valid;
    ghost var wasA, wasB := profileA[..], profileB[..];
    var numDiags := a.nx - a.exclusionUpper + 1;
    var tileDiag: nat := a.exclusionLower;
    AtStart(a, kind, unrollWid, computingRows, computingCols, cov, profileA, profileB);
    while tileDiag < numDiags
      invariant At(a, kind, unrollWid, tileDiag, 0, computingRows, computingCols, cov, profileA, profileB, wasA, wasB)
      decreases numDiags - tileDiag
    {
      DoBlock(a, kind, unrollWid, tileDiag, computingRows, computingCols, cov, profileA, profileB, wasA, wasB);
      tileDiag := tileDiag + unrollWid;
    }
    AtEnd(a, kind, unrollWid, tileDiag, computingRows, computingCols, cov, profileA, profileB, wasA, wasB);
  }

  lemma AtStart(a: Args, kind: Kind, unroll: nat, rows: bool, cols: bool,
                cov: array<real>, profileA: array<Entry>, profileB: array<Entry>)
    requires a.Valid() && unroll > 0 && cov.Length >= a.nx && forall k :: 0 <= k < a.nx ==> cov[k] == a.cov0[k]
    requires profileA.Length >= a.nx && profileB.Length >= a.ny && profileA != profileB
    requires Floored(kind, profileA[..]) && Floored(kind, profileB[..])
    ensures At(a, kind, unroll, a.exclusionLower, 0, rows, cols, cov, profileA, profileB, profileA[..], profileB[..])
  {
    hide Progress;
    ProgressStart(a, kind, unroll, rows, cols, profileA[..], profileB[..]);
  }

  lemma AtEnd(a: Args, kind: Kind, unroll: nat, d: nat, rows: bool, cols: bool,
              cov: array<real>, profileA: array<Entry>, profileB: array<Entry>, wasA: seq<Entry>, wasB: seq<Entry>)
    requires At(a, kind, unroll, d, 0, rows, cols, cov, profileA, profileB, wasA, wasB) && d >= a.NumDiags()
    ensures BandGathered(a, kind, unroll, rows, cols, wasA, wasB, profileA[..], profileB[..])
    ensures Floored(kind, profileA[..]) && Floored(kind, profileB[..])
  {
    hide Progress, BandGathered, BlockCov;
    ProgressEnd(a, kind, unroll, d, rows, cols, wasA, wasB, profileA[..], profileB[..]);
  }

  /** One pass of the outer loop: full-width rows while they fit, then clipped ones. */
  method DoBlock(a: Args, kind: Kind, unrollWid: nat, tileDiag: nat, computingRows: bool, computingCols: bool,
                 cov: array<real>, profileA: array<Entry>, profileB: array<Entry>,
                 ghost wasA: seq<Entry>, ghost wasB: seq<Entry>)
    requires unrollWid >= 2 && PowerOfTwo(unrollWid) && tileDiag < a.NumDiags()
    requires At(a, kind, unrollWid, tileDiag, 0, computingRows, computingCols, cov, profileA, profileB, wasA, wasB)
    modifies cov, profileA, profileB
    ensures At(a, kind, unrollWid, tileDiag + unrollWid, 0, computingRows, computingCols, cov, profileA, profileB, wasA,
      wasB)
  {
    hide At;
    var numDiags := a.nx - a.exclusionUpper + 1;
    var rowIters := Min(a.nx - tileDiag, a.ny);
    var fullRowIters := if tileDiag + unrollWid >= numDiags then 0
                        else Max(0, Min(a.nx - tileDiag - unrollWid + 1, a.ny));
    for row := 0 to fullRowIters
      invariant At(a, kind, unrollWid, tileDiag, row, computingRows, computingCols, cov, profileA, profileB, wasA, wasB)
    {
      DoRow(a, kind, unrollWid, row, tileDiag, unrollWid, true, computingRows, computingCols, cov, profileA, profileB,
        wasA, wasB);
    }
    for row := fullRowIters to rowIters
      invariant At(a, kind, unrollWid, tileDiag, row, computingRows, computingCols, cov, profileA, profileB, wasA, wasB)
    {
      var diagmax := Min(Min(numDiags, a.nx - row), tileDiag + unrollWid);
      DoRow(a, kind, unrollWid, row, tileDiag, diagmax - tileDiag, false, computingRows, computingCols, cov, profileA,
        profileB, wasA, wasB);
    }
    NextBlock(a, kind, unrollWid, tileDiag, rowIters, computingRows, computingCols, cov, profileA, profileB, wasA,
      wasB);
  }

  lemma NextBlock(a: Args, kind: Kind, unroll: nat, d: nat, row: nat, rows: bool, cols: bool,
                  cov: array<real>, profileA: array<Entry>, profileB: array<Entry>,
                  wasA: seq<Entry>, wasB: seq<Entry>)
    requires At(a, kind, unroll, d, row, rows, cols, cov, profileA, profileB, wasA, wasB)
    requires row == Min(a.nx - d, a.ny)
    ensures At(a, kind, unroll, d + unroll, 0, rows, cols, cov, profileA, profileB, wasA, wasB)
  {
    ProgressBlock(a, kind, unroll, d, row, rows, cols, wasA, wasB, profileA[..], profileB[..]);
  }

  /** The fast and the clipped row handler, with the progress they make. */
  method DoRow(a: Args, kind: Kind, unroll: nat, row: nat, tileDiag: nat, width: nat, fast: bool,
               computingRows: bool, computingCols: bool,
               cov: array<real>, profileA: array<Entry>, profileB: array<Entry>,
               ghost wasA: seq<Entry>, ghost wasB: seq<Entry>)
    requires At(a, kind, unroll, tileDiag, row, computingRows, computingCols, cov, profileA, profileB, wasA, wasB)
    requires row < a.ny && width == RowWidth(a, unroll, tileDiag, row) > 0
    requires fast ==> width >= 2 && PowerOfTwo(width)
    modifies cov, profileA, profileB
    ensures At(a, kind, unroll, tileDiag, row + 1, computingRows, computingCols, cov, profileA, profileB, wasA, wasB)
  {
    ghost var midA, midB, midCov := profileA[..], profileB[..], cov[..];
    assert forall k :: tileDiag <= k < tileDiag + width ==> midCov[k] == a.Cov(row, row + k);
    HandleRow(a, kind, row, tileDiag, width, fast, computingRows, computingCols, cov, profileA, profileB);
    ProgressRow(a, kind, unroll, tileDiag, row, computingRows, computingCols, wasA, wasB, midA, midB, profileA[..],
      profileB[..]);
    assert forall k :: tileDiag + unroll <= k < a.nx ==> cov[..][k] == midCov[k];
  }

  /** The launcher: nothing runs when the two exclusion zones leave no diagonal. */
  method Launch(a: Args, kind: Kind, unrollWid: nat, computingRows: bool, computingCols: bool,
                cov: array<real>, profileA: array<Entry>, profileB: array<Entry>)
    requires a.Valid() && unrollWid >= 2 && PowerOfTwo(unrollWid)
    requires cov.Length >= a.nx && forall k :: 0 <= k < a.nx ==> cov[k] == a.cov0[k]
    requires profileA.Length >= a.nx && profileB.Length >= a.ny && profileA != profileB
    requires Floored(kind, profileA[..]) && Floored(kind, profileB[..])
    modifies cov, profileA, profileB
    ensures a.exclusionLower + a.exclusionUpper < a.nx ==>
      BandGathered(a, kind, unrollWid, computingRows, computingCols, old(profileA[..]), old(profileB[..]), profileA[..],
        profileB[..])
    ensures Floored(kind, profileA[..]) && Floored(kind, profileB[..])
    ensures a.exclusionLower + a.exclusionUpper >= a.nx ==>
      profileA[..] == old(profileA[..]) && profileB[..] == old(profileB[..])
  {
    var exclusionTotal := a.exclusionLower + a.exclusionUpper;
    if exclusionTotal < a.nx {
      if computingRows || computingCols {
        DoTile(a, kind, unrollWid, computingRows, computingCols, cov, profileA, profileB);
      }
    }
  }
}
