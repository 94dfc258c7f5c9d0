/**
 Profile entries and what it means to have gathered a set of distances into one.

 Every kernel of the repository folds many correlations into one profile element: a maximum with the
 index that attains it, or a sum of the correlations above a threshold. The order in which the cells are
 visited differs from kernel to kernel, so the meaning is given once, by `Gathered`, without any order.
 */
module Profiles {

  /** A correlation; `NoValue` stands for the NaN of a flat or non-finite subsequence. */
  datatype Dist = NoValue | Corr(v: real)

  /** One profile element: the two halves of the source's `mp_entry`. A sum leaves `index` alone. */
  datatype Entry = Entry(value: real, index: int)

  datatype Kind = SumThresh(threshold: real) | Nearest

  /** A range of positions, closed below and open above. */
  function Range(lo: int, hi: int): (r: set<int>)
    ensures forall k :: k in r <==> lo <= k < hi
    decreases hi - lo
  {
    if hi <= lo then {} else Range(lo, hi - 1) + {hi - 1}
  }

  function InitDist(kind: Kind): real {
    if kind.SumThresh? then 0.0 else -2.0
  }

  function InitEntry(kind: Kind): Entry {
    Entry(InitDist(kind), 0)
  }

  /** What `d` adds to a thresholded sum. */
  function Selected(threshold: real, d: Dist): real {
    if d.Corr? && d.v > threshold then d.v else 0.0
  }

  /** Merge one distance. Comparing with a NaN is false, so `NoValue` never wins. */
  function MergeCell(kind: Kind, acc: Entry, d: Dist, index: int): Entry {
    match kind
    case SumThresh(t) => acc.(value := acc.value + Selected(t, d))
    case Nearest => if d.Corr? && d.v > acc.value then Entry(d.v, index) else acc
  }

  /** Merge a partial result: the atomic add, or the atomic maximum with its index. */
  function Combine(kind: Kind, acc: Entry, part: Entry): Entry {
    match kind
    case SumThresh(_) => acc.(value := acc.value + part.value)
    case Nearest => if part.value > acc.value then part else acc
  }

  /** A sum that starts `x` higher; a maximum has no use for that. */
  function Raised(kind: Kind, start: Entry, x: real): Entry {
    if kind.SumThresh? then start.(value := start.value + x) else start
  }

  /** No entry is below the sentinel that stands for "no value yet". */
  ghost predicate Floored(kind: Kind, entries: seq<Entry>) {
    kind.Nearest? ==> forall i :: 0 <= i < |entries| ==> entries[i].value >= InitDist(kind)
  }

  // ---------- Gathering a set of cells ----------

  /** The thresholded sum of the distances among the first `n` whose positions are in `cells`. */
  ghost function SumBelow(f: seq<Dist>, cells: set<int>, threshold: real, n: nat): real
    requires n <= |f|
  {
    if n == 0 then 0.0
    else SumBelow(f, cells, threshold, n - 1) + (if n - 1 in cells then Selected(threshold, f[n - 1]) else 0.0)
  }

  /** Every cell is a position of `f`. */
  ghost predicate Within(f: seq<Dist>, cells: set<int>) {
    forall k :: k in cells ==> 0 <= k < |f|
  }

  /** `acc` is what is left of `start` once every cell of `cells` has been merged exactly once. */
  ghost predicate Gathered(kind: Kind, f: seq<Dist>, start: Entry, cells: set<int>, acc: Entry) {
    && Within(f, cells)
    && match kind
       case SumThresh(t) => acc.value == start.value + SumBelow(f, cells, t, |f|)
       case Nearest => IsBest(f, start, cells, acc)
  }

  ghost predicate IsBest(f: seq<Dist>, start: Entry, cells: set<int>, acc: Entry)
    requires Within(f, cells)
  {
    && start.value <= acc.value
    && (forall k :: k in cells && f[k].Corr? ==> f[k].v <= acc.value)
    && (acc == start || (acc.index in cells && f[acc.index] == Corr(acc.value)))
  }

  lemma {:induction n} SumBelowNone(f: seq<Dist>, threshold: real, n: nat)
    requires n <= |f|
    ensures SumBelow(f, {}, threshold, n) == 0.0
  {
  }

  lemma {:induction false} SumBelowUnion(f: seq<Dist>, a: set<int>, b: set<int>, threshold: real, n: nat)
    requires n <= |f| && a !! b
    ensures SumBelow(f, a + b, threshold, n) == SumBelow(f, a, threshold, n) + SumBelow(f, b, threshold, n)
  {
    if n > 0 {
      SumBelowUnion(f, a, b, threshold, n - 1);
    }
  }

  lemma {:induction false} SumBelowOne(f: seq<Dist>, x: int, threshold: real, n: nat)
    requires n <= |f|
    ensures SumBelow(f, {x}, threshold, n) == if 0 <= x < n then Selected(threshold, f[x]) else 0.0
  {
    if n > 0 {
      SumBelowOne(f, x, threshold, n - 1);
    }
  }

  lemma GatherNothing(kind: Kind, f: seq<Dist>, start: Entry)
    ensures Gathered(kind, f, start, {}, start)
  {
    if kind.SumThresh? {
      SumBelowNone(f, kind.threshold, |f|);
    }
  }

  lemma GatherOne(kind: Kind, f: seq<Dist>, start: Entry, cells: set<int>, acc: Entry, x: int)
    requires Gathered(kind, f, start, cells, acc)
    requires 0 <= x < |f| && x !in cells
    ensures Gathered(kind, f, start, cells + {x}, MergeCell(kind, acc, f[x], x))
  {
    if kind.SumThresh? {
      SumBelowUnion(f, cells, {x}, kind.threshold, |f|);
      SumBelowOne(f, x, kind.threshold, |f|);
    }
  }

  lemma GatherThen(kind: Kind, f: seq<Dist>, start: Entry, first: set<int>, mid: Entry, second: set<int>, end: Entry)
    requires Gathered(kind, f, start, first, mid)
    requires Gathered(kind, f, mid, second, end)
    requires kind.SumThresh? ==> first !! second
    ensures Gathered(kind, f, start, first + second, end)
  {
    if kind.SumThresh? {
      SumBelowUnion(f, first, second, kind.threshold, |f|);
    }
  }

  /** Folding a partial accumulator in is the same as having merged its cells directly. */
  lemma GatherCombine(kind: Kind, f: seq<Dist>, start: Entry, first: set<int>, acc: Entry, second: set<int>,
                      part: Entry)
    requires Gathered(kind, f, start, first, acc)
    requires Gathered(kind, f, InitEntry(kind), second, part)
    requires first !! second
    requires kind.Nearest? ==> start.value >= InitDist(kind)
    ensures Gathered(kind, f, start, first + second, Combine(kind, acc, part))
  {
    if kind.SumThresh? {
      SumBelowUnion(f, first, second, kind.threshold, |f|);
    }
  }

  /** A sum that starts higher ends as much higher. */
  lemma GatherRaised(kind: Kind, f: seq<Dist>, start: Entry, cells: set<int>, acc: Entry, x: real)
    requires Gathered(kind, f, start, cells, acc)
    ensures Gathered(kind, f, Raised(kind, start, x), cells, Raised(kind, acc, x))
  {
  }

  lemma {:induction false} SumBelowSame(f: seq<Dist>, g: seq<Dist>, cells: set<int>, threshold: real, n: nat)
    requires n <= |f| == |g| && forall k :: k in cells && 0 <= k < n ==> f[k] == g[k]
    ensures SumBelow(f, cells, threshold, n) == SumBelow(g, cells, threshold, n)
  {
    if n > 0 {
      SumBelowSame(f, g, cells, threshold, n - 1);
    }
  }

  /** Only the distances of the gathered cells matter. */
  lemma GatheredSame(kind: Kind, f: seq<Dist>, g: seq<Dist>, start: Entry, cells: set<int>, acc: Entry)
    requires Gathered(kind, f, start, cells, acc) && |f| == |g| && forall k :: k in cells ==> f[k] == g[k]
    ensures Gathered(kind, g, start, cells, acc)
  {
    if kind.SumThresh? {
      SumBelowSame(f, g, cells, kind.threshold, |f|);
    }
  }

  /** Whatever the order of the cells, the gathered value is the same; only an index may differ, on a tie. */
  lemma GatheredValueUnique(kind: Kind, f: seq<Dist>, start: Entry, cells: set<int>, one: Entry, other: Entry)
    requires Gathered(kind, f, start, cells, one) && Gathered(kind, f, start, cells, other)
    ensures one.value == other.value
  {
    if kind.Nearest? && one != start && other != start {
      assert f[one.index].v <= other.value && f[other.index].v <= one.value;
    }
  }

  /** A cell whose distance was masked to the initial distance leaves an accumulator as it is. */
  lemma MaskedCellIsNeutral(kind: Kind, acc: Entry, index: int)
    requires kind.Nearest? ==> acc.value >= InitDist(kind)
    ensures MergeCell(kind, acc, Corr(InitDist(kind)), index) == acc
  {
  }

  // ---------- Tree reduction ----------

  predicate PowerOfTwo(n: int) {
    n == 1 || (n > 1 && n % 2 == 0 && PowerOfTwo(n / 2))
  }

  /** One halving step: the lower half takes in the upper half, element by element. */
  function Halve(kind: Kind, d: seq<Entry>): (r: seq<Entry>)
    requires |d| % 2 == 0
    ensures |r| == |d| / 2
    ensures forall l {:trigger r[l]} :: 0 <= l < |d| / 2 ==> r[l] == Combine(kind, d[l], d[l + |d| / 2])
  {
    seq(|d| / 2, l requires 0 <= l < |d| / 2 => Combine(kind, d[l], d[l + |d| / 2]))
  }

  function TreeReduce(kind: Kind, d: seq<Entry>): Entry
    requires PowerOfTwo(|d|)
    decreases |d|
  {
    if |d| == 1 then d[0] else TreeReduce(kind, Halve(kind, d))
  }

  ghost function UnionOf(parts: seq<set<int>>): set<int> {
    set l, k | 0 <= l < |parts| && k in parts[l] :: k
  }

  ghost predicate Disjoint(parts: seq<set<int>>) {
    forall i, j :: 0 <= i < j < |parts| ==> parts[i] !! parts[j]
  }

  lemma DisjointBy<T>(a: set<T>, b: set<T>)
    requires forall x :: x in a ==> x !in b
    ensures a !! b
  {
  }

  ghost predicate AllGathered(kind: Kind, f: seq<Dist>, parts: seq<set<int>>, d: seq<Entry>) {
    |parts| == |d| && forall l :: 0 <= l < |d| ==> Gathered(kind, f, InitEntry(kind), parts[l], d[l])
  }

  ghost function HalveParts(parts: seq<set<int>>): (r: seq<set<int>>)
    requires |parts| % 2 == 0
    ensures |r| == |parts| / 2
    ensures forall l {:trigger r[l]} :: 0 <= l < |r| ==> r[l] == parts[l] + parts[l + |parts| / 2]
  {
    seq(|parts| / 2, l requires 0 <= l < |parts| / 2 => parts[l] + parts[l + |parts| / 2])
  }

  lemma HalvePartsUnion(parts: seq<set<int>>)
    requires |parts| % 2 == 0 && Disjoint(parts)
    ensures Disjoint(HalveParts(parts)) && UnionOf(HalveParts(parts)) == UnionOf(parts)
  {
    var half := HalveParts(parts);
    var h := |half|;
    forall i, j | 0 <= i < j < h ensures half[i] !! half[j] {
      assert parts[i] !! parts[j] && parts[i] !! parts[j + h] && parts[j] !! parts[i + h]
        && parts[i + h] !! parts[j + h];
    }
    forall k | k in UnionOf(parts) ensures k in UnionOf(half) {
      var l :| 0 <= l < |parts| && k in parts[l];
      assert k in half[if l < h then l else l - h];
    }
    forall k | k in UnionOf(half) ensures k in UnionOf(parts) {
      var l :| 0 <= l < h && k in half[l];
      assert k in parts[l] || k in parts[l + h];
    }
  }

  lemma HalveGathers(kind: Kind, f: seq<Dist>, parts: seq<set<int>>, d: seq<Entry>)
    requires |d| % 2 == 0 && Disjoint(parts)
    requires AllGathered(kind, f, parts, d)
    ensures AllGathered(kind, f, HalveParts(parts), Halve(kind, d))
  {
    var h := |d| / 2;
    forall l | 0 <= l < h
      ensures Gathered(kind, f, InitEntry(kind), HalveParts(parts)[l], Halve(kind, d)[l])
    {
      assert parts[l] !! parts[l + h];
      GatherCombine(kind, f, InitEntry(kind), parts[l], d[l], parts[l + h], d[l + h]);
    }
  }

  /** A tree reduction gathers the cells of all its leaves. */
  lemma {:induction false} TreeReduceGathers(kind: Kind, f: seq<Dist>, parts: seq<set<int>>, d: seq<Entry>)
    requires PowerOfTwo(|d|) && Disjoint(parts)
    requires AllGathered(kind, f, parts, d)
    ensures Gathered(kind, f, InitEntry(kind), UnionOf(parts), TreeReduce(kind, d))
    decreases |d|
  {
    if |d| == 1 {
      assert forall k :: k in UnionOf(parts) <==> k in parts[0];
      assert UnionOf(parts) == parts[0];
    } else {
      HalvePartsUnion(parts);
      HalveGathers(kind, f, parts, d);
      TreeReduceGathers(kind, f, HalveParts(parts), Halve(kind, d));
    }
  }
}
