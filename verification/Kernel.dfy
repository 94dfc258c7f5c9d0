/**
 The arguments every kernel is launched with, and the one reference all kernels refine: the covariance that
 runs down each diagonal, the correlation of a cell, and the band of cells a launch has to evaluate.
 */
module Kernel {
  import opened Profiles

  /** An inverse norm; `Flat` stands for the NaN kept for flat and non-finite subsequences. */
  datatype Norm = Flat | Inverse(x: real)

  /** The cells a launch over `nx` columns and `ny` rows evaluates, given its two exclusion zones. */
  predicate Band(nx: int, ny: int, exclusionLower: int, exclusionUpper: int, r: int, c: int) {
    0 <= r < ny && 0 <= c < nx && exclusionLower <= c - r < nx - exclusionUpper + 1
  }

  /** The correlation that belongs to a covariance, rounded; NaN when either norm is. */
  function Correlation(cast: real -> real, cov: real, na: Norm, nb: Norm): Dist {
    if na.Flat? || nb.Flat? then NoValue else Corr(cast(cov * na.x * nb.x))
  }

  lemma CorrelationSymmetric(cast: real -> real, cov: real, na: Norm, nb: Norm)
    ensures Correlation(cast, cov, na, nb) == Correlation(cast, cov, nb, na)
  {
    if na.Inverse? && nb.Inverse? {
      assert cov * na.x * nb.x == cov * nb.x * na.x;
    }
  }

  /** Columns carry the suffix `a`, rows the suffix `b`. `cast` rounds to the distance type. */
  datatype Args = Args(
    cov0: seq<real>,
    dfa: seq<real>, dga: seq<real>, normsa: seq<Norm>,
    dfb: seq<real>, dgb: seq<real>, normsb: seq<Norm>,
    nx: nat, ny: nat,
    exclusionLower: nat, exclusionUpper: nat,
    hasNanInput: bool,
    cast: real -> real)
  {
    ghost predicate Valid() {
      && |cov0| >= nx && |dfa| == |dga| == |normsa| == nx
      && |dfb| == |dgb| == |normsb| == ny
      && (!hasNanInput ==>
            (forall c :: 0 <= c < nx ==> normsa[c].Inverse?) && (forall r :: 0 <= r < ny ==> normsb[r].Inverse?))
    }

    function Correlate(cov: real, na: Norm, nb: Norm): Dist {
      Correlation(cast, cov, na, nb)
    }

    /** One past the last diagonal to compute. */
    function NumDiags(): int {
      nx - exclusionUpper + 1
    }

    /** The cells this launch has to evaluate. */
    predicate InBand(r: int, c: int) {
      Band(nx, ny, exclusionLower, exclusionUpper, r, c)
    }

    /** The covariance of row `r` and column `c`, carried down the diagonal from the first row. */
    ghost function Cov(r: nat, c: nat): real
      requires Valid() && r <= c <= nx && r <= ny && c - r < nx
      decreases r
    {
      if r == 0 then cov0[c]
      else Cov(r - 1, c - 1) + dfa[c - 1] * dgb[r - 1] + dga[c - 1] * dfb[r - 1]
    }

    ghost function DistAt(r: nat, c: nat): Dist
      requires Valid() && r <= c < nx && r < ny
    {
      Correlate(Cov(r, c), normsa[c], normsb[r])
    }

    /** The distances down column `c`, by row. */
    ghost function ColDists(c: nat): (d: seq<Dist>)
      requires Valid() && c < nx
      ensures |d| == ny
      ensures forall r :: 0 <= r < ny && r <= c ==> d[r] == DistAt(r, c)
    {
      seq(ny, r requires 0 <= r < ny => if r <= c then DistAt(r, c) else NoValue)
    }

    /** The distances along row `r`, by column. */
    ghost function RowDists(r: nat): (d: seq<Dist>)
      requires Valid() && r < ny
      ensures |d| == nx
      ensures forall c :: r <= c < nx ==> d[c] == DistAt(r, c)
    {
      seq(nx, c requires 0 <= c < nx => if r <= c then DistAt(r, c) else NoValue)
    }

    ghost function BandRows(c: int): (s: set<int>)
      ensures forall r :: r in s <==> InBand(r, c)
    {
      set r | r in Range(0, ny) && InBand(r, c)
    }

    ghost function BandCols(r: int): (s: set<int>)
      ensures forall c :: c in s <==> InBand(r, c)
    {
      set c | c in Range(0, nx) && InBand(r, c)
    }
  }
}
