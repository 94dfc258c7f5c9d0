/**
 Windowed statistics over the reals: means, sums of squared differences and centred dot products, the
 constant-time updates that compute them, and the recurrence that carries a covariance down a diagonal.
 */
module Statistics {
  import opened Profiles
  import opened Kernel

  // ---------- Window sums ----------

  /** The sum of `w` elements of `a` from position `i`. */
  ghost function Sum(a: seq<real>, i: nat, w: nat): real
    requires i + w <= |a|
  {
    if w == 0 then 0.0 else Sum(a, i, w - 1) + a[i + w - 1]
  }

  ghost function Mean(a: seq<real>, i: nat, w: nat): real
    requires w > 0 && i + w <= |a|
  {
    Sum(a, i, w) / (w as real)
  }

  /** The dot product of two windows, each shifted by a constant. */
  ghost function Dot(a: seq<real>, i: nat, b: seq<real>, j: nat, w: nat, x: real, y: real): real
    requires i + w <= |a| && j + w <= |b|
  {
    if w == 0 then 0.0 else Dot(a, i, b, j, w - 1, x, y) + (a[i + w - 1] - x) * (b[j + w - 1] - y)
  }

  /** The covariance the whole program is about: the dot product of two centred subsequences. */
  ghost function CentredDot(a: seq<real>, i: nat, b: seq<real>, j: nat, w: nat): real
    requires w > 0 && i + w <= |a| && j + w <= |b|
  {
    Dot(a, i, b, j, w, Mean(a, i, w), Mean(b, j, w))
  }

  ghost function SquaredDifferences(a: seq<real>, i: nat, w: nat): real
    requires w > 0 && i + w <= |a|
  {
    CentredDot(a, i, a, i, w)
  }

  lemma {:induction false} SumSlide(a: seq<real>, i: nat, w: nat)
    requires i + w < |a|
    ensures Sum(a, i + 1, w) == Sum(a, i, w) - a[i] + a[i + w]
  {
    if w > 0 {
      SumSlide(a, i, w - 1);
    }
  }

  lemma {:induction false} DotSlide(a: seq<real>, i: nat, b: seq<real>, j: nat, w: nat, x: real, y: real)
    requires i + w < |a| && j + w < |b|
    ensures Dot(a, i + 1, b, j + 1, w, x, y)
         == Dot(a, i, b, j, w, x, y) - (a[i] - x) * (b[j] - y) + (a[i + w] - x) * (b[j + w] - y)
  {
    if w > 0 {
      DotSlide(a, i, b, j, w - 1, x, y);
    }
  }

  lemma {:induction false} DotExpand(a: seq<real>, i: nat, b: seq<real>, j: nat, w: nat, x: real, y: real)
    requires i + w <= |a| && j + w <= |b|
    ensures Dot(a, i, b, j, w, x, y)
         == Dot(a, i, b, j, w, 0.0, 0.0) - x * Sum(b, j, w) - y * Sum(a, i, w) + (w as real) * x * y
  {
    hide Dot, Sum;
    DotUnfold(a, i, b, j, w, x, y);
    DotUnfold(a, i, b, j, w, 0.0, 0.0);
    SumUnfold(a, i, w);
    SumUnfold(b, j, w);
    if w > 0 {
      DotExpand(a, i, b, j, w - 1, x, y);
      ExpandStep(Dot(a, i, b, j, w - 1, x, y), Dot(a, i, b, j, w - 1, 0.0, 0.0), Sum(a, i, w - 1), Sum(b, j, w - 1),
        (w - 1) as real, a[i + w - 1], b[j + w - 1], x, y,
        Dot(a, i, b, j, w, x, y), Dot(a, i, b, j, w, 0.0, 0.0), Sum(a, i, w), Sum(b, j, w), w as real);
    }
  }

  lemma DotUnfold(a: seq<real>, i: nat, b: seq<real>, j: nat, w: nat, x: real, y: real)
    requires i + w <= |a| && j + w <= |b|
    ensures Dot(a, i, b, j, w, x, y) ==
      if w == 0 then 0.0 else Dot(a, i, b, j, w - 1, x, y) + (a[i + w - 1] - x) * (b[j + w - 1] - y)
  {
  }

  lemma SumUnfold(a: seq<real>, i: nat, w: nat)
    requires i + w <= |a|
    ensures Sum(a, i, w) == if w == 0 then 0.0 else Sum(a, i, w - 1) + a[i + w - 1]
  {
  }

  /** One more element on both sides of the expansion. */
  lemma ExpandStep(d: real, d0: real, s: real, t: real, n: real, p: real, q: real, x: real, y: real,
                   d': real, d0': real, s': real, t': real, n': real)
    requires d == d0 - x * t - y * s + n * x * y
    requires d' == d + (p - x) * (q - y) && d0' == d0 + (p - 0.0) * (q - 0.0) && s' == s + p && t' == t + q
    requires n' == n + 1.0
    ensures d' == d0' - x * t' - y * s' + n' * x * y
  {
    assert (p - x) * (q - y) == p * q - x * q - y * p + x * y;
    assert x * (t + q) == x * t + x * q;
    assert y * (s + p) == y * s + y * p;
    Distribute(n, 1.0, x, y);
  }

  lemma Distribute(p: real, q: real, x: real, y: real)
    ensures (p + q) * x * y == p * x * y + q * x * y
  {
    assert (p + q) * x == p * x + q * x;
  }

  /** Centring in terms of the plain sums. */
  lemma CentredDotExpand(a: seq<real>, i: nat, b: seq<real>, j: nat, w: nat)
    requires w > 0 && i + w <= |a| && j + w <= |b|
    ensures CentredDot(a, i, b, j, w)
         == Dot(a, i, b, j, w, 0.0, 0.0) - (w as real) * Mean(a, i, w) * Mean(b, j, w)
    ensures Sum(a, i, w) == (w as real) * Mean(a, i, w) && Sum(b, j, w) == (w as real) * Mean(b, j, w)
  {
    hide Sum, Dot, Mean;
    var n, x, y := w as real, Mean(a, i, w), Mean(b, j, w);
    DotExpand(a, i, b, j, w, x, y);
    SumIsMean(a, i, w);
    SumIsMean(b, j, w);
    CentreAlgebra(Sum(a, i, w), Sum(b, j, w), n, x, y);
  }

  lemma SumIsMean(a: seq<real>, i: nat, w: nat)
    requires w > 0 && i + w <= |a|
    ensures Sum(a, i, w) == (w as real) * Mean(a, i, w)
  {
    hide Sum;
    var n := w as real;
    assert Sum(a, i, w) == n * (Sum(a, i, w) / n);
  }

  lemma CentreAlgebra(s: real, t: real, n: real, x: real, y: real)
    requires s == n * x && t == n * y
    ensures - x * t - y * s + n * x * y == - n * x * y
  {
    assert x * (n * y) == n * x * y;
    assert y * (n * x) == n * x * y;
  }

  // ---------- The covariance recurrence ----------

  ghost function Df(a: seq<real>, i: nat, w: nat): real
    requires i + w < |a|
  {
    (a[i + w] - a[i]) / 2.0
  }

  ghost function Dg(a: seq<real>, i: nat, w: nat): real
    requires w > 0 && i + w < |a|
  {
    (a[i + w] - Mean(a, i + 1, w)) + (a[i] - Mean(a, i, w))
  }

  /** Sliding both windows adds a product of the leaving and entering elements and of the mean steps. */
  lemma SlideIdentity(n: real, p: real, q: real, x: real, y: real, u: real, v: real)
    ensures (p + n * u) * (q + n * v) - p * q - n * (x + u) * (y + v) + n * x * y
         == (n * u / 2.0) * ((q + n * v - (y + v)) + (q - y)) + ((p + n * u - (x + u)) + (p - x)) * (n * v / 2.0)
  {
    var s, t := n * u, n * v;
    assert (p + s) * (q + t) == p * q + p * t + s * q + s * t;
    assert n * (x + u) * (y + v) == n * x * y + t * x + s * y + s * v by {
      assert n * (x + u) == n * x + s;
      assert (n * x + s) * (y + v) == n * x * y + n * x * v + s * y + s * v;
      assert n * x * v == t * x;
    }
    assert (s / 2.0) * ((q + t - (y + v)) + (q - y)) == s * q + s * t / 2.0 - s * y - s * v / 2.0;
    assert ((p + s - (x + u)) + (p - x)) * (t / 2.0) == t * p + s * t / 2.0 - t * x - u * t / 2.0;
    assert u * t == s * v;
  }

  lemma StepAlgebra(n: real, p: real, p': real, q: real, q': real, x: real, x': real, y: real, y': real)
    requires n * x' == n * x - p + p' && n * y' == n * y - q + q'
    ensures p' * q' - p * q - n * x' * y' + n * x * y
         == (p' - p) / 2.0 * ((q' - y') + (q - y)) + ((p' - x') + (p - x)) * ((q' - q) / 2.0)
  {
    var u, v := x' - x, y' - y;
    assert p' == p + n * u && q' == q + n * v;
    SlideIdentity(n, p, q, x, y, u, v);
  }

  /** One step down a diagonal: the update with `df` and `dg` gives the next centred dot product exactly. */
  lemma CovarianceStep(a: seq<real>, i: nat, b: seq<real>, j: nat, w: nat)
    requires w > 0 && i + w < |a| && j + w < |b|
    ensures CentredDot(a, i + 1, b, j + 1, w)
         == CentredDot(a, i, b, j, w) + Df(a, i, w) * Dg(b, j, w) + Dg(a, i, w) * Df(b, j, w)
  {
    hide Sum, Dot, Mean, CentredDot;
    CentredDotExpand(a, i, b, j, w);
    CentredDotExpand(a, i + 1, b, j + 1, w);
    SumSlide(a, i, w);
    SumSlide(b, j, w);
    DotSlide(a, i, b, j, w, 0.0, 0.0);
    StepAlgebra(w as real, a[i], a[i + w], b[j], b[j + w],
      Mean(a, i, w), Mean(a, i + 1, w), Mean(b, j, w), Mean(b, j + 1, w));
  }

  /** The arguments of a launch, cut out of two series at a tile's position. */
  ghost predicate FromSeries(args: Args, a: seq<real>, col: nat, b: seq<real>, row: nat, w: nat) {
    && args.Valid() && w > 0
    && (args.nx > 0 ==> col + args.nx + w - 1 <= |a|) && (args.ny > 0 ==> row + args.ny + w - 1 <= |b|)
    && (args.ny > 0 ==> forall c :: 0 <= c < args.nx ==> args.cov0[c] == CentredDot(a, col + c, b, row, w))
    && (forall c :: 0 <= c < args.nx - 1 ==> args.dfa[c] == Df(a, col + c, w) && args.dga[c] == Dg(a, col + c, w))
    && (forall r :: 0 <= r < args.ny - 1 ==> args.dfb[r] == Df(b, row + r, w) && args.dgb[r] == Dg(b, row + r, w))
  }

  /** The pipeline is exact: every cell a kernel can reach carries the centred dot product of its subsequences. */
  lemma {:induction false} CovarianceIsExact(args: Args, a: seq<real>, col: nat, b: seq<real>, row: nat, w: nat, r: nat,
                                             c: nat)
    requires FromSeries(args, a, col, b, row, w) && r <= c < args.nx && r < args.ny
    ensures args.Cov(r, c) == CentredDot(a, col + c, b, row + r, w)
    decreases r
  {
    hide CentredDot, Df, Dg;
    if r > 0 {
      CovarianceIsExact(args, a, col, b, row, w, r - 1, c - 1);
      CovarianceStep(a, col + (c - 1), b, row + (r - 1), w);
    }
  }

  // ---------- The range of a correlation ----------

  lemma {:induction false} DotSquareNonNegative(a: seq<real>, i: nat, w: nat, x: real)
    requires i + w <= |a|
    ensures Dot(a, i, a, i, w, x, x) >= 0.0
  {
    if w > 0 {
      DotSquareNonNegative(a, i, w - 1, x);
      SquareNonNegative(a[i + w - 1] - x);
    }
  }

  lemma SquareNonNegative(x: real)
    ensures x * x >= 0.0
  {
  }

  lemma CauchyStep(p: real, s: real, t: real, x: real, y: real, p': real, s': real, t': real)
    requires s >= 0.0 && t >= 0.0 && p * p <= s * t
    requires p' == p + x * y && s' == s + x * x && t' == t + y * y
    ensures p' * p' <= s' * t'
  {
    var gap := s * (y * y) - 2.0 * p * (x * y) + t * (x * x);
    assert gap >= 0.0 by {
      if s == 0.0 {
        ZeroSquare(p);
        SquareNonNegative(x);
        MulNonNegative(t, x * x);
      } else {
        var z := s * y - p * x;
        SquareNonNegative(z);
        SquareNonNegative(x);
        MulNonNegative(s * t - p * p, x * x);
        GapIdentity(p, s, t, x, y, gap, z);
        Positive(s, gap);
      }
    }
    assert (p + x * y) * (p + x * y) == p * p + 2.0 * p * (x * y) + (x * x) * (y * y);
    assert (s + x * x) * (t + y * y) == s * t + s * (y * y) + t * (x * x) + (x * x) * (y * y);
  }

  /** Completing the square. */
  lemma GapIdentity(p: real, s: real, t: real, x: real, y: real, gap: real, z: real)
    requires gap == s * (y * y) - 2.0 * p * (x * y) + t * (x * x) && z == s * y - p * x
    ensures s * gap == z * z + (s * t - p * p) * (x * x)
  {
    var a, b, c := s * (y * y), p * (x * y), t * (x * x);
    TimesSum(s, a, b, c);
    SquareOfDifference(s * y, p * x);
    ProductOfProducts(s, y, s, y);
    ProductOfProducts(s, y, p, x);
    ProductOfProducts(p, x, p, x);
    Associate(s, s, y * y);
    Associate(s, p, x * y);
    Associate(s, t, x * x);
    TimesDifference(s * t, p * p, x * x);
  }

  lemma TimesSum(s: real, a: real, b: real, c: real)
    ensures s * (a - 2.0 * b + c) == s * a - 2.0 * (s * b) + s * c
  {
  }

  lemma SquareOfDifference(u: real, v: real)
    ensures (u - v) * (u - v) == u * u - 2.0 * (u * v) + v * v
  {
  }

  lemma ProductOfProducts(a: real, b: real, c: real, d: real)
    ensures (a * b) * (c * d) == (a * c) * (b * d) == (a * c) * (d * b)
  {
  }

  lemma Associate(a: real, b: real, c: real)
    ensures a * (b * c) == (a * b) * c
  {
  }

  lemma TimesDifference(a: real, b: real, c: real)
    ensures (a - b) * c == a * c - b * c
  {
  }

  lemma ZeroSquare(p: real)
    requires p * p <= 0.0
    ensures p == 0.0
  {
    if p < 0.0 {
      Negate(p, p);
      Positive(-p, p);
    } else if p > 0.0 {
      Negate(p, p);
      Positive(p, -p);
    }
  }

  lemma Negate(x: real, y: real)
    ensures (-x) * y == -(x * y) == x * (-y)
  {
  }

  lemma MulNonNegative(x: real, y: real)
    requires x >= 0.0 && y >= 0.0
    ensures x * y >= 0.0
  {
  }

  lemma Positive(s: real, g: real)
    requires s > 0.0 && s * g >= 0.0
    ensures g >= 0.0
  {
  }

  lemma {:induction false} CauchySchwarz(a: seq<real>, i: nat, b: seq<real>, j: nat, w: nat, x: real, y: real)
    requires i + w <= |a| && j + w <= |b|
    ensures Dot(a, i, b, j, w, x, y) * Dot(a, i, b, j, w, x, y) <= Dot(a, i, a, i, w, x, x) * Dot(b, j, b, j, w, y, y)
  {
    hide Dot;
    DotUnfold(a, i, b, j, w, x, y);
    DotUnfold(a, i, a, i, w, x, x);
    DotUnfold(b, j, b, j, w, y, y);
    if w > 0 {
      CauchySchwarz(a, i, b, j, w - 1, x, y);
      DotSquareNonNegative(a, i, w - 1, x);
      DotSquareNonNegative(b, j, w - 1, y);
      CauchyStep(Dot(a, i, b, j, w - 1, x, y), Dot(a, i, a, i, w - 1, x, x), Dot(b, j, b, j, w - 1, y, y),
        a[i + w - 1] - x, b[j + w - 1] - y,
        Dot(a, i, b, j, w, x, y), Dot(a, i, a, i, w, x, x), Dot(b, j, b, j, w, y, y));
    }
  }

  /** `x` is the inverse norm of a window: one over the square root of its squared differences. */
  ghost predicate IsInverseNorm(x: real, a: seq<real>, i: nat, w: nat)
    requires w > 0 && i + w <= |a|
  {
    x > 0.0 && x * x * SquaredDifferences(a, i, w) == 1.0
  }

  /** A correlation lies in [-1, 1], so the sentinel -2 can never hide one. */
  lemma CorrelationRange(a: seq<real>, i: nat, b: seq<real>, j: nat, w: nat, x: real, y: real)
    requires w > 0 && i + w <= |a| && j + w <= |b|
    requires IsInverseNorm(x, a, i, w) && IsInverseNorm(y, b, j, w)
    ensures -1.0 <= CentredDot(a, i, b, j, w) * x * y <= 1.0
    ensures CentredDot(a, i, b, j, w) * x * y > InitDist(Nearest)
  {
    hide SquaredDifferences, CentredDot;
    CentredCauchySchwarz(a, i, b, j, w);
    RangeAlgebra(CentredDot(a, i, b, j, w), SquaredDifferences(a, i, w), SquaredDifferences(b, j, w), x, y);
  }

  /** `r` is the Pearson correlation of two windows: `r = c / sqrt(s * t)`, without the square root. */
  predicate IsPearson(r: real, c: real, s: real, t: real) {
    r * r * (s * t) == c * c && (r > 0.0 <==> c > 0.0) && (r < 0.0 <==> c < 0.0)
  }

  /** The value a kernel computes for a pair is its Pearson correlation. */
  lemma CorrelationIsPearson(a: seq<real>, i: nat, b: seq<real>, j: nat, w: nat, x: real, y: real, r: real)
    requires w > 0 && i + w <= |a| && j + w <= |b|
    requires IsInverseNorm(x, a, i, w) && IsInverseNorm(y, b, j, w) && r == CentredDot(a, i, b, j, w) * x * y
    ensures IsPearson(r, CentredDot(a, i, b, j, w), SquaredDifferences(a, i, w), SquaredDifferences(b, j, w))
  {
    hide SquaredDifferences, CentredDot, IsPearson;
    PearsonAlgebra(r, CentredDot(a, i, b, j, w), SquaredDifferences(a, i, w), SquaredDifferences(b, j, w), x, y);
  }

  lemma PearsonAlgebra(r: real, c: real, s: real, t: real, x: real, y: real)
    requires x > 0.0 && y > 0.0 && x * x * s == 1.0 && y * y * t == 1.0 && r == c * x * y
    ensures IsPearson(r, c, s, t)
  {
    var z, m := x * y, x * x * (y * y);
    assert r == c * z;
    PositiveProduct(x, y);
    SignOfProduct(c, z);
    assert r * r == (c * c) * m;
    assert m * (s * t) == (x * x * s) * (y * y * t);
    assert m * (s * t) == 1.0;
    Regroup(r * r, c * c, m, s * t);
  }

  lemma Regroup(r: real, x: real, y: real, z: real)
    requires r == x * y && y * z == 1.0
    ensures r * z == x
  {
    assert (x * y) * z == x * (y * z);
  }

  lemma PositiveProduct(x: real, y: real)
    requires x > 0.0 && y > 0.0
    ensures x * y > 0.0
  {
  }

  lemma SignOfProduct(c: real, z: real)
    requires z > 0.0
    ensures (c * z > 0.0 <==> c > 0.0) && (c * z < 0.0 <==> c < 0.0)
  {
    if c > 0.0 {
      PositiveProduct(c, z);
    } else if c < 0.0 {
      PositiveProduct(-c, z);
      Negate(c, z);
    }
  }

  lemma CentredCauchySchwarz(a: seq<real>, i: nat, b: seq<real>, j: nat, w: nat)
    requires w > 0 && i + w <= |a| && j + w <= |b|
    ensures CentredDot(a, i, b, j, w) * CentredDot(a, i, b, j, w) <= SquaredDifferences(a, i, w) * SquaredDifferences(b,
      j, w)
  {
    hide Dot, Mean;
    CauchySchwarz(a, i, b, j, w, Mean(a, i, w), Mean(b, j, w));
  }

  lemma RangeAlgebra(c: real, s: real, t: real, x: real, y: real)
    requires c * c <= s * t && x * x * s == 1.0 && y * y * t == 1.0
    ensures -1.0 <= c * x * y <= 1.0
  {
    var k, r := x * x * (y * y), c * x * y;
    SquareNonNegative(x);
    SquareNonNegative(y);
    MulNonNegative(x * x, y * y);
    MulMonotone(k, c * c, s * t);
    assert k * (s * t) == (x * x * s) * (y * y * t);
    assert r * r == k * (c * c);
    UnitInterval(r);
  }

  lemma MulMonotone(k: real, x: real, y: real)
    requires k >= 0.0 && x <= y
    ensures k * x <= k * y
  {
  }

  lemma UnitInterval(r: real)
    requires r * r <= 1.0
    ensures -1.0 <= r <= 1.0
  {
  }
}
