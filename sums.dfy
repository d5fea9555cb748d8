/** Sums over rows of reals: the row sums, sums of squares and sums of
    products that `sccByDiag` takes with numpy, the centred sums that
    `np.corrcoef` takes, the Cauchy-Schwarz inequality relating them, and the
    facts about square roots the correlation needs. */
module Sums {
  import opened RealAlgebra

  /** Sum of a row. */
  function Sum(s: seq<real>): real
  {
    if s == [] then 0.0 else s[0] + Sum(s[1..])
  }

  /** Sum of element-wise products; `SumProd(a, a)` is the sum of squares. */
  function SumProd(a: seq<real>, b: seq<real>): real
    requires |a| == |b|
  {
    if a == [] then 0.0 else Times(a[0], b[0]) + SumProd(a[1..], b[1..])
  }

  /** `k · x`. Scaling results are stated through this function so that a
      scaled quantity can be recognised wherever it occurs. */
  function Times(k: real, x: real): real
  {
    k * x
  }

  /** Every element multiplied by `c`. */
  function Scale(s: seq<real>, c: real): (r: seq<real>)
    ensures |r| == |s|
    ensures forall i :: 0 <= i < |s| ==> r[i] == c * s[i]
  {
    if s == [] then [] else [c * s[0]] + Scale(s[1..], c)
  }

  /** Every element minus `p` (the deviations from `p`). */
  function Shift(s: seq<real>, p: real): (r: seq<real>)
    ensures |r| == |s|
    ensures forall i :: 0 <= i < |s| ==> r[i] == s[i] - p
  {
    if s == [] then [] else [s[0] - p] + Shift(s[1..], p)
  }

  ghost predicate NonNegative(s: seq<real>)
  {
    forall i :: 0 <= i < |s| ==> 0.0 <= s[i]
  }

  lemma {:induction false} SumOfConcat(s: seq<real>, t: seq<real>)
    ensures Sum(s + t) == Sum(s) + Sum(t)
  {
    if s != [] {
      assert (s + t)[1..] == s[1..] + t;
      SumOfConcat(s[1..], t);
    } else {
      assert s + t == t;
    }
  }

  lemma {:induction false} SumOfScale(s: seq<real>, c: real)
    ensures Sum(Scale(s, c)) == Times(c, Sum(s))
  {
    if s != [] {
      SumOfScale(s[1..], c);
      assert c * s[0] + c * Sum(s[1..]) == c * (s[0] + Sum(s[1..]));
    }
  }

  lemma {:induction false} SumProdOfScale(a: seq<real>, b: seq<real>, c: real, d: real)
    requires |a| == |b|
    ensures SumProd(Scale(a, c), Scale(b, d)) == Times(c, Times(d, SumProd(a, b)))
  {
    if a != [] {
      SumProdOfScale(a[1..], b[1..], c, d);
      assert Scale(a, c)[1..] == Scale(a[1..], c) && Scale(b, d)[1..] == Scale(b[1..], d);
      ScaledProductStep(a[0], b[0], SumProd(a[1..], b[1..]), c, d);
    }
  }

  lemma ScaledProductStep(x: real, y: real, rest: real, c: real, d: real)
    ensures (c * x) * (d * y) + Times(c, Times(d, rest)) == Times(c, Times(d, x * y + rest))
  {
    assert (c * x) * (d * y) == c * (d * (x * y));
  }

  /** The sum of products of two rows with a first element each. */
  lemma SumProdCons(x: real, y: real, s: seq<real>, t: seq<real>)
    requires |s| == |t|
    ensures SumProd([x] + s, [y] + t) == Times(x, y) + SumProd(s, t)
  {
    assert ([x] + s)[1..] == s && ([y] + t)[1..] == t;
  }

  lemma {:induction false} SumProdSymmetric(a: seq<real>, b: seq<real>)
    requires |a| == |b|
    ensures SumProd(a, b) == SumProd(b, a)
  {
    if a != [] {
      SumProdSymmetric(a[1..], b[1..]);
    }
  }

  /** A sum of squares is never negative. */
  lemma {:induction false} SumSquaresNonNegative(a: seq<real>)
    ensures 0.0 <= SumProd(a, a)
  {
    if a != [] {
      SumSquaresNonNegative(a[1..]);
      assert 0.0 <= a[0] * a[0];
    }
  }

  /** Cauchy-Schwarz: `(Σuv)² ≤ Σu² · Σv²`. */
  lemma {:induction false} CauchySchwarz(u: seq<real>, v: seq<real>)
    requires |u| == |v|
    ensures ProductBound(SumProd(u, v), SumProd(u, u), SumProd(v, v))
  {
    if u != [] {
      CauchySchwarz(u[1..], v[1..]);
      SumSquaresNonNegative(u[1..]);
      SumSquaresNonNegative(v[1..]);
      CauchySchwarzStep(u[0], v[0], SumProd(u[1..], u[1..]), SumProd(u[1..], v[1..]),
        SumProd(v[1..], v[1..]), SumProd(u, v), SumProd(u, u), SumProd(v, v));
    }
  }

  /** The sum of products of `n` deviations from centres `p` and `q`,
      expressed through the sums `sx`, `sy` and the sum of products `sxy`
      of the values themselves. */
  function Expanded(sxy: real, sx: real, sy: real, n: real, p: real, q: real): real
  {
    sxy - q * sx - p * sy + n * p * q
  }

  /** Expanding the deviations: the centred sum of products is the plain sum
      of products corrected by the two centres. */
  lemma {:induction false} CentredExpansion(x: seq<real>, y: seq<real>, p: real, q: real)
    requires |x| == |y|
    ensures SumProd(Shift(x, p), Shift(y, q)) == Expanded(SumProd(x, y), Sum(x), Sum(y), |x| as real, p, q)
  {
    if x != [] {
      assert Shift(x, p)[1..] == Shift(x[1..], p);
      assert Shift(y, q)[1..] == Shift(y[1..], q);
      CentredExpansion(x[1..], y[1..], p, q);
      assert (x[0] - p) * (y[0] - q) == x[0] * y[0] - q * x[0] - p * y[0] + p * q;
      assert (|x| as real) * p * q == ((|x| - 1) as real) * p * q + p * q;
    }
  }

  /** The mean of `n` values summing to `total`. */
  function Mean(total: real, n: real): real
    requires n != 0.0
  {
    total / n
  }

  /** The covariance term from sufficient statistics: `Σxy - ΣxΣy/n`, for
      `n` samples with sums `sx`, `sy` and sum of products `sxy`. */
  function Cov(sxy: real, sx: real, sy: real, n: real): real
    requires n != 0.0
  {
    sxy - sx * sy / n
  }

  /** Scaling the values of the first variable by `c` and of the second by
      `d` scales the covariance term by `c·d`. */
  lemma CovScaled(sxy: real, sx: real, sy: real, n: real, c: real, d: real)
    requires n != 0.0
    ensures Cov(Times(c, Times(d, sxy)), Times(c, sx), Times(d, sy), n) == Times(c, Times(d, Cov(sxy, sx, sy, n)))
  {
    assert Times(c, sx) * Times(d, sy) == c * d * (sx * sy);
    assert c * d * (sx * sy) / n == c * d * (sx * sy / n);
  }

  /** The three mean corrections of a centred sum of products add up to one
      `sx·sy/n`. */
  lemma MeanCorrection(n: real, sx: real, sy: real)
    requires n > 0.0
    ensures Mean(sy, n) * sx + Mean(sx, n) * sy - n * Mean(sx, n) * Mean(sy, n) == sx * sy / n
  {
    var p, q, m := sx / n, sy / n, sx * sy / n;
    DivisionInverse(sx, n);
    DivisionInverse(sy, n);
    DivisionInverse(sx * sy, n);
    MeansAlgebra(n, sx, sy, p, q, m);
  }

  /** The expansion of a centred sum of products `e` at the means, collected
      into the covariance term. */
  lemma ExpansionAtMeans(sxy: real, sx: real, sy: real, n: real)
    requires n > 0.0
    ensures Expanded(sxy, sx, sy, n, Mean(sx, n), Mean(sy, n)) == Cov(sxy, sx, sy, n)
  {
    MeanCorrection(n, sx, sy);
  }

  /** Centred at the means, the sum of products of deviations is the
      sufficient-statistics covariance term. */
  lemma CentredAtMeans(x: seq<real>, y: seq<real>, n: real)
    requires |x| == |y| > 0 && n == |x| as real
    ensures SumProd(Shift(x, Mean(Sum(x), n)), Shift(y, Mean(Sum(y), n))) == Cov(SumProd(x, y), Sum(x), Sum(y), n)
  {
    CentredExpansion(x, y, Mean(Sum(x), n), Mean(Sum(y), n));
    ExpansionAtMeans(SumProd(x, y), Sum(x), Sum(y), n);
  }

  /** `sqrt(x)`. Every application of the square-root parameter goes through
      this one function, so that the function bodies and the lemmas about
      them speak of the same value. */
  function Root(sqrt: real -> real, x: real): real
  {
    sqrt(x)
  }

  /** `sqrt` is the non-negative square root on the non-negative reals. */
  ghost predicate IsSqrt(sqrt: real -> real)
  {
    forall x: real {:trigger Root(sqrt, x)} :: 0.0 <= x ==> 0.0 <= Root(sqrt, x) && Root(sqrt, x) * Root(sqrt, x) == x
  }

  /** A non-negative `t` with `t * t == x` is `sqrt(x)`. */
  lemma SqrtUnique(sqrt: real -> real, x: real, t: real)
    requires IsSqrt(sqrt)
    requires 0.0 <= t && t * t == x
    ensures Root(sqrt, x) == t
  {
    var s := Root(sqrt, x);
    assert 0.0 <= s && s * s == x;
    SquareMonotone(s, t);
    SquareMonotone(t, s);
  }

  lemma SqrtOfSquare(sqrt: real -> real, v: real)
    requires IsSqrt(sqrt)
    ensures Root(sqrt, v * v) == if v < 0.0 then -v else v
  {
    if v < 0.0 {
      SqrtUnique(sqrt, v * v, -v);
    } else {
      SqrtUnique(sqrt, v * v, v);
    }
  }

  lemma SqrtZeroIff(sqrt: real -> real, x: real)
    requires IsSqrt(sqrt) && 0.0 <= x
    ensures Root(sqrt, x) == 0.0 <==> x == 0.0
  {
    if x == 0.0 {
      SqrtUnique(sqrt, x, 0.0);
    }
  }

  /** `sqrt(c²va · d²vb) = c·d·sqrt(va · vb)` for positive `c`, `d`. */
  lemma ScaledRoot(va: real, vb: real, c: real, d: real, sqrt: real -> real)
    requires IsSqrt(sqrt) && 0.0 < c && 0.0 < d && 0.0 <= va * vb
    ensures Root(sqrt, (c * c * va) * (d * d * vb)) == c * d * Root(sqrt, va * vb)
  {
    var r := Root(sqrt, va * vb);
    assert 0.0 <= r && r * r == va * vb;
    assert (c * d * r) * (c * d * r) == (c * c * va) * (d * d * vb);
    MulStrict(c, d, 0.0);
    assert 0.0 <= c * d * r;
    SqrtUnique(sqrt, (c * c * va) * (d * d * vb), c * d * r);
  }
}
