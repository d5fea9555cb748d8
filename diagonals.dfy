/** The per-diagonal statistics of HiCRep's stratum-adjusted correlation
    coefficient (SCC), over exact reals.

    A diagonal is a row of reals, one per cell at a fixed offset from the main
    diagonal. `sccByDiag` (hicrep/hicrep.py:71-91) computes, per diagonal,
    Pearson's ρ from sufficient statistics over the cells that are non-zero in
    either matrix, and a weight from the variance-stabilising function
    `varVstran`; undefined values (NaN, ±inf) become 0, and the score is
    Σρw / Σw. The deprecated `sccOfDiag` (hicrep/hicrep.py:31-55) computes
    one diagonal's (ρ, w) by filtering the common zeros out first.

    An undefined floating-point value is `None`. `sqrt` and `varVstran` are
    parameters; facts about `sqrt` are assumed only through `IsSqrt`. */
module Diagonals {
  import opened Wrappers
  import opened Sums
  import opened RealAlgebra

  // ---------------------------------------------------------------------
  // The cells that are non-zero in either row
  // ---------------------------------------------------------------------

  /** The positions `j >= i` where `a` or `b` is non-zero, ascending. */
  function NonzeroFrom(a: seq<real>, b: seq<real>, i: nat): (idx: seq<nat>)
    requires |a| == |b| && i <= |a|
    ensures forall k :: 0 <= k < |idx| ==> i <= idx[k] < |a| && (a[idx[k]] != 0.0 || b[idx[k]] != 0.0)
    ensures forall j :: i <= j < |a| && (a[j] != 0.0 || b[j] != 0.0) ==> j in idx
    ensures forall k, l :: 0 <= k < l < |idx| ==> idx[k] < idx[l]
    decreases |a| - i
  {
    if i == |a| then []
    else if a[i] != 0.0 || b[i] != 0.0 then [i] + NonzeroFrom(a, b, i + 1)
    else NonzeroFrom(a, b, i + 1)
  }

  /** `np.where((diag1 != 0.0) | (diag2 != 0.0))[0]`: exactly the positions
      where either row is non-zero, in their original order. */
  function NonzeroUnion(a: seq<real>, b: seq<real>): (idx: seq<nat>)
    requires |a| == |b|
    ensures forall k :: 0 <= k < |idx| ==> idx[k] < |a| && (a[idx[k]] != 0.0 || b[idx[k]] != 0.0)
    ensures forall j :: 0 <= j < |a| ==> (j in idx <==> a[j] != 0.0 || b[j] != 0.0)
    ensures forall k, l :: 0 <= k < l < |idx| ==> idx[k] < idx[l]
  {
    NonzeroFrom(a, b, 0)
  }

  /** `s[idx]`, numpy's fancy indexing. */
  function Gather(s: seq<real>, idx: seq<nat>): (r: seq<real>)
    requires forall k :: 0 <= k < |idx| ==> idx[k] < |s|
    ensures |r| == |idx|
    ensures forall k :: 0 <= k < |idx| ==> r[k] == s[idx[k]]
  {
    if idx == [] then [] else [s[idx[0]]] + Gather(s, idx[1..])
  }

  /** `(m1D + m2D).getnnz(axis=1)` for one row: the number of positions where
      the sum of the two rows is non-zero (a sparse sum stores no zeros). */
  function NSamples(a: seq<real>, b: seq<real>): (n: nat)
    requires |a| == |b|
    ensures n <= |a|
  {
    if a == [] then 0
    else (if a[0] + b[0] != 0.0 then 1 else 0) + NSamples(a[1..], b[1..])
  }

  /** No position where the two rows cancel out without both being zero. */
  ghost predicate NoCancellation(a: seq<real>, b: seq<real>)
    requires |a| == |b|
  {
    forall i :: 0 <= i < |a| ==> (a[i] + b[i] == 0.0 ==> a[i] == 0.0 && b[i] == 0.0)
  }

  lemma NonNegativeRowsDoNotCancel(a: seq<real>, b: seq<real>)
    requires |a| == |b| && NonNegative(a) && NonNegative(b)
    ensures NoCancellation(a, b)
  {
  }

  lemma {:induction false} CountFrom(a: seq<real>, b: seq<real>, i: nat)
    requires |a| == |b| && i <= |a| && NoCancellation(a, b)
    ensures NSamples(a[i..], b[i..]) == |NonzeroFrom(a, b, i)|
    decreases |a| - i
  {
    if i < |a| {
      assert a[i..][1..] == a[i + 1..] && b[i..][1..] == b[i + 1..];
      CountFrom(a, b, i + 1);
    }
  }

  /** The sample count of `sccByDiag` is the number of cells `sccOfDiag`
      keeps, whenever the rows cannot cancel out (e.g. contact counts, which
      are non-negative). */
  lemma SampleCountIsUnionSize(a: seq<real>, b: seq<real>)
    requires |a| == |b| && NoCancellation(a, b)
    ensures NSamples(a, b) == |NonzeroUnion(a, b)|
  {
    CountFrom(a, b, 0);
    assert a[0..] == a && b[0..] == b;
  }

  /** Row `s` vanishes wherever both `a` and `b` do. */
  ghost predicate ZeroAtCommonZeros(s: seq<real>, a: seq<real>, b: seq<real>)
    requires |s| == |a| == |b|
  {
    forall j :: 0 <= j < |s| ==> (a[j] == 0.0 && b[j] == 0.0 ==> s[j] == 0.0)
  }

  lemma GatherStep(a: seq<real>, b: seq<real>, s: seq<real>, i: nat)
    requires |a| == |b| == |s| && i < |a|
    ensures Gather(s, NonzeroFrom(a, b, i))
         == (if a[i] != 0.0 || b[i] != 0.0 then [s[i]] else []) + Gather(s, NonzeroFrom(a, b, i + 1))
  {
    if a[i] != 0.0 || b[i] != 0.0 {
      var rest := NonzeroFrom(a, b, i + 1);
      assert ([i] + rest)[1..] == rest;
    }
  }

  lemma {:induction false} GatherSumFrom(a: seq<real>, b: seq<real>, s: seq<real>, i: nat)
    requires |a| == |b| == |s| && i <= |a| && ZeroAtCommonZeros(s, a, b)
    ensures Sum(Gather(s, NonzeroFrom(a, b, i))) == Sum(s[i..])
    decreases |a| - i
  {
    if i < |a| {
      assert s[i..][1..] == s[i + 1..];
      GatherSumFrom(a, b, s, i + 1);
      GatherStep(a, b, s, i);
    }
  }

  lemma {:induction false} GatherSumProdFrom(a: seq<real>, b: seq<real>, s: seq<real>, t: seq<real>, i: nat)
    requires |a| == |b| == |s| == |t| && i <= |a| && ZeroAtCommonZeros(s, a, b)
    ensures SumProd(Gather(s, NonzeroFrom(a, b, i)), Gather(t, NonzeroFrom(a, b, i))) == SumProd(s[i..], t[i..])
    decreases |a| - i
  {
    if i < |a| {
      GatherSumProdFrom(a, b, s, t, i + 1);
      GatherProductStep(a, b, s, t, i);
      SumProdSuffix(s, t, i);
      if !(a[i] != 0.0 || b[i] != 0.0) {
        assert s[i] == 0.0;
      }
    }
  }

  lemma GatherProductStep(a: seq<real>, b: seq<real>, s: seq<real>, t: seq<real>, i: nat)
    requires |a| == |b| == |s| == |t| && i < |a|
    ensures SumProd(Gather(s, NonzeroFrom(a, b, i)), Gather(t, NonzeroFrom(a, b, i)))
         == (if a[i] != 0.0 || b[i] != 0.0 then Times(s[i], t[i]) else 0.0)
            + SumProd(Gather(s, NonzeroFrom(a, b, i + 1)), Gather(t, NonzeroFrom(a, b, i + 1)))
  {
    GatherStep(a, b, s, i);
    GatherStep(a, b, t, i);
    if a[i] != 0.0 || b[i] != 0.0 {
      SumProdCons(s[i], t[i], Gather(s, NonzeroFrom(a, b, i + 1)), Gather(t, NonzeroFrom(a, b, i + 1)));
    }
  }

  lemma SumProdSuffix(s: seq<real>, t: seq<real>, i: nat)
    requires |s| == |t| && i < |s|
    ensures SumProd(s[i..], t[i..]) == Times(s[i], t[i]) + SumProd(s[i + 1..], t[i + 1..])
  {
    assert s[i..] == [s[i]] + s[i + 1..] && t[i..] == [t[i]] + t[i + 1..];
    SumProdCons(s[i], t[i], s[i + 1..], t[i + 1..]);
  }

  /** Removing the common zeros changes none of the sums the correlation is
      computed from. */
  lemma DroppingCommonZerosKeepsSums(a: seq<real>, b: seq<real>)
    requires |a| == |b|
    ensures var idx := NonzeroUnion(a, b);
      var ga, gb := Gather(a, idx), Gather(b, idx);
      Sum(ga) == Sum(a) && Sum(gb) == Sum(b)
      && SumProd(ga, gb) == SumProd(a, b)
      && SumProd(ga, ga) == SumProd(a, a)
      && SumProd(gb, gb) == SumProd(b, b)
  {
    assert a[0..] == a && b[0..] == b;
    GatherSumFrom(a, b, a, 0);
    GatherSumFrom(a, b, b, 0);
    GatherSumProdFrom(a, b, a, b, 0);
    GatherSumProdFrom(a, b, a, a, 0);
    GatherSumProdFrom(a, b, b, b, 0);
  }

  // ---------------------------------------------------------------------
  // sccByDiag: ρ and weight per diagonal from sufficient statistics
  // ---------------------------------------------------------------------

  /** The covariance term of `sccByDiag` for two rows over `n` samples,
      `Σab - ΣaΣb/n`; `RowCov(a, a, n)` is the variance term `Σa² - (Σa)²/n`. */
  function RowCov(a: seq<real>, b: seq<real>, n: real): real
    requires |a| == |b| && n != 0.0
  {
    Cov(SumProd(a, b), Sum(a), Sum(b), n)
  }

  /** `cov / sqrt(va * vb)` in floating point: undefined when `va * vb` is
      negative (the root of a negative number is NaN) and when the root is 0
      (a division by zero gives NaN or ±inf). */
  function Correlation(cov: real, va: real, vb: real, sqrt: real -> real): Option<real>
  {
    var p := va * vb;
    if p < 0.0 || Root(sqrt, p) == 0.0 then None else Some(cov / Root(sqrt, p))
  }

  /** One entry of `rhoD` (hicrep/hicrep.py:79-82), with `n` the sample
      count: undefined when `n` is 0 (the mean corrections divide by zero),
      otherwise the correlation of the covariance term and the two variance
      terms. */
  function Rho(a: seq<real>, b: seq<real>, sqrt: real -> real): Option<real>
    requires |a| == |b|
  {
    var n := NSamples(a, b) as real;
    if n == 0.0 then None else Correlation(RowCov(a, b, n), RowCov(a, a, n), RowCov(b, b, n), sqrt)
  }

  /** `varVstran(n)`, undefined where it is NaN or infinite. Every
      application of the parameter goes through this function. */
  function VarAt(varVstran: nat -> Option<real>, n: nat): Option<real>
  {
    varVstran(n)
  }

  /** One entry of `wsD = nSamplesD * varVstran(nSamplesD)` (hicrep/hicrep.py:83),
      undefined when `varVstran` is. */
  function Weight(n: nat, varVstran: nat -> Option<real>): Option<real>
  {
    match VarAt(varVstran, n)
    case Some(v) => Some(Times(n as real, v))
    case None => None
  }

  /** One diagonal's contribution after `np.nan_to_num`, which turns NaN and
      ±inf into 0. */
  datatype RowStat = RowStat(rho: real, weight: real)

  function Stat(a: seq<real>, b: seq<real>, sqrt: real -> real, varVstran: nat -> Option<real>): RowStat
    requires |a| == |b|
  {
    RowStat(Rho(a, b, sqrt).GetOr(0.0), Weight(NSamples(a, b), varVstran).GetOr(0.0))
  }

  /** Two diagonal tables (one row per offset) of the same shape. */
  predicate SameShape(t1: seq<seq<real>>, t2: seq<seq<real>>)
  {
    |t1| == |t2| && forall k :: 0 <= k < |t1| ==> |t1[k]| == |t2[k]|
  }

  /** The per-diagonal statistics of two tables, row by row. */
  function Stats(t1: seq<seq<real>>, t2: seq<seq<real>>, sqrt: real -> real,
                 varVstran: nat -> Option<real>): (s: seq<RowStat>)
    requires SameShape(t1, t2)
    ensures |s| == |t1|
    ensures forall k :: 0 <= k < |t1| ==> s[k] == Stat(t1[k], t2[k], sqrt, varVstran)
  {
    if t1 == [] then [] else [Stat(t1[0], t2[0], sqrt, varVstran)] + Stats(t1[1..], t2[1..], sqrt, varVstran)
  }

  /** `rhoNan2Zero @ wsNan2Zero`. */
  function Numerator(s: seq<RowStat>): real
  {
    if s == [] then 0.0 else s[0].rho * s[0].weight + Numerator(s[1..])
  }

  /** `wsNan2Zero.sum()`. */
  function Denominator(s: seq<RowStat>): real
  {
    if s == [] then 0.0 else s[0].weight + Denominator(s[1..])
  }

  /** The weighted average `Σρw / Σw`, undefined when the weights sum to 0. */
  function Aggregate(s: seq<RowStat>): Option<real>
  {
    var den := Denominator(s);
    if den == 0.0 then None else Some(Numerator(s) / den)
  }

  /** The SCC of two diagonal tables, as `sccByDiag` returns it. */
  function SccOfTables(t1: seq<seq<real>>, t2: seq<seq<real>>, sqrt: real -> real,
                       varVstran: nat -> Option<real>): Option<real>
    requires SameShape(t1, t2)
  {
    Aggregate(Stats(t1, t2, sqrt, varVstran))
  }

  // ---------------------------------------------------------------------
  // What the sufficient statistics mean
  // ---------------------------------------------------------------------

  /** Over rows that do not cancel out, the covariance term of two rows
      vanishing at the common zeros is the centred sum of products of the
      cells kept by `NonzeroUnion`, with `n` their number: Pearson's
      covariance up to the factor `n - 1`. (The variance terms are the case
      `s == t`.) */
  lemma CentredForm(a: seq<real>, b: seq<real>, s: seq<real>, t: seq<real>)
    requires |a| == |b| == |s| == |t| && NoCancellation(a, b) && NSamples(a, b) > 0
    requires ZeroAtCommonZeros(s, a, b) && ZeroAtCommonZeros(t, a, b)
    ensures var idx := NonzeroUnion(a, b);
      var n := NSamples(a, b) as real;
      var gs, gt := Gather(s, idx), Gather(t, idx);
      NSamples(a, b) == |idx|
      && RowCov(s, t, n) == SumProd(Shift(gs, Mean(Sum(gs), n)), Shift(gt, Mean(Sum(gt), n)))
  {
    var idx := NonzeroUnion(a, b);
    var gs, gt := Gather(s, idx), Gather(t, idx);
    SampleCountIsUnionSize(a, b);
    assert s[0..] == s && t[0..] == t;
    GatherSumFrom(a, b, s, 0);
    GatherSumFrom(a, b, t, 0);
    GatherSumProdFrom(a, b, s, t, 0);
    CentredAtMeans(gs, gt, NSamples(a, b) as real);
  }

  /** Cauchy-Schwarz and non-negativity for the deviations of two rows from
      their means. */
  lemma CentredCauchySchwarz(x: seq<real>, y: seq<real>, n: real)
    requires |x| == |y| && n != 0.0
    ensures 0.0 <= SumProd(Shift(x, Mean(Sum(x), n)), Shift(x, Mean(Sum(x), n)))
    ensures 0.0 <= SumProd(Shift(y, Mean(Sum(y), n)), Shift(y, Mean(Sum(y), n)))
    ensures ProductBound(SumProd(Shift(x, Mean(Sum(x), n)), Shift(y, Mean(Sum(y), n))),
                         SumProd(Shift(x, Mean(Sum(x), n)), Shift(x, Mean(Sum(x), n))),
                         SumProd(Shift(y, Mean(Sum(y), n)), Shift(y, Mean(Sum(y), n))))
  {
    SumSquaresNonNegative(Shift(x, Mean(Sum(x), n)));
    SumSquaresNonNegative(Shift(y, Mean(Sum(y), n)));
    CauchySchwarz(Shift(x, Mean(Sum(x), n)), Shift(y, Mean(Sum(y), n)));
  }

  /** The variance terms are never negative, and the covariance is bounded
      by them: `cov² ≤ va · vb`. */
  lemma CovarianceBound(a: seq<real>, b: seq<real>)
    requires |a| == |b| && NoCancellation(a, b) && NSamples(a, b) > 0
    ensures var n := NSamples(a, b) as real;
      0.0 <= RowCov(a, a, n) && 0.0 <= RowCov(b, b, n)
      && ProductBound(RowCov(a, b, n), RowCov(a, a, n), RowCov(b, b, n))
  {
    CentredForm(a, b, a, b);
    CentredForm(a, b, a, a);
    CentredForm(a, b, b, b);
    CentredCauchySchwarz(Gather(a, NonzeroUnion(a, b)), Gather(b, NonzeroUnion(a, b)), NSamples(a, b) as real);
  }

  /** A covariance `c` bounded by the non-negative variance terms `va`,
      `vb` has a correlation in [-1, 1] wherever it is defined. */
  lemma UnitCorrelation(c: real, va: real, vb: real, sqrt: real -> real)
    requires IsSqrt(sqrt) && 0.0 <= va && 0.0 <= vb && ProductBound(c, va, vb)
    ensures Correlation(c, va, vb, sqrt).Some? ==> -1.0 <= Correlation(c, va, vb, sqrt).value <= 1.0
  {
    if Root(sqrt, va * vb) != 0.0 {
      assert 0.0 <= va * vb;
      var s := Root(sqrt, va * vb);
      assert 0.0 < s && s * s == va * vb;
      DivisionInverse(c, s);
      UnitQuotient(c, s, c / s);
    }
  }

  /** Every defined ρ of rows that do not cancel out lies in [-1, 1]. */
  lemma RhoInUnitInterval(a: seq<real>, b: seq<real>, sqrt: real -> real)
    requires |a| == |b| && NoCancellation(a, b) && IsSqrt(sqrt)
    ensures Rho(a, b, sqrt).Some? ==> -1.0 <= Rho(a, b, sqrt).value <= 1.0
  {
    if NSamples(a, b) != 0 {
      CovarianceBound(a, b);
      var n := NSamples(a, b) as real;
      UnitCorrelation(RowCov(a, b, n), RowCov(a, a, n), RowCov(b, b, n), sqrt);
    }
  }

  // ---------------------------------------------------------------------
  // Identical rows
  // ---------------------------------------------------------------------

  lemma RowDoesNotCancelItself(a: seq<real>)
    ensures NoCancellation(a, a)
  {
  }

  /** Where the product of the variance terms is not negative and has a
      non-zero root, the correlation is defined. */
  lemma DefinedCorrelation(c: real, va: real, vb: real, sqrt: real -> real)
    requires !(va * vb < 0.0) && Root(sqrt, va * vb) != 0.0
    ensures Correlation(c, va, vb, sqrt) == Some(c / Root(sqrt, va * vb))
  {
  }

  lemma PositiveSquareRoot(v: real, sqrt: real -> real)
    requires IsSqrt(sqrt) && 0.0 < v
    ensures !(v * v < 0.0) && Root(sqrt, v * v) == v
  {
    SquarePositive(v, 0.0);
    SqrtOfSquare(sqrt, v);
  }

  lemma UnitSelfQuotient(v: real, sqrt: real -> real)
    requires Root(sqrt, v * v) == v && v != 0.0
    ensures v / Root(sqrt, v * v) == 1.0
  {
  }

  /** The correlation of a non-negative variance term with itself is
      undefined exactly when the term is 0, and 1 otherwise. */
  lemma SelfCorrelation(v: real, sqrt: real -> real)
    requires IsSqrt(sqrt) && 0.0 <= v
    ensures Correlation(v, v, v, sqrt) == if v == 0.0 then None else Some(1.0)
  {
    if v == 0.0 {
      SqrtZeroIff(sqrt, v);
    } else {
      PositiveSquareRoot(v, sqrt);
      UnitSelfQuotient(v, sqrt);
      DefinedCorrelation(v, v, v, sqrt);
    }
  }

  /** Identical rows: the covariance term is the variance term, so ρ is 1
      unless the row is degenerate (no samples, or a variance term of 0),
      where it is undefined. */
  lemma RhoOfIdenticalRows(a: seq<real>, sqrt: real -> real)
    requires IsSqrt(sqrt)
    ensures Rho(a, a, sqrt).Some?
        <==> NSamples(a, a) > 0 && RowCov(a, a, NSamples(a, a) as real) != 0.0
    ensures Rho(a, a, sqrt).Some? ==> Rho(a, a, sqrt).value == 1.0
  {
    if NSamples(a, a) > 0 {
      RowDoesNotCancelItself(a);
      CovarianceBound(a, a);
      SelfCorrelation(RowCov(a, a, NSamples(a, a) as real), sqrt);
    }
  }

  // ---------------------------------------------------------------------
  // Scaling: dividing a matrix by its total contact count
  // ---------------------------------------------------------------------

  lemma ScaledCorrelationProducts(cov: real, va: real, vb: real, c: real, d: real, sqrt: real -> real)
    requires IsSqrt(sqrt) && 0.0 < c && 0.0 < d
    ensures Correlation(c * d * cov, c * c * va, d * d * vb, sqrt) == Correlation(cov, va, vb, sqrt)
  {
    ScaledSign(va, vb, c, d);
    if 0.0 <= va * vb {
      ScaledRoot(va, vb, c, d, sqrt);
      if Root(sqrt, va * vb) != 0.0 {
        ScaledQuotient(cov, Root(sqrt, va * vb), c, d);
        assert Root(sqrt, (c * c * va) * (d * d * vb)) != 0.0;
        assert !((c * c * va) * (d * d * vb) < 0.0);
        DefinedCorrelation(cov, va, vb, sqrt);
        assert (c * d * cov) / Root(sqrt, (c * c * va) * (d * d * vb)) == cov / Root(sqrt, va * vb);
      }
    }
  }

  /** Scaling the covariance term by `c·d` and the variance terms by `c²`
      and `d²` leaves the correlation unchanged. */
  lemma ScaledCorrelation(cov: real, va: real, vb: real, c: real, d: real, sqrt: real -> real)
    requires IsSqrt(sqrt) && 0.0 < c && 0.0 < d
    ensures Correlation(Times(c, Times(d, cov)), Times(c, Times(c, va)), Times(d, Times(d, vb)), sqrt)
         == Correlation(cov, va, vb, sqrt)
  {
    ScaledCorrelationProducts(cov, va, vb, c, d, sqrt);
    assert Times(c, Times(d, cov)) == c * d * cov;
    assert Times(c, Times(c, va)) == c * c * va;
    assert Times(d, Times(d, vb)) == d * d * vb;
  }

  /** Positive scaling of non-negative rows keeps the sample count. */
  lemma {:induction false} NSamplesOfScaled(a: seq<real>, b: seq<real>, c: real, d: real)
    requires |a| == |b| && NonNegative(a) && NonNegative(b) && 0.0 < c && 0.0 < d
    ensures NSamples(Scale(a, c), Scale(b, d)) == NSamples(a, b)
  {
    if a != [] {
      assert Scale(a, c)[1..] == Scale(a[1..], c);
      assert Scale(b, d)[1..] == Scale(b[1..], d);
      NSamplesOfScaled(a[1..], b[1..], c, d);
      PositiveScaleZero(c, a[0]);
      PositiveScaleZero(d, b[0]);
    }
  }

  /** Scaling one row by `c` and the other by `d` scales their covariance
      term by `c·d` (and a variance term, `a == b`, by `c²`). */
  lemma RowCovOfScaled(a: seq<real>, b: seq<real>, c: real, d: real, n: real)
    requires |a| == |b| && n != 0.0
    ensures RowCov(Scale(a, c), Scale(b, d), n) == Times(c, Times(d, RowCov(a, b, n)))
  {
    SumOfScale(a, c);
    SumOfScale(b, d);
    SumProdOfScale(a, b, c, d);
    CovScaled(SumProd(a, b), Sum(a), Sum(b), n, c, d);
  }

  /** ρ of non-negative rows is invariant under positive scaling of either
      row. */
  lemma RhoOfScaled(a: seq<real>, b: seq<real>, c: real, d: real, sqrt: real -> real)
    requires |a| == |b| && NonNegative(a) && NonNegative(b) && 0.0 < c && 0.0 < d && IsSqrt(sqrt)
    ensures Rho(Scale(a, c), Scale(b, d), sqrt) == Rho(a, b, sqrt)
  {
    NSamplesOfScaled(a, b, c, d);
    if NSamples(a, b) != 0 {
      var n := NSamples(a, b) as real;
      RowCovOfScaled(a, b, c, d, n);
      RowCovOfScaled(a, a, c, c, n);
      RowCovOfScaled(b, b, d, d, n);
      ScaledCorrelation(RowCov(a, b, n), RowCov(a, a, n), RowCov(b, b, n), c, d, sqrt);
    }
  }

  /** Every row of a table scaled by `c`; dividing a contact matrix by its
      total scales every diagonal by the same factor. */
  function ScaleRows(t: seq<seq<real>>, c: real): (r: seq<seq<real>>)
    ensures |r| == |t|
    ensures forall k :: 0 <= k < |t| ==> r[k] == Scale(t[k], c)
  {
    if t == [] then [] else [Scale(t[0], c)] + ScaleRows(t[1..], c)
  }

  ghost predicate NonNegativeTable(t: seq<seq<real>>)
  {
    forall k :: 0 <= k < |t| ==> NonNegative(t[k])
  }

  /** The SCC of two non-negative tables does not change when each table is
      scaled by its own positive factor: dividing the two matrices by their
      total contact counts leaves the score as it was. */
  lemma SccOfScaledTables(t1: seq<seq<real>>, t2: seq<seq<real>>, c: real, d: real,
                          sqrt: real -> real, varVstran: nat -> Option<real>)
    requires SameShape(t1, t2) && NonNegativeTable(t1) && NonNegativeTable(t2)
    requires 0.0 < c && 0.0 < d && IsSqrt(sqrt)
    ensures SameShape(ScaleRows(t1, c), ScaleRows(t2, d))
    ensures SccOfTables(ScaleRows(t1, c), ScaleRows(t2, d), sqrt, varVstran) == SccOfTables(t1, t2, sqrt, varVstran)
  {
    var s1, s2 := ScaleRows(t1, c), ScaleRows(t2, d);
    forall k | 0 <= k < |t1|
      ensures Stat(s1[k], s2[k], sqrt, varVstran) == Stat(t1[k], t2[k], sqrt, varVstran)
    {
      RhoOfScaled(t1[k], t2[k], c, d, sqrt);
      NSamplesOfScaled(t1[k], t2[k], c, d);
    }
    assert Stats(s1, s2, sqrt, varVstran) == Stats(t1, t2, sqrt, varVstran);
  }

  // ---------------------------------------------------------------------
  // Aggregation: what NaN-to-zero does to the score
  // ---------------------------------------------------------------------

  lemma {:induction false} NumeratorOfConcat(s: seq<RowStat>, t: seq<RowStat>)
    ensures Numerator(s + t) == Numerator(s) + Numerator(t)
  {
    if s != [] {
      assert (s + t)[1..] == s[1..] + t;
      NumeratorOfConcat(s[1..], t);
    } else {
      assert s + t == t;
    }
  }

  lemma {:induction false} DenominatorOfConcat(s: seq<RowStat>, t: seq<RowStat>)
    ensures Denominator(s + t) == Denominator(s) + Denominator(t)
  {
    if s != [] {
      assert (s + t)[1..] == s[1..] + t;
      DenominatorOfConcat(s[1..], t);
    } else {
      assert s + t == t;
    }
  }

  /** A diagonal whose weight is 0 (in particular one whose weight was
      undefined and replaced by 0) contributes to neither the numerator nor
      the denominator: the score is as if it were not there. */
  lemma ZeroWeightDropsOut(s: seq<RowStat>, t: seq<RowStat>, rho: real)
    ensures Aggregate(s + [RowStat(rho, 0.0)] + t) == Aggregate(s + t)
  {
    NumeratorOfConcat(s + [RowStat(rho, 0.0)], t);
    NumeratorOfConcat(s, [RowStat(rho, 0.0)]);
    NumeratorOfConcat(s, t);
    DenominatorOfConcat(s + [RowStat(rho, 0.0)], t);
    DenominatorOfConcat(s, [RowStat(rho, 0.0)]);
    DenominatorOfConcat(s, t);
  }

  /** A diagonal whose ρ was undefined (replaced by 0) but whose weight `w`
      is defined still counts in the denominator: it pulls the score towards
      0 rather than dropping out. */
  lemma UndefinedRhoStillWeighs(s: seq<RowStat>, t: seq<RowStat>, w: real)
    ensures Numerator(s + [RowStat(0.0, w)] + t) == Numerator(s + t)
    ensures Denominator(s + [RowStat(0.0, w)] + t) == Denominator(s + t) + w
  {
    NumeratorOfConcat(s + [RowStat(0.0, w)], t);
    NumeratorOfConcat(s, [RowStat(0.0, w)]);
    NumeratorOfConcat(s, t);
    DenominatorOfConcat(s + [RowStat(0.0, w)], t);
    DenominatorOfConcat(s, [RowStat(0.0, w)]);
    DenominatorOfConcat(s, t);
  }

  /** The score is undefined exactly when the weights sum to 0. */
  lemma AggregateUndefinedIff(s: seq<RowStat>)
    ensures Aggregate(s).None? <==> Denominator(s) == 0.0
    ensures Aggregate(s).Some? ==> Aggregate(s).value * Denominator(s) == Numerator(s)
  {
    if Denominator(s) != 0.0 {
      DivisionInverse(Numerator(s), Denominator(s));
    }
  }

  /** When every row with a non-zero weight has ρ = 1, the weighted sum of
      the ρs is the sum of the weights. */
  lemma {:induction false} UnitRhosGiveEqualSums(s: seq<RowStat>)
    requires forall k :: 0 <= k < |s| && s[k].weight != 0.0 ==> s[k].rho == 1.0
    ensures Numerator(s) == Denominator(s)
  {
    if s != [] {
      UnitRhosGiveEqualSums(s[1..]);
    }
  }

  /** A row whose ρ is defined: it has samples and a non-zero variance term. */
  ghost predicate Informative(a: seq<real>)
  {
    NSamples(a, a) > 0 && RowCov(a, a, NSamples(a, a) as real) != 0.0
  }

  /** A table compared with itself scores 1 whenever every diagonal that
      carries weight is informative and some weight is non-zero; with no
      weight at all the score is undefined. */
  lemma IdenticalTables(t: seq<seq<real>>, sqrt: real -> real, varVstran: nat -> Option<real>)
    requires IsSqrt(sqrt)
    requires forall k :: 0 <= k < |t| && Weight(NSamples(t[k], t[k]), varVstran).GetOr(0.0) != 0.0
               ==> Informative(t[k])
    ensures SameShape(t, t)
    ensures SccOfTables(t, t, sqrt, varVstran).None? <==> Denominator(Stats(t, t, sqrt, varVstran)) == 0.0
    ensures SccOfTables(t, t, sqrt, varVstran).Some? ==> SccOfTables(t, t, sqrt, varVstran).value == 1.0
  {
    var s := Stats(t, t, sqrt, varVstran);
    forall k | 0 <= k < |s| && s[k].weight != 0.0
      ensures s[k].rho == 1.0
    {
      RhoOfIdenticalRows(t[k], sqrt);
    }
    UnitRhosGiveEqualSums(s);
    if Denominator(s) != 0.0 {
      UnitQuotientOfEqual(Numerator(s), Denominator(s));
    }
  }

  lemma UnitQuotientOfEqual(x: real, y: real)
    requires x == y && y != 0.0
    ensures x / y == 1.0
  {
  }

  // ---------------------------------------------------------------------
  // Degenerate diagonals
  // ---------------------------------------------------------------------

  ghost predicate AllZero(s: seq<real>)
  {
    forall i :: 0 <= i < |s| ==> s[i] == 0.0
  }

  lemma {:induction false} SumOfZeros(a: seq<real>)
    requires AllZero(a)
    ensures Sum(a) == 0.0
  {
    if a != [] {
      SumOfZeros(a[1..]);
    }
  }

  lemma {:induction false} SumProdWithZeros(a: seq<real>, b: seq<real>)
    requires |a| == |b| && AllZero(a)
    ensures SumProd(a, b) == 0.0
  {
    if a != [] {
      SumProdWithZeros(a[1..], b[1..]);
    }
  }

  /** A zero variance term makes the correlation undefined. */
  lemma ZeroVarianceCorrelation(cov: real, va: real, vb: real, sqrt: real -> real)
    requires IsSqrt(sqrt) && va == 0.0
    ensures Correlation(cov, va, vb, sqrt).None?
  {
    SqrtZeroIff(sqrt, va * vb);
  }

  /** A row of zeros has a zero variance term against any sample count. */
  lemma ZeroRowVariance(a: seq<real>, n: real)
    requires AllZero(a) && n != 0.0
    ensures RowCov(a, a, n) == 0.0
  {
    SumOfZeros(a);
    SumProdWithZeros(a, a);
  }

  /** A diagonal that is all zero in the first matrix has an undefined ρ,
      whatever the second matrix holds. */
  lemma ZeroRowRho(a: seq<real>, b: seq<real>, sqrt: real -> real)
    requires |a| == |b| && AllZero(a) && IsSqrt(sqrt)
    ensures Rho(a, b, sqrt).None?
  {
    var n := NSamples(a, b) as real;
    if n != 0.0 {
      ZeroRowVariance(a, n);
      ZeroVarianceCorrelation(RowCov(a, b, n), RowCov(a, a, n), RowCov(b, b, n), sqrt);
    }
  }

  lemma {:induction false} ZeroRhosGiveZeroNumerator(s: seq<RowStat>)
    requires forall k :: 0 <= k < |s| ==> s[k].rho == 0.0
    ensures Numerator(s) == 0.0
  {
    if s != [] {
      ZeroRhosGiveZeroNumerator(s[1..]);
    }
  }

  /** A first matrix with no contacts at all scores 0 against any second
      matrix, or is undefined when no diagonal carries weight: every ρ is
      undefined and replaced by 0, while the weights still count. */
  lemma ZeroTable(t1: seq<seq<real>>, t2: seq<seq<real>>, sqrt: real -> real, varVstran: nat -> Option<real>)
    requires SameShape(t1, t2) && IsSqrt(sqrt)
    requires forall k :: 0 <= k < |t1| ==> AllZero(t1[k])
    ensures SccOfTables(t1, t2, sqrt, varVstran)
         == if Denominator(Stats(t1, t2, sqrt, varVstran)) == 0.0 then None else Some(0.0)
  {
    var s := Stats(t1, t2, sqrt, varVstran);
    forall k | 0 <= k < |s|
      ensures s[k].rho == 0.0
    {
      ZeroRowRho(t1[k], t2[k], sqrt);
    }
    ZeroRhosGiveZeroNumerator(s);
  }

  /** A row holding the same non-zero value everywhere. */
  ghost predicate ConstantRow(a: seq<real>, c: real)
  {
    c != 0.0 && forall i :: 0 <= i < |a| ==> a[i] == c
  }

  lemma {:induction false} SumOfConstant(a: seq<real>, c: real)
    requires ConstantRow(a, c)
    ensures Sum(a) == Times(|a| as real, c)
    ensures SumProd(a, a) == Times(|a| as real, c * c)
    ensures NSamples(a, a) == |a|
  {
    if a != [] {
      SumOfConstant(a[1..], c);
      assert (|a| - 1) as real * c + c == |a| as real * c;
      assert (|a| - 1) as real * (c * c) + c * c == |a| as real * (c * c);
    }
  }

  lemma ConstantCov(n: real, c: real)
    requires n != 0.0
    ensures Cov(Times(n, c * c), Times(n, c), Times(n, c), n) == 0.0
  {
    assert Times(n, c) * Times(n, c) / n == n * (c * c);
  }

  /** A diagonal holding one non-zero value everywhere (in both matrices)
      has a zero variance term, so its ρ is undefined and becomes 0: it
      pulls the score of two identical matrices below 1. */
  lemma ConstantRowRho(a: seq<real>, c: real, sqrt: real -> real)
    requires ConstantRow(a, c) && IsSqrt(sqrt)
    ensures !Informative(a) && Rho(a, a, sqrt).None?
  {
    SumOfConstant(a, c);
    if a != [] {
      ConstantCov(|a| as real, c);
    }
    RhoOfIdenticalRows(a, sqrt);
  }

  /** Two identical tables whose every diagonal is constant score 0 (or are
      undefined when no weight is non-zero), not 1: a uniform contact map
      compared with itself. */
  lemma IdenticalConstantTables(t: seq<seq<real>>, sqrt: real -> real, varVstran: nat -> Option<real>)
    requires IsSqrt(sqrt)
    requires forall k :: 0 <= k < |t| ==> |t[k]| > 0 && ConstantRow(t[k], t[k][0])
    ensures SameShape(t, t)
    ensures SccOfTables(t, t, sqrt, varVstran)
         == if Denominator(Stats(t, t, sqrt, varVstran)) == 0.0 then None else Some(0.0)
  {
    var s := Stats(t, t, sqrt, varVstran);
    forall k | 0 <= k < |s|
      ensures s[k].rho == 0.0
    {
      ConstantRowRho(t[k], t[k][0], sqrt);
    }
    ZeroRhosGiveZeroNumerator(s);
  }

  /** A row of `len` ones. */
  function Ones(len: nat): (r: seq<real>)
    ensures |r| == len && forall i :: 0 <= i < len ==> r[i] == 1.0
  {
    seq(len, _ => 1.0)
  }

  lemma PositiveWeight(len: nat, varVstran: nat -> Option<real>)
    requires 0 < len && VarAt(varVstran, len).Some? && 0.0 < VarAt(varVstran, len).value
    ensures 0.0 < Weight(len, varVstran).GetOr(0.0)
  {
    MulStrict(len as real, VarAt(varVstran, len).value, 0.0);
  }

  /** The ten-bin example: diagonals 1 to 4 of a ten-bin matrix holding 1 in
      every cell, compared with themselves. With every weight defined and
      positive, the score is 0, not 1: each diagonal is constant, so each ρ
      is undefined and replaced by 0 while its weight still counts. */
  lemma TenBinOnesScoreZero(sqrt: real -> real, varVstran: nat -> Option<real>)
    requires IsSqrt(sqrt)
    requires forall n :: 6 <= n <= 9 ==> VarAt(varVstran, n).Some? && 0.0 < VarAt(varVstran, n).value
    ensures SccOfTables([Ones(9), Ones(8), Ones(7), Ones(6)], [Ones(9), Ones(8), Ones(7), Ones(6)],
                        sqrt, varVstran) == Some(0.0)
  {
    var t := [Ones(9), Ones(8), Ones(7), Ones(6)];
    TenBinRowsAreConstant(t);
    IdenticalConstantTables(t, sqrt, varVstran);
    TenBinWeightsArePositive(t, sqrt, varVstran);
  }

  lemma TenBinRowsAreConstant(t: seq<seq<real>>)
    requires t == [Ones(9), Ones(8), Ones(7), Ones(6)]
    ensures forall k :: 0 <= k < |t| ==> |t[k]| > 0 && ConstantRow(t[k], t[k][0])
  {
    forall k | 0 <= k < |t|
      ensures |t[k]| > 0 && ConstantRow(t[k], t[k][0])
    {
      assert t[k] == Ones(9 - k);
    }
  }

  lemma TenBinWeightsArePositive(t: seq<seq<real>>, sqrt: real -> real, varVstran: nat -> Option<real>)
    requires t == [Ones(9), Ones(8), Ones(7), Ones(6)]
    requires forall n :: 6 <= n <= 9 ==> VarAt(varVstran, n).Some? && 0.0 < VarAt(varVstran, n).value
    ensures SameShape(t, t) && 0.0 < Denominator(Stats(t, t, sqrt, varVstran))
  {
    var s := Stats(t, t, sqrt, varVstran);
    forall k | 0 <= k < |s|
      ensures 0.0 < s[k].weight
    {
      assert t[k] == Ones(9 - k);
      OnesRowWeight(9 - k, sqrt, varVstran);
    }
    PositiveDenominator(s);
  }

  /** A row of ones against itself has weight `len · varVstran(len)`. */
  lemma OnesRowWeight(len: nat, sqrt: real -> real, varVstran: nat -> Option<real>)
    requires 0 < len && VarAt(varVstran, len).Some? && 0.0 < VarAt(varVstran, len).value
    ensures 0.0 < Stat(Ones(len), Ones(len), sqrt, varVstran).weight
  {
    SumOfConstant(Ones(len), 1.0);
    PositiveWeight(len, varVstran);
  }

  lemma {:induction false} PositiveDenominator(s: seq<RowStat>)
    requires 0 < |s| && forall k :: 0 <= k < |s| ==> 0.0 < s[k].weight
    ensures 0.0 < Denominator(s)
  {
    if 1 < |s| {
      PositiveDenominator(s[1..]);
    }
  }
}
