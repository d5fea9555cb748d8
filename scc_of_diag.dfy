/** The deprecated one-diagonal statistic `sccOfDiag` (hicrep/hicrep.py:31-55):
    drop the cells that are zero in both diagonals, then take numpy's
    correlation coefficient of what is left and the weight
    `iN * sqrt(v * v)` with `v = varVstran(iN)`. Its result `(nan, nan)` is
    `None`. */
module LegacyDiagonal {
  import opened Wrappers
  import opened RealAlgebra
  import opened Sums
  import opened Diagonals

  /** `np.clip(x, -1, 1)`, which `np.corrcoef` applies to its result. */
  function Clip(x: real): (r: real)
    ensures -1.0 <= r <= 1.0
    ensures -1.0 <= x <= 1.0 ==> r == x
    ensures x < -1.0 ==> r == -1.0
    ensures 1.0 < x ==> r == 1.0
  {
    if x < -1.0 then -1.0 else if 1.0 < x then 1.0 else x
  }

  /** The sum of products of the deviations of `x` and `y` from their means
      over `n` samples. */
  function Centred(x: seq<real>, y: seq<real>, n: real): real
    requires |x| == |y| && n != 0.0
  {
    SumProd(Shift(x, Mean(Sum(x), n)), Shift(y, Mean(Sum(y), n)))
  }

  /** The off-diagonal entry of `np.corrcoef` from the centred sums: the
      covariance matrix divides them by `d = n - 1`, each entry is then
      divided by the two standard deviations, and the result is clipped.
      A negative variance has a NaN root, and a zero standard deviation
      makes the entry NaN (its covariance is then 0 as well). */
  function Pearson(sxy: real, sxx: real, syy: real, d: real, sqrt: real -> real): Option<real>
    requires d != 0.0
  {
    var c01, c00, c11 := sxy / d, sxx / d, syy / d;
    if c00 < 0.0 || c11 < 0.0 || Root(sqrt, c00) == 0.0 || Root(sqrt, c11) == 0.0 then None
    else Some(Clip(c01 / Root(sqrt, c00) / Root(sqrt, c11)))
  }

  /** `np.corrcoef(x, y)[0, 1]` for at least two samples. */
  function CorrCoef(x: seq<real>, y: seq<real>, sqrt: real -> real): Option<real>
    requires |x| == |y| > 1
  {
    var n := |x| as real;
    Pearson(Centred(x, y, n), Centred(x, x, n), Centred(y, y, n), n - 1.0, sqrt)
  }

  /** `iN * np.sqrt(varVstran(iN) * varVstran(iN))`, undefined where
      `varVstran` is. */
  function LegacyWeight(n: nat, varVstran: nat -> Option<real>, sqrt: real -> real): Option<real>
  {
    match VarAt(varVstran, n)
    case Some(v) => Some(Times(n as real, Root(sqrt, Square(v))))
    case None => None
  }

  /** `sccOfDiag(diag1, diag2)`: `None` stands for `(nan, nan)`. */
  function SccOfDiag(a: seq<real>, b: seq<real>, sqrt: real -> real, varVstran: nat -> Option<real>): (r: Option<RowStat>)
    requires |a| == |b|
    ensures r.Some? ==> |NonzeroUnion(a, b)| > 2
  {
    var idx := NonzeroUnion(a, b);
    if |idx| <= 2 then None
    else
      var rho := CorrCoef(Gather(a, idx), Gather(b, idx), sqrt);
      var ws := LegacyWeight(|idx|, varVstran, sqrt);
      if rho.None? || ws.None? then None else Some(RowStat(rho.value, ws.value))
  }

  // ---------------------------------------------------------------------
  // The weight
  // ---------------------------------------------------------------------

  /** `iN · sqrt(v · v)` is `iN · |v|`: the weight `sccByDiag` uses, as long
      as `varVstran` is not negative. */
  lemma LegacyWeightIsAbsolute(n: nat, varVstran: nat -> Option<real>, sqrt: real -> real)
    requires IsSqrt(sqrt)
    ensures LegacyWeight(n, varVstran, sqrt).Some? <==> VarAt(varVstran, n).Some?
    ensures VarAt(varVstran, n).Some? ==>
      LegacyWeight(n, varVstran, sqrt).value
        == Times(n as real, if VarAt(varVstran, n).value < 0.0 then -VarAt(varVstran, n).value else VarAt(varVstran, n).value)
    ensures VarAt(varVstran, n).Some? && 0.0 <= VarAt(varVstran, n).value ==>
      LegacyWeight(n, varVstran, sqrt) == Weight(n, varVstran)
  {
    if VarAt(varVstran, n).Some? {
      RootOfSquare(sqrt, VarAt(varVstran, n).value);
    }
  }

  // ---------------------------------------------------------------------
  // The correlation
  // ---------------------------------------------------------------------

  /** Dividing a non-negative sum by a positive `d` keeps it non-negative
      and keeps its root zero exactly when the sum is. */
  lemma ScaledDownRoot(x: real, d: real, sqrt: real -> real)
    requires IsSqrt(sqrt) && 0.0 <= x && 0.0 < d
    ensures 0.0 <= x / d
    ensures Root(sqrt, x / d) == 0.0 <==> x == 0.0
  {
    SqrtZeroIff(sqrt, x / d);
  }

  lemma ProductRoot(x: real, y: real, sqrt: real -> real)
    requires IsSqrt(sqrt) && 0.0 <= x && 0.0 <= y
    ensures !(x * y < 0.0)
    ensures Root(sqrt, x * y) == 0.0 <==> x == 0.0 || y == 0.0
  {
    PositiveScaleZero1(x, y);
    SqrtZeroIff(sqrt, x * y);
  }

  lemma PositiveScaleZero1(x: real, y: real)
    requires 0.0 <= x && 0.0 <= y
    ensures 0.0 <= x * y && (x * y == 0.0 <==> x == 0.0 || y == 0.0)
  {
    if 0.0 < x {
      PositiveScaleZero(x, y);
    }
  }

  /** `sqrt(x/d) · sqrt(y/d) · d = sqrt(x · y)`. */
  lemma RootsCombine(x: real, y: real, d: real, sqrt: real -> real)
    requires IsSqrt(sqrt) && 0.0 <= x && 0.0 <= y && 0.0 < d
    ensures Root(sqrt, x * y) == Root(sqrt, x / d) * Root(sqrt, y / d) * d
  {
    var s0, s1 := Root(sqrt, x / d), Root(sqrt, y / d);
    assert 0.0 <= s0 && s0 * s0 == x / d && 0.0 <= s1 && s1 * s1 == y / d;
    assert s0 * s0 * d == x;
    assert s1 * s1 * d == y;
    assert (s0 * s1 * d) * (s0 * s1 * d) == (s0 * s0 * d) * (s1 * s1 * d);
    MulStrictOrZero(s0, s1, d);
    SqrtUnique(sqrt, x * y, s0 * s1 * d);
  }

  lemma MulStrictOrZero(s0: real, s1: real, d: real)
    requires 0.0 <= s0 && 0.0 <= s1 && 0.0 < d
    ensures 0.0 <= s0 * s1 * d
  {
    if 0.0 < s0 && 0.0 < s1 {
      MulStrict(s0, s1, 0.0);
      MulStrict(s0 * s1, d, 0.0);
    }
  }

  function Square(v: real): real
  {
    v * v
  }

  /** `sqrt(v · v) = |v|`. */
  lemma RootOfSquare(sqrt: real -> real, v: real)
    requires IsSqrt(sqrt)
    ensures Root(sqrt, Square(v)) == if v < 0.0 then -v else v
  {
    SqrtOfSquare(sqrt, v);
  }

  /** `c/d/s0/s1 = c/(s0·s1·d)`. */
  lemma QuotientChain(c: real, d: real, s0: real, s1: real)
    requires 0.0 < d && 0.0 < s0 && 0.0 < s1
    ensures c / d / s0 / s1 == c / (s0 * s1 * d)
  {
    MulStrict(s0, s1, 0.0);
    MulStrict(s0 * s1, d, 0.0);
  }

  /** The quotient numpy takes is the one `sccByDiag` takes. */
  lemma RootQuotient(c: real, x: real, y: real, d: real, sqrt: real -> real)
    requires IsSqrt(sqrt) && 0.0 < x && 0.0 < y && 0.0 < d
    requires Root(sqrt, x / d) != 0.0 && Root(sqrt, y / d) != 0.0
    ensures c / d / Root(sqrt, x / d) / Root(sqrt, y / d) == c / Root(sqrt, x * y)
  {
    var s0, s1 := Root(sqrt, x / d), Root(sqrt, y / d);
    assert Root(sqrt, x * y) == s0 * s1 * d by {
      RootsCombine(x, y, d, sqrt);
    }
    assert c / d / s0 / s1 == c / (s0 * s1 * d) by {
      assert 0.0 < s0 && 0.0 < s1;
      QuotientChain(c, d, s0, s1);
    }
  }

  /** With a positive divisor `d`, numpy's correlation from the centred
      sums is the correlation `sccByDiag` computes: the `n - 1` of the
      covariance matrix cancels, and the clip changes nothing because the
      Cauchy-Schwarz bound already keeps the quotient in [-1, 1]. */
  lemma PearsonIsCorrelation(sxy: real, sxx: real, syy: real, d: real, sqrt: real -> real)
    requires IsSqrt(sqrt) && 0.0 < d && 0.0 <= sxx && 0.0 <= syy && ProductBound(sxy, sxx, syy)
    ensures Pearson(sxy, sxx, syy, d, sqrt) == Correlation(sxy, sxx, syy, sqrt)
  {
    ScaledDownRoot(sxx, d, sqrt);
    ScaledDownRoot(syy, d, sqrt);
    ProductRoot(sxx, syy, sqrt);
    if sxx != 0.0 && syy != 0.0 {
      RootQuotient(sxy, sxx, syy, d, sqrt);
      UnitCorrelation(sxy, sxx, syy, sqrt);
      DefinedCorrelation(sxy, sxx, syy, sqrt);
    }
  }

  /** On rows that do not cancel out, `sccOfDiag` returns exactly the ρ and
      the weight that `sccByDiag` computes for the same diagonal (before
      undefined values become 0), and `(nan, nan)` when either is undefined
      or at most two cells are non-zero. */
  lemma SccOfDiagAgreesWithSccByDiag(a: seq<real>, b: seq<real>, sqrt: real -> real, varVstran: nat -> Option<real>)
    requires |a| == |b| && NoCancellation(a, b) && IsSqrt(sqrt)
    requires VarAt(varVstran, NSamples(a, b)).Some? ==> 0.0 <= VarAt(varVstran, NSamples(a, b)).value
    ensures SccOfDiag(a, b, sqrt, varVstran)
         == if NSamples(a, b) <= 2 || Rho(a, b, sqrt).None? || Weight(NSamples(a, b), varVstran).None? then None
            else Some(RowStat(Rho(a, b, sqrt).value, Weight(NSamples(a, b), varVstran).value))
  {
    SampleCountIsUnionSize(a, b);
    if NSamples(a, b) > 2 {
      CorrCoefOfKeptCells(a, b, sqrt);
      LegacyWeightIsAbsolute(NSamples(a, b), varVstran, sqrt);
    }
  }

  /** The correlation of the kept cells is `sccByDiag`'s ρ. */
  lemma CorrCoefOfKeptCells(a: seq<real>, b: seq<real>, sqrt: real -> real)
    requires |a| == |b| && NoCancellation(a, b) && IsSqrt(sqrt) && NSamples(a, b) > 2
    ensures |NonzeroUnion(a, b)| == NSamples(a, b)
    ensures CorrCoef(Gather(a, NonzeroUnion(a, b)), Gather(b, NonzeroUnion(a, b)), sqrt) == Rho(a, b, sqrt)
  {
    var n := NSamples(a, b) as real;
    CentredForm(a, b, a, b);
    CentredForm(a, b, a, a);
    CentredForm(a, b, b, b);
    CovarianceBound(a, b);
    PearsonIsCorrelation(RowCov(a, b, n), RowCov(a, a, n), RowCov(b, b, n), n - 1.0, sqrt);
  }
}
