/** One chromosome's contact matrix in coordinate (COO) form, and the three
    transformations the pipeline applies to it before scoring: dropping every
    entry outside the band of diagonals `1 <= k < nDiags` (`trimDiags`),
    dividing by a total (`m.astype(float) / n`), and laying the diagonals
    out as rows (`upperDiagCsr`). */
module ContactMatrix {
  import opened Sums
  import opened Diagonals

  /** A stored cell: row bin, column bin and count. */
  datatype Entry = Entry(row: nat, col: nat, value: real)

  /** A sparse matrix: its shape and its stored entries, in storage order.
      Entries may repeat a cell; their values then add up. */
  datatype Matrix = Matrix(rows: nat, cols: nat, entries: seq<Entry>)

  /** The offset of an entry from the main diagonal. */
  function Offset(e: Entry): int
  {
    e.col as int - e.row as int
  }

  /** `m.sum()`. */
  function Total(es: seq<Entry>): real
  {
    if es == [] then 0.0 else es[0].value + Total(es[1..])
  }

  /** Whether an entry lies in the band of diagonals `1 <= k < nDiags`. */
  predicate InBand(e: Entry, nDiags: int)
  {
    1 <= Offset(e) < nDiags
  }

  function TrimEntries(es: seq<Entry>, nDiags: int): (r: seq<Entry>)
    ensures |r| <= |es|
    ensures forall e :: e in r <==> e in es && InBand(e, nDiags)
  {
    if es == [] then []
    else if InBand(es[0], nDiags) then [es[0]] + TrimEntries(es[1..], nDiags)
    else TrimEntries(es[1..], nDiags)
  }

  /** `trimDiags(m, nDiags, False)`: the main diagonal, the lower triangle
      and every diagonal at offset `nDiags` or more are dropped; the shape
      stays. */
  function TrimDiags(m: Matrix, nDiags: int): (r: Matrix)
    ensures r.rows == m.rows && r.cols == m.cols
    ensures forall e :: e in r.entries <==> e in m.entries && InBand(e, nDiags)
  {
    Matrix(m.rows, m.cols, TrimEntries(m.entries, nDiags))
  }

  function DivideEntries(es: seq<Entry>, n: real): (r: seq<Entry>)
    requires n != 0.0
    ensures |r| == |es|
    ensures forall i :: 0 <= i < |es| ==> r[i] == es[i].(value := es[i].value / n)
  {
    if es == [] then [] else [es[0].(value := es[0].value / n)] + DivideEntries(es[1..], n)
  }

  /** `m.astype(float) / n`: every stored value divided by `n`. */
  function Divide(m: Matrix, n: real): (r: Matrix)
    requires n != 0.0
    ensures r.rows == m.rows && r.cols == m.cols && |r.entries| == |m.entries|
  {
    Matrix(m.rows, m.cols, DivideEntries(m.entries, n))
  }

  /** The value of cell `(i, j)`: the sum of the entries stored there. */
  function CellSum(es: seq<Entry>, i: nat, j: nat): real
  {
    if es == [] then 0.0
    else (if es[0].row == i && es[0].col == j then es[0].value else 0.0) + CellSum(es[1..], i, j)
  }

  /** The diagonal at offset `k` of an `n`-bin matrix: the `n - k` cells
      `(i, i + k)` by increasing `i`. */
  function DiagRow(m: Matrix, k: nat, n: nat): (r: seq<real>)
    ensures |r| == if k <= n then n - k else 0
  {
    if k <= n then seq(n - k, i requires 0 <= i < n - k => CellSum(m.entries, i, i + k)) else []
  }

  /** `upperDiagCsr(m, nDiags)` for an `n`-bin matrix: row `k - 1` holds the
      diagonal at offset `k`, for `1 <= k < nDiags`. */
  function DiagTable(m: Matrix, nDiags: nat, n: nat): (t: seq<seq<real>>)
    ensures |t| == if 1 <= nDiags then nDiags - 1 else 0
    ensures forall k :: 0 <= k < |t| ==> t[k] == DiagRow(m, k + 1, n)
  {
    if 1 <= nDiags then seq(nDiags - 1, k requires 0 <= k < nDiags - 1 => DiagRow(m, k + 1, n)) else []
  }

  ghost predicate NonNegativeEntries(m: Matrix)
  {
    forall e :: e in m.entries ==> 0.0 <= e.value
  }

  // ---------------------------------------------------------------------
  // Lemmas
  // ---------------------------------------------------------------------

  /** Two matrices of the same number of bins give diagonal tables of the
      same shape. */
  lemma TablesAlign(m1: Matrix, m2: Matrix, nDiags: nat, n: nat)
    ensures SameShape(DiagTable(m1, nDiags, n), DiagTable(m2, nDiags, n))
  {
  }

  lemma {:induction false} TrimKeepsBandCells(es: seq<Entry>, nDiags: nat, i: nat, j: nat)
    requires 1 <= j - i < nDiags
    ensures CellSum(TrimEntries(es, nDiags), i, j) == CellSum(es, i, j)
  {
    if es != [] {
      TrimKeepsBandCells(es[1..], nDiags, i, j);
    }
  }

  /** Trimming to the band does not change the diagonal table: it only drops
      entries the table never reads. */
  lemma TrimKeepsTable(m: Matrix, nDiags: nat, n: nat)
    ensures DiagTable(TrimDiags(m, nDiags), nDiags, n) == DiagTable(m, nDiags, n)
  {
    var t, u := DiagTable(TrimDiags(m, nDiags), nDiags, n), DiagTable(m, nDiags, n);
    forall k | 0 <= k < |t|
      ensures t[k] == u[k]
    {
      forall i | 0 <= i < |t[k]|
        ensures t[k][i] == u[k][i]
      {
        TrimKeepsBandCells(m.entries, nDiags, i, i + k + 1);
      }
    }
  }

  lemma {:induction false} CellSumOfDivided(es: seq<Entry>, n: real, i: nat, j: nat)
    requires n != 0.0
    ensures CellSum(DivideEntries(es, n), i, j) == Times(1.0 / n, CellSum(es, i, j))
  {
    if es != [] {
      CellSumOfDivided(es[1..], n, i, j);
      var v := if es[0].row == i && es[0].col == j then es[0].value else 0.0;
      assert (if es[0].row == i && es[0].col == j then es[0].value / n else 0.0) == v / n;
      DivideDistributes(v, CellSum(es[1..], i, j), n);
    }
  }

  lemma DivideDistributes(v: real, rest: real, n: real)
    requires n != 0.0
    ensures v / n + Times(1.0 / n, rest) == Times(1.0 / n, v + rest)
  {
  }

  lemma DivideScalesRow(m: Matrix, n: real, k: nat, bins: nat)
    requires n != 0.0
    ensures DiagRow(Divide(m, n), k, bins) == Scale(DiagRow(m, k, bins), 1.0 / n)
  {
    var r, u := DiagRow(Divide(m, n), k, bins), Scale(DiagRow(m, k, bins), 1.0 / n);
    forall i | 0 <= i < |r|
      ensures r[i] == u[i]
    {
      assert r[i] == CellSum(DivideEntries(m.entries, n), i, i + k);
      assert u[i] == (1.0 / n) * CellSum(m.entries, i, i + k);
      CellSumOfDivided(m.entries, n, i, i + k);
    }
  }

  /** Dividing a matrix by `n` divides every diagonal by `n`. */
  lemma DivideScalesTable(m: Matrix, n: real, nDiags: nat, bins: nat)
    requires n != 0.0
    ensures DiagTable(Divide(m, n), nDiags, bins) == ScaleRows(DiagTable(m, nDiags, bins), 1.0 / n)
  {
    var t, u := DiagTable(Divide(m, n), nDiags, bins), ScaleRows(DiagTable(m, nDiags, bins), 1.0 / n);
    forall k | 0 <= k < |t|
      ensures t[k] == u[k]
    {
      DivideScalesRow(m, n, k + 1, bins);
    }
  }

  lemma {:induction false} CellSumNonNegative(es: seq<Entry>, i: nat, j: nat)
    requires forall e :: e in es ==> 0.0 <= e.value
    ensures 0.0 <= CellSum(es, i, j)
  {
    if es != [] {
      CellSumNonNegative(es[1..], i, j);
    }
  }

  /** A matrix of non-negative counts has non-negative diagonals. */
  lemma NonNegativeTableOf(m: Matrix, nDiags: nat, n: nat)
    requires NonNegativeEntries(m)
    ensures NonNegativeTable(DiagTable(m, nDiags, n))
  {
    var t := DiagTable(m, nDiags, n);
    forall k, i | 0 <= k < |t| && 0 <= i < |t[k]|
      ensures 0.0 <= t[k][i]
    {
      CellSumNonNegative(m.entries, i, i + k + 1);
    }
  }

  /** Dividing by a positive total keeps the counts non-negative. */
  lemma DivideKeepsNonNegative(m: Matrix, n: real)
    requires NonNegativeEntries(m) && 0.0 < n
    ensures NonNegativeEntries(Divide(m, n))
  {
  }

  lemma {:induction false} TotalOfDivided(es: seq<Entry>, n: real)
    requires n != 0.0
    ensures Total(DivideEntries(es, n)) == Times(1.0 / n, Total(es))
  {
    if es != [] {
      TotalOfDivided(es[1..], n);
      DivideDistributes(es[0].value, Total(es[1..]), n);
    }
  }
}
