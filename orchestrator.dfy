/** `hicrepSCC` (hicrep/hicrep.py:94-209): check that the two files agree,
    derive the bin size and the diagonal cutoff, select the chromosomes, and
    score each one in turn into a vector pre-filled with -2.0.

    A file is a record of what the call reads from it. The four operations
    the call borrows from elsewhere are parameters (`Ops`): the square root,
    `varVstran`, the random `resample` and the mean filter
    `meanFilterSparse`. */
module Orchestrator {
  import opened Wrappers
  import opened Errors
  import opened Sums
  import opened Diagonals
  import opened ContactMatrix
  import opened Cutoff
  import opened ChromosomeSelection

  /** One row of the bin table. */
  datatype Bin = Bin(start: int, end: int)

  /** One chromosome of a file: its name and its length. */
  datatype Chrom = Chrom(name: string, size: nat)

  /** `chromosomes()` is a dictionary, so no name appears twice. */
  type ChromTable = cs: seq<Chrom> | Distinct(Names(cs)) witness []

  /** What `hicrepSCC` reads from a file: `bin_size()` (`None` for
      non-uniform bins), `nbins()`, `nchroms()`, `chromosomes()`, `bins()`,
      the total contact count `fileInfo(f, 'sum')`, and the submatrix
      `getSubCoo(f, name)` of every chromosome it holds. */
  datatype Source = Source(binSize: Option<int>, nbins: nat, nchroms: nat, chroms: ChromTable,
                           bins: seq<Bin>, total: real, matrices: map<string, Matrix>)

  datatype Ops = Ops(sqrt: real -> real, varVstran: nat -> Option<real>,
                     resample: (Matrix, real) -> Matrix, smooth: (Matrix, int) -> Matrix)

  /** `resample(m, target)`: a random thinning of `m` to `target` contacts. */
  function Resample(ops: Ops, m: Matrix, target: real): Matrix
  {
    ops.resample(m, target)
  }

  /** `meanFilterSparse(m, h)`. */
  function Smooth(ops: Ops, m: Matrix, h: int): Matrix
  {
    ops.smooth(m, h)
  }

  /** `chromosomes()` as a dictionary from name to length; two of them are
      equal whatever the order of their entries. */
  function ChromDict(cs: seq<Chrom>): map<string, nat>
  {
    if cs == [] then map[] else ChromDict(cs[..|cs| - 1])[cs[|cs| - 1].name := cs[|cs| - 1].size]
  }

  function Names(cs: seq<Chrom>): (r: seq<string>)
    ensures |r| == |cs| && forall i :: 0 <= i < |cs| ==> r[i] == cs[i].name
  {
    if cs == [] then [] else [cs[0].name] + Names(cs[1..])
  }

  /** `bins["end"] - bins["start"]`. */
  function Widths(bins: seq<Bin>): (r: seq<int>)
    ensures |r| == |bins| && forall i :: 0 <= i < |bins| ==> r[i] == bins[i].end - bins[i].start
  {
    if bins == [] then [] else [bins[0].end - bins[0].start] + Widths(bins[1..])
  }

  /** The bin size and the cutoff a valid pair of files yields. */
  datatype Plan = Plan(binSize: int, dMax: int)

  /** The two files agree on everything `hicrepSCC` compares before it
      reads any matrix (hicrep/hicrep.py:117-134). */
  predicate Agree(f1: Source, f2: Source)
  {
    f1.binSize == f2.binSize && f1.nbins == f2.nbins && f1.nchroms == f2.nchroms
    && ChromDict(f1.chroms) == ChromDict(f2.chroms)
    && (f1.binSize.None? ==> f1.bins == f2.bins && f1.bins != [])
  }

  /** The bin size the call works with: the file's own, or the median bin
      width truncated to an integer when the bins are not uniform. */
  function BinSizeOf(f: Source): int
    requires f.binSize.Some? || f.bins != []
  {
    if f.binSize.Some? then f.binSize.value else Trunc(Median(Widths(f.bins)))
  }

  /** The checks and the arithmetic of hicrep/hicrep.py:117-146, in order. */
  function Validate(f1: Source, f2: Source, dBPMax: int): (r: Result<Plan, Error>)
    ensures f1.binSize != f2.binSize ==> r == Failure(BinSizeMismatch)
    ensures f1.binSize == f2.binSize && f1.nbins != f2.nbins ==> r == Failure(BinCountMismatch)
    ensures f1.binSize == f2.binSize && f1.nbins == f2.nbins && f1.nchroms != f2.nchroms
            ==> r == Failure(ChromCountMismatch)
    ensures r.Success? <==> Agree(f1, f2) && DMax(dBPMax, BinSizeOf(f1), |f1.bins|).Some?
                            && 1 < DMax(dBPMax, BinSizeOf(f1), |f1.bins|).value
    ensures r.Success? ==> r.value == Plan(BinSizeOf(f1), DMax(dBPMax, BinSizeOf(f1), |f1.bins|).value)
    ensures r.Success? ==> 1 < r.value.dMax
  {
    if f1.binSize != f2.binSize then Failure(BinSizeMismatch)
    else if f1.nbins != f2.nbins then Failure(BinCountMismatch)
    else if f1.nchroms != f2.nchroms then Failure(ChromCountMismatch)
    else if ChromDict(f1.chroms) != ChromDict(f2.chroms) then Failure(ChromNamesMismatch)
    else if f1.binSize.None? && f1.bins != f2.bins then Failure(BinTablesDiffer)
    else if f1.binSize.None? && f1.bins == [] then Failure(NoBins)
    else
      var binSize := if f1.binSize.Some? then f1.binSize.value else Trunc(Median(Widths(f1.bins)));
      match DMax(dBPMax, binSize, |f1.bins|)
      case None => Failure(ZeroBinSize)
      case Some(d) => if 1 < d then Success(Plan(binSize, d)) else Failure(CutoffTooSmall(d))
  }

  /** The two matrices of one chromosome as they go through the pipeline. */
  datatype Pair = Pair(m1: Matrix, m2: Matrix)

  /** Normalisation (hicrep/hicrep.py:192-203): with downsampling, only the
      matrix with the strictly larger total is thinned, to the other's
      total; without it, each matrix is divided by its file's total. */
  function Normalize(p: Pair, bDownSample: bool, n1: real, n2: real, ops: Ops): (r: Result<Pair, Error>)
    ensures bDownSample ==> r.Success? && (r.value.m1 == p.m1 || r.value.m2 == p.m2)
    ensures bDownSample && r.value.m1 != p.m1 ==>
      Total(p.m2.entries) < Total(p.m1.entries) && r.value.m1 == Resample(ops, p.m1, Total(p.m2.entries))
    ensures bDownSample && r.value.m2 != p.m2 ==>
      Total(p.m1.entries) < Total(p.m2.entries) && r.value.m2 == Resample(ops, p.m2, Total(p.m1.entries))
    ensures bDownSample && Total(p.m2.entries) < Total(p.m1.entries) ==>
      r == Success(Pair(Resample(ops, p.m1, Total(p.m2.entries)), p.m2))
    ensures bDownSample && Total(p.m1.entries) < Total(p.m2.entries) ==>
      r == Success(Pair(p.m1, Resample(ops, p.m2, Total(p.m1.entries))))
    ensures bDownSample && Total(p.m1.entries) == Total(p.m2.entries) ==> r.value == p
    ensures !bDownSample ==> (r.Failure? <==> n1 == 0.0 || n2 == 0.0)
    ensures !bDownSample && n1 != 0.0 && n2 != 0.0 ==> r == Success(Pair(Divide(p.m1, n1), Divide(p.m2, n2)))
  {
    if bDownSample then
      var size1, size2 := Total(p.m1.entries), Total(p.m2.entries);
      if size1 > size2 then Success(Pair(Resample(ops, p.m1, size2), p.m2))
      else if size2 > size1 then Success(Pair(p.m1, Resample(ops, p.m2, size1)))
      else Success(p)
    else if n1 == 0.0 then Failure(ZeroTotal(1))
    else if n2 == 0.0 then Failure(ZeroTotal(2))
    else Success(Pair(Divide(p.m1, n1), Divide(p.m2, n2)))
  }

  /** Smoothing (hicrep/hicrep.py:204-207) runs only for a positive
      half-window. */
  function Smoothed(p: Pair, h: int, ops: Ops): (r: Pair)
    ensures h <= 0 ==> r == p
    ensures 0 < h ==> r.m1 == Smooth(ops, p.m1, h) && r.m2 == Smooth(ops, p.m2, h)
  {
    if h > 0 then Pair(Smooth(ops, p.m1, h), Smooth(ops, p.m2, h)) else p
  }

  /** `sccByDiag(m1, m2, nDiags)` for two matrices of `n` bins. */
  function SccByDiag(m1: Matrix, m2: Matrix, nDiags: nat, n: nat, ops: Ops): Option<real>
  {
    TablesAlign(m1, m2, nDiags, n);
    SccOfTables(DiagTable(m1, nDiags, n), DiagTable(m2, nDiags, n), ops.sqrt, ops.varVstran)
  }

  /** The checks on one chromosome's two submatrices
      (hicrep/hicrep.py:172-181), in order. */
  function CheckMatrices(f1: Source, f2: Source, name: string): (r: Result<Pair, Error>)
    ensures r.Success? <==>
      name in f1.matrices && name in f2.matrices
      && |f1.matrices[name].entries| > 0 && f1.matrices[name].rows == f1.matrices[name].cols
      && |f2.matrices[name].entries| > 0 && f2.matrices[name].rows == f2.matrices[name].cols
      && f1.matrices[name].rows == f2.matrices[name].rows
    ensures r.Success? ==> r.value == Pair(f1.matrices[name], f2.matrices[name])
  {
    if name !in f1.matrices then Failure(UnknownChromosome(name))
    else
      var mS1 := f1.matrices[name];
      if |mS1.entries| == 0 then Failure(EmptyMatrix(1, name))
      else if mS1.rows != mS1.cols then Failure(NotSquare(1, name))
      else if name !in f2.matrices then Failure(UnknownChromosome(name))
      else
        var mS2 := f2.matrices[name];
        if |mS2.entries| == 0 then Failure(EmptyMatrix(2, name))
        else if mS2.rows != mS2.cols then Failure(NotSquare(2, name))
        else if mS1.rows != mS2.rows || mS1.cols != mS2.cols then Failure(ShapeMismatch(name))
        else Success(Pair(mS1, mS2))
  }

  /** One chromosome's score (hicrep/hicrep.py:172-208): `None` is NaN. */
  function ScoreChromosome(f1: Source, f2: Source, name: string, dMax: int, h: int,
                           bDownSample: bool, ops: Ops): (r: Result<Option<real>, Error>)
    requires 1 < dMax
    ensures r.Success? ==> CheckMatrices(f1, f2, name).Success?
  {
    var checked := CheckMatrices(f1, f2, name);
    if checked.Failure? then Failure(checked.error)
    else
      var n := checked.value.m1.rows;
      NDiagsIsMin(dMax, n);
      var nDiags := NDiags(dMax, n);
      var trimmed := Pair(TrimDiags(checked.value.m1, nDiags), TrimDiags(checked.value.m2, nDiags));
      var normalized := Normalize(trimmed, bDownSample, f1.total, f2.total, ops);
      if normalized.Failure? then Failure(normalized.error)
      else
        var smoothed := Smoothed(normalized.value, h, ops);
        Success(SccByDiag(smoothed.m1, smoothed.m2, nDiags, n, ops))
  }

  /** Per-chromosome results gathered in order: the scores, or the first
      failure. */
  function Collect(rs: seq<Result<Option<real>, Error>>): (r: Result<seq<Option<real>>, Error>)
    ensures r.Success? ==> |r.value| == |rs|
  {
    if rs == [] then Success([])
    else if rs[0].Failure? then Failure(rs[0].error)
    else
      var rest := Collect(rs[1..]);
      if rest.Failure? then rest else Success([rs[0].value] + rest.value)
  }

  /** Every chromosome's result, in order. */
  function Results(f1: Source, f2: Source, names: seq<string>, dMax: int, h: int,
                   bDownSample: bool, ops: Ops): (rs: seq<Result<Option<real>, Error>>)
    requires 1 < dMax
    ensures |rs| == |names|
  {
    if names == [] then []
    else [ScoreChromosome(f1, f2, names[0], dMax, h, bDownSample, ops)] + Results(f1, f2, names[1..], dMax, h, bDownSample, ops)
  }

  lemma {:induction false} ResultAt(f1: Source, f2: Source, names: seq<string>, dMax: int, h: int,
                                    bDownSample: bool, ops: Ops, i: nat)
    requires 1 < dMax && i < |names|
    ensures Results(f1, f2, names, dMax, h, bDownSample, ops)[i] == ScoreChromosome(f1, f2, names[i], dMax, h, bDownSample, ops)
  {
    if i > 0 {
      ResultAt(f1, f2, names[1..], dMax, h, bDownSample, ops, i - 1);
    }
  }

  /** The scores of `names` in order, or the failure of the first chromosome
      that fails. */
  function ScoreAll(f1: Source, f2: Source, names: seq<string>, dMax: int, h: int,
                    bDownSample: bool, ops: Ops): Result<seq<Option<real>>, Error>
    requires 1 < dMax
  {
    Collect(Results(f1, f2, names, dMax, h, bDownSample, ops))
  }

  /** What `hicrepSCC(f1, f2, h, dBPMax, bDownSample, chrNames, excludeChr)`
      returns: one score per selected chromosome, in the selection's order,
      or the first failure. */
  function HicrepSccSpec(f1: Source, f2: Source, h: int, dBPMax: int, bDownSample: bool,
                         chrNames: Option<seq<string>>, excludeChr: Option<set<string>>,
                         ops: Ops): (r: Result<seq<Option<real>>, Error>)
  {
    var plan := Validate(f1, f2, dBPMax);
    if plan.Failure? then Failure(plan.error)
    else
      var names := SelectedNames(Names(f1.chroms), chrNames, excludeChr);
      if names.Failure? then Failure(names.error)
      else ScoreAll(f1, f2, names.value, plan.value.dMax, h, bDownSample, ops)
  }

  /** One pass of the loop body of `hicrepSCC` (hicrep/hicrep.py:172-208):
      the matrices are rebound stage by stage. */
  method ScoreOne(f1: Source, f2: Source, name: string, dMax: int, h: int,
                  bDownSample: bool, ops: Ops) returns (r: Result<Option<real>, Error>)
    requires 1 < dMax
    ensures r == ScoreChromosome(f1, f2, name, dMax, h, bDownSample, ops)
  {
    var checked := CheckMatrices(f1, f2, name);
    if checked.Failure? {
      return Failure(checked.error);
    }
    var n := checked.value.m1.rows;
    NDiagsIsMin(dMax, n);
    var nDiags := NDiags(dMax, n);
    var m1 := TrimDiags(checked.value.m1, nDiags);
    var m2 := TrimDiags(checked.value.m2, nDiags);
    ghost var trimmed := Pair(m1, m2);
    if bDownSample {
      var size1, size2 := Total(m1.entries), Total(m2.entries);
      if size1 > size2 {
        m1 := Resample(ops, m1, size2);
      } else if size2 > size1 {
        m2 := Resample(ops, m2, size1);
      }
    } else {
      if f1.total == 0.0 {
        return Failure(ZeroTotal(1));
      }
      if f2.total == 0.0 {
        return Failure(ZeroTotal(2));
      }
      m1 := Divide(m1, f1.total);
      m2 := Divide(m2, f2.total);
    }
    assert Normalize(trimmed, bDownSample, f1.total, f2.total, ops) == Success(Pair(m1, m2));
    if h > 0 {
      m1 := Smooth(ops, m1, h);
      m2 := Smooth(ops, m2, h);
    }
    return Success(SccByDiag(m1, m2, nDiags, n, ops));
  }

  /** Chromosome `names[i]`'s result, as the loop meets it. */
  method ScoreAt(f1: Source, f2: Source, names: seq<string>, i: nat, dMax: int, h: int,
                 bDownSample: bool, ops: Ops) returns (r: Result<Option<real>, Error>)
    requires 1 < dMax && i < |names|
    ensures r == Results(f1, f2, names, dMax, h, bDownSample, ops)[i]
  {
    r := ScoreOne(f1, f2, names[i], dMax, h, bDownSample, ops);
    ResultAt(f1, f2, names, dMax, h, bDownSample, ops, i);
  }

  /** The loop of `hicrepSCC` (hicrep/hicrep.py:170-209): the output vector
      is allocated with -2.0 in every slot, and slot `i` receives chromosome
      `i`'s score; a failing chromosome ends the call. */
  method ScoreEach(f1: Source, f2: Source, names: seq<string>, dMax: int, h: int,
                   bDownSample: bool, ops: Ops) returns (r: Result<seq<Option<real>>, Error>)
    requires 1 < dMax
    ensures r == ScoreAll(f1, f2, names, dMax, h, bDownSample, ops)
  {
    ghost var rs := Results(f1, f2, names, dMax, h, bDownSample, ops);
    var scc := new Option<real>[|names|](_ => Some(-2.0));
    for i := 0 to |names|
      invariant forall k :: 0 <= k < i ==> rs[k].Success? && scc[k] == rs[k].value
      invariant forall k :: i <= k < |names| ==> scc[k] == Some(-2.0)
    {
      var score := ScoreAt(f1, f2, names, i, dMax, h, bDownSample, ops);
      if score.Failure? {
        CollectFailure(rs, i);
        return Failure(score.error);
      }
      scc[i] := score.value;
    }
    CollectSuccess(rs);
    assert scc[..] == Collect(rs).value;
    return Success(scc[..]);
  }

  /** `hicrepSCC(f1, f2, h, dBPMax, bDownSample, chrNames, excludeChr)`. */
  method HicrepScc(f1: Source, f2: Source, h: int, dBPMax: int, bDownSample: bool,
                   chrNames: Option<seq<string>>, excludeChr: Option<set<string>>,
                   ops: Ops) returns (r: Result<seq<Option<real>>, Error>)
    ensures r == HicrepSccSpec(f1, f2, h, dBPMax, bDownSample, chrNames, excludeChr, ops)
  {
    var plan := Validate(f1, f2, dBPMax);
    if plan.Failure? {
      return Failure(plan.error);
    }
    var selected := SelectChromosomes(Names(f1.chroms), chrNames, excludeChr);
    if selected.Failure? {
      return Failure(selected.error);
    }
    r := ScoreEach(f1, f2, selected.value, plan.value.dMax, h, bDownSample, ops);
  }

  // ---------------------------------------------------------------------
  // Gathering the results
  // ---------------------------------------------------------------------

  /** When every chromosome succeeds, the result holds every score, in
      order. */
  lemma {:induction false} CollectSuccess(rs: seq<Result<Option<real>, Error>>)
    requires forall i :: 0 <= i < |rs| ==> rs[i].Success?
    ensures Collect(rs).Success?
    ensures forall i :: 0 <= i < |rs| ==> Collect(rs).value[i] == rs[i].value
  {
    if rs != [] {
      CollectSuccess(rs[1..]);
    }
  }

  /** The failure is that of the first chromosome that fails. */
  lemma {:induction false} CollectFailure(rs: seq<Result<Option<real>, Error>>, i: nat)
    requires i < |rs| && rs[i].Failure?
    requires forall j :: 0 <= j < i ==> rs[j].Success?
    ensures Collect(rs) == Failure(rs[i].error)
  {
    if i > 0 {
      CollectFailure(rs[1..], i - 1);
    }
  }

  /** A chromosome that fails makes the whole call fail. */
  lemma {:induction false} CollectFailsIfAnyFails(rs: seq<Result<Option<real>, Error>>, i: nat)
    requires i < |rs| && rs[i].Failure?
    ensures Collect(rs).Failure?
  {
    if rs[0].Success? {
      CollectFailsIfAnyFails(rs[1..], i - 1);
    }
  }

  // ---------------------------------------------------------------------
  // What the call promises
  // ---------------------------------------------------------------------

  /** A successful call has one slot per selected chromosome, and slot `i`
      holds chromosome `i`'s score: no slot keeps the -2.0 it was
      allocated with. */
  lemma SlotPerChromosome(f1: Source, f2: Source, h: int, dBPMax: int, bDownSample: bool,
                          chrNames: Option<seq<string>>, excludeChr: Option<set<string>>, ops: Ops)
    requires HicrepSccSpec(f1, f2, h, dBPMax, bDownSample, chrNames, excludeChr, ops).Success?
    ensures Validate(f1, f2, dBPMax).Success?
    ensures SelectedNames(Names(f1.chroms), chrNames, excludeChr).Success?
    ensures var names := SelectedNames(Names(f1.chroms), chrNames, excludeChr).value;
            var r := HicrepSccSpec(f1, f2, h, dBPMax, bDownSample, chrNames, excludeChr, ops).value;
            |r| == |names| &&
            forall i :: 0 <= i < |names| ==>
              ScoreChromosome(f1, f2, names[i], Validate(f1, f2, dBPMax).value.dMax, h, bDownSample, ops) == Success(r[i])
  {
    var dMax := Validate(f1, f2, dBPMax).value.dMax;
    var names := SelectedNames(Names(f1.chroms), chrNames, excludeChr).value;
    var rs := Results(f1, f2, names, dMax, h, bDownSample, ops);
    forall i | 0 <= i < |rs|
      ensures rs[i].Success?
    {
      if rs[i].Failure? {
        CollectFailsIfAnyFails(rs, i);
      }
    }
    CollectSuccess(rs);
    forall i | 0 <= i < |names|
      ensures ScoreChromosome(f1, f2, names[i], dMax, h, bDownSample, ops) == Success(Collect(rs).value[i])
    {
      ResultAt(f1, f2, names, dMax, h, bDownSample, ops, i);
    }
  }

  /** Without downsampling or smoothing, dividing each matrix by its file's
      positive total leaves a chromosome's score exactly as it is on the raw
      counts. */
  lemma DividingByTotalsKeepsScore(f1: Source, f2: Source, name: string, dMax: int, h: int, ops: Ops)
    requires 1 < dMax && h <= 0 && 0.0 < f1.total && 0.0 < f2.total && IsSqrt(ops.sqrt)
    requires CheckMatrices(f1, f2, name).Success?
    requires NonNegativeEntries(f1.matrices[name]) && NonNegativeEntries(f2.matrices[name])
    ensures ScoreChromosome(f1, f2, name, dMax, h, false, ops)
         == Success(SccByDiag(f1.matrices[name], f2.matrices[name],
                              NDiags(dMax, f1.matrices[name].rows), f1.matrices[name].rows, ops))
  {
    var m1, m2 := f1.matrices[name], f2.matrices[name];
    var n := m1.rows;
    NDiagsIsMin(dMax, n);
    var nDiags := NDiags(dMax, n);
    var c1, c2 := 1.0 / f1.total, 1.0 / f2.total;
    var t1, t2 := DiagTable(m1, nDiags, n), DiagTable(m2, nDiags, n);
    assert DiagTable(Divide(TrimDiags(m1, nDiags), f1.total), nDiags, n) == ScaleRows(t1, c1) by {
      DivideScalesTable(TrimDiags(m1, nDiags), f1.total, nDiags, n);
      TrimKeepsTable(m1, nDiags, n);
    }
    assert DiagTable(Divide(TrimDiags(m2, nDiags), f2.total), nDiags, n) == ScaleRows(t2, c2) by {
      DivideScalesTable(TrimDiags(m2, nDiags), f2.total, nDiags, n);
      TrimKeepsTable(m2, nDiags, n);
    }
    NonNegativeTableOf(m1, nDiags, n);
    NonNegativeTableOf(m2, nDiags, n);
    TablesAlign(m1, m2, nDiags, n);
    SccOfScaledTables(t1, t2, c1, c2, ops.sqrt, ops.varVstran);
  }

  /** A file compared with itself under downsampling: the totals are equal,
      so nothing is resampled, and the chromosome scores 1 as soon as some
      diagonal carries weight and every weighted diagonal has a non-zero
      variance term (undefined when none carries weight). */
  lemma FileAgainstItself(f: Source, name: string, dMax: int, h: int, ops: Ops)
    requires 1 < dMax && h <= 0 && IsSqrt(ops.sqrt)
    requires CheckMatrices(f, f, name).Success?
    requires var n := f.matrices[name].rows;
             var t := DiagTable(f.matrices[name], NDiags(dMax, n), n);
             forall k :: 0 <= k < |t| && Weight(NSamples(t[k], t[k]), ops.varVstran).GetOr(0.0) != 0.0
               ==> Informative(t[k])
    ensures var n := f.matrices[name].rows;
            var t := DiagTable(f.matrices[name], NDiags(dMax, n), n);
            var r := ScoreChromosome(f, f, name, dMax, h, true, ops);
            SameShape(t, t) && r.Success?
            && (r.value.None? <==> Denominator(Stats(t, t, ops.sqrt, ops.varVstran)) == 0.0)
            && (r.value.Some? ==> r.value.value == 1.0)
  {
    var m := f.matrices[name];
    var n := m.rows;
    NDiagsIsMin(dMax, n);
    var nDiags := NDiags(dMax, n);
    var t := DiagTable(m, nDiags, n);
    assert DiagTable(TrimDiags(m, nDiags), nDiags, n) == t by {
      TrimKeepsTable(m, nDiags, n);
    }
    IdenticalTables(t, ops.sqrt, ops.varVstran);
  }
}
