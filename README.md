# HiCRep stratum-adjusted correlation: a Dafny model

This project models the core of `hicrep`. The tool compares two chromatin-contact
(Hi-C) files and scores, per chromosome, their stratum-adjusted correlation
coefficient (SCC). The SCC is a weighted average, over the diagonals of the two
contact matrices, of the Pearson correlation of each pair of diagonals.

The model covers four things:

- **`hicrepSCC`** (`orchestrator.dfy`, `chromosome_selection.dfy`, `cutoff.dfy`,
  `contact_matrix.dfy`, `errors.dfy`). It does the following, in order:
  - checks that the two files agree;
  - derives the bin size, falling back to the median bin width when bins are non-uniform;
  - computes the diagonal cutoff in Python's floor-division arithmetic;
  - selects and orders the chromosomes;
  - checks each chromosome's matrices;
  - normalises them, by downsampling or by dividing by the file totals;
  - optionally smooths them;
  - fills an output vector pre-set to -2.0.

  It is written imperatively: `SelectChromosomes` updates a list standing for the
  dictionary and pops keys, and `ScoreEach` writes into an array. Each of these
  methods is proved against a specification function (`SelectedNames`, `ScoreAll`,
  `HicrepSccSpec`), and the lemmas are about those functions.
- **`sccByDiag`** (`diagonals.dfy`, over `sums.dfy` and `real_algebra.dfy`).
  It works on exact reals. A diagonal is a row of reals. An undefined value
  (NaN or ±inf) is `None`. `np.nan_to_num` is `GetOr(0.0)`. The square root and
  `varVstran` are parameters. The only assumption about the root is `IsSqrt`:
  it returns the non-negative root of every non-negative number.
- **The deprecated `sccOfDiag`** (`scc_of_diag.dfy`). It includes numpy's
  `corrcoef`, with its `n - 1` divisor and its clip to [-1, 1]. A lemma proves
  that it agrees with `sccByDiag` diagonal by diagonal.
- **The command-line front end** (`cli.dfy`). It models the reconciliation of
  `--chrNames` and `--excludeChr` and the assembly of the comment header.
  `Python str.strip` is modelled over Python's whitespace characters.

Two facts about the code's score, over exact reals, run against what one
might expect of a correlation:

- Two identical ten-bin matrices holding 1 in every cell at offsets 1..4 score
  0, not 1.0.
  - Every such diagonal is constant, so over exact reals its variance term is
    0 and its ρ is NaN, which `nan_to_num` turns into 0. (In floating point,
    after the division at hicrep/hicrep.py:202-203, rounding can leave a tiny
    non-zero variance term instead.)
  - Its weight `n·varVstran(n)` is still counted, so the score is 0.
  - `Diagonals.TenBinOnesScoreZero` proves this, and
    `Diagonals.IdenticalConstantTables` proves it for any table of constant
    diagonals.
  - `Diagonals.IdenticalTables` gives the condition under which identical
    tables do score 1.
- A matrix of zeros against a non-zero one scores 0, and is not undefined.
  - The weights depend only on the number of cells non-zero in either matrix,
    so they are usually not 0.
  - Every ρ is undefined and becomes 0, so the score is 0.
  - It is undefined only when the weights do sum to 0 (`Diagonals.ZeroTable`).

## Model

| member | source | states |
|---|---|---|
| Diagonals.NonzeroUnion | hicrep/hicrep.py:43 | the kept positions are exactly those where either diagonal is non-zero, in ascending order |
| Diagonals.Gather | hicrep/hicrep.py:47-48 | fancy indexing: one value per index, `r[k] == s[idx[k]]` |
| Diagonals.NSamples | hicrep/hicrep.py:73 | the per-diagonal sample count never exceeds the diagonal's length |
| Diagonals.SampleCountIsUnionSize | hicrep/hicrep.py:73 | `getnnz` of the sum counts exactly the positions non-zero in either diagonal, which is the number `sccOfDiag` keeps |
| Diagonals.DroppingCommonZerosKeepsSums | hicrep/hicrep.py:43-48 | removing common zeros changes none of Σa, Σb, Σab, Σa², Σb² |
| Diagonals.CentredForm | hicrep/hicrep.py:79-82 | `Σab - ΣaΣb/n` (and each variance term) equals the centred sum of products over the kept cells |
| Diagonals.CovarianceBound | hicrep/hicrep.py:79-82 | the variance terms are non-negative and cov² ≤ va·vb (Cauchy-Schwarz) |
| Diagonals.UnitCorrelation | hicrep/hicrep.py:80-82 | a covariance bounded by its variance terms gives a ρ in [-1, 1] wherever it is defined |
| Diagonals.RhoInUnitInterval | hicrep/hicrep.py:79-82 | every defined ρ of two non-cancelling diagonals lies in [-1, 1] |
| Diagonals.RowCov | hicrep/hicrep.py:79-81 | computes `Σab - ΣaΣb/n` (with a = b, the variance term); its meaning is `CentredForm` and `CovarianceBound` |
| Diagonals.Correlation | hicrep/hicrep.py:82 | computes `cov / sqrt(va·vb)`, undefined for a negative product or a zero root; its range is `UnitCorrelation` |
| Diagonals.Rho | hicrep/hicrep.py:79-82 | computes ρ of one pair of diagonals, undefined when no cell is non-zero; its range is `RhoInUnitInterval`, its scale invariance `RhoOfScaled` |
| Diagonals.Weight | hicrep/hicrep.py:83 | computes `n·varVstran(n)`, undefined where `varVstran` is; `LegacyWeightIsAbsolute` ties it to the legacy weight |
| Diagonals.Stat | hicrep/hicrep.py:88-89 | applies `nan_to_num` to one diagonal's ρ and weight; `UndefinedRhoStillWeighs` and `ZeroWeightDropsOut` state what that does to the score |
| Diagonals.Numerator | hicrep/hicrep.py:91 | computes Σρw; additive over a split (`NumeratorOfConcat`) |
| Diagonals.Denominator | hicrep/hicrep.py:91 | computes Σw; additive over a split (`DenominatorOfConcat`) |
| Diagonals.Aggregate | hicrep/hicrep.py:91 | computes Σρw / Σw; undefined iff Σw = 0 (`AggregateUndefinedIff`) |
| Diagonals.SccOfTables | hicrep/hicrep.py:57-91 | the score of two diagonal tables; its properties are `SccOfScaledTables`, `IdenticalTables` and `ZeroTable` |
| Diagonals.ZeroVarianceCorrelation | hicrep/hicrep.py:80-82 | a zero variance term makes ρ undefined |
| Diagonals.SelfCorrelation | hicrep/hicrep.py:80-82 | a variance term correlated with itself gives ρ = 1, or undefined exactly when the term is 0 |
| Diagonals.RhoOfIdenticalRows | hicrep/hicrep.py:79-82 | identical diagonals: ρ is defined iff there are samples and a non-zero variance term, and is then 1 |
| Diagonals.Stats | hicrep/hicrep.py:73-89 | one statistic per diagonal, row `k` computed from row `k` of each table |
| Diagonals.ScaledCorrelation | hicrep/hicrep.py:80-82 | scaling cov by c·d and the variance terms by c², d² (c, d > 0) leaves ρ unchanged |
| Diagonals.NSamplesOfScaled | hicrep/hicrep.py:73 | positive scaling of non-negative diagonals keeps the sample count |
| Diagonals.RowCovOfScaled | hicrep/hicrep.py:79 | scaling the diagonals by c and d scales the covariance term by c·d (the variance term by c²) |
| Diagonals.RhoOfScaled | hicrep/hicrep.py:79-82 | ρ of non-negative diagonals is invariant under positive scaling of either |
| Diagonals.ScaleRows | hicrep/hicrep.py:202-203 | each row of the scaled table is the scaled row |
| Diagonals.SccOfScaledTables | hicrep/hicrep.py:91 | the SCC of non-negative tables is unchanged when each is scaled by its own positive factor |
| Diagonals.NumeratorOfConcat | hicrep/hicrep.py:91 | `rho @ ws` is additive over a split of the diagonals |
| Diagonals.DenominatorOfConcat | hicrep/hicrep.py:91 | `ws.sum()` is additive over a split of the diagonals |
| Diagonals.ZeroWeightDropsOut | hicrep/hicrep.py:88-91 | a diagonal whose weight is 0, including an undefined weight made 0, leaves the score as if it were absent |
| Diagonals.UndefinedRhoStillWeighs | hicrep/hicrep.py:88-91 | a diagonal whose ρ was made 0 adds nothing to the numerator but its full weight to the denominator |
| Diagonals.AggregateUndefinedIff | hicrep/hicrep.py:91 | the score is undefined iff the weights sum to 0, and otherwise score × Σw = Σρw |
| Diagonals.UnitRhosGiveEqualSums | hicrep/hicrep.py:91 | if every weighted diagonal has ρ = 1, then Σρw = Σw |
| Diagonals.IdenticalTables | hicrep/hicrep.py:71-91 | a table against itself scores 1 when every weighted diagonal is informative, and is undefined iff Σw = 0 |
| Diagonals.ZeroRowRho | hicrep/hicrep.py:79-82 | an all-zero diagonal in the first matrix has an undefined ρ |
| Diagonals.ZeroTable | hicrep/hicrep.py:71-91 | an all-zero first matrix scores 0, or is undefined exactly when Σw = 0 |
| Diagonals.ConstantRowRho | hicrep/hicrep.py:79-82 | a constant non-zero diagonal against itself has an undefined ρ |
| Diagonals.IdenticalConstantTables | hicrep/hicrep.py:71-91 | identical tables of constant diagonals score 0 (undefined iff Σw = 0), not 1 |
| Diagonals.TenBinOnesScoreZero | hicrep/hicrep.py:71-91 | diagonals 1..4 of a ten-bin all-ones matrix against themselves score exactly 0 for any positive `varVstran` |
| LegacyDiagonal.Clip | hicrep/hicrep.py:49 | numpy's clip lands in [-1, 1] and is the identity there |
| LegacyDiagonal.SccOfDiag | hicrep/hicrep.py:43-55 | a defined result needs more than two kept cells |
| LegacyDiagonal.Pearson | hicrep/hicrep.py:49 | computes the off-diagonal `corrcoef` entry from centred sums with divisor n - 1, then clips; equal to `Correlation` by `PearsonIsCorrelation` |
| LegacyDiagonal.CorrCoef | hicrep/hicrep.py:49 | `np.corrcoef(x, y)[0, 1]` of at least two samples; equal to ρ of the full diagonals by `CorrCoefOfKeptCells` |
| LegacyDiagonal.LegacyWeight | hicrep/hicrep.py:50-52 | computes `iN·sqrt(v·v)`; equal to `iN·|v|` by `LegacyWeightIsAbsolute` |
| LegacyDiagonal.RootOfSquare | hicrep/hicrep.py:52 | `sqrt(v·v) = |v|` |
| LegacyDiagonal.LegacyWeightIsAbsolute | hicrep/hicrep.py:50-52 | the weight `iN·sqrt(v·v)` is `iN·|v|`, defined iff `varVstran` is, and equal to `sccByDiag`'s weight when v ≥ 0 |
| LegacyDiagonal.PearsonIsCorrelation | hicrep/hicrep.py:49 | `corrcoef` (divisor n - 1, then clip) equals `sccByDiag`'s correlation of the same centred sums |
| LegacyDiagonal.CorrCoefOfKeptCells | hicrep/hicrep.py:47-49 | `corrcoef` of the kept cells is `sccByDiag`'s ρ of the full diagonals |
| LegacyDiagonal.SccOfDiagAgreesWithSccByDiag | hicrep/hicrep.py:43-55 | `sccOfDiag` returns `sccByDiag`'s (ρ, w) for the same diagonal, or (nan, nan) when at most two cells remain or either is undefined |
| ContactMatrix.TrimDiags | hicrep/hicrep.py:188-189 | trimming keeps the shape, and an entry survives iff it is stored and lies at an offset in [1, nDiags) |
| ContactMatrix.DivideEntries | hicrep/hicrep.py:202-203 | every stored value is divided by the total, and nothing else changes |
| ContactMatrix.Divide | hicrep/hicrep.py:202-203 | dividing keeps the shape and the number of entries |
| ContactMatrix.DiagRow | hicrep/hicrep.py:71-72 | the diagonal at offset k of an n-bin matrix has n - k cells |
| ContactMatrix.DiagTable | hicrep/hicrep.py:71-72 | the table has nDiags - 1 rows, and row k - 1 is the diagonal at offset k |
| ContactMatrix.Total | hicrep/hicrep.py:194-195 | computes `m.sum()` over the stored entries; `TotalOfDivided` relates it to division |
| ContactMatrix.CellSum | hicrep/hicrep.py:71-72 | the value of one cell, the sum of the entries stored there, as a sparse matrix sums duplicates |
| ContactMatrix.TablesAlign | hicrep/hicrep.py:71-72 | two n-bin matrices give tables of the same shape |
| ContactMatrix.TrimKeepsTable | hicrep/hicrep.py:188-189 | trimming to the band leaves the diagonal table unchanged |
| ContactMatrix.DivideScalesTable | hicrep/hicrep.py:202-203 | dividing a matrix by n divides every diagonal by n |
| ContactMatrix.TotalOfDivided | hicrep/hicrep.py:202-203 | dividing by n divides the matrix sum by n |
| ContactMatrix.NonNegativeTableOf | hicrep/hicrep.py:71-72 | non-negative counts give non-negative diagonals |
| ChromosomeSelection.Without | hicrep/hicrep.py:156-159 | popping a key removes exactly that name |
| ChromosomeSelection.WithoutAbsent | hicrep/hicrep.py:156-159 | the pop is skipped when the key is absent |
| ChromosomeSelection.Keep | hicrep/hicrep.py:169 | the filtered list holds exactly the names not excluded |
| ChromosomeSelection.FromKeys | hicrep/hicrep.py:154 | the keys of `dict.fromkeys`: first occurrences in order; its properties are `FromKeysProperties` |
| ChromosomeSelection.SelectedNames | hicrep/hicrep.py:150-169 | the selection, or the duplicate failure; `ExplicitListFailsIff`, `ExplicitListKeepsOrder` and `DefaultSelection` state its behaviour |
| ChromosomeSelection.DictFromKeys | hicrep/hicrep.py:154 | building the dictionary one key at a time gives `FromKeys` |
| ChromosomeSelection.Filter | hicrep/hicrep.py:169 | the list comprehension, run as a loop, gives `Keep` |
| ChromosomeSelection.SelectChromosomes | hicrep/hicrep.py:150-169 | building the dictionary, popping "ALL"/"All", the duplicate check and the filter give `SelectedNames` |
| ChromosomeSelection.FromKeysProperties | hicrep/hicrep.py:154 | `dict.fromkeys` keeps each name once, and its length equals the list's iff the list has no repeats |
| ChromosomeSelection.WithoutLength | hicrep/hicrep.py:156-159 | popping a present key shortens the dictionary by exactly one |
| ChromosomeSelection.ExplicitListFailsIff | hicrep/hicrep.py:150-165 | an explicit list fails iff it repeats a name or contains "ALL" or "All" |
| ChromosomeSelection.ExplicitListKeepsOrder | hicrep/hicrep.py:150-169 | an accepted explicit list is scored in the caller's order, minus the excluded names |
| ChromosomeSelection.KeepOfConcat | hicrep/hicrep.py:169 | filtering preserves relative order |
| ChromosomeSelection.DefaultSelection | hicrep/hicrep.py:151-169 | without a list, the selection never fails and is f1's chromosomes in f1's order, with "ALL", "All" and the excluded names filtered out |
| ChromosomeSelection.WithoutIsKeep | hicrep/hicrep.py:156-159 | popping a key is filtering that one name out, order kept |
| ChromosomeSelection.KeepTwice | hicrep/hicrep.py:156-169 | filtering by one set and then another is filtering once by their union |
| Cutoff.FloorDiv | hicrep/hicrep.py:145 | Python's `//` rounds down, for either sign of divisor |
| Cutoff.Trunc | hicrep/hicrep.py:136 | `int()` rounds towards zero |
| Cutoff.Sort | hicrep/hicrep.py:136 | the widths sorted, as a permutation |
| Cutoff.Median | hicrep/hicrep.py:136 | computes `np.median`: the middle sorted value, or the mean of the two middle ones; bounded by `MedianWithinRange` |
| Cutoff.DMax | hicrep/hicrep.py:141-145 | the bin count when dBPMax is -1, otherwise `dBPMax // binSize + 1`, undefined for a zero bin size; its meaning is `CutoffKeepsDistance` |
| Cutoff.NDiags | hicrep/hicrep.py:183 | computes `nDiags`; equal to min(dMax, size) by `NDiagsIsMin` |
| Cutoff.MedianWithinRange | hicrep/hicrep.py:136 | the median lies between some width and some width |
| Cutoff.UniformWidthsGiveTheirWidth | hicrep/hicrep.py:136 | for uniform bins, the fallback bin size is the common width |
| Cutoff.CutoffKeepsDistance | hicrep/hicrep.py:141-146 | diagonal k < dMax iff k·binSize ≤ dBPMax |
| Cutoff.NDiagsIsMin | hicrep/hicrep.py:183 | for dMax > 1, nDiags = min(dMax, size), and the `dMax < 0` branch is dead |
| Orchestrator.ChromDict | hicrep/hicrep.py:123 | `chromosomes()` as a dictionary, so the comparison ignores order |
| Orchestrator.SccByDiag | hicrep/hicrep.py:57-91 | `sccByDiag(m1, m2, nDiags)`: `SccOfTables` of the two diagonal tables |
| Orchestrator.ScoreAll | hicrep/hicrep.py:170-208 | every selected chromosome's score in order, or the first failure (`CollectSuccess`, `CollectFailure`) |
| Orchestrator.HicrepSccSpec | hicrep/hicrep.py:94-209 | validation, then selection, then scoring; `SlotPerChromosome` states its layout |
| Orchestrator.Names | hicrep/hicrep.py:152 | the file's chromosome names, in order |
| Orchestrator.Widths | hicrep/hicrep.py:136 | `end - start` per bin |
| Orchestrator.Agree | hicrep/hicrep.py:117-134 | the files agree on bin size, bin count, chromosome count and chromosome dictionary, and, when the bin size is missing, have identical non-empty bin tables |
| Orchestrator.BinSizeOf | hicrep/hicrep.py:125-136 | the file's bin size, or `int(median(end - start))` of its bins when it has none |
| Orchestrator.Validate | hicrep/hicrep.py:117-146 | the bin-size, bin-count and chromosome-count mismatches fail in that order; success iff the files agree and the cutoff is defined and > 1; then binSize is `BinSizeOf(f1)` and dMax is `DMax(dBPMax, binSize, len(bins))` |
| Orchestrator.Normalize | hicrep/hicrep.py:192-203 | with downsampling, the matrix with the strictly larger total is replaced by `resample(m, other total)` and the other kept, and equal totals change nothing; without it, each matrix is divided by its own file total, failing iff a total is 0 |
| Orchestrator.Smoothed | hicrep/hicrep.py:204-207 | both matrices are smoothed iff h > 0, and are otherwise unchanged |
| Orchestrator.CheckMatrices | hicrep/hicrep.py:173-181 | success iff both submatrices exist, are non-empty and square, and have the same shape |
| Orchestrator.ScoreChromosome | hicrep/hicrep.py:172-208 | a score implies the matrix checks passed |
| Orchestrator.Collect | hicrep/hicrep.py:170-209 | on success there is one score per chromosome |
| Orchestrator.Results | hicrep/hicrep.py:171-208 | one result per selected chromosome |
| Orchestrator.ResultAt | hicrep/hicrep.py:171-208 | result i is chromosome i's score |
| Orchestrator.ScoreOne | hicrep/hicrep.py:172-208 | rebinding m1 and m2 stage by stage gives `ScoreChromosome` |
| Orchestrator.ScoreAt | hicrep/hicrep.py:171-208 | the loop body computes result i |
| Orchestrator.ScoreEach | hicrep/hicrep.py:170-209 | filling the -2.0-initialised vector slot by slot gives `ScoreAll`: every score in order, or the first failure |
| Orchestrator.HicrepScc | hicrep/hicrep.py:94-209 | the whole call equals `HicrepSccSpec`: validation, then selection, then scoring |
| Orchestrator.CollectSuccess | hicrep/hicrep.py:170-209 | if every chromosome succeeds, slot i holds score i |
| Orchestrator.CollectFailure | hicrep/hicrep.py:171-208 | the call fails with the error of the first failing chromosome |
| Orchestrator.CollectFailsIfAnyFails | hicrep/hicrep.py:171-208 | any failing chromosome makes the call fail |
| Orchestrator.SlotPerChromosome | hicrep/hicrep.py:170-208 | a successful call has one slot per selected chromosome, slot i holds chromosome i's score, and no -2.0 placeholder survives |
| Orchestrator.DividingByTotalsKeepsScore | hicrep/hicrep.py:200-203 | without downsampling or smoothing, dividing by positive totals leaves the score equal to the raw matrices' score |
| Orchestrator.FileAgainstItself | hicrep/hicrep.py:192-199 | a file against itself under downsampling is never resampled, and scores 1 when its weighted diagonals are informative (undefined iff Σw = 0) |
| Cli.ToSet | hicrep/__init__.py:94 | `set(list)` holds exactly the list's names |
| Cli.Reconcile | hicrep/__init__.py:67-105 | fails iff `--chrNames` is non-empty and `--excludeChr` is not exactly `['chrM', 'M']`; empty options become None; exclusions become a set; the warning fires iff the list repeats a name |
| Cli.SetSizeIffDistinct | hicrep/__init__.py:94-98 | the set is as long as the list iff no name repeats |
| Cli.Join | hicrep/__init__.py:71 | `" ".join(args)`; `JoinBreaks` shows it adds no line break |
| Cli.IsSpace | hicrep/__init__.py:86 | the characters Python's `str.strip()` removes |
| Cli.Branch | hicrep/__init__.py:84-85 | the `re.sub` of line breaks into `# @branch` lines; inverted by `Unbranch` (`UnbranchBranch`) |
| Cli.Header | hicrep/__init__.py:71-86 | "#", the joined arguments and "\n", then the revision comment when git succeeded; `HeaderIsComments` states its shape |
| Cli.StripLeft | hicrep/__init__.py:86 | drops exactly the leading whitespace |
| Cli.StripRight | hicrep/__init__.py:86 | drops exactly the trailing whitespace |
| Cli.Strip | hicrep/__init__.py:86 | the result is a slice with only whitespace around it and none at its ends |
| Cli.Revision | hicrep/__init__.py:78-86 | the revision comment is present iff both git commands wrote nothing to stderr |
| Cli.BuildHeader | hicrep/__init__.py:71-86 | the appended header equals `Header` |
| Cli.UnbranchBranch | hicrep/__init__.py:84-86 | rewriting line breaks as `# @branch` lines loses nothing (round trip) |
| Cli.BranchBreaks | hicrep/__init__.py:84-86 | every line break in the rewritten git output is followed by '#' |
| Cli.JoinBreaks | hicrep/__init__.py:71 | joining arguments without line breaks gives a single line |
| Cli.HeaderIsComments | hicrep/__init__.py:71-86 | when no argument contains a line break, every header line starts with '#' and the header ends with a line break |

## Left out

- Floating point.
  - Rounding, overflow and the actual propagation of NaN and ±inf are not modelled; the model computes over exact reals.
  - An undefined value is `None` wherever numpy would produce NaN or ±inf. `np.errstate` has no counterpart.
- Functions from `hicrep.utils`: their source is not part of this model, so each is either a parameter or modelled by its call-site contract.
  - `varVstran`, `resample` and `meanFilterSparse` are parameters (`Ops`).
  - `resample` is random (seeded at hicrep/__init__.py:21); the model takes it as a given function.
  - `trimDiags`, `upperDiagCsr`, `getSubCoo` and `fileInfo` are modelled by their contract at the call sites: `TrimDiags`, `DiagTable`, `Source.matrices` and `Source.total`.
- The square root is a parameter constrained only by `IsSqrt`.
- Sparse storage.
  - COO and CSR internals and explicitly stored zeros are not modelled.
  - A matrix is a list of entries whose values add up per cell.
  - A diagonal is a dense row, and a sample counts when the two cells' sum is non-zero.
- The hictkpy file API and file opening. A file is a `Source` record of the values the call reads.
  - `nbins()` is not tied to the length of `bins()`. The `dBPMax == -1` cutoff uses the length of the bin table, as the code does.
- Orchestrator.Normalize: dividing by a file total of 0 is modelled as a `ZeroTotal` failure. In the source the outcome depends on the total's type: scipy computes `1 / n`, which raises for a Python 0, while a numpy 0 gives infinite entries, whose ρ become 0 while their weights still count, so the score would be 0.
- Orchestrator.ScoreChromosome: lays out the diagonals with the bin count of the checked submatrices, so it takes `resample` and `meanFilterSparse` to keep the matrix shape; nothing in `Ops` states this.
- Orchestrator.Validate:
  - the `RuntimeWarning` for non-uniform bins is not modelled;
  - the median of an empty bin table (NaN, then `int(nan)` raising) is modelled as the `NoBins` failure;
  - a bin size of 0 (`dBPMax // 0` raising) is modelled as `ZeroBinSize`.
- The arrays `rho` and `ws` allocated at hicrep/hicrep.py:184-185 are never read and are not modelled.
- LegacyDiagonal.SccOfDiag requires diagonals of equal length. numpy raises on the `|` of arrays of different lengths, and that error is not modelled.
- LegacyDiagonal.LegacyWeight applies `varVstran` once. The source applies it twice, to two sizes that are always equal, and `varVstran` is deterministic.
- The `@deprecated` decorator is not modelled.
- Command-line I/O:
  - argparse parsing, `sys.argv` itself, the `subprocess` calls, `warnings.warn`, `np.savetxt` and the output format are not modelled;
  - the git outputs are parameters of `Cli.Header`, and the duplicate-exclusion warning is a flag of `Cli.Config`.
