/** The ways a `hicrepSCC` call fails: each is one of its assertions (or an
    exception numpy or the file library raises), in the order the call
    meets them. */
module Errors {

  datatype Error =
    | BinSizeMismatch                       // hicrep/hicrep.py:117
    | BinCountMismatch                      // hicrep/hicrep.py:119
    | ChromCountMismatch                    // hicrep/hicrep.py:121
    | ChromNamesMismatch                    // hicrep/hicrep.py:123
    | BinTablesDiffer                       // hicrep/hicrep.py:131
    | NoBins                                // the median of no bin widths is NaN
    | ZeroBinSize                           // `dBPMax // 0`
    | CutoffTooSmall(dMax: int)             // hicrep/hicrep.py:146
    | DuplicateNames(names: seq<string>)    // hicrep/hicrep.py:163
    | UnknownChromosome(name: string)       // `getSubCoo` of a name the file lacks
    | EmptyMatrix(which: nat, name: string) // hicrep/hicrep.py:174,178
    | NotSquare(which: nat, name: string)   // hicrep/hicrep.py:175,179
    | ShapeMismatch(name: string)           // hicrep/hicrep.py:181
    | ZeroTotal(which: nat)                 // dividing by a file total of 0
}
