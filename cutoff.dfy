/** The integer arithmetic `hicrepSCC` does before any matrix work
    (hicrep/hicrep.py:124-146,183): the bin size, with the median bin width
    as the fallback for non-uniform bins, and the diagonal cutoff. */
module Cutoff {
  import opened Wrappers

  /** Python's `a // b`: the quotient rounded down. */
  function FloorDiv(a: int, b: int): (q: int)
    requires b != 0
    ensures 0 < b ==> b * q <= a < b * q + b
    ensures b < 0 ==> b * q + b < a <= b * q
  {
    if 0 < b then a / b else (-a) / (-b)
  }

  /** Python's `int(x)` on a float: the value rounded towards zero. */
  function Trunc(x: real): (r: int)
    ensures 0.0 <= x ==> r as real <= x < r as real + 1.0
    ensures x < 0.0 ==> r as real - 1.0 < x <= r as real
  {
    if 0.0 <= x then x.Floor else -((-x).Floor)
  }

  predicate Sorted(s: seq<int>)
  {
    forall i, j :: 0 <= i < j < |s| ==> s[i] <= s[j]
  }

  function Insert(x: int, s: seq<int>): (r: seq<int>)
    requires Sorted(s)
    ensures Sorted(r) && multiset(r) == multiset(s) + multiset{x}
  {
    if s == [] || x <= s[0] then [x] + s
    else
      assert s == [s[0]] + s[1..];
      var r := Insert(x, s[1..]);
      assert forall i :: 0 <= i < |r| ==> s[0] <= r[i] by {
        forall i | 0 <= i < |r|
          ensures s[0] <= r[i]
        {
          assert r[i] in multiset(r);
          assert r[i] == x || r[i] in multiset(s[1..]);
        }
      }
      [s[0]] + r
  }

  /** The widths in ascending order. */
  function Sort(s: seq<int>): (r: seq<int>)
    ensures Sorted(r) && multiset(r) == multiset(s)
  {
    if s == [] then []
    else
      assert s == [s[0]] + s[1..];
      Insert(s[0], Sort(s[1..]))
  }

  /** `np.median(s)`: the middle element of the sorted values, or the mean
      of the two middle ones when there is an even number. */
  function Median(s: seq<int>): real
    requires |s| > 0
  {
    var t := Sort(s);
    var n := |t|;
    if n % 2 == 1 then t[n / 2] as real else (t[n / 2 - 1] + t[n / 2]) as real / 2.0
  }

  /** The cutoff `dMax`: every bin when `dBPMax` is -1, else the number of
      diagonals within `dBPMax` base pairs. `None` is the division by a zero
      bin size. */
  function DMax(dBPMax: int, binSize: int, binCount: nat): Option<int>
  {
    if dBPMax == -1 then Some(binCount)
    else if binSize == 0 then None
    else Some(FloorDiv(dBPMax, binSize) + 1)
  }

  /** `nDiags` of one chromosome of `size` bins. */
  function NDiags(dMax: int, size: nat): int
  {
    if dMax < 0 then size else if dMax < size then dMax else size
  }

  // ---------------------------------------------------------------------
  // Lemmas
  // ---------------------------------------------------------------------

  /** The median lies between the smallest and the largest value. */
  lemma MedianWithinRange(s: seq<int>)
    requires |s| > 0
    ensures exists i :: 0 <= i < |s| && s[i] as real <= Median(s)
    ensures exists j :: 0 <= j < |s| && Median(s) <= s[j] as real
  {
    var t := Sort(s);
    var n := |t|;
    assert t[0] in multiset(s) && t[n - 1] in multiset(s);
    var i :| 0 <= i < |s| && s[i] == t[0];
    var j :| 0 <= j < |s| && s[j] == t[n - 1];
    assert s[i] as real <= Median(s) <= s[j] as real;
  }

  lemma {:induction false} SortOfConstant(s: seq<int>, w: int)
    requires forall i :: 0 <= i < |s| ==> s[i] == w
    ensures forall i :: 0 <= i < |Sort(s)| ==> Sort(s)[i] == w
  {
    var t := Sort(s);
    forall i | 0 <= i < |t|
      ensures t[i] == w
    {
      assert t[i] in multiset(s);
    }
  }

  /** When every bin has the same width, the fallback bin size is that
      width. */
  lemma UniformWidthsGiveTheirWidth(s: seq<int>, w: int)
    requires |s| > 0 && forall i :: 0 <= i < |s| ==> s[i] == w
    ensures Trunc(Median(s)) == w
  {
    SortOfConstant(s, w);
  }

  lemma MulMonotone(k: int, q: int, b: int)
    requires 0 < b && k <= q
    ensures k * b <= q * b
  {
  }

  /** With a positive bin size and a non-negative distance, the diagonals
      `1 <= k < dMax` are exactly those whose genomic distance `k * binSize`
      is at most `dBPMax`. */
  lemma CutoffKeepsDistance(dBPMax: int, binSize: int, k: int)
    requires 0 < binSize && 0 <= dBPMax && 1 <= k
    ensures DMax(dBPMax, binSize, 0).Some?
    ensures k < DMax(dBPMax, binSize, 0).value <==> k * binSize <= dBPMax
  {
    var q := FloorDiv(dBPMax, binSize);
    if k <= q {
      MulMonotone(k, q, binSize);
    } else {
      MulMonotone(q + 1, k, binSize);
    }
  }

  /** Once `dMax > 1`, the chromosome's cutoff is `min(dMax, size)`: the
      `dMax < 0` branch is never taken. */
  lemma NDiagsIsMin(dMax: int, size: nat)
    requires dMax > 1
    ensures NDiags(dMax, size) == if dMax < size then dMax else size
    ensures 0 <= NDiags(dMax, size) <= size
    ensures size > 1 ==> NDiags(dMax, size) > 1
  {
  }
}
