/** Small facts of ordered-field algebra over `real`, each stated with the
    products it needs passed in as separate values, so that the induction
    proofs in `Sums` and the statistics in `Diagonals` only have to combine
    them linearly. */
module RealAlgebra {

  /** A product of two positive numbers is positive (`z` stands for zero). */
  lemma MulStrict(x: real, y: real, z: real)
    requires z == 0.0 && z < x && z < y
    ensures z < x * y
  {
  }

  /** A non-zero number has a positive square. */
  lemma SquarePositive(b: real, z: real)
    requires z == 0.0 && b != z
    ensures z < b * b
  {
    if b > 0.0 {
      MulStrict(b, b, z);
    } else {
      MulStrict(-b, -b, z);
    }
  }

  /** Only zero has a square that is not positive. */
  lemma SquareZero(b: real, z: real)
    requires z == 0.0 && b * b <= z
    ensures b == 0.0
  {
    if b != 0.0 {
      SquarePositive(b, z);
    }
  }

  /** A factor of a non-negative product with a positive co-factor is
      non-negative. */
  lemma PositiveFactor(a: real, z: real, p: real)
    requires 0.0 < a && a * z == p && 0.0 <= p
    ensures 0.0 <= z
  {
    if z < 0.0 {
      MulStrict(a, -z, 0.0);
    }
  }

  /** Cancelling a non-zero factor. */
  lemma Cancel(n: real, x: real, y: real)
    requires n != 0.0 && n * x == n * y
    ensures x == y
  {
    if x != y {
      ProductNonZero(n, x - y);
    }
  }

  /** A square is never negative. */
  lemma SquareNonNegative(b: real, z: real)
    requires z == 0.0
    ensures z <= b * b
  {
    if b != z {
      SquarePositive(b, z);
    }
  }

  /** A product of non-zero numbers is non-zero. */
  lemma ProductNonZero(x: real, y: real)
    requires x != 0.0 && y != 0.0
    ensures x * y != 0.0
  {
    if x < 0.0 && y < 0.0 {
      MulStrict(-x, -y, 0.0);
    } else if x < 0.0 {
      MulStrict(-x, y, 0.0);
    } else if y < 0.0 {
      MulStrict(x, -y, 0.0);
    } else {
      MulStrict(x, y, 0.0);
    }
  }

  /** `2xyb ≤ x²c + y²a` whenever `b² ≤ ac` with `a`, `c` non-negative. */
  lemma CrossTerm(x: real, y: real, a: real, b: real, c: real)
    requires 0.0 <= a && 0.0 <= c && b * b <= a * c
    ensures 2.0 * x * y * b <= x * x * c + y * y * a
  {
    if a == 0.0 {
      SquareZero(b, a * c);
      assert 0.0 <= x * x * c;
    } else {
      var z := x * x * c + y * y * a - 2.0 * x * y * b;
      var d := x * b - y * a;
      assert a * z == d * d + (a * c - b * b) * (x * x);
      PositiveFactor(a, z, d * d + (a * c - b * b) * (x * x));
    }
  }

  /** The inductive step of Cauchy-Schwarz: prepending `x` and `y` to two
      rows whose sums of squares `a`, `c` and sum of products `b` satisfy
      the inequality keeps it. */
  lemma CauchySchwarzStep(x: real, y: real, a: real, b: real, c: real, p: real, q: real, r: real)
    requires 0.0 <= a && 0.0 <= c && b * b <= a * c
    requires p == x * y + b && q == x * x + a && r == y * y + c
    ensures p * p <= q * r
  {
    CrossTerm(x, y, a, b, c);
    assert p * p == x * y * (x * y) + 2.0 * x * y * b + b * b;
    assert q * r == x * x * (y * y) + x * x * c + y * y * a + a * c;
  }

  /** Replacing the means `p = sx/n`, `q = sy/n` in the three correction
      terms of a centred sum of products, with `m = sx·sy/n`. */
  lemma MeansAlgebra(n: real, sx: real, sy: real, p: real, q: real, m: real)
    requires n > 0.0 && n * p == sx && n * q == sy && n * m == sx * sy
    ensures q * sx == m && p * sy == m && n * p * q == m
  {
    assert n * (q * sx) == n * m by { assert n * (q * sx) == (n * q) * sx; }
    Cancel(n, q * sx, m);
    assert n * (p * sy) == n * m by { assert n * (p * sy) == (n * p) * sy; }
    Cancel(n, p * sy, m);
  }

  /** Division undoes multiplication. */
  lemma DivisionInverse(x: real, n: real)
    requires n != 0.0
    ensures n * (x / n) == x
  {
  }

  /** Scaling the two factors of a product by positive `c²` and `d²` keeps
      its sign. */
  lemma ScaledSign(va: real, vb: real, c: real, d: real)
    requires 0.0 < c && 0.0 < d
    ensures (c * c * va) * (d * d * vb) < 0.0 <==> va * vb < 0.0
  {
    MulStrict(c, d, 0.0);
    var k := c * d;
    MulStrict(k, k, 0.0);
    assert (c * c * va) * (d * d * vb) == (k * k) * (va * vb);
    var p := va * vb;
    if p < 0.0 {
      MulStrict(k * k, -p, 0.0);
    } else if p > 0.0 {
      MulStrict(k * k, p, 0.0);
    }
  }

  /** A positive factor common to numerator and denominator cancels. */
  lemma ScaledQuotient(cov: real, r: real, c: real, d: real)
    requires 0.0 < c && 0.0 < d && r != 0.0
    ensures c * d * r != 0.0 && (c * d * cov) / (c * d * r) == cov / r
  {
    MulStrict(c, d, 0.0);
    ProductNonZero(c * d, r);
  }

  /** Positive scaling of both factors keeps a product away from zero. */
  lemma PositiveScaleZero(c: real, x: real)
    requires 0.0 < c && 0.0 <= x
    ensures 0.0 <= c * x && (c * x == 0.0 <==> x == 0.0)
  {
    if x != 0.0 {
      MulStrict(c, x, 0.0);
    }
  }

  /** `c² ≤ x·y`, the shape of the Cauchy-Schwarz inequality. */
  predicate ProductBound(c: real, x: real, y: real)
  {
    c * c <= x * y
  }

  /** Squaring is strictly monotone on the non-negative reals. */
  lemma SquareMonotone(s: real, t: real)
    requires 0.0 <= s && 0.0 <= t
    ensures s < t ==> s * s < t * t
  {
    if s < t {
      var d := t - s;
      assert t * t == s * s + d * (s + t);
      assert 0.0 < d * (s + t);
    }
  }

  /** A quotient of magnitude at most one: `q = c/s` with `c² ≤ s²`, `s > 0`. */
  lemma UnitQuotient(c: real, s: real, q: real)
    requires 0.0 < s && q * s == c && c * c <= s * s
    ensures -1.0 <= q <= 1.0
  {
    if q > 1.0 {
      assert c > s;
      SquareMonotone(s, c);
    } else if q < -1.0 {
      assert -c > s;
      assert (-c) * (-c) == c * c;
      SquareMonotone(s, -c);
    }
  }
}
