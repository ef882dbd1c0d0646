/**
 The escape-time routine of the Mandelbrot programs over the reals. The comparison with
 `absolute_complex` is made on squares, so no square root is needed.
 */
module Escape {
  datatype Complex = Complex(re: real, im: real)

  function Multiply(a: Complex, b: Complex): Complex {
    Complex(a.re * b.re - a.im * b.im, a.re * b.im + a.im * b.re)
  }

  function Add(a: Complex, b: Complex): Complex {
    Complex(a.re + b.re, a.im + b.im)
  }

  const I := Complex(0.0, 1.0)

  function Real(r: real): Complex { Complex(r, 0.0) }

  /** Sums: the real numbers and their multiples of i are added apart. */
  lemma SumLaws(a: Complex, b: Complex, r: real, s: real)
    ensures Add(a, b) == Add(b, a) && Add(Real(r), Real(s)) == Real(r + s)
    ensures a == Add(Real(a.re), Multiply(Real(a.im), I))
    ensures Add(Add(a, b), Real(r)) == Add(a, Add(b, Real(r))) && Add(Add(a, b), Multiply(Real(r), I)) == Add(a, Add(b, Multiply(Real(r), I)))
  {
  }

  /** Products: commutative, distributive, as usual for real numbers, and the square of i is -1. */
  lemma ProductLaws(a: Complex, b: Complex, c: Complex, r: real)
    ensures Multiply(a, b) == Multiply(b, a)
    ensures Multiply(a, Add(b, c)) == Add(Multiply(a, b), Multiply(a, c))
    ensures Multiply(Real(r), a) == Complex(r * a.re, r * a.im)
    ensures Multiply(I, I) == Real(-1.0)
  {
  }

  lemma RealFactor(a: Complex, b: Complex, r: real)
    ensures Multiply(Multiply(Real(r), a), b) == Multiply(Real(r), Multiply(a, b))
  {
    assert Multiply(Real(r), a) == Complex(r * a.re, r * a.im);
    assert (r * a.re) * b.re == r * (a.re * b.re) && (r * a.im) * b.im == r * (a.im * b.im);
    assert (r * a.re) * b.im == r * (a.re * b.im) && (r * a.im) * b.re == r * (a.im * b.re);
  }

  function NormSquared(z: Complex): real {
    z.re * z.re + z.im * z.im
  }

  /** The product of a number and its conjugate. */
  lemma NormIsProduct(z: Complex)
    ensures Multiply(z, Complex(z.re, -z.im)) == Real(NormSquared(z))
  {
    assert z.im * -z.im == -(z.im * z.im) && z.re * -z.im == -(z.re * z.im);
    assert z.im * z.re == z.re * z.im;
  }

  /** `absolute_complex(z) < limit`, see AbsoluteBelow. */
  predicate Below(z: Complex, limit: real) {
    limit > 0.0 && NormSquared(z) < limit * limit
  }

  lemma ProductSign(x: real, y: real)
    requires y >= 0.0
    ensures x >= 0.0 ==> x * y >= 0.0
    ensures x > 0.0 && y > 0.0 ==> x * y > 0.0
  {
  }

  lemma AbsoluteBelow(z: Complex, absolute: real, limit: real)
    requires absolute >= 0.0 && absolute * absolute == NormSquared(z)
    ensures absolute < limit <==> Below(z, limit)
  {
    if limit > 0.0 {
      assert (limit - absolute) * (limit + absolute) == limit * limit - absolute * absolute;
      ProductSign(limit - absolute, limit + absolute);
      ProductSign(absolute - limit, limit + absolute);
      assert (absolute - limit) * (limit + absolute) == absolute * absolute - limit * limit;
    }
  }

  /** z_n of the iteration z := z*z + c. */
  function Orbit(z0: Complex, c: Complex, n: nat): Complex {
    if n == 0 then z0 else Add(Multiply(Orbit(z0, c, n - 1), Orbit(z0, c, n - 1)), c)
  }

  /** `n` is the least index at which the orbit is no longer below the limit, cut off at `max`. */
  ghost predicate EscapesAt(z0: Complex, c: Complex, max: int, limit: real, n: nat) {
    && (forall k :: 0 <= k < n ==> Below(Orbit(z0, c, k), limit))
    && (if max <= 0 then n == 0 else n <= max)
    && (n < max ==> !Below(Orbit(z0, c, n), limit))
  }

  method SingleMandelbrotPoint(coord: Complex, c: Complex, maxIterations: int, limit: real) returns (n: nat)
    ensures EscapesAt(coord, c, maxIterations, limit, n)
  {
    n := 0;
    var z := coord;
    while Below(z, limit) && n < maxIterations
      invariant z == Orbit(coord, c, n)
      invariant n == 0 || n <= maxIterations
      invariant forall k :: 0 <= k < n ==> Below(Orbit(coord, c, k), limit)
      decreases maxIterations - n
    {
      z := Multiply(z, z);
      z := Add(z, c);
      n := n + 1;
    }
  }

  /** The returned count is determined by the point, so it can be used as the value of a pixel. */
  lemma EscapeIsUnique(z0: Complex, c: Complex, max: int, limit: real, n: nat, m: nat)
    requires EscapesAt(z0, c, max, limit, n) && EscapesAt(z0, c, max, limit, m)
    ensures n == m
  {
  }

  // ------------------------------------------------------------------- soundness of the test

  const INFINITE_LIMIT := 4.0

  /** Points of the largest region the programs accept: both parts between -2 and 2. */
  predicate InRegion(c: Complex) {
    -2.0 <= c.re <= 2.0 && -2.0 <= c.im <= 2.0
  }

  lemma RegionNorm(c: Complex)
    requires InRegion(c)
    ensures NormSquared(c) <= 8.0
  {
    ProductSign(2.0 - c.re, 2.0 + c.re);
    ProductSign(2.0 - c.im, 2.0 + c.im);
    assert (2.0 - c.re) * (2.0 + c.re) == 4.0 - c.re * c.re;
    assert (2.0 - c.im) * (2.0 + c.im) == 4.0 - c.im * c.im;
  }

  lemma SquareOfNorm(z: Complex)
    ensures NormSquared(Multiply(z, z)) == NormSquared(z) * NormSquared(z)
  {
    var p, q := z.re * z.re, z.im * z.im;
    assert z.re * z.im * (z.re * z.im) == p * q;
  }

  lemma NonNegativeSquare(x: real)
    ensures x * x >= 0.0
  {
  }

  lemma SumAtLeast(p: real, q: real)
    ensures 2.0 * ((p + q) * (p + q)) >= p * p - 2.0 * (q * q)
  {
    NonNegativeSquare(p + 2.0 * q);
    assert (p + 2.0 * q) * (p + 2.0 * q) == p * p + 4.0 * (p * q) + 4.0 * (q * q);
    assert (p + q) * (p + q) == p * p + 2.0 * (p * q) + q * q;
  }

  /** Outside radius four each step at least multiplies the squared modulus by seven. */
  lemma StepGrows(z: Complex, c: Complex)
    requires NormSquared(z) >= 16.0 && NormSquared(c) <= 8.0
    ensures NormSquared(Add(Multiply(z, z), c)) >= 7.0 * NormSquared(z)
  {
    SumNorm(Multiply(z, z), c);
    SquareOfNorm(z);
    SquareDominates(NormSquared(z));
  }

  lemma SumNorm(s: Complex, c: Complex)
    ensures 2.0 * NormSquared(Add(s, c)) >= NormSquared(s) - 2.0 * NormSquared(c)
  {
    SumAtLeast(s.re, c.re);
    SumAtLeast(s.im, c.im);
  }

  lemma SquareDominates(n: real)
    requires n >= 16.0
    ensures n * n - 16.0 >= 14.0 * n
  {
    ProductSign(n - 16.0, n + 2.0);
    assert (n - 16.0) * (n + 2.0) == n * n - 14.0 * n - 32.0;
  }

  /** An orbit that has left the circle never comes back. */
  lemma {:induction false} EscapedStaysEscaped(z0: Complex, c: Complex, n: nat, m: nat)
    requires InRegion(c) && n <= m && !Below(Orbit(z0, c, n), INFINITE_LIMIT)
    ensures !Below(Orbit(z0, c, m), INFINITE_LIMIT)
    ensures m > n ==> NormSquared(Orbit(z0, c, m)) >= 7.0 * NormSquared(Orbit(z0, c, m - 1))
    decreases m - n
  {
    if n < m {
      EscapedStaysEscaped(z0, c, n, m - 1);
      RegionNorm(c);
      StepGrows(Orbit(z0, c, m - 1), c);
    }
  }

  /**
   For the default limit the count reaches `max` exactly when the last point looked at is
   still inside: one late look decides what the loop decides step by step.
   */
  lemma NotEscapedIff(z0: Complex, c: Complex, max: int, n: nat)
    requires InRegion(c) && max >= 1 && EscapesAt(z0, c, max, INFINITE_LIMIT, n)
    ensures n == max <==> Below(Orbit(z0, c, max - 1), INFINITE_LIMIT)
  {
    if n < max {
      EscapedStaysEscaped(z0, c, n, max - 1);
    }
  }
}
