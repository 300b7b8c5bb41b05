/** Complex numbers that are close to each other, and what arithmetic makes of the distance. */
module Closeness {
  import opened ComplexNumbers
  import opened Twiddles

  /** At most e apart. */
  ghost predicate Close(a: Complex, b: Complex, e: real) {
    e >= 0.0 && Norm(Sub(a, b)) <= Times(e, e)
  }

  function Scale(a: Complex, c: real): Complex {
    Complex(a.re * c, a.im * c)
  }

  lemma CloseToItself(a: Complex)
    ensures Close(a, a, 0.0)
  {}

  lemma TimesMonotone(a: real, b: real, c: real, d: real)
    requires 0.0 <= a <= b && 0.0 <= c <= d
    ensures 0.0 <= Times(a, c) <= Times(b, d)
  {
    assert a * c <= b * c <= b * d;
  }

  lemma CloseWithin(a: Complex, b: Complex, e: real, f: real)
    requires Close(a, b, e) && e <= f
    ensures Close(a, b, f)
  {
    TimesMonotone(e, f, e, f);
  }

  // ----- Sums

  /** The squares of the dot product and of the cross product add up to the product of the norms. */
  lemma DotAndCross(a: real, b: real, c: real, d: real)
    ensures Times(a * c + b * d, a * c + b * d) + Times(a * d - b * c, a * d - b * c)
         == Times(a * a + b * b, c * c + d * d)
  {}

  lemma RootBelow(x: real, g: real)
    requires g >= 0.0 && Times(x, x) <= Times(g, g)
    ensures -g <= x <= g
  {
    if x > g {
      SquareGrows(g, x);
    } else if x < -g {
      NegativeSquare(x);
      SquareGrows(g, -x);
    }
  }

  lemma NegativeSquare(x: real)
    ensures Times(-x, -x) == Times(x, x)
  {}

  lemma SquareGrows(g: real, x: real)
    requires 0.0 <= g < x
    ensures Times(g, g) < Times(x, x)
  {
    TimesPositive(x - g, x + g);
    assert Times(x - g, x + g) == Times(x, x) - Times(g, g);
  }

  lemma TimesTimes(e: real, f: real)
    ensures Times(Times(e, e), Times(f, f)) == Times(Times(e, f), Times(e, f))
  {}

  /** The dot product is at most the product of the lengths. */
  lemma DotBelow(a: real, b: real, c: real, d: real, e: real, f: real)
    requires e >= 0.0 && f >= 0.0 && a * a + b * b <= Times(e, e) && c * c + d * d <= Times(f, f)
    ensures a * c + b * d <= Times(e, f)
  {
    DotAndCross(a, b, c, d);
    TimesSelf(a * d - b * c);
    SquaresPositive(a, b);
    SquaresPositive(c, d);
    TimesMonotone(a * a + b * b, Times(e, e), c * c + d * d, Times(f, f));
    TimesTimes(e, f);
    TimesMonotone(0.0, e, 0.0, f);
    RootBelow(a * c + b * d, Times(e, f));
  }

  lemma SquaresPositive(a: real, b: real)
    ensures a * a + b * b >= 0.0
  {
    TimesSelf(a);
    TimesSelf(b);
  }

  lemma SquareOfSum(a: real, b: real, c: real, d: real, e: real, f: real)
    ensures (a + c) * (a + c) + (b + d) * (b + d) == (a * a + b * b) + (c * c + d * d) + 2.0 * (a * c + b * d)
    ensures Times(e + f, e + f) == Times(e, e) + Times(f, f) + 2.0 * Times(e, f)
  {}

  lemma LengthOfSum(a: real, b: real, c: real, d: real, e: real, f: real)
    requires e >= 0.0 && f >= 0.0 && a * a + b * b <= Times(e, e) && c * c + d * d <= Times(f, f)
    ensures (a + c) * (a + c) + (b + d) * (b + d) <= Times(e + f, e + f)
  {
    DotBelow(a, b, c, d, e, f);
    SquareOfSum(a, b, c, d, e, f);
  }

  lemma CloseAdd(a: Complex, b: Complex, c: Complex, d: Complex, e: real, f: real)
    requires Close(a, b, e) && Close(c, d, f)
    ensures Close(Add(a, c), Add(b, d), e + f)
  {
    LengthOfSum(a.re - b.re, a.im - b.im, c.re - d.re, c.im - d.im, e, f);
    assert Sub(Add(a, c), Add(b, d)) == Complex((a.re - b.re) + (c.re - d.re), (a.im - b.im) + (c.im - d.im));
  }

  lemma CloseThrough(a: Complex, b: Complex, c: Complex, e: real, f: real)
    requires Close(a, b, e) && Close(b, c, f)
    ensures Close(a, c, e + f)
  {
    LengthOfSum(a.re - b.re, a.im - b.im, b.re - c.re, b.im - c.im, e, f);
    assert Sub(a, c) == Complex((a.re - b.re) + (b.re - c.re), (a.im - b.im) + (b.im - c.im));
  }

  lemma {:induction false} CloseSums(n: nat, f: int -> Complex, g: int -> Complex, e: real)
    requires forall i :: 0 <= i < n ==> Close(f(i), g(i), e)
    ensures Close(Sum(n, f), Sum(n, g), Times(n as real, e))
  {
    OneMore(n, e);
    if n == 0 {
      CloseToItself(ZERO);
    } else {
      hide Close, Add, Times;
      CloseSums(n - 1, f, g, e);
      CloseAdd(Sum(n - 1, f), Sum(n - 1, g), f(n - 1), g(n - 1), Times((n - 1) as real, e), e);
    }
  }

  lemma OneMore(n: nat, e: real)
    ensures Times((n - 1) as real, e) + e == Times(n as real, e) && Times(0.0, e) == 0.0
  {}

  // ----- Products

  lemma ScaledNorm(x: real, y: real, c: real, e: real)
    requires c >= 0.0 && x * x + y * y <= Times(e, e)
    ensures (x * c) * (x * c) + (y * c) * (y * c) <= Times(e * c, e * c)
  {
    TimesSelf(c);
    assert (x * c) * (x * c) + (y * c) * (y * c) == (x * x + y * y) * Times(c, c);
    assert Times(e * c, e * c) == Times(e, e) * Times(c, c);
    assert (x * x + y * y) * Times(c, c) <= Times(e, e) * Times(c, c) by {
      TimesMonotoneLeft(x * x + y * y, Times(e, e), Times(c, c));
    }
  }

  lemma TimesMonotoneLeft(a: real, b: real, c: real)
    requires a <= b && c >= 0.0
    ensures a * c <= b * c
  {}

  lemma CloseScaled(a: Complex, b: Complex, e: real, c: real)
    requires Close(a, b, e) && c >= 0.0
    ensures Close(Scale(a, c), Scale(b, c), Times(e, c))
  {
    ScaledNorm(a.re - b.re, a.im - b.im, c, e);
    assert Sub(Scale(a, c), Scale(b, c)) == Complex((a.re - b.re) * c, (a.im - b.im) * c);
    TimesMonotoneLeft(0.0, e, c);
  }

  lemma NormOfProduct(x: real, y: real, u: real, v: real)
    ensures (x * u - y * v) * (x * u - y * v) + (x * v + y * u) * (x * v + y * u)
         == (x * x + y * y) * (u * u + v * v)
  {}

  /** Turning by a number of modulus 1 keeps distances. */
  lemma CloseTurned(a: Complex, b: Complex, w: Complex, e: real)
    requires Close(a, b, e) && Norm(w) == 1.0
    ensures Close(Mul(a, w), Mul(b, w), e)
  {
    NormOfProduct(a.re - b.re, a.im - b.im, w.re, w.im);
    MulDifference(a, b, w);
  }

  lemma MulDifference(a: Complex, b: Complex, w: Complex)
    ensures var x, y := a.re - b.re, a.im - b.im;
      Sub(Mul(a, w), Mul(b, w)) == Complex(x * w.re - y * w.im, x * w.im + y * w.re)
  {}

  /** The powers of a root of unity have modulus 1. */
  lemma UnitModulus(w: int -> Complex, n: nat, inverse: bool, e: int)
    requires RootsOfUnity(w, n, inverse)
    ensures Norm(w(e)) == 1.0
    ensures -1.0 <= w(e).re <= 1.0 && -1.0 <= w(e).im <= 1.0
  {
    Twiddles.Minus(w, n, inverse, e);
    Twiddles.Plus(w, n, inverse, e, -e);
    assert Mul(w(e), Conj(w(e))).re == Norm(w(e));
    TimesSelf(w(e).re);
    TimesSelf(w(e).im);
    RootBelow(w(e).re, 1.0);
    RootBelow(w(e).im, 1.0);
  }

  // ----- Parts

  /** Parts at most c apart. */
  lemma CloseFromParts(a: Complex, b: Complex, c: real)
    requires -c <= a.re - b.re <= c && -c <= a.im - b.im <= c
    ensures Close(a, b, 1.5 * c)
  {
    SquareBelow(a.re - b.re, c);
    SquareBelow(a.im - b.im, c);
    TimesSelf(c);
    assert Times(1.5 * c, 1.5 * c) == 2.25 * Times(c, c);
  }

  lemma SquareBelow(x: real, c: real)
    requires -c <= x <= c
    ensures x * x <= Times(c, c)
  {
    if x >= 0.0 {
      TimesMonotone(x, c, x, c);
    } else {
      TimesMonotone(-x, c, -x, c);
      assert Times(-x, -x) == x * x;
    }
  }

  lemma PartsFromClose(a: Complex, b: Complex, e: real)
    requires Close(a, b, e)
    ensures -e <= a.re - b.re <= e && -e <= a.im - b.im <= e
  {
    TimesSelf(a.re - b.re);
    TimesSelf(a.im - b.im);
    RootBelow(a.re - b.re, e);
    RootBelow(a.im - b.im, e);
  }
}
