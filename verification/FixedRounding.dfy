/** What the fixed-point build rounds: a division, a multiplication, and the outputs of a column, against
    the exact complex numbers. */
module FixedRounding {
  import opened Basics
  import opened ComplexNumbers
  import opened Closeness
  import opened Transform
  import opened Recombination
  import opened Butterflies
  import opened FixedPoint
  import opened FixedColumns
  import Twiddles
  import Radices

  function Value(a: Fixed): Complex {
    Complex(a.re as real, a.im as real)
  }

  // ----- One division and one multiplication

  /** A product kept apart from the solver's own arithmetic. */
  function By(x: int, w: real): real {
    Times(x as real, w)
  }

  function Inverse(p: int): real
    requires p > 0
  {
    1.0 / p as real
  }

  lemma InverseIs(p: int)
    requires p > 0
    ensures Inverse(p) > 0.0 && p as real * Inverse(p) == 1.0
  {}

  lemma DivisionNear(h: int, x: int, p: int)
    requires h > 0 && p > 0 && InRange(x, SampMax(h))
    ensures -1.5 <= DivScalar(h, x, p) as real - By(x, Inverse(p)) <= 1.5
  {
    hide By, DivScalar, Inverse, InRange;
    DivScalarIsNear(h, x, p);
    QuotientNear(DivScalar(h, x, p), x, p);
  }

  lemma QuotientNear(d: int, x: int, p: int)
    requires p > 0 && -3 * p <= 2 * (p * d - x) <= 3 * p
    ensures -1.5 <= d as real - By(x, Inverse(p)) <= 1.5
  {
    var pd := p * d;
    InverseIs(p);
    var c, r := Inverse(p), (pd - x) as real;
    assert d as real == pd as real * c by {
      assert pd as real == p as real * d as real;
      Cancelled(p as real, d as real, c);
    }
    assert d as real - x as real * c == r * c by {
      DifferenceScaled(pd as real, x as real, c);
    }
    assert -1.5 * p as real <= r <= 1.5 * p as real;
    ScaledBound(r, p as real, c);
  }

  lemma Cancelled(p: real, d: real, c: real)
    requires p * c == 1.0
    ensures p * d * c == d
  {
    assert p * d * c == (p * c) * d;
  }

  lemma DifferenceScaled(a: real, b: real, c: real)
    ensures a * c - b * c == (a - b) * c
  {}

  lemma ScaledBound(r: real, p: real, c: real)
    requires p * c == 1.0 && c > 0.0 && -1.5 * p <= r <= 1.5 * p
    ensures -1.5 <= r * c <= 1.5
  {
    assert r * c <= (1.5 * p) * c && (-1.5 * p) * c <= r * c;
    assert (1.5 * p) * c == 1.5 * (p * c) && (-1.5 * p) * c == -1.5 * (p * c);
  }

  /** A part of a table entry: SAMP_MAX times the exact one, rounded to the nearest. */
  ghost predicate NearPart(h: int, t: int, w: real) {
    -1.0 <= w <= 1.0 && -0.5 <= t as real - By(SampMax(h), w) <= 0.5
  }

  ghost predicate NearTwiddle(h: int, t: Fixed, w: Complex) {
    NearPart(h, t.re, w.re) && NearPart(h, t.im, w.im)
  }

  /** `kf_cexp` of the fixed-point build, from the exact number. */
  function TableEntry(h: int, w: Complex): Fixed {
    Fixed((By(SampMax(h), w.re) + 0.5).Floor, (By(SampMax(h), w.im) + 0.5).Floor)
  }

  /** The table it fills is as near as the analysis takes for granted, and twiddle 0 is exact. */
  lemma TableEntryNear(h: int, w: int -> Complex, n: nat, inverse: bool, i: int)
    requires Twiddles.RootsOfUnity(w, n, inverse)
    ensures NearTwiddle(h, TableEntry(h, w(i)), w(i))
    ensures TableEntry(h, w(0)) == UnitTwiddle(h)
  {
    UnitModulus(w, n, inverse, i);
    assert By(SampMax(h), 1.0) == SampMax(h) as real && By(SampMax(h), 0.0) == 0.0;
    hide By, Norm;
  }

  /** x is at most c times 2h/p in size. */
  ghost predicate Small(h: int, x: int, c: int, p: int) {
    -c * (2 * h) <= x * p <= c * (2 * h)
  }

  /** n is off 2h times v by at most b * h / p. */
  ghost predicate Off(h: int, n: int, v: real, b: real, p: int) {
    -b * h as real <= (n as real - 2.0 * (h as real * v)) * p as real <= b * h as real
  }

  /** The product with a table entry against 2h times the exact one. */
  lemma ProductOff(h: int, x: int, t: int, w: real, c: int, p: int)
    requires h > 0 && p > 0 && c >= 0 && Small(h, x, c, p) && NearPart(h, t, w)
    ensures Off(h, x * t, By(x, w), 3.0 * c as real, p)
  {
    var delta := t as real - 2.0 * By(h, w);
    DeltaSmall(h, t, w);
    OffBy(x, t, h, w, delta);
    SmallParts(h, x, c, p);
    Regrouped(x as real, delta, p as real);
    ProductBelow(x as real * p as real, delta, c as real * h as real);
    hide *;
    OffIs(h, x * t, By(x, w), c, p, (x as real * delta) * p as real);
  }

  lemma SmallParts(h: int, x: int, c: int, p: int)
    requires Small(h, x, c, p)
    ensures -2.0 * (c as real * h as real) <= x as real * p as real <= 2.0 * (c as real * h as real)
  {
    assert -c * (2 * h) == -2 * (c * h) && c * (2 * h) == 2 * (c * h);
    assert (c * h) as real == c as real * h as real && (x * p) as real == x as real * p as real;
  }

  lemma OffIs(h: int, n: int, v: real, c: int, p: int, z: real)
    requires z == (n as real - 2.0 * (h as real * v)) * p as real
    requires -3.0 * (c as real * h as real) <= z <= 3.0 * (c as real * h as real)
    ensures Off(h, n, v, 3.0 * c as real, p)
  {
    assert 3.0 * c as real * h as real == 3.0 * (c as real * h as real);
    assert -(3.0 * c as real) * h as real == -3.0 * (c as real * h as real);
  }

  lemma DeltaSmall(h: int, t: int, w: real)
    requires NearPart(h, t, w)
    ensures -1.5 <= t as real - 2.0 * By(h, w) <= 1.5
  {
    assert SampMax(h) as real * w == 2.0 * (h as real * w) - w;
  }

  lemma OffBy(x: int, t: int, h: int, w: real, delta: real)
    requires delta == t as real - 2.0 * By(h, w)
    ensures (x * t) as real - 2.0 * (h as real * By(x, w)) == x as real * delta
  {
    assert (x * t) as real == x as real * t as real;
    assert h as real * (x as real * w) == x as real * (h as real * w);
  }

  lemma Regrouped(x: real, d: real, p: real)
    ensures (x * d) * p == (x * p) * d
  {}

  lemma ProductBelow(a: real, d: real, b: real)
    requires -2.0 * b <= a <= 2.0 * b && -1.5 <= d <= 1.5
    ensures -3.0 * b <= a * d <= 3.0 * b
  {
    if a >= 0.0 {
      PositiveBelow(a, d, b);
    } else {
      PositiveBelow(-a, d, b);
      assert (-a) * d == -(a * d);
    }
  }

  lemma PositiveBelow(a: real, d: real, b: real)
    requires 0.0 <= a <= 2.0 * b && -1.5 <= d <= 1.5
    ensures -3.0 * b <= a * d <= 3.0 * b
  {
    assert a * d <= a * 1.5 && a * -1.5 <= a * d;
  }

  ghost predicate NearBy(y: int, v: real, b: real, p: int) {
    -(b + p as real) <= 2.0 * p as real * (y as real - v) <= b + p as real
  }

  /** Rounding what is off by at most b * h / p, in units of 2h. */
  lemma RoundedNear(h: int, n: int, v: real, b: real, p: int)
    requires h > 0 && p > 0 && Off(h, n, v, b, p)
    ensures NearBy(Sround(h, n), v, b, p)
  {
    HalfUnit(h, n);
    hide Sround;
    RoundedReal(h as real, Sround(h, n) as real, n as real, v, b, p as real);
  }

  lemma RoundedReal(h: real, y: real, n: real, v: real, b: real, p: real)
    requires h > 0.0 && p > 0.0 && -b * h <= (n - 2.0 * (h * v)) * p <= b * h && -h <= 2.0 * (h * y) - n <= h
    ensures -(b + p) <= 2.0 * p * (y - v) <= b + p
  {
    RoundedParts(h, y, n, v, n - 2.0 * (h * v), p);
    SumOfBounds(h, b, p);
    UnitsOfH(h, 2.0 * p * (y - v), b + p);
  }

  lemma HalfUnit(h: int, n: int)
    requires h > 0
    ensures -h as real <= 2.0 * (h as real * Sround(h, n) as real) - n as real <= h as real
  {
    SroundNear(h, n);
    hide Sround;
    var y := Sround(h, n);
    assert (h * y) as real == h as real * y as real;
    assert 2 * h * y == 2 * (h * y);
  }

  lemma SumOfBounds(h: real, b: real, p: real)
    ensures (b + p) * h == b * h + h * p && -(b + p) * h == -b * h - h * p
  {}

  lemma RoundedParts(h: real, y: real, n: real, v: real, off: real, p: real)
    requires p > 0.0 && off == n - 2.0 * (h * v) && -h <= 2.0 * (h * y) - n <= h
    ensures -(h * p) + off * p <= h * (2.0 * p * (y - v)) <= h * p + off * p
  {
    var r := 2.0 * (h * y) - n;
    assert h * (2.0 * p * (y - v)) == (r + off) * p;
    assert r * p <= h * p && -h * p <= r * p;
    assert (r + off) * p == r * p + off * p;
  }

  lemma UnitsOfH(h: real, z: real, b: real)
    requires h > 0.0 && -(b * h) <= h * z <= b * h
    ensures -b <= z <= b
  {
    if z > b {
      TimesGrows(h, b, z);
      assert false;
    }
    if z < -b {
      TimesGrows(h, z, -b);
      assert false;
    }
  }

  lemma TimesGrows(h: real, a: real, b: real)
    requires h > 0.0 && a < b
    ensures h * a < h * b
  {}

  lemma SmallShare(h: int, x: int, c: int, p: int)
    requires h > 0 && p > 0 && c > 0 && InRange(x, c * Share(h, p))
    ensures Small(h, x, c, p)
  {
    ShareFits(h, p);
    var q := Share(h, p);
    hide Share;
    ScaleBound(x, c * q, p);
    MulAtLeast(c, 2 * h, p * q);
    SharesOf(c, q, p, h);
  }

  lemma SharesOf(c: int, q: int, p: int, h: int)
    ensures c * q * p == c * (p * q) && -(c * q) * p == -(c * (p * q)) && -c * (2 * h) == -(c * (2 * h))
  {}

  lemma OffsAdd(h: int, n: int, v: real, b: real, m: int, w: real, c: real, p: int)
    requires Off(h, n, v, b, p) && Off(h, m, w, c, p)
    ensures Off(h, n + m, v + w, b + c, p)
  {
    OffsAddParts(h as real, n as real, v, m as real, w, p as real, b, c);
  }

  lemma OffsAddParts(h: real, n: real, v: real, m: real, w: real, p: real, b: real, c: real)
    ensures (n + m - 2.0 * (h * (v + w))) * p == (n - 2.0 * (h * v)) * p + (m - 2.0 * (h * w)) * p
    ensures (b + c) * h == b * h + c * h && -(b + c) * h == -b * h + -c * h
  {}

  lemma TwoProducts(h: int, a: int, t: int, v: real, b: int, u: int, w: real, p: int)
    requires h > 0 && p >= 2 && Small(h, a, 1, p) && Small(h, b, 1, p) && NearPart(h, t, v) && NearPart(h, u, w)
    ensures -2.0 <= Sround(h, a * t + b * u) as real - (By(a, v) + By(b, w)) <= 2.0
  {
    hide By, Small, NearPart, Sround, Off, NearBy;
    ProductOff(h, a, t, v, 1, p);
    ProductOff(h, b, u, w, 1, p);
    OffsAdd(h, a * t, By(a, v), 3.0, b * u, By(b, w), 3.0, p);
    RoundedNear(h, a * t + b * u, By(a, v) + By(b, w), 6.0, p);
    WithinTwo(Sround(h, a * t + b * u), By(a, v) + By(b, w), p);
  }

  lemma WithinTwo(y: int, v: real, p: int)
    requires p >= 2 && NearBy(y, v, 6.0, p)
    ensures -2.0 <= y as real - v <= 2.0
  {
    WithinBound(p as real, y as real - v, 6.0, 2.0);
  }

  lemma WithinBound(p: real, z: real, b: real, c: real)
    requires p > 0.0 && -(b + p) <= 2.0 * p * z <= b + p && b + p <= 2.0 * p * c
    ensures -c <= z <= c
  {
    if z > c {
      TimesGrows(2.0 * p, c, z);
      assert false;
    }
    if z < -c {
      TimesGrows(2.0 * p, z, -c);
      assert false;
    }
  }

  /** A scaled entry times its twiddle. */
  lemma ProductClose(h: int, s: Fixed, t: Fixed, w: Complex, p: int)
    requires h > 0 && p >= 2 && InRange(s.re, Share(h, p)) && InRange(s.im, Share(h, p)) && NearTwiddle(h, t, w)
    ensures Close(Value(Product(h, s, t)), Mul(Value(s), w), 3.0)
  {
    assert InRange(-s.im, Share(h, p));
    assert 1 * Share(h, p) == Share(h, p);
    hide Small, NearPart, Sround, Share;
    SmallShare(h, s.re, 1, p);
    SmallShare(h, s.im, 1, p);
    SmallShare(h, -s.im, 1, p);
    TwoProducts(h, s.re, t.re, w.re, -s.im, t.im, w.im, p);
    TwoProducts(h, s.re, t.im, w.im, s.im, t.re, w.re, p);
    ProductParts(h, s, t, w);
    hide By, Product;
    CloseFromParts(Value(Product(h, s, t)), Mul(Value(s), w), 2.0);
  }

  lemma ProductParts(h: int, s: Fixed, t: Fixed, w: Complex)
    requires h > 0
    ensures Product(h, s, t) == Fixed(Sround(h, s.re * t.re + -s.im * t.im), Sround(h, s.re * t.im + s.im * t.re))
    ensures Mul(Value(s), w) == Complex(By(s.re, w.re) + By(-s.im, w.im), By(s.re, w.im) + By(s.im, w.re))
  {
    MinusTimes(s.im, t.im);
    ValueTimes(s, w);
    MinusBy(s.im, w.im);
    hide Sround, Mul, By;
  }

  lemma MinusTimes(x: int, y: int)
    ensures -x * y == -(x * y)
  {}

  lemma MinusBy(x: int, w: real)
    ensures By(-x, w) == -By(x, w)
  {}

  lemma ValueTimes(s: Fixed, w: Complex)
    ensures Mul(Value(s), w) == Complex(By(s.re, w.re) - By(s.im, w.im), By(s.re, w.im) + By(s.im, w.re))
  {}

  /** A sum or difference of two products, times a constant of the table. */
  lemma ScalarMulNear(h: int, x: int, t: int, w: real, p: int)
    requires h > 0 && p > 0 && InRange(x, 4 * Share(h, p)) && NearPart(h, t, w)
    ensures NearBy(ScalarMul(h, x, t), By(x, w), 12.0, p)
  {
    hide By, Small, NearPart, Sround, InRange, Off, NearBy, Share;
    SmallShare(h, x, 4, p);
    ProductOff(h, x, t, w, 4, p);
    RoundedNear(h, x * t, By(x, w), 12.0, p);
  }

  // ----- The parts of a column

  lemma ScaledValue(f: Fixed, c: real)
    ensures Scale(Value(f), c) == Complex(By(f.re, c), By(f.im, c))
  {}

  lemma DividedParts(h: int, f: Fixed, p: int)
    requires h > 0 && p > 0 && InRange(f.re, SampMax(h)) && InRange(f.im, SampMax(h))
    ensures Close(Value(FixDiv(h, f, p)), Scale(Value(f), Inverse(p)), 2.25)
  {
    hide Close, DivScalar, InRange, Inverse, Scale, By;
    DivisionNear(h, f.re, p);
    DivisionNear(h, f.im, p);
    ScaledValue(f, Inverse(p));
    CloseFromParts(Value(FixDiv(h, f, p)), Scale(Value(f), Inverse(p)), 1.5);
  }

  lemma DividedClose(h: int, f: Fixed, y: Complex, e: real, p: int)
    requires h > 0 && p > 0 && InRange(f.re, SampMax(h)) && InRange(f.im, SampMax(h)) && Close(Value(f), y, e)
    ensures Close(Value(FixDiv(h, f, p)), Scale(y, Inverse(p)), 2.25 + Times(e, Inverse(p)))
  {
    hide Close, DivScalar, InRange, Inverse, Scale, Times;
    InverseIs(p);
    var c := Inverse(p);
    DividedParts(h, f, p);
    CloseScaled(Value(f), y, e, c);
    CloseThrough(Value(FixDiv(h, f, p)), Scale(Value(f), c), Scale(y, c), 2.25, Times(e, c));
  }

  lemma CloseInRange(h: int, f: Fixed, y: Complex, e: real, r: real)
    requires Close(Value(f), y, e) && Close(y, ZERO, r) && r + e <= SampMax(h) as real
    ensures InRange(f.re, SampMax(h)) && InRange(f.im, SampMax(h))
  {
    CloseThrough(Value(f), y, ZERO, e, r);
    PartsFromClose(Value(f), ZERO, e + r);
  }

  /** An entry close to y, divided by the radix and turned by its twiddle. */
  lemma PartClose(h: int, c: seq<Fixed>, q: nat, t: Fixed, y: Complex, w: Complex, e: real, r: real)
    requires h > 0 && q < |c| && Close(Value(c[q]), y, e) && Close(y, ZERO, r) && r + e <= SampMax(h) as real
    requires Norm(w) == 1.0 && (if q == 0 then w == ONE else NearTwiddle(h, t, w))
    ensures Close(Value(Part(h, c, q, t)), Mul(Scale(y, Inverse(|c|)), w), 5.25 + Times(e, Inverse(|c|)))
  {
    var p := |c|;
    CloseInRange(h, c[q], y, e, r);
    assert EntryAt(c, q) == c[q];
    FixDivBound(h, c[q].re, p);
    FixDivBound(h, c[q].im, p);
    var d := FixDiv(h, c[q], p);
    assert InRange(d.re, Share(h, p)) && InRange(d.im, Share(h, p));
    hide Close, Product, NearTwiddle, Norm, InRange, Mul, Scale, Times, FixDiv, SampMax, Inverse;
    var z, near := Scale(y, Inverse(p)), 2.25 + Times(e, Inverse(p));
    DividedClose(h, c[q], y, e, p);
    if q == 0 {
      MulByUnits(z);
      CloseWithin(Value(d), z, near, near + 3.0);
    } else {
      ProductClose(h, d, t, w, p);
      CloseTurned(Value(d), z, w, near);
      CloseThrough(Value(Product(h, d, t)), Mul(Value(d), w), Mul(z, w), 3.0, near);
    }
  }

  /** A transform divided by p. */
  function Divided(Y: seq<Complex>, p: int): (Z: seq<Complex>)
    requires p > 0
    ensures |Z| == |Y|
  {
    seq(|Y|, i requires 0 <= i < |Y| => Scale(Y[i], Inverse(p)))
  }

  lemma PlainTwiddled(X: seq<Complex>, w: int -> Complex, n: nat, inverse: bool, s: int, q: nat)
    requires Twiddles.RootsOfUnity(w, n, inverse) && q < |X|
    ensures Twiddled(X, 1, w, s, 0, q) == X[q]
  {
    assert s * q * 0 == 0 && q * 1 + 0 == q;
    MulByUnits(X[q]);
  }

  /** Output t of an exact transform of the parts X of a column. */
  function PartsBin(X: seq<Complex>, w: int -> Complex, s: int, m: int, t: int): Complex {
    ButterflyBin(X, |X|, 1, w, s * m, t * 1 + 0)
  }

  /** Output t of column u of an exact stage. */
  function StageBin(Z: seq<Complex>, p: nat, m: nat, w: int -> Complex, s: int, u: int, t: int): Complex
    requires m > 0
  {
    ButterflyBin(Z, p, m, w, s, t * m + u)
  }

  /** Parts that are close make exact outputs that are close. */
  lemma ExactOutputsClose(X: seq<Complex>, Z: seq<Complex>, p: nat, m: nat, w: int -> Complex, n: nat, inverse: bool,
                          s: nat, u: nat, t: nat, e: real)
    requires Twiddles.RootsOfUnity(w, n, inverse) && u < m && |X| == p
    requires forall q :: 0 <= q < p ==> Close(X[q], Twiddled(Z, m, w, s, u, q), e)
    ensures Close(PartsBin(X, w, s, m, t), StageBin(Z, p, m, w, s, u, t), Times(p as real, e))
  {
    ColumnBin(w, n, inverse, X, p, 1, s * m, 0, t);
    ColumnBin(w, n, inverse, Z, p, m, s, u, t);
    var f, g := ColumnTerm(X, 1, w, s * m, 0, t), ColumnTerm(Z, m, w, s, u, t);
    forall q | 0 <= q < p
      ensures Close(f(q), g(q), e)
    {
      PlainTwiddled(X, w, n, inverse, s * m, q);
      assert s * m * 1 * (q * t) == s * m * (q * t);
      UnitModulus(w, n, inverse, s * m * (q * t));
      hide Close, Mul, Norm, Twiddled, Twiddles.RootsOfUnity;
      CloseTurned(X[q], Twiddled(Z, m, w, s, u, q), w(s * m * (q * t)), e);
    }
    CloseSums(p, f, g, e);
  }

  // ----- What the butterflies round, for the radices with code of their own

  ghost predicate PartInRange(h: int, b: Fixed, p: int)
    requires p > 0
  {
    InRange(b.re, 2 * Share(h, p)) && InRange(b.im, 2 * Share(h, p))
  }

  lemma EntryBound(h: int, t: int, w: real)
    requires h > 0 && NearPart(h, t, w)
    ensures InRange(t, SampMax(h))
  {
    ByBound(SampMax(h), w);
    hide By;
  }

  lemma ByBound(m: int, w: real)
    requires m >= 0 && -1.0 <= w <= 1.0
    ensures -(m as real) <= By(m, w) <= m as real
  {
    hide Times;
    UnitBound(m as real, w);
  }

  lemma UnitBound(m: real, w: real)
    requires m >= 0.0 && -1.0 <= w <= 1.0
    ensures -m <= Times(m, w) <= m
  {
    assert m * w <= m * 1.0 && m * -1.0 <= m * w;
  }

  lemma RotatedBound(h: int, a: int, t: int, b: int, u: int, q: int)
    requires h > 0 && q >= 0 && InRange(a, q) && InRange(b, q) && InRange(t, SampMax(h)) && InRange(u, SampMax(h))
    ensures InRange(Sround(h, a * t + b * u), 2 * q)
  {
    var m := SampMax(h);
    ProductWithin(a, t, q, m);
    ProductWithin(b, u, q, m);
    assert m * (2 * q) == q * m + q * m && -m * (2 * q) == -(q * m + q * m);
    hide Sround;
    SroundBounds(h, a * t + b * u, 2 * q);
  }

  lemma ProductWithin(a: int, t: int, q: int, m: int)
    requires -q <= a <= q && -m <= t <= m
    ensures -(q * m) <= a * t <= q * m
  {
    if t >= 0 {
      ScaleBound(a, q, t);
      MulMonotoneInt(q, t, m);
    } else {
      ScaleBound(a, q, -t);
      MulMonotoneInt(q, -t, m);
      assert a * -t == -(a * t) && q * -t == -(q * t);
    }
  }

  lemma MulMonotoneInt(q: int, a: int, b: int)
    requires q >= 0 && a <= b
    ensures q * a <= q * b && -q * a == -(q * a)
  {}

  lemma PartBound(h: int, c: seq<Fixed>, q: nat, t: Fixed, w: Complex)
    requires h > 0 && q < |c| && InRange(c[q].re, SampMax(h)) && InRange(c[q].im, SampMax(h))
    requires q > 0 ==> NearTwiddle(h, t, w)
    ensures PartInRange(h, Part(h, c, q, t), |c|)
  {
    var p := |c|;
    assert EntryAt(c, q) == c[q];
    FixDivBound(h, c[q].re, p);
    FixDivBound(h, c[q].im, p);
    var d := FixDiv(h, c[q], p);
    ShareFits(h, p);
    assert InRange(d.re, Share(h, p)) && InRange(d.im, Share(h, p)) && InRange(-d.im, Share(h, p));
    hide FixDiv, Share, Sround, NearPart;
    if q > 0 {
      EntryBound(h, t.re, w.re);
      EntryBound(h, t.im, w.im);
      hide SampMax;
      RotatedBound(h, d.re, t.re, -d.im, t.im, Share(h, p));
      RotatedBound(h, d.re, t.im, d.im, t.re, Share(h, p));
      ProductParts(h, d, t, w);
    }
  }

  lemma ValueOfSum(a: Fixed, b: Fixed)
    ensures Value(Plus(a, b)) == Add(Value(a), Value(b))
    ensures Value(Minus(a, b)) == Sub(Value(a), Value(b))
  {}

  lemma Rounded2(w: int -> Complex, n: nat, inverse: bool, s: nat, b0: Fixed, b1: Fixed, t: nat)
    requires Radices.Stage(w, n, inverse, 2, 1, s, 0) && t < 2
    ensures Value(Outputs2(b0, b1)[t]) == ButterflyBin([Value(b0), Value(b1)], 2, 1, w, s, t * 1 + 0)
  {
    var X := [Value(b0), Value(b1)];
    hide ButterflyBin;
    PlainTwiddled(X, w, n, inverse, s, 1);
    Radices.Radix2(w, n, inverse, X, 1, s, 0);
    ValueOfSum(b0, b1);
  }

  lemma Rounded4(w: int -> Complex, n: nat, inverse: bool, s: nat, b0: Fixed, b1: Fixed, b2: Fixed, b3: Fixed, t: nat)
    requires Radices.Stage(w, n, inverse, 4, 1, s, 0) && t < 4
    ensures Value(Outputs4(b0, b1, b2, b3, inverse)[t])
         == ButterflyBin([Value(b0), Value(b1), Value(b2), Value(b3)], 4, 1, w, s, t * 1 + 0)
  {
    var X := [Value(b0), Value(b1), Value(b2), Value(b3)];
    hide ButterflyBin, Twiddled, Twiddles.RootsOfUnity, Value, Add, Sub, Mul, Outputs4, Radices.QuarterOf;
    PlainTwiddled(X, w, n, inverse, s, 1);
    PlainTwiddled(X, w, n, inverse, s, 2);
    PlainTwiddled(X, w, n, inverse, s, 3);
    Radices.Radix4(w, n, inverse, X, 1, s, 0);
    ValueOfOutputs4(b0, b1, b2, b3, inverse);
    hide *;
  }

  lemma ValueOfOutputs4(b0: Fixed, b1: Fixed, b2: Fixed, b3: Fixed, inverse: bool)
    ensures var c0, c1, c2, c3, out := Value(b0), Value(b1), Value(b2), Value(b3), Outputs4(b0, b1, b2, b3, inverse);
      && |out| == 4
      && Value(out[0]) == Add(Add(c0, c2), Add(c1, c3))
      && Value(out[1]) == Add(Sub(c0, c2), Radices.QuarterOf(inverse, Sub(c1, c3)))
      && Value(out[2]) == Sub(Add(c0, c2), Add(c1, c3))
      && Value(out[3]) == Sub(Sub(c0, c2), Radices.QuarterOf(inverse, Sub(c1, c3)))
  {}

  /** One part of outputs 1 and 2 of radix 3. */
  lemma ThirdNear(h: int, b: int, s: int, d: int, t: int, y: real)
    requires h > 0 && InRange(d, 4 * Share(h, 3)) && NearPart(h, t, y)
    ensures -3.0 <= (b - HalfOf(s) - ScalarMul(h, d, t)) as real - (b as real - s as real * 0.5 - By(d, y)) <= 3.0
    ensures -3.0 <= (b - HalfOf(s) + ScalarMul(h, d, t)) as real - (b as real - s as real * 0.5 + By(d, y)) <= 3.0
  {
    ScalarMulNear(h, d, t, y, 3);
    var z := ScalarMul(h, d, t) as real - By(d, y);
    assert -15.0 <= 6.0 * z <= 15.0;
    hide ScalarMul, By, NearPart, InRange, Share;
    assert -0.5 <= HalfOf(s) as real - s as real * 0.5 <= 0.5;
  }

  lemma Rounded3(h: int, w: int -> Complex, n: nat, inverse: bool, s: nat, b0: Fixed, b1: Fixed, b2: Fixed,
                 epi3: Fixed, t: nat)
    requires Radices.Stage(w, n, inverse, 3, 1, s, 0) && t < 3 && h > 0 && NearTwiddle(h, epi3, w(s))
    requires PartInRange(h, b1, 3) && PartInRange(h, b2, 3)
    ensures Close(Value(Outputs3(h, b0, b1, b2, epi3)[t]),
                  ButterflyBin([Value(b0), Value(b1), Value(b2)], 3, 1, w, s, t * 1 + 0), 4.5)
  {
    var X := [Value(b0), Value(b1), Value(b2)];
    hide ButterflyBin, Twiddled, Twiddles.RootsOfUnity, Close, Outputs3, NearPart, PartInRange, Value;
    hide Radices.Third, Add, Sub, Mul;
    PlainTwiddled(X, w, n, inverse, s, 1);
    PlainTwiddled(X, w, n, inverse, s, 2);
    assert s * 1 == s;
    Radices.Radix3(w, n, inverse, X, 1, s, 0);
    Outputs3Near(h, b0, b1, b2, epi3, w(s).im);
    hide *;
  }

  lemma Outputs3Near(h: int, b0: Fixed, b1: Fixed, b2: Fixed, epi3: Fixed, y: real)
    requires h > 0 && NearPart(h, epi3.im, y) && PartInRange(h, b1, 3) && PartInRange(h, b2, 3)
    ensures var c0, c1, c2, out := Value(b0), Value(b1), Value(b2), Outputs3(h, b0, b1, b2, epi3);
      && |out| == 3
      && Close(Value(out[0]), Add(Add(c0, c1), c2), 4.5)
      && Close(Value(out[1]), Radices.Third(c0, Add(c1, c2), Sub(c1, c2), y), 4.5)
      && Close(Value(out[2]), Radices.Third(c0, Add(c1, c2), Sub(c1, c2), -y), 4.5)
  {
    var c0, c1, c2, out := Value(b0), Value(b1), Value(b2), Outputs3(h, b0, b1, b2, epi3);
    var sum, diff := Plus(b1, b2), Minus(b1, b2);
    assert InRange(diff.re, 4 * Share(h, 3)) && InRange(diff.im, 4 * Share(h, 3));
    hide Close, NearPart, Share, ScalarMul, HalfOf, By;
    ThirdNear(h, b0.re, sum.re, diff.im, epi3.im, y);
    ThirdNear(h, b0.im, sum.im, diff.re, epi3.im, y);
    ThirdParts(b0, b1, b2, y);
    CloseFromParts(Value(out[0]), Add(Add(c0, c1), c2), 3.0);
    CloseFromParts(Value(out[1]), Radices.Third(c0, Add(c1, c2), Sub(c1, c2), y), 3.0);
    CloseFromParts(Value(out[2]), Radices.Third(c0, Add(c1, c2), Sub(c1, c2), -y), 3.0);
  }

  lemma ThirdParts(b0: Fixed, b1: Fixed, b2: Fixed, y: real)
    ensures var c0, sum, diff := Value(b0), Plus(b1, b2), Minus(b1, b2);
      && Radices.Third(c0, Add(Value(b1), Value(b2)), Sub(Value(b1), Value(b2)), y)
        == Complex(b0.re as real - sum.re as real * 0.5 - By(diff.im, y),
                   b0.im as real - sum.im as real * 0.5 + By(diff.re, y))
      && Radices.Third(c0, Add(Value(b1), Value(b2)), Sub(Value(b1), Value(b2)), -y)
        == Complex(b0.re as real - sum.re as real * 0.5 + By(diff.im, y),
                   b0.im as real - sum.im as real * 0.5 - By(diff.re, y))
  {}

  /** The exact output, in the terms the code gathers: s7, s8 are sums and s10, s9 differences of parts. */
  function Gathered(b0: Fixed, s7: Fixed, s8: Fixed, s10: Fixed, s9: Fixed, x: Complex, y: Complex): Complex {
    Complex(b0.re as real + By(s7.re, x.re) + By(s8.re, y.re) - By(s10.im, x.im) - By(s9.im, y.im),
            b0.im as real + By(s7.im, x.re) + By(s8.im, y.re) + By(s10.re, x.im) + By(s9.re, y.im))
  }

  lemma FifthIsGathered(b0: Fixed, b1: Fixed, b2: Fixed, b3: Fixed, b4: Fixed, x: Complex, y: Complex)
    ensures Radices.Fifth(Value(b0), Value(b1), Value(b2), Value(b3), Value(b4), x, y)
         == Gathered(b0, Plus(b1, b4), Plus(b2, b3), Minus(b1, b4),
                     Minus(b2, b3), x, y)
  {
    ValueOfSum(b1, b4);
    ValueOfSum(b2, b3);
    hide Plus, Minus;
  }

  /** The four combinations of signs that occur, for one part of an output of radix 5. */
  lemma FifthNear(h: int, b: int, s7: int, s8: int, d10: int, d9: int, tx: int, ty: int, ux: int, uy: int,
                  x: real, y: real, vx: real, vy: real)
    requires h > 0 && InRange(s7, 4 * Share(h, 5)) && InRange(s8, 4 * Share(h, 5))
    requires InRange(d10, 4 * Share(h, 5)) && InRange(d9, 4 * Share(h, 5))
    requires NearPart(h, tx, x) && NearPart(h, ty, y) && NearPart(h, ux, vx) && NearPart(h, uy, vy)
    ensures var even, exact := b + ScalarMul(h, s7, tx) + ScalarMul(h, s8, ty), b as real + By(s7, x) + By(s8, y);
      var m, n, j, k := ScalarMul(h, d10, ux), ScalarMul(h, d9, uy), By(d10, vx), By(d9, vy);
      && -6.8 <= (even + m + n) as real - (exact + j + k) <= 6.8
      && -6.8 <= (even - m - n) as real - (exact - j - k) <= 6.8
      && -6.8 <= (even + m - n) as real - (exact + j - k) <= 6.8
      && -6.8 <= (even - m + n) as real - (exact - j + k) <= 6.8
  {
    ScalarMulNear(h, s7, tx, x, 5);
    ScalarMulNear(h, s8, ty, y, 5);
    ScalarMulNear(h, d10, ux, vx, 5);
    ScalarMulNear(h, d9, uy, vy, 5);
    hide By, ScalarMul, NearPart, Share;
  }

  ghost predicate Sums(h: int, s7: Fixed, s8: Fixed, s10: Fixed, s9: Fixed) {
    && InRange(s7.re, 4 * Share(h, 5)) && InRange(s7.im, 4 * Share(h, 5))
    && InRange(s8.re, 4 * Share(h, 5)) && InRange(s8.im, 4 * Share(h, 5))
    && InRange(s10.re, 4 * Share(h, 5)) && InRange(s10.im, 4 * Share(h, 5))
    && InRange(s9.re, 4 * Share(h, 5)) && InRange(s9.im, 4 * Share(h, 5))
  }

  lemma GatheredConj(b0: Fixed, s7: Fixed, s8: Fixed, s10: Fixed, s9: Fixed, x: Complex, y: Complex)
    ensures Gathered(b0, s7, s8, s10, s9, Conj(x), Conj(y))
         == Complex(b0.re as real + By(s7.re, x.re) + By(s8.re, y.re) + By(s10.im, x.im) + By(s9.im, y.im),
                    b0.im as real + By(s7.im, x.re) + By(s8.im, y.re) - By(s10.re, x.im) - By(s9.re, y.im))
    ensures Gathered(b0, s7, s8, s10, s9, x, Conj(y))
         == Complex(b0.re as real + By(s7.re, x.re) + By(s8.re, y.re) - By(s10.im, x.im) + By(s9.im, y.im),
                    b0.im as real + By(s7.im, x.re) + By(s8.im, y.re) + By(s10.re, x.im) - By(s9.re, y.im))
    ensures Gathered(b0, s7, s8, s10, s9, Conj(x), y)
         == Complex(b0.re as real + By(s7.re, x.re) + By(s8.re, y.re) + By(s10.im, x.im) - By(s9.im, y.im),
                    b0.im as real + By(s7.im, x.re) + By(s8.im, y.re) - By(s10.re, x.im) + By(s9.re, y.im))
  {
    hide By;
    ByNeg(s10.im, x.im);
    ByNeg(s10.re, x.im);
    ByNeg(s9.im, y.im);
    ByNeg(s9.re, y.im);
  }

  lemma ByNeg(x: int, w: real)
    ensures By(x, -w) == -By(x, w)
  {}

  /** Outputs 1 and 4. */
  lemma OuterNear(h: int, b0: Fixed, s7: Fixed, s8: Fixed, s10: Fixed, s9: Fixed, tx: Fixed, ty: Fixed,
                  x: Complex, y: Complex)
    requires h > 0 && Sums(h, s7, s8, s10, s9) && NearTwiddle(h, tx, x) && NearTwiddle(h, ty, y)
    ensures var even, odd := EvenPart(h, b0, s7, s8, tx, ty), OddPart(h, s10, s9, tx, ty);
      && Close(Value(Minus(even, odd)), Gathered(b0, s7, s8, s10, s9, x, y), 10.2)
      && Close(Value(Plus(even, odd)), Gathered(b0, s7, s8, s10, s9, Conj(x), Conj(y)), 10.2)
  {
    var even, odd := EvenPart(h, b0, s7, s8, tx, ty), OddPart(h, s10, s9, tx, ty);
    hide Close, By, NearPart, InRange, Share, ScalarMul;
    FifthNear(h, b0.re, s7.re, s8.re, s10.im, s9.im, tx.re, ty.re, tx.im, ty.im, x.re, y.re, x.im, y.im);
    FifthNear(h, b0.im, s7.im, s8.im, s10.re, s9.re, tx.re, ty.re, tx.im, ty.im, x.re, y.re, x.im, y.im);
    GatheredConj(b0, s7, s8, s10, s9, x, y);
    hide Conj;
    CloseFromParts(Value(Minus(even, odd)), Gathered(b0, s7, s8, s10, s9, x, y), 6.8);
    CloseFromParts(Value(Plus(even, odd)), Gathered(b0, s7, s8, s10, s9, Conj(x), Conj(y)), 6.8);
  }

  /** Outputs 2 and 3. */
  lemma InnerNear(h: int, b0: Fixed, s7: Fixed, s8: Fixed, s10: Fixed, s9: Fixed, tx: Fixed, ty: Fixed,
                  x: Complex, y: Complex)
    requires h > 0 && Sums(h, s7, s8, s10, s9) && NearTwiddle(h, tx, x) && NearTwiddle(h, ty, y)
    ensures var even, odd := EvenPart(h, b0, s7, s8, ty, tx), InnerPart(h, s10, s9, tx, ty);
      && Close(Value(Plus(even, odd)), Gathered(b0, s7, s8, s10, s9, y, Conj(x)), 10.2)
      && Close(Value(Minus(even, odd)), Gathered(b0, s7, s8, s10, s9, Conj(y), x), 10.2)
  {
    var even, odd := EvenPart(h, b0, s7, s8, ty, tx), InnerPart(h, s10, s9, tx, ty);
    hide Close, By, NearPart, InRange, Share, ScalarMul;
    FifthNear(h, b0.re, s7.re, s8.re, s10.im, s9.im, ty.re, tx.re, ty.im, tx.im, y.re, x.re, y.im, x.im);
    FifthNear(h, b0.im, s7.im, s8.im, s10.re, s9.re, ty.re, tx.re, ty.im, tx.im, y.re, x.re, y.im, x.im);
    GatheredConj(b0, s7, s8, s10, s9, y, x);
    hide Conj, Gathered;
    CloseFromParts(Value(Plus(even, odd)), Gathered(b0, s7, s8, s10, s9, y, Conj(x)), 6.8);
    CloseFromParts(Value(Minus(even, odd)), Gathered(b0, s7, s8, s10, s9, Conj(y), x), 6.8);
  }

  lemma SumsOfParts(h: int, b1: Fixed, b2: Fixed, b3: Fixed, b4: Fixed)
    requires PartInRange(h, b1, 5) && PartInRange(h, b2, 5) && PartInRange(h, b3, 5) && PartInRange(h, b4, 5)
    ensures Sums(h, Plus(b1, b4), Plus(b2, b3), Minus(b1, b4),
                 Minus(b2, b3))
  {
    hide Share;
  }

  lemma Rounded5(h: int, w: int -> Complex, n: nat, inverse: bool, s: nat, b0: Fixed, b1: Fixed, b2: Fixed,
                 b3: Fixed, b4: Fixed, ya: Fixed, yb: Fixed, t: nat)
    requires Radices.Stage(w, n, inverse, 5, 1, s, 0) && t < 5 && h > 0
    requires NearTwiddle(h, ya, w(s)) && NearTwiddle(h, yb, w(2 * s))
    requires PartInRange(h, b1, 5) && PartInRange(h, b2, 5) && PartInRange(h, b3, 5) && PartInRange(h, b4, 5)
    ensures Close(Value(Outputs5(h, b0, b1, b2, b3, b4, ya, yb)[t]),
                  ButterflyBin([Value(b0), Value(b1), Value(b2), Value(b3), Value(b4)], 5, 1, w, s, t * 1 + 0), 10.2)
  {
    var X := [Value(b0), Value(b1), Value(b2), Value(b3), Value(b4)];
    hide ButterflyBin, Twiddled, Twiddles.RootsOfUnity, Close, NearTwiddle, PartInRange, Value;
    hide Radices.Fifth, Add, Conj, Mul, Outputs5;
    PlainTwiddled(X, w, n, inverse, s, 1);
    PlainTwiddled(X, w, n, inverse, s, 2);
    PlainTwiddled(X, w, n, inverse, s, 3);
    PlainTwiddled(X, w, n, inverse, s, 4);
    assert s * 1 == s;
    Radices.Radix5(w, n, inverse, X, 1, s, 0);
    Outputs5Near(h, b0, b1, b2, b3, b4, ya, yb, w(s), w(2 * s));
    hide *;
  }

  lemma Outputs5Near(h: int, b0: Fixed, b1: Fixed, b2: Fixed, b3: Fixed, b4: Fixed, ya: Fixed, yb: Fixed,
                     x: Complex, y: Complex)
    requires h > 0 && NearTwiddle(h, ya, x) && NearTwiddle(h, yb, y)
    requires PartInRange(h, b1, 5) && PartInRange(h, b2, 5) && PartInRange(h, b3, 5) && PartInRange(h, b4, 5)
    ensures var c0, c1, c2, c3, c4 := Value(b0), Value(b1), Value(b2), Value(b3), Value(b4);
      var out := Outputs5(h, b0, b1, b2, b3, b4, ya, yb);
      && |out| == 5
      && Close(Value(out[0]), Add(Add(Add(Add(c0, c1), c2), c3), c4), 10.2)
      && Close(Value(out[1]), Radices.Fifth(c0, c1, c2, c3, c4, x, y), 10.2)
      && Close(Value(out[2]), Radices.Fifth(c0, c1, c2, c3, c4, y, Conj(x)), 10.2)
      && Close(Value(out[3]), Radices.Fifth(c0, c1, c2, c3, c4, Conj(y), x), 10.2)
      && Close(Value(out[4]), Radices.Fifth(c0, c1, c2, c3, c4, Conj(x), Conj(y)), 10.2)
  {
    var s7, s8 := Plus(b1, b4), Plus(b2, b3);
    var s10, s9 := Minus(b1, b4), Minus(b2, b3);
    SumsOfParts(h, b1, b2, b3, b4);
    OuterNear(h, b0, s7, s8, s10, s9, ya, yb, x, y);
    InnerNear(h, b0, s7, s8, s10, s9, ya, yb, x, y);
    FifthIsGathered(b0, b1, b2, b3, b4, x, y);
    FifthIsGathered(b0, b1, b2, b3, b4, y, Conj(x));
    FifthIsGathered(b0, b1, b2, b3, b4, Conj(y), x);
    FifthIsGathered(b0, b1, b2, b3, b4, Conj(x), Conj(y));
    var out := Outputs5(h, b0, b1, b2, b3, b4, ya, yb);
    assert Close(Value(out[0]), Add(Add(Add(Add(Value(b0), Value(b1)), Value(b2)), Value(b3)), Value(b4)), 10.2) by {
      hide EvenPart, OddPart, InnerPart, Close;
      CloseFromParts(Value(out[0]), Add(Add(Add(Add(Value(b0), Value(b1)), Value(b2)), Value(b3)), Value(b4)), 6.8);
    }
    hide Close, NearTwiddle, PartInRange, EvenPart, OddPart, InnerPart, Gathered, Radices.Fifth, Sums, Conj, Value, Add;
  }
}
