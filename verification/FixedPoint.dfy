/** The fixed-point build: the rounding macros of `_kiss_fft_guts.h`, and why bin 0 cannot
    overflow. h is 2^(FRACBITS-1), so 2^FRACBITS is 2h and SAMP_MAX is 2h - 1. */
module FixedPoint {
  import opened Basics
  import opened Factorization

  function SampMax(h: int): int {
    2 * h - 1
  }

  ghost predicate InRange(x: int, bound: int) {
    -bound <= x <= bound
  }

  /** The two builds: FRACBITS 15 and 31. */
  lemma BuildConstants()
    ensures SampMax(0x4000) == 32767 && SampMax(0x4000_0000) == 2147483647
  {}

  /** `sround`: add half, then an arithmetic shift, which rounds down. */
  function Sround(h: int, x: int): int
    requires h > 0
  {
    (x + h) / (2 * h)
  }

  /** A radix's share of the full scale, SAMP_MAX/p. */
  function Share(h: int, p: int): int
    requires p > 0
  {
    SampMax(h) / p
  }

  /** `DIVSCALAR`, the division of `C_FIXDIV`. */
  function DivScalar(h: int, x: int, p: int): int
    requires h > 0 && p > 0
  {
    Sround(h, x * Share(h, p))
  }

  /** The real part of `C_MUL`. */
  function MulRe(h: int, ar: int, ai: int, br: int, bi: int): int
    requires h > 0
  {
    Sround(h, ar * br - ai * bi)
  }

  /** y is the quotient when 2h*y <= x + h < 2h*(y + 1). */
  lemma SroundIs(h: int, x: int, y: int)
    requires h > 0 && 2 * h * y <= x + h < 2 * h * y + 2 * h
    ensures Sround(h, x) == y
  {
    var d, e := 2 * h, x + h;
    assert d * (e / d - y) == e - e % d - d * y;
    SmallMultiple(d, e / d - y);
  }

  lemma SroundBounds(h: int, x: int, q: int)
    requires h > 0 && q >= 0 && -(2 * h - 1) * q <= x <= (2 * h - 1) * q
    ensures InRange(Sround(h, x), q)
  {
    var d, y := 2 * h, Sround(h, x);
    assert d * y <= x + h < d * y + d;
    assert (d - 1) * q == d * q - q;
    Between(d, y, q, h);
  }

  lemma Between(d: int, y: int, q: int, h: int)
    requires d == 2 * h && h > 0 && q >= 0
    requires d * y <= d * q - q + h && -(d * q - q) + h < d * y + d
    ensures -q <= y <= q
  {
    if y > q {
      MulAtLeast(d, y, q + 1);
      assert false;
    } else if y < -q {
      MulAtLeast(d, -q - 1, y);
      assert false;
    }
  }

  lemma MulAtLeast(d: int, a: int, b: int)
    requires d > 0 && a >= b
    ensures d * a >= d * b
  {}

  /** A full-scale input divided by p is at most SAMP_MAX/p. */
  lemma FixDivBound(h: int, x: int, p: int)
    requires h > 0 && p > 0 && InRange(x, SampMax(h))
    ensures InRange(DivScalar(h, x, p), Share(h, p))
  {
    var q := Share(h, p);
    ShareFits(h, p);
    ScaleBound(x, 2 * h - 1, q);
    hide Share, Sround;
    SroundBounds(h, x * q, q);
  }

  /** The division is close to the true quotient: within one and a half. */
  lemma DivScalarIsNear(h: int, x: int, p: int)
    requires h > 0 && p > 0 && InRange(x, SampMax(h))
    ensures -3 * p <= 2 * (p * DivScalar(h, x, p) - x) <= 3 * p
  {
    var q, r := Share(h, p), SampMax(h) % p;
    assert 2 * h - 1 == p * q + r && 0 <= r < p;
    SroundNear(h, x * q);
    hide Share, Sround, SampMax;
    ErrorBound(h, DivScalar(h, x, p), q, p, r, x);
  }

  lemma ErrorBound(h: int, d: int, q: int, p: int, r: int, x: int)
    requires h > 0 && p > 0 && 2 * h - 1 == p * q + r && 0 <= r < p && -(2 * h - 1) <= x <= 2 * h - 1
    requires -h <= 2 * h * d - x * q <= h
    ensures -3 * p <= 2 * (p * d - x) <= 3 * p
  {
    ErrorParts(h, d, q, p, r, x);
    ScaleBound(2 * h * d - x * q, h, p);
    ScaleBound(x, 2 * h - 1, 1 + r);
    ScaleMonotone(1 + r, p, 2 * h - 1);
    WithinScale(h, p, r, x * (1 + r));
    NearFromParts(h, p, p * d - x, (2 * h * d - x * q) * p, x * (1 + r));
  }

  lemma WithinScale(h: int, p: int, r: int, y: int)
    requires -(2 * h - 1) * (1 + r) <= y <= (2 * h - 1) * (1 + r) && (1 + r) * (2 * h - 1) <= p * (2 * h - 1)
    ensures -((2 * h - 1) * p) <= y <= (2 * h - 1) * p
  {
    assert (2 * h - 1) * (1 + r) == (1 + r) * (2 * h - 1) && -(2 * h - 1) * (1 + r) == -((1 + r) * (2 * h - 1));
    assert (2 * h - 1) * p == p * (2 * h - 1);
  }

  lemma SroundNear(h: int, x: int)
    requires h > 0
    ensures -h <= 2 * h * Sround(h, x) - x <= h
  {}

  lemma ErrorParts(h: int, d: int, q: int, p: int, r: int, x: int)
    requires 2 * h - 1 == p * q + r
    ensures 2 * h * (p * d - x) == (2 * h * d - x * q) * p - x * (1 + r)
  {
    assert (2 * h * d - x * q) * p == 2 * h * (p * d) - x * (p * q);
    assert x * (p * q) == x * (2 * h - 1 - r);
    assert x * (2 * h - 1 - r) + x * (1 + r) == x * (2 * h);
  }

  lemma NearFromParts(h: int, p: int, t: int, a: int, b: int)
    requires h > 0 && p > 0 && 2 * h * t == a - b
    requires -h * p <= a <= h * p && -((2 * h - 1) * p) <= b <= (2 * h - 1) * p
    ensures -3 * p <= 2 * t <= 3 * p
  {
    assert (2 * h - 1) * p == 2 * (h * p) - p;
    assert -h * p == -(h * p);
    assert 2 * h * t == h * (2 * t) && h * (3 * p) == 3 * (h * p) && h * (-3 * p) == -(3 * (h * p));
    if 2 * t > 3 * p {
      MulAtLeast(h, 2 * t, 3 * p);
      assert false;
    }
    if 2 * t < -3 * p {
      MulAtLeast(h, -3 * p, 2 * t);
      assert false;
    }
  }

  lemma ScaleBound(x: int, b: int, q: int)
    requires -b <= x <= b && q >= 0
    ensures -b * q <= x * q <= b * q
  {}

  /** Multiplication by twiddle 0, which is (SAMP_MAX, 0), is exact just for the inputs in
      (-h, h]; beyond that rounding moves them. */
  lemma TwiddleZeroExact(h: int, x: int, im: int)
    requires h > 0 && InRange(x, SampMax(h))
    ensures MulRe(h, x, im, SampMax(h), 0) == x <==> -h < x <= h
  {
    assert -(2 * h - 1) <= x <= 2 * h - 1;
    ProductWithUnit(h, x, im);
    hide MulRe, SampMax, Sround;
    var e := 2 * h * x - x;
    if -h < x <= h {
      SroundIs(h, e, x);
    } else if x > h {
      assert 2 * h * (x - 1) == 2 * h * x - 2 * h;
      SroundIs(h, e, x - 1);
    } else {
      assert 2 * h * (x + 1) == 2 * h * x + 2 * h;
      SroundIs(h, e, x + 1);
    }
  }

  lemma ProductWithUnit(h: int, x: int, im: int)
    requires h > 0
    ensures MulRe(h, x, im, SampMax(h), 0) == Sround(h, 2 * h * x - x)
  {
    assert x * (2 * h - 1) == 2 * h * x - x;
  }

  /** The sums of products a complex multiplication rounds, half included, fit the double-width
      type, whose range is [-8h*h, 8h*h). */
  lemma ProductFits(h: int, ar: int, ai: int, br: int, bi: int)
    requires h > 0 && InRange(ar, SampMax(h)) && InRange(ai, SampMax(h))
    requires InRange(br, SampMax(h)) && InRange(bi, SampMax(h))
    ensures -(8 * (h * h)) <= ar * br - ai * bi <= ar * br - ai * bi + h < 8 * (h * h)
    ensures -(8 * (h * h)) <= ar * bi + ai * br <= ar * bi + ai * br + h < 8 * (h * h)
  {
    SquareOfMax(h);
    hide SampMax;
    var m := SampMax(h);
    ProductBound(ar, br, m);
    ProductBound(ai, bi, m);
    ProductBound(ar, bi, m);
    ProductBound(ai, br, m);
    SumFits(h, h * h, m * m, ar * br, -(ai * bi));
    SumFits(h, h * h, m * m, ar * bi, ai * br);
  }

  lemma SumFits(h: int, hh: int, mm: int, x: int, y: int)
    requires h > 0 && mm == 4 * hh - 4 * h + 1 && -mm <= x <= mm && -mm <= y <= mm
    ensures -(8 * hh) <= x + y <= x + y + h < 8 * hh
  {}

  lemma SquareOfMax(h: int)
    ensures SampMax(h) * SampMax(h) == 4 * (h * h) - 4 * h + 1
  {
    assert (2 * h) * (2 * h) == 4 * (h * h);
  }

  lemma ProductBound(a: int, b: int, m: int)
    requires -m <= a <= m && -m <= b <= m
    ensures -(m * m) <= a * b <= m * m
  {
    if a >= 0 {
      ScaleBound(b, m, a);
      ScaleBound(a, m, m);
      assert m * a == a * m;
    } else {
      ScaleBound(b, m, -a);
      ScaleBound(-a, m, m);
      assert m * -a == -(a * m) && b * -a == -(a * b);
    }
  }

  /** After division by a radix the product with twiddle 0 is exact. */
  lemma ScaledTimesTwiddleZero(h: int, x: int, im: int, p: int)
    requires h > 0 && p >= 2 && InRange(x, Share(h, p))
    ensures MulRe(h, x, im, SampMax(h), 0) == x
  {
    HalfScale(h, p);
    TwiddleZeroExact(h, x, im);
  }

  lemma HalfScale(h: int, p: int)
    requires h > 0 && p >= 2
    ensures 0 <= Share(h, p) < h
  {
    var q := Share(h, p);
    assert p * q <= SampMax(h);
    assert 2 * q <= p * q;
  }

  // ----- Bin 0 through every level

  /** Sub-transform q's bin 0 after `C_FIXDIV` and, but for q == 0, the product with twiddle 0. */
  function ScaledTerm(h: int, bin: int, p: int, q: int): int
    requires h > 0 && p > 0
  {
    var b := DivScalar(h, bin, p);
    if q == 0 then b else MulRe(h, b, 0, SampMax(h), 0)
  }

  function Total(terms: seq<int>): int {
    if terms == [] then 0 else Total(terms[..|terms| - 1]) + terms[|terms| - 1]
  }

  /** Bin 0 of the transform of the samples x(at), x(at + step), ... by the radices of the list;
      `FixedTransform` shows that this is what the fixed-point transform leaves there. */
  function BinZero(h: int, x: int -> int, at: int, step: int, radices: seq<int>): int
    requires h > 0 && forall i :: 0 <= i < |radices| ==> radices[i] > 0
    decreases |radices|
  {
    if radices == [] then x(at) else
      var p := radices[0];
      Total(seq(p, q requires 0 <= q < p =>
        ScaledTerm(h, BinZero(h, x, at + q * step, step * p, radices[1..]), p, q)))
  }

  lemma TermBound(h: int, bin: int, p: int, q: int)
    requires h > 0 && p >= 2 && InRange(bin, SampMax(h))
    ensures ScaledTerm(h, bin, p, q) == DivScalar(h, bin, p)
    ensures InRange(ScaledTerm(h, bin, p, q), Share(h, p))
  {
    hide DivScalar, MulRe;
    FixDivBound(h, bin, p);
    ScaledTimesTwiddleZero(h, DivScalar(h, bin, p), 0, p);
  }

  lemma {:induction false} TotalBound(terms: seq<int>, m: int)
    requires m >= 0 && forall q :: 0 <= q < |terms| ==> InRange(terms[q], m)
    ensures InRange(Total(terms), |terms| * m)
  {
    if terms != [] {
      TotalBound(terms[..|terms| - 1], m);
      assert InRange(terms[|terms| - 1], m);
      assert |terms| * m == (|terms| - 1) * m + m;
    }
  }

  /** Any sum of at most p scaled terms is in range, so whatever order a butterfly adds them in,
      no intermediate result of bin 0 overflows. */
  lemma PartialSumsInRange(h: int, terms: seq<int>, p: int)
    requires h > 0 && p > 0 && |terms| <= p
    requires forall q :: 0 <= q < |terms| ==> InRange(terms[q], Share(h, p))
    ensures InRange(Total(terms), SampMax(h))
  {
    ShareFits(h, p);
    hide Share, SampMax, Total;
    TotalBound(terms, Share(h, p));
    ScaleMonotone(|terms|, p, Share(h, p));
  }

  /** p shares make at most the full scale. */
  lemma ShareFits(h: int, p: int)
    requires h > 0 && p > 0
    ensures Share(h, p) >= 0 && p * Share(h, p) <= SampMax(h)
  {}

  lemma ScaleMonotone(a: int, b: int, m: int)
    requires a <= b && m >= 0
    ensures a * m <= b * m
  {}

  /** Bin 0 of sub-transform q. */
  function SubBin(h: int, x: int -> int, at: int, step: int, radices: seq<int>, q: int): int
    requires h > 0 && radices != [] && forall i :: 0 <= i < |radices| ==> radices[i] > 0
  {
    BinZero(h, x, at + q * step, step * radices[0], radices[1..])
  }

  /** The terms a stage adds up. */
  function StageTerms(h: int, x: int -> int, at: int, step: int, radices: seq<int>): (terms: seq<int>)
    requires h > 0 && radices != [] && forall i :: 0 <= i < |radices| ==> radices[i] > 0
    ensures |terms| == radices[0]
  {
    var p := radices[0];
    seq(p, q requires 0 <= q < p => ScaledTerm(h, SubBin(h, x, at, step, radices, q), p, q))
  }

  lemma BinZeroIsTotal(h: int, x: int -> int, at: int, step: int, radices: seq<int>)
    requires h > 0 && radices != [] && forall i :: 0 <= i < |radices| ==> radices[i] > 0
    ensures BinZero(h, x, at, step, radices) == Total(StageTerms(h, x, at, step, radices))
  {
    hide Total, ScaledTerm;
    var p := radices[0];
    assert StageTerms(h, x, at, step, radices)
        == seq(p, q requires 0 <= q < p => ScaledTerm(h, BinZero(h, x, at + q * step, step * p, radices[1..]), p, q));
  }

  lemma StageInRange(h: int, x: int -> int, at: int, step: int, radices: seq<int>)
    requires h > 0 && radices != [] && forall i :: 0 <= i < |radices| ==> radices[i] >= 2
    requires forall q :: 0 <= q < radices[0] ==> InRange(SubBin(h, x, at, step, radices, q), SampMax(h))
    ensures InRange(BinZero(h, x, at, step, radices), SampMax(h))
  {
    hide ScaledTerm, SampMax, Total, SubBin, BinZero, Share, InRange;
    BinZeroIsTotal(h, x, at, step, radices);
    var p, terms := radices[0], StageTerms(h, x, at, step, radices);
    forall q | 0 <= q < p
      ensures InRange(terms[q], Share(h, p))
    {
      TermBound(h, SubBin(h, x, at, step, radices, q), p, q);
    }
    PartialSumsInRange(h, terms, p);
  }

  /** Bin 0 stays in range at every level, for all inputs in range. */
  lemma {:induction false} BinZeroInRange(h: int, x: int -> int, at: int, step: int, radices: seq<int>)
    requires h > 0 && forall i :: 0 <= i < |radices| ==> radices[i] >= 2
    requires forall j :: InRange(x(j), SampMax(h))
    ensures InRange(BinZero(h, x, at, step, radices), SampMax(h))
    decreases |radices|
  {
    hide SampMax, InRange, BinZero, SubBin;
    if radices == [] {
      BinZeroLeaf(h, x, at, step);
      assert InRange(x(at), SampMax(h));
    } else {
      forall q | 0 <= q < radices[0]
        ensures InRange(SubBin(h, x, at, step, radices, q), SampMax(h))
      {
        SubBinIs(h, x, at, step, radices, q);
        BinZeroInRange(h, x, at + q * step, step * radices[0], radices[1..]);
      }
      StageInRange(h, x, at, step, radices);
    }
  }

  /** Bin 0 of a transform of two or more points, split as the factoriser splits them. */
  ghost function BinZeroOfSize(h: int, x: int -> int, n: nat): int
    requires h > 0 && n >= 2
  {
    RadicesAtLeastTwo(n);
    BinZero(h, x, 0, 1, Radices(n))
  }

  lemma RadicesAtLeastTwo(n: nat)
    requires n >= 1
    ensures forall i :: 0 <= i < |Radices(n)| ==> Radices(n)[i] >= 2
  {
    RadicesCanonical(n);
    forall i | 0 <= i < |Radices(n)|
      ensures Radices(n)[i] >= 2
    {
      assert Radices(n)[i] == 4 || Prime(Radices(n)[i]);
    }
  }

  lemma TransformBinZeroInRange(h: int, x: int -> int, n: nat)
    requires h > 0 && n >= 2 && forall j :: InRange(x(j), SampMax(h))
    ensures InRange(BinZeroOfSize(h, x, n), SampMax(h))
  {
    hide InRange, SampMax, BinZero;
    RadicesAtLeastTwo(n);
    BinZeroInRange(h, x, 0, 1, Radices(n));
  }

  lemma BinZeroLeaf(h: int, x: int -> int, at: int, step: int)
    requires h > 0
    ensures BinZero(h, x, at, step, []) == x(at)
  {}

  lemma SubBinIs(h: int, x: int -> int, at: int, step: int, radices: seq<int>, q: int)
    requires h > 0 && radices != [] && forall i :: 0 <= i < |radices| ==> radices[i] > 0
    ensures SubBin(h, x, at, step, radices, q) == BinZero(h, x, at + q * step, step * radices[0], radices[1..])
  {}
}
