/** The discrete Fourier transform as a sum over every sample, and the facts about it that do
    not depend on how it is computed. */
module Transform {
  import opened ComplexNumbers
  import opened Twiddles

  function At(x: seq<Complex>, j: int): Complex {
    if 0 <= j < |x| then x[j] else ZERO
  }

  function DftTerm(x: seq<Complex>, w: int -> Complex, s: int, k: int): int -> Complex {
    j => Mul(At(x, j), w(s * j * k))
  }

  /** Bin k: the sum of x[j] * w(s * j * k). The roots of a transform of length |x| are every
      s-th power, so |x| * s is the number of points of the table. */
  function DftBin(x: seq<Complex>, w: int -> Complex, s: int, k: int): Complex {
    Sum(|x|, DftTerm(x, w, s, k))
  }

  function Dft(x: seq<Complex>, w: int -> Complex, s: int): (X: seq<Complex>)
    ensures |X| == |x|
  {
    seq(|x|, k => DftBin(x, w, s, k))
  }

  /** The n samples f[start], f[start + step], ... */
  function Samples(f: seq<Complex>, start: int, step: int, n: nat): (x: seq<Complex>)
    ensures |x| == n
  {
    seq(n, j => At(f, start + j * step))
  }

  // ----- Decimation in time

  function ButterflyTerm(Y: seq<Complex>, m: int, w: int -> Complex, s: int, u: int, k: int): int -> Complex {
    q => Mul(At(Y, q * m + u), w(s * q * k))
  }

  /** Output k of a butterfly of radix p over p blocks of length m. */
  function ButterflyBin(Y: seq<Complex>, p: nat, m: nat, w: int -> Complex, s: int, k: int): Complex
    requires m > 0
  {
    Sum(p, ButterflyTerm(Y, m, w, s, k % m, k))
  }

  function Butterfly(Y: seq<Complex>, p: nat, m: nat, w: int -> Complex, s: int): (X: seq<Complex>)
    requires m > 0 && |Y| == p * m
    ensures |X| == |Y|
  {
    seq(|Y|, k => ButterflyBin(Y, p, m, w, s, k))
  }

  /** Block q of Y is the transform of the samples at q, q + p, q + 2p, ... of x. */
  ghost predicate SubTransform(Y: seq<Complex>, x: seq<Complex>, p: nat, m: nat, w: int -> Complex, s: int, q: nat)
    requires |Y| == p * m && q < p
  {
    BlockBounds(p, m, q);
    Y[q * m..q * m + m] == Dft(Samples(x, q, p, m), w, s * p)
  }

  lemma BlockBounds(p: nat, m: nat, q: nat)
    requires q < p
    ensures 0 <= q * m <= q * m + m <= p * m
  {
    assert q * m + m == (q + 1) * m;
    assert (q + 1) * m <= p * m;
  }

  /** w(s*(q + p*r)*k) splits into the factor of block q and a root of the shorter transform,
      where only k modulo m matters. */
  lemma ExponentSplits(w: int -> Complex, n: nat, inverse: bool, p: nat, m: nat, s: nat, q: int, r: int, k: int)
    requires RootsOfUnity(w, n, inverse) && m > 0 && n == s * (p * m)
    ensures w(s * (q + p * r) * k) == Mul(w(s * q * k), w(s * p * r * (k % m)))
  {
    hide Mul, RootsOfUnity;
    assert k == m * (k / m) + k % m;
    ExponentSplitsAt(w, n, inverse, p, m, s, q, r, k / m, k % m);
  }

  lemma ExponentSplitsAt(w: int -> Complex, n: nat, inverse: bool, p: int, m: int, s: int, q: int, r: int,
                         t: int, u: int)
    requires RootsOfUnity(w, n, inverse) && n == s * (p * m)
    ensures w(s * (q + p * r) * (m * t + u)) == Mul(w(s * q * (m * t + u)), w(s * p * r * u))
  {
    hide Mul, RootsOfUnity;
    var a, b := s * q * (m * t + u), s * p * r * u;
    ExponentParts(p, m, s, q, r, t, u);
    Periodic(w, n, inverse, a + b, r * t);
    Plus(w, n, inverse, a, b);
  }

  lemma ExponentParts(p: int, m: int, s: int, q: int, r: int, t: int, u: int)
    ensures s * (q + p * r) * (m * t + u) == (s * q * (m * t + u) + s * p * r * u) + s * (p * m) * (r * t)
  {
    var k := m * t + u;
    assert s * (q + p * r) * k == s * q * k + s * p * r * k;
    assert s * p * r * k == s * p * r * (m * t) + s * p * r * u;
    assert s * p * r * (m * t) == s * (p * m) * (r * t);
  }

  /** A butterfly over the transforms of the p decimated inputs gives the transform of the
      whole input. */
  lemma DecimationInTime(w: int -> Complex, n: nat, inverse: bool, x: seq<Complex>, Y: seq<Complex>, p: nat, m: nat,
                         s: nat)
    requires RootsOfUnity(w, n, inverse) && m > 0
    requires |x| == |Y| == p * m && n == s * (p * m)
    requires forall q :: 0 <= q < p ==> SubTransform(Y, x, p, m, w, s, q)
    ensures Butterfly(Y, p, m, w, s) == Dft(x, w, s)
  {
    hide Mul, DftBin, ButterflyBin;
    forall k | 0 <= k < p * m
      ensures ButterflyBin(Y, p, m, w, s, k) == DftBin(x, w, s, k)
    {
      DecimatedBin(w, n, inverse, x, Y, p, m, s, k);
    }
  }

  lemma DecimatedBin(w: int -> Complex, n: nat, inverse: bool, x: seq<Complex>, Y: seq<Complex>, p: nat, m: nat,
                     s: nat, k: nat)
    requires RootsOfUnity(w, n, inverse) && m > 0
    requires |x| == |Y| == p * m && n == s * (p * m) && k < p * m
    requires forall q :: 0 <= q < p ==> SubTransform(Y, x, p, m, w, s, q)
    ensures ButterflyBin(Y, p, m, w, s, k) == DftBin(x, w, s, k)
  {
    hide Mul, Sum;
    var T := DftTerm(x, w, s, k);
    var B := ButterflyTerm(Y, m, w, s, k % m, k);
    SumByResidue(p, m, T);
    forall q | 0 <= q < p
      ensures B(q) == StridedSums(T, p, m)(q)
    {
      assert SubTransform(Y, x, p, m, w, s, q);
      BlockBounds(p, m, q);
      var sub := Samples(x, q, p, m);
      assert Y[q * m + k % m] == Y[q * m..q * m + m][k % m] == DftBin(sub, w, s * p, k % m);
      DecimatedTerms(w, n, inverse, x, p, m, s, k, q);
      SumScale(m, w(s * q * k), DftTerm(sub, w, s * p, k % m), Strided(T, q, p));
      MulComm(w(s * q * k), Y[q * m + k % m]);
    }
    SumExt(p, B, StridedSums(T, p, m));
  }

  lemma DecimatedTerms(w: int -> Complex, n: nat, inverse: bool, x: seq<Complex>, p: nat, m: nat, s: nat, k: nat,
                       q: nat)
    requires RootsOfUnity(w, n, inverse) && m > 0
    requires |x| == p * m && n == s * (p * m) && q < p
    ensures forall r :: 0 <= r < m ==>
      Strided(DftTerm(x, w, s, k), q, p)(r) == Mul(w(s * q * k), DftTerm(Samples(x, q, p, m), w, s * p, k % m)(r))
  {
    hide Mul;
    forall r | 0 <= r < m
      ensures Strided(DftTerm(x, w, s, k), q, p)(r)
           == Mul(w(s * q * k), DftTerm(Samples(x, q, p, m), w, s * p, k % m)(r))
    {
      var v := At(x, q + p * r);
      ExponentSplits(w, n, inverse, p, m, s, q, r, k);
      assert At(Samples(x, q, p, m), r) == v by {
        assert q + p * r == q + r * p;
      }
      SwapFactors(v, w(s * q * k), w(s * p * r * (k % m)));
    }
  }

  lemma SwapFactors(v: Complex, a: Complex, b: Complex)
    ensures Mul(v, Mul(a, b)) == Mul(a, Mul(v, b))
  {
    hide Mul;
    MulAssoc(v, a, b);
    MulComm(v, a);
    MulAssoc(a, v, b);
  }

  // ----- Inversion

  /** v holds the powers of the conjugate root of w: the other direction's table. */
  ghost predicate Opposite(w: int -> Complex, v: int -> Complex) {
    forall e :: v(e) == w(-e)
  }

  function Scaled(x: seq<Complex>, c: real): (y: seq<Complex>)
    ensures |y| == |x|
  {
    seq(|x|, l => Mul(At(x, l), FromReal(c)))
  }

  /** x[j] * w(j*k) * v(k*l), the terms of a transform followed by its opposite. */
  function TwiceTerm(x: seq<Complex>, w: int -> Complex, v: int -> Complex, l: int): (int, int) -> Complex {
    (k, j) => Mul(Mul(At(x, j), w(1 * j * k)), v(1 * k * l))
  }

  lemma OppositeTransformInverts(w: int -> Complex, v: int -> Complex, n: nat, inverse: bool, x: seq<Complex>)
    requires RootsOfUnity(w, n, inverse) && Opposite(w, v) && |x| == n
    ensures Dft(Dft(x, w, 1), v, 1) == Scaled(x, n as real)
  {
    hide Mul, Sum, DftBin;
    forall l | 0 <= l < n
      ensures DftBin(Dft(x, w, 1), v, 1, l) == Mul(x[l], FromReal(n as real))
    {
      InvertedBin(w, v, n, inverse, x, l);
    }
  }

  lemma InvertedBin(w: int -> Complex, v: int -> Complex, n: nat, inverse: bool, x: seq<Complex>, l: nat)
    requires RootsOfUnity(w, n, inverse) && Opposite(w, v) && |x| == n && l < n
    ensures DftBin(Dft(x, w, 1), v, 1, l) == Mul(x[l], FromReal(n as real))
  {
    hide Mul, Sum;
    var X := Dft(x, w, 1);
    var F := TwiceTerm(x, w, v, l);
    var outer := DftTerm(X, v, 1, l);
    forall k | 0 <= k < n
      ensures outer(k) == RowSums(F, n)(k)
    {
      var c := v(1 * k * l);
      var T := DftTerm(x, w, 1, k);
      forall j | 0 <= j < n
        ensures F(k, j) == Mul(c, T(j))
      {
        MulComm(c, T(j));
      }
      SumScale(n, c, T, Row(F, k));
      MulComm(c, Sum(n, T));
    }
    SumExt(n, outer, RowSums(F, n));
    SumExchange(n, n, F);
    var inner := RowSums(Transposed(F), n);
    forall j | 0 <= j < n
      ensures inner(j) == if j == l then Mul(x[l], FromReal(n as real)) else ZERO
    {
      InnerSum(w, v, n, inverse, x, l, j);
    }
    SumSingle(n, l, inner);
  }

  /** Summed over the bins, input j contributes to output l only when j == l. */
  lemma InnerSum(w: int -> Complex, v: int -> Complex, n: nat, inverse: bool, x: seq<Complex>, l: nat, j: nat)
    requires RootsOfUnity(w, n, inverse) && Opposite(w, v) && |x| == n && l < n && j < n
    ensures RowSums(Transposed(TwiceTerm(x, w, v, l)), n)(j)
         == if j == l then Mul(x[l], FromReal(n as real)) else ZERO
  {
    hide Mul, Sum;
    var F := TwiceTerm(x, w, v, l);
    var P := Powers(w, j - l);
    var G := Row(Transposed(F), j);
    forall k | 0 <= k < n
      ensures G(k) == Mul(x[j], P(k))
    {
      assert v(1 * k * l) == w(-(1 * k * l));
      assert 1 * j * k + -(1 * k * l) == k * (j - l);
      Plus(w, n, inverse, 1 * j * k, -(1 * k * l));
      MulAssoc(x[j], w(1 * j * k), v(1 * k * l));
    }
    SumScale(n, x[j], P, G);
    Orthogonality(w, n, inverse, j - l);
    ResidueZero(n, j, l);
    MulZero(x[j]);
  }

  lemma MulZero(a: Complex)
    ensures Mul(a, ZERO) == ZERO
  {}

  lemma ResidueZero(n: nat, j: nat, l: nat)
    requires j < n && l < n
    ensures (j - l) % n == 0 <==> j == l
  {
    if j < l {
      assert (j - l) % n == j - l + n;
    }
  }

  // ----- Real input

  /** For real samples the upper half of the spectrum mirrors the lower half. */
  lemma RealSpectrumMirrors(w: int -> Complex, n: nat, inverse: bool, x: seq<Complex>, k: nat)
    requires RootsOfUnity(w, n, inverse) && |x| == n && 0 < k < n
    requires forall j :: 0 <= j < n ==> x[j].im == 0.0
    ensures Dft(x, w, 1)[n - k] == Conj(Dft(x, w, 1)[k])
  {
    hide Mul, Sum, Conj;
    var T, M := DftTerm(x, w, 1, k), DftTerm(x, w, 1, n - k);
    forall j | 0 <= j < n
      ensures M(j) == Conj(T(j))
    {
      assert 1 * j * (n - k) == -(1 * j * k) + n * j;
      Periodic(w, n, inverse, -(1 * j * k), j);
      Minus(w, n, inverse, 1 * j * k);
      MulConj(x[j], w(1 * j * k));
      ConjReal(x[j]);
    }
    SumConj(n, T, M);
  }

  lemma ConjReal(a: Complex)
    requires a.im == 0.0
    ensures Conj(a) == a
  {}
}
