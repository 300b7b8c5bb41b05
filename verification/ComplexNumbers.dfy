/** Exact complex arithmetic: the complex macros of `_kiss_fft_guts.h` over `real`,
    and finite sums of complex terms. */
module ComplexNumbers {

  datatype Complex = Complex(re: real, im: real)

  const ZERO := Complex(0.0, 0.0)
  const ONE := Complex(1.0, 0.0)
  const I := Complex(0.0, 1.0)

  function Add(a: Complex, b: Complex): Complex {
    Complex(a.re + b.re, a.im + b.im)
  }

  function Sub(a: Complex, b: Complex): Complex {
    Complex(a.re - b.re, a.im - b.im)
  }

  function Mul(a: Complex, b: Complex): Complex {
    Complex(a.re * b.re - a.im * b.im, a.re * b.im + a.im * b.re)
  }

  function Neg(a: Complex): Complex {
    Complex(-a.re, -a.im)
  }

  function Conj(a: Complex): Complex {
    Complex(a.re, -a.im)
  }

  function FromReal(x: real): Complex {
    Complex(x, 0.0)
  }

  /** The squared modulus. */
  function Norm(a: Complex): real {
    a.re * a.re + a.im * a.im
  }

  lemma MulComm(a: Complex, b: Complex)
    ensures Mul(a, b) == Mul(b, a)
  {}

  lemma MulAssoc(a: Complex, b: Complex, c: Complex)
    ensures Mul(Mul(a, b), c) == Mul(a, Mul(b, c))
  {}

  lemma MulAdd(a: Complex, b: Complex, c: Complex)
    ensures Mul(a, Add(b, c)) == Add(Mul(a, b), Mul(a, c))
  {}

  lemma MulConj(a: Complex, b: Complex)
    ensures Conj(Mul(a, b)) == Mul(Conj(a), Conj(b))
  {}

  lemma ConjParts(a: Complex)
    ensures Conj(a) == Complex(a.re, -a.im)
  {}

  lemma NegParts(a: Complex)
    ensures Neg(a) == Complex(-a.re, -a.im)
  {}

  lemma ConjTwice(a: Complex)
    ensures Conj(Conj(a)) == a
  {}

  lemma MulByUnits(a: Complex)
    ensures Mul(ONE, a) == a == Mul(a, ONE)
    ensures Mul(Neg(ONE), a) == Neg(a) == Mul(a, Neg(ONE))
    ensures Mul(I, a) == Complex(-a.im, a.re) == Mul(a, I)
    ensures Mul(Neg(I), a) == Complex(a.im, -a.re) == Mul(a, Neg(I))
  {
    assert Neg(ONE) == Complex(-1.0, 0.0) && Neg(I) == Complex(0.0, -1.0);
  }

  lemma NoZeroDivisors(a: Complex, b: Complex)
    requires Mul(a, b) == ZERO
    ensures a == ZERO || b == ZERO
  {
    if a != ZERO {
      NormPositive(a);
      var n := Norm(a);
      assert n * b.re == a.re * Mul(a, b).re + a.im * Mul(a, b).im == 0.0;
      assert n * b.im == a.re * Mul(a, b).im - a.im * Mul(a, b).re == 0.0;
      RealCancel(n, b.re);
      RealCancel(n, b.im);
    }
  }

  lemma NormPositive(a: Complex)
    requires a != ZERO
    ensures Norm(a) > 0.0
  {
    TimesSelf(a.re);
    TimesSelf(a.im);
    assert Norm(a) == Times(a.re, a.re) + Times(a.im, a.im);
    assert a == Complex(a.re, a.im);
  }

  /** A product kept apart from the solver's own rewriting of squares. */
  function Times(x: real, y: real): real {
    x * y
  }

  lemma TimesPositive(x: real, y: real)
    requires x > 0.0 && y > 0.0
    ensures Times(x, y) > 0.0
  {}

  lemma TimesSelf(x: real)
    ensures Times(x, x) >= 0.0
    ensures x != 0.0 ==> Times(x, x) > 0.0
  {
    if x > 0.0 {
      TimesPositive(x, x);
    } else if x < 0.0 {
      TimesPositive(-x, -x);
      assert Times(-x, -x) == Times(x, x);
    }
  }

  lemma RealCancel(x: real, y: real)
    requires x != 0.0 && x * y == 0.0
    ensures y == 0.0
  {
    assert y == (x * y) / x;
  }

  // ----- Sums

  /** f(0) + f(1) + ... + f(n - 1). */
  function Sum(n: nat, f: int -> Complex): Complex {
    if n == 0 then ZERO else Add(Sum(n - 1, f), f(n - 1))
  }

  lemma {:induction false} SumExt(n: nat, f: int -> Complex, g: int -> Complex)
    requires forall i :: 0 <= i < n ==> f(i) == g(i)
    ensures Sum(n, f) == Sum(n, g)
  {
    if n > 0 {
      SumExt(n - 1, f, g);
    }
  }

  lemma {:induction false} SumZero(n: nat, f: int -> Complex)
    requires forall i :: 0 <= i < n ==> f(i) == ZERO
    ensures Sum(n, f) == ZERO
  {
    if n > 0 {
      SumZero(n - 1, f);
    }
  }

  lemma {:induction false} SumAdd(n: nat, f: int -> Complex, g: int -> Complex, h: int -> Complex)
    requires forall i :: 0 <= i < n ==> h(i) == Add(f(i), g(i))
    ensures Sum(n, h) == Add(Sum(n, f), Sum(n, g))
  {
    if n > 0 {
      SumAdd(n - 1, f, g, h);
    }
  }

  lemma {:induction false} SumScale(n: nat, c: Complex, f: int -> Complex, g: int -> Complex)
    requires forall i :: 0 <= i < n ==> g(i) == Mul(c, f(i))
    ensures Sum(n, g) == Mul(c, Sum(n, f))
  {
    if n > 0 {
      SumScale(n - 1, c, f, g);
      MulAdd(c, Sum(n - 1, f), f(n - 1));
    }
  }

  lemma {:induction false} SumConj(n: nat, f: int -> Complex, g: int -> Complex)
    requires forall i :: 0 <= i < n ==> g(i) == Conj(f(i))
    ensures Sum(n, g) == Conj(Sum(n, f))
  {
    if n > 0 {
      SumConj(n - 1, f, g);
    }
  }

  /** All terms but one vanish. */
  lemma {:induction false} SumSingle(n: nat, l: nat, f: int -> Complex)
    requires l < n
    requires forall i :: 0 <= i < n && i != l ==> f(i) == ZERO
    ensures Sum(n, f) == f(l)
  {
    if l == n - 1 {
      SumZero(n - 1, f);
    } else {
      SumSingle(n - 1, l, f);
    }
  }

  function Shift(f: int -> Complex, a: int): int -> Complex {
    i => f(a + i)
  }

  lemma {:induction false} SumConcat(a: nat, b: nat, f: int -> Complex)
    ensures Sum(a + b, f) == Add(Sum(a, f), Sum(b, Shift(f, a)))
  {
    if b > 0 {
      SumConcat(a, b - 1, f);
    }
  }

  /** The terms q, q + p, q + 2p, ... of a sum. */
  function Strided(f: int -> Complex, q: int, p: int): int -> Complex {
    r => f(q + p * r)
  }

  function StridedSums(f: int -> Complex, p: int, m: nat): int -> Complex {
    q => Sum(m, Strided(f, q, p))
  }

  /** Every j < p * m is q + p * r for one q < p and one r < m: a sum decomposes over
      the residues modulo p. */
  lemma {:induction false} SumByResidue(p: nat, m: nat, f: int -> Complex)
    ensures p * m >= 0
    ensures Sum(p * m, f) == Sum(p, StridedSums(f, p, m))
  {
    if m == 0 {
      SumZero(p, StridedSums(f, p, m));
    } else {
      var done := p * (m - 1);
      assert p * m == done + p;
      SumByResidue(p, m - 1, f);
      SumConcat(done, p, f);
      SumAdd(p, StridedSums(f, p, m - 1), Shift(f, done), StridedSums(f, p, m));
    }
  }

  function Row(F: (int, int) -> Complex, i: int): int -> Complex {
    j => F(i, j)
  }

  function RowSums(F: (int, int) -> Complex, m: nat): int -> Complex {
    i => Sum(m, Row(F, i))
  }

  function Transposed(F: (int, int) -> Complex): (int, int) -> Complex {
    (i, j) => F(j, i)
  }

  /** The order of a double sum can be exchanged. */
  lemma {:induction false} SumExchange(n: nat, m: nat, F: (int, int) -> Complex)
    ensures Sum(n, RowSums(F, m)) == Sum(m, RowSums(Transposed(F), n))
  {
    var T := RowSums(Transposed(F), n);
    if n == 0 {
      SumZero(m, T);
    } else {
      var row := Row(F, n - 1);
      SumExchange(n - 1, m, F);
      forall j | 0 <= j < m
        ensures T(j) == Add(RowSums(Transposed(F), n - 1)(j), row(j))
      {
        assert Row(Transposed(F), j)(n - 1) == row(j);
      }
      SumAdd(m, RowSums(Transposed(F), n - 1), row, T);
    }
  }
}
