/** The twiddle factors: powers of a primitive root of unity.

    `kiss_fft_alloc` fills its table with exp(-2*pi*i*j/N), or exp(+2*pi*i*j/N) for an inverse
    transform. What those numbers satisfy is stated as one predicate on a function w with
    w(j) the j-th power; everything a butterfly needs is derived from it. */
module Twiddles {
  import opened ComplexNumbers

  ghost predicate AddsUp(w: int -> Complex, a: int, b: int) {
    w(a + b) == Mul(w(a), w(b))
  }

  ghost predicate Mirrors(w: int -> Complex, a: int) {
    w(-a) == Conj(w(a))
  }

  ghost predicate NotOne(w: int -> Complex, d: int) {
    w(d) != ONE
  }

  /** w(j) is exp(-2*pi*i*j/n), or exp(+2*pi*i*j/n) when `inverse`. */
  ghost predicate RootsOfUnity(w: int -> Complex, n: nat, inverse: bool) {
    && n > 0
    && w(0) == ONE
    && w(n) == ONE
    && (forall a, b :: AddsUp(w, a, b))
    && (forall a :: Mirrors(w, a))
    && (forall d :: 0 < d < n ==> NotOne(w, d))
    && (n % 4 == 0 ==> w(n / 4) == if inverse then I else Neg(I))
  }

  // ----- The hypothesis is satisfiable: the tables for 1, 2 and 4 points

  function QuarterCos(r: int): real {
    if r == 0 then 1.0 else if r == 2 then -1.0 else 0.0
  }

  function QuarterSin(inverse: bool, r: int): real {
    if r == 0 || r == 2 then 0.0 else if (r == 1) == inverse then 1.0 else -1.0
  }

  function QuarticRoot(inverse: bool): int -> Complex {
    e => Complex(QuarterCos(e % 4), QuarterSin(inverse, e % 4))
  }

  function EveryNth(w: int -> Complex, c: int): int -> Complex {
    e => w(c * e)
  }

  lemma RootTablesExist(inverse: bool)
    ensures RootsOfUnity(QuarticRoot(inverse), 4, inverse)
    ensures RootsOfUnity(EveryNth(QuarticRoot(inverse), 2), 2, inverse)
    ensures RootsOfUnity(EveryNth(QuarticRoot(inverse), 4), 1, inverse)
  {
    QuarticRoots(inverse);
    Subtable(QuarticRoot(inverse), 2, 2, inverse);
    Subtable(QuarticRoot(inverse), 1, 4, inverse);
  }

  lemma QuarticRoots(inverse: bool)
    ensures RootsOfUnity(QuarticRoot(inverse), 4, inverse)
  {
    hide Mul, Conj;
    var w := QuarticRoot(inverse);
    forall a, b
      ensures AddsUp(w, a, b)
    {
      QuarticRootAddsUp(inverse, a, b);
    }
    forall a
      ensures Mirrors(w, a)
    {
      QuarticRootMirrors(inverse, a);
    }
    forall d | 0 < d < 4
      ensures NotOne(w, d)
    {
      assert w(d) != ONE;
    }
    assert w(1) == if inverse then I else Neg(I);
  }

  lemma QuarticRootMirrors(inverse: bool, a: int)
    ensures Mirrors(QuarticRoot(inverse), a)
  {
    hide Conj, QuarterCos, QuarterSin;
    var r := a % 4;
    NegativeMod4(a);
    QuarterParity(inverse, r);
    ConjParts(QuarticRoot(inverse)(a));
  }

  lemma NegativeMod4(a: int)
    ensures (-a) % 4 == if a % 4 == 0 then 0 else 4 - a % 4
  {}

  lemma QuarterParity(inverse: bool, r: int)
    requires 0 <= r < 4
    ensures var d := if r == 0 then 0 else 4 - r;
      QuarterCos(d) == QuarterCos(r) && QuarterSin(inverse, d) == -QuarterSin(inverse, r)
  {}

  /** Every c-th entry of a table for n * c points is a table for n points. */
  lemma Subtable(w: int -> Complex, n: nat, c: nat, inverse: bool)
    requires n > 0 && c > 0
    requires RootsOfUnity(w, n * c, inverse)
    ensures RootsOfUnity(EveryNth(w, c), n, inverse)
  {
    hide Mul;
    var v := EveryNth(w, c);
    forall a, b
      ensures AddsUp(v, a, b)
    {
      assert c * (a + b) == c * a + c * b;
      assert AddsUp(w, c * a, c * b);
    }
    forall a
      ensures Mirrors(v, a)
    {
      assert c * -a == -(c * a);
      assert Mirrors(w, c * a);
    }
    forall d | 0 < d < n
      ensures NotOne(v, d)
    {
      assert 0 < c * d < c * n;
      assert NotOne(w, c * d);
    }
    if n % 4 == 0 {
      assert n * c == 4 * (c * (n / 4));
    }
  }

  lemma QuarticRootAddsUp(inverse: bool, a: int, b: int)
    ensures AddsUp(QuarticRoot(inverse), a, b)
  {
    hide Mul, Neg, QuarterCos, QuarterSin;
    var w, r, d := QuarticRoot(inverse), a % 4, b % 4;
    assert (a + b) % 4 == if r + d < 4 then r + d else r + d - 4;
    QuarterRotates(inverse, r, d);
    QuarterUnits(inverse, r);
    MulByUnits(w(b));
    NegParts(w(b));
  }

  /** r quarter turns more: a rotation. */
  lemma QuarterRotates(inverse: bool, r: int, d: int)
    requires 0 <= r < 4 && 0 <= d < 4
    ensures var c, s := QuarterCos(d), QuarterSin(inverse, d);
      var e := if r + d < 4 then r + d else r + d - 4;
      Complex(QuarterCos(e), QuarterSin(inverse, e))
        == if r == 0 then Complex(c, s) else if r == 2 then Complex(-c, -s)
           else if (r == 1) == inverse then Complex(-s, c) else Complex(s, -c)
  {}

  lemma QuarterUnits(inverse: bool, r: int)
    requires 0 <= r < 4
    ensures Complex(QuarterCos(r), QuarterSin(inverse, r))
         == if r == 0 then ONE else if r == 2 then Neg(ONE) else if (r == 1) == inverse then I else Neg(I)
  {}

  // ----- Exponents count modulo n

  lemma Plus(w: int -> Complex, n: nat, inverse: bool, a: int, b: int)
    requires RootsOfUnity(w, n, inverse)
    ensures w(a + b) == Mul(w(a), w(b))
  {
    assert AddsUp(w, a, b);
  }

  lemma Minus(w: int -> Complex, n: nat, inverse: bool, a: int)
    requires RootsOfUnity(w, n, inverse)
    ensures w(-a) == Conj(w(a))
  {
    assert Mirrors(w, a);
  }

  lemma {:induction false} WholeTurns(w: int -> Complex, n: nat, inverse: bool, t: nat)
    requires RootsOfUnity(w, n, inverse)
    ensures w(n * t) == ONE
  {
    if t > 0 {
      WholeTurns(w, n, inverse, t - 1);
      assert n * t == n * (t - 1) + n;
      Plus(w, n, inverse, n * (t - 1), n);
    } else {
      assert n * t == 0;
    }
  }

  lemma Periodic(w: int -> Complex, n: nat, inverse: bool, a: int, t: int)
    requires RootsOfUnity(w, n, inverse)
    ensures w(a + n * t) == w(a)
  {
    if t >= 0 {
      WholeTurns(w, n, inverse, t);
      Plus(w, n, inverse, a, n * t);
    } else {
      var b := a + n * t;
      WholeTurns(w, n, inverse, -t);
      assert a == b + n * -t;
      Plus(w, n, inverse, b, n * -t);
    }
  }

  /** A table of n entries holds every power. */
  lemma Reduced(w: int -> Complex, n: nat, inverse: bool, e: int)
    requires RootsOfUnity(w, n, inverse)
    ensures w(e % n) == w(e)
  {
    assert e == e % n + n * (e / n);
    Periodic(w, n, inverse, e % n, e / n);
  }

  lemma OneExactlyAtWholeTurns(w: int -> Complex, n: nat, inverse: bool, e: int)
    requires RootsOfUnity(w, n, inverse)
    ensures w(e) == ONE <==> e % n == 0
  {
    Reduced(w, n, inverse, e);
    if e % n != 0 {
      assert NotOne(w, e % n);
    }
  }

  // ----- The constants of the radix-2, 3, 4 and 5 butterflies

  lemma HalfTurn(w: int -> Complex, n: nat, inverse: bool, h: int)
    requires RootsOfUnity(w, n, inverse) && n == 2 * h
    ensures w(h) == Neg(ONE)
  {
    hide Mul;
    Plus(w, n, inverse, h, h);
    assert NotOne(w, h);
    MinusOne(w(h));
  }

  lemma MinusOne(a: Complex)
    requires Mul(a, a) == ONE && a != ONE
    ensures a == Neg(ONE)
  {
    assert Mul(Sub(a, ONE), Sub(a, Neg(ONE))) == Sub(Mul(a, a), ONE) == ZERO;
    NoZeroDivisors(Sub(a, ONE), Sub(a, Neg(ONE)));
    if Sub(a, ONE) == ZERO {
      SubZero(a, ONE);
    } else {
      SubZero(a, Neg(ONE));
    }
  }

  lemma SubZero(a: Complex, b: Complex)
    requires Sub(a, b) == ZERO
    ensures a == b
  {
    assert Sub(a, b).re == 0.0 && Sub(a, b).im == 0.0;
  }

  /** The first and second third of a turn are conjugate, with real part -1/2. */
  lemma ThirdTurn(w: int -> Complex, n: nat, inverse: bool, h: int)
    requires RootsOfUnity(w, n, inverse) && n == 3 * h
    ensures w(h).re == -0.5
    ensures w(2 * h) == Conj(w(h))
  {
    hide Mul;
    Minus(w, n, inverse, h);
    Periodic(w, n, inverse, -h, 1);
    Plus(w, n, inverse, h, h);
    Plus(w, n, inverse, 2 * h, h);
    assert NotOne(w, h);
    CubeRoot(w(h), w(2 * h));
  }

  lemma CubeRoot(a: Complex, a2: Complex)
    requires a2 == Mul(a, a) && Mul(a2, a) == ONE && a != ONE && a2 == Conj(a)
    ensures a.re == -0.5
  {
    var s := Add(Add(ONE, a), a2);
    assert Mul(Sub(a, ONE), s) == Sub(Mul(Mul(a, a), a), ONE) == ZERO;
    NoZeroDivisors(Sub(a, ONE), s);
    if Sub(a, ONE) == ZERO {
      SubZero(a, ONE);
    }
    assert s.re == 1.0 + a.re + a.re;
  }

  lemma QuarterTurns(w: int -> Complex, n: nat, inverse: bool, h: int)
    requires RootsOfUnity(w, n, inverse) && n == 4 * h
    ensures w(h) == if inverse then I else Neg(I)
    ensures w(2 * h) == Neg(ONE)
    ensures w(3 * h) == Neg(w(h))
  {
    hide Mul, Neg;
    assert n % 4 == 0 && n / 4 == h;
    assert w(2 * h) == Neg(ONE) by {
      HalfTurn(w, n, inverse, 2 * h);
    }
    assert w(3 * h) == Neg(w(h)) by {
      Plus(w, n, inverse, 2 * h, h);
      MulByUnits(w(h));
    }
  }

  lemma FifthTurns(w: int -> Complex, n: nat, inverse: bool, h: int)
    requires RootsOfUnity(w, n, inverse) && n == 5 * h
    ensures w(4 * h) == Conj(w(h))
    ensures w(3 * h) == Conj(w(2 * h))
  {
    hide Mul;
    Minus(w, n, inverse, h);
    Periodic(w, n, inverse, -h, 1);
    Minus(w, n, inverse, 2 * h);
    Periodic(w, n, inverse, -2 * h, 1);
  }

  // ----- Orthogonality

  function Powers(w: int -> Complex, e: int): int -> Complex {
    k => w(k * e)
  }

  lemma {:induction false} Geometric(w: int -> Complex, n: nat, inverse: bool, e: int, count: nat)
    requires RootsOfUnity(w, n, inverse)
    ensures Mul(Sub(w(e), ONE), Sum(count, Powers(w, e))) == Sub(w(count * e), ONE)
  {
    var S := Sum(count, Powers(w, e));
    if count == 0 {
      assert count * e == 0;
    } else {
      var before := Sum(count - 1, Powers(w, e));
      Geometric(w, n, inverse, e, count - 1);
      var last := w((count - 1) * e);
      assert (count - 1) * e + e == count * e;
      Plus(w, n, inverse, (count - 1) * e, e);
      Telescope(w(e), before, last);
    }
  }

  lemma Telescope(a: Complex, before: Complex, last: Complex)
    requires Mul(Sub(a, ONE), before) == Sub(last, ONE)
    ensures Mul(Sub(a, ONE), Add(before, last)) == Sub(Mul(last, a), ONE)
  {
    MulAdd(Sub(a, ONE), before, last);
    assert Mul(Sub(a, ONE), last) == Sub(Mul(last, a), last);
  }

  /** The n powers of w(e) sum to n when w(e) is 1, and cancel otherwise. */
  lemma Orthogonality(w: int -> Complex, n: nat, inverse: bool, e: int)
    requires RootsOfUnity(w, n, inverse)
    ensures Sum(n, Powers(w, e)) == if e % n == 0 then FromReal(n as real) else ZERO
  {
    OneExactlyAtWholeTurns(w, n, inverse, e);
    if e % n == 0 {
      forall k | 0 <= k < n
        ensures Powers(w, e)(k) == ONE
      {
        assert k * e == 0 + n * (k * (e / n)) by {
          assert e == n * (e / n);
          assert k * (n * (e / n)) == n * (k * (e / n));
        }
        Periodic(w, n, inverse, 0, k * (e / n));
      }
      SumOnes(n, Powers(w, e));
    } else {
      Geometric(w, n, inverse, e, n);
      Periodic(w, n, inverse, 0, e);
      NoZeroDivisors(Sub(w(e), ONE), Sum(n, Powers(w, e)));
      if Sub(w(e), ONE) == ZERO {
        SubZero(w(e), ONE);
      }
    }
  }

  lemma {:induction false} SumOnes(n: nat, f: int -> Complex)
    requires forall i :: 0 <= i < n ==> f(i) == ONE
    ensures Sum(n, f) == FromReal(n as real)
  {
    if n > 0 {
      SumOnes(n - 1, f);
    }
  }
}
