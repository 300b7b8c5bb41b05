/** The outputs of one column for radix 2, 3, 4 and 5, in the terms the special butterflies
    compute them: b1, b2, ... are the twiddled entries, b0 the untwiddled first one. */
module Radices {
  import opened ComplexNumbers
  import opened Twiddles
  import opened Transform
  import opened Recombination

  ghost predicate Stage(w: int -> Complex, n: nat, inverse: bool, p: nat, m: nat, s: nat, u: nat) {
    RootsOfUnity(w, n, inverse) && u < m && n == s * (p * m)
  }

  /** A power beyond a whole turn, in units of the p-th root h. */
  lemma Turned(w: int -> Complex, n: nat, inverse: bool, p: nat, h: int, e: int, t: int)
    requires RootsOfUnity(w, n, inverse) && n == p * h
    ensures w(h * (e + p * t)) == w(h * e)
  {
    hide Mul;
    assert h * (e + p * t) == h * e + n * t;
    Periodic(w, n, inverse, h * e, t);
  }

  /** b_q times the power it gets in output t. */
  function Turn(Y: seq<Complex>, m: int, w: int -> Complex, s: int, u: int, q: int, e: int): Complex {
    Mul(Twiddled(Y, m, w, s, u, q), w(s * m * e))
  }

  lemma Unturned(w: int -> Complex, n: nat, inverse: bool, Y: seq<Complex>, m: nat, s: nat, u: nat, q: int)
    requires RootsOfUnity(w, n, inverse)
    ensures Turn(Y, m, w, s, u, q, 0) == Twiddled(Y, m, w, s, u, q)
    ensures Turn(Y, m, w, s, u, 0, 0) == At(Y, u)
  {
    hide Mul, Twiddled;
    assert s * m * 0 == 0;
    MulByUnits(Twiddled(Y, m, w, s, u, q));
    MulByUnits(Twiddled(Y, m, w, s, u, 0));
    FirstTwiddled(w, n, inverse, Y, m, s, u);
  }

  // ----- Radix 2

  lemma Output2(w: int -> Complex, n: nat, inverse: bool, Y: seq<Complex>, m: nat, s: nat, u: nat, t: nat)
    requires Stage(w, n, inverse, 2, m, s, u)
    ensures ButterflyBin(Y, 2, m, w, s, t * m + u) == Add(At(Y, u), Turn(Y, m, w, s, u, 1, t))
  {
    hide Mul, Sum, ButterflyBin, Twiddled;
    ColumnBin(w, n, inverse, Y, 2, m, s, u, t);
    SumOfTwo(ColumnTerm(Y, m, w, s, u, t));
    Unturned(w, n, inverse, Y, m, s, u, 0);
    assert 0 * t == 0 && 1 * t == t;
  }

  lemma Radix2(w: int -> Complex, n: nat, inverse: bool, Y: seq<Complex>, m: nat, s: nat, u: nat)
    requires Stage(w, n, inverse, 2, m, s, u)
    ensures var b1 := Twiddled(Y, m, w, s, u, 1);
      && ButterflyBin(Y, 2, m, w, s, 0 * m + u) == Add(At(Y, u), b1)
      && ButterflyBin(Y, 2, m, w, s, 1 * m + u) == Sub(At(Y, u), b1)
  {
    hide Mul, Neg, ButterflyBin, Twiddled;
    Output2(w, n, inverse, Y, m, s, u, 0);
    Output2(w, n, inverse, Y, m, s, u, 1);
    Unturned(w, n, inverse, Y, m, s, u, 1);
    HalfTurn(w, n, inverse, s * m);
    assert s * m * 1 == s * m;
    var b1 := Twiddled(Y, m, w, s, u, 1);
    MulByUnits(b1);
    AddNeg(At(Y, u), b1);
  }

  lemma AddNeg(a: Complex, b: Complex)
    ensures Add(a, Neg(b)) == Sub(a, b)
  {}

  // ----- Radix 3

  lemma Output3(w: int -> Complex, n: nat, inverse: bool, Y: seq<Complex>, m: nat, s: nat, u: nat, t: nat)
    requires Stage(w, n, inverse, 3, m, s, u)
    ensures ButterflyBin(Y, 3, m, w, s, t * m + u)
         == Add(Add(At(Y, u), Turn(Y, m, w, s, u, 1, t)), Turn(Y, m, w, s, u, 2, 2 * t))
  {
    hide Mul, Add, Sum, ButterflyBin, Twiddled;
    ColumnBin(w, n, inverse, Y, 3, m, s, u, t);
    SumOfThree(ColumnTerm(Y, m, w, s, u, t));
    Unturned(w, n, inverse, Y, m, s, u, 0);
    assert 0 * t == 0 && 1 * t == t;
  }

  /** What `kf_bfly3` computes from the sum and the difference of the twiddled entries. */
  function Third(b0: Complex, sum: Complex, diff: Complex, y: real): Complex {
    Complex(b0.re - sum.re * 0.5 - diff.im * y, b0.im - sum.im * 0.5 + diff.re * y)
  }

  lemma Radix3(w: int -> Complex, n: nat, inverse: bool, Y: seq<Complex>, m: nat, s: nat, u: nat)
    requires Stage(w, n, inverse, 3, m, s, u)
    ensures var b0, b1, b2 := At(Y, u), Twiddled(Y, m, w, s, u, 1), Twiddled(Y, m, w, s, u, 2);
      && ButterflyBin(Y, 3, m, w, s, 0 * m + u) == Add(Add(b0, b1), b2)
      && ButterflyBin(Y, 3, m, w, s, 1 * m + u) == Third(b0, Add(b1, b2), Sub(b1, b2), w(s * m).im)
      && ButterflyBin(Y, 3, m, w, s, 2 * m + u) == Third(b0, Add(b1, b2), Sub(b1, b2), -w(s * m).im)
  {
    hide Mul, Add, Sub, Conj, Third, ButterflyBin, Twiddled;
    var h := s * m;
    Output3(w, n, inverse, Y, m, s, u, 0);
    Output3(w, n, inverse, Y, m, s, u, 1);
    Output3(w, n, inverse, Y, m, s, u, 2);
    Unturned(w, n, inverse, Y, m, s, u, 1);
    Unturned(w, n, inverse, Y, m, s, u, 2);
    ThirdTurn(w, n, inverse, h);
    Turned(w, n, inverse, 3, h, 1, 1);
    assert h * 1 == h && h * 2 == 2 * h && h * 4 == h * (1 + 3 * 1);
    var b0, b1, b2 := At(Y, u), Twiddled(Y, m, w, s, u, 1), Twiddled(Y, m, w, s, u, 2);
    ThirdAlgebra(b0, b1, b2, w(h));
    ConjTwice(w(h));
    ConjParts(w(h));
    ThirdAlgebra(b0, b1, b2, Conj(w(h)));
  }

  /** Minus half of x, less z. */
  function MinusHalfLess(x: real, z: real): real {
    -(x * 0.5) - z
  }

  /** b times the first third of a turn, whose imaginary part is y, and times its conjugate. */
  function OnThird(b: Complex, y: real): Complex {
    Complex(MinusHalfLess(b.re, Times(b.im, y)), MinusHalfLess(b.im, -Times(b.re, y)))
  }

  function OnSecondThird(b: Complex, y: real): Complex {
    Complex(MinusHalfLess(b.re, -Times(b.im, y)), MinusHalfLess(b.im, Times(b.re, y)))
  }

  lemma ThirdAlgebra(b0: Complex, b1: Complex, b2: Complex, a: Complex)
    requires a.re == -0.5
    ensures Add(Add(b0, Mul(b1, a)), Mul(b2, Conj(a))) == Third(b0, Add(b1, b2), Sub(b1, b2), a.im)
  {
    MulByThird(b1, a);
    MulByThirdConj(b2, a);
    ThirdParts(b0, b1, b2, a.im);
    hide *;
  }

  lemma ThirdParts(b0: Complex, b1: Complex, b2: Complex, y: real)
    ensures Add(Add(b0, OnThird(b1, y)), OnSecondThird(b2, y)) == Third(b0, Add(b1, b2), Sub(b1, b2), y)
  {
    hide Add, Sub, Third, Times, MinusHalfLess, ReThird, ImThird;
    SumParts(b0, OnThird(b1, y), OnSecondThird(b2, y));
    ThirdIs(b0, b1, b2, y);
    ThirdRe(b0.re, b1.re, b2.re, b1.im, b2.im, y);
    ThirdIm(b0.im, b1.im, b2.im, b1.re, b2.re, y);
  }

  function ReThird(x0: real, x1: real, x2: real, y1: real, y2: real, y: real): real {
    x0 - (x1 + x2) * 0.5 - Times(y1 - y2, y)
  }

  function ImThird(x0: real, x1: real, x2: real, y1: real, y2: real, y: real): real {
    x0 - (x1 + x2) * 0.5 + Times(y1 - y2, y)
  }

  lemma SumParts(a: Complex, b: Complex, c: Complex)
    ensures Add(Add(a, b), c) == Complex(a.re + b.re + c.re, a.im + b.im + c.im)
  {}

  lemma ThirdIs(b0: Complex, b1: Complex, b2: Complex, y: real)
    ensures Third(b0, Add(b1, b2), Sub(b1, b2), y)
         == Complex(ReThird(b0.re, b1.re, b2.re, b1.im, b2.im, y), ImThird(b0.im, b1.im, b2.im, b1.re, b2.re, y))
  {}

  lemma ThirdRe(x0: real, x1: real, x2: real, y1: real, y2: real, y: real)
    ensures x0 + MinusHalfLess(x1, Times(y1, y)) + MinusHalfLess(x2, -Times(y2, y)) == ReThird(x0, x1, x2, y1, y2, y)
  {
    DifferenceTimes(y1, y2, y);
    hide Times;
  }

  lemma ThirdIm(x0: real, x1: real, x2: real, y1: real, y2: real, y: real)
    ensures x0 + MinusHalfLess(x1, -Times(y1, y)) + MinusHalfLess(x2, Times(y2, y)) == ImThird(x0, x1, x2, y1, y2, y)
  {
    DifferenceTimes(y1, y2, y);
    hide Times;
  }

  lemma DifferenceTimes(a: real, b: real, y: real)
    ensures Times(a - b, y) == Times(a, y) - Times(b, y)
  {}

  lemma MulByThird(b: Complex, a: Complex)
    requires a.re == -0.5
    ensures Mul(b, a) == OnThird(b, a.im)
  {
    MulParts(b, a);
    MinusHalf(b.re, a.re);
    MinusHalf(b.im, a.re);
    hide Mul, Times;
  }

  lemma MulByThirdConj(b: Complex, a: Complex)
    requires a.re == -0.5
    ensures Mul(b, Conj(a)) == OnSecondThird(b, a.im)
  {
    MulByConj(b, a);
    MinusHalf(b.re, a.re);
    MinusHalf(b.im, a.re);
    hide Mul, Conj, Times;
  }

  lemma MinusHalf(x: real, h: real)
    requires h == -0.5
    ensures Times(x, h) == -(x * 0.5)
  {
    assert Times(x, h) == Times(x, -0.5);
  }

  lemma MulParts(b: Complex, a: Complex)
    ensures Mul(b, a) == Complex(Times(b.re, a.re) - Times(b.im, a.im), Times(b.im, a.re) + Times(b.re, a.im))
  {}

  lemma MulByConj(b: Complex, a: Complex)
    ensures Mul(b, Conj(a)) == Complex(Times(b.re, a.re) + Times(b.im, a.im), Times(b.im, a.re) - Times(b.re, a.im))
  {}

  // ----- Radix 4

  lemma Output4(w: int -> Complex, n: nat, inverse: bool, Y: seq<Complex>, m: nat, s: nat, u: nat, t: nat)
    requires Stage(w, n, inverse, 4, m, s, u)
    ensures ButterflyBin(Y, 4, m, w, s, t * m + u)
         == Add(Add(Add(At(Y, u), Turn(Y, m, w, s, u, 1, t)), Turn(Y, m, w, s, u, 2, 2 * t)),
                Turn(Y, m, w, s, u, 3, 3 * t))
  {
    hide Mul, Add, Sum, ButterflyBin, Twiddled;
    ColumnBin(w, n, inverse, Y, 4, m, s, u, t);
    SumOfFour(ColumnTerm(Y, m, w, s, u, t));
    Unturned(w, n, inverse, Y, m, s, u, 0);
    assert 0 * t == 0 && 1 * t == t;
  }

  /** i * a for an inverse transform, -i * a for a forward one. */
  function QuarterOf(inverse: bool, a: Complex): Complex {
    if inverse then Complex(-a.im, a.re) else Complex(a.im, -a.re)
  }

  lemma Radix4(w: int -> Complex, n: nat, inverse: bool, Y: seq<Complex>, m: nat, s: nat, u: nat)
    requires Stage(w, n, inverse, 4, m, s, u)
    ensures var b0, b1 := At(Y, u), Twiddled(Y, m, w, s, u, 1);
      var b2, b3 := Twiddled(Y, m, w, s, u, 2), Twiddled(Y, m, w, s, u, 3);
      && ButterflyBin(Y, 4, m, w, s, 0 * m + u) == Add(Add(b0, b2), Add(b1, b3))
      && ButterflyBin(Y, 4, m, w, s, 1 * m + u) == Add(Sub(b0, b2), QuarterOf(inverse, Sub(b1, b3)))
      && ButterflyBin(Y, 4, m, w, s, 2 * m + u) == Sub(Add(b0, b2), Add(b1, b3))
      && ButterflyBin(Y, 4, m, w, s, 3 * m + u) == Sub(Sub(b0, b2), QuarterOf(inverse, Sub(b1, b3)))
  {
    hide Mul, Add, Sub, Neg, QuarterOf, ButterflyBin, Twiddled;
    var h := s * m;
    var b0, b1, b2, b3 := At(Y, u), Twiddled(Y, m, w, s, u, 1), Twiddled(Y, m, w, s, u, 2), Twiddled(Y, m, w, s, u, 3);
    Output4(w, n, inverse, Y, m, s, u, 0);
    Output4(w, n, inverse, Y, m, s, u, 1);
    Output4(w, n, inverse, Y, m, s, u, 2);
    Output4(w, n, inverse, Y, m, s, u, 3);
    Unturned(w, n, inverse, Y, m, s, u, 1);
    Unturned(w, n, inverse, Y, m, s, u, 2);
    Unturned(w, n, inverse, Y, m, s, u, 3);
    QuarterTurns(w, n, inverse, h);
    Turned(w, n, inverse, 4, h, 0, 1);
    Turned(w, n, inverse, 4, h, 2, 1);
    Turned(w, n, inverse, 4, h, 1, 2);
    assert h * 0 == 0 && h * 1 == h && h * 2 == 2 * h && h * 3 == 3 * h;
    MulByUnits(b1);
    MulByUnits(b2);
    MulByUnits(b3);
    QuarterAlgebra(inverse, b0, b1, b2, b3, w(h));
  }

  lemma QuarterAlgebra(inverse: bool, b0: Complex, b1: Complex, b2: Complex, b3: Complex, g: Complex)
    requires g == if inverse then I else Neg(I)
    ensures Add(Add(Add(b0, b1), b2), b3) == Add(Add(b0, b2), Add(b1, b3))
    ensures Add(Add(Add(b0, Mul(b1, g)), Neg(b2)), Mul(b3, Neg(g))) == Add(Sub(b0, b2), QuarterOf(inverse, Sub(b1, b3)))
    ensures Add(Add(Add(b0, Neg(b1)), b2), Neg(b3)) == Sub(Add(b0, b2), Add(b1, b3))
    ensures Add(Add(Add(b0, Mul(b1, Neg(g))), Neg(b2)), Mul(b3, g)) == Sub(Sub(b0, b2), QuarterOf(inverse, Sub(b1, b3)))
  {
    hide Mul, Neg;
    MulNeg(b1, g);
    MulNeg(b3, g);
    MulByUnits(b1);
    MulByUnits(b3);
    QuarterSums(b0, b1, b2, b3, Mul(b1, g), Mul(b3, g), QuarterOf(inverse, Sub(b1, b3)));
  }

  lemma MulNeg(a: Complex, b: Complex)
    ensures Mul(a, Neg(b)) == Neg(Mul(a, b))
  {}

  lemma QuarterSums(b0: Complex, b1: Complex, b2: Complex, b3: Complex, x: Complex, y: Complex, q: Complex)
    requires Sub(x, y) == q
    ensures Add(Add(Add(b0, b1), b2), b3) == Add(Add(b0, b2), Add(b1, b3))
    ensures Add(Add(Add(b0, x), Neg(b2)), Neg(y)) == Add(Sub(b0, b2), q)
    ensures Add(Add(Add(b0, Neg(b1)), b2), Neg(b3)) == Sub(Add(b0, b2), Add(b1, b3))
    ensures Add(Add(Add(b0, Neg(x)), Neg(b2)), y) == Sub(Sub(b0, b2), q)
  {}

  // ----- Radix 5

  lemma Output5(w: int -> Complex, n: nat, inverse: bool, Y: seq<Complex>, m: nat, s: nat, u: nat, t: nat)
    requires Stage(w, n, inverse, 5, m, s, u)
    ensures ButterflyBin(Y, 5, m, w, s, t * m + u)
         == Add(Add(Add(Add(At(Y, u), Turn(Y, m, w, s, u, 1, t)), Turn(Y, m, w, s, u, 2, 2 * t)),
                    Turn(Y, m, w, s, u, 3, 3 * t)), Turn(Y, m, w, s, u, 4, 4 * t))
  {
    hide Mul, Add, Sum, ButterflyBin, Twiddled;
    ColumnBin(w, n, inverse, Y, 5, m, s, u, t);
    SumOfFive(ColumnTerm(Y, m, w, s, u, t));
    Unturned(w, n, inverse, Y, m, s, u, 0);
    assert 0 * t == 0 && 1 * t == t;
  }

  /** The part of an output that is even in the exponents: scratch[5] and scratch[11] of `kf_bfly5`. */
  function Even(b0: Complex, s7: Complex, s8: Complex, x: Complex, y: Complex): Complex {
    EvenOf(b0, s7, s8, x.re, y.re)
  }

  /** Only the real parts of the two constants count. */
  function EvenOf(b0: Complex, s7: Complex, s8: Complex, x: real, y: real): Complex {
    Complex(b0.re + s7.re * x + s8.re * y, b0.im + s7.im * x + s8.im * y)
  }

  /** The odd part: scratch[6]. */
  function Odd(s10: Complex, s9: Complex, x: Complex, y: Complex): Complex {
    Complex(s10.im * x.im + s9.im * y.im, -(s10.re * x.im) - s9.re * y.im)
  }

  /** b0 + b1*x + b2*y + b3*conj(y) + b4*conj(x), with the conjugate pairs gathered. */
  function Fifth(b0: Complex, b1: Complex, b2: Complex, b3: Complex, b4: Complex, x: Complex, y: Complex): Complex {
    Sub(Even(b0, Add(b1, b4), Add(b2, b3), x, y), Odd(Sub(b1, b4), Sub(b2, b3), x, y))
  }

  /** A conjugate pair of terms, gathered. */
  lemma PairAlgebra(b: Complex, c: Complex, x: Complex)
    ensures var s, d := Add(b, c), Sub(b, c);
      Add(Mul(b, x), Mul(c, Conj(x))) == Complex(s.re * x.re - d.im * x.im, s.im * x.re + d.re * x.im)
  {
    MulByConj(c, x);
  }

  lemma FifthAlgebra(b0: Complex, b1: Complex, b2: Complex, b3: Complex, b4: Complex, x: Complex, y: Complex)
    ensures Add(Add(Add(Add(b0, Mul(b1, x)), Mul(b2, y)), Mul(b3, Conj(y))), Mul(b4, Conj(x)))
         == Fifth(b0, b1, b2, b3, b4, x, y)
  {
    PairAlgebra(b1, b4, x);
    PairAlgebra(b2, b3, y);
    FifthTerms(b0, Mul(b1, x), Mul(b2, y), Mul(b3, Conj(y)), Mul(b4, Conj(x)));
    GatheredTerms(b0, Add(b1, b4), Sub(b1, b4), Add(b2, b3), Sub(b2, b3), x, y);
    hide Mul, Conj, Add, Sub, Even, Odd;
  }

  lemma FifthTerms(b0: Complex, t1: Complex, t2: Complex, t3: Complex, t4: Complex)
    ensures Add(Add(Add(Add(b0, t1), t2), t3), t4) == Add(b0, Add(Add(t1, t4), Add(t2, t3)))
  {}

  lemma GatheredTerms(b0: Complex, s7: Complex, s10: Complex, s8: Complex, s9: Complex, x: Complex, y: Complex)
    ensures Add(b0, Add(Complex(s7.re * x.re - s10.im * x.im, s7.im * x.re + s10.re * x.im),
                        Complex(s8.re * y.re - s9.im * y.im, s8.im * y.re + s9.re * y.im)))
         == Sub(Even(b0, s7, s8, x, y), Odd(s10, s9, x, y))
  {}

  lemma Radix5(w: int -> Complex, n: nat, inverse: bool, Y: seq<Complex>, m: nat, s: nat, u: nat)
    requires Stage(w, n, inverse, 5, m, s, u)
    ensures var b0, b1, b2 := At(Y, u), Twiddled(Y, m, w, s, u, 1), Twiddled(Y, m, w, s, u, 2);
      var b3, b4 := Twiddled(Y, m, w, s, u, 3), Twiddled(Y, m, w, s, u, 4);
      var ya, yb := w(s * m), w(2 * (s * m));
      && ButterflyBin(Y, 5, m, w, s, 0 * m + u) == Add(Add(Add(Add(b0, b1), b2), b3), b4)
      && ButterflyBin(Y, 5, m, w, s, 1 * m + u) == Fifth(b0, b1, b2, b3, b4, ya, yb)
      && ButterflyBin(Y, 5, m, w, s, 2 * m + u) == Fifth(b0, b1, b2, b3, b4, yb, Conj(ya))
      && ButterflyBin(Y, 5, m, w, s, 3 * m + u) == Fifth(b0, b1, b2, b3, b4, Conj(yb), ya)
      && ButterflyBin(Y, 5, m, w, s, 4 * m + u) == Fifth(b0, b1, b2, b3, b4, Conj(ya), Conj(yb))
  {
    hide Mul, Add, Sub, Conj, Even, Odd, Fifth, ButterflyBin, Twiddled;
    var h := s * m;
    var b0, b1, b2 := At(Y, u), Twiddled(Y, m, w, s, u, 1), Twiddled(Y, m, w, s, u, 2);
    var b3, b4 := Twiddled(Y, m, w, s, u, 3), Twiddled(Y, m, w, s, u, 4);
    FifthPowers(w, n, inverse, h);
    var ya, yb := w(h), w(2 * h);
    assert ButterflyBin(Y, 5, m, w, s, 0 * m + u) == Add(Add(Add(Add(b0, b1), b2), b3), b4) by {
      Output5(w, n, inverse, Y, m, s, u, 0);
      Unturned(w, n, inverse, Y, m, s, u, 1);
      Unturned(w, n, inverse, Y, m, s, u, 2);
      Unturned(w, n, inverse, Y, m, s, u, 3);
      Unturned(w, n, inverse, Y, m, s, u, 4);
    }
    ConjTwice(ya);
    ConjTwice(yb);
    assert ButterflyBin(Y, 5, m, w, s, 1 * m + u) == Fifth(b0, b1, b2, b3, b4, ya, yb) by {
      Output5(w, n, inverse, Y, m, s, u, 1);
      FifthAlgebra(b0, b1, b2, b3, b4, ya, yb);
    }
    assert ButterflyBin(Y, 5, m, w, s, 2 * m + u) == Fifth(b0, b1, b2, b3, b4, yb, Conj(ya)) by {
      Output5(w, n, inverse, Y, m, s, u, 2);
      FifthAlgebra(b0, b1, b2, b3, b4, yb, Conj(ya));
    }
    assert ButterflyBin(Y, 5, m, w, s, 3 * m + u) == Fifth(b0, b1, b2, b3, b4, Conj(yb), ya) by {
      Output5(w, n, inverse, Y, m, s, u, 3);
      FifthAlgebra(b0, b1, b2, b3, b4, Conj(yb), ya);
    }
    assert ButterflyBin(Y, 5, m, w, s, 4 * m + u) == Fifth(b0, b1, b2, b3, b4, Conj(ya), Conj(yb)) by {
      Output5(w, n, inverse, Y, m, s, u, 4);
      FifthAlgebra(b0, b1, b2, b3, b4, Conj(ya), Conj(yb));
    }
  }

  /** The exponents q * t that occur for radix 5, reduced modulo 5. */
  lemma FifthPowers(w: int -> Complex, n: nat, inverse: bool, h: int)
    requires RootsOfUnity(w, n, inverse) && n == 5 * h
    ensures w(h * 1) == w(h) == w(h * 6) == w(h * 16)
    ensures w(h * 2) == w(2 * h) == w(h * 12)
    ensures w(h * 3) == Conj(w(2 * h)) == w(h * 8)
    ensures w(h * 4) == Conj(w(h)) == w(h * 9)
  {
    hide Conj;
    FifthTurns(w, n, inverse, h);
    Turned(w, n, inverse, 5, h, 1, 1);
    Turned(w, n, inverse, 5, h, 1, 3);
    Turned(w, n, inverse, 5, h, 2, 2);
    Turned(w, n, inverse, 5, h, 3, 1);
    Turned(w, n, inverse, 5, h, 4, 1);
    assert h * 1 == h && h * 2 == 2 * h && h * 3 == 3 * h && h * 4 == 4 * h;
  }
}
