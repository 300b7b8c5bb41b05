/** The in-place butterflies of `kiss_fft.c`, each proved against the same specification. */
module Butterflies {
  import opened Basics
  import opened ComplexNumbers
  import opened Twiddles
  import opened Transform
  import opened Recombination
  import opened Radices

  /** A transform's configuration: its size, direction, factor list and twiddle table. */
  class State {
    const nfft: nat
    const inverse: bool
    const factors: array<int>
    const twiddles: array<Complex>
    ghost const w: int -> Complex

    /** The table holds the powers of a primitive root for this size and direction. */
    ghost predicate Valid()
      reads twiddles
    {
      && twiddles.Length == nfft
      && RootsOfUnity(w, nfft, inverse)
      && forall i :: 0 <= i < nfft ==> twiddles[i] == w(i)
    }

    constructor (nfft: nat, inverse: bool, factors: array<int>, twiddles: array<Complex>, ghost w: int -> Complex)
      ensures this.nfft == nfft && this.inverse == inverse && this.factors == factors
      ensures this.twiddles == twiddles && this.w == w
    {
      this.nfft, this.inverse, this.factors, this.twiddles, this.w := nfft, inverse, factors, twiddles, w;
    }
  }

  /** What a butterfly of radix p at offset `off` needs: its blocks fit the buffer, and its
      stride times its size is the size of the whole transform. */
  ghost predicate Ready(Fout: array<Complex>, off: nat, fstride: nat, st: State, m: nat, p: nat)
    reads st.twiddles
  {
    && st.Valid() && st.nfft > 0 && Fout != st.twiddles
    && m > 0 && p > 0
    && off + p * m <= Fout.Length
    && st.nfft == fstride * (p * m)
  }

  /** The table index block q uses in column u. */
  function TwiddleIndex(fstride: int, q: int, u: int): int {
    fstride * q * u
  }

  lemma FirstIndex(fstride: nat)
    ensures forall q :: TwiddleIndex(fstride, q, 0) == 0
  {}

  /** The pointers into the table advance by q * fstride, and stay inside it. */
  lemma TwiddleInRange(n: nat, fstride: nat, p: nat, m: nat, q: nat, u: nat)
    requires q < p && u < m && n == fstride * (p * m) && n > 0
    ensures 0 <= TwiddleIndex(fstride, q, u) < n
    ensures TwiddleIndex(fstride, q, u + 1) == TwiddleIndex(fstride, q, u) + fstride * q
  {
    ProductBelow(q, p, u, m);
    ProductMonotone(fstride, q * u, p * m);
    assert fstride * q * u == fstride * (q * u);
  }

  lemma ProductBelow(q: nat, p: nat, u: nat, m: nat)
    requires q < p && u < m
    ensures q * u < p * m
  {
    BlockBounds(p, m, q);
    assert q * u <= q * m;
  }

  lemma ProductMonotone(c: nat, a: nat, b: nat)
    requires a < b && c * b > 0
    ensures c * a < c * b
  {
    assert c * b == c * a + c * (b - a);
  }

  // ----- Radix 2

  /** What column u holds when the loop reaches it. */
  lemma Column2Read(st: State, before: seq<Complex>, off: nat, m: nat, s: nat, u: nat)
    requires u < m && off + 2 * m <= |before|
    ensures var now := Partial(before, off, 2, m, st.w, s, u);
      var Y := before[off..off + 2 * m];
      && now[off + u] == At(Y, u)
      && Mul(now[off + m + u], st.w(TwiddleIndex(s, 1, u))) == Twiddled(Y, m, st.w, s, u, 1)
  {
    hide Mul, ButterflyBin, Partial;
    ColumnUntouched(before, off, 2, m, st.w, s, u, 0);
    ColumnUntouched(before, off, 2, m, st.w, s, u, 1);
  }

  /** Its outputs, and nothing else, complete the column. */
  lemma Column2Done(st: State, before: seq<Complex>, off: nat, m: nat, s: nat, u: nat, next: seq<Complex>)
    requires off + 2 * m <= |before| == |next| && Stage(st.w, st.nfft, st.inverse, 2, m, s, u)
    requires forall i :: 0 <= i < |next| && i != off + u && i != off + m + u ==>
      next[i] == Partial(before, off, 2, m, st.w, s, u)[i]
    requires var Y := before[off..off + 2 * m];
      var b0 := At(Y, u);
      var b1 := Twiddled(Y, m, st.w, s, u, 1);
      && next[off + u] == Add(b0, b1)
      && next[off + m + u] == Sub(b0, b1)
    ensures next == Partial(before, off, 2, m, st.w, s, u + 1)
  {
    hide Mul, Add, Sub, ButterflyBin, Twiddled, Partial, PutColumn, RootsOfUnity;
    var now := Partial(before, off, 2, m, st.w, s, u);
    var vals := [next[off + u], next[off + m + u]];
    Radix2(st.w, st.nfft, st.inverse, before[off..off + 2 * m], m, s, u);
    assert IsEntry(off, m, u, 0, off + u);
    assert IsEntry(off, m, u, 1, off + m + u);
    PutEntries(now, off, 2, m, u, vals, next);
    ColumnCompleted(before, off, 2, m, st.w, s, u, vals);
  }

  method Bfly2(Fout: array<Complex>, off: nat, fstride: nat, st: State, m: nat)
    requires Ready(Fout, off, fstride, st, m, 2)
    modifies Fout
    ensures Fout[..] == Recombined(old(Fout[..]), off, 2, m, st.w, fstride)
  {
    hide TwiddleIndex, Mul, Add, Sub, Partial, Recombined, Twiddled, RootsOfUnity;
    FirstIndex(fstride);
    ghost var before := Fout[..];
    NothingReplaced(before, off, 2, m, st.w, fstride);
    var i0, i2, tw1, k := off, off + m, 0, m;
    ghost var u := 0;
    while k != 0
      invariant 0 <= u <= m && k == m - u
      invariant i0 == off + u && i2 == off + m + u && tw1 == TwiddleIndex(fstride, 1, u)
      invariant Fout[..] == Partial(before, off, 2, m, st.w, fstride, u)
    {
      Column2Read(st, before, off, m, fstride, u);
      TwiddleInRange(st.nfft, fstride, 2, m, 1, u);
      var t := Mul(Fout[i2], st.twiddles[tw1]);
      tw1 := tw1 + fstride;
      Fout[i2] := Sub(Fout[i0], t);
      Fout[i0] := Add(Fout[i0], t);
      Column2Done(st, before, off, m, fstride, u, Fout[..]);
      i2, i0, k := i2 + 1, i0 + 1, k - 1;
      u := u + 1;
    }
    EverythingReplaced(before, off, 2, m, st.w, fstride);
  }

  // ----- Radix 3

  /** What column u holds when the loop reaches it. */
  lemma Column3Read(st: State, before: seq<Complex>, off: nat, m: nat, s: nat, u: nat)
    requires u < m && off + 3 * m <= |before|
    ensures var now := Partial(before, off, 3, m, st.w, s, u);
      var Y := before[off..off + 3 * m];
      && now[off + u] == At(Y, u)
      && Mul(now[off + m + u], st.w(TwiddleIndex(s, 1, u))) == Twiddled(Y, m, st.w, s, u, 1)
      && Mul(now[off + 2 * m + u], st.w(TwiddleIndex(s, 2, u))) == Twiddled(Y, m, st.w, s, u, 2)
  {
    hide Mul, ButterflyBin, Partial;
    ColumnUntouched(before, off, 3, m, st.w, s, u, 0);
    ColumnUntouched(before, off, 3, m, st.w, s, u, 1);
    ColumnUntouched(before, off, 3, m, st.w, s, u, 2);
  }

  /** Its outputs, and nothing else, complete the column. */
  lemma Column3Done(st: State, before: seq<Complex>, off: nat, m: nat, s: nat, u: nat, next: seq<Complex>)
    requires off + 3 * m <= |before| == |next| && Stage(st.w, st.nfft, st.inverse, 3, m, s, u)
    requires forall i :: 0 <= i < |next| && i != off + u && i != off + m + u && i != off + 2 * m + u ==>
      next[i] == Partial(before, off, 3, m, st.w, s, u)[i]
    requires var Y := before[off..off + 3 * m];
      var b0 := At(Y, u);
      var b1 := Twiddled(Y, m, st.w, s, u, 1);
      var b2 := Twiddled(Y, m, st.w, s, u, 2);
      var y := st.w(s * m).im;
      && next[off + u] == Add(Add(b0, b1), b2)
      && next[off + m + u] == Third(b0, Add(b1, b2), Sub(b1, b2), y)
      && next[off + 2 * m + u] == Third(b0, Add(b1, b2), Sub(b1, b2), -y)
    ensures next == Partial(before, off, 3, m, st.w, s, u + 1)
  {
    hide Mul, Add, Sub, Third, ButterflyBin, Twiddled, Partial, PutColumn, RootsOfUnity;
    var now := Partial(before, off, 3, m, st.w, s, u);
    var vals := [next[off + u], next[off + m + u], next[off + 2 * m + u]];
    Radix3(st.w, st.nfft, st.inverse, before[off..off + 3 * m], m, s, u);
    assert IsEntry(off, m, u, 0, off + u);
    assert IsEntry(off, m, u, 1, off + m + u);
    assert IsEntry(off, m, u, 2, off + 2 * m + u);
    PutEntries(now, off, 3, m, u, vals, next);
    ColumnCompleted(before, off, 3, m, st.w, s, u, vals);
  }

  /** A complex number times a real one. */
  function MulByScalar(c: Complex, x: real): Complex {
    Complex(c.re * x, c.im * x)
  }

  lemma ThirdSteps(b0: Complex, sum: Complex, diff: Complex, y: real)
    ensures var c, d := Complex(b0.re - sum.re * 0.5, b0.im - sum.im * 0.5), MulByScalar(diff, y);
      && Complex(c.re - d.im, c.im + d.re) == Third(b0, sum, diff, y)
      && Complex(c.re + d.im, c.im - d.re) == Third(b0, sum, diff, -y)
  {}

  lemma AddAssoc(a: Complex, b: Complex, c: Complex)
    ensures Add(a, Add(b, c)) == Add(Add(a, b), c)
  {}

  /** The constants read from the table: its entries at q * fstride * m. */
  lemma ConstantInRange(n: nat, fstride: nat, p: nat, m: nat, q: nat)
    requires q < p && m > 0 && n == fstride * (p * m) && n > 0
    ensures 0 <= fstride * q * m < n
  {
    assert q * m < p * m by {
      BlockBounds(p, m, q);
    }
    ProductMonotone(fstride, q * m, p * m);
    assert fstride * q * m == fstride * (q * m);
  }

  /** One pass of the loop of `kf_bfly3`. */
  method Pass3(Fout: array<Complex>, i0: nat, m: nat, tw1: Complex, tw2: Complex, epi3: Complex)
    requires m > 0 && i0 + 2 * m < Fout.Length
    modifies Fout
    ensures var b0, b1, b2 := old(Fout[i0]), Mul(old(Fout[i0 + m]), tw1), Mul(old(Fout[i0 + 2 * m]), tw2);
      && Fout[i0] == Add(Add(b0, b1), b2)
      && Fout[i0 + m] == Third(b0, Add(b1, b2), Sub(b1, b2), epi3.im)
      && Fout[i0 + 2 * m] == Third(b0, Add(b1, b2), Sub(b1, b2), -epi3.im)
    ensures forall i :: 0 <= i < Fout.Length && i != i0 && i != i0 + m && i != i0 + 2 * m ==> Fout[i] == old(Fout[i])
  {
    hide Mul, Add, Sub, MulByScalar, Third;
    var m2 := 2 * m;
    var scratch1 := Mul(Fout[i0 + m], tw1);
    var scratch2 := Mul(Fout[i0 + m2], tw2);
    var scratch3 := Add(scratch1, scratch2);
    var scratch0 := Sub(scratch1, scratch2);
    ThirdSteps(Fout[i0], scratch3, scratch0, epi3.im);
    AddAssoc(Fout[i0], scratch1, scratch2);

    Fout[i0 + m] := Complex(Fout[i0].re - scratch3.re * 0.5, Fout[i0].im - scratch3.im * 0.5);
    scratch0 := MulByScalar(scratch0, epi3.im);
    Fout[i0] := Add(Fout[i0], scratch3);
    Fout[i0 + m2] := Complex(Fout[i0 + m].re + scratch0.im, Fout[i0 + m].im - scratch0.re);
    Fout[i0 + m] := Complex(Fout[i0 + m].re - scratch0.im, Fout[i0 + m].im + scratch0.re);
  }

  method Bfly3(Fout: array<Complex>, off: nat, fstride: nat, st: State, m: nat)
    requires Ready(Fout, off, fstride, st, m, 3)
    modifies Fout
    ensures Fout[..] == Recombined(old(Fout[..]), off, 3, m, st.w, fstride)
  {
    FirstIndex(fstride);
    hide TwiddleIndex, Mul, Add, Sub, Third, Partial, Recombined, Twiddled, RootsOfUnity;
    ghost var before := Fout[..];
    NothingReplaced(before, off, 3, m, st.w, fstride);
    ConstantInRange(st.nfft, fstride, 3, m, 1);
    assert fstride * 1 * m == fstride * m;
    var epi3 := st.twiddles[fstride * m];
    var i0, tw1, tw2, k := off, 0, 0, m;
    ghost var u := 0;
    while k != 0
      invariant 0 <= u <= m && k == m - u
      invariant i0 == off + u && tw1 == TwiddleIndex(fstride, 1, u) && tw2 == TwiddleIndex(fstride, 2, u)
      invariant Fout[..] == Partial(before, off, 3, m, st.w, fstride, u)
    {
      Column3Read(st, before, off, m, fstride, u);
      TwiddleInRange(st.nfft, fstride, 3, m, 1, u);
      TwiddleInRange(st.nfft, fstride, 3, m, 2, u);
      ghost var now := Fout[..];
      Pass3(Fout, i0, m, st.twiddles[tw1], st.twiddles[tw2], epi3);
      assert forall i :: 0 <= i < |now| ==> now[i] == Partial(before, off, 3, m, st.w, fstride, u)[i];
      Column3Done(st, before, off, m, fstride, u, Fout[..]);
      tw1 := tw1 + fstride;
      tw2 := tw2 + fstride * 2;
      i0, k := i0 + 1, k - 1;
      u := u + 1;
    }
    EverythingReplaced(before, off, 3, m, st.w, fstride);
  }

  // ----- Radix 4

  /** What column u holds when the loop reaches it. */
  lemma Column4Read(st: State, before: seq<Complex>, off: nat, m: nat, s: nat, u: nat)
    requires u < m && off + 4 * m <= |before|
    ensures var now := Partial(before, off, 4, m, st.w, s, u);
      var Y := before[off..off + 4 * m];
      && now[off + u] == At(Y, u)
      && Mul(now[off + m + u], st.w(TwiddleIndex(s, 1, u))) == Twiddled(Y, m, st.w, s, u, 1)
      && Mul(now[off + 2 * m + u], st.w(TwiddleIndex(s, 2, u))) == Twiddled(Y, m, st.w, s, u, 2)
      && Mul(now[off + 3 * m + u], st.w(TwiddleIndex(s, 3, u))) == Twiddled(Y, m, st.w, s, u, 3)
  {
    hide Mul, ButterflyBin, Partial;
    ColumnUntouched(before, off, 4, m, st.w, s, u, 0);
    ColumnUntouched(before, off, 4, m, st.w, s, u, 1);
    ColumnUntouched(before, off, 4, m, st.w, s, u, 2);
    ColumnUntouched(before, off, 4, m, st.w, s, u, 3);
  }

  /** Its outputs, and nothing else, complete the column. */
  lemma Column4Done(st: State, before: seq<Complex>, off: nat, m: nat, s: nat, u: nat, next: seq<Complex>)
    requires off + 4 * m <= |before| == |next| && Stage(st.w, st.nfft, st.inverse, 4, m, s, u)
    requires forall i | 0 <= i < |next|
      && i != off + u && i != off + m + u && i != off + 2 * m + u && i != off + 3 * m + u ::
      next[i] == Partial(before, off, 4, m, st.w, s, u)[i]
    requires var Y := before[off..off + 4 * m];
      var b0 := At(Y, u);
      var b1 := Twiddled(Y, m, st.w, s, u, 1);
      var b2 := Twiddled(Y, m, st.w, s, u, 2);
      var b3 := Twiddled(Y, m, st.w, s, u, 3);
      var turned := QuarterOf(st.inverse, Sub(b1, b3));
      && next[off + u] == Add(Add(b0, b2), Add(b1, b3))
      && next[off + m + u] == Add(Sub(b0, b2), turned)
      && next[off + 2 * m + u] == Sub(Add(b0, b2), Add(b1, b3))
      && next[off + 3 * m + u] == Sub(Sub(b0, b2), turned)
    ensures next == Partial(before, off, 4, m, st.w, s, u + 1)
  {
    hide Mul, Add, Sub, QuarterOf, ButterflyBin, Twiddled, Partial, PutColumn, RootsOfUnity;
    var now := Partial(before, off, 4, m, st.w, s, u);
    var vals := [next[off + u], next[off + m + u], next[off + 2 * m + u], next[off + 3 * m + u]];
    Radix4(st.w, st.nfft, st.inverse, before[off..off + 4 * m], m, s, u);
    assert IsEntry(off, m, u, 0, off + u);
    assert IsEntry(off, m, u, 1, off + m + u);
    assert IsEntry(off, m, u, 2, off + 2 * m + u);
    assert IsEntry(off, m, u, 3, off + 3 * m + u);
    PutEntries(now, off, 4, m, u, vals, next);
    ColumnCompleted(before, off, 4, m, st.w, s, u, vals);
  }

  lemma QuarterSteps(a: Complex, d: Complex)
    ensures Complex(a.re - d.im, a.im + d.re) == Add(a, QuarterOf(true, d)) == Sub(a, QuarterOf(false, d))
    ensures Complex(a.re + d.im, a.im - d.re) == Sub(a, QuarterOf(true, d)) == Add(a, QuarterOf(false, d))
  {}

  /** One pass of the loop of `kf_bfly4`. */
  method Pass4(Fout: array<Complex>, i0: nat, m: nat, tw1: Complex, tw2: Complex, tw3: Complex, inverse: bool)
    requires m > 0 && i0 + 3 * m < Fout.Length
    modifies Fout
    ensures var b0, b1 := old(Fout[i0]), Mul(old(Fout[i0 + m]), tw1);
      var b2, b3 := Mul(old(Fout[i0 + 2 * m]), tw2), Mul(old(Fout[i0 + 3 * m]), tw3);
      && Fout[i0] == Add(Add(b0, b2), Add(b1, b3))
      && Fout[i0 + m] == Add(Sub(b0, b2), QuarterOf(inverse, Sub(b1, b3)))
      && Fout[i0 + 2 * m] == Sub(Add(b0, b2), Add(b1, b3))
      && Fout[i0 + 3 * m] == Sub(Sub(b0, b2), QuarterOf(inverse, Sub(b1, b3)))
    ensures forall i :: 0 <= i < Fout.Length && i != i0 && i != i0 + m && i != i0 + 2 * m && i != i0 + 3 * m ==>
      Fout[i] == old(Fout[i])
  {
    hide Mul, Add, Sub, QuarterOf;
    var m2, m3 := 2 * m, 3 * m;
    var scratch0 := Mul(Fout[i0 + m], tw1);
    var scratch1 := Mul(Fout[i0 + m2], tw2);
    var scratch2 := Mul(Fout[i0 + m3], tw3);

    var scratch5 := Sub(Fout[i0], scratch1);
    Fout[i0] := Add(Fout[i0], scratch1);
    var scratch3 := Add(scratch0, scratch2);
    var scratch4 := Sub(scratch0, scratch2);
    Fout[i0 + m2] := Sub(Fout[i0], scratch3);
    Fout[i0] := Add(Fout[i0], scratch3);

    QuarterSteps(scratch5, scratch4);
    if inverse {
      Fout[i0 + m] := Complex(scratch5.re - scratch4.im, scratch5.im + scratch4.re);
      Fout[i0 + m3] := Complex(scratch5.re + scratch4.im, scratch5.im - scratch4.re);
    } else {
      Fout[i0 + m] := Complex(scratch5.re + scratch4.im, scratch5.im - scratch4.re);
      Fout[i0 + m3] := Complex(scratch5.re - scratch4.im, scratch5.im + scratch4.re);
    }
  }

  /** The same pass in the C++ class, where a sign takes the place of the branch. */
  method ClassPass4(Fout: array<Complex>, k: nat, m: nat, tw1: Complex, tw2: Complex, tw3: Complex, inverse: bool)
    requires m > 0 && k + 3 * m < Fout.Length
    modifies Fout
    ensures var b0, b1 := old(Fout[k]), Mul(old(Fout[k + m]), tw1);
      var b2, b3 := Mul(old(Fout[k + 2 * m]), tw2), Mul(old(Fout[k + 3 * m]), tw3);
      && Fout[k] == Add(Add(b0, b2), Add(b1, b3))
      && Fout[k + m] == Add(Sub(b0, b2), QuarterOf(inverse, Sub(b1, b3)))
      && Fout[k + 2 * m] == Sub(Add(b0, b2), Add(b1, b3))
      && Fout[k + 3 * m] == Sub(Sub(b0, b2), QuarterOf(inverse, Sub(b1, b3)))
    ensures forall i :: 0 <= i < Fout.Length && i != k && i != k + m && i != k + 2 * m && i != k + 3 * m ==>
      Fout[i] == old(Fout[i])
  {
    hide Mul, Add, Sub, QuarterOf;
    var negativeIfInverse := (if inverse then 1.0 else 0.0) * -2.0 + 1.0;
    var scratch0 := Mul(Fout[k + m], tw1);
    var scratch1 := Mul(Fout[k + 2 * m], tw2);
    var scratch2 := Mul(Fout[k + 3 * m], tw3);
    var scratch5 := Sub(Fout[k], scratch1);

    Fout[k] := Add(Fout[k], scratch1);
    var scratch3 := Add(scratch0, scratch2);
    var scratch4 := Sub(scratch0, scratch2);
    SignedQuarter(inverse, scratch4, negativeIfInverse);
    scratch4 := Complex(scratch4.im * negativeIfInverse, -scratch4.re * negativeIfInverse);

    Fout[k + 2 * m] := Sub(Fout[k], scratch3);
    Fout[k] := Add(Fout[k], scratch3);
    Fout[k + m] := Add(scratch5, scratch4);
    Fout[k + 3 * m] := Sub(scratch5, scratch4);
  }

  lemma SignedQuarter(inverse: bool, d: Complex, sign: real)
    requires sign == if inverse then -1.0 else 1.0
    ensures Complex(d.im * sign, -d.re * sign) == QuarterOf(inverse, d)
  {
    if inverse {
      assert Times(d.im, sign) == Times(d.im, -1.0) && Times(-d.re, sign) == Times(-d.re, -1.0);
    } else {
      assert Times(d.im, sign) == Times(d.im, 1.0) && Times(-d.re, sign) == Times(-d.re, 1.0);
    }
  }

  /** The loop's pass over column u. */
  method Column4(Fout: array<Complex>, i0: nat, tw1: nat, tw2: nat, tw3: nat, fstride: nat, st: State, m: nat,
                 ghost off: nat, ghost u: nat, ghost before: seq<Complex>)
    requires Ready(Fout, off, fstride, st, m, 4) && u < m && i0 == off + u
    requires tw1 == TwiddleIndex(fstride, 1, u) && tw2 == TwiddleIndex(fstride, 2, u)
    requires tw3 == TwiddleIndex(fstride, 3, u)
    requires |before| == Fout.Length && Fout[..] == Partial(before, off, 4, m, st.w, fstride, u)
    modifies Fout
    ensures Fout[..] == Partial(before, off, 4, m, st.w, fstride, u + 1)
  {
    hide TwiddleIndex, Mul, Add, Sub, QuarterOf, Partial, Twiddled, RootsOfUnity;
    Column4Read(st, before, off, m, fstride, u);
    TwiddleInRange(st.nfft, fstride, 4, m, 1, u);
    TwiddleInRange(st.nfft, fstride, 4, m, 2, u);
    TwiddleInRange(st.nfft, fstride, 4, m, 3, u);
    ghost var now := Fout[..];
    Pass4(Fout, i0, m, st.twiddles[tw1], st.twiddles[tw2], st.twiddles[tw3], st.inverse);
    assert forall i :: 0 <= i < |now| ==> now[i] == Partial(before, off, 4, m, st.w, fstride, u)[i];
    Column4Done(st, before, off, m, fstride, u, Fout[..]);
  }

  method Bfly4(Fout: array<Complex>, off: nat, fstride: nat, st: State, m: nat)
    requires Ready(Fout, off, fstride, st, m, 4)
    modifies Fout
    ensures Fout[..] == Recombined(old(Fout[..]), off, 4, m, st.w, fstride)
  {
    FirstIndex(fstride);
    hide TwiddleIndex, Mul, Add, Sub, QuarterOf, Partial, Recombined, Twiddled, RootsOfUnity;
    ghost var before := Fout[..];
    NothingReplaced(before, off, 4, m, st.w, fstride);
    var i0, tw1, tw2, tw3, k := off, 0, 0, 0, m;
    ghost var u := 0;
    while k != 0
      invariant 0 <= u <= m && k == m - u
      invariant i0 == off + u && tw1 == TwiddleIndex(fstride, 1, u)
      invariant tw2 == TwiddleIndex(fstride, 2, u) && tw3 == TwiddleIndex(fstride, 3, u)
      invariant Fout[..] == Partial(before, off, 4, m, st.w, fstride, u)
    {
      TwiddleInRange(st.nfft, fstride, 4, m, 1, u);
      TwiddleInRange(st.nfft, fstride, 4, m, 2, u);
      TwiddleInRange(st.nfft, fstride, 4, m, 3, u);
      Column4(Fout, i0, tw1, tw2, tw3, fstride, st, m, off, u, before);
      tw1 := tw1 + fstride;
      tw2 := tw2 + fstride * 2;
      tw3 := tw3 + fstride * 3;
      i0, k := i0 + 1, k - 1;
      u := u + 1;
    }
    EverythingReplaced(before, off, 4, m, st.w, fstride);
  }

  // ----- Radix 5

  /** What column u holds when the loop reaches it. */
  lemma Column5Read(st: State, before: seq<Complex>, off: nat, m: nat, s: nat, u: nat)
    requires u < m && off + 5 * m <= |before|
    ensures var now := Partial(before, off, 5, m, st.w, s, u);
      var Y := before[off..off + 5 * m];
      && now[off + u] == At(Y, u)
      && Mul(now[off + m + u], st.w(TwiddleIndex(s, 1, u))) == Twiddled(Y, m, st.w, s, u, 1)
      && Mul(now[off + 2 * m + u], st.w(TwiddleIndex(s, 2, u))) == Twiddled(Y, m, st.w, s, u, 2)
      && Mul(now[off + 3 * m + u], st.w(TwiddleIndex(s, 3, u))) == Twiddled(Y, m, st.w, s, u, 3)
      && Mul(now[off + 4 * m + u], st.w(TwiddleIndex(s, 4, u))) == Twiddled(Y, m, st.w, s, u, 4)
  {
    hide Mul, ButterflyBin, Partial;
    ColumnUntouched(before, off, 5, m, st.w, s, u, 0);
    ColumnUntouched(before, off, 5, m, st.w, s, u, 1);
    ColumnUntouched(before, off, 5, m, st.w, s, u, 2);
    ColumnUntouched(before, off, 5, m, st.w, s, u, 3);
    ColumnUntouched(before, off, 5, m, st.w, s, u, 4);
  }

  /** Its outputs, and nothing else, complete the column. */
  lemma Column5Done(st: State, before: seq<Complex>, off: nat, m: nat, s: nat, u: nat, next: seq<Complex>)
    requires off + 5 * m <= |before| == |next| && Stage(st.w, st.nfft, st.inverse, 5, m, s, u)
    requires forall i | 0 <= i < |next| && i != off + u
      && i != off + m + u && i != off + 2 * m + u && i != off + 3 * m + u && i != off + 4 * m + u ::
      next[i] == Partial(before, off, 5, m, st.w, s, u)[i]
    requires var Y := before[off..off + 5 * m];
      var b0 := At(Y, u);
      var b1 := Twiddled(Y, m, st.w, s, u, 1);
      var b2 := Twiddled(Y, m, st.w, s, u, 2);
      var b3 := Twiddled(Y, m, st.w, s, u, 3);
      var b4 := Twiddled(Y, m, st.w, s, u, 4);
      var ya, yb := st.w(s * m), st.w(2 * (s * m));
      && next[off + u] == Add(Add(Add(Add(b0, b1), b2), b3), b4)
      && next[off + m + u] == Fifth(b0, b1, b2, b3, b4, ya, yb)
      && next[off + 2 * m + u] == Fifth(b0, b1, b2, b3, b4, yb, Conj(ya))
      && next[off + 3 * m + u] == Fifth(b0, b1, b2, b3, b4, Conj(yb), ya)
      && next[off + 4 * m + u] == Fifth(b0, b1, b2, b3, b4, Conj(ya), Conj(yb))
    ensures next == Partial(before, off, 5, m, st.w, s, u + 1)
  {
    hide Mul, Add, Sub, Fifth, Conj, ButterflyBin, Twiddled, Partial, PutColumn, RootsOfUnity;
    var now := Partial(before, off, 5, m, st.w, s, u);
    var vals := [next[off + u], next[off + m + u], next[off + 2 * m + u], next[off + 3 * m + u], next[off + 4 * m + u]];
    Radix5(st.w, st.nfft, st.inverse, before[off..off + 5 * m], m, s, u);
    assert IsEntry(off, m, u, 0, off + u);
    assert IsEntry(off, m, u, 1, off + m + u);
    assert IsEntry(off, m, u, 2, off + 2 * m + u);
    assert IsEntry(off, m, u, 3, off + 3 * m + u);
    assert IsEntry(off, m, u, 4, off + 4 * m + u);
    PutEntries(now, off, 5, m, u, vals, next);
    ColumnCompleted(before, off, 5, m, st.w, s, u, vals);
  }

  /** scratch[12] of `kf_bfly5`. */
  function OddInner(s10: Complex, s9: Complex, ya: Complex, yb: Complex): Complex {
    Complex(-(s10.im * yb.im) + s9.im * ya.im, s10.re * yb.im - s9.re * ya.im)
  }

  lemma EvenConj(b0: Complex, s7: Complex, s8: Complex, x: Complex, y: Complex)
    ensures Even(b0, s7, s8, Conj(x), Conj(y)) == Even(b0, s7, s8, x, y)
    ensures Even(b0, s7, s8, x, Conj(y)) == Even(b0, s7, s8, x, y)
    ensures Even(b0, s7, s8, Conj(x), y) == Even(b0, s7, s8, x, y)
  {
    ConjParts(x);
    ConjParts(y);
    hide Conj, EvenOf;
  }

  lemma OddConj(s10: Complex, s9: Complex, ya: Complex, yb: Complex)
    ensures Odd(s10, s9, Conj(ya), Conj(yb)) == Neg(Odd(s10, s9, ya, yb))
    ensures OddInner(s10, s9, ya, yb) == Neg(Odd(s10, s9, yb, Conj(ya)))
    ensures OddInner(s10, s9, ya, yb) == Odd(s10, s9, Conj(yb), ya)
  {
    ConjParts(ya);
    ConjParts(yb);
    NegParts(Odd(s10, s9, ya, yb));
    NegParts(Odd(s10, s9, yb, Conj(ya)));
    TimesNegative(s10, ya.im);
    TimesNegative(s10, yb.im);
    TimesNegative(s9, ya.im);
    TimesNegative(s9, yb.im);
    hide Conj, Neg;
  }

  lemma TimesNegative(s: Complex, y: real)
    ensures s.re * -y == -(s.re * y) && s.im * -y == -(s.im * y)
  {}

  lemma SubNeg(a: Complex, b: Complex)
    ensures Sub(a, Neg(b)) == Add(a, b)
    ensures Add(a, Neg(b)) == Sub(a, b)
  {}

  lemma FifthSteps(b0: Complex, b1: Complex, b2: Complex, b3: Complex, b4: Complex, ya: Complex, yb: Complex)
    ensures var s7, s10, s8, s9 := Add(b1, b4), Sub(b1, b4), Add(b2, b3), Sub(b2, b3);
      var s5, s6 := Even(b0, s7, s8, ya, yb), Odd(s10, s9, ya, yb);
      var s11, s12 := Even(b0, s7, s8, yb, ya), OddInner(s10, s9, ya, yb);
      && Sub(s5, s6) == Fifth(b0, b1, b2, b3, b4, ya, yb)
      && Add(s5, s6) == Fifth(b0, b1, b2, b3, b4, Conj(ya), Conj(yb))
      && Add(s11, s12) == Fifth(b0, b1, b2, b3, b4, yb, Conj(ya))
      && Sub(s11, s12) == Fifth(b0, b1, b2, b3, b4, Conj(yb), ya)
  {
    hide Add, Sub, Neg, Conj, Even, Odd, OddInner;
    var s7, s10, s8, s9 := Add(b1, b4), Sub(b1, b4), Add(b2, b3), Sub(b2, b3);
    EvenConj(b0, s7, s8, ya, yb);
    EvenConj(b0, s7, s8, yb, ya);
    OddConj(s10, s9, ya, yb);
    SubNeg(Even(b0, s7, s8, ya, yb), Odd(s10, s9, ya, yb));
    SubNeg(Even(b0, s7, s8, yb, ya), Odd(s10, s9, yb, Conj(ya)));
  }

  lemma FifthTotal(b0: Complex, b1: Complex, b2: Complex, b3: Complex, b4: Complex)
    ensures var s7, s8 := Add(b1, b4), Add(b2, b3);
      Complex(b0.re + (s7.re + s8.re), b0.im + (s7.im + s8.im)) == Add(Add(Add(Add(b0, b1), b2), b3), b4)
  {}

  /** One pass of the loop of `kf_bfly5`. */
  method Pass5(Fout: array<Complex>, i0: nat, m: nat, tw1: Complex, tw2: Complex, tw3: Complex, tw4: Complex,
               ya: Complex, yb: Complex)
    requires m > 0 && i0 + 4 * m < Fout.Length
    modifies Fout
    ensures var b0, b1, b2 := old(Fout[i0]), Mul(old(Fout[i0 + m]), tw1), Mul(old(Fout[i0 + 2 * m]), tw2);
      var b3, b4 := Mul(old(Fout[i0 + 3 * m]), tw3), Mul(old(Fout[i0 + 4 * m]), tw4);
      && Fout[i0] == Add(Add(Add(Add(b0, b1), b2), b3), b4)
      && Fout[i0 + m] == Fifth(b0, b1, b2, b3, b4, ya, yb)
      && Fout[i0 + 2 * m] == Fifth(b0, b1, b2, b3, b4, yb, Conj(ya))
      && Fout[i0 + 3 * m] == Fifth(b0, b1, b2, b3, b4, Conj(yb), ya)
      && Fout[i0 + 4 * m] == Fifth(b0, b1, b2, b3, b4, Conj(ya), Conj(yb))
    ensures forall i | 0 <= i < Fout.Length
      && i != i0 && i != i0 + m && i != i0 + 2 * m && i != i0 + 3 * m && i != i0 + 4 * m ::
      Fout[i] == old(Fout[i])
  {
    hide Mul, Add, Sub, Conj, Even, Odd, OddInner, Fifth;
    var i1, i2, i3, i4 := i0 + m, i0 + 2 * m, i0 + 3 * m, i0 + 4 * m;
    var scratch0 := Fout[i0];
    var scratch1 := Mul(Fout[i1], tw1);
    var scratch2 := Mul(Fout[i2], tw2);
    var scratch3 := Mul(Fout[i3], tw3);
    var scratch4 := Mul(Fout[i4], tw4);

    var scratch7, scratch10 := Add(scratch1, scratch4), Sub(scratch1, scratch4);
    var scratch8, scratch9 := Add(scratch2, scratch3), Sub(scratch2, scratch3);
    FifthTotal(scratch0, scratch1, scratch2, scratch3, scratch4);
    FifthSteps(scratch0, scratch1, scratch2, scratch3, scratch4, ya, yb);

    Fout[i0] := Complex(Fout[i0].re + (scratch7.re + scratch8.re), Fout[i0].im + (scratch7.im + scratch8.im));

    var scratch5, scratch6 := Even(scratch0, scratch7, scratch8, ya, yb), Odd(scratch10, scratch9, ya, yb);
    Fout[i1] := Sub(scratch5, scratch6);
    Fout[i4] := Add(scratch5, scratch6);

    var scratch11, scratch12 := Even(scratch0, scratch7, scratch8, yb, ya), OddInner(scratch10, scratch9, ya, yb);
    Fout[i2] := Add(scratch11, scratch12);
    Fout[i3] := Sub(scratch11, scratch12);
  }

  /** The loop's pass over column u. */
  method Column5(Fout: array<Complex>, off: nat, fstride: nat, st: State, m: nat, u: nat, ya: Complex, yb: Complex,
                 ghost before: seq<Complex>)
    requires Ready(Fout, off, fstride, st, m, 5) && u < m
    requires ya == st.w(fstride * m) && yb == st.w(2 * (fstride * m))
    requires |before| == Fout.Length && Fout[..] == Partial(before, off, 5, m, st.w, fstride, u)
    modifies Fout
    ensures Fout[..] == Partial(before, off, 5, m, st.w, fstride, u + 1)
  {
    hide TwiddleIndex, Mul, Add, Sub, Conj, Fifth, Partial, Twiddled, RootsOfUnity;
    Column5Read(st, before, off, m, fstride, u);
    TwiddleInRange(st.nfft, fstride, 5, m, 1, u);
    TwiddleInRange(st.nfft, fstride, 5, m, 2, u);
    TwiddleInRange(st.nfft, fstride, 5, m, 3, u);
    TwiddleInRange(st.nfft, fstride, 5, m, 4, u);
    ghost var now := Fout[..];
    Pass5(Fout, off + u, m, st.twiddles[TwiddleIndex(fstride, 1, u)], st.twiddles[TwiddleIndex(fstride, 2, u)],
          st.twiddles[TwiddleIndex(fstride, 3, u)], st.twiddles[TwiddleIndex(fstride, 4, u)], ya, yb);
    assert forall i :: 0 <= i < |now| ==> now[i] == Partial(before, off, 5, m, st.w, fstride, u)[i];
    Column5Done(st, before, off, m, fstride, u, Fout[..]);
  }

  method Bfly5(Fout: array<Complex>, off: nat, fstride: nat, st: State, m: nat)
    requires Ready(Fout, off, fstride, st, m, 5)
    modifies Fout
    ensures Fout[..] == Recombined(old(Fout[..]), off, 5, m, st.w, fstride)
  {
    hide TwiddleIndex, Mul, Add, Sub, Conj, Fifth, Partial, Recombined, Twiddled, RootsOfUnity;
    ghost var before := Fout[..];
    NothingReplaced(before, off, 5, m, st.w, fstride);
    ConstantInRange(st.nfft, fstride, 5, m, 1);
    ConstantInRange(st.nfft, fstride, 5, m, 2);
    assert fstride * 1 * m == fstride * m && fstride * 2 * m == 2 * (fstride * m);
    var ya := st.twiddles[fstride * m];
    var yb := st.twiddles[fstride * 2 * m];
    for u := 0 to m
      invariant Fout[..] == Partial(before, off, 5, m, st.w, fstride, u)
    {
      Column5(Fout, off, fstride, st, m, u, ya, yb, before);
    }
    EverythingReplaced(before, off, 5, m, st.w, fstride);
  }

  // ----- Any other radix

  /** One conditional subtraction keeps the running index reduced. */
  lemma RunningIndex(n: nat, a: int, b: int)
    requires n > 0 && 0 <= b < n
    ensures (a + b) % n == if a % n + b >= n then a % n + b - n else a % n + b
  {
    var x, t := a % n + b, a / n;
    assert a + b == n * t + x by {
      assert a == n * t + a % n;
    }
    if x >= n {
      assert a + b == n * (t + 1) + (x - n);
      QuotientUnique(n, t + 1, x - n);
    } else {
      QuotientUnique(n, t, x);
    }
  }

  lemma QuotientUnique(n: nat, t: int, r: nat)
    requires r < n
    ensures (n * t + r) % n == r
  {
    var e := n * t + r;
    assert n * (e / n - t) == r - e % n by {
      assert e == n * (e / n) + e % n;
    }
    SmallMultiple(n, e / n - t);
  }

  /** The innermost loop of `kf_bfly_generic`: output k, accumulated at `at`. */
  method GenericOutput(Fout: array<Complex>, at: nat, scratch: array<Complex>, fstride: nat, st: State, p: nat,
                       k: nat, ghost f: int -> Complex)
    requires st.Valid() && st.nfft > 0 && Fout != st.twiddles && Fout != scratch
    requires at < Fout.Length && 0 < p == scratch.Length && fstride * k < st.nfft
    requires forall q :: 0 <= q < p ==> f(q) == Mul(scratch[q], st.w(fstride * q * k))
    modifies Fout
    ensures Fout[at] == Sum(p, f)
    ensures forall i :: 0 <= i < Fout.Length && i != at ==> Fout[i] == old(Fout[i])
  {
    hide Mul, RootsOfUnity;
    var twidx := 0;
    Fout[at] := scratch[0];
    FirstTerm(st, scratch[0], fstride, k, f);
    for q := 1 to p
      invariant Fout[at] == Sum(q, f)
      invariant forall i :: 0 <= i < Fout.Length && i != at ==> Fout[i] == old(Fout[i])
      invariant twidx == (fstride * (q - 1) * k) % st.nfft
    {
      assert fstride * q * k == fstride * (q - 1) * k + fstride * k;
      RunningIndex(st.nfft, fstride * (q - 1) * k, fstride * k);
      Reduced(st.w, st.nfft, st.inverse, fstride * q * k);
      twidx := twidx + fstride * k;
      if twidx >= st.nfft {
        twidx := twidx - st.nfft;
      }
      var t := Mul(scratch[q], st.twiddles[twidx]);
      Fout[at] := Add(Fout[at], t);
    }
  }

  lemma FirstTerm(st: State, b0: Complex, fstride: nat, k: nat, f: int -> Complex)
    requires RootsOfUnity(st.w, st.nfft, st.inverse)
    requires f(0) == Mul(b0, st.w(fstride * 0 * k))
    ensures Sum(1, f) == b0
    ensures (fstride * 0 * k) % st.nfft == 0
  {
    hide Mul;
    assert fstride * 0 * k == 0;
    MulByUnits(b0);
  }

  method BflyGeneric(Fout: array<Complex>, off: nat, fstride: nat, st: State, m: nat, p: nat)
    requires Ready(Fout, off, fstride, st, m, p)
    modifies Fout
    ensures Fout[..] == Recombined(old(Fout[..]), off, p, m, st.w, fstride)
  {
    hide Mul, Add, ButterflyBin, Partial, PutColumn, Recombined, RootsOfUnity;
    ghost var before := Fout[..];
    NothingReplaced(before, off, p, m, st.w, fstride);
    var scratch := new Complex[p];
    for u := 0 to m
      invariant Fout[..] == Partial(before, off, p, m, st.w, fstride, u)
    {
      GenericGather(Fout, off, m, p, u, scratch);
      GenericScatter(Fout, off, fstride, st, m, p, u, scratch, before);
    }
    EverythingReplaced(before, off, p, m, st.w, fstride);
  }

  /** The first inner loop: column u is copied into the scratch buffer. */
  method GenericGather(Fout: array<Complex>, off: nat, m: nat, p: nat, u: nat, scratch: array<Complex>)
    requires u < m && off + p * m <= Fout.Length && scratch.Length == p && scratch != Fout
    modifies scratch
    ensures forall q :: 0 <= q < p ==> Entry(Fout[..], off, m, u, q, scratch[q])
  {
    var k := u;
    for q1 := 0 to p
      invariant k == q1 * m + u
      invariant forall q :: 0 <= q < q1 ==> Entry(Fout[..], off, m, u, q, scratch[q])
    {
      InBlocks(p, m, q1, u);
      scratch[q1] := Fout[off + k];
      k := k + m;
      assert k == (q1 + 1) * m + u;
    }
  }

  /** The second inner loop: every entry of column u becomes its output. */
  method GenericScatter(Fout: array<Complex>, off: nat, fstride: nat, st: State, m: nat, p: nat, u: nat,
                        scratch: array<Complex>, ghost before: seq<Complex>)
    requires Ready(Fout, off, fstride, st, m, p) && u < m
    requires scratch.Length == p && scratch != Fout && scratch != st.twiddles && |before| == Fout.Length
    requires Fout[..] == Partial(before, off, p, m, st.w, fstride, u)
    requires forall q :: 0 <= q < p ==> Entry(Fout[..], off, m, u, q, scratch[q])
    modifies Fout
    ensures Fout[..] == Partial(before, off, p, m, st.w, fstride, u + 1)
  {
    hide Mul, Add, ButterflyBin, Partial, PutColumn, RootsOfUnity, WrittenEntries, Entry;
    ghost var now, Y := Fout[..], before[off..off + p * m];
    ghost var vals := seq(p, q => ButterflyBin(Y, p, m, st.w, fstride, q * m + u));
    ScratchHoldsColumn(st, before, off, fstride, m, p, u, scratch[..]);
    NothingWritten(now, off, m, u, vals);
    var k := u;
    for q1 := 0 to p
      invariant k == q1 * m + u
      invariant WrittenEntries(now, Fout[..], off, m, u, q1, vals)
    {
      InBlocks(p, m, q1, u);
      ghost var was := Fout[..];
      GenericEntry(Fout, off + k, scratch, fstride, st, m, p, u, q1, k, Y);
      OneMoreEntry(now, was, Fout[..], off, m, u, q1, vals);
      k := k + m;
      assert k == (q1 + 1) * m + u;
    }
    AllWritten(now, Fout[..], off, p, m, u, vals);
    ColumnCompleted(before, off, p, m, st.w, fstride, u, vals);
  }

  /** The first q1 entries of column u have their new values, and only those changed. */
  ghost predicate WrittenEntries(now: seq<Complex>, next: seq<Complex>, off: nat, m: nat, u: nat, q1: nat,
                                 vals: seq<Complex>) {
    && |next| == |now| && q1 <= |vals|
    && (forall q :: 0 <= q < q1 ==> Entry(next, off, m, u, q, vals[q]))
    && forall i :: 0 <= i < |now| && next[i] != now[i] ==> exists q :: 0 <= q < q1 && IsEntry(off, m, u, q, i)
  }

  lemma NothingWritten(now: seq<Complex>, off: nat, m: nat, u: nat, vals: seq<Complex>)
    ensures WrittenEntries(now, now, off, m, u, 0, vals)
  {}

  lemma OneMoreEntry(now: seq<Complex>, was: seq<Complex>, next: seq<Complex>, off: nat, m: nat, u: nat, q1: nat,
                     vals: seq<Complex>)
    requires WrittenEntries(now, was, off, m, u, q1, vals) && |next| == |was| && u < m && q1 < |vals|
    requires forall i :: 0 <= i < |was| && i != off + (q1 * m + u) ==> next[i] == was[i]
    requires off + (q1 * m + u) < |next| && next[off + (q1 * m + u)] == vals[q1]
    ensures WrittenEntries(now, next, off, m, u, q1 + 1, vals)
  {
    EarlierEntries(was, next, off, m, u, q1, vals);
    assert Entry(next, off, m, u, q1, vals[q1]);
    hide Entry;
    forall i | 0 <= i < |now| && next[i] != now[i]
      ensures exists q :: 0 <= q < q1 + 1 && IsEntry(off, m, u, q, i)
    {
      if i == off + (q1 * m + u) {
        assert IsEntry(off, m, u, q1, i);
      } else {
        var q :| 0 <= q < q1 && IsEntry(off, m, u, q, i);
      }
    }
  }

  lemma AllWritten(now: seq<Complex>, next: seq<Complex>, off: nat, p: nat, m: nat, u: nat, vals: seq<Complex>)
    requires u < m && off + p * m <= |now| && |vals| == p && WrittenEntries(now, next, off, m, u, p, vals)
    ensures next == PutColumn(now, off, p, m, u, vals)
  {
    hide Entry, PutColumn;
    PutEntries(now, off, p, m, u, vals, next);
  }

  /** Output q1 of column u. */
  method GenericEntry(Fout: array<Complex>, at: nat, scratch: array<Complex>, fstride: nat, st: State, m: nat,
                      p: nat, u: nat, ghost q1: nat, k: nat, ghost Y: seq<Complex>)
    requires st.Valid() && st.nfft > 0 && Fout != st.twiddles && Fout != scratch && scratch.Length == p
    requires at < Fout.Length && q1 < p && u < m && k == q1 * m + u && st.nfft == fstride * (p * m)
    requires forall q :: 0 <= q < p ==> scratch[q] == At(Y, q * m + u)
    modifies Fout
    ensures Fout[at] == ButterflyBin(Y, p, m, st.w, fstride, q1 * m + u)
    ensures forall i :: 0 <= i < Fout.Length && i != at ==> Fout[i] == old(Fout[i])
  {
    hide Mul, ButterflyBin, RootsOfUnity;
    InBlocks(p, m, q1, u);
    ProductMonotone(fstride, k, p * m);
    BinOfColumn(Y, p, m, st.w, fstride, u, q1);
    GenericOutput(Fout, at, scratch, fstride, st, p, k, ButterflyTerm(Y, m, st.w, fstride, u, k));
  }

  lemma ScratchHoldsColumn(st: State, before: seq<Complex>, off: nat, fstride: nat, m: nat, p: nat, u: nat,
                           scratch: seq<Complex>)
    requires u < m && off + p * m <= |before| && |scratch| == p
    requires forall q :: 0 <= q < p ==> Entry(Partial(before, off, p, m, st.w, fstride, u), off, m, u, q, scratch[q])
    ensures forall q :: 0 <= q < p ==> scratch[q] == At(before[off..off + p * m], q * m + u)
  {
    hide ButterflyBin, Partial;
    forall q | 0 <= q < p
      ensures scratch[q] == At(before[off..off + p * m], q * m + u)
    {
      ColumnUntouched(before, off, p, m, st.w, fstride, u, q);
      assert Entry(Partial(before, off, p, m, st.w, fstride, u), off, m, u, q, scratch[q]);
    }
  }

  lemma BinOfColumn(Y: seq<Complex>, p: nat, m: nat, w: int -> Complex, s: nat, u: nat, q: nat)
    requires u < m
    ensures ButterflyBin(Y, p, m, w, s, q * m + u) == Sum(p, ButterflyTerm(Y, m, w, s, u, q * m + u))
  {
    Residue(q, m, u);
  }

  /** Entries of one column written earlier survive a write to a later one. */
  lemma EarlierEntries(was: seq<Complex>, next: seq<Complex>, off: nat, m: nat, u: nat, q1: nat, vals: seq<Complex>)
    requires |was| == |next| && u < m && q1 <= |vals|
    requires forall q :: 0 <= q < q1 ==> Entry(was, off, m, u, q, vals[q])
    requires forall i :: 0 <= i < |was| && i != off + (q1 * m + u) ==> next[i] == was[i]
    ensures forall q :: 0 <= q < q1 ==> Entry(next, off, m, u, q, vals[q])
  {
    forall q | 0 <= q < q1
      ensures Entry(next, off, m, u, q, vals[q])
    {
      assert Entry(was, off, m, u, q, vals[q]);
      BlockBounds(q1, m, q);
    }
  }
}
