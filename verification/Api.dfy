/** The library's entry points: allocation of a configuration, and the transform itself. */
module Api {
  import opened Basics
  import opened ComplexNumbers
  import opened Twiddles
  import opened Transform
  import opened Factorization
  import opened Factorisers
  import opened Butterflies
  import opened Work

  /** What `kiss_fft_alloc` tabulates: cexp(j) stands for exp(2*pi*i*j/nfft), and the phase
      changes sign unless the transform is an inverse one. */
  function Table(cexp: int -> Complex, inverse: bool): int -> Complex {
    e => cexp(if inverse then e else -e)
  }

  lemma TableIsValid(cexp: int -> Complex, n: nat, inverse: bool)
    requires RootsOfUnity(cexp, n, true)
    ensures RootsOfUnity(Table(cexp, inverse), n, inverse)
  {
    var w := Table(cexp, inverse);
    TableAddsUp(cexp, n, inverse);
    Inverses(cexp, n);
    forall d | 0 < d < n
      ensures NotOne(w, d)
    {
      NegativeNotOne(cexp, n, d);
    }
    hide AddsUp, Mirrors, NotOne;
  }

  lemma TableAddsUp(cexp: int -> Complex, n: nat, inverse: bool)
    requires RootsOfUnity(cexp, n, true)
    ensures forall a, b :: AddsUp(Table(cexp, inverse), a, b)
    ensures forall a :: Mirrors(Table(cexp, inverse), a)
  {
    hide Mul, Conj;
    var w := Table(cexp, inverse);
    forall a, b
      ensures AddsUp(w, a, b)
    {
      assert AddsUp(cexp, a, b) && AddsUp(cexp, -a, -b);
      assert -(a + b) == -a + -b;
    }
    forall a
      ensures Mirrors(w, a)
    {
      assert Mirrors(cexp, a) && Mirrors(cexp, -a);
    }
  }

  lemma NegativeNotOne(cexp: int -> Complex, n: int, d: int)
    requires n > 0 && RootsOfUnity(cexp, n, true) && 0 < d < n
    ensures cexp(d) != ONE && cexp(-d) != ONE
  {
    hide Mul, Conj;
    assert NotOne(cexp, d) && NotOne(cexp, n - d);
    Periodic(cexp, n, true, -d, 1);
    assert -d + n * 1 == n - d;
  }

  /** The values at the negative exponents the definition names. */
  lemma Inverses(cexp: int -> Complex, n: int)
    requires n > 0 && RootsOfUnity(cexp, n, true)
    ensures cexp(-0) == ONE && cexp(-n) == ONE
    ensures n % 4 == 0 ==> cexp(-(n / 4)) == Neg(I)
  {
    Periodic(cexp, n, true, 0, -1);
    assert 0 + n * -1 == -n;
    Minus(cexp, n, true, n / 4);
  }

  /** A factor list in the buffer is a plan for its size. */
  lemma {:induction false} StagesArePlan(buf: seq<int>, i: nat, n: nat)
    requires n >= 2 && Written(buf, i, n)
    ensures Plan(buf, i, n)
    decreases n
  {
    FirstWritten(buf, i, n);
    var m := n / Radix(n);
    hide Written, Radix;
    if m > 1 {
      StagesArePlan(buf, i + 2, m);
    }
  }

  lemma FactorListIsPlan(buf: seq<int>, n: nat)
    requires n >= 1 && |FactorList(n)| <= |buf| && buf[..|FactorList(n)|] == FactorList(n)
    ensures Plan(buf, 0, n)
  {
    if n >= 2 {
      assert buf[0..0 + |Stages(n)|] == buf[..|FactorList(n)|];
      StagesArePlan(buf, 0, n);
    } else {
      assert buf[..2][0] == 1 && buf[..2][1] == 1;
    }
  }

  /** A configuration ready for use. */
  ghost predicate Configured(st: State)
    reads st.factors, st.twiddles
  {
    st.Valid() && st.nfft > 0 && Plan(st.factors[..], 0, st.nfft)
  }

  /** The part of `kiss_fft_alloc` that fills a configuration. */
  method Configure(nfft: nat, inverse: bool, cexp: int -> Complex) returns (st: State)
    requires 1 <= nfft <= INT_MAX && RootsOfUnity(cexp, nfft, true)
    ensures fresh(st) && fresh(st.factors) && fresh(st.twiddles)
    ensures ConfiguredFor(st, nfft, inverse, cexp)
  {
    hide RootsOfUnity;
    var twiddles := new Complex[nfft];
    for i := 0 to nfft
      invariant forall j :: 0 <= j < i ==> twiddles[j] == Table(cexp, inverse)(j)
    {
      var phase := -i;
      if inverse {
        phase := phase * -1;
      }
      twiddles[i] := cexp(phase);
    }
    var factors := new int[2 * MAXFACTORS];
    KfFactor(nfft, factors);
    FactorListIsPlan(factors[..], nfft);
    TableIsValid(cexp, nfft, inverse);
    st := new State(nfft, inverse, factors, twiddles, Table(cexp, inverse));
  }

  /** A configuration for this size and direction, with the factoriser's list. */
  ghost predicate ConfiguredFor(st: State, nfft: nat, inverse: bool, cexp: int -> Complex)
    reads st.factors, st.twiddles
  {
    && Configured(st) && nfft > 0
    && st.nfft == nfft && st.inverse == inverse && st.w == Table(cexp, inverse)
    && |FactorList(nfft)| <= st.factors.Length == 2 * MAXFACTORS
    && st.factors[..|FactorList(nfft)|] == FactorList(nfft)
  }

  /** sizeof of the state, which holds one twiddle factor already, and of a complex number. */
  datatype Sizes = Sizes(state: nat, cpx: nat)

  function MemNeeded(nfft: nat, sizes: Sizes): int {
    sizes.state + sizes.cpx * (nfft - 1)
  }

  /** The state holds the first twiddle factor; every further point needs one more. */
  lemma MemGrows(nfft: nat, sizes: Sizes)
    ensures MemNeeded(1, sizes) == sizes.state
    ensures MemNeeded(nfft + 1, sizes) == MemNeeded(nfft, sizes) + sizes.cpx
  {
    assert sizes.cpx * nfft == sizes.cpx * (nfft - 1) + sizes.cpx;
  }

  /** Without a length (`lenmem` null) memory comes from malloc, which may fail; with one, the
      caller's block is used if there is one and it is long enough, and the length comes back as
      what is needed. A null result stands for no configuration. */
  method KissFftAlloc(nfft: nat, inverse: bool, cexp: int -> Complex, sizes: Sizes, mallocOk: bool, mem: bool,
                      lenmem: Option<int>)
      returns (st: State?, needed: Option<int>)
    requires 1 <= nfft <= INT_MAX && RootsOfUnity(cexp, nfft, true)
    ensures st != null <==>
      match lenmem case None => mallocOk case Some(len) => mem && len >= MemNeeded(nfft, sizes)
    ensures needed == if lenmem.Some? then Some(MemNeeded(nfft, sizes)) else None
    ensures st != null ==> fresh(st) && fresh(st.factors) && fresh(st.twiddles)
    ensures st != null ==> ConfiguredFor(st, nfft, inverse, cexp)
  {
    hide RootsOfUnity, ConfiguredFor;
    var memneeded := sizes.state + sizes.cpx * (nfft - 1);
    st, needed := null, None;
    var found := false;
    match lenmem {
      case None => found := mallocOk;
      case Some(len) =>
        if mem && len >= memneeded {
          found := true;
        }
        needed := Some(memneeded);
    }
    if found {
      st := Configure(nfft, inverse, cexp);
    }
  }

  /** memcpy of the first n entries. */
  method CopyFront(dst: array<Complex>, src: array<Complex>, n: nat)
    requires dst != src && n <= dst.Length && n <= src.Length
    modifies dst
    ensures dst[..] == Spliced(old(dst[..]), 0, src[..n])
  {
    for i := 0 to n
      invariant forall j :: 0 <= j < dst.Length ==> dst[j] == if j < i then src[j] else old(dst[j])
    {
      dst[i] := src[i];
    }
  }

  /** fout[0..nfft) becomes the transform of every inStride-th sample of fin from `at` on, backwards
      for a negative stride, also when input and output are the same. */
  method KissFftStride(st: State, fin: array<Complex>, at: nat, fout: array<Complex>, inStride: int)
      returns (ghost generic: bool)
    requires Configured(st) && fout != st.twiddles
    requires st.nfft <= fout.Length && Reads(fin.Length, at, inStride, st.nfft)
    requires fin == fout ==> at == 0
    modifies fout
    ensures fout[..] == Spliced(old(fout[..]), 0, Dft(Samples(old(fin[..]), at, inStride, st.nfft), st.w, 1))
    ensures generic <==> UsesGeneric(st.factors[..], 0)
  {
    hide Dft, RootsOfUnity, Plan, Samples, UsesGeneric, Reads;
    assert 1 * inStride == inStride;
    if fin == fout {
      var tmpbuf := new Complex[st.nfft];
      generic := KfWork(tmpbuf, 0, fin, at, 1, inStride, 0, st, st.nfft);
      assert tmpbuf[..st.nfft] == Dft(Samples(old(fin[..]), at, inStride, st.nfft), st.w, 1);
      CopyFront(fout, tmpbuf, st.nfft);
    } else {
      generic := KfWork(fout, 0, fin, at, 1, inStride, 0, st, st.nfft);
    }
  }

  method KissFft(cfg: State, fin: array<Complex>, fout: array<Complex>) returns (ghost generic: bool)
    requires Configured(cfg) && fout != cfg.twiddles
    requires cfg.nfft <= fout.Length && cfg.nfft <= fin.Length
    modifies fout
    ensures fout[..cfg.nfft] == Dft(old(fin[..cfg.nfft]), cfg.w, 1)
    ensures fout[cfg.nfft..] == old(fout[cfg.nfft..])
    ensures generic <==> UsesGeneric(cfg.factors[..], 0)
  {
    hide Dft, RootsOfUnity, Plan, UsesGeneric;
    ghost var x := fin[..cfg.nfft];
    assert Samples(fin[..], 0, 1, cfg.nfft) == x;
    generic := KissFftStride(cfg, fin, 0, fout, 1);
  }

  /** A forward transform followed by the inverse one multiplies every sample by the size. */
  lemma InverseOfForward(cexp: int -> Complex, n: nat, x: seq<Complex>)
    requires RootsOfUnity(cexp, n, true) && |x| == n
    ensures Dft(Dft(x, Table(cexp, false), 1), Table(cexp, true), 1) == Scaled(x, n as real)
    ensures Dft(Dft(x, Table(cexp, true), 1), Table(cexp, false), 1) == Scaled(x, n as real)
  {
    hide Dft, RootsOfUnity;
    TableIsValid(cexp, n, false);
    TableIsValid(cexp, n, true);
    OppositeTransformInverts(Table(cexp, false), Table(cexp, true), n, false, x);
    OppositeTransformInverts(Table(cexp, true), Table(cexp, false), n, true, x);
  }

  /** The same through the library's own calls, with one configuration for each direction. */
  method ForwardThenInverse(forward: State, inverse: State, cexp: int -> Complex, samples: array<Complex>,
                            spectrum: array<Complex>, back: array<Complex>)
    requires RootsOfUnity(cexp, forward.nfft, true) && forward.nfft == inverse.nfft
    requires ConfiguredFor(forward, forward.nfft, false, cexp) && ConfiguredFor(inverse, inverse.nfft, true, cexp)
    requires forward.nfft <= samples.Length && forward.nfft <= spectrum.Length && forward.nfft <= back.Length
    requires spectrum != forward.twiddles && spectrum != inverse.twiddles && back != inverse.twiddles
    modifies spectrum, back
    ensures back[..forward.nfft] == Scaled(old(samples[..forward.nfft]), forward.nfft as real)
  {
    hide Dft, Scaled, RootsOfUnity, Configured;
    ghost var g := KissFft(forward, samples, spectrum);
    g := KissFft(inverse, spectrum, back);
    InverseOfForward(cexp, forward.nfft, old(samples[..forward.nfft]));
  }
}
