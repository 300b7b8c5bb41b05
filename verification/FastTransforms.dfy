/** A transform of a fast size never comes to the generic butterfly, and one of any other size does. */
module FastTransforms {
  import opened Basics
  import opened ComplexNumbers
  import opened Twiddles
  import opened Transform
  import opened Factorization
  import opened Factorisers
  import Butterflies
  import opened Work
  import opened Api
  import opened FastSizes

  /** Some radix has no butterfly of its own. */
  ghost predicate SomeLarge(rs: seq<nat>) {
    exists i :: 0 <= i < |rs| && !OwnButterfly(rs[i])
  }

  lemma LargeFirst(p: nat, rest: seq<nat>)
    ensures SomeLarge([p] + rest) <==> !OwnButterfly(p) || SomeLarge(rest)
  {
    var rs := [p] + rest;
    assert rs[0] == p;
    if SomeLarge(rest) {
      var i :| 0 <= i < |rest| && !OwnButterfly(rest[i]);
      assert rs[i + 1] == rest[i];
    }
    if SomeLarge(rs) && OwnButterfly(p) {
      var i :| 0 <= i < |rs| && !OwnButterfly(rs[i]);
      assert rest[i - 1] == rs[i];
    }
  }

  /** Following a written list the recursion meets exactly its radices. */
  lemma {:induction false} GenericStages(buf: seq<int>, i: nat, n: nat)
    requires n >= 2 && Written(buf, i, n)
    ensures UsesGeneric(buf, i) <==> SomeLarge(Radices(n))
    decreases n
  {
    FirstWritten(buf, i, n);
    var p, m := Radix(n), n / Radix(n);
    hide SomeLarge, OwnButterfly, Written, Radix;
    LargeFirst(p, Radices(m));
    if m > 1 {
      hide Radices;
      GenericStages(buf, i + 2, m);
    } else {
      NoneLarge();
    }
  }

  lemma NoneLarge()
    ensures !SomeLarge([])
  {}

  lemma SmallOrLarge(rs: seq<nat>)
    ensures SmallRadices(rs) <==> !SomeLarge(rs)
  {}

  /** With the factoriser's list some stage is generic exactly when the size is not fast, or is 1. */
  lemma GenericExactly(buf: seq<int>, n: nat)
    requires n >= 1 && |FactorList(n)| <= |buf| && buf[..|FactorList(n)|] == FactorList(n)
    ensures UsesGeneric(buf, 0) <==> n == 1 || !Fast(n)
  {
    if n == 1 {
      assert buf[..2][0] == 1 && buf[..2][1] == 1;
    } else {
      FastRadices(n);
      SmallOrLarge(Radices(n));
      hide Fast, SmallRadices, SomeLarge, UsesGeneric, Radices, Stages;
      assert buf[0..0 + |Stages(n)|] == buf[..|FactorList(n)|];
      GenericStages(buf, 0, n);
    }
  }

  /** A transform of a configured size, and which butterflies it came to: `generic` is set by the
      switch over the radix wherever it falls through to the generic one. */
  method TransformOfSize(cfg: Butterflies.State, cexp: int -> Complex, fin: array<Complex>, fout: array<Complex>)
      returns (ghost generic: bool)
    requires ConfiguredFor(cfg, cfg.nfft, cfg.inverse, cexp) && fout != cfg.twiddles
    requires cfg.nfft <= fout.Length && cfg.nfft <= fin.Length
    modifies fout
    ensures fout[..cfg.nfft] == Dft(old(fin[..cfg.nfft]), Table(cexp, cfg.inverse), 1)
    ensures generic <==> cfg.nfft == 1 || !Fast(cfg.nfft)
  {
    hide Dft, Fast, UsesGeneric, Configured;
    GenericExactly(cfg.factors[..], cfg.nfft);
    generic := KissFft(cfg, fin, fout);
  }

  /** So padding to the next fast size keeps the generic butterfly out, from two points on. */
  method NextSizeIsNotGeneric(n0: nat, buf: array<int>) returns (n: nat)
    requires n0 >= 2 && buf.Length == 2 * MAXFACTORS
    modifies buf
    ensures n >= n0 && Fast(n) && forall k :: n0 <= k < n ==> !Fast(k)
    ensures n <= INT_MAX ==> !UsesGeneric(buf[..], 0)
  {
    hide Fast, UsesGeneric, FactorList;
    n := NextFastSize(n0);
    if n <= INT_MAX {
      KfFactor(n, buf);
      GenericExactly(buf[..], n);
    }
  }
}
