/** The recursive transform of `kiss_fft.c`: for every factor list that multiplies out, in place,
    strided, it computes the discrete Fourier transform. */
module Work {
  import opened ComplexNumbers
  import opened Twiddles
  import opened Transform
  import opened Recombination
  import opened Butterflies

  /** From position i the factor list holds p, m, p', m', ... with p * m == n, p' * m' == m and
      so on down to a remainder of 1. */
  ghost predicate Plan(factors: seq<int>, i: nat, n: nat)
    decreases |factors| - i
  {
    && i + 1 < |factors|
    && factors[i] > 0 && factors[i + 1] > 0
    && factors[i] * factors[i + 1] == n
    && (factors[i + 1] > 1 ==> Plan(factors, i + 2, factors[i + 1]))
  }

  /** `before` with the entries from `at` on overwritten by `part`. */
  ghost function Spliced(before: seq<Complex>, at: nat, part: seq<Complex>): (after: seq<Complex>)
    requires at + |part| <= |before|
    ensures |after| == |before|
    ensures forall i :: 0 <= i < |before| ==> after[i] == if at <= i < at + |part| then part[i - at] else before[i]
  {
    before[..at] + part + before[at + |part|..]
  }

  /** Nothing outside the n entries from `off` on has changed. */
  ghost predicate Kept(before: seq<Complex>, after: seq<Complex>, off: int, n: int) {
    |after| == |before| && forall i :: 0 <= i < |before| && !(off <= i < off + n) ==> after[i] == before[i]
  }

  lemma KeptFurther(before: seq<Complex>, now: seq<Complex>, after: seq<Complex>, off: int, n: int)
    requires Kept(before, now, off, n) && Kept(now, after, off, n)
    ensures Kept(before, after, off, n)
  {}

  lemma NothingChanged(buf: seq<Complex>, off: int, n: int)
    ensures Kept(buf, buf, off, n)
  {}

  /** The strided samples a call of `kf_work` reads. */
  ghost function Input(f: seq<Complex>, foff: int, fstride: int, inStride: int, n: nat): (x: seq<Complex>)
    ensures |x| == n
  {
    Samples(f, foff, fstride * inStride, n)
  }

  /** Block q of the output holds the transform of the inputs q, q + p, q + 2p, ... */
  ghost predicate BlockDone(buf: seq<Complex>, off: nat, x: seq<Complex>, p: nat, m: nat, w: int -> Complex, s: int,
                            q: nat)
    requires off + p * m <= |buf| && q < p
  {
    BlockBounds(p, m, q);
    buf[off + q * m..off + q * m + m] == Dft(Samples(x, q, p, m), w, s * p)
  }

  /** Decimating the samples of a stage gives the samples of the call for block q. */
  lemma DecimatedInput(f: seq<Complex>, foff: int, fstride: int, inStride: int, p: nat, m: nat, q: nat)
    requires q < p
    ensures Input(f, foff + q * (fstride * inStride), fstride * p, inStride, m)
         == Samples(Input(f, foff, fstride, inStride, p * m), q, p, m)
  {
    var step := fstride * inStride;
    var a := Input(f, foff + q * step, fstride * p, inStride, m);
    var b := Samples(Input(f, foff, fstride, inStride, p * m), q, p, m);
    forall r | 0 <= r < m
      ensures a[r] == b[r]
    {
      var j := q + r * p;
      assert 0 <= j < p * m by {
        BlockBounds(m, p, r);
      }
      assert (foff + q * step) + r * (fstride * p * inStride) == foff + j * step by {
        assert r * (fstride * p * inStride) == (r * p) * step;
        assert j * step == q * step + (r * p) * step;
      }
    }
  }

  /** The n samples from `foff` on, `step` apart in either direction, lie in a buffer. */
  ghost predicate Reads(len: nat, foff: int, step: int, n: int) {
    0 <= foff < len && 0 <= foff + (n - 1) * step < len
  }

  lemma ReadsBetween(len: nat, foff: int, step: int, n: int, j: int)
    requires Reads(len, foff, step, n) && 0 <= j < n
    ensures 0 <= foff + j * step < len
  {
    if step >= 0 {
      FactorMonotone(j, n - 1, step);
    } else {
      FactorMonotone(j, n - 1, -step);
      assert j * -step == -(j * step) && (n - 1) * -step == -((n - 1) * step);
    }
  }

  lemma FactorMonotone(a: int, b: int, c: int)
    requires 0 <= a <= b && c >= 0
    ensures 0 <= a * c <= b * c
  {}

  /** The call for block q stays inside the input. */
  lemma InputFits(len: nat, foff: int, fstride: nat, inStride: int, p: nat, m: nat, q: nat)
    requires q < p && m > 0 && Reads(len, foff, fstride * inStride, p * m)
    ensures Reads(len, foff + q * (fstride * inStride), fstride * p * inStride, m)
  {
    var step := fstride * inStride;
    var j := q + (m - 1) * p;
    BlocksBefore(p, m);
    hide Reads;
    ReadsBetween(len, foff, step, p * m, q);
    ReadsBetween(len, foff, step, p * m, j);
    LastOfBlock(q, m - 1, p, fstride, inStride);
    BothEnds(len, foff + q * step, fstride * p * inStride, m);
  }

  lemma BlocksBefore(p: int, m: int)
    requires p > 0 && m > 0
    ensures 0 <= (m - 1) * p == p * m - p
  {}

  lemma BothEnds(len: nat, foff: int, step: int, n: int)
    requires 0 <= foff < len && 0 <= foff + (n - 1) * step < len
    ensures Reads(len, foff, step, n)
  {}

  lemma LastOfBlock(q: int, t: int, p: int, fstride: int, inStride: int)
    ensures (q + t * p) * (fstride * inStride) == q * (fstride * inStride) + t * (fstride * p * inStride)
  {
    assert t * (fstride * p * inStride) == (t * p) * (fstride * inStride);
  }

  /** A transform of one sample is that sample. */
  lemma DftOfOne(x: seq<Complex>, w: int -> Complex, n: nat, inverse: bool, s: int)
    requires RootsOfUnity(w, n, inverse) && |x| == 1
    ensures Dft(x, w, s) == x
  {
    hide Mul;
    assert s * 0 * 0 == 0;
    MulByUnits(x[0]);
    SingleTerm(DftTerm(x, w, s, 0));
  }

  lemma SingleTerm(f: int -> Complex)
    ensures Sum(1, f) == f(0)
  {
    assert Sum(0, f) == ZERO;
  }

  /** Finishing block q leaves the other finished blocks finished. */
  lemma OtherBlocksKept(before: seq<Complex>, part: seq<Complex>, off: nat, x: seq<Complex>, p: nat, m: nat,
                        w: int -> Complex, s: int, q: nat, other: nat)
    requires off + p * m <= |before| && |part| == m && q < p && other < p && other != q
    requires BlockDone(before, off, x, p, m, w, s, other)
    ensures off + q * m + m <= |before|
    ensures BlockDone(Spliced(before, off + q * m, part), off, x, p, m, w, s, other)
  {
    hide Dft;
    BlockBounds(p, m, q);
    BlockBounds(p, m, other);
    if other < q {
      BlockBounds(q, m, other);
    } else {
      BlockBounds(other, m, q);
    }
    assert Spliced(before, off + q * m, part)[off + other * m..off + other * m + m]
        == before[off + other * m..off + other * m + m];
  }

  /** The blocks in `done` are blocks of this stage and hold their transforms. */
  ghost predicate Finished(buf: seq<Complex>, off: nat, x: seq<Complex>, p: nat, m: nat, w: int -> Complex, s: int,
                           done: set<nat>)
    requires off + p * m <= |buf|
  {
    forall q :: q in done ==> q < p && BlockDone(buf, off, x, p, m, w, s, q)
  }

  lemma BlockFinished(before: seq<Complex>, after: seq<Complex>, off: nat, x: seq<Complex>, p: nat, m: nat,
                      w: int -> Complex, s: int, done: set<nat>, q: nat)
    requires off + p * m <= |before| && q < p && q !in done
    requires off + q * m + m <= |before|
    requires after == Spliced(before, off + q * m, Dft(Samples(x, q, p, m), w, s * p))
    requires Finished(before, off, x, p, m, w, s, done)
    ensures Finished(after, off, x, p, m, w, s, done + {q})
    ensures Kept(before, after, off, p * m)
  {
    hide Dft;
    BlockBounds(p, m, q);
    forall other | other in done
      ensures other < p && BlockDone(after, off, x, p, m, w, s, other)
    {
      OtherBlocksKept(before, Dft(Samples(x, q, p, m), w, s * p), off, x, p, m, w, s, q, other);
    }
  }

  lemma SliceOfSlice(buf: seq<Complex>, off: nat, n: nat, a: nat, b: nat)
    requires off + n <= |buf| && a <= b <= n
    ensures buf[off..off + n][a..b] == buf[off + a..off + b]
  {
    var l, r := buf[off..off + n][a..b], buf[off + a..off + b];
    forall i | 0 <= i < b - a
      ensures l[i] == r[i]
    {}
  }

  lemma NothingFinished(buf: seq<Complex>, off: nat, x: seq<Complex>, p: nat, m: nat, w: int -> Complex, s: int)
    requires off + p * m <= |buf|
    ensures Finished(buf, off, x, p, m, w, s, {})
  {}

  /** Once every block is done, the butterfly completes the transform. */
  lemma StageCompletes(st: State, buf: seq<Complex>, off: nat, x: seq<Complex>, p: nat, m: nat, s: nat, done: set<nat>)
    requires RootsOfUnity(st.w, st.nfft, st.inverse) && m > 0
    requires off + p * m <= |buf| && |x| == p * m && st.nfft == s * (p * m)
    requires Finished(buf, off, x, p, m, st.w, s, done) && forall q: nat :: q < p ==> q in done
    ensures Recombined(buf, off, p, m, st.w, s) == Spliced(buf, off, Dft(x, st.w, s))
  {
    hide Dft, Butterfly;
    var Y := buf[off..off + p * m];
    forall q | 0 <= q < p
      ensures SubTransform(Y, x, p, m, st.w, s, q)
    {
      BlockBounds(p, m, q);
      assert q in done && BlockDone(buf, off, x, p, m, st.w, s, q);
      SliceOfSlice(buf, off, p * m, q * m, q * m + m);
    }
    DecimationInTime(st.w, st.nfft, st.inverse, x, Y, p, m, s);
  }

  /** With a remainder of 1 the transform of block q is the sample itself. */
  lemma CopiedSample(st: State, f: seq<Complex>, foff: int, fstride: nat, inStride: int, p: nat, q: nat)
    requires RootsOfUnity(st.w, st.nfft, st.inverse) && q < p
    requires Reads(|f|, foff, fstride * inStride, p)
    ensures 0 <= foff + q * (fstride * inStride) < |f|
    ensures Dft(Samples(Input(f, foff, fstride, inStride, p), q, p, 1), st.w, fstride * p)
         == [f[foff + q * (fstride * inStride)]]
  {
    hide Dft, RootsOfUnity;
    ReadsBetween(|f|, foff, fstride * inStride, p, q);
    var one := Samples(Input(f, foff, fstride, inStride, p), q, p, 1);
    DftOfOne(one, st.w, st.nfft, st.inverse, fstride * p);
    assert q + 0 * p == q;
    assert one[0] == f[foff + q * (fstride * inStride)];
  }

  /** The radices with a butterfly of their own. */
  predicate OwnButterfly(p: int) {
    2 <= p <= 5
  }

  /** The switch over the radix that ends every call; `generic` tells which butterfly it took. */
  method Recombine(Fout: array<Complex>, off: nat, fstride: nat, st: State, m: nat, p: nat)
      returns (ghost generic: bool)
    requires Ready(Fout, off, fstride, st, m, p)
    modifies Fout
    ensures Fout[..] == Recombined(old(Fout[..]), off, p, m, st.w, fstride)
    ensures generic <==> !OwnButterfly(p)
  {
    generic := false;
    if p == 2 {
      Bfly2(Fout, off, fstride, st, m);
    } else if p == 3 {
      Bfly3(Fout, off, fstride, st, m);
    } else if p == 4 {
      Bfly4(Fout, off, fstride, st, m);
    } else if p == 5 {
      Bfly5(Fout, off, fstride, st, m);
    } else {
      BflyGeneric(Fout, off, fstride, st, m, p);
      generic := true;
    }
  }

  /** The butterfly the switch picks and the generic one leave the same buffer behind. */
  method RecombineBothWays(Fout: array<Complex>, copy: array<Complex>, off: nat, fstride: nat, st: State, m: nat,
                           p: nat)
    requires Ready(Fout, off, fstride, st, m, p) && Ready(copy, off, fstride, st, m, p)
    requires Fout != copy && Fout[..] == copy[..]
    modifies Fout, copy
    ensures Fout[..] == copy[..]
  {
    hide Recombined, RootsOfUnity;
    ghost var generic := Recombine(Fout, off, fstride, st, m, p);
    BflyGeneric(copy, off, fstride, st, m, p);
  }

  /** What a call of `kf_work` for n points demands of its caller. */
  ghost predicate Callable(Fout: array<Complex>, off: nat, f: array<Complex>, foff: int, fstride: nat, inStride: int,
                           fi: nat, st: State, n: nat)
    reads st.factors, st.twiddles
  {
    && st.Valid() && Fout != f && Fout != st.twiddles
    && Plan(st.factors[..], fi, n) && n > 0
    && fstride * n == st.nfft
    && off + n <= Fout.Length
    && Reads(f.Length, foff, fstride * inStride, n)
  }

  /** Some stage from position i of the list on has a radix without a butterfly of its own. */
  ghost predicate UsesGeneric(factors: seq<int>, i: nat)
    decreases |factors| - i
  {
    i + 1 < |factors| && (!OwnButterfly(factors[i]) || (factors[i + 1] > 1 && UsesGeneric(factors, i + 2)))
  }

  lemma MulAssociates(a: int, b: int, c: int)
    ensures a * b * c == a * (b * c)
  {}

  lemma CallableBounds(Fout: array<Complex>, off: nat, f: array<Complex>, foff: int, fstride: nat, inStride: int,
                       fi: nat, st: State, n: nat)
    requires Callable(Fout, off, f, foff, fstride, inStride, fi, st, n)
    ensures fi + 1 < st.factors.Length && Fout != f && off + n <= Fout.Length
    ensures st.factors[fi] * st.factors[fi + 1] == n
  {}

  /** Where block q starts in the output, where its samples start in the input, and their stride. */
  function BlockStart(off: int, m: int, q: int): int {
    off + q * m
  }

  function BlockSource(foff: int, fstride: int, inStride: int, q: int): int {
    foff + q * (fstride * inStride)
  }

  function BlockStride(fstride: int, p: int): int {
    fstride * p
  }

  /** What a call of `kf_work` for block q needs, from what its caller has. */
  lemma SubCallable(Fout: array<Complex>, off: nat, f: array<Complex>, foff: int, fstride: nat, inStride: int,
                    fi: nat, st: State, n: nat, p: nat, m: nat, q: nat)
    requires Callable(Fout, off, f, foff, fstride, inStride, fi, st, n)
    requires p == st.factors[fi] && m == st.factors[fi + 1] && m > 1 && q < p
    ensures BlockStart(off, m, q) >= 0 && BlockStart(off, m, q) + m <= Fout.Length && BlockStride(fstride, p) >= 0
    ensures Callable(Fout, BlockStart(off, m, q), f, BlockSource(foff, fstride, inStride, q), BlockStride(fstride, p),
                     inStride, fi + 2, st, m)
  {
    hide RootsOfUnity;
    BlockBounds(p, m, q);
    InputFits(f.Length, foff, fstride, inStride, p, m, q);
    MulAssociates(fstride, p, m);
  }

  /** The loop for a remainder of 1: the samples are copied, which transforms each by itself. */
  method CopyInputs(Fout: array<Complex>, off: nat, f: array<Complex>, foff: int, fstride: nat, inStride: int,
                    st: State, p: nat) returns (ghost done: set<nat>)
    requires st.Valid() && Fout != f && Fout != st.twiddles && p > 0
    requires off + p * 1 <= Fout.Length && Reads(f.Length, foff, fstride * inStride, p)
    modifies Fout
    ensures Finished(Fout[..], off, Input(f[..], foff, fstride, inStride, p), p, 1, st.w, fstride, done)
    ensures forall b: nat :: b in done <==> b < p
    ensures Kept(old(Fout[..]), Fout[..], off, p)
  {
    hide Dft, RootsOfUnity, Input, Finished;
    ghost var x := Input(f[..], foff, fstride, inStride, p);
    NothingFinished(Fout[..], off, x, p, 1, st.w, fstride);
    done := {};
    var at, src, q := off, foff, 0;
    while q < p
      invariant 0 <= q <= p && at == off + q && src == foff + q * (fstride * inStride)
      invariant forall b: nat :: b in done <==> b < q
      invariant Finished(Fout[..], off, x, p, 1, st.w, fstride, done)
      invariant Kept(old(Fout[..]), Fout[..], off, p)
    {
      ghost var was := Fout[..];
      CopiedSample(st, f[..], foff, fstride, inStride, p, q);
      Fout[at] := f[src];
      assert Fout[..] == Spliced(was, off + q * 1, [f[src]]);
      BlockFinished(was, Fout[..], off, x, p, 1, st.w, fstride, done, q);
      done := done + {q};
      assert (q + 1) * (fstride * inStride) == q * (fstride * inStride) + fstride * inStride;
      at, src, q := at + 1, src + fstride * inStride, q + 1;
    }
  }

  /** The recursive call for block q: it writes that block, and only reads f. */
  method WorkUnit(Fout: array<Complex>, off: nat, f: array<Complex>, foff: int, fstride: nat, inStride: int,
                  fi: nat, st: State, ghost n: nat, p: nat, m: nat, q: nat, ghost done: set<nat>)
      returns (ghost generic: bool)
    requires Callable(Fout, off, f, foff, fstride, inStride, fi, st, n)
    requires p == st.factors[fi] && m == st.factors[fi + 1] && m > 1 && q < p && q !in done && n == p * m
    requires Finished(Fout[..], off, Input(f[..], foff, fstride, inStride, n), p, m, st.w, fstride, done)
    modifies Fout
    ensures Finished(Fout[..], off, Input(f[..], foff, fstride, inStride, n), p, m, st.w, fstride, done + {q})
    ensures Kept(old(Fout[..]), Fout[..], off, n)
    ensures generic <==> UsesGeneric(st.factors[..], fi + 2)
    decreases st.factors.Length - fi, 0
  {
    CallableBounds(Fout, off, f, foff, fstride, inStride, fi, st, n);
    SubCallable(Fout, off, f, foff, fstride, inStride, fi, st, n, p, m, q);
    hide *;
    generic := KfWork(Fout, BlockStart(off, m, q), f, BlockSource(foff, fstride, inStride, q), BlockStride(fstride, p),
                      inStride, fi + 2, st, m);
    UnitFinished(old(Fout[..]), Fout[..], off, f[..], foff, fstride, inStride, p, m, st.w, done, q);
  }

  /** The same in terms of what the recursive call computed. */
  lemma UnitFinished(before: seq<Complex>, after: seq<Complex>, off: nat, f: seq<Complex>, foff: int, fstride: int,
                     inStride: int, p: nat, m: nat, w: int -> Complex, done: set<nat>, q: nat)
    requires off + p * m <= |before| && q < p && q !in done
    requires BlockStart(off, m, q) >= 0 && BlockStart(off, m, q) + m <= |before|
    requires var x := Input(f, BlockSource(foff, fstride, inStride, q), BlockStride(fstride, p), inStride, m);
      after == Spliced(before, BlockStart(off, m, q), Dft(x, w, BlockStride(fstride, p)))
    requires Finished(before, off, Input(f, foff, fstride, inStride, p * m), p, m, w, fstride, done)
    ensures Finished(after, off, Input(f, foff, fstride, inStride, p * m), p, m, w, fstride, done + {q})
    ensures Kept(before, after, off, p * m)
  {
    hide Dft, Input, Finished, Spliced, Samples;
    var x := Input(f, foff, fstride, inStride, p * m);
    assert Input(f, foff + q * (fstride * inStride), fstride * p, inStride, m) == Samples(x, q, p, m) by {
      DecimatedInput(f, foff, fstride, inStride, p, m, q);
    }
    BlockFinished(before, after, off, x, p, m, w, fstride, done, q);
  }

  /** Fout[off..off + n) becomes the transform of n strided samples of f; nothing else changes.
      `generic` tells whether this call or one below it came to the generic butterfly. */
  method KfWork(Fout: array<Complex>, off: nat, f: array<Complex>, foff: int, fstride: nat, inStride: int,
                fi: nat, st: State, ghost n: nat)
      returns (ghost generic: bool)
    requires Callable(Fout, off, f, foff, fstride, inStride, fi, st, n)
    modifies Fout
    ensures Fout[..] == Spliced(old(Fout[..]), off, Dft(Input(f[..], foff, fstride, inStride, n), st.w, fstride))
    ensures generic <==> UsesGeneric(st.factors[..], fi)
    decreases st.factors.Length - fi, 1
  {
    assert st.nfft > 0;
    var p, m := st.factors[fi], st.factors[fi + 1];
    StageOf(st.factors[..], fi);
    hide Dft, Recombined, RootsOfUnity, Input, Finished, Plan, UsesGeneric, Reads, Kept;
    ghost var start, x := Fout[..], Input(f[..], foff, fstride, inStride, n);
    ghost var done: set<nat> := {};
    ghost var below := false;
    if m == 1 {
      done := CopyInputs(Fout, off, f, foff, fstride, inStride, st, p);
    } else {
      NothingFinished(start, off, x, p, m, st.w, fstride);
      NothingChanged(start, off, n);
      var q := 0;
      while q < p
        invariant 0 <= q <= p
        invariant forall b: nat :: b in done <==> b < q
        invariant Finished(Fout[..], off, x, p, m, st.w, fstride, done)
        invariant Kept(start, Fout[..], off, n)
        invariant below <==> q > 0 && UsesGeneric(st.factors[..], fi + 2)
      {
        ghost var was := Fout[..];
        below := WorkUnit(Fout, off, f, foff, fstride, inStride, fi, st, n, p, m, q, done);
        KeptFurther(start, was, Fout[..], off, n);
        done := done + {q};
        q := q + 1;
      }
    }
    generic := FinishStage(Fout, off, fstride, st, m, p, x, done, start);
    generic := generic || below;
  }

  lemma StageOf(factors: seq<int>, i: nat)
    requires i + 1 < |factors|
    ensures UsesGeneric(factors, i)
      <==> !OwnButterfly(factors[i]) || (factors[i + 1] > 1 && UsesGeneric(factors, i + 2))
  {}

  /** The butterfly over finished blocks. */
  method FinishStage(Fout: array<Complex>, off: nat, fstride: nat, st: State, m: nat, p: nat,
                     ghost x: seq<Complex>, ghost done: set<nat>, ghost before: seq<Complex>)
      returns (ghost generic: bool)
    requires Ready(Fout, off, fstride, st, m, p) && |before| == Fout.Length && |x| == p * m
    requires Finished(Fout[..], off, x, p, m, st.w, fstride, done) && forall q: nat :: q < p ==> q in done
    requires Kept(before, Fout[..], off, p * m)
    modifies Fout
    ensures Fout[..] == Spliced(before, off, Dft(x, st.w, fstride))
    ensures generic <==> !OwnButterfly(p)
  {
    hide Dft, Recombined, Finished;
    StageCompletes(st, Fout[..], off, x, p, m, fstride, done);
    generic := Recombine(Fout, off, fstride, st, m, p);
  }

  // ----- The OpenMP branch

  /** The p work units. */
  function Below(p: nat): (units: set<nat>)
    ensures forall k: nat :: k in units <==> k < p
  {
    if p == 0 then {} else Below(p - 1) + {p - 1}
  }

  /** The top-level call with its p sub-transforms run one after another in any order: the order
      in which threads happen to take them. Each writes its own block and only reads f. */
  method KfWorkAnyOrder(Fout: array<Complex>, off: nat, f: array<Complex>, foff: int, fstride: nat, inStride: int,
                        fi: nat, st: State, ghost n: nat)
    requires Callable(Fout, off, f, foff, fstride, inStride, fi, st, n)
    requires st.factors[fi + 1] > 1
    modifies Fout
    ensures Fout[..] == Spliced(old(Fout[..]), off, Dft(Input(f[..], foff, fstride, inStride, n), st.w, fstride))
  {
    assert st.nfft > 0;
    var p, m := st.factors[fi], st.factors[fi + 1];
    hide Dft, Recombined, RootsOfUnity, Input, Finished, Plan, Reads, Kept;
    ghost var start, x := Fout[..], Input(f[..], foff, fstride, inStride, n);
    ghost var done: set<nat> := {};
    NothingFinished(start, off, x, p, m, st.w, fstride);
    NothingChanged(start, off, n);
    var todo := Below(p);
    while todo != {}
      invariant forall k: nat :: k < p ==> k in todo || k in done
      invariant forall k: nat :: k in todo ==> k < p && k !in done
      invariant Finished(Fout[..], off, x, p, m, st.w, fstride, done)
      invariant Kept(start, Fout[..], off, n)
      decreases todo
    {
      var k :| k in todo;
      ghost var was := Fout[..];
      ghost var generic := WorkUnit(Fout, off, f, foff, fstride, inStride, fi, st, n, p, m, k, done);
      KeptFurther(start, was, Fout[..], off, n);
      done := done + {k};
      todo := todo - {k};
    }
    ghost var generic := FinishStage(Fout, off, fstride, st, m, p, x, done, start);
  }
}
