/** What one butterfly stage leaves in the output buffer, column by column.

    A stage of radix p works on p blocks of length m; column u holds the entries u, m + u,
    2m + u, ... Every butterfly of the library replaces one column after another. */
module Recombination {
  import opened Basics
  import opened ComplexNumbers
  import opened Twiddles
  import opened Transform

  /** `before` with the p * m entries from `off` replaced by their butterfly. */
  ghost function Recombined(before: seq<Complex>, off: nat, p: nat, m: nat, w: int -> Complex,
                            s: int): (after: seq<Complex>)
    requires m > 0 && off + p * m <= |before|
    ensures |after| == |before|
  {
    before[..off] + Butterfly(before[off..off + p * m], p, m, w, s) + before[off + p * m..]
  }

  /** The same when only the columns below u have been replaced. */
  ghost function Partial(before: seq<Complex>, off: nat, p: nat, m: nat, w: int -> Complex, s: int,
                         u: nat): (now: seq<Complex>)
    requires m > 0 && off + p * m <= |before|
    ensures |now| == |before|
  {
    seq(|before|, i requires 0 <= i < |before| =>
      if off <= i < off + p * m && (i - off) % m < u
      then ButterflyBin(before[off..off + p * m], p, m, w, s, i - off)
      else before[i])
  }

  lemma NothingReplaced(before: seq<Complex>, off: nat, p: nat, m: nat, w: int -> Complex, s: int)
    requires m > 0 && off + p * m <= |before|
    ensures Partial(before, off, p, m, w, s, 0) == before
  {
    hide ButterflyBin;
  }

  lemma EverythingReplaced(before: seq<Complex>, off: nat, p: nat, m: nat, w: int -> Complex, s: int)
    requires m > 0 && off + p * m <= |before|
    ensures Partial(before, off, p, m, w, s, m) == Recombined(before, off, p, m, w, s)
  {
    hide ButterflyBin;
  }

  lemma Residue(q: nat, m: nat, u: nat)
    requires u < m
    ensures (q * m + u) % m == u && (q * m + u) / m == q
  {
    var i := q * m + u;
    var d := i / m - q;
    assert m * d == u - i % m by {
      assert i == m * (i / m) + i % m;
    }
    SmallMultiple(m, d);
  }

  /** Entry q of column u lies in the blocks. */
  lemma InBlocks(p: nat, m: nat, q: nat, u: nat)
    requires q < p && u < m
    ensures 0 <= q * m + u < p * m
    ensures (q * m + u) % m == u
  {
    BlockBounds(p, m, q);
    Residue(q, m, u);
  }

  /** `now` with column u replaced by the given values. */
  ghost function PutColumn(now: seq<Complex>, off: nat, p: nat, m: nat, u: nat,
                           vals: seq<Complex>): (next: seq<Complex>)
    requires u < m && off + p * m <= |now| && |vals| == p
    ensures |next| == |now|
  {
    seq(|now|, i requires 0 <= i < |now| =>
      if off <= i < off + p * m && (i - off) % m == u
      then (BlockIndex(p, m, i - off); vals[(i - off) / m])
      else now[i])
  }

  lemma BlockIndex(p: nat, m: nat, i: nat)
    requires m > 0 && i < p * m
    ensures 0 <= i / m < p && i == i / m * m + i % m
  {
    assert i == m * (i / m) + i % m;
    if i / m >= p {
      MulMonotone(m, p, i / m);
      assert false;
    }
  }

  lemma MulMonotone(m: nat, a: nat, b: nat)
    requires a <= b
    ensures m * a <= m * b
  {}

  /** Replacing column u by its outputs completes one more column. */
  lemma ColumnCompleted(before: seq<Complex>, off: nat, p: nat, m: nat, w: int -> Complex, s: int, u: nat,
                        vals: seq<Complex>)
    requires u < m && off + p * m <= |before| && |vals| == p
    requires forall q :: 0 <= q < p ==> vals[q] == ButterflyBin(before[off..off + p * m], p, m, w, s, q * m + u)
    ensures PutColumn(Partial(before, off, p, m, w, s, u), off, p, m, u, vals)
         == Partial(before, off, p, m, w, s, u + 1)
  {
    hide ButterflyBin;
    var now, after := Partial(before, off, p, m, w, s, u), Partial(before, off, p, m, w, s, u + 1);
    var next := PutColumn(now, off, p, m, u, vals);
    forall i | 0 <= i < |before|
      ensures next[i] == after[i]
    {
      if off <= i < off + p * m && (i - off) % m == u {
        BlockIndex(p, m, i - off);
        assert next[i] == vals[(i - off) / m];
      }
    }
  }

  /** Columns from u on still hold what they held before the stage. */
  lemma ColumnUntouched(before: seq<Complex>, off: nat, p: nat, m: nat, w: int -> Complex, s: int, u: nat, q: nat)
    requires u < m && off + p * m <= |before| && q < p
    ensures 0 <= q * m + u < p * m
    ensures Partial(before, off, p, m, w, s, u)[off + (q * m + u)] == At(before[off..off + p * m], q * m + u)
  {
    hide ButterflyBin;
    InBlocks(p, m, q, u);
  }

  ghost predicate Entry(next: seq<Complex>, off: nat, m: nat, u: nat, q: nat, v: Complex) {
    0 <= off + q * m + u < |next| && next[off + q * m + u] == v
  }

  lemma PutEntries(now: seq<Complex>, off: nat, p: nat, m: nat, u: nat, vals: seq<Complex>, next: seq<Complex>)
    requires u < m && off + p * m <= |now| == |next| && |vals| == p
    requires forall q :: 0 <= q < p ==> Entry(next, off, m, u, q, vals[q])
    requires forall i :: 0 <= i < |now| && next[i] != now[i] ==> exists q :: 0 <= q < p && IsEntry(off, m, u, q, i)
    ensures next == PutColumn(now, off, p, m, u, vals)
  {
    var put := PutColumn(now, off, p, m, u, vals);
    forall i | 0 <= i < |now|
      ensures next[i] == put[i]
    {
      if off <= i < off + p * m && (i - off) % m == u {
        BlockIndex(p, m, i - off);
        assert Entry(next, off, m, u, (i - off) / m, vals[(i - off) / m]);
      } else if next[i] != now[i] {
        var q :| 0 <= q < p && IsEntry(off, m, u, q, i);
        InBlocks(p, m, q, u);
        assert false;
      }
    }
  }

  ghost predicate IsEntry(off: nat, m: nat, u: nat, q: nat, i: int) {
    i == off + q * m + u
  }

  // ----- One column of a butterfly, for the radices with code of their own

  /** Entry q of column u after multiplication by its twiddle factor. */
  function Twiddled(Y: seq<Complex>, m: int, w: int -> Complex, s: int, u: int, q: int): Complex {
    Mul(At(Y, q * m + u), w(s * q * u))
  }

  function ColumnTerm(Y: seq<Complex>, m: int, w: int -> Complex, s: int, u: int, t: int): int -> Complex {
    q => Mul(Twiddled(Y, m, w, s, u, q), w(s * m * (q * t)))
  }

  /** Output t of a column is a transform of length p of the twiddled column. */
  lemma ColumnBin(w: int -> Complex, n: nat, inverse: bool, Y: seq<Complex>, p: nat, m: nat, s: nat, u: nat, t: nat)
    requires RootsOfUnity(w, n, inverse) && u < m
    ensures ButterflyBin(Y, p, m, w, s, t * m + u) == Sum(p, ColumnTerm(Y, m, w, s, u, t))
  {
    hide Mul, Sum;
    Residue(t, m, u);
    var k := t * m + u;
    var B := ButterflyTerm(Y, m, w, s, u, k);
    forall q | 0 <= q < p
      ensures B(q) == ColumnTerm(Y, m, w, s, u, t)(q)
    {
      assert s * q * k == s * q * u + s * m * (q * t);
      Plus(w, n, inverse, s * q * u, s * m * (q * t));
      MulAssoc(At(Y, q * m + u), w(s * q * u), w(s * m * (q * t)));
    }
    SumExt(p, B, ColumnTerm(Y, m, w, s, u, t));
  }

  lemma FirstTwiddled(w: int -> Complex, n: nat, inverse: bool, Y: seq<Complex>, m: nat, s: nat, u: nat)
    requires RootsOfUnity(w, n, inverse)
    ensures Twiddled(Y, m, w, s, u, 0) == At(Y, u)
  {
    hide Mul;
    assert s * 0 * u == 0;
    MulByUnits(At(Y, u));
  }

  lemma SumOfTwo(f: int -> Complex)
    ensures Sum(2, f) == Add(f(0), f(1))
  {
    assert Sum(1, f) == f(0);
  }

  lemma SumOfThree(f: int -> Complex)
    ensures Sum(3, f) == Add(Add(f(0), f(1)), f(2))
  {
    SumOfTwo(f);
  }

  lemma SumOfFour(f: int -> Complex)
    ensures Sum(4, f) == Add(Add(Add(f(0), f(1)), f(2)), f(3))
  {
    SumOfThree(f);
  }

  lemma SumOfFive(f: int -> Complex)
    ensures Sum(5, f) == Add(Add(Add(Add(f(0), f(1)), f(2)), f(3)), f(4))
  {
    SumOfFour(f);
  }
}
