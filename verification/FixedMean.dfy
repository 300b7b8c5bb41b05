/** What the scaled sum of the fixed-point build is close to: bin 0 of a transform that divides by its
    radices is the mean of the samples, up to the rounding of each stage. */
module FixedMean {
  import opened Basics
  import opened Factorization
  import opened FixedPoint

  /** x(at) + x(at + step) + ..., n samples. */
  function SampleSum(x: int -> int, at: int, step: int, n: nat): int {
    if n == 0 then 0 else SampleSum(x, at, step, n - 1) + x(at + (n - 1) * step)
  }

  lemma {:induction false} SampleSumConcat(x: int -> int, at: int, step: int, a: nat, b: nat)
    ensures SampleSum(x, at, step, a + b) == SampleSum(x, at, step, a) + SampleSum(x, at + a * step, step, b)
  {
    if b > 0 {
      SampleSumConcat(x, at, step, a, b - 1);
      assert at + (a + b - 1) * step == at + a * step + (b - 1) * step;
    }
  }

  /** The sums of the first k residues modulo p, m samples each. */
  function ResidueSums(x: int -> int, at: int, step: int, p: int, m: nat, k: nat): int {
    if k == 0 then 0 else ResidueSums(x, at, step, p, m, k - 1) + SampleSum(x, at + (k - 1) * step, step * p, m)
  }

  lemma {:induction false} ResidueSumsRow(x: int -> int, at: int, step: int, p: int, m: nat, k: nat)
    ensures ResidueSums(x, at, step, p, m + 1, k)
         == ResidueSums(x, at, step, p, m, k) + SampleSum(x, at + m * (step * p), step, k)
  {
    if k > 0 {
      ResidueSumsRow(x, at, step, p, m, k - 1);
      assert at + (k - 1) * step + m * (step * p) == at + m * (step * p) + (k - 1) * step;
    }
  }

  lemma {:induction false} NoRows(x: int -> int, at: int, step: int, p: int, k: nat)
    ensures ResidueSums(x, at, step, p, 0, k) == 0
  {
    if k > 0 {
      NoRows(x, at, step, p, k - 1);
    }
  }

  /** A sum over p * m samples is the sum over its residues modulo p. */
  lemma {:induction false} SumByResidues(x: int -> int, at: int, step: int, p: nat, m: nat)
    ensures p * m >= 0 && SampleSum(x, at, step, p * m) == ResidueSums(x, at, step, p, m, p)
  {
    if m == 0 {
      NoRows(x, at, step, p, p);
    } else {
      hide SampleSum, ResidueSums;
      SumByResidues(x, at, step, p, m - 1);
      RowsBefore(p, m, step);
      SampleSumConcat(x, at, step, p * (m - 1), p);
      ResidueSumsRow(x, at, step, p, m - 1, p);
    }
  }

  lemma RowsBefore(p: nat, m: nat, step: int)
    requires m > 0
    ensures 0 <= p * (m - 1) && p * m == p * (m - 1) + p && p * (m - 1) * step == (m - 1) * (step * p)
  {}

  // ----- The rounding adds up

  function SumOf(rs: seq<int>): int {
    if rs == [] then 0 else rs[0] + SumOf(rs[1..])
  }

  function ProductOf(rs: seq<int>): int {
    if rs == [] then 1 else rs[0] * ProductOf(rs[1..])
  }

  /** a is within 3/2 times b of c. */
  ghost predicate Within(a: int, b: int, c: int) {
    -3 * b <= 2 * (a - c) <= 3 * b
  }

  lemma WithinThrough(a: int, e: int, c: int, f: int, g: int)
    requires Within(a, e, c) && Within(c, f, g)
    ensures Within(a, e + f, g)
  {}

  lemma WithinSum(a: int, e: int, c: int, d: int, f: int, g: int)
    requires Within(a, e, c) && Within(d, f, g)
    ensures Within(a + d, e + f, c + g)
  {}

  lemma WithinScaled(m: int, a: int, b: int, c: int)
    requires m > 0 && Within(a, b, c)
    ensures Within(m * a, m * b, m * c)
  {
    ScaleBound(2 * (a - c), 3 * b, m);
    ScaledParts(m, a, b, c);
  }

  lemma ScaledParts(m: int, a: int, b: int, c: int)
    ensures 2 * (a - c) * m == 2 * (m * a - m * c) && 3 * b * m == 3 * (m * b) && -(3 * b) * m == -3 * (m * b)
  {}

  /** One term: the error of the division, and the error its bin came with. */
  lemma TermNear(m: int, p: int, r: int, d: int, b: int, sum: int)
    requires m > 0 && Within(p * d, p, b) && Within(m * b, m * r, sum)
    ensures Within(p * m * d, m * (p + r), sum)
  {
    WithinScaled(m, p * d, p, b);
    TermParts(m, p, r, d);
    hide Within;
    WithinThrough(m * (p * d), m * p, m * b, m * r, sum);
  }

  lemma TermParts(m: int, p: int, r: int, d: int)
    ensures m * (p * d) == p * m * d && m * p + m * r == m * (p + r)
  {}

  lemma {:induction false} ProductPositive(rs: seq<int>)
    requires forall i :: 0 <= i < |rs| ==> rs[i] >= 2
    ensures ProductOf(rs) > 0
  {
    if rs != [] {
      ProductPositive(rs[1..]);
      assert rs[0] * ProductOf(rs[1..]) > 0;
    }
  }

  /** The first k terms of a stage against the first k residues. */
  lemma {:induction false} PartNear(terms: seq<int>, p: int, m: nat, r: int, x: int -> int, at: int, step: int, k: nat)
    requires k <= |terms|
    requires forall q :: 0 <= q < |terms| ==>
      Within(p * m * terms[q], m * (p + r), SampleSum(x, at + q * step, step * p, m))
    ensures Within(p * m * Total(terms[..k]), k * (m * (p + r)), ResidueSums(x, at, step, p, m, k))
  {
    hide SampleSum;
    if k == 0 {
      assert p * m * 0 == 0 && 0 * (m * (p + r)) == 0;
    } else {
      PartNear(terms, p, m, r, x, at, step, k - 1);
      assert terms[..k][..k - 1] == terms[..k - 1];
      hide Within;
      var before, last := Total(terms[..k - 1]), terms[k - 1];
      WithinSum(p * m * before, (k - 1) * (m * (p + r)), ResidueSums(x, at, step, p, m, k - 1),
                p * m * last, m * (p + r), SampleSum(x, at + (k - 1) * step, step * p, m));
      OneMoreTerm(p * m, before, last, k, m * (p + r));
    }
  }

  lemma OneMoreTerm(n: int, a: int, b: int, k: int, e: int)
    ensures n * a + n * b == n * (a + b) && (k - 1) * e + e == k * e
  {}

  /** Bin 0 of a transform by the given radices is within 3/2 times their sum of the mean of the samples
      read (both sides times the number of samples). */
  lemma {:induction false} BinZeroNearMean(h: int, x: int -> int, at: int, step: int, radices: seq<int>)
    requires h > 0 && forall i :: 0 <= i < |radices| ==> radices[i] >= 2
    requires forall j :: InRange(x(j), SampMax(h))
    ensures ProductOf(radices) > 0
    ensures var n := ProductOf(radices);
      Within(n * BinZero(h, x, at, step, radices), n * SumOf(radices), SampleSum(x, at, step, n))
    decreases |radices|
  {
    hide Within, BinZero, Total, SampleSum, ResidueSums, InRange, SampMax, ScaledTerm;
    ProductPositive(radices);
    if radices == [] {
      OneSampleNear(h, x, at, step);
    } else {
      var p, rest, terms := radices[0], radices[1..], StageTerms(h, x, at, step, radices);
      ProductPositive(rest);
      var m, r := ProductOf(rest), SumOf(rest);
      forall q | 0 <= q < p
        ensures Within(p * m * terms[q], m * (p + r), SampleSum(x, at + q * step, step * p, m))
      {
        BinZeroNearMean(h, x, at + q * step, step * p, rest);
        StageTermNear(h, x, at, step, radices, q, m, r);
      }
      PartNear(terms, p, m, r, x, at, step, p);
      assert terms[..p] == terms;
      BinZeroIsTotal(h, x, at, step, radices);
      SumByResidues(x, at, step, p, m);
      WholeStage(p, m, r);
    }
  }

  lemma WholeStage(p: int, m: int, r: int)
    ensures p * (m * (p + r)) == p * m * (p + r)
  {}

  lemma OneSampleNear(h: int, x: int -> int, at: int, step: int)
    requires h > 0
    ensures Within(1 * BinZero(h, x, at, step, []), 1 * 0, SampleSum(x, at, step, 1))
  {
    BinZeroLeaf(h, x, at, step);
    assert SampleSum(x, at, step, 1) == SampleSum(x, at, step, 0) + x(at + 0 * step);
  }

  lemma StageTermNear(h: int, x: int -> int, at: int, step: int, radices: seq<int>, q: nat, m: nat, r: int)
    requires h > 0 && radices != [] && (forall i :: 0 <= i < |radices| ==> radices[i] >= 2) && q < radices[0] && m > 0
    requires forall j :: InRange(x(j), SampMax(h))
    requires var sub := BinZero(h, x, at + q * step, step * radices[0], radices[1..]);
      Within(m * sub, m * r, SampleSum(x, at + q * step, step * radices[0], m))
    ensures Within(radices[0] * m * StageTerms(h, x, at, step, radices)[q], m * (radices[0] + r),
                   SampleSum(x, at + q * step, step * radices[0], m))
  {
    hide BinZero, InRange, SampMax, SampleSum, ScaledTerm, DivScalar;
    var p, sub := radices[0], SubBin(h, x, at, step, radices, q);
    SubBinIs(h, x, at, step, radices, q);
    BinZeroInRange(h, x, at + q * step, step * p, radices[1..]);
    TermBound(h, sub, p, q);
    DivScalarIsNear(h, sub, p);
    TermNear(m, p, r, DivScalar(h, sub, p), sub, SampleSum(x, at + q * step, step * p, m));
  }

  /** The radices of a size multiply to it. */
  lemma {:induction false} ProductOfRadices(rs: seq<nat>)
    ensures ProductOf(rs) == Product(rs)
  {
    if rs != [] {
      ProductOfRadices(rs[1..]);
    }
  }

  /** Bin 0 of a transform of n samples is within 3/2 times the sum of the radices of n of their mean. */
  lemma BinZeroOfSizeNearMean(h: int, x: int -> int, n: nat)
    requires h > 0 && n >= 2 && forall j :: InRange(x(j), SampMax(h))
    ensures Within(n * BinZeroOfSize(h, x, n), n * SumOf(Radices(n)), SampleSum(x, 0, 1, n))
  {
    hide InRange, SampMax, BinZero, Within, SampleSum;
    RadicesAtLeastTwo(n);
    RadicesProduct(n);
    ProductOfRadices(Radices(n));
    BinZeroNearMean(h, x, 0, 1, Radices(n));
  }
}
