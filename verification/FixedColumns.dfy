/** The fixed-point build, column by column: its complex macros, and what each of its butterflies
    computes from the entries of one column. */
module FixedColumns {
  import opened FixedPoint
  import opened Butterflies

  datatype Fixed = Fixed(re: int, im: int)

  // ----- The macros

  /** `C_FIXDIV`. */
  function FixDiv(h: int, a: Fixed, p: int): Fixed
    requires h > 0 && p > 0
  {
    Fixed(DivScalar(h, a.re, p), DivScalar(h, a.im, p))
  }

  /** `S_MUL`. */
  function ScalarMul(h: int, a: int, b: int): int
    requires h > 0
  {
    Sround(h, a * b)
  }

  /** `C_MUL`. */
  function Product(h: int, a: Fixed, b: Fixed): Fixed
    requires h > 0
  {
    Fixed(Sround(h, a.re * b.re - a.im * b.im), Sround(h, a.re * b.im + a.im * b.re))
  }

  function Plus(a: Fixed, b: Fixed): Fixed {
    Fixed(a.re + b.re, a.im + b.im)
  }

  function Minus(a: Fixed, b: Fixed): Fixed {
    Fixed(a.re - b.re, a.im - b.im)
  }

  /** `HALF_OF`, an arithmetic shift. */
  function HalfOf(x: int): int {
    x / 2
  }

  /** Twiddle 0, as `kf_cexp` rounds it. */
  function UnitTwiddle(h: int): Fixed {
    Fixed(SampMax(h), 0)
  }

  // ----- What bin 0 should be

  /** Entry q of column 0, scaled and multiplied by its twiddle. */
  function Term(h: int, a: Fixed, p: int, q: int): Fixed
    requires h > 0 && p > 0
  {
    Fixed(ScaledTerm(h, a.re, p, q), ScaledTerm(h, a.im, p, q))
  }

  function Terms(h: int, column: seq<Fixed>): (ts: seq<Fixed>)
    requires h > 0 && column != []
    ensures |ts| == |column|
  {
    seq(|column|, q requires 0 <= q < |column| => Term(h, column[q], |column|, q))
  }

  function Totals(ts: seq<Fixed>): Fixed {
    if ts == [] then Fixed(0, 0) else Plus(Totals(ts[..|ts| - 1]), ts[|ts| - 1])
  }

  /** Output 0 of a stage: the sum of the terms of column 0. */
  function StageZero(h: int, column: seq<Fixed>): Fixed
    requires h > 0 && column != []
  {
    Totals(Terms(h, column))
  }

  /** After division by the radix, the product with twiddle 0 is the term. */
  lemma TermIs(h: int, a: Fixed, p: int, q: int)
    requires h > 0 && p > 0
    ensures Term(h, a, p, q) == if q == 0 then FixDiv(h, a, p) else Product(h, FixDiv(h, a, p), UnitTwiddle(h))
  {
    hide DivScalar, Sround;
  }

  lemma TotalsOfTwo(ts: seq<Fixed>)
    requires |ts| == 2
    ensures Totals(ts) == Plus(ts[0], ts[1])
  {
    assert ts[..1][..0] == [];
    assert Totals(ts[..1]) == ts[0];
  }

  lemma TotalsOfThree(ts: seq<Fixed>)
    requires |ts| == 3
    ensures Totals(ts) == Plus(Plus(ts[0], ts[1]), ts[2])
  {
    TotalsOfTwo(ts[..2]);
  }

  lemma TotalsOfFour(ts: seq<Fixed>)
    requires |ts| == 4
    ensures Totals(ts) == Plus(Plus(Plus(ts[0], ts[1]), ts[2]), ts[3])
  {
    TotalsOfThree(ts[..3]);
  }

  lemma TotalsOfFive(ts: seq<Fixed>)
    requires |ts| == 5
    ensures Totals(ts) == Plus(Plus(Plus(Plus(ts[0], ts[1]), ts[2]), ts[3]), ts[4])
  {
    TotalsOfFour(ts[..4]);
  }

  // ----- What the passes leave in a column

  function EntryAt(xs: seq<Fixed>, i: int): Fixed {
    if 0 <= i < |xs| then xs[i] else Fixed(0, 0)
  }

  /** Entry q of a column, divided by the radix and, but for the first, multiplied by its twiddle. */
  function Part(h: int, c: seq<Fixed>, q: int, t: Fixed): Fixed
    requires h > 0 && c != []
  {
    var s := FixDiv(h, EntryAt(c, q), |c|);
    if q == 0 then s else Product(h, s, t)
  }

  function Outputs2(b0: Fixed, b1: Fixed): seq<Fixed> {
    [Plus(b0, b1), Minus(b0, b1)]
  }

  function Outputs3(h: int, b0: Fixed, b1: Fixed, b2: Fixed, epi3: Fixed): seq<Fixed>
    requires h > 0
  {
    var sum, diff := Plus(b1, b2), Minus(b1, b2);
    var half := Fixed(b0.re - HalfOf(sum.re), b0.im - HalfOf(sum.im));
    var turned := Fixed(ScalarMul(h, diff.re, epi3.im), ScalarMul(h, diff.im, epi3.im));
    [Plus(b0, sum), Fixed(half.re - turned.im, half.im + turned.re), Fixed(half.re + turned.im, half.im - turned.re)]
  }

  function Outputs4(b0: Fixed, b1: Fixed, b2: Fixed, b3: Fixed, inverse: bool): seq<Fixed> {
    var even, odd, sum, diff := Plus(b0, b2), Minus(b0, b2), Plus(b1, b3), Minus(b1, b3);
    var x, y := Fixed(odd.re - diff.im, odd.im + diff.re), Fixed(odd.re + diff.im, odd.im - diff.re);
    [Plus(even, sum), if inverse then x else y, Minus(even, sum), if inverse then y else x]
  }

  /** scratch[5] and scratch[11] of `kf_bfly5`. */
  function EvenPart(h: int, b0: Fixed, s7: Fixed, s8: Fixed, x: Fixed, y: Fixed): Fixed
    requires h > 0
  {
    Fixed(b0.re + ScalarMul(h, s7.re, x.re) + ScalarMul(h, s8.re, y.re),
          b0.im + ScalarMul(h, s7.im, x.re) + ScalarMul(h, s8.im, y.re))
  }

  /** scratch[6], and scratch[12] but for its signs. */
  function OddPart(h: int, s10: Fixed, s9: Fixed, x: Fixed, y: Fixed): Fixed
    requires h > 0
  {
    Fixed(ScalarMul(h, s10.im, x.im) + ScalarMul(h, s9.im, y.im),
          -ScalarMul(h, s10.re, x.im) - ScalarMul(h, s9.re, y.im))
  }

  function InnerPart(h: int, s10: Fixed, s9: Fixed, x: Fixed, y: Fixed): Fixed
    requires h > 0
  {
    Fixed(-ScalarMul(h, s10.im, y.im) + ScalarMul(h, s9.im, x.im),
          ScalarMul(h, s10.re, y.im) - ScalarMul(h, s9.re, x.im))
  }

  function Outputs5(h: int, b0: Fixed, b1: Fixed, b2: Fixed, b3: Fixed, b4: Fixed, ya: Fixed, yb: Fixed): seq<Fixed>
    requires h > 0
  {
    var s7, s10, s8, s9 := Plus(b1, b4), Minus(b1, b4), Plus(b2, b3), Minus(b2, b3);
    var s5, s6 := EvenPart(h, b0, s7, s8, ya, yb), OddPart(h, s10, s9, ya, yb);
    var s11, s12 := EvenPart(h, b0, s7, s8, yb, ya), InnerPart(h, s10, s9, ya, yb);
    [Fixed(b0.re + (s7.re + s8.re), b0.im + (s7.im + s8.im)), Minus(s5, s6), Plus(s11, s12), Minus(s11, s12),
     Plus(s5, s6)]
  }

  /** The entry at the reduced index. */
  function RunningTwiddle(tw: seq<Fixed>, s: int, q: int, k: int): Fixed
    requires tw != []
  {
    tw[(s * q * k) % |tw|]
  }

  /** The terms of output k of the generic butterfly. */
  function GenericParts(h: int, c: seq<Fixed>, tw: seq<Fixed>, s: int, k: int): (parts: seq<Fixed>)
    requires h > 0 && c != [] && tw != []
    ensures |parts| == |c|
  {
    seq(|c|, q requires 0 <= q < |c| => Part(h, c, q, RunningTwiddle(tw, s, q, k)))
  }

  /** The twiddle of entry q in column u. */
  function TwiddleOf(tw: seq<Fixed>, s: int, q: int, u: int): Fixed {
    EntryAt(tw, TwiddleIndex(s, q, u))
  }

  /** What a stage makes of column u, whose entries are m apart: s is the stride in the table. */
  function Outputs(h: int, c: seq<Fixed>, tw: seq<Fixed>, s: int, m: nat, u: nat, inverse: bool): (out: seq<Fixed>)
    requires h > 0 && c != [] && tw != []
    ensures |out| == |c|
  {
    var b := q => Part(h, c, q, TwiddleOf(tw, s, q, u));
    match |c|
    case 2 => Outputs2(b(0), b(1))
    case 3 => Outputs3(h, b(0), b(1), b(2), EntryAt(tw, s * m))
    case 4 => Outputs4(b(0), b(1), b(2), b(3), inverse)
    case 5 => Outputs5(h, b(0), b(1), b(2), b(3), b(4), EntryAt(tw, s * m), EntryAt(tw, s * 2 * m))
    case _ => GenericOutputs(h, c, tw, s, m, u)
  }

  /** What the generic butterfly makes of column u. */
  function GenericOutputs(h: int, c: seq<Fixed>, tw: seq<Fixed>, s: int, m: nat, u: nat): (out: seq<Fixed>)
    requires h > 0 && c != [] && tw != []
    ensures |out| == |c|
  {
    seq(|c|, t requires 0 <= t < |c| => Totals(GenericParts(h, c, tw, s, t * m + u)))
  }

  // ----- A stage

  function ColumnEntry(i0: int, q: int, m: int): int {
    i0 + q * m
  }

  /** The entries of the column that starts at i0. */
  function ColumnOf(buf: seq<Fixed>, i0: int, p: nat, m: int): (column: seq<Fixed>)
    ensures |column| == p
  {
    seq(p, q => EntryAt(buf, ColumnEntry(i0, q, m)))
  }

  /** Every column has become its outputs, and nothing outside the blocks has changed. */
  ghost predicate StageDone(h: int, before: seq<Fixed>, after: seq<Fixed>, off: int, p: nat, m: nat, s: int,
                            tw: seq<Fixed>, inverse: bool, generic: bool)
    requires h > 0 && p > 0 && tw != []
  {
    && |after| == |before|
    && (forall i :: 0 <= i < |before| && !(off <= i < off + p * m) ==> after[i] == before[i])
    && forall u :: 0 <= u < m ==> ColumnDone(h, before, after, off, p, m, s, tw, inverse, generic, u)
  }

  ghost predicate ColumnDone(h: int, before: seq<Fixed>, after: seq<Fixed>, off: int, p: nat, m: nat, s: int,
                             tw: seq<Fixed>, inverse: bool, generic: bool, u: nat)
    requires h > 0 && p > 0 && tw != []
  {
    ColumnOf(after, off + u, p, m) == StageOutputs(h, ColumnOf(before, off + u, p, m), tw, s, m, u, inverse, generic)
  }

  function StageOutputs(h: int, c: seq<Fixed>, tw: seq<Fixed>, s: int, m: nat, u: nat, inverse: bool,
                        generic: bool): (out: seq<Fixed>)
    requires h > 0 && c != [] && tw != []
    ensures |out| == |c|
  {
    if generic then GenericOutputs(h, c, tw, s, m, u) else Outputs(h, c, tw, s, m, u, inverse)
  }

  // ----- Output 0 of column 0

  lemma FirstPart(h: int, c: seq<Fixed>, q: nat, tw: seq<Fixed>)
    requires h > 0 && q < |c| && tw != [] && tw[0] == UnitTwiddle(h)
    ensures Part(h, c, q, tw[0]) == Term(h, c[q], |c|, q)
  {
    TermIs(h, c[q], |c|, q);
    assert EntryAt(c, q) == c[q];
    hide FixDiv, Product, Term;
  }

  lemma FirstOutputs(h: int, c: seq<Fixed>, tw: seq<Fixed>, s: int, m: nat, inverse: bool, generic: bool)
    requires h > 0 && c != [] && tw != [] && tw[0] == UnitTwiddle(h)
    ensures StageOutputs(h, c, tw, s, m, 0, inverse, generic)[0] == StageZero(h, c)
  {
    forall q | 0 <= q < |c|
      ensures Part(h, c, q, tw[0]) == Terms(h, c)[q] && TwiddleOf(tw, s, q, 0) == tw[0]
    {
      FirstPart(h, c, q, tw);
      assert TwiddleIndex(s, q, 0) == 0;
    }
    var ts := Terms(h, c);
    hide Part, TwiddleOf, Terms, Term;
    if generic || !(2 <= |c| <= 5) {
      FirstGenericParts(h, c, tw, s);
      assert 0 * m + 0 == 0;
      hide Totals, GenericParts;
    } else if |c| == 2 {
      TotalsOfTwo(ts);
      hide Totals;
    } else if |c| == 3 {
      TotalsOfThree(ts);
      hide Totals, ScalarMul, HalfOf;
    } else if |c| == 4 {
      TotalsOfFour(ts);
      hide Totals;
    } else {
      TotalsOfFive(ts);
      hide Totals, EvenPart, OddPart, InnerPart;
    }
  }

  lemma FirstGenericParts(h: int, c: seq<Fixed>, tw: seq<Fixed>, s: int)
    requires h > 0 && c != [] && tw != [] && tw[0] == UnitTwiddle(h)
    ensures GenericParts(h, c, tw, s, 0) == Terms(h, c)
  {
    forall q | 0 <= q < |c|
      ensures GenericParts(h, c, tw, s, 0)[q] == Terms(h, c)[q]
    {
      FirstPart(h, c, q, tw);
      FirstRunningTwiddle(tw, s, q);
      hide Part, Term, RunningTwiddle;
    }
  }

  lemma FirstRunningTwiddle(tw: seq<Fixed>, s: int, q: int)
    requires tw != []
    ensures RunningTwiddle(tw, s, q, 0) == tw[0]
  {
    assert s * q * 0 == 0;
  }
}
