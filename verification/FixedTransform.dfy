/** The transform of the fixed-point build: the five butterflies with the scaling and rounding of that
    build, and the recursion over them. Bin 0 is known exactly, and every bin up to an error bound. */
module FixedTransform {
  import opened Basics
  import opened FixedPoint
  import opened FixedColumns
  import opened Transform
  import opened Butterflies
  import opened Work
  import opened ComplexNumbers
  import opened Closeness
  import opened FixedRounding
  import opened FixedAccuracy
  import Factorization
  import Factorisers
  import FixedMean
  import Recombination
  import Twiddles

  /** Only entries of the column that starts at i0 differ. */
  ghost predicate OnlyColumn(before: seq<Fixed>, after: seq<Fixed>, i0: int, p: int, m: int) {
    && |after| == |before|
    && forall i :: 0 <= i < |before| && after[i] != before[i] ==> exists q :: 0 <= q < p && i == ColumnEntry(i0, q, m)
  }

  lemma OnlyEntries(before: seq<Fixed>, after: seq<Fixed>, i0: int, p: int, m: int)
    requires |after| == |before| && 2 <= p <= 5
    requires forall i :: 0 <= i < |before| && after[i] != before[i] ==>
      i == i0 || i == i0 + m || (p > 2 && i == i0 + 2 * m) || (p > 3 && i == i0 + 3 * m) || (p > 4 && i == i0 + 4 * m)
    ensures OnlyColumn(before, after, i0, p, m)
  {
    ColumnEntries(i0, m);
    hide ColumnEntry;
  }

  // ----- One pass of each loop

  method Pass2(h: int, Fout: array<Fixed>, i0: nat, m: nat, tw1: Fixed)
    requires h > 0 && m > 0 && i0 + m < Fout.Length
    modifies Fout
    ensures OnlyColumn(old(Fout[..]), Fout[..], i0, 2, m)
    ensures [Fout[i0], Fout[i0 + m]]
         == Outputs2(FixDiv(h, old(Fout[i0]), 2), Product(h, FixDiv(h, old(Fout[i0 + m]), 2), tw1))
  {
    hide OnlyColumn, FixDiv, Product;
    ghost var before := Fout[..];
    Fout[i0] := FixDiv(h, Fout[i0], 2);
    Fout[i0 + m] := FixDiv(h, Fout[i0 + m], 2);
    var t := Product(h, Fout[i0 + m], tw1);
    Fout[i0 + m] := Minus(Fout[i0], t);
    Fout[i0] := Plus(Fout[i0], t);
    OnlyEntries(before, Fout[..], i0, 2, m);
  }

  method Pass3(h: int, Fout: array<Fixed>, i0: nat, m: nat, tw1: Fixed, tw2: Fixed, epi3: Fixed)
    requires h > 0 && m > 0 && i0 + 2 * m < Fout.Length
    modifies Fout
    ensures OnlyColumn(old(Fout[..]), Fout[..], i0, 3, m)
    ensures [Fout[i0], Fout[i0 + m], Fout[i0 + 2 * m]]
         == Outputs3(h, FixDiv(h, old(Fout[i0]), 3), Product(h, FixDiv(h, old(Fout[i0 + m]), 3), tw1),
                     Product(h, FixDiv(h, old(Fout[i0 + 2 * m]), 3), tw2), epi3)
  {
    hide OnlyColumn, FixDiv, Product, ScalarMul, HalfOf;
    ghost var before := Fout[..];
    var m2 := 2 * m;
    Fout[i0] := FixDiv(h, Fout[i0], 3);
    Fout[i0 + m] := FixDiv(h, Fout[i0 + m], 3);
    Fout[i0 + m2] := FixDiv(h, Fout[i0 + m2], 3);
    var scratch1 := Product(h, Fout[i0 + m], tw1);
    var scratch2 := Product(h, Fout[i0 + m2], tw2);
    var scratch3, scratch0 := Plus(scratch1, scratch2), Minus(scratch1, scratch2);
    Fout[i0 + m] := Fixed(Fout[i0].re - HalfOf(scratch3.re), Fout[i0].im - HalfOf(scratch3.im));
    scratch0 := Fixed(ScalarMul(h, scratch0.re, epi3.im), ScalarMul(h, scratch0.im, epi3.im));
    Fout[i0] := Plus(Fout[i0], scratch3);
    Fout[i0 + m2] := Fixed(Fout[i0 + m].re + scratch0.im, Fout[i0 + m].im - scratch0.re);
    Fout[i0 + m] := Fixed(Fout[i0 + m].re - scratch0.im, Fout[i0 + m].im + scratch0.re);
    OnlyEntries(before, Fout[..], i0, 3, m);
  }

  method Pass4(h: int, Fout: array<Fixed>, i0: nat, m: nat, tw1: Fixed, tw2: Fixed, tw3: Fixed, inverse: bool)
    requires h > 0 && m > 0 && i0 + 3 * m < Fout.Length
    modifies Fout
    ensures OnlyColumn(old(Fout[..]), Fout[..], i0, 4, m)
    ensures [Fout[i0], Fout[i0 + m], Fout[i0 + 2 * m], Fout[i0 + 3 * m]]
         == Outputs4(FixDiv(h, old(Fout[i0]), 4), Product(h, FixDiv(h, old(Fout[i0 + m]), 4), tw1),
                     Product(h, FixDiv(h, old(Fout[i0 + 2 * m]), 4), tw2),
                     Product(h, FixDiv(h, old(Fout[i0 + 3 * m]), 4), tw3), inverse)
  {
    hide OnlyColumn, FixDiv, Product;
    ghost var before := Fout[..];
    var m2, m3 := 2 * m, 3 * m;
    Fout[i0] := FixDiv(h, Fout[i0], 4);
    Fout[i0 + m] := FixDiv(h, Fout[i0 + m], 4);
    Fout[i0 + m2] := FixDiv(h, Fout[i0 + m2], 4);
    Fout[i0 + m3] := FixDiv(h, Fout[i0 + m3], 4);
    var scratch0 := Product(h, Fout[i0 + m], tw1);
    var scratch1 := Product(h, Fout[i0 + m2], tw2);
    var scratch2 := Product(h, Fout[i0 + m3], tw3);
    var scratch5 := Minus(Fout[i0], scratch1);
    Fout[i0] := Plus(Fout[i0], scratch1);
    var scratch3, scratch4 := Plus(scratch0, scratch2), Minus(scratch0, scratch2);
    Fout[i0 + m2] := Minus(Fout[i0], scratch3);
    Fout[i0] := Plus(Fout[i0], scratch3);
    if inverse {
      Fout[i0 + m] := Fixed(scratch5.re - scratch4.im, scratch5.im + scratch4.re);
      Fout[i0 + m3] := Fixed(scratch5.re + scratch4.im, scratch5.im - scratch4.re);
    } else {
      Fout[i0 + m] := Fixed(scratch5.re + scratch4.im, scratch5.im - scratch4.re);
      Fout[i0 + m3] := Fixed(scratch5.re - scratch4.im, scratch5.im + scratch4.re);
    }
    OnlyEntries(before, Fout[..], i0, 4, m);
  }

  method Pass5(h: int, Fout: array<Fixed>, i0: nat, m: nat, tw1: Fixed, tw2: Fixed, tw3: Fixed, tw4: Fixed,
               ya: Fixed, yb: Fixed)
    requires h > 0 && m > 0 && i0 + 4 * m < Fout.Length
    modifies Fout
    ensures OnlyColumn(old(Fout[..]), Fout[..], i0, 5, m)
    ensures [Fout[i0], Fout[i0 + m], Fout[i0 + 2 * m], Fout[i0 + 3 * m], Fout[i0 + 4 * m]]
         == Outputs5(h, FixDiv(h, old(Fout[i0]), 5), Product(h, FixDiv(h, old(Fout[i0 + m]), 5), tw1),
                     Product(h, FixDiv(h, old(Fout[i0 + 2 * m]), 5), tw2),
                     Product(h, FixDiv(h, old(Fout[i0 + 3 * m]), 5), tw3),
                     Product(h, FixDiv(h, old(Fout[i0 + 4 * m]), 5), tw4), ya, yb)
  {
    hide OnlyColumn, FixDiv, Product, ScalarMul, EvenPart, OddPart, InnerPart;
    ghost var before := Fout[..];
    var i1, i2, i3, i4 := i0 + m, i0 + 2 * m, i0 + 3 * m, i0 + 4 * m;
    Fout[i0] := FixDiv(h, Fout[i0], 5);
    Fout[i1] := FixDiv(h, Fout[i1], 5);
    Fout[i2] := FixDiv(h, Fout[i2], 5);
    Fout[i3] := FixDiv(h, Fout[i3], 5);
    Fout[i4] := FixDiv(h, Fout[i4], 5);
    var scratch0 := Fout[i0];
    var scratch1 := Product(h, Fout[i1], tw1);
    var scratch2 := Product(h, Fout[i2], tw2);
    var scratch3 := Product(h, Fout[i3], tw3);
    var scratch4 := Product(h, Fout[i4], tw4);
    var scratch7, scratch10 := Plus(scratch1, scratch4), Minus(scratch1, scratch4);
    var scratch8, scratch9 := Plus(scratch2, scratch3), Minus(scratch2, scratch3);
    Fout[i0] := Fixed(Fout[i0].re + (scratch7.re + scratch8.re), Fout[i0].im + (scratch7.im + scratch8.im));
    var scratch5 := EvenPart(h, scratch0, scratch7, scratch8, ya, yb);
    var scratch6 := OddPart(h, scratch10, scratch9, ya, yb);
    Fout[i1] := Minus(scratch5, scratch6);
    Fout[i4] := Plus(scratch5, scratch6);
    var scratch11 := EvenPart(h, scratch0, scratch7, scratch8, yb, ya);
    var scratch12 := InnerPart(h, scratch10, scratch9, ya, yb);
    Fout[i2] := Plus(scratch11, scratch12);
    Fout[i3] := Minus(scratch11, scratch12);
    OnlyEntries(before, Fout[..], i0, 5, m);
  }

  // ----- The loops over the columns

  /** What a stage needs: the blocks fit, and the table has an entry for every point. */
  ghost predicate Fits(h: int, Fout: array<Fixed>, off: nat, fstride: nat, tw: array<Fixed>, m: nat, p: nat) {
    && h > 0 && m > 0 && p > 0 && Fout != tw && off + p * m <= Fout.Length
    && tw.Length > 0 && tw.Length == fstride * (p * m)
  }

  /** Where the loop over the columns is: the first u are done, the others as they were. */
  ghost predicate Through(h: int, before: seq<Fixed>, now: seq<Fixed>, off: nat, p: nat, m: nat, s: nat,
                          tw: seq<Fixed>, inverse: bool, generic: bool, u: nat)
    requires h > 0 && p > 0 && tw != []
  {
    && |now| == |before|
    && (forall i :: 0 <= i < |before| && !(off <= i < off + p * m) ==> now[i] == before[i])
    && (forall v :: 0 <= v < u ==> ColumnDone(h, before, now, off, p, m, s, tw, inverse, generic, v))
    && forall v :: u <= v < m ==> SameColumn(before, now, off, p, m, v)
  }

  ghost predicate SameColumn(before: seq<Fixed>, now: seq<Fixed>, off: int, p: nat, m: int, v: int) {
    ColumnOf(now, off + v, p, m) == ColumnOf(before, off + v, p, m)
  }

  /** A pass over column u touches no other one. */
  lemma OtherColumn(now: seq<Fixed>, after: seq<Fixed>, off: nat, p: nat, m: nat, u: nat, v: nat)
    requires OnlyColumn(now, after, off + u, p, m) && u < m && v < m && u != v
    ensures SameColumn(now, after, off, p, m, v)
  {
    var a, b := ColumnOf(now, off + v, p, m), ColumnOf(after, off + v, p, m);
    forall q | 0 <= q < p
      ensures a[q] == b[q]
    {
      var i := ColumnEntry(off + v, q, m);
      if 0 <= i < |now| && after[i] != now[i] {
        var t :| 0 <= t < p && i == ColumnEntry(off + u, t, m);
        Recombination.Residue(q, m, v);
        Recombination.Residue(t, m, u);
        assert false;
      }
    }
  }

  lemma OutsideBlocks(now: seq<Fixed>, after: seq<Fixed>, off: nat, p: nat, m: nat, u: nat)
    requires OnlyColumn(now, after, off + u, p, m) && u < m
    ensures forall i :: 0 <= i < |now| && !(off <= i < off + p * m) ==> after[i] == now[i]
  {
    forall i | 0 <= i < |now| && after[i] != now[i]
      ensures off <= i < off + p * m
    {
      var q :| 0 <= q < p && i == ColumnEntry(off + u, q, m);
      BlockBounds(p, m, q);
    }
  }

  lemma OtherColumns(now: seq<Fixed>, after: seq<Fixed>, off: nat, p: nat, m: nat, u: nat)
    requires OnlyColumn(now, after, off + u, p, m) && u < m
    ensures |after| == |now| && forall v :: 0 <= v < m && v != u ==> SameColumn(now, after, off, p, m, v)
  {
    forall v | 0 <= v < m && v != u
      ensures SameColumn(now, after, off, p, m, v)
    {
      OtherColumn(now, after, off, p, m, u, v);
    }
  }

  /** One more column. */
  lemma NextColumn(h: int, before: seq<Fixed>, now: seq<Fixed>, after: seq<Fixed>, off: nat, p: nat, m: nat, s: nat,
                   tw: seq<Fixed>, inverse: bool, generic: bool, u: nat)
    requires h > 0 && p > 0 && tw != [] && u < m && Through(h, before, now, off, p, m, s, tw, inverse, generic, u)
    requires OnlyColumn(now, after, off + u, p, m)
    requires ColumnDone(h, now, after, off, p, m, s, tw, inverse, generic, u)
    ensures Through(h, before, after, off, p, m, s, tw, inverse, generic, u + 1)
  {
    hide StageOutputs, ColumnOf, OnlyColumn;
    OutsideBlocks(now, after, off, p, m, u);
    OtherColumns(now, after, off, p, m, u);
    assert SameColumn(before, now, off, p, m, u);
    assert ColumnDone(h, before, after, off, p, m, s, tw, inverse, generic, u);
    forall v | 0 <= v < u
      ensures ColumnDone(h, before, after, off, p, m, s, tw, inverse, generic, v)
    {
      assert ColumnDone(h, before, now, off, p, m, s, tw, inverse, generic, v) && SameColumn(now, after, off, p, m, v);
    }
    forall v | u < v < m
      ensures SameColumn(before, after, off, p, m, v)
    {
      assert SameColumn(before, now, off, p, m, v) && SameColumn(now, after, off, p, m, v);
    }
  }

  lemma NoColumn(h: int, before: seq<Fixed>, off: nat, p: nat, m: nat, s: nat, tw: seq<Fixed>, inverse: bool,
                 generic: bool)
    requires h > 0 && p > 0 && tw != []
    ensures Through(h, before, before, off, p, m, s, tw, inverse, generic, 0)
  {}

  lemma AllColumns(h: int, before: seq<Fixed>, after: seq<Fixed>, off: nat, p: nat, m: nat, s: nat, tw: seq<Fixed>,
                   inverse: bool, generic: bool)
    requires h > 0 && p > 0 && tw != [] && Through(h, before, after, off, p, m, s, tw, inverse, generic, m)
    ensures StageDone(h, before, after, off, p, m, s, tw, inverse, generic)
  {
    hide ColumnDone;
  }

  /** Entry q of a column of the blocks. */
  lemma EntryOf(buf: seq<Fixed>, i0: nat, p: nat, m: nat, q: nat)
    requires q < p && i0 + q * m < |buf|
    ensures ColumnOf(buf, i0, p, m)[q] == buf[i0 + q * m]
  {
    assert ColumnEntry(i0, q, m) == i0 + q * m;
  }

  lemma ColumnIsDone(h: int, now: seq<Fixed>, after: seq<Fixed>, off: nat, p: nat, m: nat, s: nat, tw: seq<Fixed>,
                     inverse: bool, u: nat, c: seq<Fixed>, d: seq<Fixed>)
    requires h > 0 && p > 0 && tw != [] && c == ColumnOf(now, off + u, p, m) && d == ColumnOf(after, off + u, p, m)
    requires d == StageOutputs(h, c, tw, s, m, u, inverse, false)
    ensures ColumnDone(h, now, after, off, p, m, s, tw, inverse, false, u)
  {
    hide StageOutputs, ColumnOf;
  }

  /** A read of the table. */
  lemma TwiddleRead(tw: seq<Fixed>, s: nat, p: nat, m: nat, q: nat, u: nat)
    requires q < p && u < m && |tw| == s * (p * m) && |tw| > 0
    ensures 0 <= TwiddleIndex(s, q, u) < |tw| && TwiddleOf(tw, s, q, u) == tw[TwiddleIndex(s, q, u)]
  {
    TwiddleInRange(|tw|, s, p, m, q, u);
  }

  method FixedBfly2(h: int, Fout: array<Fixed>, off: nat, fstride: nat, tw: array<Fixed>, m: nat, ghost inverse: bool)
    requires Fits(h, Fout, off, fstride, tw, m, 2)
    modifies Fout
    ensures StageDone(h, old(Fout[..]), Fout[..], off, 2, m, fstride, tw[..], inverse, false)
  {
    ghost var before := Fout[..];
    NoColumn(h, before, off, 2, m, fstride, tw[..], inverse, false);
    hide TwiddleIndex, OnlyColumn, Through, StageDone, ColumnDone, FixDiv, Product, TwiddleOf, Outputs2;
    for u := 0 to m
      invariant Through(h, before, Fout[..], off, 2, m, fstride, tw[..], inverse, false, u)
    {
      ghost var now := Fout[..];
      TwiddleRead(tw[..], fstride, 2, m, 1, u);
      Pass2(h, Fout, off + u, m, tw[TwiddleIndex(fstride, 1, u)]);
      Column2Done(h, now, Fout[..], off, m, fstride, tw[..], inverse, u);
      NextColumn(h, before, now, Fout[..], off, 2, m, fstride, tw[..], inverse, false, u);
    }
    AllColumns(h, before, Fout[..], off, 2, m, fstride, tw[..], inverse, false);
  }

  lemma Column2Done(h: int, now: seq<Fixed>, after: seq<Fixed>, off: nat, m: nat, s: nat, tw: seq<Fixed>,
                    inverse: bool, u: nat)
    requires h > 0 && tw != [] && |after| == |now| && off + u + m < |now|
    requires var i0 := off + u;
      [after[i0], after[i0 + m]]
        == Outputs2(FixDiv(h, now[i0], 2), Product(h, FixDiv(h, now[i0 + m], 2), TwiddleOf(tw, s, 1, u)))
    ensures ColumnDone(h, now, after, off, 2, m, s, tw, inverse, false, u)
  {
    hide *;
    TwoEntries(now, off + u, m);
    TwoEntries(after, off + u, m);
    var c, d := ColumnOf(now, off + u, 2, m), ColumnOf(after, off + u, 2, m);
    OutputsOf2(h, c, tw, s, m, u, inverse);
    ColumnIsDone(h, now, after, off, 2, m, s, tw, inverse, u, c, d);
  }

  lemma ColumnEntries(i0: int, m: int)
    ensures ColumnEntry(i0, 0, m) == i0 && ColumnEntry(i0, 1, m) == i0 + m && ColumnEntry(i0, 2, m) == i0 + 2 * m
    ensures ColumnEntry(i0, 3, m) == i0 + 3 * m && ColumnEntry(i0, 4, m) == i0 + 4 * m
  {}

  lemma EntryIs(buf: seq<Fixed>, i0: int, p: nat, m: int, q: nat, i: int)
    requires q < p && i == ColumnEntry(i0, q, m) && 0 <= i < |buf|
    ensures ColumnOf(buf, i0, p, m)[q] == buf[i]
  {
    hide ColumnEntry;
  }

  lemma TwoEntries(buf: seq<Fixed>, i0: nat, m: nat)
    requires i0 + m < |buf|
    ensures ColumnOf(buf, i0, 2, m) == [buf[i0], buf[i0 + m]]
  {
    hide *;
    ColumnEntries(i0, m);
    EntryIs(buf, i0, 2, m, 0, i0);
    EntryIs(buf, i0, 2, m, 1, i0 + m);
    var c := ColumnOf(buf, i0, 2, m);
    assert c == [c[0], c[1]];
  }

  lemma OutputsOf2(h: int, c: seq<Fixed>, tw: seq<Fixed>, s: nat, m: nat, u: nat, inverse: bool)
    requires h > 0 && |c| == 2 && tw != []
    ensures StageOutputs(h, c, tw, s, m, u, inverse, false)
         == Outputs2(FixDiv(h, c[0], 2), Product(h, FixDiv(h, c[1], 2), TwiddleOf(tw, s, 1, u)))
  {
    hide FixDiv, Product, TwiddleOf, Outputs2;
  }

  /** The loop's pass over column u. */
  method FixedColumn3(h: int, Fout: array<Fixed>, off: nat, fstride: nat, tw: array<Fixed>, m: nat, u: nat, epi3: Fixed,
                      ghost inverse: bool, ghost before: seq<Fixed>)
    requires Fits(h, Fout, off, fstride, tw, m, 3) && u < m
    requires epi3 == EntryAt(tw[..], fstride * m)
    requires Through(h, before, Fout[..], off, 3, m, fstride, tw[..], inverse, false, u)
    modifies Fout
    ensures Through(h, before, Fout[..], off, 3, m, fstride, tw[..], inverse, false, u + 1)
  {
    hide TwiddleIndex, OnlyColumn, Through, ColumnDone, FixDiv, Product, TwiddleOf, Outputs3, EntryAt;
    ghost var now := Fout[..];
    TwiddleRead(tw[..], fstride, 3, m, 1, u);
    TwiddleRead(tw[..], fstride, 3, m, 2, u);
    Pass3(h, Fout, off + u, m, tw[TwiddleIndex(fstride, 1, u)], tw[TwiddleIndex(fstride, 2, u)], epi3);
    Column3Done(h, now, Fout[..], off, m, fstride, tw[..], inverse, u);
    NextColumn(h, before, now, Fout[..], off, 3, m, fstride, tw[..], inverse, false, u);
  }

  method FixedBfly3(h: int, Fout: array<Fixed>, off: nat, fstride: nat, tw: array<Fixed>, m: nat, ghost inverse: bool)
    requires Fits(h, Fout, off, fstride, tw, m, 3)
    modifies Fout
    ensures StageDone(h, old(Fout[..]), Fout[..], off, 3, m, fstride, tw[..], inverse, false)
  {
    ghost var before := Fout[..];
    NoColumn(h, before, off, 3, m, fstride, tw[..], inverse, false);
    hide TwiddleIndex, OnlyColumn, Through, StageDone, ColumnDone, FixDiv, Product, TwiddleOf, Outputs3;
    ConstantInRange(tw.Length, fstride, 3, m, 1);
    assert fstride * 1 * m == fstride * m;
    var epi3 := tw[fstride * m];
    for u := 0 to m
      invariant Through(h, before, Fout[..], off, 3, m, fstride, tw[..], inverse, false, u)
    {
      FixedColumn3(h, Fout, off, fstride, tw, m, u, epi3, inverse, before);
    }
    AllColumns(h, before, Fout[..], off, 3, m, fstride, tw[..], inverse, false);
  }

  lemma Column3Done(h: int, now: seq<Fixed>, after: seq<Fixed>, off: nat, m: nat, s: nat, tw: seq<Fixed>,
                    inverse: bool, u: nat)
    requires h > 0 && tw != [] && |after| == |now| && off + u + 2 * m < |now|
    requires var i0 := off + u;
      [after[i0], after[i0 + m], after[i0 + 2 * m]]
        == Outputs3(h, FixDiv(h, now[i0], 3), Product(h, FixDiv(h, now[i0 + m], 3), TwiddleOf(tw, s, 1, u)),
                    Product(h, FixDiv(h, now[i0 + 2 * m], 3), TwiddleOf(tw, s, 2, u)), EntryAt(tw, s * m))
    ensures ColumnDone(h, now, after, off, 3, m, s, tw, inverse, false, u)
  {
    hide *;
    ThreeEntries(now, off + u, m);
    ThreeEntries(after, off + u, m);
    var c, d := ColumnOf(now, off + u, 3, m), ColumnOf(after, off + u, 3, m);
    OutputsOf3(h, c, tw, s, m, u, inverse);
    ColumnIsDone(h, now, after, off, 3, m, s, tw, inverse, u, c, d);
  }

  lemma ThreeEntries(buf: seq<Fixed>, i0: nat, m: nat)
    requires i0 + 2 * m < |buf|
    ensures ColumnOf(buf, i0, 3, m) == [buf[i0], buf[i0 + m], buf[i0 + 2 * m]]
  {
    hide *;
    ColumnEntries(i0, m);
    EntryIs(buf, i0, 3, m, 0, i0);
    EntryIs(buf, i0, 3, m, 1, i0 + m);
    EntryIs(buf, i0, 3, m, 2, i0 + 2 * m);
    var c := ColumnOf(buf, i0, 3, m);
    assert c == [c[0], c[1], c[2]];
  }

  lemma OutputsOf3(h: int, c: seq<Fixed>, tw: seq<Fixed>, s: nat, m: nat, u: nat, inverse: bool)
    requires h > 0 && |c| == 3 && tw != []
    ensures StageOutputs(h, c, tw, s, m, u, inverse, false)
         == Outputs3(h, FixDiv(h, c[0], 3), Product(h, FixDiv(h, c[1], 3), TwiddleOf(tw, s, 1, u)),
                     Product(h, FixDiv(h, c[2], 3), TwiddleOf(tw, s, 2, u)), EntryAt(tw, s * m))
  {
    hide FixDiv, Product, TwiddleOf, Outputs3;
  }

  /** The loop's pass over column u. */
  method FixedColumn4(h: int, Fout: array<Fixed>, off: nat, fstride: nat, tw: array<Fixed>, m: nat, u: nat,
                      inverse: bool, ghost before: seq<Fixed>)
    requires Fits(h, Fout, off, fstride, tw, m, 4) && u < m
    requires Through(h, before, Fout[..], off, 4, m, fstride, tw[..], inverse, false, u)
    modifies Fout
    ensures Through(h, before, Fout[..], off, 4, m, fstride, tw[..], inverse, false, u + 1)
  {
    hide TwiddleIndex, OnlyColumn, Through, ColumnDone, FixDiv, Product, TwiddleOf, Outputs4, EntryAt;
    ghost var now := Fout[..];
    TwiddleRead(tw[..], fstride, 4, m, 1, u);
    TwiddleRead(tw[..], fstride, 4, m, 2, u);
    TwiddleRead(tw[..], fstride, 4, m, 3, u);
    Pass4(h, Fout, off + u, m, tw[TwiddleIndex(fstride, 1, u)], tw[TwiddleIndex(fstride, 2, u)],
          tw[TwiddleIndex(fstride, 3, u)], inverse);
    Column4Done(h, now, Fout[..], off, m, fstride, tw[..], inverse, u);
    NextColumn(h, before, now, Fout[..], off, 4, m, fstride, tw[..], inverse, false, u);
  }

  method FixedBfly4(h: int, Fout: array<Fixed>, off: nat, fstride: nat, tw: array<Fixed>, m: nat, inverse: bool)
    requires Fits(h, Fout, off, fstride, tw, m, 4)
    modifies Fout
    ensures StageDone(h, old(Fout[..]), Fout[..], off, 4, m, fstride, tw[..], inverse, false)
  {
    ghost var before := Fout[..];
    NoColumn(h, before, off, 4, m, fstride, tw[..], inverse, false);
    hide TwiddleIndex, OnlyColumn, Through, StageDone, ColumnDone, FixDiv, Product, TwiddleOf, Outputs4;
    for u := 0 to m
      invariant Through(h, before, Fout[..], off, 4, m, fstride, tw[..], inverse, false, u)
    {
      FixedColumn4(h, Fout, off, fstride, tw, m, u, inverse, before);
    }
    AllColumns(h, before, Fout[..], off, 4, m, fstride, tw[..], inverse, false);
  }

  lemma Column4Done(h: int, now: seq<Fixed>, after: seq<Fixed>, off: nat, m: nat, s: nat, tw: seq<Fixed>,
                    inverse: bool, u: nat)
    requires h > 0 && tw != [] && |after| == |now| && off + u + 3 * m < |now|
    requires var i0 := off + u;
      [after[i0], after[i0 + m], after[i0 + 2 * m], after[i0 + 3 * m]]
        == Outputs4(FixDiv(h, now[i0], 4), Product(h, FixDiv(h, now[i0 + m], 4), TwiddleOf(tw, s, 1, u)),
                    Product(h, FixDiv(h, now[i0 + 2 * m], 4), TwiddleOf(tw, s, 2, u)),
                    Product(h, FixDiv(h, now[i0 + 3 * m], 4), TwiddleOf(tw, s, 3, u)), inverse)
    ensures ColumnDone(h, now, after, off, 4, m, s, tw, inverse, false, u)
  {
    hide *;
    FourEntries(now, off + u, m);
    FourEntries(after, off + u, m);
    var c, d := ColumnOf(now, off + u, 4, m), ColumnOf(after, off + u, 4, m);
    OutputsOf4(h, c, tw, s, m, u, inverse);
    ColumnIsDone(h, now, after, off, 4, m, s, tw, inverse, u, c, d);
  }

  lemma FourEntries(buf: seq<Fixed>, i0: nat, m: nat)
    requires i0 + 3 * m < |buf|
    ensures ColumnOf(buf, i0, 4, m) == [buf[i0], buf[i0 + m], buf[i0 + 2 * m], buf[i0 + 3 * m]]
  {
    hide *;
    ColumnEntries(i0, m);
    EntryIs(buf, i0, 4, m, 0, i0);
    EntryIs(buf, i0, 4, m, 1, i0 + m);
    EntryIs(buf, i0, 4, m, 2, i0 + 2 * m);
    EntryIs(buf, i0, 4, m, 3, i0 + 3 * m);
    var c := ColumnOf(buf, i0, 4, m);
    assert c == [c[0], c[1], c[2], c[3]];
  }

  lemma OutputsOf4(h: int, c: seq<Fixed>, tw: seq<Fixed>, s: nat, m: nat, u: nat, inverse: bool)
    requires h > 0 && |c| == 4 && tw != []
    ensures StageOutputs(h, c, tw, s, m, u, inverse, false)
         == Outputs4(FixDiv(h, c[0], 4), Product(h, FixDiv(h, c[1], 4), TwiddleOf(tw, s, 1, u)),
                     Product(h, FixDiv(h, c[2], 4), TwiddleOf(tw, s, 2, u)),
                     Product(h, FixDiv(h, c[3], 4), TwiddleOf(tw, s, 3, u)), inverse)
  {
    hide FixDiv, Product, TwiddleOf, Outputs4;
  }

  /** The loop's pass over column u. */
  method FixedColumn5(h: int, Fout: array<Fixed>, off: nat, fstride: nat, tw: array<Fixed>, m: nat, u: nat, ya: Fixed,
                      yb: Fixed, ghost inverse: bool, ghost before: seq<Fixed>)
    requires Fits(h, Fout, off, fstride, tw, m, 5) && u < m
    requires ya == EntryAt(tw[..], fstride * m) && yb == EntryAt(tw[..], fstride * 2 * m)
    requires Through(h, before, Fout[..], off, 5, m, fstride, tw[..], inverse, false, u)
    modifies Fout
    ensures Through(h, before, Fout[..], off, 5, m, fstride, tw[..], inverse, false, u + 1)
  {
    hide TwiddleIndex, OnlyColumn, Through, ColumnDone, FixDiv, Product, TwiddleOf, Outputs5, EntryAt;
    ghost var now := Fout[..];
    TwiddleRead(tw[..], fstride, 5, m, 1, u);
    TwiddleRead(tw[..], fstride, 5, m, 2, u);
    TwiddleRead(tw[..], fstride, 5, m, 3, u);
    TwiddleRead(tw[..], fstride, 5, m, 4, u);
    Pass5(h, Fout, off + u, m, tw[TwiddleIndex(fstride, 1, u)], tw[TwiddleIndex(fstride, 2, u)],
          tw[TwiddleIndex(fstride, 3, u)], tw[TwiddleIndex(fstride, 4, u)], ya, yb);
    Column5Done(h, now, Fout[..], off, m, fstride, tw[..], inverse, u);
    NextColumn(h, before, now, Fout[..], off, 5, m, fstride, tw[..], inverse, false, u);
  }

  method FixedBfly5(h: int, Fout: array<Fixed>, off: nat, fstride: nat, tw: array<Fixed>, m: nat, ghost inverse: bool)
    requires Fits(h, Fout, off, fstride, tw, m, 5)
    modifies Fout
    ensures StageDone(h, old(Fout[..]), Fout[..], off, 5, m, fstride, tw[..], inverse, false)
  {
    ghost var before := Fout[..];
    NoColumn(h, before, off, 5, m, fstride, tw[..], inverse, false);
    hide TwiddleIndex, OnlyColumn, Through, StageDone, ColumnDone, FixDiv, Product, TwiddleOf, Outputs5;
    ConstantInRange(tw.Length, fstride, 5, m, 1);
    ConstantInRange(tw.Length, fstride, 5, m, 2);
    assert fstride * 1 * m == fstride * m;
    var ya, yb := tw[fstride * m], tw[fstride * 2 * m];
    for u := 0 to m
      invariant Through(h, before, Fout[..], off, 5, m, fstride, tw[..], inverse, false, u)
    {
      FixedColumn5(h, Fout, off, fstride, tw, m, u, ya, yb, inverse, before);
    }
    AllColumns(h, before, Fout[..], off, 5, m, fstride, tw[..], inverse, false);
  }

  lemma Column5Done(h: int, now: seq<Fixed>, after: seq<Fixed>, off: nat, m: nat, s: nat, tw: seq<Fixed>,
                    inverse: bool, u: nat)
    requires h > 0 && tw != [] && |after| == |now| && off + u + 4 * m < |now|
    requires var i0 := off + u;
      [after[i0], after[i0 + m], after[i0 + 2 * m], after[i0 + 3 * m], after[i0 + 4 * m]]
        == Outputs5(h, FixDiv(h, now[i0], 5), Product(h, FixDiv(h, now[i0 + m], 5), TwiddleOf(tw, s, 1, u)),
                    Product(h, FixDiv(h, now[i0 + 2 * m], 5), TwiddleOf(tw, s, 2, u)),
                    Product(h, FixDiv(h, now[i0 + 3 * m], 5), TwiddleOf(tw, s, 3, u)),
                    Product(h, FixDiv(h, now[i0 + 4 * m], 5), TwiddleOf(tw, s, 4, u)),
                    EntryAt(tw, s * m), EntryAt(tw, s * 2 * m))
    ensures ColumnDone(h, now, after, off, 5, m, s, tw, inverse, false, u)
  {
    hide *;
    FiveEntries(now, off + u, m);
    FiveEntries(after, off + u, m);
    var c, d := ColumnOf(now, off + u, 5, m), ColumnOf(after, off + u, 5, m);
    OutputsOf5(h, c, tw, s, m, u, inverse);
    ColumnIsDone(h, now, after, off, 5, m, s, tw, inverse, u, c, d);
  }

  lemma FiveEntries(buf: seq<Fixed>, i0: nat, m: nat)
    requires i0 + 4 * m < |buf|
    ensures ColumnOf(buf, i0, 5, m) == [buf[i0], buf[i0 + m], buf[i0 + 2 * m], buf[i0 + 3 * m], buf[i0 + 4 * m]]
  {
    hide *;
    ColumnEntries(i0, m);
    EntryIs(buf, i0, 5, m, 0, i0);
    EntryIs(buf, i0, 5, m, 1, i0 + m);
    EntryIs(buf, i0, 5, m, 2, i0 + 2 * m);
    EntryIs(buf, i0, 5, m, 3, i0 + 3 * m);
    EntryIs(buf, i0, 5, m, 4, i0 + 4 * m);
    var c := ColumnOf(buf, i0, 5, m);
    assert c == [c[0], c[1], c[2], c[3], c[4]];
  }

  lemma OutputsOf5(h: int, c: seq<Fixed>, tw: seq<Fixed>, s: nat, m: nat, u: nat, inverse: bool)
    requires h > 0 && |c| == 5 && tw != []
    ensures StageOutputs(h, c, tw, s, m, u, inverse, false)
         == Outputs5(h, FixDiv(h, c[0], 5), Product(h, FixDiv(h, c[1], 5), TwiddleOf(tw, s, 1, u)),
                     Product(h, FixDiv(h, c[2], 5), TwiddleOf(tw, s, 2, u)),
                     Product(h, FixDiv(h, c[3], 5), TwiddleOf(tw, s, 3, u)),
                     Product(h, FixDiv(h, c[4], 5), TwiddleOf(tw, s, 4, u)), EntryAt(tw, s * m),
                     EntryAt(tw, s * 2 * m))
  {
    hide FixDiv, Product, TwiddleOf, Outputs5;
  }

  // ----- The generic butterfly

  /** A column divided by the radix, as the scratch buffer of `kf_bfly_generic` holds it. */
  ghost function ScaledColumn(h: int, c: seq<Fixed>): (scratch: seq<Fixed>)
    requires h > 0
    ensures |scratch| == |c|
  {
    seq(|c|, q requires 0 <= q < |c| => FixDiv(h, c[q], |c|))
  }

  method FixedGather(h: int, Fout: array<Fixed>, off: nat, m: nat, p: nat, u: nat, scratch: array<Fixed>)
    requires h > 0 && p > 0 && u < m && off + p * m <= Fout.Length && scratch.Length == p && scratch != Fout
    modifies scratch
    ensures scratch[..] == ScaledColumn(h, ColumnOf(Fout[..], off + u, p, m))
  {
    hide FixDiv;
    ghost var c := ColumnOf(Fout[..], off + u, p, m);
    var k := u;
    for q1 := 0 to p
      invariant k == q1 * m + u
      invariant forall q :: 0 <= q < q1 ==> scratch[q] == FixDiv(h, c[q], p)
    {
      BlockBounds(p, m, q1);
      EntryOf(Fout[..], off + u, p, m, q1);
      scratch[q1] := Fout[off + k];
      scratch[q1] := FixDiv(h, scratch[q1], p);
      k := k + m;
      assert k == (q1 + 1) * m + u;
    }
  }

  /** The innermost loop: output k of a column, accumulated at `at`. */
  method FixedOutput(h: int, Fout: array<Fixed>, at: nat, scratch: array<Fixed>, fstride: nat, tw: array<Fixed>, k: nat,
                     ghost c: seq<Fixed>)
    requires h > 0 && Fout != tw && Fout != scratch && at < Fout.Length && c != [] && scratch[..] == ScaledColumn(h, c)
    requires tw.Length > 0 && fstride * k < tw.Length
    modifies Fout
    ensures forall i :: 0 <= i < Fout.Length && i != at ==> Fout[i] == old(Fout[i])
    ensures Fout[at] == Totals(GenericParts(h, c, tw[..], fstride, k))
  {
    ghost var ts := GenericParts(h, c, tw[..], fstride, k);
    var twidx := 0;
    Fout[at] := scratch[0];
    FirstOfGeneric(h, c, tw[..], fstride, k);
    hide FixDiv, Product, RunningTwiddle, Part;
    for q := 1 to scratch.Length
      invariant twidx == (fstride * (q - 1) * k) % tw.Length
      invariant forall i :: 0 <= i < Fout.Length && i != at ==> Fout[i] == old(Fout[i])
      invariant Fout[at] == Totals(ts[..q])
    {
      NextIndex(tw.Length, fstride, q, k);
      twidx := twidx + fstride * k;
      if twidx >= tw.Length {
        twidx := twidx - tw.Length;
      }
      var t := Product(h, scratch[q], tw[twidx]);
      GenericPart(h, c, tw[..], fstride, q, k);
      Fout[at] := Plus(Fout[at], t);
      assert ts[..q + 1][..q] == ts[..q] && ts[..q + 1][q] == ts[q];
    }
    assert ts[..scratch.Length] == ts;
  }

  lemma FirstOfGeneric(h: int, c: seq<Fixed>, tw: seq<Fixed>, s: nat, k: nat)
    requires h > 0 && c != [] && tw != []
    ensures Totals(GenericParts(h, c, tw, s, k)[..1]) == FixDiv(h, c[0], |c|) && (s * 0 * k) % |tw| == 0
  {
    var ts := GenericParts(h, c, tw, s, k);
    hide FixDiv, Product, RunningTwiddle;
    assert ts[..1] == [ts[0]] && [ts[0]][..0] == [] && ts[0] == FixDiv(h, c[0], |c|);
    assert s * 0 * k == 0;
  }

  lemma NextIndex(n: nat, s: nat, q: nat, k: nat)
    requires n > 0 && q > 0 && s * k < n
    ensures var i := (s * (q - 1) * k) % n;
      (s * q * k) % n == if i + s * k >= n then i + s * k - n else i + s * k
  {
    assert s * q * k == s * (q - 1) * k + s * k;
    RunningIndex(n, s * (q - 1) * k, s * k);
  }

  lemma GenericPart(h: int, c: seq<Fixed>, tw: seq<Fixed>, s: nat, q: nat, k: nat)
    requires h > 0 && 0 < q < |c| && tw != []
    ensures GenericParts(h, c, tw, s, k)[q] == Product(h, FixDiv(h, c[q], |c|), tw[(s * q * k) % |tw|])
  {
    hide FixDiv, Product;
  }

  /** Every entry of column u becomes its output. */
  method FixedScatter(h: int, Fout: array<Fixed>, off: nat, fstride: nat, tw: array<Fixed>, m: nat, p: nat, u: nat,
                      scratch: array<Fixed>, ghost c: seq<Fixed>)
    requires Fits(h, Fout, off, fstride, tw, m, p) && u < m && |c| == p
    requires scratch[..] == ScaledColumn(h, c) && scratch != Fout
    modifies Fout
    ensures OnlyColumn(old(Fout[..]), Fout[..], off + u, p, m)
    ensures ColumnOf(Fout[..], off + u, p, m) == GenericOutputs(h, c, tw[..], fstride, m, u)
  {
    ghost var before, out := Fout[..], GenericOutputs(h, c, tw[..], fstride, m, u);
    hide ScaledColumn, Totals, GenericParts;
    var k := u;
    for q1 := 0 to p
      invariant k == q1 * m + u
      invariant OnlyColumn(before, Fout[..], off + u, q1, m)
      invariant forall t :: 0 <= t < q1 ==> EntryAt(Fout[..], ColumnEntry(off + u, t, m)) == out[t]
    {
      ghost var now := Fout[..];
      BlockBounds(p, m, q1);
      ProductMonotone(fstride, k, p * m);
      assert ColumnEntry(off + u, q1, m) == off + k;
      FixedOutput(h, Fout, off + k, scratch, fstride, tw, k, c);
      EarlierOutputs(now, Fout[..], off + u, m, q1);
      k := k + m;
      assert k == (q1 + 1) * m + u;
    }
    assert ColumnOf(Fout[..], off + u, p, m) == out;
  }

  lemma EarlierOutputs(now: seq<Fixed>, after: seq<Fixed>, i0: nat, m: nat, q1: nat)
    requires m > 0 && |after| == |now| && forall i :: 0 <= i < |now| && i != i0 + q1 * m ==> after[i] == now[i]
    ensures forall t :: 0 <= t < q1 ==> EntryAt(after, ColumnEntry(i0, t, m)) == EntryAt(now, ColumnEntry(i0, t, m))
  {
    forall t | 0 <= t < q1
      ensures EntryAt(after, ColumnEntry(i0, t, m)) == EntryAt(now, ColumnEntry(i0, t, m))
    {
      BlockBounds(q1, m, t);
    }
  }

  method FixedBflyGeneric(h: int, Fout: array<Fixed>, off: nat, fstride: nat, tw: array<Fixed>, m: nat, p: nat,
                          ghost inverse: bool)
    requires Fits(h, Fout, off, fstride, tw, m, p)
    modifies Fout
    ensures StageDone(h, old(Fout[..]), Fout[..], off, p, m, fstride, tw[..], inverse, true)
  {
    ghost var before := Fout[..];
    NoColumn(h, before, off, p, m, fstride, tw[..], inverse, true);
    hide OnlyColumn, Through, StageDone, ScaledColumn, GenericOutputs, ColumnOf;
    var scratch := new Fixed[p];
    for u := 0 to m
      invariant Through(h, before, Fout[..], off, p, m, fstride, tw[..], inverse, true, u)
    {
      ghost var now := Fout[..];
      FixedGather(h, Fout, off, m, p, u, scratch);
      FixedScatter(h, Fout, off, fstride, tw, m, p, u, scratch, ColumnOf(now, off + u, p, m));
      NextColumn(h, before, now, Fout[..], off, p, m, fstride, tw[..], inverse, true, u);
    }
    AllColumns(h, before, Fout[..], off, p, m, fstride, tw[..], inverse, true);
  }

  /** The switch over the radix. */
  method FixedRecombine(h: int, Fout: array<Fixed>, off: nat, fstride: nat, tw: array<Fixed>, m: nat, p: nat,
                        inverse: bool)
    requires Fits(h, Fout, off, fstride, tw, m, p)
    modifies Fout
    ensures StageDone(h, old(Fout[..]), Fout[..], off, p, m, fstride, tw[..], inverse, false)
  {
    hide StageDone;
    if p == 2 {
      FixedBfly2(h, Fout, off, fstride, tw, m, inverse);
    } else if p == 3 {
      FixedBfly3(h, Fout, off, fstride, tw, m, inverse);
    } else if p == 4 {
      FixedBfly4(h, Fout, off, fstride, tw, m, inverse);
    } else if p == 5 {
      FixedBfly5(h, Fout, off, fstride, tw, m, inverse);
    } else {
      ghost var before := Fout[..];
      FixedBflyGeneric(h, Fout, off, fstride, tw, m, p, inverse);
      NoOtherButterfly(h, before, Fout[..], off, p, m, fstride, tw[..], inverse);
    }
  }

  lemma NoOtherButterfly(h: int, before: seq<Fixed>, after: seq<Fixed>, off: int, p: nat, m: nat, s: int,
                         tw: seq<Fixed>, inverse: bool)
    requires h > 0 && p > 0 && tw != [] && !OwnButterfly(p)
    requires StageDone(h, before, after, off, p, m, s, tw, inverse, true)
    ensures StageDone(h, before, after, off, p, m, s, tw, inverse, false)
  {
    forall u | 0 <= u < m
      ensures ColumnDone(h, before, after, off, p, m, s, tw, inverse, false, u)
    {
      assert ColumnDone(h, before, after, off, p, m, s, tw, inverse, true, u);
      hide GenericOutputs, ColumnOf;
    }
  }

  // ----- The recursion

  /** The radices of a plan, from position i of the list on. */
  ghost function PlanRadices(factors: seq<int>, i: nat): (rs: seq<int>)
    decreases |factors| - i
  {
    if i + 1 < |factors| then
      [factors[i]] + if factors[i + 1] > 1 then PlanRadices(factors, i + 2) else []
    else []
  }

  ghost predicate Positive(rs: seq<int>) {
    forall i :: 0 <= i < |rs| ==> rs[i] > 0
  }

  lemma {:induction false} PlanRadicesPositive(factors: seq<int>, i: nat, n: nat)
    requires Plan(factors, i, n)
    ensures PlanRadices(factors, i) != [] && Positive(PlanRadices(factors, i))
    ensures PlanRadices(factors, i)[0] == factors[i]
    ensures PlanRadices(factors, i)[1..] == if factors[i + 1] > 1 then PlanRadices(factors, i + 2) else []
    decreases |factors| - i
  {
    if factors[i + 1] > 1 {
      PlanRadicesPositive(factors, i + 2, factors[i + 1]);
    }
  }

  /** The real or imaginary parts of the input, wherever a call reads it. */
  ghost predicate Holds(f: seq<Fixed>, re: int -> int, im: int -> int) {
    forall i :: 0 <= i < |f| ==> f[i] == Fixed(re(i), im(i))
  }

  /** Bin 0, both parts. */
  ghost function BinZeros(h: int, re: int -> int, im: int -> int, at: int, step: int, radices: seq<int>): Fixed
    requires h > 0 && Positive(radices)
  {
    Fixed(BinZero(h, re, at, step, radices), BinZero(h, im, at, step, radices))
  }

  lemma {:induction false} TotalsAreTotals(ts: seq<Fixed>, res: seq<int>, ims: seq<int>)
    requires |ts| == |res| == |ims| && forall q :: 0 <= q < |ts| ==> ts[q] == Fixed(res[q], ims[q])
    ensures Totals(ts) == Fixed(Total(res), Total(ims))
  {
    if ts != [] {
      var n := |ts| - 1;
      TotalsAreTotals(ts[..n], res[..n], ims[..n]);
    }
  }

  /** A stage over the bins 0 of its sub-transforms gives bin 0 of the whole. */
  lemma StageOfBins(h: int, re: int -> int, im: int -> int, at: int, step: int, radices: seq<int>, column: seq<Fixed>)
    requires h > 0 && radices != [] && Positive(radices) && |column| == radices[0]
    requires Positive(radices[1..])
    requires forall q :: 0 <= q < |column| ==>
      column[q] == BinZeros(h, re, im, at + q * step, step * radices[0], radices[1..])
    ensures StageZero(h, column) == BinZeros(h, re, im, at, step, radices)
  {
    hide BinZero, ScaledTerm, Total, Totals;
    BinZeroIsTotal(h, re, at, step, radices);
    BinZeroIsTotal(h, im, at, step, radices);
    TotalsAreTotals(Terms(h, column), StageTerms(h, re, at, step, radices), StageTerms(h, im, at, step, radices));
  }

  /** What a call needs of its caller. */
  ghost predicate FixedCallable(h: int, Fout: array<Fixed>, off: nat, f: array<Fixed>, foff: int, fstride: nat,
                                inStride: int, factors: seq<int>, fi: nat, tw: array<Fixed>, n: nat)
    reads tw
  {
    && h > 0 && Fout != f && Fout != tw && Plan(factors, fi, n) && n > 0
    && tw.Length == fstride * n && tw.Length > 0 && tw[0] == UnitTwiddle(h)
    && off + n <= Fout.Length && Reads(f.Length, foff, fstride * inStride, n)
  }

  lemma FixedSubCallable(h: int, Fout: array<Fixed>, off: nat, f: array<Fixed>, foff: int, fstride: nat, inStride: int,
                         factors: seq<int>, fi: nat, tw: array<Fixed>, n: nat, p: nat, m: nat, q: nat)
    requires FixedCallable(h, Fout, off, f, foff, fstride, inStride, factors, fi, tw, n)
    requires p == factors[fi] && m == factors[fi + 1] && m > 1 && q < p
    ensures BlockStart(off, m, q) >= 0 && BlockStart(off, m, q) + m <= Fout.Length && BlockStride(fstride, p) >= 0
    ensures FixedCallable(h, Fout, BlockStart(off, m, q), f, BlockSource(foff, fstride, inStride, q),
                          BlockStride(fstride, p), inStride, factors, fi + 2, tw, m)
  {
    BlockBounds(p, m, q);
    InputFits(f.Length, foff, fstride, inStride, p, m, q);
    MulAssociates(fstride, p, m);
  }

  /** Blocks 0 to q have bin 0 of their sub-transforms in place. */
  ghost predicate BinsDone(h: int, buf: seq<Fixed>, off: int, m: int, q: int, re: int -> int, im: int -> int,
                           at: int, step: int, p: int, rest: seq<int>)
    requires h > 0 && Positive(rest)
  {
    forall k :: 0 <= k < q ==>
      && 0 <= ColumnEntry(off, k, m) < |buf|
      && buf[ColumnEntry(off, k, m)] == BinZeros(h, re, im, at + k * step, step * p, rest)
  }

  lemma BinOfOne(h: int, re: int -> int, im: int -> int, at: int, step: int)
    requires h > 0
    ensures BinZeros(h, re, im, at, step, []) == Fixed(re(at), im(at))
  {}

  /** A call for block q leaves the first entries of the blocks before it alone. */
  lemma EarlierBins(h: int, before: seq<Fixed>, after: seq<Fixed>, off: nat, m: nat, q: nat, re: int -> int,
                    im: int -> int, at: int, step: int, p: int, rest: seq<int>)
    requires h > 0 && m > 0 && Positive(rest) && |after| == |before|
    requires BinsDone(h, before, off, m, q, re, im, at, step, p, rest)
    requires forall i :: 0 <= i < |before| && !(off + q * m <= i < off + q * m + m) ==> after[i] == before[i]
    requires off + q * m < |after| && after[off + q * m] == BinZeros(h, re, im, at + q * step, step * p, rest)
    ensures BinsDone(h, after, off, m, q + 1, re, im, at, step, p, rest)
  {
    hide BinZeros;
    forall k | 0 <= k < q + 1
      ensures 0 <= ColumnEntry(off, k, m) < |after|
      ensures after[ColumnEntry(off, k, m)] == BinZeros(h, re, im, at + k * step, step * p, rest)
    {
      if k < q {
        BlockBounds(q, m, k);
        assert 0 <= ColumnEntry(off, k, m) < |before|;
      }
    }
  }

  /** The finished stage: its first column held the bins, so its first entry is bin 0. */
  lemma StageFinished(h: int, before: seq<Fixed>, after: seq<Fixed>, off: nat, p: nat, m: nat, s: int, tw: seq<Fixed>,
                      inverse: bool, re: int -> int, im: int -> int, at: int, step: int, radices: seq<int>)
    requires h > 0 && m > 0 && p > 0 && off + p * m <= |before| && tw != [] && tw[0] == UnitTwiddle(h)
    requires StageDone(h, before, after, off, p, m, s, tw, inverse, false)
    requires radices != [] && Positive(radices) && radices[0] == p && Positive(radices[1..])
    requires BinsDone(h, before, off, m, p, re, im, at, step, p, radices[1..])
    ensures off < |after| && after[off] == BinZeros(h, re, im, at, step, radices)
  {
    hide BinZeros, StageZero, StageOutputs;
    var column := ColumnOf(before, off, p, m);
    BlockBounds(p, m, 0);
    assert ColumnDone(h, before, after, off, p, m, s, tw, inverse, false, 0);
    EntryOf(after, off, p, m, 0);
    assert off + 0 == off;
    FirstOutputs(h, column, tw, s, m, inverse, false);
    assert column[0] == EntryAt(before, ColumnEntry(off, 0, m));
    StageOfBins(h, re, im, at, step, radices, column);
  }

  lemma StrideOfBlocks(fstride: int, inStride: int, p: int)
    ensures fstride * p * inStride == fstride * inStride * p
  {}

  /** The loop for a remainder of 1. */
  method FixedCopy(Fout: array<Fixed>, off: nat, f: array<Fixed>, foff: int, fstride: nat, inStride: int, p: nat)
    requires Fout != f && off + p <= Fout.Length && Reads(f.Length, foff, fstride * inStride, p)
    modifies Fout
    ensures forall q :: 0 <= q < p ==> CopiedEntry(f[..], foff, fstride * inStride, Fout[..], off, q)
    ensures forall i :: 0 <= i < Fout.Length && !(off <= i < off + p) ==> Fout[i] == old(Fout[i])
  {
    hide Reads, CopiedEntry;
    ghost var step := fstride * inStride;
    var at, src, q := off, foff, 0;
    while q < p
      invariant 0 <= q <= p && at == off + q && src == foff + q * step
      invariant forall k :: 0 <= k < q ==> CopiedEntry(f[..], foff, step, Fout[..], off, k)
      invariant forall i :: 0 <= i < Fout.Length && !(off <= i < off + p) ==> Fout[i] == old(Fout[i])
    {
      ghost var was := Fout[..];
      ReadsBetween(f.Length, foff, step, p, q);
      Fout[at] := f[src];
      OneMoreCopied(f[..], foff, step, was, Fout[..], off, q);
      assert (q + 1) * step == q * step + step;
      at, src, q := at + 1, src + fstride * inStride, q + 1;
    }
  }

  /** Entry q of the output is sample q of the input. */
  ghost predicate CopiedEntry(f: seq<Fixed>, foff: int, step: int, buf: seq<Fixed>, off: int, q: int) {
    0 <= foff + q * step < |f| && 0 <= off + q < |buf| && buf[off + q] == f[foff + q * step]
  }

  lemma OneMoreCopied(f: seq<Fixed>, foff: int, step: int, was: seq<Fixed>, now: seq<Fixed>, off: nat, q: nat)
    requires 0 <= foff + q * step < |f| && off + q < |was| && now == was[off + q := f[foff + q * step]]
    requires forall k :: 0 <= k < q ==> CopiedEntry(f, foff, step, was, off, k)
    ensures forall k :: 0 <= k < q + 1 ==> CopiedEntry(f, foff, step, now, off, k)
  {
    forall k | 0 <= k < q
      ensures CopiedEntry(f, foff, step, now, off, k)
    {
      assert CopiedEntry(f, foff, step, was, off, k);
    }
  }

  lemma CopiedBins(h: int, f: seq<Fixed>, foff: int, step: int, buf: seq<Fixed>, off: int, p: nat, re: int -> int,
                   im: int -> int)
    requires h > 0 && Holds(f, re, im) && forall q :: 0 <= q < p ==> CopiedEntry(f, foff, step, buf, off, q)
    ensures BinsDone(h, buf, off, 1, p, re, im, foff, step, p, [])
  {
    hide BinZeros;
    forall k | 0 <= k < p
      ensures 0 <= ColumnEntry(off, k, 1) < |buf|
      ensures buf[ColumnEntry(off, k, 1)] == BinZeros(h, re, im, foff + k * step, step * p, [])
    {
      assert CopiedEntry(f, foff, step, buf, off, k);
      BinOfOne(h, re, im, foff + k * step, step * p);
    }
  }

  lemma NoBins(h: int, buf: seq<Fixed>, off: int, m: int, re: int -> int, im: int -> int, at: int, step: int, p: int,
               rest: seq<int>)
    requires h > 0 && Positive(rest)
    ensures BinsDone(h, buf, off, m, 0, re, im, at, step, p, rest)
  {}

  /** The recursive call for block q. */
  method FixedUnit(h: int, Fout: array<Fixed>, off: nat, f: array<Fixed>, foff: int, fstride: nat, inStride: int,
                   factors: array<int>, fi: nat, tw: array<Fixed>, inverse: bool, ghost n: nat, ghost re: int -> int,
                   ghost im: int -> int, ghost ideal: Ideal, p: nat, m: nat, q: nat, ghost rest: seq<int>)
    requires FixedCallable(h, Fout, off, f, foff, fstride, inStride, factors[..], fi, tw, n) && Holds(f[..], re, im)
    requires p == factors[fi] && m == factors[fi + 1] && m > 1 && q < p && n == p * m
    requires Positive(rest) && rest == PlanRadices(factors[..], fi + 2)
    requires BinsDone(h, Fout[..], off, m, q, re, im, foff, fstride * inStride, p, rest)
    requires Assumed(h, ideal, inverse, tw[..], f[..], rest)
    requires BlocksClose(ideal, Fout[..], off, Exact(f[..], foff, fstride * inStride, n), p, m, fstride, q, rest)
    modifies Fout
    ensures BinsDone(h, Fout[..], off, m, q + 1, re, im, foff, fstride * inStride, p, rest)
    ensures BlocksClose(ideal, Fout[..], off, Exact(f[..], foff, fstride * inStride, n), p, m, fstride, q + 1, rest)
    ensures forall i :: 0 <= i < Fout.Length && !(off <= i < off + n) ==> Fout[i] == old(Fout[i])
    decreases factors.Length - fi, 0
  {
    FixedBounds(h, Fout, off, f, foff, fstride, inStride, factors[..], fi, tw, n);
    FixedSubCallable(h, Fout, off, f, foff, fstride, inStride, factors[..], fi, tw, n, p, m, q);
    hide *;
    ghost var before := Fout[..];
    FixedWork(h, Fout, BlockStart(off, m, q), f, BlockSource(foff, fstride, inStride, q), BlockStride(fstride, p),
              inStride, factors, fi + 2, tw, inverse, m, re, im, ideal);
    UnitBins(h, before, Fout[..], off, m, q, re, im, foff, fstride, inStride, p, rest);
    UnitClose(ideal, before, Fout[..], off, f[..], foff, fstride, inStride, p, m, q, rest);
  }

  /** The same in terms of what the recursive call computed. */
  lemma UnitBins(h: int, before: seq<Fixed>, after: seq<Fixed>, off: nat, m: nat, q: nat, re: int -> int,
                 im: int -> int, foff: int, fstride: nat, inStride: int, p: nat, rest: seq<int>)
    requires h > 0 && m > 0 && Positive(rest) && |after| == |before| && q < p && off + p * m <= |before|
    requires BinsDone(h, before, off, m, q, re, im, foff, fstride * inStride, p, rest)
    requires var at := BlockStart(off, m, q);
      forall i :: 0 <= i < |before| && !(at <= i < at + m) ==> after[i] == before[i]
    requires 0 <= BlockStart(off, m, q) < |after|
    requires after[BlockStart(off, m, q)]
          == BinZeros(h, re, im, BlockSource(foff, fstride, inStride, q), BlockStride(fstride, p) * inStride, rest)
    ensures BinsDone(h, after, off, m, q + 1, re, im, foff, fstride * inStride, p, rest)
    ensures forall i :: 0 <= i < |before| && !(off <= i < off + p * m) ==> after[i] == before[i]
  {
    StrideOfBlocks(fstride, inStride, p);
    BlockBounds(p, m, q);
    hide BinZeros, BinsDone;
    EarlierBins(h, before, after, off, m, q, re, im, foff, fstride * inStride, p, rest);
  }

  // ----- What the result is compared with

  /** The exact roots, a bound on the modulus of the samples, and whether they are given. */
  datatype Ideal = Ideal(w: int -> Complex, r: real, given: bool)

  function Values(f: seq<Fixed>): (xs: seq<Complex>)
    ensures |xs| == |f|
  {
    seq(|f|, i requires 0 <= i < |f| => Value(f[i]))
  }

  /** The samples a call reads. */
  ghost function Exact(f: seq<Fixed>, foff: int, step: int, n: nat): (x: seq<Complex>)
    ensures |x| == n
  {
    Samples(Values(f), foff, step, n)
  }

  /** The error of a transform by the given radices. */
  ghost function ErrorOf(radices: seq<int>): real {
    8.0 * FixedMean.SumOf(radices) as real
  }

  /** The table holds the roots, rounded; the samples are at most r in modulus; and r leaves room for the error. */
  ghost predicate Comparable(h: int, w: int -> Complex, r: real, inverse: bool, tw: seq<Fixed>, f: seq<Fixed>,
                             radices: seq<int>) {
    && Twiddles.RootsOfUnity(w, |tw|, inverse) && TableNear(h, tw, w)
    && SamplesWithin(Values(f), r) && r + ErrorOf(radices) <= SampMax(h) as real
  }

  ghost predicate Assumed(h: int, ideal: Ideal, inverse: bool, tw: seq<Fixed>, f: seq<Fixed>, radices: seq<int>) {
    ideal.given ==> Comparable(h, ideal.w, ideal.r, inverse, tw, f, radices)
  }

  /** The first q blocks hold their transforms, up to the error. */
  ghost predicate BlocksClose(ideal: Ideal, buf: seq<Fixed>, off: int, x: seq<Complex>, p: nat, m: nat, s: int, q: int,
                              rest: seq<int>) {
    ideal.given ==> forall k :: 0 <= k < q ==> BlockClose(ideal.w, buf, off, x, p, m, s, k, rest)
  }

  ghost predicate BlockClose(w: int -> Complex, buf: seq<Fixed>, off: int, x: seq<Complex>, p: nat, m: nat, s: int,
                             k: int, rest: seq<int>) {
    TransformClose(buf, off + k * m, Samples(x, k, p, m), w, s * p, ErrorOf(rest))
  }

  lemma NoBlocks(ideal: Ideal, buf: seq<Fixed>, off: int, x: seq<Complex>, p: nat, m: nat, s: int, rest: seq<int>)
    ensures BlocksClose(ideal, buf, off, x, p, m, s, 0, rest)
  {}

  /** What is assumed of a stage holds of the stages below it. */
  lemma AssumedBelow(h: int, ideal: Ideal, inverse: bool, tw: seq<Fixed>, f: seq<Fixed>, radices: seq<int>)
    requires radices != [] && radices[0] > 0 && Assumed(h, ideal, inverse, tw, f, radices)
    ensures Assumed(h, ideal, inverse, tw, f, radices[1..])
    ensures ErrorOf(radices) == ErrorOf(radices[1..]) + 8.0 * radices[0] as real
  {
    hide TableNear, SamplesWithin, Twiddles.RootsOfUnity;
  }

  /** A transform only depends on the entries it is in. */
  lemma CloseElsewhere(before: seq<Fixed>, after: seq<Fixed>, off: int, x: seq<Complex>, w: int -> Complex, s: int,
                       e: real)
    requires TransformClose(before, off, x, w, s, e)
    requires forall i :: off <= i < off + |x| ==> SameEntry(before, after, i)
    ensures TransformClose(after, off, x, w, s, e)
  {
    hide Close, DftBin, Scale, Value;
    forall j | 0 <= j < |x|
      ensures BinClose(after, off, x, w, s, e, j)
    {
      assert BinClose(before, off, x, w, s, e, j) && SameEntry(before, after, off + j);
    }
  }

  ghost predicate SameEntry(before: seq<Fixed>, after: seq<Fixed>, i: int) {
    EntryAt(after, i) == EntryAt(before, i)
  }

  lemma UnitClose(ideal: Ideal, before: seq<Fixed>, after: seq<Fixed>, off: nat, f: seq<Fixed>, foff: int,
                  fstride: nat, inStride: int, p: nat, m: nat, q: nat, rest: seq<int>)
    requires |after| == |before| && q < p && off + p * m <= |before|
    requires BlocksClose(ideal, before, off, Exact(f, foff, fstride * inStride, p * m), p, m, fstride, q, rest)
    requires var at := BlockStart(off, m, q);
      forall i :: 0 <= i < |before| && !(at <= i < at + m) ==> after[i] == before[i]
    requires ideal.given ==>
      TransformClose(after, BlockStart(off, m, q),
                     Exact(f, BlockSource(foff, fstride, inStride, q), BlockStride(fstride, p) * inStride, m), ideal.w,
                     BlockStride(fstride, p), ErrorOf(rest))
    ensures BlocksClose(ideal, after, off, Exact(f, foff, fstride * inStride, p * m), p, m, fstride, q + 1, rest)
  {
    var x := Exact(f, foff, fstride * inStride, p * m);
    if ideal.given {
      forall k | 0 <= k < q
        ensures BlockClose(ideal.w, after, off, x, p, m, fstride, k, rest)
      {
        assert BlockClose(ideal.w, before, off, x, p, m, fstride, k, rest);
        EarlierBlock(ideal.w, before, after, off, x, p, m, fstride, k, q, rest);
      }
      LastBlock(ideal.w, after, off, f, foff, fstride, inStride, p, m, q, rest);
      hide BlockClose;
    }
  }

  lemma EarlierBlock(w: int -> Complex, before: seq<Fixed>, after: seq<Fixed>, off: nat, x: seq<Complex>, p: nat,
                     m: nat, s: int, k: nat, q: nat, rest: seq<int>)
    requires |after| == |before| && k < q && BlockClose(w, before, off, x, p, m, s, k, rest)
    requires var at := BlockStart(off, m, q);
      forall i :: 0 <= i < |before| && !(at <= i < at + m) ==> after[i] == before[i]
    ensures BlockClose(w, after, off, x, p, m, s, k, rest)
  {
    BlockBounds(q, m, k);
    hide TransformClose, ErrorOf;
    assert forall i :: off + k * m <= i < off + k * m + m ==> SameEntry(before, after, i);
    CloseElsewhere(before, after, off + k * m, Samples(x, k, p, m), w, s * p, ErrorOf(rest));
  }

  lemma LastBlock(w: int -> Complex, after: seq<Fixed>, off: nat, f: seq<Fixed>, foff: int, fstride: nat,
                  inStride: int, p: nat, m: nat, q: nat, rest: seq<int>)
    requires q < p
    requires TransformClose(after, BlockStart(off, m, q),
                            Exact(f, BlockSource(foff, fstride, inStride, q), BlockStride(fstride, p) * inStride, m), w,
                            BlockStride(fstride, p), ErrorOf(rest))
    ensures BlockClose(w, after, off, Exact(f, foff, fstride * inStride, p * m), p, m, fstride, q, rest)
  {
    hide TransformClose, ErrorOf;
    DecimatedInput(Values(f), foff, fstride, inStride, p, m, q);
  }

  /** The copied samples are the transforms of blocks of one. */
  lemma CopiedClose(ideal: Ideal, h: int, inverse: bool, tw: seq<Fixed>, f: seq<Fixed>, foff: int, fstride: nat,
                    inStride: int, buf: seq<Fixed>, off: nat, p: nat)
    requires Assumed(h, ideal, inverse, tw, f, [])
    requires forall q :: 0 <= q < p ==> CopiedEntry(f, foff, fstride * inStride, buf, off, q)
    ensures BlocksClose(ideal, buf, off, Exact(f, foff, fstride * inStride, p), p, 1, fstride, p, [])
  {
    if ideal.given {
      forall k | 0 <= k < p
        ensures BlockClose(ideal.w, buf, off, Exact(f, foff, fstride * inStride, p), p, 1, fstride, k, [])
      {
        CopiedBlock(f, foff, fstride * inStride, buf, off, p, k);
        hide Samples, TransformClose, Exact, CopiedEntry, EntryAt, Value, TableNear, SamplesWithin;
        OneSampleClose(buf, off + k * 1, Samples(Exact(f, foff, fstride * inStride, p), k, p, 1), ideal.w, |tw|,
                       inverse, fstride * p);
      }
    }
  }

  lemma CopiedBlock(f: seq<Fixed>, foff: int, step: int, buf: seq<Fixed>, off: int, p: nat, k: nat)
    requires k < p && CopiedEntry(f, foff, step, buf, off, k)
    ensures Samples(Exact(f, foff, step, p), k, p, 1) == [Value(EntryAt(buf, off + k * 1))]
  {
    assert k + 0 * p == k && off + k * 1 == off + k;
  }

  lemma OneSampleClose(buf: seq<Fixed>, at: int, x: seq<Complex>, w: int -> Complex, n: nat, inverse: bool, s: int)
    requires Twiddles.RootsOfUnity(w, n, inverse) && |x| == 1 && x[0] == Value(EntryAt(buf, at))
    ensures TransformClose(buf, at, x, w, s, 0.0)
  {
    DftOfOne(x, w, n, inverse, s);
    assert Dft(x, w, s)[0] == DftBin(x, w, s, 0);
    InverseIs(1);
    CloseToItself(x[0]);
    assert Scale(x[0], Inverse(1)) == x[0];
    assert BinClose(buf, at, x, w, s, 0.0, 0);
  }

  /** The stage over the blocks. */
  lemma StageOfClose(h: int, ideal: Ideal, inverse: bool, tw: seq<Fixed>, f: seq<Fixed>, foff: int, step: int,
                     before: seq<Fixed>, after: seq<Fixed>, off: nat, p: nat, m: nat, s: nat, radices: seq<int>)
    requires h > 0 && p > 0 && m > 0 && tw != [] && |tw| == s * (p * m)
    requires radices != [] && radices[0] == p && Assumed(h, ideal, inverse, tw, f, radices)
    requires BlocksClose(ideal, before, off, Exact(f, foff, step, p * m), p, m, s, p, radices[1..])
    requires StageDone(h, before, after, off, p, m, s, tw, inverse, false)
    ensures ideal.given ==> TransformClose(after, off, Exact(f, foff, step, p * m), ideal.w, s, ErrorOf(radices))
  {
    var x, e := Exact(f, foff, step, p * m), ErrorOf(radices[1..]);
    AssumedBelow(h, ideal, inverse, tw, f, radices);
    hide StageDone, TransformClose, ErrorOf, TableNear, SamplesWithin, Twiddles.RootsOfUnity;
    if ideal.given {
      SamplesStayWithin(Values(f), foff, step, p * m, ideal.r);
      forall q | 0 <= q < p
        ensures TransformClose(before, off + q * m, Samples(x, q, p, m), ideal.w, s * p, e)
      {
        assert BlockClose(ideal.w, before, off, x, p, m, s, q, radices[1..]);
      }
      StageClose(h, before, after, off, p, m, x, ideal.w, inverse, s, tw, e, ideal.r);
    }
  }

  lemma FixedBounds(h: int, Fout: array<Fixed>, off: nat, f: array<Fixed>, foff: int, fstride: nat, inStride: int,
                    factors: seq<int>, fi: nat, tw: array<Fixed>, n: nat)
    requires FixedCallable(h, Fout, off, f, foff, fstride, inStride, factors, fi, tw, n)
    ensures h > 0 && fi + 1 < |factors| && Fout != f && Fout != tw && off + n <= Fout.Length && 0 < n
    ensures factors[fi] > 0 && factors[fi + 1] > 0 && factors[fi] * factors[fi + 1] == n
    ensures tw.Length == fstride * (factors[fi] * factors[fi + 1]) && tw.Length > 0 && tw[0] == UnitTwiddle(h)
    ensures Reads(f.Length, foff, fstride * inStride, n)
  {}

  /** The recursion of the fixed-point build: the first entry becomes bin 0 of the samples read, as the
      radices of the plan make it; all n entries are close to the exact transform of the samples divided
      by n; and nothing outside them changes. */
  method FixedWork(h: int, Fout: array<Fixed>, off: nat, f: array<Fixed>, foff: int, fstride: nat, inStride: int,
                   factors: array<int>, fi: nat, tw: array<Fixed>, inverse: bool, ghost n: nat, ghost re: int -> int,
                   ghost im: int -> int, ghost ideal: Ideal)
    requires FixedCallable(h, Fout, off, f, foff, fstride, inStride, factors[..], fi, tw, n) && Holds(f[..], re, im)
    requires Assumed(h, ideal, inverse, tw[..], f[..], PlanRadices(factors[..], fi))
    modifies Fout
    ensures forall i :: 0 <= i < Fout.Length && !(off <= i < off + n) ==> Fout[i] == old(Fout[i])
    ensures Positive(PlanRadices(factors[..], fi))
    ensures off < Fout.Length
    ensures Fout[off] == BinZeros(h, re, im, foff, fstride * inStride, PlanRadices(factors[..], fi))
    ensures ideal.given ==>
      TransformClose(Fout[..], off, Exact(f[..], foff, fstride * inStride, n), ideal.w, fstride,
                     ErrorOf(PlanRadices(factors[..], fi)))
    decreases factors.Length - fi, 2
  {
    FixedBounds(h, Fout, off, f, foff, fstride, inStride, factors[..], fi, tw, n);
    var p, m := factors[fi], factors[fi + 1];
    ghost var radices, step, before := PlanRadices(factors[..], fi), fstride * inStride, Fout[..];
    PlanRadicesPositive(factors[..], fi, n);
    assert Positive(radices[1..]) && radices[0] > 0;
    assert Fits(h, Fout, off, fstride, tw, m, p);
    hide *;
    AssumedBelow(h, ideal, inverse, tw[..], f[..], radices);
    FixedBelow(h, Fout, off, f, foff, fstride, inStride, factors, fi, tw, inverse, n, re, im, ideal, p, m,
               radices[1..]);
    ghost var now := Fout[..];
    FixedRecombine(h, Fout, off, fstride, tw, m, p, inverse);
    StageFinished(h, now, Fout[..], off, p, m, fstride, tw[..], inverse, re, im, foff, step, radices);
    StageOfClose(h, ideal, inverse, tw[..], f[..], foff, step, now, Fout[..], off, p, m, fstride, radices);
    OutsideKept(h, now, Fout[..], off, p, m, fstride, tw[..], inverse);
  }

  /** The blocks of a call: its samples copied, or the recursive calls. */
  method FixedBelow(h: int, Fout: array<Fixed>, off: nat, f: array<Fixed>, foff: int, fstride: nat, inStride: int,
                    factors: array<int>, fi: nat, tw: array<Fixed>, inverse: bool, ghost n: nat, ghost re: int -> int,
                    ghost im: int -> int, ghost ideal: Ideal, p: nat, m: nat, ghost rest: seq<int>)
    requires FixedCallable(h, Fout, off, f, foff, fstride, inStride, factors[..], fi, tw, n) && Holds(f[..], re, im)
    requires p == factors[fi] && m == factors[fi + 1] && n == p * m && Positive(rest)
    requires rest == if m > 1 then PlanRadices(factors[..], fi + 2) else []
    requires Assumed(h, ideal, inverse, tw[..], f[..], rest)
    modifies Fout
    ensures BinsDone(h, Fout[..], off, m, p, re, im, foff, fstride * inStride, p, rest)
    ensures BlocksClose(ideal, Fout[..], off, Exact(f[..], foff, fstride * inStride, n), p, m, fstride, p, rest)
    ensures forall i :: 0 <= i < Fout.Length && !(off <= i < off + n) ==> Fout[i] == old(Fout[i])
    decreases factors.Length - fi, 1
  {
    FixedBounds(h, Fout, off, f, foff, fstride, inStride, factors[..], fi, tw, n);
    ghost var step, x := fstride * inStride, Exact(f[..], foff, fstride * inStride, n);
    hide *;
    if m == 1 {
      FixedCopy(Fout, off, f, foff, fstride, inStride, p);
      CopiedBins(h, f[..], foff, step, Fout[..], off, p, re, im);
      CopiedClose(ideal, h, inverse, tw[..], f[..], foff, fstride, inStride, Fout[..], off, p);
    } else {
      NoBins(h, Fout[..], off, m, re, im, foff, step, p, rest);
      NoBlocks(ideal, Fout[..], off, x, p, m, fstride, rest);
      var q := 0;
      while q < p
        invariant 0 <= q <= p
        invariant BinsDone(h, Fout[..], off, m, q, re, im, foff, step, p, rest)
        invariant BlocksClose(ideal, Fout[..], off, x, p, m, fstride, q, rest)
        invariant forall i :: 0 <= i < Fout.Length && !(off <= i < off + n) ==> Fout[i] == old(Fout[i])
      {
        FixedUnit(h, Fout, off, f, foff, fstride, inStride, factors, fi, tw, inverse, n, re, im, ideal, p, m, q, rest);
        q := q + 1;
      }
    }
  }

  lemma OutsideKept(h: int, before: seq<Fixed>, after: seq<Fixed>, off: nat, p: nat, m: nat, s: int, tw: seq<Fixed>,
                    inverse: bool)
    requires h > 0 && p > 0 && tw != [] && StageDone(h, before, after, off, p, m, s, tw, inverse, false)
    ensures |after| == |before| && forall i :: 0 <= i < |before| && !(off <= i < off + p * m) ==> after[i] == before[i]
  {}

  /** Following a written factor list the recursion meets exactly the radices of its size. */
  lemma {:induction false} WrittenRadices(buf: seq<int>, i: nat, n: nat)
    requires n >= 2 && Factorisers.Written(buf, i, n)
    ensures PlanRadices(buf, i) == Factorization.Radices(n)
    decreases n
  {
    Factorisers.FirstWritten(buf, i, n);
    var m := n / Factorization.Radix(n);
    hide Factorisers.Written, Factorization.Radix;
    if m > 1 {
      hide Factorization.Radices;
      WrittenRadices(buf, i + 2, m);
    } else {
      assert Factorization.Radices(m) == [];
    }
  }

  /** A transform of two or more points in the fixed-point build, on full-scale input: bin 0 comes out
      as its scaled sum, in range, and within 3/2 times the sum of the radices of the mean of the samples (both
      sides here times nfft). If the table holds the roots w, rounded, and the moduli of the samples leave room
      for the error, every bin is in range, and within 8 times the sum of the radices of the exact one. */
  method FixedTransformOf(h: int, nfft: nat, inverse: bool, factors: array<int>, tw: array<Fixed>, fin: array<Fixed>,
                          fout: array<Fixed>, ghost w: int -> Complex, ghost r: real)
      returns (ghost re: int -> int, ghost im: int -> int)
    requires h > 0 && nfft >= 2 && tw.Length == nfft && tw[0] == UnitTwiddle(h) && fout != fin && fout != tw
    requires |Factorisers.FactorList(nfft)| <= factors.Length
    requires factors[..|Factorisers.FactorList(nfft)|] == Factorisers.FactorList(nfft) && Plan(factors[..], 0, nfft)
    requires nfft <= fin.Length && nfft <= fout.Length
    requires forall i :: 0 <= i < fin.Length ==> InRange(fin[i].re, SampMax(h)) && InRange(fin[i].im, SampMax(h))
    modifies fout
    ensures forall i :: 0 <= i < fin.Length ==> re(i) == old(fin[i].re) && im(i) == old(fin[i].im)
    ensures fout[0].re == FixedPoint.BinZeroOfSize(h, re, nfft) && fout[0].im == FixedPoint.BinZeroOfSize(h, im, nfft)
    ensures InRange(fout[0].re, SampMax(h)) && InRange(fout[0].im, SampMax(h))
    ensures var bound := nfft * FixedMean.SumOf(Factorization.Radices(nfft));
      FixedMean.Within(nfft * fout[0].re, bound, FixedMean.SampleSum(re, 0, 1, nfft))
      && FixedMean.Within(nfft * fout[0].im, bound, FixedMean.SampleSum(im, 0, 1, nfft))
    ensures Comparable(h, w, r, inverse, tw[..], fin[..], Factorization.Radices(nfft)) ==>
      var X, e := Dft(Values(fin[..])[..nfft], w, 1), ErrorOf(Factorization.Radices(nfft));
      forall k :: 0 <= k < nfft ==>
        && Close(Value(fout[k]), Scale(X[k], Inverse(nfft)), e)
        && InRange(fout[k].re, SampMax(h)) && InRange(fout[k].im, SampMax(h))
  {
    ghost var f := fin[..];
    re, im := i => if 0 <= i < |f| then f[i].re else 0, i => if 0 <= i < |f| then f[i].im else 0;
    assert factors[0..0 + |Factorisers.Stages(nfft)|] == factors[..|Factorisers.FactorList(nfft)|];
    WrittenRadices(factors[..], 0, nfft);
    TransformBinZeroInRange(h, re, nfft);
    TransformBinZeroInRange(h, im, nfft);
    FixedMean.BinZeroOfSizeNearMean(h, re, nfft);
    FixedMean.BinZeroOfSizeNearMean(h, im, nfft);
    hide Plan, PlanRadices, Factorization.Radices, BinZero, BinZeroOfSize, FixedMean.Within, FixedMean.SampleSum;
    hide Comparable, TransformClose, Exact, ErrorOf;
    assert 1 * 1 == 1 && 1 * nfft == nfft;
    ghost var ideal := Ideal(w, r, Comparable(h, w, r, inverse, tw[..], f, Factorization.Radices(nfft)));
    FixedWork(h, fout, 0, fin, 0, 1, 1, factors, 0, tw, inverse, nfft, re, im, ideal);
    if ideal.given {
      WholeTransform(h, w, r, inverse, tw[..], f, fout[..], nfft, Factorization.Radices(nfft));
    }
  }

  /** Every bin of a whole transform. */
  lemma WholeTransform(h: int, w: int -> Complex, r: real, inverse: bool, tw: seq<Fixed>, f: seq<Fixed>,
                       out: seq<Fixed>, n: nat, radices: seq<int>)
    requires Comparable(h, w, r, inverse, tw, f, radices) && 0 < n <= |f| && n <= |out|
    requires TransformClose(out, 0, Exact(f, 0, 1, n), w, 1, ErrorOf(radices))
    ensures forall k :: 0 <= k < n ==>
      && Close(Value(out[k]), Scale(Dft(Values(f)[..n], w, 1)[k], Inverse(n)), ErrorOf(radices))
      && InRange(out[k].re, SampMax(h)) && InRange(out[k].im, SampMax(h))
  {
    var x, e := Values(f)[..n], ErrorOf(radices);
    assert Exact(f, 0, 1, n) == x by {
      forall i | 0 <= i < n
        ensures Exact(f, 0, 1, n)[i] == x[i]
      {
        assert 0 + i * 1 == i;
      }
    }
    SamplesStayWithin(Values(f), 0, 1, n, r);
    forall k | 0 <= k < n
      ensures Close(Value(out[k]), Scale(Dft(x, w, 1)[k], Inverse(n)), e)
      ensures InRange(out[k].re, SampMax(h)) && InRange(out[k].im, SampMax(h))
    {
      assert BinClose(out, 0, x, w, 1, e, k);
      hide Close, Scale, DftBin, SamplesWithin, Value, Twiddles.RootsOfUnity, TableNear, ErrorOf, Inverse;
      BinWithin(x, w, |tw|, inverse, 1, k, r);
      CloseInRange(h, out[k], Scale(DftBin(x, w, 1, k), Inverse(n)), e, r);
    }
  }
}
