/** How far the fixed-point transform is from the exact one, stage by stage: the outputs of a stage of
    radix p are within e + 8p of the exact ones divided by p, when its inputs are within e. */
module FixedAccuracy {
  import opened Basics
  import opened ComplexNumbers
  import opened Closeness
  import opened Transform
  import opened Recombination
  import opened Butterflies
  import opened FixedPoint
  import opened FixedColumns
  import opened FixedRounding
  import Twiddles
  import Radices

  // ----- One column of a stage

  /** The entries of a column are within e of those of an exact buffer, which are at most r in modulus,
      and together that leaves the range of a sample alone. */
  ghost predicate ColumnNear(h: int, c: seq<Fixed>, D: seq<Complex>, m: nat, u: nat, e: real, r: real) {
    && h > 0 && c != [] && u < m && r + e <= SampMax(h) as real
    && forall q :: 0 <= q < |c| ==> Close(Value(c[q]), At(D, q * m + u), e) && Close(At(D, q * m + u), ZERO, r)
  }

  /** The table: SAMP_MAX times the powers, rounded to the nearest. */
  ghost predicate TableNear(h: int, tw: seq<Fixed>, w: int -> Complex) {
    forall i :: 0 <= i < |tw| ==> NearTwiddle(h, tw[i], w(i))
  }

  /** How far a part of a column is off. */
  function PartError(e: real, p: int): real
    requires p > 0
  {
    5.25 + Times(e, Inverse(p))
  }

  lemma PartErrors(e: real, p: int)
    requires p > 0
    ensures Times(p as real, PartError(e, p)) == e + 5.25 * p as real
  {
    InverseIs(p);
    var c := Inverse(p);
    hide Inverse;
    Cancelled(p as real, e, c);
    assert Times(p as real, 5.25 + Times(e, c)) == 5.25 * p as real + p as real * e * c;
  }

  lemma AtDivided(D: seq<Complex>, p: int, i: int)
    requires p > 0
    ensures At(Divided(D, p), i) == Scale(At(D, i), Inverse(p))
  {}

  /** Entry q of a column, divided and turned by a table entry for w(e). */
  lemma EntryClose(h: int, c: seq<Fixed>, D: seq<Complex>, m: nat, u: nat, e: real, r: real, t: Fixed,
                   w: int -> Complex, n: nat, inverse: bool, q: nat, x: int)
    requires ColumnNear(h, c, D, m, u, e, r) && Twiddles.RootsOfUnity(w, n, inverse) && q < |c|
    requires if q == 0 then x == 0 else NearTwiddle(h, t, w(x))
    ensures Close(Value(Part(h, c, q, t)), Mul(At(Divided(D, |c|), q * m + u), w(x)), PartError(e, |c|))
    ensures PartInRange(h, Part(h, c, q, t), |c|)
  {
    UnitModulus(w, n, inverse, x);
    var y := At(D, q * m + u);
    assert Close(Value(c[q]), y, e) && Close(y, ZERO, r);
    AtDivided(D, |c|, q * m + u);
    hide Close, NearPart, Norm, Mul, Part, Divided, PartInRange, At, Scale, Inverse, Times, InRange;
    PartClose(h, c, q, t, y, w(x), e, r);
    CloseInRange(h, c[q], y, e, r);
    PartBound(h, c, q, t, w(x));
  }

  /** What a column lemma is about: the column, the table and the exact buffer. */
  ghost predicate StageNear(h: int, c: seq<Fixed>, D: seq<Complex>, m: nat, u: nat, e: real, r: real, tw: seq<Fixed>,
                            w: int -> Complex, inverse: bool, s: nat) {
    && ColumnNear(h, c, D, m, u, e, r) && Twiddles.RootsOfUnity(w, |tw|, inverse) && TableNear(h, tw, w)
    && |tw| == s * (|c| * m)
  }

  lemma TwiddledPart(h: int, c: seq<Fixed>, D: seq<Complex>, m: nat, u: nat, e: real, r: real, tw: seq<Fixed>,
                     w: int -> Complex, inverse: bool, s: nat, q: nat)
    requires StageNear(h, c, D, m, u, e, r, tw, w, inverse, s) && q < |c|
    ensures h > 0
    ensures var b := Part(h, c, q, TwiddleOf(tw, s, q, u));
      && Close(Value(b), Twiddled(Divided(D, |c|), m, w, s, u, q), PartError(e, |c|)) && PartInRange(h, b, |c|)
  {
    TwiddleInRange(|tw|, s, |c|, m, q, u);
    var x := s * q * u;
    assert q == 0 ==> x == 0;
    assert NearTwiddle(h, tw[x], w(x));
    assert TwiddleOf(tw, s, q, u) == tw[x];
    hide NearTwiddle, Close, Part, PartInRange, PartError, Divided, Mul, At;
    EntryClose(h, c, D, m, u, e, r, tw[x], w, |tw|, inverse, q, x);
  }

  /** The constants of a stage. */
  lemma ConstantNear(h: int, tw: seq<Fixed>, w: int -> Complex, s: nat, p: nat, m: nat, q: nat)
    requires TableNear(h, tw, w) && |tw| == s * (p * m) && |tw| > 0 && m > 0 && q < p
    ensures NearTwiddle(h, EntryAt(tw, s * q * m), w(s * q * m))
  {
    ConstantInRange(|tw|, s, p, m, q);
    hide NearTwiddle;
  }

  /** Output t against the exact one. */
  ghost predicate OutputNear(h: int, c: seq<Fixed>, D: seq<Complex>, m: nat, u: nat, e: real, tw: seq<Fixed>,
                             w: int -> Complex, inverse: bool, s: nat, t: nat)
    requires h > 0 && t < |c| && tw != [] && m > 0
  {
    Close(Value(Outputs(h, c, tw, s, m, u, inverse)[t]), StageBin(Divided(D, |c|), |c|, m, w, s, u, t),
          e + 8.0 * |c| as real)
  }

  /** The exact transform of the parts, and what rounding it adds. */
  lemma TwoErrors(h: int, c: seq<Fixed>, D: seq<Complex>, m: nat, u: nat, e: real, r: real, tw: seq<Fixed>,
                  w: int -> Complex, inverse: bool, s: nat, t: nat, X: seq<Complex>, g: real)
    requires StageNear(h, c, D, m, u, e, r, tw, w, inverse, s) && t < |c| && |X| == |c| && g <= 2.75 * |c| as real
    requires forall q :: 0 <= q < |c| ==> X[q] == Value(Part(h, c, q, TwiddleOf(tw, s, q, u)))
    requires Close(Value(Outputs(h, c, tw, s, m, u, inverse)[t]), PartsBin(X, w, s, m, t), g)
    ensures OutputNear(h, c, D, m, u, e, tw, w, inverse, s, t)
  {
    hide *;
    AllPartsClose(h, c, D, m, u, e, r, tw, w, inverse, s, X);
    var out := Value(Outputs(h, c, tw, s, m, u, inverse)[t]);
    PartsAndRounding(out, Divided(D, |c|), m, u, e, w, |tw|, inverse, s, t, X, g);
    OutputIsNear(h, c, D, m, u, e, tw, w, inverse, s, t);
  }

  lemma PartsAndRounding(out: Complex, Z: seq<Complex>, m: nat, u: nat, e: real, w: int -> Complex, n: nat,
                         inverse: bool, s: nat, t: nat, X: seq<Complex>, g: real)
    requires u < m && X != [] && g <= 2.75 * |X| as real && Twiddles.RootsOfUnity(w, n, inverse)
    requires forall q :: 0 <= q < |X| ==> Close(X[q], Twiddled(Z, m, w, s, u, q), PartError(e, |X|))
    requires Close(out, PartsBin(X, w, s, m, t), g)
    ensures Close(out, StageBin(Z, |X|, m, w, s, u, t), e + 8.0 * |X| as real)
  {
    hide *;
    var p := |X|;
    ExactOutputsClose(X, Z, p, m, w, n, inverse, s, u, t, PartError(e, p));
    ErrorTotal(out, PartsBin(X, w, s, m, t), StageBin(Z, p, m, w, s, u, t), e, p, g);
  }

  lemma OutputIsNear(h: int, c: seq<Fixed>, D: seq<Complex>, m: nat, u: nat, e: real, tw: seq<Fixed>,
                     w: int -> Complex, inverse: bool, s: nat, t: nat)
    requires h > 0 && t < |c| && tw != [] && m > 0
    requires Close(Value(Outputs(h, c, tw, s, m, u, inverse)[t]), StageBin(Divided(D, |c|), |c|, m, w, s, u, t),
                   e + 8.0 * |c| as real)
    ensures OutputNear(h, c, D, m, u, e, tw, w, inverse, s, t)
  {}

  lemma AllPartsClose(h: int, c: seq<Fixed>, D: seq<Complex>, m: nat, u: nat, e: real, r: real, tw: seq<Fixed>,
                      w: int -> Complex, inverse: bool, s: nat, X: seq<Complex>)
    requires StageNear(h, c, D, m, u, e, r, tw, w, inverse, s) && |X| == |c|
    requires forall q :: 0 <= q < |c| ==> X[q] == Value(Part(h, c, q, TwiddleOf(tw, s, q, u)))
    ensures h > 0 && c != [] && u < m && tw != [] && Twiddles.RootsOfUnity(w, |tw|, inverse)
    ensures forall q :: 0 <= q < |c| ==>
      Close(X[q], Twiddled(Divided(D, |c|), m, w, s, u, q), PartError(e, |c|))
  {
    hide Close, Part, PartInRange, PartError, Divided, Twiddled, TwiddleOf, Value;
    StageFacts(h, c, D, m, u, e, r, tw, w, inverse, s);
    forall q | 0 <= q < |c|
      ensures Close(X[q], Twiddled(Divided(D, |c|), m, w, s, u, q), PartError(e, |c|))
    {
      TwiddledPart(h, c, D, m, u, e, r, tw, w, inverse, s, q);
    }
  }

  lemma ErrorTotal(a: Complex, b: Complex, c: Complex, e: real, p: nat, g: real)
    requires p > 0 && g <= 2.75 * p as real && Close(a, b, g) && Close(b, c, Times(p as real, PartError(e, p)))
    ensures Close(a, c, e + 8.0 * p as real)
  {
    hide Close, PartError, Times;
    PartErrors(e, p);
    CloseThrough(a, b, c, g, Times(p as real, PartError(e, p)));
    CloseWithin(a, c, g + Times(p as real, PartError(e, p)), e + 8.0 * p as real);
  }

  lemma StageFacts(h: int, c: seq<Fixed>, D: seq<Complex>, m: nat, u: nat, e: real, r: real, tw: seq<Fixed>,
                   w: int -> Complex, inverse: bool, s: nat)
    requires StageNear(h, c, D, m, u, e, r, tw, w, inverse, s)
    ensures h > 0 && c != [] && u < m && tw != [] && Twiddles.RootsOfUnity(w, |tw|, inverse)
  {}

  lemma RootStage(w: int -> Complex, n: nat, inverse: bool, p: nat, s: nat, m: nat)
    requires Twiddles.RootsOfUnity(w, n, inverse) && n == s * (p * m)
    ensures Radices.Stage(w, n, inverse, p, 1, s * m, 0)
  {
    assert s * (p * m) == s * m * (p * 1);
  }

  lemma Column2Near(h: int, c: seq<Fixed>, D: seq<Complex>, m: nat, u: nat, e: real, r: real, tw: seq<Fixed>,
                    w: int -> Complex, inverse: bool, s: nat, t: nat)
    requires StageNear(h, c, D, m, u, e, r, tw, w, inverse, s) && t < |c| == 2
    ensures OutputNear(h, c, D, m, u, e, tw, w, inverse, s, t)
  {
    var b0, b1 := Part(h, c, 0, TwiddleOf(tw, s, 0, u)), Part(h, c, 1, TwiddleOf(tw, s, 1, u));
    assert Outputs(h, c, tw, s, m, u, inverse) == Outputs2(b0, b1);
    RootStage(w, |tw|, inverse, 2, s, m);
    hide Part, Value, Outputs2, ButterflyBin, Radices.Stage, StageNear, TwiddleOf, Outputs, OutputNear;
    Rounded2(w, |tw|, inverse, s * m, b0, b1, t);
    CloseToItself(Value(Outputs2(b0, b1)[t]));
    hide Close;
    TwoErrors(h, c, D, m, u, e, r, tw, w, inverse, s, t, [Value(b0), Value(b1)], 0.0);
  }

  lemma Column3Near(h: int, c: seq<Fixed>, D: seq<Complex>, m: nat, u: nat, e: real, r: real, tw: seq<Fixed>,
                    w: int -> Complex, inverse: bool, s: nat, t: nat)
    requires StageNear(h, c, D, m, u, e, r, tw, w, inverse, s) && t < |c| == 3
    ensures OutputNear(h, c, D, m, u, e, tw, w, inverse, s, t)
  {
    var b0, b1 := Part(h, c, 0, TwiddleOf(tw, s, 0, u)), Part(h, c, 1, TwiddleOf(tw, s, 1, u));
    var b2, epi3 := Part(h, c, 2, TwiddleOf(tw, s, 2, u)), EntryAt(tw, s * m);
    assert Outputs(h, c, tw, s, m, u, inverse) == Outputs3(h, b0, b1, b2, epi3);
    RootStage(w, |tw|, inverse, 3, s, m);
    ConstantNear(h, tw, w, s, 3, m, 1);
    assert s * 1 * m == s * m;
    hide Part, Value, Outputs3, ButterflyBin, Radices.Stage, TwiddleOf, Outputs, OutputNear, PartInRange, Close;
    TwiddledPart(h, c, D, m, u, e, r, tw, w, inverse, s, 1);
    TwiddledPart(h, c, D, m, u, e, r, tw, w, inverse, s, 2);
    hide StageNear, NearTwiddle;
    Rounded3(h, w, |tw|, inverse, s * m, b0, b1, b2, epi3, t);
    TwoErrors(h, c, D, m, u, e, r, tw, w, inverse, s, t, [Value(b0), Value(b1), Value(b2)], 4.5);
  }

  lemma Column4Near(h: int, c: seq<Fixed>, D: seq<Complex>, m: nat, u: nat, e: real, r: real, tw: seq<Fixed>,
                    w: int -> Complex, inverse: bool, s: nat, t: nat)
    requires StageNear(h, c, D, m, u, e, r, tw, w, inverse, s) && t < |c| == 4
    ensures OutputNear(h, c, D, m, u, e, tw, w, inverse, s, t)
  {
    var b0, b1 := Part(h, c, 0, TwiddleOf(tw, s, 0, u)), Part(h, c, 1, TwiddleOf(tw, s, 1, u));
    var b2, b3 := Part(h, c, 2, TwiddleOf(tw, s, 2, u)), Part(h, c, 3, TwiddleOf(tw, s, 3, u));
    assert Outputs(h, c, tw, s, m, u, inverse) == Outputs4(b0, b1, b2, b3, inverse);
    RootStage(w, |tw|, inverse, 4, s, m);
    hide Part, Value, Outputs4, ButterflyBin, Radices.Stage, StageNear, TwiddleOf, Outputs, OutputNear;
    Rounded4(w, |tw|, inverse, s * m, b0, b1, b2, b3, t);
    CloseToItself(Value(Outputs4(b0, b1, b2, b3, inverse)[t]));
    hide Close;
    TwoErrors(h, c, D, m, u, e, r, tw, w, inverse, s, t, [Value(b0), Value(b1), Value(b2), Value(b3)], 0.0);
  }

  lemma DoubleTurn(s: int, m: int)
    ensures s * 1 * m == s * m && s * 2 * m == 2 * (s * m)
  {}

  lemma Column5Near(h: int, c: seq<Fixed>, D: seq<Complex>, m: nat, u: nat, e: real, r: real, tw: seq<Fixed>,
                    w: int -> Complex, inverse: bool, s: nat, t: nat)
    requires StageNear(h, c, D, m, u, e, r, tw, w, inverse, s) && t < |c| == 5
    ensures OutputNear(h, c, D, m, u, e, tw, w, inverse, s, t)
  {
    var b0, b1 := Part(h, c, 0, TwiddleOf(tw, s, 0, u)), Part(h, c, 1, TwiddleOf(tw, s, 1, u));
    var b2, b3 := Part(h, c, 2, TwiddleOf(tw, s, 2, u)), Part(h, c, 3, TwiddleOf(tw, s, 3, u));
    var b4, ya, yb := Part(h, c, 4, TwiddleOf(tw, s, 4, u)), EntryAt(tw, s * m), EntryAt(tw, s * 2 * m);
    assert Outputs(h, c, tw, s, m, u, inverse) == Outputs5(h, b0, b1, b2, b3, b4, ya, yb);
    RootStage(w, |tw|, inverse, 5, s, m);
    ConstantNear(h, tw, w, s, 5, m, 1);
    ConstantNear(h, tw, w, s, 5, m, 2);
    DoubleTurn(s, m);
    hide Part, Value, Outputs5, ButterflyBin, Radices.Stage, TwiddleOf, Outputs, OutputNear, PartInRange, Close;
    hide StageNear, NearTwiddle, Radices.Stage;
    TwiddledPart(h, c, D, m, u, e, r, tw, w, inverse, s, 1);
    TwiddledPart(h, c, D, m, u, e, r, tw, w, inverse, s, 2);
    TwiddledPart(h, c, D, m, u, e, r, tw, w, inverse, s, 3);
    TwiddledPart(h, c, D, m, u, e, r, tw, w, inverse, s, 4);
    Rounded5(h, w, |tw|, inverse, s * m, b0, b1, b2, b3, b4, ya, yb, t);
    TwoErrors(h, c, D, m, u, e, r, tw, w, inverse, s, t, [Value(b0), Value(b1), Value(b2), Value(b3), Value(b4)], 10.2);
  }

  /** The terms of an output of the generic butterfly. */
  lemma GenericPartsClose(h: int, c: seq<Fixed>, D: seq<Complex>, m: nat, u: nat, e: real, r: real, tw: seq<Fixed>,
                          w: int -> Complex, inverse: bool, s: nat, k: nat)
    requires StageNear(h, c, D, m, u, e, r, tw, w, inverse, s)
    ensures h > 0 && c != [] && tw != [] && u < m
    ensures forall q :: 0 <= q < |c| ==>
      Close(Value(GenericParts(h, c, tw, s, k)[q]), ButterflyTerm(Divided(D, |c|), m, w, s, u, k)(q),
            PartError(e, |c|))
  {
    forall q | 0 <= q < |c|
      ensures Close(Value(GenericParts(h, c, tw, s, k)[q]), ButterflyTerm(Divided(D, |c|), m, w, s, u, k)(q),
                    PartError(e, |c|))
    {
      ReducedTwiddle(h, tw, w, inverse, s, q, k);
      assert q == 0 ==> s * q * k == 0;
      hide NearTwiddle, Close, PartError, Divided, Mul, At, Part, PartInRange, Twiddles.RootsOfUnity, RunningTwiddle;
      EntryClose(h, c, D, m, u, e, r, RunningTwiddle(tw, s, q, k), w, |tw|, inverse, q, s * q * k);
    }
  }

  lemma ReducedTwiddle(h: int, tw: seq<Fixed>, w: int -> Complex, inverse: bool, s: int, q: int, k: int)
    requires Twiddles.RootsOfUnity(w, |tw|, inverse) && TableNear(h, tw, w)
    ensures tw != [] && NearTwiddle(h, RunningTwiddle(tw, s, q, k), w(s * q * k))
  {
    var x := s * q * k;
    Twiddles.Reduced(w, |tw|, inverse, x);
    assert NearTwiddle(h, tw[x % |tw|], w(x % |tw|));
    hide NearTwiddle;
  }

  /** The sum of parts that are close. */
  lemma {:induction false} TotalsClose(ts: seq<Fixed>, f: int -> Complex, g: real)
    requires forall q :: 0 <= q < |ts| ==> Close(Value(ts[q]), f(q), g)
    ensures Close(Value(Totals(ts)), Sum(|ts|, f), Times(|ts| as real, g))
  {
    OneMore(|ts|, g);
    if ts == [] {
      CloseToItself(ZERO);
    } else {
      var i := |ts| - 1;
      var front := ts[..i];
      hide Close, Times;
      TotalsClose(front, f, g);
      ValueOfSum(Totals(front), ts[i]);
      hide Add, Plus, Value;
      CloseAdd(Value(Totals(front)), Sum(i, f), Value(ts[i]), f(i), Times(i as real, g), g);
    }
  }

  lemma ColumnGenericNear(h: int, c: seq<Fixed>, D: seq<Complex>, m: nat, u: nat, e: real, r: real, tw: seq<Fixed>,
                          w: int -> Complex, inverse: bool, s: nat, t: nat)
    requires StageNear(h, c, D, m, u, e, r, tw, w, inverse, s) && t < |c| && !(2 <= |c| <= 5)
    ensures h > 0 && tw != [] && u < m && OutputNear(h, c, D, m, u, e, tw, w, inverse, s, t)
  {
    hide *;
    GenericPartsClose(h, c, D, m, u, e, r, tw, w, inverse, s, t * m + u);
    GenericOutput(h, c, tw, s, m, u, inverse, t);
    GenericTotal(GenericParts(h, c, tw, s, t * m + u), Divided(D, |c|), m, u, e, w, s, t);
    OutputIsNear(h, c, D, m, u, e, tw, w, inverse, s, t);
  }

  lemma GenericOutput(h: int, c: seq<Fixed>, tw: seq<Fixed>, s: nat, m: nat, u: nat, inverse: bool, t: nat)
    requires h > 0 && t < |c| && !(2 <= |c| <= 5) && tw != []
    ensures Outputs(h, c, tw, s, m, u, inverse)[t] == Totals(GenericParts(h, c, tw, s, t * m + u))
  {
    hide Totals, GenericParts;
  }

  lemma GenericTotal(ts: seq<Fixed>, Z: seq<Complex>, m: nat, u: nat, e: real, w: int -> Complex, s: nat, t: nat)
    requires u < m && ts != []
    requires forall q :: 0 <= q < |ts| ==>
      Close(Value(ts[q]), ButterflyTerm(Z, m, w, s, u, t * m + u)(q), PartError(e, |ts|))
    ensures Close(Value(Totals(ts)), StageBin(Z, |ts|, m, w, s, u, t), e + 8.0 * |ts| as real)
  {
    var p := |ts|;
    BinOfColumn(Z, p, m, w, s, u, t);
    hide Close, PartError, Times, Totals, Value, ButterflyTerm, ButterflyBin, Sum;
    TotalsClose(ts, ButterflyTerm(Z, m, w, s, u, t * m + u), PartError(e, p));
    var out := Value(Totals(ts));
    CloseToItself(out);
    ErrorTotal(out, out, StageBin(Z, p, m, w, s, u, t), e, p, 0.0);
  }

  /** Every output of a column is within e plus eight times the radix of the exact one. */
  lemma ColumnClose(h: int, c: seq<Fixed>, D: seq<Complex>, m: nat, u: nat, e: real, r: real, tw: seq<Fixed>,
                    w: int -> Complex, inverse: bool, s: nat, t: nat)
    requires StageNear(h, c, D, m, u, e, r, tw, w, inverse, s) && t < |c|
    ensures h > 0 && tw != [] && u < m && OutputNear(h, c, D, m, u, e, tw, w, inverse, s, t)
  {
    assert tw != [] && u < m && h > 0;
    hide StageNear, OutputNear;
    if |c| == 2 {
      Column2Near(h, c, D, m, u, e, r, tw, w, inverse, s, t);
    } else if |c| == 3 {
      Column3Near(h, c, D, m, u, e, r, tw, w, inverse, s, t);
    } else if |c| == 4 {
      Column4Near(h, c, D, m, u, e, r, tw, w, inverse, s, t);
    } else if |c| == 5 {
      Column5Near(h, c, D, m, u, e, r, tw, w, inverse, s, t);
    } else {
      ColumnGenericNear(h, c, D, m, u, e, r, tw, w, inverse, s, t);
    }
  }

  // ----- A whole stage

  /** The samples are at most r in modulus. */
  ghost predicate SamplesWithin(x: seq<Complex>, r: real) {
    r >= 0.0 && forall j :: 0 <= j < |x| ==> Close(x[j], ZERO, r)
  }

  /** The entries from `off` on are within e of the transform of x divided by its length. */
  ghost predicate TransformClose(buf: seq<Fixed>, off: int, x: seq<Complex>, w: int -> Complex, s: int, e: real) {
    x != [] && forall j :: 0 <= j < |x| ==> BinClose(buf, off, x, w, s, e, j)
  }

  ghost predicate BinClose(buf: seq<Fixed>, off: int, x: seq<Complex>, w: int -> Complex, s: int, e: real, j: int)
    requires x != []
  {
    Close(Value(EntryAt(buf, off + j)), Scale(DftBin(x, w, s, j), Inverse(|x|)), e)
  }

  /** The transforms of the blocks of a stage, one after another. */
  function BlockTransforms(x: seq<Complex>, p: nat, m: nat, w: int -> Complex, s: int): (Y: seq<Complex>)
    requires m > 0
    ensures |Y| == p * m
  {
    seq(p * m, i => DftBin(Samples(x, i / m, p, m), w, s * p, i % m))
  }

  lemma BlockTransformAt(x: seq<Complex>, p: nat, m: nat, w: int -> Complex, s: int, q: nat, j: nat)
    requires q < p && j < m
    ensures 0 <= q * m + j < p * m
    ensures BlockTransforms(x, p, m, w, s)[q * m + j] == DftBin(Samples(x, q, p, m), w, s * p, j)
  {
    InBlocks(p, m, q, j);
    Residue(q, m, j);
    hide DftBin;
  }

  lemma StageOfBlocks(x: seq<Complex>, p: nat, m: nat, w: int -> Complex, n: nat, inverse: bool, s: nat)
    requires Twiddles.RootsOfUnity(w, n, inverse) && m > 0 && |x| == p * m && n == s * (p * m)
    ensures Butterfly(BlockTransforms(x, p, m, w, s), p, m, w, s) == Dft(x, w, s)
  {
    var Y := BlockTransforms(x, p, m, w, s);
    hide DftBin, Butterfly;
    forall q | 0 <= q < p
      ensures SubTransform(Y, x, p, m, w, s, q)
    {
      BlockBounds(p, m, q);
      forall j | 0 <= j < m
        ensures Y[q * m..q * m + m][j] == Dft(Samples(x, q, p, m), w, s * p)[j]
      {
        BlockTransformAt(x, p, m, w, s, q, j);
      }
    }
    hide BlockTransforms, Dft;
    DecimationInTime(w, n, inverse, x, Y, p, m, s);
  }

  // ----- Scaling

  lemma ScaleIsMul(a: Complex, c: real)
    ensures Scale(a, c) == Mul(FromReal(c), a)
  {}

  lemma ScaledBin(Y: seq<Complex>, p: nat, m: nat, w: int -> Complex, s: int, k: int, n: int)
    requires m > 0 && n > 0
    ensures ButterflyBin(Divided(Y, n), p, m, w, s, k) == Scale(ButterflyBin(Y, p, m, w, s, k), Inverse(n))
  {
    var f, g := ButterflyTerm(Y, m, w, s, k % m, k), ButterflyTerm(Divided(Y, n), m, w, s, k % m, k);
    var c := FromReal(Inverse(n));
    forall q | 0 <= q < p
      ensures g(q) == Mul(c, f(q))
    {
      var a := At(Y, q * m + k % m);
      AtDivided(Y, n, q * m + k % m);
      ScaleIsMul(a, Inverse(n));
      MulAssoc(c, a, w(s * q * k));
      hide Mul, Scale, Divided, At;
    }
    SumScale(p, c, f, g);
    ScaleIsMul(Sum(p, f), Inverse(n));
  }

  lemma InverseOfProduct(p: int, m: int)
    requires p > 0 && m > 0
    ensures p * m > 0 && Inverse(m) * Inverse(p) == Inverse(p * m)
  {
    InverseIs(p);
    InverseIs(m);
    assert (p * m) as real == p as real * m as real;
  }

  lemma DividedTwice(Y: seq<Complex>, m: int, p: int)
    requires p > 0 && m > 0
    ensures p * m > 0 && Divided(Divided(Y, m), p) == Divided(Y, p * m)
  {
    InverseOfProduct(p, m);
    hide Inverse;
    forall i | 0 <= i < |Y|
      ensures Divided(Divided(Y, m), p)[i] == Divided(Y, p * m)[i]
    {
      ScaledTwice(Y[i], Inverse(m), Inverse(p));
    }
  }

  lemma ScaledTwice(a: Complex, c: real, d: real)
    ensures Scale(Scale(a, c), d) == Scale(a, c * d)
  {}

  // ----- The exact values are no larger than the samples

  lemma BinWithin(x: seq<Complex>, w: int -> Complex, n: nat, inverse: bool, s: int, k: int, r: real)
    requires Twiddles.RootsOfUnity(w, n, inverse) && SamplesWithin(x, r) && x != []
    ensures Close(Scale(DftBin(x, w, s, k), Inverse(|x|)), ZERO, r)
  {
    var f, g := DftTerm(x, w, s, k), (i: int) => ZERO;
    forall j | 0 <= j < |x|
      ensures Close(f(j), g(j), r)
    {
      UnitModulus(w, n, inverse, s * j * k);
      assert Mul(ZERO, w(s * j * k)) == ZERO;
      hide Close, Norm, Mul, Twiddles.RootsOfUnity;
      CloseTurned(x[j], ZERO, w(s * j * k), r);
    }
    var t := Times(|x| as real, r);
    CloseSums(|x|, f, g, r);
    SumZero(|x|, g);
    MeanBound(DftBin(x, w, s, k), |x|, r);
  }

  lemma MeanBound(a: Complex, n: nat, r: real)
    requires n > 0 && Close(a, ZERO, Times(n as real, r))
    ensures Close(Scale(a, Inverse(n)), ZERO, r)
  {
    InverseIs(n);
    hide Close, Inverse;
    CloseScaled(a, ZERO, Times(n as real, r), Inverse(n));
    assert Scale(ZERO, Inverse(n)) == ZERO;
    Cancelled(n as real, r, Inverse(n));
    assert Times(Times(n as real, r), Inverse(n)) == n as real * r * Inverse(n);
  }

  // ----- The error of a stage

  lemma SamplesStayWithin(x: seq<Complex>, start: int, step: int, n: nat, r: real)
    requires SamplesWithin(x, r)
    ensures SamplesWithin(Samples(x, start, step, n), r)
  {
    CloseToItself(ZERO);
    CloseWithin(ZERO, ZERO, 0.0, r);
    hide Close;
    forall j | 0 <= j < n
      ensures Close(Samples(x, start, step, n)[j], ZERO, r)
    {
      var i := start + j * step;
      assert Samples(x, start, step, n)[j] == At(x, i);
    }
  }

  /** A column of blocks that hold their transforms. */
  lemma ColumnOfBlocks(h: int, before: seq<Fixed>, off: int, p: nat, m: nat, x: seq<Complex>, w: int -> Complex,
                       n: nat, inverse: bool, s: int, e: real, r: real, u: nat)
    requires h > 0 && p > 0 && u < m && r + e <= SampMax(h) as real
    requires Twiddles.RootsOfUnity(w, n, inverse) && SamplesWithin(x, r)
    requires forall q :: 0 <= q < p ==> TransformClose(before, off + q * m, Samples(x, q, p, m), w, s * p, e)
    ensures ColumnNear(h, ColumnOf(before, off + u, p, m), Divided(BlockTransforms(x, p, m, w, s), m), m, u, e, r)
  {
    var c, D := ColumnOf(before, off + u, p, m), Divided(BlockTransforms(x, p, m, w, s), m);
    forall q | 0 <= q < p
      ensures Close(Value(c[q]), At(D, q * m + u), e) && Close(At(D, q * m + u), ZERO, r)
    {
      var y := Samples(x, q, p, m);
      assert BinClose(before, off + q * m, y, w, s * p, e, u);
      BlockTransformAt(x, p, m, w, s, q, u);
      SamplesStayWithin(x, q, p, m, r);
      hide Close, DftBin, SamplesWithin, BlockTransforms, Scale, Inverse, Twiddles.RootsOfUnity, EntryAt;
      BinWithin(y, w, n, inverse, s * p, u, r);
      assert off + q * m + u == ColumnEntry(off + u, q, m);
    }
  }

  /** One entry of the buffer after a stage. */
  lemma StageEntry(h: int, before: seq<Fixed>, after: seq<Fixed>, off: int, p: nat, m: nat, x: seq<Complex>,
                   w: int -> Complex, inverse: bool, s: nat, tw: seq<Fixed>, e: real, r: real, u: nat, t: nat)
    requires h > 0 && p > 0 && u < m && t < p && r + e <= SampMax(h) as real && tw != []
    requires Twiddles.RootsOfUnity(w, |tw|, inverse) && SamplesWithin(x, r) && TableNear(h, tw, w)
    requires |x| == p * m && |tw| == s * (p * m)
    requires forall q :: 0 <= q < p ==> TransformClose(before, off + q * m, Samples(x, q, p, m), w, s * p, e)
    requires StageDone(h, before, after, off, p, m, s, tw, inverse, false)
    ensures 0 <= t * m + u < p * m && BinClose(after, off, x, w, s, e + 8.0 * p as real, t * m + u)
  {
    var c, D := ColumnOf(before, off + u, p, m), Divided(BlockTransforms(x, p, m, w, s), m);
    assert ColumnDone(h, before, after, off, p, m, s, tw, inverse, false, u);
    hide *;
    InBlocks(p, m, t, u);
    ColumnOfBlocks(h, before, off, p, m, x, w, |tw|, inverse, s, e, r, u);
    StageIsNear(h, c, D, m, u, e, r, tw, w, inverse, s);
    ColumnClose(h, c, D, m, u, e, r, tw, w, inverse, s, t);
    StageBins(x, p, m, w, |tw|, inverse, s, u, t);
    EntryOfOutput(h, before, after, off, p, m, x, w, inverse, s, tw, e, D, u, t);
  }

  lemma EntryOfOutput(h: int, before: seq<Fixed>, after: seq<Fixed>, off: int, p: nat, m: nat, x: seq<Complex>,
                      w: int -> Complex, inverse: bool, s: nat, tw: seq<Fixed>, e: real, D: seq<Complex>, u: nat,
                      t: nat)
    requires h > 0 && p > 0 && u < m && t < p && tw != [] && |x| == p * m && x != []
    requires ColumnDone(h, before, after, off, p, m, s, tw, inverse, false, u)
    requires OutputNear(h, ColumnOf(before, off + u, p, m), D, m, u, e, tw, w, inverse, s, t)
    requires StageBin(Divided(D, p), p, m, w, s, u, t) == Scale(DftBin(x, w, s, t * m + u), Inverse(|x|))
    ensures BinClose(after, off, x, w, s, e + 8.0 * p as real, t * m + u)
  {
    hide Close, StageBin, Divided, Value, EntryAt, Outputs, Scale, DftBin;
    assert ColumnOf(after, off + u, p, m)[t] == EntryAt(after, ColumnEntry(off + u, t, m));
    assert off + (t * m + u) == ColumnEntry(off + u, t, m);
  }

  lemma StageIsNear(h: int, c: seq<Fixed>, D: seq<Complex>, m: nat, u: nat, e: real, r: real, tw: seq<Fixed>,
                    w: int -> Complex, inverse: bool, s: nat)
    requires ColumnNear(h, c, D, m, u, e, r) && Twiddles.RootsOfUnity(w, |tw|, inverse) && TableNear(h, tw, w)
    requires |tw| == s * (|c| * m)
    ensures StageNear(h, c, D, m, u, e, r, tw, w, inverse, s)
  {}

  /** The exact outputs of a stage over the transforms of its blocks, divided twice, are the exact bins divided. */
  lemma StageBins(x: seq<Complex>, p: nat, m: nat, w: int -> Complex, n: nat, inverse: bool, s: nat, u: nat, t: nat)
    requires Twiddles.RootsOfUnity(w, n, inverse) && p > 0 && u < m && t < p && |x| == p * m && n == s * (p * m)
    ensures p * m > 0
    ensures StageBin(Divided(Divided(BlockTransforms(x, p, m, w, s), m), p), p, m, w, s, u, t)
         == Scale(DftBin(x, w, s, t * m + u), Inverse(p * m))
  {
    var Y, k := BlockTransforms(x, p, m, w, s), t * m + u;
    hide DftBin, ButterflyBin, BlockTransforms, Scale, Twiddles.RootsOfUnity;
    InBlocks(p, m, t, u);
    DividedTwice(Y, m, p);
    ScaledBin(Y, p, m, w, s, k, p * m);
    StageOfBlocks(x, p, m, w, n, inverse, s);
    assert Butterfly(Y, p, m, w, s)[k] == Dft(x, w, s)[k];
  }

  /** A stage over blocks within e of their transforms, divided by their length. */
  lemma StageClose(h: int, before: seq<Fixed>, after: seq<Fixed>, off: int, p: nat, m: nat, x: seq<Complex>,
                   w: int -> Complex, inverse: bool, s: nat, tw: seq<Fixed>, e: real, r: real)
    requires h > 0 && p > 0 && m > 0 && r + e <= SampMax(h) as real && tw != []
    requires Twiddles.RootsOfUnity(w, |tw|, inverse) && SamplesWithin(x, r) && TableNear(h, tw, w)
    requires |x| == p * m && |tw| == s * (p * m)
    requires forall q :: 0 <= q < p ==> TransformClose(before, off + q * m, Samples(x, q, p, m), w, s * p, e)
    requires StageDone(h, before, after, off, p, m, s, tw, inverse, false)
    ensures TransformClose(after, off, x, w, s, e + 8.0 * p as real)
  {
    hide BinClose, StageDone, TableNear, SamplesWithin, Twiddles.RootsOfUnity;
    BlockBounds(p, m, 0);
    var g := e + 8.0 * p as real;
    forall k | 0 <= k < p * m
      ensures BinClose(after, off, x, w, s, g, k)
    {
      BlockIndex(p, m, k);
      StageEntry(h, before, after, off, p, m, x, w, inverse, s, tw, e, r, k % m, k / m);
    }
  }
}
