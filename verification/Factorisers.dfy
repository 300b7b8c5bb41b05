/** The two factorisers: `kf_factor` of the C library and `traits::prepare` of the C++ class.
    They cut the search off differently and produce the same list. */
module Factorisers {
  import opened Factorization

  const MAXFACTORS := 32
  const INT_MAX := 0x7fff_ffff

  /** p1, m1, p2, m2, ... with m the remainder after each radix. */
  function Stages(n: nat): seq<int>
    requires n >= 1
    decreases n
  {
    if n == 1 then [] else
      var p := Radix(n);
      QuotientSmaller(p, n);
      [p, n / p] + Stages(n / p)
  }

  /** The whole list; a single point is one stage of radix 1. */
  function FactorList(n: nat): seq<int>
    requires n >= 1
  {
    if n == 1 then [1, 1] else Stages(n)
  }

  lemma {:induction false} StagesAre(n: nat, i: nat)
    requires n >= 1 && i < |Radices(n)|
    ensures |Stages(n)| == 2 * |Radices(n)|
    ensures Stages(n)[2 * i] == Radices(n)[i]
    decreases n
  {
    var p := Radix(n);
    QuotientSmaller(p, n);
    StagesLength(n / p);
    if i > 0 {
      StagesAre(n / p, i - 1);
      assert Stages(n)[2 * i] == Stages(n / p)[2 * (i - 1)];
    }
  }

  lemma {:induction false} StagesLength(n: nat)
    requires n >= 1
    ensures |Stages(n)| == 2 * |Radices(n)|
    decreases n
  {
    if n > 1 {
      QuotientSmaller(Radix(n), n);
      StagesLength(n / Radix(n));
    }
  }

  /** The stages of n stand in a buffer from position i on. */
  ghost predicate Written(buf: seq<int>, i: nat, n: nat)
    requires n >= 1
  {
    i + |Stages(n)| <= |buf| && buf[i..i + |Stages(n)|] == Stages(n)
  }

  /** The first stage written, and the rest behind it. */
  lemma FirstWritten(buf: seq<int>, i: nat, n: nat)
    requires n >= 2 && Written(buf, i, n)
    ensures 1 <= n / Radix(n) < n && Radix(n) * (n / Radix(n)) == n
    ensures i + 1 < |buf| && buf[i] == Radix(n) && buf[i + 1] == n / Radix(n)
    ensures Radices(n) == [Radix(n)] + Radices(n / Radix(n))
    ensures Written(buf, i + 2, n / Radix(n))
  {
    var p := Radix(n);
    QuotientSmaller(p, n);
    var m := n / p;
    var t := Quotient(p, n);
    hide Radix;
    assert Stages(n) == [p, m] + Stages(m);
    assert buf[i..i + |Stages(n)|][0] == p && buf[i..i + |Stages(n)|][1] == m;
    assert buf[i + 2..i + 2 + |Stages(m)|] == buf[i..i + |Stages(n)|][2..];
  }

  /** Every size an int can hold fits the factor buffer. */
  lemma FactorListFits(n: nat)
    requires 1 <= n <= INT_MAX
    ensures |FactorList(n)| <= 2 * MAXFACTORS
  {
    StagesLength(n);
    StageCount(n);
    if |Radices(n)| >= 31 {
      Pow2Monotone(31, |Radices(n)|);
      TwoToThe31();
      assert false;
    }
  }

  lemma TwoToThe31()
    ensures Pow2(31) == 0x8000_0000
  {
    assert Pow2(8) == 0x100;
    assert Pow2(16) == 0x1_0000;
    assert Pow2(24) == 0x100_0000;
  }

  // ----- The search state shared by both

  /** p is the next number to try on n: nothing it has passed over divides n. */
  ghost predicate Trial(n: nat, p: nat) {
    if n == 1 then p == 4 || p == 1 else
      && n >= 2
      && (p == 4 || (p == 2 && n % 4 != 0) || (p >= 3 && p % 2 == 1 && p <= n && n % 2 == 1 && NoDivisorBelow(n, p)))
  }

  function Next(p: nat): nat {
    if p == 4 then 2 else if p == 2 then 3 else p + 2
  }

  lemma Advance(n: nat, p: nat)
    requires n >= 2 && Trial(n, p) && n % p != 0
    ensures Trial(n, Next(p)) && (p != 4 ==> p < Next(p) <= n)
  {
    if p == 2 {
      AdvanceTwo(n);
    } else if p != 4 {
      AdvanceOdd(n, p);
    }
  }

  lemma AdvanceTwo(n: nat)
    requires n >= 2 && n % 2 != 0
    ensures NoDivisorBelow(n, 3) && 3 <= n
  {
    assert !Divides(2, n);
    WithinNumber(n, 3);
  }

  lemma AdvanceOdd(n: nat, p: nat)
    requires n >= 2 && p >= 3 && p % 2 == 1 && n % 2 == 1 && n % p != 0 && NoDivisorBelow(n, p)
    ensures NoDivisorBelow(n, p + 2) && p + 2 <= n
  {
    assert !Divides(p, n) && !Divides(2, n);
    hide Divides;
    if Divides(p + 1, n) {
      Half(p + 1);
      DividesTransitive(2, p + 1, n);
    }
    WithinNumber(n, p + 2);
  }

  lemma Half(d: nat)
    requires d % 2 == 0
    ensures Divides(2, d)
  {}

  /** n divides itself, so the search never passes n. */
  lemma WithinNumber(n: nat, p: nat)
    requires n >= 2 && NoDivisorBelow(n, p)
    ensures p <= n
  {
    Multiple(n, 1, n);
    assert Divides(n, n);
  }

  /** Past the square root of n there is nothing left to find but n itself. */
  lemma Jump(n: nat, p: nat)
    requires n >= 2 && p >= 2 && p != 4 && Trial(n, p) && p * p > n
    ensures Trial(n, n)
  {
    forall d | 2 <= d < n
      ensures !Divides(d, n)
    {
      if Divides(d, n) {
        var e := SmallerDivisor(n, d, p);
      }
    }
    if p == 2 {
      assert n < 4;
    }
  }

  /** Of two complementary divisors one lies below the square root. */
  lemma SmallerDivisor(n: nat, d: nat, p: nat) returns (e: nat)
    requires Divides(d, n) && 2 <= d < n && p * p > n
    ensures 2 <= e < p && Divides(e, n)
  {
    var t := Quotient(d, n);
    QuotientDivides(d, n);
    if d >= p && t >= p {
      ProductAtLeast(d, t, p);
      assert false;
    }
    assert t != 1;
    e := if d < p then d else t;
  }

  lemma ProductAtLeast(a: nat, b: nat, c: nat)
    requires a >= c && b >= c
    ensures a * b >= c * c
  {
    assert a * b == c * c + (a - c) * b + c * (b - c);
  }

  /** When p divides n it is the radix to take, and the search may go on from p. */
  lemma Take(n: nat, p: nat)
    requires n >= 2 && p > 0 && Trial(n, p) && n % p == 0
    ensures p == Radix(n) && 1 <= n / p < n
    ensures n / p >= 2 ==> Trial(n / p, p) && (p == 4 || p <= n / p)
  {
    assert Divides(p, n);
    if p == 2 {
      TakeTwo(n);
    } else if p != 4 {
      TakeOdd(n, p);
    }
    QuotientSmaller(p, n);
  }

  lemma TakeTwo(n: nat)
    requires n >= 2 && n % 2 == 0 && n % 4 != 0
    ensures Radix(n) == 2 && (n / 2) % 4 != 0
  {
    assert Divides(2, n);
    LeastDivisorUnique(n, 2);
  }

  lemma TakeOdd(n: nat, p: nat)
    requires n >= 2 && p >= 3 && n % 2 == 1 && Divides(p, n) && NoDivisorBelow(n, p)
    ensures Radix(n) == p
    ensures n / p >= 2 ==> (n / p) % 2 == 1 && NoDivisorBelow(n / p, p) && p <= n / p
  {
    LeastDivisorUnique(n, p);
    QuotientKeepsNoDivisor(n, p, p);
    assert n % 4 != 0;
    if n / p >= 2 {
      WithinNumber(n / p, p);
      assert !Divides(2, n / p);
    }
  }

  lemma FirstTrial(n: nat)
    requires n >= 1
    ensures Trial(n, 4)
  {}

  /** One step of either search: go on to the next candidate, or cut off at n. */
  lemma Proceed(n: nat, p: nat)
    requires n >= 1 && p > 0 && Trial(n, p) && n % p != 0
    ensures n >= 2 ==> Trial(n, Next(p)) && Next(p) <= n && (p != 4 ==> p < Next(p))
    ensures Next(p) * Next(p) > n ==> Trial(n, n)
    ensures Next(p) >= 2 && Next(p) != 4 && (n >= 2 && p != 4 ==> p < n) && (n == 1 ==> p == 4)
  {
    if n >= 2 {
      Advance(n, p);
      if Next(p) * Next(p) > n {
        Jump(n, Next(p));
      }
    }
  }

  /** A candidate that divides is taken; the list of n starts with it. */
  lemma Taken(n: nat, p: nat)
    requires n >= 1 && p > 0 && Trial(n, p) && n % p == 0
    ensures 1 <= n / p <= n && (n >= 2 ==> n / p < n) && (n == 1 ==> n / p == 1)
    ensures FactorList(n) == [p, n / p] + Stages(n / p)
    ensures n / p >= 2 ==> Trial(n / p, p) && FactorList(n / p) == Stages(n / p) && (p == 4 || p <= n / p)
    ensures n / p == 1 ==> Stages(n / p) == []
  {
    if n >= 2 {
      Take(n, p);
      hide Radix, Trial;
      assert Stages(n) == [p, n / p] + Stages(n / p);
    }
  }

  // ----- kf_factor

  function FloorSqrt(n: nat): (s: nat)
    ensures s * s <= n < (s + 1) * (s + 1)
  {
    if n == 0 then 0 else
      var s := FloorSqrt(n - 1);
      if (s + 1) * (s + 1) <= n then s + 1 else s
  }

  lemma PastSquareRoot(n: nat, n0: nat, p: nat)
    requires n <= n0 && p > FloorSqrt(n0)
    ensures p * p > n
  {
    hide FloorSqrt;
    var s := FloorSqrt(n0);
    ProductAtLeast(p, p, s + 1);
  }

  lemma SmallSquareRoot(n0: nat)
    ensures FloorSqrt(n0) >= 2 ==> n0 >= 4
  {
    var s := FloorSqrt(n0);
    if s >= 2 {
      assert s * s >= 2 * s;
    }
  }

  /** The inner loop: candidates are tried until one divides n. */
  method SearchRadix(n: nat, from: nat, floorSqrt: nat, ghost n0: nat) returns (p: nat)
    requires 1 <= n <= n0 && floorSqrt == FloorSqrt(n0) && (n == 1 ==> n0 == 1)
    requires from > 0 && Trial(n, from) && (from == 4 || from <= n)
    ensures p > 0 && Trial(n, p) && n % p == 0
  {
    hide Trial, FloorSqrt;
    SmallSquareRoot(n0);
    p := from;
    while n % p != 0
      invariant p > 0 && Trial(n, p) && (p == 4 || p <= n)
      decreases if p == 4 then n + 1 else n - p
    {
      Proceed(n, p);
      match p {
        case 4 => p := 2;
        case 2 => p := 3;
        case _ => p := p + 2;
      }
      if p > floorSqrt {
        PastSquareRoot(n, n0, p);
        p := n;
      }
    }
  }

  /** The buffer with the first entries written. */
  ghost function Filled(emitted: seq<int>, initial: seq<int>): seq<int>
    requires |emitted| <= |initial|
  {
    emitted + initial[|emitted|..]
  }

  ghost function Overwritten(buffer: seq<int>, pos: nat, p: int, m: int): seq<int>
    requires pos + 2 <= |buffer|
  {
    buffer[..pos] + [p, m] + buffer[pos + 2..]
  }

  /** `*facbuf++ = p; *facbuf++ = m;` */
  method Emit(facbuf: array<int>, pos: nat, p: int, m: int)
    requires pos + 2 <= facbuf.Length
    modifies facbuf
    ensures facbuf[..] == Overwritten(old(facbuf[..]), pos, p, m)
  {
    facbuf[pos] := p;
    facbuf[pos + 1] := m;
  }

  method KfFactor(n0: nat, facbuf: array<int>)
    requires 1 <= n0 <= INT_MAX && facbuf.Length == 2 * MAXFACTORS
    modifies facbuf
    ensures |FactorList(n0)| <= facbuf.Length
    ensures facbuf[..] == FactorList(n0) + old(facbuf[..])[|FactorList(n0)|..]
  {
    hide *;
    FactorListFits(n0);
    FirstTrial(n0);
    var n, p, pos := n0, 4, 0;
    var floorSqrt := FloorSqrt(n0);
    ghost var emitted, rest, initial := [], FactorList(n0), facbuf[..];
    WholeList([], initial);
    while true
      invariant 1 <= n <= n0 && p > 0 && Trial(n, p) && (n == 1 ==> n0 == 1) && (p == 4 || p <= n)
      invariant rest == FactorList(n) && emitted + rest == FactorList(n0)
      invariant pos == |emitted| <= |initial| && facbuf[..] == Filled(emitted, initial)
      decreases n
    {
      p := SearchRadix(n, p, floorSqrt, n0);
      Taken(n, p);
      n := n / p;
      OneMoreStage(emitted, rest, p, n, Stages(n), initial);
      Emit(facbuf, pos, p, n);
      pos := pos + 2;
      emitted, rest := emitted + [p, n], Stages(n);
      if n <= 1 {
        break;
      }
    }
    assert emitted + [] == emitted;
    WholeList(emitted, initial);
  }

  lemma WholeList(emitted: seq<int>, initial: seq<int>)
    requires |emitted| <= |initial|
    ensures Filled(emitted, initial) == emitted + initial[|emitted|..]
  {}

  lemma OneMoreStage(emitted: seq<int>, rest: seq<int>, p: int, m: int, more: seq<int>, initial: seq<int>)
    requires rest == [p, m] + more && |emitted + rest| <= |initial|
    ensures emitted + rest == emitted + [p, m] + more
    ensures |emitted| + 2 <= |initial|
    ensures Overwritten(Filled(emitted, initial), |emitted|, p, m) == Filled(emitted + [p, m], initial)
  {}

  // ----- traits::prepare

  /** The stage vectors p1, p2, ... and m1, m2, ... read as one list. */
  function Interleaved(radix: seq<int>, remainder: seq<int>): seq<int>
    requires |radix| == |remainder|
  {
    if radix == [] then [] else
      Interleaved(radix[..|radix| - 1], remainder[..|radix| - 1]) + [radix[|radix| - 1], remainder[|radix| - 1]]
  }

  /** The stage vectors of the C++ class. */
  class StageVectors {
    var stageRadix: seq<int>
    var stageRemainder: seq<int>

    constructor ()
      ensures stageRadix == [] && stageRemainder == []
    {
      stageRadix, stageRemainder := [], [];
    }

    /** The inner loop, cut off where p * p passes what is left of n. */
    static method SearchRadix(n: nat, from: nat) returns (p: nat)
      requires n >= 1 && from > 0 && Trial(n, from) && (from == 4 || from <= n)
      ensures p > 0 && Trial(n, p) && n % p == 0
    {
      hide Trial;
      p := from;
      while n % p != 0
        invariant p > 0 && Trial(n, p) && (p == 4 || p <= n)
        decreases if p == 4 then n + 1 else n - p
      {
        Proceed(n, p);
        match p {
          case 4 => p := 2;
          case 2 => p := 3;
          case _ => p := p + 2;
        }
        if p * p > n {
          p := n;
        }
      }
    }

    method Prepare(nfft: nat)
      requires nfft >= 1 && |stageRadix| == |stageRemainder|
      modifies this
      ensures |stageRadix| == |stageRemainder|
      ensures Interleaved(stageRadix, stageRemainder)
           == Interleaved(old(stageRadix), old(stageRemainder)) + FactorList(nfft)
    {
      hide Trial, FactorList, Stages;
      FirstTrial(nfft);
      var n, p := nfft, 4;
      ghost var rest := FactorList(nfft);
      ghost var all := Interleaved(stageRadix, stageRemainder) + rest;
      while true
        invariant 1 <= n && p > 0 && Trial(n, p) && (p == 4 || p <= n)
        invariant |stageRadix| == |stageRemainder| && rest == FactorList(n)
        invariant Interleaved(stageRadix, stageRemainder) + rest == all
        decreases n
      {
        p := SearchRadix(n, p);
        Taken(n, p);
        n := n / p;
        ghost var so := Interleaved(stageRadix, stageRemainder);
        stageRadix := stageRadix + [p];
        stageRemainder := stageRemainder + [n];
        assert so + rest == so + [p, n] + Stages(n);
        rest := Stages(n);
        if n <= 1 {
          break;
        }
      }
    }
  }

  /** Both factorisers on the same size. */
  method FactoriseBothWays(n: nat) returns (c: seq<int>, cpp: seq<int>)
    requires 1 <= n <= INT_MAX
    ensures c == cpp == FactorList(n)
  {
    hide FactorList;
    var facbuf := new int[2 * MAXFACTORS];
    KfFactor(n, facbuf);
    var stages := new StageVectors();
    stages.Prepare(n);
    cpp := Interleaved(stages.stageRadix, stages.stageRemainder);
    c := facbuf[..|cpp|];
  }
}
