/** Sizes whose only prime factors are 2, 3 and 5, and the search for the next one. */
module FastSizes {
  import opened Factorization
  import opened Factorisers

  ghost predicate Fast(k: nat) {
    k >= 1 && forall q :: Prime(q) && Divides(q, k) ==> q == 2 || q == 3 || q == 5
  }

  /** `while (m % d == 0) m /= d;` for a prime d: every other prime divisor stays, no new one comes. */
  method StripFactor(n: nat, d: nat) returns (m: nat)
    requires n >= 1 && Prime(d)
    ensures m >= 1 && !Divides(d, m)
    ensures forall q :: Prime(q) && q != d ==> (Divides(q, m) <==> Divides(q, n))
    ensures forall q :: Prime(q) && Divides(q, m) ==> Divides(q, n)
  {
    m := n;
    while m % d == 0
      invariant m >= 1
      invariant forall q :: Prime(q) && q != d ==> (Divides(q, m) <==> Divides(q, n))
      invariant forall q :: Prime(q) && Divides(q, m) ==> Divides(q, n)
      decreases m
    {
      QuotientSmaller(d, m);
      forall q | Prime(q)
        ensures q != d ==> (Divides(q, m / d) <==> Divides(q, m))
        ensures Divides(q, m / d) ==> Divides(q, m)
      {
        PrimeOfQuotient(q, d, m);
      }
      m := m / d;
    }
  }

  lemma PrimeOfQuotient(q: nat, d: nat, m: nat)
    requires Prime(q) && Prime(d) && m >= 1 && Divides(d, m)
    ensures Divides(q, m / d) ==> Divides(q, m)
    ensures q != d && Divides(q, m) ==> Divides(q, m / d)
  {
    var t := Quotient(d, m);
    if Divides(q, t) {
      QuotientDivides(d, m);
      DividesTransitive(q, t, m);
    } else if q != d && Divides(q, m) {
      Euclid(q, d, t);
      if Divides(q, d) {
        PrimeDividesPrime(q, d);
      }
    }
  }

  lemma SmallPrimes()
    ensures Prime(2) && Prime(3) && Prime(5)
  {
    assert 3 % 2 == 1 && 5 % 2 == 1 && 5 % 3 == 2 && 5 % 4 == 1;
  }

  /** The test in the loop of `kiss_fft_next_fast_size`. */
  method IsFast(n: nat) returns (fast: bool)
    requires n >= 1
    ensures fast <==> Fast(n)
  {
    SmallPrimes();
    var m2 := StripFactor(n, 2);
    var m3 := StripFactor(m2, 3);
    var m := StripFactor(m3, 5);
    fast := m <= 1;
    if fast {
      forall q | Prime(q) && Divides(q, n)
        ensures q == 2 || q == 3 || q == 5
      {
        if q != 2 && q != 3 && q != 5 {
          assert Divides(q, m);
          SmallModulus(1, q);
        }
      }
    } else {
      var q := LeastDivisor(m);
      LeastDivisorPrime(m);
      assert Divides(q, m3) && Divides(q, m2) && Divides(q, n);
    }
  }

  /** Powers of two are fast, so the search ends. */
  lemma {:induction false} Pow2Fast(k: nat)
    ensures Fast(Pow2(k))
  {
    Pow2Monotone(0, k);
    forall q | Prime(q) && Divides(q, Pow2(k))
      ensures q == 2 || q == 3 || q == 5
    {
      if k == 0 {
        SmallModulus(1, q);
      } else {
        Pow2Fast(k - 1);
        SmallPrimes();
        Euclid(q, 2, Pow2(k - 1));
        if Divides(q, 2) {
          PrimeDividesPrime(q, 2);
        }
      }
    }
  }

  lemma {:induction false} Pow2AtLeast(k: nat)
    ensures Pow2(k) >= k + 1
  {
    if k > 0 {
      Pow2AtLeast(k - 1);
    }
  }

  /** The least fast size from n on. */
  method NextFastSize(n0: nat) returns (n: nat)
    requires n0 >= 1
    ensures n >= n0 && Fast(n)
    ensures forall k :: n0 <= k < n ==> !Fast(k)
  {
    hide Fast;
    n := n0;
    Pow2AtLeast(n0);
    Pow2Fast(n0);
    while true
      invariant n0 <= n <= Pow2(n0)
      invariant forall k :: n0 <= k < n ==> !Fast(k)
      decreases Pow2(n0) - n
    {
      var fast := IsFast(n);
      if fast {
        break;
      }
      n := n + 1;
    }
  }

  /** The macro for real transforms: the least even fast size from n on. */
  method NextFastSizeReal(n: nat) returns (r: nat)
    requires n >= 1
    ensures r >= n && r % 2 == 0 && Fast(r)
    ensures forall k :: n <= k < r && k % 2 == 0 ==> !Fast(k)
  {
    var half := NextFastSize((n + 1) / 2);
    r := half * 2;
    DoubleFast(half);
    forall k | n <= k < r && k % 2 == 0
      ensures !Fast(k)
    {
      DoubleFast(k / 2);
      assert !Fast(k / 2);
    }
  }

  lemma DoubleFast(k: nat)
    requires k >= 1
    ensures Fast(2 * k) <==> Fast(k)
  {
    SmallPrimes();
    Multiple(2, k, 2 * k);
    forall q | Prime(q)
      ensures q != 2 ==> (Divides(q, 2 * k) <==> Divides(q, k))
      ensures Divides(q, k) ==> Divides(q, 2 * k)
    {
      PrimeOfQuotient(q, 2, 2 * k);
    }
  }

  // ----- A fast size never needs the generic butterfly

  lemma {:induction false} RadixDivides(n: nat, i: nat)
    requires n >= 1 && i < |Radices(n)|
    ensures Divides(Radices(n)[i], n)
    decreases n
  {
    var p := Radix(n);
    QuotientSmaller(p, n);
    if i > 0 {
      RadixDivides(n / p, i - 1);
      QuotientDivides(p, n);
      DividesTransitive(Radices(n)[i], n / p, n);
    }
  }

  /** Every radix has a butterfly of its own. */
  ghost predicate SmallRadices(rs: seq<nat>) {
    forall i :: 0 <= i < |rs| ==> rs[i] in {2, 3, 4, 5}
  }

  lemma FastHasSmallRadices(n: nat)
    requires n >= 1 && Fast(n)
    ensures SmallRadices(Radices(n))
  {
    RadicesCanonical(n);
    var rs := Radices(n);
    forall i | 0 <= i < |rs|
      ensures rs[i] in {2, 3, 4, 5}
    {
      RadixDivides(n, i);
      assert rs[i] == 4 || Prime(rs[i]);
    }
  }

  lemma SmallRadicesAreFast(n: nat)
    requires n >= 1 && SmallRadices(Radices(n))
    ensures Fast(n)
  {
    RadicesProduct(n);
    hide Radices;
    forall q | Prime(q) && Divides(q, n)
      ensures q == 2 || q == 3 || q == 5
    {
      PrimeOfSmallProduct(q, Radices(n));
    }
  }

  /** A size is fast exactly when all radices it splits into are small. */
  lemma FastRadices(n: nat)
    requires n >= 1
    ensures Fast(n) <==> SmallRadices(Radices(n))
  {
    hide Radices, Fast, SmallRadices;
    if Fast(n) {
      FastHasSmallRadices(n);
    }
    if SmallRadices(Radices(n)) {
      SmallRadicesAreFast(n);
    }
  }

  /** From two points on a size is fast exactly when every radix in the factor list written for it
      has a butterfly of its own. (The list of one point is a stage of radix 1, which has none.) */
  lemma FastExactlyWithSmallRadices(n: nat)
    requires n >= 2
    ensures Fast(n) <==> forall i :: 0 <= 2 * i < |FactorList(n)| ==> FactorList(n)[2 * i] in {2, 3, 4, 5}
  {
    FastRadices(n);
    StagesLength(n);
    hide Fast, Radices, Stages;
    forall i: nat | i < |Radices(n)|
      ensures FactorList(n)[2 * i] == Radices(n)[i]
    {
      StagesAre(n, i);
    }
  }

  lemma {:induction false} PrimeOfSmallProduct(q: nat, rs: seq<nat>)
    requires Prime(q) && Divides(q, Product(rs))
    requires forall i :: 0 <= i < |rs| ==> rs[i] in {2, 3, 4, 5}
    ensures q == 2 || q == 3 || q == 5
  {
    if rs == [] {
      SmallModulus(1, q);
      assert false;
    } else {
      Euclid(q, rs[0], Product(rs[1..]));
      if Divides(q, rs[0]) {
        PrimeOfSmall(q, rs[0]);
      } else {
        PrimeOfSmallProduct(q, rs[1..]);
      }
    }
  }

  lemma PrimeOfSmall(q: nat, p: nat)
    requires Prime(q) && Divides(q, p) && p in {2, 3, 4, 5}
    ensures q == 2 || q == 3 || q == 5
  {
    SmallPrimes();
    if p == 4 {
      Euclid(q, 2, 2);
      PrimeDividesPrime(q, 2);
    } else {
      PrimeDividesPrime(q, p);
    }
  }
}
