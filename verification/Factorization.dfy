/** How a size is split into radices, and the number theory that shows there is one way. */
module Factorization {

  ghost predicate Divides(d: nat, n: nat) {
    d > 0 && n % d == 0
  }

  ghost predicate Prime(p: nat) {
    p >= 2 && forall d :: 2 <= d < p ==> !Divides(d, p)
  }

  /** No number from 2 up to, but not including, p divides n. */
  ghost predicate NoDivisorBelow(n: nat, p: nat) {
    forall d :: 2 <= d < p ==> !Divides(d, n)
  }

  // ----- Divisibility

  lemma Quotient(d: nat, n: nat) returns (t: nat)
    requires Divides(d, n)
    ensures n == d * t && t == n / d
  {
    t := n / d;
  }

  lemma Multiple(d: nat, t: nat, n: nat)
    requires d > 0 && n == d * t
    ensures Divides(d, n) && n / d == t
  {
    assert d * (n / d - t) == -(n % d) by {
      assert n == d * (n / d) + n % d;
    }
    Squeeze(d, n / d - t);
  }

  lemma Squeeze(d: int, k: int)
    requires -d < d * k <= 0
    ensures k == 0
  {}

  lemma DividesTransitive(d: nat, e: nat, n: nat)
    requires Divides(d, e) && Divides(e, n)
    ensures Divides(d, n)
  {
    var s := Quotient(d, e);
    var t := Quotient(e, n);
    assert n == d * (s * t);
    Multiple(d, s * t, n);
  }

  lemma QuotientDivides(d: nat, n: nat)
    requires Divides(d, n) && n > 0
    ensures n / d > 0 && Divides(n / d, n)
  {
    var t := Quotient(d, n);
    assert t > 0;
    assert n == t * d;
    Multiple(t, d, n);
  }

  lemma DividesLinear(q: nat, x: int, y: int, z: int, t: int)
    requires q > 0 && x % q == 0 && y % q == 0 && z == x - t * y
    ensures z % q == 0
  {
    var a, b := x / q, y / q;
    assert z == q * (a - t * b) by {
      assert x == q * a && y == q * b;
      assert t * (q * b) == q * (t * b);
    }
    ModOfMultiple(q, a - t * b);
  }

  lemma ModOfMultiple(q: nat, k: int)
    requires q > 0
    ensures (q * k) % q == 0
  {
    var n := q * k;
    assert q * (n / q - k) == -(n % q) by {
      assert n == q * (n / q) + n % q;
    }
    Squeeze(q, n / q - k);
  }

  // ----- Euclid's lemma

  /** A prime dividing r * b with 0 < r < q divides b. */
  lemma {:induction false} EuclidBelow(q: nat, r: nat, b: nat)
    requires Prime(q) && 0 < r < q && (r * b) % q == 0
    ensures Divides(q, b)
    decreases r
  {
    if r > 1 {
      var t, s := q / r, q % r;
      assert q == r * t + s;
      assert !Divides(r, q);
      assert (s * b) % q == 0 by {
        assert s * b == q * b - t * (r * b) by {
          assert (r * t + s) * b == t * (r * b) + s * b;
        }
        ModOfMultiple(q, b);
        DividesLinear(q, q * b, r * b, s * b, t);
      }
      EuclidBelow(q, s, b);
    }
  }

  lemma Euclid(q: nat, a: nat, b: nat)
    requires Prime(q) && Divides(q, a * b)
    ensures Divides(q, a) || Divides(q, b)
  {
    var r, t := a % q, a / q;
    if r != 0 {
      assert (r * b) % q == 0 by {
        assert r * b == a * b - b * (q * t) by {
          assert a == q * t + r;
          assert (q * t + r) * b == b * (q * t) + r * b;
        }
        ModOfMultiple(q, t);
        DividesLinear(q, a * b, q * t, r * b, b);
      }
      EuclidBelow(q, r, b);
    }
  }

  lemma PrimeDividesPrime(q: nat, p: nat)
    requires Prime(q) && Prime(p) && Divides(q, p)
    ensures q == p
  {
    if q > p {
      SmallModulus(p, q);
    }
  }

  lemma SmallModulus(a: nat, q: nat)
    requires a < q
    ensures a % q == a
  {}

  // ----- The least divisor

  function LeastDivisorFrom(n: nat, d: nat): (p: nat)
    requires 2 <= d <= n && NoDivisorBelow(n, d)
    ensures d <= p <= n && Divides(p, n) && NoDivisorBelow(n, p)
    decreases n - d
  {
    if n % d == 0 then d
    else if d == n then assert false; d
    else LeastDivisorFrom(n, d + 1)
  }

  function LeastDivisor(n: nat): (p: nat)
    requires n >= 2
    ensures 2 <= p <= n && Divides(p, n) && NoDivisorBelow(n, p)
  {
    LeastDivisorFrom(n, 2)
  }

  lemma LeastDivisorUnique(n: nat, p: nat)
    requires n >= 2 && p >= 2 && Divides(p, n) && NoDivisorBelow(n, p)
    ensures p == LeastDivisor(n)
  {
    LeastDivisorFromBelow(n, p);
    assert !(2 <= p < LeastDivisor(n));
  }

  lemma LeastDivisorFromBelow(n: nat, b: nat)
    requires n >= 2 && NoDivisorBelow(n, b)
    ensures LeastDivisor(n) >= b
  {
    assert Divides(LeastDivisor(n), n);
  }

  lemma LeastDivisorPrime(n: nat)
    requires n >= 2
    ensures Prime(LeastDivisor(n))
  {
    var p := LeastDivisor(n);
    forall d | 2 <= d < p
      ensures !Divides(d, p)
    {
      if Divides(d, p) {
        DividesTransitive(d, p, n);
      }
    }
  }

  // ----- The radices

  /** The first radix taken from n: 4 if possible, otherwise the least divisor. */
  function Radix(n: nat): (p: nat)
    requires n >= 2
    ensures 2 <= p <= n && Divides(p, n)
  {
    if n % 4 == 0 then 4 else LeastDivisor(n)
  }

  function Radices(n: nat): seq<nat>
    requires n >= 1
    decreases n
  {
    if n == 1 then [] else
      var p := Radix(n);
      QuotientSmaller(p, n);
      [p] + Radices(n / p)
  }

  lemma QuotientSmaller(p: nat, n: nat)
    requires p >= 2 && n >= 1 && Divides(p, n)
    ensures 1 <= n / p < n
  {
    var t := Quotient(p, n);
    assert 2 * t <= p * t;
  }

  function Product(rs: seq<nat>): nat {
    if rs == [] then 1 else rs[0] * Product(rs[1..])
  }

  /** The order the factors are taken in: fours, then two, then the odd numbers upwards. */
  function Rank(p: nat): nat {
    if p == 4 then 0 else if p == 2 then 1 else p
  }

  /** Fours, then at most one two, then odd primes that never decrease. */
  ghost predicate Canonical(rs: seq<nat>) {
    && (forall i :: 0 <= i < |rs| ==> rs[i] == 4 || Prime(rs[i]))
    && (forall i, j :: 0 <= i < j < |rs| ==> Rank(rs[i]) <= Rank(rs[j]) && !(rs[i] == 2 && rs[j] == 2))
  }

  lemma {:induction false} RadicesProduct(n: nat)
    requires n >= 1
    ensures Product(Radices(n)) == n
    decreases n
  {
    if n > 1 {
      var p := Radix(n);
      QuotientSmaller(p, n);
      RadicesProduct(n / p);
      assert Radices(n)[1..] == Radices(n / p);
      var t := Quotient(p, n);
    }
  }

  /** A divisor of n is a divisor of m * n. */
  lemma QuotientKeepsNoDivisor(n: nat, p: nat, b: nat)
    requires n >= 1 && Divides(p, n) && NoDivisorBelow(n, b)
    ensures NoDivisorBelow(n / p, b)
  {
    QuotientDivides(p, n);
    forall d | 2 <= d < b
      ensures !Divides(d, n / p)
    {
      if Divides(d, n / p) {
        DividesTransitive(d, n / p, n);
      }
    }
  }

  /** What remains after the first radix only yields radices of equal or later rank. */
  lemma RadixRankGrows(n: nat)
    requires n >= 2 && n / Radix(n) >= 2
    ensures Rank(Radix(n)) <= Rank(Radix(n / Radix(n)))
    ensures !(Radix(n) == 2 && Radix(n / Radix(n)) == 2)
  {
    var p := Radix(n);
    var t := Quotient(p, n);
    if p == 2 {
      OddRadix(t, 3);
    } else if p != 4 {
      LeastDivisorPrime(n);
      OddPrime(p);
      QuotientKeepsNoDivisor(n, p, p);
      assert !Divides(2, t);
      OddRadix(t, p);
    }
  }

  lemma OddRadix(t: nat, b: nat)
    requires t >= 2 && t % 2 == 1 && b >= 3 && (b == 3 || NoDivisorBelow(t, b))
    ensures Radix(t) == LeastDivisor(t) >= b && Rank(Radix(t)) >= b
  {
    assert !Divides(2, t);
    assert NoDivisorBelow(t, b);
    LeastDivisorFromBelow(t, b);
    LeastDivisorPrime(t);
    OddPrime(LeastDivisor(t));
  }

  lemma OddPrime(p: nat)
    requires Prime(p) && p != 2
    ensures p % 2 == 1 && p >= 3
  {
    assert !Divides(2, p);
  }

  lemma {:induction false} RadicesCanonical(n: nat)
    requires n >= 1
    ensures Canonical(Radices(n))
    decreases n
  {
    if n > 1 {
      var p := Radix(n);
      QuotientSmaller(p, n);
      var rest := Radices(n / p);
      RadicesCanonical(n / p);
      if p != 4 {
        LeastDivisorPrime(n);
      }
      if n / p > 1 {
        RadixRankGrows(n);
      }
      PrependCanonical(p, rest);
      assert Radices(n) == [p] + rest;
    }
  }

  lemma PrependCanonical(p: nat, rest: seq<nat>)
    requires Canonical(rest) && (p == 4 || Prime(p))
    requires rest != [] ==> Rank(p) <= Rank(rest[0]) && !(p == 2 && rest[0] == 2)
    ensures Canonical([p] + rest)
  {
    var rs := [p] + rest;
    forall i, j | 0 <= i < j < |rs|
      ensures Rank(rs[i]) <= Rank(rs[j]) && !(rs[i] == 2 && rs[j] == 2)
    {
      assert rs[j] == rest[j - 1];
      if i > 0 {
        assert rs[i] == rest[i - 1];
      } else if j > 1 {
        assert Rank(rest[0]) <= Rank(rest[j - 1]) && !(rest[0] == 2 && rest[j - 1] == 2);
        assert rs[j] == 4 || Prime(rs[j]);
      }
    }
  }

  // ----- There is only one such list

  lemma {:induction false} PrimeDividesProduct(q: nat, rs: seq<nat>) returns (i: nat)
    requires Prime(q) && Divides(q, Product(rs))
    requires forall k :: 0 <= k < |rs| ==> Prime(rs[k])
    ensures i < |rs| && rs[i] == q
  {
    if rs == [] {
      SmallModulus(1, q);
      assert false;
    } else {
      Euclid(q, rs[0], Product(rs[1..]));
      if Divides(q, rs[0]) {
        PrimeDividesPrime(q, rs[0]);
        i := 0;
      } else {
        i := PrimeDividesProduct(q, rs[1..]);
        i := i + 1;
      }
    }
  }

  lemma {:induction false} ProductOdd(rs: seq<nat>)
    requires forall k :: 0 <= k < |rs| ==> rs[k] % 2 == 1
    ensures Product(rs) % 2 == 1
  {
    if rs != [] {
      ProductOdd(rs[1..]);
      OddTimesOdd(rs[0], Product(rs[1..]));
    }
  }

  lemma OddTimesOdd(a: nat, b: nat)
    requires a % 2 == 1 && b % 2 == 1
    ensures (a * b) % 2 == 1
  {
    assert a * b == 2 * (a / 2 * b) + b;
  }

  /** The entries after the first, when the first is not a four: odd primes no smaller. */
  lemma OddTail(rs: seq<nat>)
    requires Canonical(rs) && rs != [] && rs[0] != 4
    ensures forall k :: 1 <= k < |rs| ==> Prime(rs[k]) && rs[k] % 2 == 1 && rs[k] >= Rank(rs[0])
  {
    forall k | 1 <= k < |rs|
      ensures Prime(rs[k]) && rs[k] % 2 == 1 && rs[k] >= Rank(rs[0])
    {
      assert Rank(rs[0]) <= Rank(rs[k]) && !(rs[0] == 2 && rs[k] == 2);
      assert rs[0] == 4 || Prime(rs[0]);
      assert rs[k] == 4 || Prime(rs[k]);
      assert rs[k] != 2;
      OddPrime(rs[k]);
    }
  }

  /** The first entry of a canonical list is the first radix of its product. */
  lemma CanonicalFirst(rs: seq<nat>)
    requires Canonical(rs) && rs != [] && Product(rs[1..]) > 0
    ensures Product(rs) >= 2 && Radix(Product(rs)) == rs[0]
    ensures Product(rs) / rs[0] == Product(rs[1..])
  {
    hide LeastDivisor, Radix;
    var p, t, n := rs[0], Product(rs[1..]), Product(rs);
    assert p == 4 || Prime(p);
    AtLeastFactor(p, t, n);
    Multiple(p, t, n);
    if p == 4 {
      FourDivides(n, t);
    } else {
      OddTail(rs);
      ProductOdd(rs[1..]);
      if p == 2 {
        TwiceOdd(n, t);
      } else {
        OddLeastDivisor(rs);
      }
    }
  }

  lemma AtLeastFactor(p: nat, t: nat, n: nat)
    requires t > 0 && n == p * t
    ensures n >= p
  {}

  lemma FourDivides(n: nat, t: nat)
    requires n == 4 * t && n >= 2
    ensures Radix(n) == 4
  {}

  lemma TwiceOdd(n: nat, t: nat)
    requires n == 2 * t && t % 2 == 1
    ensures Radix(n) == 2
  {
    LeastDivisorUnique(n, 2);
  }

  lemma OddLeastDivisor(rs: seq<nat>)
    requires Canonical(rs) && rs != [] && rs[0] != 4 && rs[0] != 2
    requires Product(rs) >= 2 && Divides(rs[0], Product(rs))
    requires forall k :: 1 <= k < |rs| ==> Prime(rs[k]) && rs[k] % 2 == 1 && rs[k] >= Rank(rs[0])
    ensures Radix(Product(rs)) == rs[0]
  {
    hide LeastDivisor, Product;
    var p, n := rs[0], Product(rs);
    assert p == 4 || Prime(p);
    OddPrime(p);
    ProductOdd(rs);
    var q := LeastDivisor(n);
    LeastDivisorPrime(n);
    var i := PrimeDividesProduct(q, rs);
    assert q >= p;
    assert Divides(p, n);
  }

  lemma {:induction false} CanonicalUnique(rs: seq<nat>)
    requires Canonical(rs)
    ensures Product(rs) >= 1 && rs == Radices(Product(rs))
  {
    if rs != [] {
      var rest := rs[1..];
      forall i, j | 0 <= i < j < |rest|
        ensures Rank(rest[i]) <= Rank(rest[j]) && !(rest[i] == 2 && rest[j] == 2)
      {
        assert rest[i] == rs[i + 1] && rest[j] == rs[j + 1];
      }
      CanonicalUnique(rest);
      CanonicalFirst(rs);
      assert rs == [rs[0]] + rest;
    }
  }

  // ----- How many stages there are

  function Pow2(k: nat): nat {
    if k == 0 then 1 else 2 * Pow2(k - 1)
  }

  lemma {:induction false} StageCount(n: nat)
    requires n >= 1
    ensures Pow2(|Radices(n)|) <= n
    decreases n
  {
    if n > 1 {
      var p := Radix(n);
      HalfAtMost(p, n);
      StageCount(n / p);
      hide Radix;
      assert Radices(n) == [p] + Radices(n / p);
    }
  }

  lemma HalfAtMost(p: nat, n: nat)
    requires p >= 2 && n >= 1 && Divides(p, n)
    ensures 1 <= n / p < n && 2 * (n / p) <= n
  {
    var t := Quotient(p, n);
    assert 2 * t <= p * t;
  }

  lemma {:induction false} Pow2Monotone(a: nat, b: nat)
    requires a <= b
    ensures 1 <= Pow2(a) <= Pow2(b)
    decreases b
  {
    if b > 0 {
      if a < b {
        Pow2Monotone(a, b - 1);
      } else {
        Pow2Monotone(a - 1, b - 1);
      }
    }
  }
}
