/** The transform sizes the locationd estimators ask for: products of 2, 3, 5, 7 and 11. */
module GoodSize {

  const PRIMES: seq<nat> := [2, 3, 5, 7, 11]

  function Mul(a: nat, b: nat): nat { a * b }

  ghost predicate Divides(d: nat, q: nat) {
    exists k: nat :: q == Mul(d, k)
  }

  // a product of the given primes from the i-th on
  ghost predicate Product(i: nat, q: nat) {
    q == 1 || exists j: nat, rest: nat :: i <= j < 5 && rest < q && q == Mul(PRIMES[j], rest) && Product(i, rest)
  }

  ghost predicate Good(q: nat) {
    Product(0, q)
  }

  ghost predicate Prime(q: nat) {
    q > 1 && forall d: nat :: 1 < d < q ==> !Divides(d, q)
  }

  // What the loop over the i-th prime, and those inside it, can come to from the factor f.
  ghost predicate Reach(i: nat, f: nat, m: nat)
    decreases 5 - i, m - f
  {
    if i >= 5 then m == f
    else
      && m >= f > 0
      && (Reach(i + 1, f, m) || (m >= Mul(f, PRIMES[i]) > f && Reach(i, Mul(f, PRIMES[i]), m)))
  }

  // ---- Multiplication ----

  lemma MulLaws(a: nat, b: nat, c: nat)
    ensures Mul(a, b) == Mul(b, a) && Mul(Mul(a, b), c) == Mul(a, Mul(b, c)) && Mul(a, 1) == a && Mul(a, 0) == 0
  {
  }

  lemma MulGrows(a: nat, b: nat)
    requires a > 0 && b > 1
    ensures Mul(a, b) > a
  {
  }

  lemma MulKeepsOrder(a: nat, b: nat, c: nat)
    requires b <= c
    ensures Mul(a, b) <= Mul(a, c)
  {
  }

  lemma MulIsStrict(a: nat, b: nat, c: nat)
    requires a > 0 && b < c
    ensures Mul(a, b) < Mul(a, c)
  {
    assert a * (c - b) > 0;
  }

  lemma MulCancels(a: nat, b: nat, c: nat)
    requires a > 0 && Mul(a, b) == Mul(a, c)
    ensures b == c
  {
    hide Mul;
    if b < c {
      MulIsStrict(a, b, c);
    } else if c < b {
      MulIsStrict(a, c, b);
    }
  }

  lemma DividesThrough(d: nat, p: nat, q: nat)
    requires Divides(d, p) && Divides(p, q)
    ensures Divides(d, q)
  {
    hide Mul;
    var a: nat :| p == Mul(d, a);
    var b: nat :| q == Mul(p, b);
    MulLaws(d, a, b);
  }

  // ---- The products are exactly what the loops can come to ----

  lemma ProductGrows(i: nat, j: nat, q: nat)
    requires i <= j < 5 && Product(i, q) && q > 0
    ensures Product(i, Mul(q, PRIMES[j])) && Mul(q, PRIMES[j]) > q
  {
    hide Mul;
    MulLaws(q, PRIMES[j], 0);
    MulGrows(q, PRIMES[j]);
  }

  lemma ProductIsPositive(i: nat, q: nat)
    requires Product(i, q)
    ensures q > 0
  {
  }

  lemma {:induction false} ProductWidens(i: nat, q: nat)
    requires Product(i + 1, q)
    ensures Product(i, q)
    decreases q
  {
    hide Mul;
    if q != 1 {
      var j: nat, rest: nat :| i + 1 <= j < 5 && rest < q && q == Mul(PRIMES[j], rest) && Product(i + 1, rest);
      ProductWidens(i, rest);
    }
  }

  lemma {:induction false} ReachedIsProduct(i: nat, f: nat, m: nat) returns (q: nat)
    requires f > 0 && Reach(i, f, m)
    ensures m == Mul(f, q) && Product(i, q)
    decreases 5 - i, m - f
  {
    hide Mul, Product;
    if i >= 5 {
      MulLaws(f, 1, 1);
      q := 1;
      assert Product(i, 1) by { One(i); }
    } else if Reach(i + 1, f, m) {
      q := ReachedIsProduct(i + 1, f, m);
      ProductWidens(i, q);
    } else {
      var p := PRIMES[i];
      var rest := ReachedIsProduct(i, Mul(f, p), m);
      q := Mul(rest, p);
      ProductIsPositive(i, rest);
      ProductGrows(i, i, rest);
      MulLaws(f, p, rest);
      MulLaws(rest, p, 1);
    }
  }

  lemma One(i: nat)
    ensures Product(i, 1)
  {
  }

  // a product that the i-th prime does not divide does without it
  lemma {:induction false} ProductNarrows(i: nat, q: nat)
    requires i < 5 && Product(i, q) && !Divides(PRIMES[i], q)
    ensures Product(i + 1, q)
    decreases q
  {
    hide Mul;
    if q != 1 {
      var j: nat, rest: nat :| i <= j < 5 && rest < q && q == Mul(PRIMES[j], rest) && Product(i, rest);
      if Divides(PRIMES[i], rest) {
        MulLaws(PRIMES[j], rest, 1);
        assert Divides(rest, q);
        DividesThrough(PRIMES[i], rest, q);
        assert false;
      }
      ProductNarrows(i, rest);
    }
  }

  // and one that it divides stays a product without one factor of it
  lemma {:induction false} ProductLosesFactor(i: nat, q: nat, smaller: nat)
    requires i < 5 && Product(i, q) && q == Mul(PRIMES[i], smaller)
    ensures Product(i, smaller)
    decreases q
  {
    hide Mul, Divides;
    var p := PRIMES[i];
    if q == 1 {
      NotOne(p, smaller);
      assert false;
    }
    var j: nat, rest: nat :| i <= j < 5 && rest < q && q == Mul(PRIMES[j], rest) && Product(i, rest);
    if j == i {
      MulCancels(p, rest, smaller);
    } else {
      var r := PRIMES[j];
      MulLaws(r, rest, 1);
      PrimesApart(j, i);
      var x := CoprimeDivides(p, r, rest, smaller);
      ProductIsPositive(i, rest);
      ProductLosesFactor(i, rest, x);
      MulLaws(p, 0, 0);
      ProductIsPositive(i, x);
      ProductGrows(i, j, x);
      assert smaller == Mul(x, r) by {
        MulLaws(p, x, r);
        MulCancels(p, smaller, Mul(x, r));
      }
    }
  }

  lemma NotOne(p: nat, k: nat)
    requires p > 1
    ensures Mul(p, k) != 1
  {
    if k > 0 {
      assert p * k >= p;
    }
  }

  lemma {:induction false} ProductIsReached(i: nat, f: nat, q: nat)
    requires f > 0 && Product(i, q)
    ensures Reach(i, f, Mul(f, q))
    decreases 5 - i, q
  {
    hide Mul, Divides, Product;
    ProductIsPositive(i, q);
    MulKeepsOrder(f, 1, q);
    MulLaws(f, 1, 1);
    if i >= 5 {
      assert q == 1 by { OnlyOne(i, q); }
    } else {
      var p := PRIMES[i];
      if Divides(p, q) {
        var smaller := Quotient(p, q);
        ProductLosesFactor(i, q, smaller);
        ProductIsPositive(i, smaller);
        MulLaws(f, p, smaller);
        MulLaws(smaller, p, 1);
        MulGrows(f, p);
        MulGrows(smaller, p);
        ProductIsReached(i, Mul(f, p), smaller);
        MulKeepsOrder(Mul(f, p), 1, smaller);
        MulLaws(Mul(f, p), 1, 1);
      } else {
        ProductNarrows(i, q);
        ProductIsReached(i + 1, f, q);
      }
    }
  }

  lemma OnlyOne(i: nat, q: nat)
    requires i >= 5 && Product(i, q)
    ensures q == 1
  {
  }

  lemma Quotient(p: nat, q: nat) returns (k: nat)
    requires Divides(p, q)
    ensures q == Mul(p, k)
  {
    k :| q == Mul(p, k);
  }

  // ---- The products are exactly the numbers with no other prime factor ----

  const INVERSES: seq<seq<nat>> := [[0, 1], [0, 1, 2], [0, 1, 3, 2, 4], [0, 1, 4, 5, 2, 3, 6],
    [0, 1, 6, 4, 3, 9, 2, 8, 7, 5, 10]]

  lemma ResidueInverse(i: nat, r: nat) returns (k: nat, u: nat)
    requires i < 5 && 0 < r < PRIMES[i]
    ensures r * k == u * PRIMES[i] + 1
  {
    k := INVERSES[i][r];
    u := (r * k) / PRIMES[i];
  }

  lemma Distributes(a: nat, p: nat, r: nat, k: nat, u: nat)
    requires r * k == u * p + 1
    ensures (a * p + r) * k == (a * k + u) * p + 1
  {
    assert (a * p + r) * k == a * p * k + r * k;
    assert (a * k + u) * p == a * k * p + u * p;
    assert a * p * k == a * k * p;
  }

  lemma Residue(d: nat, p: nat)
    requires p > 0 && !Divides(p, d)
    ensures d == (d / p) * p + d % p && 0 < d % p < p
  {
    if d % p == 0 {
      Multiple(p, d / p);
      assert false;
    }
  }

  // a multiple of d that is one more than a multiple of p
  lemma Inverse(d: nat, p: nat) returns (k: nat, t: nat)
    requires p in PRIMES && !Divides(p, d)
    ensures d * k == t * p + 1
  {
    hide Divides, INVERSES;
    var i: nat :| i < 5 && PRIMES[i] == p;
    Residue(d, p);
    var u;
    k, u := ResidueInverse(i, d % p);
    Distributes(d / p, p, d % p, k, u);
    t := (d / p) * k + u;
  }

  lemma Combine(f: int, p: int, d: int, q: int, k: int, t: int)
    requires f * p == d * q && d * k == t * p + 1
    ensures f == d * (f * k - q * t)
  {
    assert f * (d * k) == f * (t * p + 1);
    assert f * (t * p + 1) == (f * p) * t + f;
    assert (d * q) * t == d * (q * t);
    assert f * (d * k) == d * (f * k);
  }

  lemma SignOfFactor(d: nat, y: int)
    requires d > 0 && d * y >= 0
    ensures y >= 0
  {
  }

  // a number that the prime p does not divide, and that divides f * p, divides f
  lemma CoprimeDivides(d: nat, p: nat, f: nat, q: nat) returns (x: nat)
    requires p in PRIMES && d > 0 && !Divides(p, d) && Mul(f, p) == Mul(d, q)
    ensures f == Mul(d, x)
  {
    var k, t := Inverse(d, p);
    Combine(f, p, d, q, k, t);
    var y := f * k - q * t;
    assert f == d * y;
    SignOfFactor(d, y);
    x := y;
  }

  lemma PrimesApart(i: nat, j: nat)
    requires i < 5 && j < 5 && i != j
    ensures !Divides(PRIMES[i], PRIMES[j])
  {
  }

  lemma NotDivided(p: nat, q: nat)
    requires Prime(q) && p > 1 && p != q
    ensures !Divides(p, q)
  {
    hide Mul;
    if p > q && Divides(p, q) {
      var k := Quotient(p, q);
      MulLaws(p, 1, 1);
      if k > 0 {
        MulKeepsOrder(p, 1, k);
      }
      assert false;
    }
  }

  lemma {:induction false} GoodHasGoodFactors(m: nat, q: nat)
    requires Good(m) && Prime(q) && Divides(q, m)
    ensures q in PRIMES
    decreases m
  {
    hide Mul, Divides, Prime;
    var k := Quotient(q, m);
    assert q > 1 by { PrimeIsLarge(q); }
    assert Product(0, m);
    if m == 1 {
      NotOne(q, k);
      assert false;
    }
    var j: nat, rest: nat :| j < 5 && rest < m && m == Mul(PRIMES[j], rest) && Product(0, rest);
    var p := PRIMES[j];
    if q != p {
      NotDivided(p, q);
      MulLaws(p, rest, 1);
      var x := CoprimeDivides(q, p, rest, k);
      assert Divides(q, rest) by { Multiple(q, x); }
      GoodHasGoodFactors(rest, q);
    }
  }

  lemma PrimeIsLarge(q: nat)
    requires Prime(q)
    ensures q > 1
  {
  }

  lemma Multiple(d: nat, k: nat)
    ensures Divides(d, Mul(d, k))
  {
  }

  lemma LeastFactor(m: nat) returns (q: nat)
    requires m > 1
    ensures Prime(q) && Divides(q, m)
  {
    hide Mul;
    q := 2;
    while !Divides(q, m)
      invariant 2 <= q <= m
      invariant forall d: nat :: 1 < d < q ==> !Divides(d, m)
      decreases m - q
    {
      MulLaws(m, 1, 1);
      Multiple(m, 1);
      q := q + 1;
    }
    forall d: nat | 1 < d < q ensures !Divides(d, q) {
      if Divides(d, q) {
        DividesThrough(d, q, m);
        assert false;
      }
    }
  }

  lemma {:induction false} OnlyGoodFactorsIsGood(m: nat)
    requires m > 0 && forall q: nat :: Prime(q) && Divides(q, m) ==> q in PRIMES
    ensures Good(m)
    decreases m
  {
    hide Mul, Divides, Prime;
    if m > 1 {
      var p := LeastFactor(m);
      var j: nat :| j < 5 && PRIMES[j] == p;
      var rest := Quotient(p, m);
      MulLaws(p, rest, 1);
      MulLaws(p, 0, 1);
      MulGrows(rest, p);
      forall q: nat | Prime(q) && Divides(q, rest) ensures q in PRIMES {
        Multiple(rest, p);
        DividesThrough(q, rest, m);
      }
      OnlyGoodFactorsIsGood(rest);
    }
  }

  /** A number is good exactly when every prime that divides it is 2, 3, 5, 7 or 11. */
  lemma GoodByPrimes(m: nat)
    requires m > 0
    ensures Good(m) <==> forall q: nat :: Prime(q) && Divides(q, m) ==> q in {2, 3, 5, 7, 11}
  {
    hide Good, Prime, Divides;
    if Good(m) {
      forall q: nat | Prime(q) && Divides(q, m) ensures q in PRIMES {
        GoodHasGoodFactors(m, q);
      }
    } else if forall q: nat :: Prime(q) && Divides(q, m) ==> q in PRIMES {
      OnlyGoodFactorsIsGood(m);
    }
  }

  // ---- The search ----

  // Every product from n on that the i-th loop comes to from start is no less than best, or is still ahead of it.
  ghost predicate Searched(i: nat, start: nat, current: nat, n: nat, best: nat) {
    forall m: nat :: m >= n && Reach(i, start, m) ==> best <= m || Reach(i, current, m)
  }

  // all that the i-th loop and those inside it come to from f has been weighed
  ghost predicate Done(i: nat, f: nat, n: nat, best: nat) {
    forall m: nat :: m >= n && Reach(i, f, m) ==> best <= m
  }

  lemma Improves(i: nat, start: nat, current: nat, n: nat, best: nat, better: nat)
    requires Searched(i, start, current, n, best) && better <= best
    ensures Searched(i, start, current, n, better)
  {
    hide Reach;
  }

  lemma Advances(i: nat, start: nat, current: nat, n: nat, best: nat)
    requires i < 5 && Searched(i, start, current, n, best) && Done(i + 1, current, n, best)
    ensures Searched(i, start, Mul(current, PRIMES[i]), n, best)
  {
    hide Mul;
    forall m: nat | m >= n && Reach(i, start, m) ensures best <= m || Reach(i, Mul(current, PRIMES[i]), m) {
      assert best <= m || Reach(i, current, m);
      assert Reach(i + 1, current, m) ==> best <= m;
    }
  }

  lemma Ends(i: nat, start: nat, current: nat, n: nat, best: nat)
    requires i < 5 && Searched(i, start, current, n, best) && current >= best
    ensures Done(i, start, n, best)
  {
    hide Mul;
  }

  // the power of two between n and its double
  lemma PowerOfTwo(n: nat) returns (t: nat)
    requires n > 0
    ensures n <= t < 2 * n && Good(t)
  {
    hide Product;
    t := 1;
    One(0);
    while t < n
      invariant 0 < t < 2 * n && Good(t)
      decreases n - t
    {
      ProductGrows(0, 0, t);
      t := t * 2;
    }
  }

  // what every loop keeps: the best so far, and a factor that is itself a product
  ghost predicate Searching(n: nat, best: nat, f: nat) {
    n <= best <= 2 * n && (best == 2 * n || Good(best)) && f > 0 && Good(f)
  }

  lemma Next(n: nat, best: nat, f: nat, i: nat)
    requires Searching(n, best, f) && i < 5
    ensures Searching(n, best, Mul(f, PRIMES[i])) && Mul(f, PRIMES[i]) == f * PRIMES[i] > f
  {
    hide Product;
    ProductGrows(0, i, f);
  }

  lemma Weighed(f: nat, n: nat, best: nat)
    requires f >= n ==> best <= f
    ensures Done(5, f, n, best)
  {
  }

  lemma Begins(i: nat, start: nat, n: nat, best: nat)
    ensures Searched(i, start, start, n, best)
  {
  }

  lemma SmallAreGood(n: nat)
    requires 0 < n <= 6
    ensures Good(n)
  {
    hide Product;
    One(0);
    ProductGrows(0, 0, 1);
    ProductGrows(0, 1, 1);
    ProductGrows(0, 0, 2);
    ProductGrows(0, 2, 1);
    ProductGrows(0, 1, 2);
  }

  lemma AllSearched(n: nat, best: nat, f: nat)
    requires n > 0 && Searching(n, best, f) && Done(0, 1, n, best)
    ensures best >= n && Good(best) && forall m: nat :: m >= n && Good(m) ==> best <= m
  {
    hide Product, Reach;
    forall m: nat | m >= n && Good(m) ensures best <= m {
      ProductIsReached(0, 1, m);
    }
    var t := PowerOfTwo(n);
  }

  lemma Start(n: nat)
    ensures Searching(n, 2 * n, 1) && Searched(0, 1, 1, n, 2 * n)
  {
    hide Product;
    One(0);
  }

  // the best so far gives way to a product no larger
  lemma BetterStill(n: nat, before: nat, best: nat, f: nat, factors: seq<nat>)
    requires Searching(n, before, f) && f < before && best == if f >= n then f else before
    requires forall g :: g in factors ==> Searching(n, before, g)
    ensures 0 <= best <= before && forall g :: g in factors ==> Searching(n, best, g)
  {
    hide Product;
  }

  /** The least product of 2, 3, 5, 7 and 11 from n on, for every positive n; up to 6 that is n itself. */
  method FftNextGoodSize(n: int) returns (best: int)
    ensures n <= 6 ==> best == n
    ensures n > 0 ==> best >= n && Good(best) && forall m: nat :: m >= n && Good(m) ==> best <= m
  {
    hide Reach, Product, Good, Searched, Done, Searching;
    if n <= 6 {
      if n > 0 {
        SmallAreGood(n);
      }
      return n;
    }
    var f2;
    best, f2 := 2 * n, 1;
    Start(n);
    while f2 < best
      invariant 0 <= best <= 2 * n && Searching(n, best, f2) && Searched(0, 1, f2, n, best)
      decreases 2 * n - f2
    {
      var f23 := f2;
      Begins(1, f2, n, best);
      while f23 < best
        invariant 0 <= best <= 2 * n && Searching(n, best, f2) && Searched(0, 1, f2, n, best)
        invariant Searching(n, best, f23) && Searched(1, f2, f23, n, best)
        decreases 2 * n - f23
      {
        var f235 := f23;
        Begins(2, f23, n, best);
        while f235 < best
          invariant 0 <= best <= 2 * n && Searching(n, best, f2) && Searched(0, 1, f2, n, best)
          invariant Searching(n, best, f23) && Searched(1, f2, f23, n, best)
          invariant Searching(n, best, f235) && Searched(2, f23, f235, n, best)
          decreases 2 * n - f235
        {
          var f2357 := f235;
          Begins(3, f235, n, best);
          while f2357 < best
            invariant 0 <= best <= 2 * n && Searching(n, best, f2) && Searched(0, 1, f2, n, best)
            invariant Searching(n, best, f23) && Searched(1, f2, f23, n, best)
            invariant Searching(n, best, f235) && Searched(2, f23, f235, n, best)
            invariant Searching(n, best, f2357) && Searched(3, f235, f2357, n, best)
            decreases 2 * n - f2357
          {
            var f235711 := f2357;
            Begins(4, f2357, n, best);
            while f235711 < best
              invariant 0 <= best <= 2 * n && Searching(n, best, f2) && Searched(0, 1, f2, n, best)
              invariant Searching(n, best, f23) && Searched(1, f2, f23, n, best)
              invariant Searching(n, best, f235) && Searched(2, f23, f235, n, best)
              invariant Searching(n, best, f2357) && Searched(3, f235, f2357, n, best)
              invariant Searching(n, best, f235711) && Searched(4, f2357, f235711, n, best)
              decreases 2 * n - f235711
            {
              ghost var before := best;
              best := if f235711 >= n then f235711 else best;
              Improves(0, 1, f2, n, before, best);
              Improves(1, f2, f23, n, before, best);
              Improves(2, f23, f235, n, before, best);
              Improves(3, f235, f2357, n, before, best);
              Improves(4, f2357, f235711, n, before, best);
              BetterStill(n, before, best, f235711, [f2, f23, f235, f2357, f235711]);
              Weighed(f235711, n, best);
              Advances(4, f2357, f235711, n, best);
              Next(n, best, f235711, 4);
              f235711 := f235711 * 11;
            }
            Ends(4, f2357, f235711, n, best);
            Advances(3, f235, f2357, n, best);
            Next(n, best, f2357, 3);
            f2357 := f2357 * 7;
          }
          Ends(3, f235, f2357, n, best);
          Advances(2, f23, f235, n, best);
          Next(n, best, f235, 2);
          f235 := f235 * 5;
        }
        Ends(2, f23, f235, n, best);
        Advances(1, f2, f23, n, best);
        Next(n, best, f23, 1);
        f23 := f23 * 3;
      }
      Ends(1, f2, f23, n, best);
      Advances(0, 1, f2, n, best);
      Next(n, best, f2, 0);
      f2 := f2 * 2;
    }
    Ends(0, 1, f2, n, best);
    AllSearched(n, best, f2);
  }
}
