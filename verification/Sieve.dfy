/** The sieve of Eratosthenes. */
module Sieve {

  ghost predicate Divides(d: nat, k: nat) { exists m: nat :: k == Times(d, m) }

  ghost function Times(d: nat, m: nat): nat { d * m }

  ghost predicate Prime(k: nat) {
    k >= 2 && forall d: nat :: 2 <= d < k ==> !Divides(d, k)
  }

  /** No divisor of k below i has its square at most k. */
  ghost predicate Unmarked(k: nat, i: nat) {
    k >= 2 && forall d: nat :: 2 <= d < i && d * d <= k ==> !Divides(d, k)
  }

  /** A divisor implies a small one: of d and its cofactor, one has its square at most k. */
  lemma SmallDivisor(k: nat, d: nat) returns (e: nat)
    requires 2 <= d < k && Divides(d, k)
    ensures 2 <= e && e * e <= k && Divides(e, k)
  {
    var m: nat :| k == Times(d, m);
    if m < 2 { Multiples(d, m, 2); assert false; }
    assert k == Times(m, d);
    if d <= m {
      Multiples(d, d, m);
      e := d;
    } else {
      Multiples(m, m, d);
      e := m;
    }
  }

  lemma Multiples(d: nat, m: nat, n: nat)
    ensures m <= n ==> Times(d, m) <= Times(d, n)
    ensures m < n && d > 0 ==> Times(d, m) < Times(d, n)
    ensures Times(d, 1) == d && Times(d, 0) == 0 && Times(d, m + 1) == Times(d, m) + d && Times(d, d) == d * d
  {
    if m < n { assert d * n == d * m + d * (n - m); }
  }

  lemma {:induction false} DividesTransitive(d: nat, i: nat, k: nat)
    requires Divides(d, i) && Divides(i, k)
    ensures Divides(d, k)
  {
    var m: nat :| i == Times(d, m);
    var n: nat :| k == Times(i, n);
    assert (d * m) * n == d * (m * n);
    assert k == Times(d, m * n);
  }

  /** Once the squares of the divisors tried have passed k, an unmarked k is a prime. */
  lemma UnmarkedIsPrime(k: nat, i: nat)
    requires k < i * i
    ensures Unmarked(k, i) <==> Prime(k)
  {
    if Unmarked(k, i) {
      forall d: nat | 2 <= d < k ensures !Divides(d, k) {
        if Divides(d, k) {
          var e := SmallDivisor(k, d);
          Below(e, i);
        }
      }
    }
    if Prime(k) {
      forall d: nat | 2 <= d < i && d * d <= k ensures !Divides(d, k) {
        Square(d);
      }
    }
  }

  lemma Square(d: nat)
    requires d >= 2
    ensures d < d * d
  {}

  lemma Below(e: nat, i: nat)
    ensures e * e < i * i ==> e < i
  {
    if e >= i { assert e * e >= i * e >= i * i; }
  }

  /** Multiples of a marked number are marked already; of an unmarked number, those from its square on become marked. */
  lemma NextDivisor(k: nat, i: nat)
    requires i >= 2 && k >= 2
    ensures Unmarked(k, i + 1) <==> Unmarked(k, i) && !(i * i <= k && Divides(i, k))
    ensures !Unmarked(i, i) ==> (Unmarked(k, i + 1) <==> Unmarked(k, i))
  {
    if !Unmarked(i, i) && i * i <= k && Divides(i, k) {
      var d: nat :| 2 <= d < i && d * d <= i && Divides(d, i);
      DividesTransitive(d, i, k);
      Square(i);
    }
  }

  ghost function Primes(n: nat): nat {
    if n == 0 then 0 else Primes(n - 1) + if Prime(n - 1) then 1 else 0
  }

  method MarkMultiples(isPrime: array<int>, i: nat)
    requires 2 <= i && i * i <= isPrime.Length
    requires forall k: nat :: k < isPrime.Length ==> (isPrime[k] == 1 || isPrime[k] == 0)
    modifies isPrime
    ensures forall k: nat :: k < isPrime.Length ==>
        isPrime[k] == if i * i <= k && Divides(i, k) then 0 else old(isPrime[k])
  {
    var j := i * i;
    ghost var m: nat := i;
    while j < isPrime.Length
      invariant j == Times(i, m) && i <= m
      invariant forall k: nat :: k < isPrime.Length ==>
        isPrime[k] == if i * i <= k < j && Divides(i, k) then 0 else old(isPrime[k])
      decreases isPrime.Length - j
    {
      isPrime[j] := 0;
      NoneBetween(i, m);
      Multiples(i, m, i);
      Multiples(i, i, m);
      j := j + i;
      m := m + 1;
    }
  }

  lemma NoneBetween(i: nat, m: nat)
    requires i > 0
    ensures forall k: nat :: Times(i, m) < k < Times(i, m) + i ==> !Divides(i, k)
    ensures Divides(i, Times(i, m))
  {
    forall k: nat | Times(i, m) < k < Times(i, m) + i ensures !Divides(i, k) {
      if Divides(i, k) {
        var n: nat :| k == Times(i, n);
        Multiples(i, n, m);
        Multiples(i, m + 1, n);
      }
    }
  }

  /** sieveJS for any size: the flags mark the primes, and the result counts them. The array has at least two flags,
      because the first two are cleared by assignment. */
  method RunSieve(n: nat) returns (count: nat, isPrime: array<int>)
    ensures fresh(isPrime) && isPrime.Length == if n < 2 then 2 else n
    ensures forall k: nat :: k < n ==> (isPrime[k] == 1 <==> Prime(k))
    ensures count == Primes(n)
  {
    isPrime := new int[if n < 2 then 2 else n](_ => 1);
    isPrime[0] := 0;
    isPrime[1] := 0;
    var i: nat := 2;
    while i * i < n
      invariant i >= 2
      invariant forall k: nat :: k < n ==> isPrime[k] == if Unmarked(k, i) then 1 else 0
      decreases n - i
    {
      Square(i);
      forall k: nat | 2 <= k < n
        ensures Unmarked(k, i + 1) <==> Unmarked(k, i) && !(isPrime[i] == 1 && i * i <= k && Divides(i, k))
      {
        NextDivisor(k, i);
      }
      if isPrime[i] != 0 {
        MarkMultiples(isPrime, i);
      }
      i := i + 1;
    }
    forall k: nat | k < n ensures isPrime[k] == 1 <==> Prime(k) {
      UnmarkedIsPrime(k, i);
    }
    count := 0;
    for k := 0 to n
      invariant count == Primes(k)
    {
      if isPrime[k] != 0 {
        count := count + 1;
      }
    }
  }
}
