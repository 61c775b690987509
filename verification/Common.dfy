/** Values that may be absent. */
module Options {
  datatype Option<+T> = None | Some(value: T)
}

/** Bytes as numbers. */
module Bytes {
  type Byte = b: int | 0 <= b < 256
}

/** Sequences of anything. */
module Sequences {
  lemma Associative<T>(a: seq<T>, b: seq<T>, c: seq<T>)
    ensures a + (b + c) == a + b + c
  {}
}

/** Remainders. */
module Remainders {

  /** JavaScript's a % m: the remainder has the sign of a. */
  function Rem(a: int, m: nat): int
    requires m > 0
  {
    if a >= 0 then a % m else -(-a % m)
  }

  lemma MultipleBounds(k: int, d: nat)
    ensures k >= 1 ==> k * d >= d
    ensures k <= -1 ==> k * d + d <= 0
  {}

  lemma RemainderUnique(n: int, d: nat, q: int, r: nat)
    requires r < d && n == q * d + r
    ensures n % d == r
  {
    var m := n / d;
    assert n == m * d + n % d;
    assert (m - q) * d == m * d - q * d;
    MultipleBounds(m - q, d);
  }

  lemma SmallRemainder(j: nat, d: nat)
    requires j < d
    ensures j % d == j
  {}

  lemma RemainderBack(j: nat, d: nat)
    requires 1 <= d <= j
    ensures (j - d) % d == j % d
  {
    var q := j / d;
    assert j == q * d + j % d;
    RemainderUnique(j - d, d, q - 1, j % d);
  }

  /** Reducing early does not matter. */
  lemma ModAdd(a: nat, b: nat, m: nat)
    requires m > 0
    ensures (a % m + b) % m == (a + b) % m
  {
    var q, r, s := a / m, a % m, (a % m + b) % m;
    assert a == q * m + r;
    var p := (r + b) / m;
    assert r + b == p * m + s;
    assert (q + p) * m == q * m + p * m;
    RemainderUnique(a + b, m, q + p, s);
  }
}

/** The benchmarks' linear congruential generator. */
module Generator {
  import opened Remainders

  function Draw(rng: int): int { Rem(rng * 1103 + 12345, 100000) }

  /** The state of the generator after k draws. */
  function Drawn(seed: int, k: nat): int {
    if k == 0 then seed else Draw(Drawn(seed, k - 1))
  }

  /** States from which the next draw is not negative. */
  type Rng = r: int | Draw(r) >= 0 witness 0

  /** Then no later draw is. */
  lemma {:induction false} DrawsStayNatural(seed: Rng, k: nat)
    requires k > 0
    ensures Drawn(seed, k) >= 0
  {
    if k > 1 { DrawsStayNatural(seed, k - 1); }
  }

  lemma SeedsWithNaturalDraws(seed: int)
    ensures seed >= -11 ==> Draw(seed) >= 0
    ensures Draw(seed) >= 0 <==> forall k: nat {:trigger Drawn(seed, k)} :: k > 0 ==> Drawn(seed, k) >= 0
  {
    if Draw(seed) >= 0 {
      forall k: nat | k > 0 ensures Drawn(seed, k) >= 0 { DrawsStayNatural(seed, k); }
    } else {
      assert Drawn(seed, 0) == seed;
      assert Drawn(seed, 1) < 0;
    }
  }
}
