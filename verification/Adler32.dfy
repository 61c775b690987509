/** Adler-32 (sections 2.2 and 8.2 of RFC 1950) with reduction once every 2000 bytes. */
module Adler32 {
  import opened Bytes
  import opened Remainders

  const BASE: int := 65521
  const CHUNK: int := 2000

  // ----- The definition: two sums over the whole message, reduced once at the end -----

  ghost function S1(bytes: seq<Byte>): nat {
    if bytes == [] then 1 else S1(bytes[..|bytes| - 1]) + bytes[|bytes| - 1]
  }

  ghost function S2(bytes: seq<Byte>): nat {
    if bytes == [] then 0 else S2(bytes[..|bytes| - 1]) + S1(bytes)
  }

  ghost function Adler(bytes: seq<Byte>): nat {
    S1(bytes) % BASE + S2(bytes) % BASE * 65536
  }

  /** Short messages: the first sum starts at 1, the second adds up what the first was after each byte. */
  lemma AdlerOfFewBytes(a: Byte, b: Byte, one: seq<Byte>, two: seq<Byte>)
    requires one == [a] && two == [a, b]
    ensures Adler([]) == 1
    ensures Adler(one) == (1 + a) + (1 + a) * 65536
    ensures Adler(two) == (1 + a + b) + (2 + 2 * a + b) * 65536
  {
    assert one[..0] == [] && two[..1] == one;
    assert S1(one) == 1 + a && S2(one) == 1 + a;
    assert S1(two) == 1 + a + b && S2(two) == 2 + 2 * a + b;
  }

  // ----- Reduction after every byte -----

  datatype Sums = Sums(s1: nat, s2: nat)

  ghost function PerByte(bytes: seq<Byte>): Sums {
    if bytes == [] then Sums(1, 0) else
      var s := PerByte(bytes[..|bytes| - 1]);
      var s1 := (s.s1 + bytes[|bytes| - 1]) % BASE;
      Sums(s1, (s.s2 + s1) % BASE)
  }

  lemma {:induction false} ReducingEveryByte(bytes: seq<Byte>)
    ensures PerByte(bytes) == Sums(S1(bytes) % BASE, S2(bytes) % BASE)
  {
    if bytes != [] {
      var front, b := bytes[..|bytes| - 1], bytes[|bytes| - 1];
      ReducingEveryByte(front);
      ModAdd(S1(front), b, BASE);
      ModAdd(S2(front), S1(bytes) % BASE, BASE);
      ModAdd(S1(bytes), S2(front), BASE);
    }
  }

  // ----- The program -----

  /** How large the sums can be k bytes after a reduction. */
  ghost predicate Bounded(s1: nat, s2: nat, k: nat) {
    s1 <= 65520 + 255 * k && 2 * s2 <= 131040 * (k + 1) + 255 * Oblong(k)
  }

  ghost function Oblong(k: nat): nat { k * (k + 1) }

  lemma NextOblong(k: nat)
    ensures Oblong(k + 1) == Oblong(k) + 2 * (k + 1)
  {}

  lemma OblongGrows(k: nat, m: nat)
    requires k <= m
    ensures Oblong(k) <= Oblong(m)
    decreases m
  {
    if k < m {
      OblongGrows(k, m - 1);
      NextOblong(m - 1);
    }
  }

  lemma SumsStaySmall(s1: nat, s2: nat, k: nat)
    requires Bounded(s1, s2, k) && k <= CHUNK
    ensures s1 < 0x4000_0000 && s2 < 0x4000_0000
  {
    OblongGrows(k, 2000);
  }

  /** The sums after some more bytes, without reduction. */
  ghost function Added(s: Sums, bytes: seq<Byte>): Sums {
    if bytes == [] then s else
      var t := Added(s, bytes[..|bytes| - 1]);
      Sums(t.s1 + bytes[|bytes| - 1], t.s2 + t.s1 + bytes[|bytes| - 1])
  }

  lemma {:induction false} AddedIsBounded(s: Sums, bytes: seq<Byte>)
    requires s.s1 < BASE && s.s2 < BASE
    ensures Bounded(Added(s, bytes).s1, Added(s, bytes).s2, |bytes|)
  {
    if bytes != [] {
      AddedIsBounded(s, bytes[..|bytes| - 1]);
      NextOblong(|bytes| - 1);
    }
  }

  lemma {:induction false} WorstCase(bytes: seq<Byte>)
    requires forall i :: 0 <= i < |bytes| ==> bytes[i] == 255
    ensures var t := Added(Sums(65520, 65520), bytes);
      t.s1 == 65520 + 255 * |bytes| && 2 * t.s2 == 131040 * (|bytes| + 1) + 255 * Oblong(|bytes|)
  {
    if bytes != [] {
      WorstCase(bytes[..|bytes| - 1]);
      NextOblong(|bytes| - 1);
    }
  }

  /** With 2000 bytes between reductions the sums stay below 2^30. They would fit in 32 bits with up to 5552 bytes. */
  lemma ReductionCanWait(s: Sums, bytes: seq<Byte>)
    requires s.s1 < BASE && s.s2 < BASE
    ensures |bytes| <= CHUNK ==> Added(s, bytes).s1 < 0x4000_0000 && Added(s, bytes).s2 < 0x4000_0000
    ensures |bytes| <= 5552 ==> Added(s, bytes).s1 < 0x1_0000_0000 && Added(s, bytes).s2 < 0x1_0000_0000
  {
    AddedIsBounded(s, bytes);
    if |bytes| <= 2000 { OblongGrows(|bytes|, 2000); }
    if |bytes| <= 5552 { OblongGrows(|bytes|, 5552); }
  }

  /** With 5553 bytes they might not. */
  lemma ButNotLonger(bytes: seq<Byte>)
    requires |bytes| == 5553 && forall i :: 0 <= i < |bytes| ==> bytes[i] == 255
    ensures Added(Sums(65520, 65520), bytes).s2 >= 0x1_0000_0000
  {
    WorstCase(bytes);
  }

  lemma Unique(sum: nat, s: nat, q: nat)
    requires sum == s + q * BASE && s < BASE
    ensures sum % BASE == s
  {}

  lemma OneMoreByte(buf: seq<Byte>, pos: nat)
    requires pos < |buf|
    ensures S1(buf[..pos + 1]) == S1(buf[..pos]) + buf[pos] &&
        S2(buf[..pos + 1]) == S2(buf[..pos]) + S1(buf[..pos]) + buf[pos]
  {
    assert buf[..pos + 1][..pos] == buf[..pos];
  }

  lemma OneMoreBounded(s1: nat, s2: nat, k: nat, b: Byte)
    requires Bounded(s1, s2, k)
    ensures Bounded(s1 + b, s2 + s1 + b, k + 1)
  {
    NextOblong(k);
  }

  /** jsAdler32Run on any bytes. */
  method RunAdler32(buf: seq<Byte>) returns (checksum: nat)
    ensures checksum == Adler(buf)
    ensures checksum < 0x1_0000_0000
    ensures checksum % 65536 == PerByte(buf).s1 && checksum / 65536 == PerByte(buf).s2
  {
    var s1: nat, s2: nat, pos: nat, n: nat, len: nat := 1, 0, 0, 0, |buf|;
    ghost var q1: nat, q2: nat := 0, 0;
    while len != 0
      invariant pos == |buf| - len
      invariant s1 < 65521 && s2 < 65521
      invariant S1(buf[..pos]) == s1 + q1 * 65521 && S2(buf[..pos]) == s2 + q2 * 65521
      decreases len
    {
      n := if len > 2000 then 2000 else len;
      len := len - n;
      ghost var chunk := n;
      assert Bounded(s1, s2, 0);
      while true
        invariant 1 <= n <= chunk <= CHUNK && pos + n == |buf| - len
        invariant Bounded(s1, s2, chunk - n)
        invariant S1(buf[..pos]) == s1 + q1 * 65521 && S2(buf[..pos]) == s2 + q2 * 65521
        decreases n
      {
        OneMoreByte(buf, pos);
        OneMoreBounded(s1, s2, chunk - n, buf[pos]);
        s1 := s1 + buf[pos];
        pos := pos + 1;
        s2 := s2 + s1;
        q2 := q2 + q1;
        n := n - 1;
        SumsStaySmall(s1, s2, chunk - n);
        if n == 0 { break; }
      }
      q1, q2 := q1 + s1 / 65521, q2 + s2 / 65521;
      s1 := s1 % 65521;
      s2 := s2 % 65521;
    }
    assert buf[..pos] == buf;
    Result(buf, s1, s2, q1, q2);
    checksum := s1 + s2 * 65536;
  }

  lemma Result(buf: seq<Byte>, s1: nat, s2: nat, q1: nat, q2: nat)
    requires S1(buf) == s1 + q1 * BASE && S2(buf) == s2 + q2 * BASE && s1 < BASE && s2 < BASE
    ensures var c := s1 + s2 * 65536;
      c == Adler(buf) && c < 0x1_0000_0000 && c % 65536 == PerByte(buf).s1 && c / 65536 == PerByte(buf).s2
  {
    Unique(S1(buf), s1, q1);
    Unique(S2(buf), s2, q2);
    ReducingEveryByte(buf);
  }
}
