/** The longest match search of deflate, against the copying decoder of section 3.2.3 of RFC 1951. */
module Lz77 {
  import opened Remainders

  const MAX_DIST: nat := 256
  const MAX_LEN: nat := 258

  function Min(a: nat, b: nat): (m: nat)
    ensures m <= a && m <= b && (m == a || m == b)
  {
    if a <= b then a else b
  }

  // ----- The decoder -----

  /** Appends, one byte at a time, the byte dist places back: a copy may overlap what it produces. */
  ghost function Copy(out: seq<int>, dist: nat, len: nat): (r: seq<int>)
    requires 1 <= dist <= |out|
    ensures |r| == |out| + len && r[..|out|] == out
  {
    if len == 0 then out else
      var r := Copy(out, dist, len - 1);
      r + [r[|r| - dist]]
  }

  lemma CopiedNext(out: seq<int>, dist: nat, len: nat)
    requires 1 <= dist <= |out|
    ensures Copy(out, dist, len + 1)[|out| + len] ==
            if len < dist then out[|out| + len - dist] else Copy(out, dist, len)[|out| + (len - dist)]
  {
    var r := Copy(out, dist, len);
    if len < dist {
      assert r[|out| + len - dist] == r[..|out|][|out| + len - dist];
    }
  }

  /** What the search compares is what the decoder would produce. */
  lemma {:induction false} CopiedByte(out: seq<int>, dist: nat, len: nat, j: nat, m: nat)
    requires 1 <= dist <= |out| && j < len && m == j % dist
    ensures Copy(out, dist, len)[|out| + j] == out[|out| - dist + m]
    decreases len
  {
    if j < len - 1 {
      CopiedByte(out, dist, len - 1, j, m);
    } else {
      CopiedNext(out, dist, j);
      if j < dist {
        SmallRemainder(j, dist);
      } else {
        RemainderBack(j, dist);
        CopiedByte(out, dist, j, j - dist, m);
      }
    }
  }

  // ----- Matches -----

  /** The pair (len, dist) is one that may be emitted, and decoding it gives the start of the lookahead. */
  ghost predicate Decodes(win: seq<int>, lookahead: seq<int>, dist: nat, len: nat) {
    && 1 <= dist <= Min(|win|, MAX_DIST)
    && len <= Min(|lookahead|, MAX_LEN)
    && Copy(win, dist, len) == win + lookahead[..len]
  }

  ghost predicate Agree(win: seq<int>, lookahead: seq<int>, dist: nat, len: nat)
    requires 1 <= dist <= |win| && len <= |lookahead|
  {
    forall j: nat {:trigger lookahead[j]} :: j < len ==> win[|win| - dist + j % dist] == lookahead[j]
  }

  lemma AgreeAt(win: seq<int>, lookahead: seq<int>, dist: nat, len: nat, j: nat)
    requires 1 <= dist <= |win| && j < len <= |lookahead| && Copy(win, dist, len) == win + lookahead[..len]
    ensures win[|win| - dist + j % dist] == lookahead[j]
  {
    CopiedByte(win, dist, len, j, j % dist);
    assert (win + lookahead[..len])[|win| + j] == lookahead[j];
  }

  lemma CopyAgrees(win: seq<int>, lookahead: seq<int>, dist: nat, len: nat)
    requires 1 <= dist <= |win| && len <= |lookahead| && Agree(win, lookahead, dist, len)
    ensures Copy(win, dist, len) == win + lookahead[..len]
  {
    var r := Copy(win, dist, len);
    assert r == r[..|win|] + r[|win|..];
    forall j: nat | j < len ensures r[|win|..][j] == lookahead[j] {
      CopiedByte(win, dist, len, j, j % dist);
      assert lookahead[j] == lookahead[j];
    }
    assert r[|win|..] == lookahead[..len];
  }

  lemma DecodesIffAgree(win: seq<int>, lookahead: seq<int>, dist: nat, len: nat)
    requires 1 <= dist <= Min(|win|, MAX_DIST) && len <= Min(|lookahead|, MAX_LEN)
    ensures Decodes(win, lookahead, dist, len) <==> Agree(win, lookahead, dist, len)
  {
    if Decodes(win, lookahead, dist, len) {
      forall j: nat | j < len ensures win[|win| - dist + j % dist] == lookahead[j] {
        AgreeAt(win, lookahead, dist, len, j);
      }
    }
    if Agree(win, lookahead, dist, len) {
      CopyAgrees(win, lookahead, dist, len);
    }
  }

  /** No distance below limit gives more than len bytes, and none below dist gives as many. */
  ghost predicate Best(win: seq<int>, lookahead: seq<int>, limit: nat, len: nat, dist: nat) {
    && (if len == 0 then dist == 0 else dist < limit && Decodes(win, lookahead, dist, len))
    && (forall d: nat, l: nat :: d < limit && Decodes(win, lookahead, d, l) ==>
        l <= len && (l == len && len > 0 ==> dist <= d))
  }

  // ----- The program -----

  method MatchLength(win: seq<int>, lookahead: seq<int>, dist: nat) returns (len: nat)
    requires 1 <= dist <= Min(|win|, MAX_DIST)
    ensures Decodes(win, lookahead, dist, len)
    ensures forall l: nat :: Decodes(win, lookahead, dist, l) ==> l <= len
  {
    len := 0;
    var start := |win| - dist;
    while len < |lookahead| && len < 258
      invariant len <= Min(|lookahead|, MAX_LEN)
      invariant Agree(win, lookahead, dist, len)
    {
      if win[start + len % dist] != lookahead[len] {
        break;
      }
      len := len + 1;
    }
    DecodesIffAgree(win, lookahead, dist, len);
    forall l: nat | Decodes(win, lookahead, dist, l) ensures l <= len {
      if len < l {
        DecodesIffAgree(win, lookahead, dist, l);
      }
    }
  }

  method LongestMatch(win: seq<int>, lookahead: seq<int>) returns (bestLen: nat, bestDist: nat)
    ensures Best(win, lookahead, MAX_DIST + 1, bestLen, bestDist)
    ensures bestLen <= MAX_LEN && bestDist <= MAX_DIST
  {
    var maxDist := Min(|win|, 256);
    bestLen, bestDist := 0, 0;
    var dist := 1;
    while dist <= maxDist && dist <= |win|
      invariant 1 <= dist <= maxDist + 1
      invariant Best(win, lookahead, dist, bestLen, bestDist)
      invariant bestLen <= MAX_LEN && bestDist <= MAX_DIST
    {
      var len := MatchLength(win, lookahead, dist);
      if len > bestLen {
        bestLen := len;
        bestDist := dist;
      }
      dist := dist + 1;
    }
  }

  method PackedMatch(win: seq<int>, lookahead: seq<int>) returns (packed: nat)
    ensures packed % 65536 <= MAX_DIST && packed / 65536 <= MAX_LEN
    ensures Best(win, lookahead, MAX_DIST + 1, packed / 65536, packed % 65536)
  {
    var bestLen, bestDist := LongestMatch(win, lookahead);
    packed := bestLen * 65536 + bestDist;
    Unpacked(bestLen, bestDist);
  }

  lemma Unpacked(len: nat, dist: nat)
    requires dist < 65536
    ensures (len * 65536 + dist) / 65536 == len && (len * 65536 + dist) % 65536 == dist
  {}

  /** There is only one best match, so the packed result says which it is. */
  lemma BestIsUnique(win: seq<int>, lookahead: seq<int>, limit: nat, len: nat, dist: nat, len': nat, dist': nat)
    requires Best(win, lookahead, limit, len, dist) && Best(win, lookahead, limit, len', dist')
    ensures len == len' && dist == dist'
  {}

  // ----- The benchmark's own data -----

  ghost predicate WindowData(win: seq<int>) {
    forall i :: 0 <= i < |win| ==> win[i] == (i * 7 + 3) % 256
  }

  ghost predicate LookaheadData(win: seq<int>, lookahead: seq<int>) {
    && |win| >= 50 && |lookahead| == 64
    && (forall i :: 0 <= i < 30 ==> lookahead[i] == win[|win| - 50 + i])
    && (forall i :: 30 <= i < 64 ==> lookahead[i] == (i * 13 + 5) % 256)
  }

  lemma Bytes256(x: int, t: int, r: int)
    requires x == r + 256 * t && 0 <= r < 256
    ensures x % 256 == r
  {}

  lemma SevenIsInvertible(a: int, b: int)
    requires (a * 7 + 3) % 256 == (b * 7 + 3) % 256
    ensures (b - a) % 256 == 0
  {
    var p, q := (a * 7 + 3) / 256, (b * 7 + 3) / 256;
    assert (a - b) * 7 == 256 * (p - q);
    Bytes256(b - a, 183 * (q - p) - 5 * (b - a), 0);
  }

  lemma FirstByte(win: seq<int>, lookahead: seq<int>, dist: nat, len: nat)
    requires Decodes(win, lookahead, dist, len) && len > 0
    ensures win[|win| - dist] == lookahead[0]
  {
    SmallRemainder(0, dist);
    CopiedByte(win, dist, len, 0, 0);
    assert (win + lookahead[..len])[|win|] == lookahead[0];
  }

  /** Only distance 50 can match the first byte. */
  lemma OnlyFifty(win: seq<int>, lookahead: seq<int>, dist: nat, len: nat)
    requires WindowData(win) && LookaheadData(win, lookahead) && Decodes(win, lookahead, dist, len) && len > 0
    ensures dist == 50
  {
    FirstByte(win, lookahead, dist, len);
    var n := |win|;
    assert win[n - 50] == ((n - 50) * 7 + 3) % 256 && win[n - dist] == ((n - dist) * 7 + 3) % 256;
    SevenIsInvertible(n - 50, n - dist);
    NearFifty(dist);
  }

  lemma NearFifty(dist: nat)
    requires 1 <= dist <= 256 && (50 - dist) % 256 == 0
    ensures dist == 50
  {}

  lemma FiftyMatches(win: seq<int>, lookahead: seq<int>, len: nat)
    requires WindowData(win) && LookaheadData(win, lookahead) && len <= 64
    ensures Decodes(win, lookahead, 50, len) <==> len <= if |win| % 256 == 76 then 31 else 30
  {
    DecodesIffAgree(win, lookahead, 50, len);
    FiftyAgrees(win, lookahead, len);
  }

  lemma FiftyAgrees(win: seq<int>, lookahead: seq<int>, len: nat)
    requires WindowData(win) && LookaheadData(win, lookahead) && len <= 64
    ensures Agree(win, lookahead, 50, len) <==> len <= if |win| % 256 == 76 then 31 else 30
  {
    var n := |win|;
    forall j: nat | j < 50 ensures j % 50 == j { SmallRemainder(j, 50); }
    assert win[n - 50 + 30] == ((n - 20) * 7 + 3) % 256 && win[n - 50 + 31] == ((n - 19) * 7 + 3) % 256;
    assert lookahead[30] == (30 * 13 + 5) % 256 && lookahead[31] == (31 * 13 + 5) % 256;
    Thirty(n);
  }

  lemma Thirty(n: nat)
    ensures ((n - 20) * 7 + 3) % 256 == (30 * 13 + 5) % 256 <==> n % 256 == 76
    ensures n % 256 == 76 ==> ((n - 19) * 7 + 3) % 256 != (31 * 13 + 5) % 256
  {
    var m, k := ((n - 20) * 7 + 3) / 256, n / 256;
    if ((n - 20) * 7 + 3) % 256 == 139 {
      Bytes256(n, 183 * (m - 1) - 5 * (n - 76), 76);
    }
    if n % 256 == 76 {
      Bytes256((n - 20) * 7 + 3, 7 * k + 1, 139);
      Bytes256((n - 19) * 7 + 3, 7 * k + 1, 146);
    }
  }

  /** jsLz77Run for every window it can build its data in. */
  method RunLz77(windowSize: nat) returns (packed: nat)
    requires windowSize >= 50
    ensures packed == (if windowSize % 256 == 76 then 31 else 30) * 65536 + 50
  {
    var win: seq<int> := [];
    for i := 0 to windowSize
      invariant |win| == i && WindowData(win)
    {
      win := win + [(i * 7 + 3) % 256];
    }
    var lookahead: seq<int> := [];
    var matchStart := windowSize - 50;
    for i := 0 to 64
      invariant |lookahead| == i
      invariant forall k :: 0 <= k < i && k < 30 ==> lookahead[k] == win[matchStart + k]
      invariant forall k :: 30 <= k < i ==> lookahead[k] == (k * 13 + 5) % 256
    {
      lookahead := lookahead + [if i < 30 then win[matchStart + i] else (i * 13 + 5) % 256];
    }
    packed := PackedMatch(win, lookahead);
    var len, dist := packed / 65536, packed % 65536;
    var longest := if windowSize % 256 == 76 then 31 else 30;
    FiftyMatches(win, lookahead, longest);
    assert Decodes(win, lookahead, 50, longest);
    OnlyFifty(win, lookahead, dist, len);
    FiftyMatches(win, lookahead, len);
  }
}
