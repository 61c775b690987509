/** Hoare's quicksort with inner scans that carry no bounds test. */
module Quicksort {
  import opened Options

  ghost predicate SortedIn(s: seq<int>, lo: int, hi: int) {
    forall i, j :: 0 <= lo <= i < j <= hi < |s| ==> s[i] <= s[j]
  }

  /** t is s with the items at lo up to and including hi in another order. */
  ghost predicate Rearranged(s: seq<int>, t: seq<int>, lo: int, hi: int) {
    && |s| == |t| && multiset(s) == multiset(t)
    && forall k :: 0 <= k < |s| && (k < lo || hi < k) ==> s[k] == t[k]
  }

  lemma Exchange(s: seq<int>, i: int, j: int, lo: int, hi: int)
    requires 0 <= lo <= i <= hi < |s| && lo <= j <= hi
    ensures Rearranged(s, s[i := s[j]][j := s[i]], lo, hi)
  {}

  lemma RearrangedTwice(s: seq<int>, t: seq<int>, u: seq<int>, lo: int, hi: int)
    requires Rearranged(s, t, lo, hi) && Rearranged(t, u, lo, hi)
    ensures Rearranged(s, u, lo, hi)
  {}

  lemma RearrangedWider(s: seq<int>, t: seq<int>, lo: int, hi: int, lo': int, hi': int)
    requires Rearranged(s, t, lo, hi) && lo' <= lo && hi <= hi'
    ensures Rearranged(s, t, lo', hi')
  {}

  lemma Parts(s: seq<int>, lo: int, hi: int)
    requires 0 <= lo <= hi + 1 <= |s|
    ensures multiset(s) == multiset(s[..lo]) + multiset(s[lo..hi + 1]) + multiset(s[hi + 1..])
  {
    assert s == s[..lo] + s[lo..hi + 1] + s[hi + 1..];
  }

  lemma SameItems(s: seq<int>, t: seq<int>, lo: int, hi: int)
    requires Rearranged(s, t, lo, hi) && 0 <= lo <= hi + 1 <= |s|
    ensures multiset(s[lo..hi + 1]) == multiset(t[lo..hi + 1])
  {
    Parts(s, lo, hi);
    Parts(t, lo, hi);
    assert s[..lo] == t[..lo] && s[hi + 1..] == t[hi + 1..];
    Cancel(multiset(s[..lo]), multiset(s[lo..hi + 1]), multiset(t[lo..hi + 1]), multiset(s[hi + 1..]));
  }

  lemma Cancel(a: multiset<int>, x: multiset<int>, y: multiset<int>, b: multiset<int>)
    requires a + x + b == a + y + b
    ensures x == y
  {
    assert x == (a + x + b) - a - b;
    assert y == (a + y + b) - a - b;
  }

  /** A bound on a range survives a rearrangement of the range. */
  lemma BoundsSurvive(s: seq<int>, t: seq<int>, lo: int, hi: int, p: int)
    requires Rearranged(s, t, lo, hi) && 0 <= lo <= hi + 1 <= |s|
    ensures (forall k :: lo <= k <= hi ==> s[k] <= p) ==> forall k :: lo <= k <= hi ==> t[k] <= p
    ensures (forall k :: lo <= k <= hi ==> s[k] >= p) ==> forall k :: lo <= k <= hi ==> t[k] >= p
  {
    SameItems(s, t, lo, hi);
    var x, y := s[lo..hi + 1], t[lo..hi + 1];
    forall k | lo <= k <= hi ensures exists m :: lo <= m <= hi && t[k] == s[m] {
      assert y[k - lo] in multiset(y);
      assert y[k - lo] in multiset(x);
      var m :| 0 <= m < |x| && x[m] == y[k - lo];
      assert t[k] == s[lo + m];
    }
  }

  ghost predicate Split(s: seq<int>, lo: int, hi: int, i: int, j: int, pivot: int) {
    && 0 <= lo <= i <= hi + 1 <= |s| && lo - 1 <= j <= hi
    && (forall k :: lo <= k < i ==> s[k] <= pivot)
    && (forall k :: j < k <= hi ==> s[k] >= pivot)
  }

  lemma ExchangeSplits(s: seq<int>, t: seq<int>, lo: int, hi: int, i: int, j: int, pivot: int)
    requires Split(s, lo, hi, i, j, pivot) && 0 <= lo <= i <= j <= hi < |s| && t == s[i := s[j]][j := s[i]]
    requires s[i] >= pivot && s[j] <= pivot
    ensures Split(t, lo, hi, i + 1, j - 1, pivot) && t[i] <= pivot && t[j] >= pivot
    ensures forall r: seq<int> :: Rearranged(r, s, lo, hi) ==> Rearranged(r, t, lo, hi)
  {
    Exchange(s, i, j, lo, hi);
    forall r: seq<int> | Rearranged(r, s, lo, hi) ensures Rearranged(r, t, lo, hi) {
      RearrangedTwice(r, s, t, lo, hi);
    }
  }

  /** The scan for an item that is not less than the pivot; one at right stops it. */
  method ScanUp(a: array<int>, lo: int, hi: int, start: int, j: int, p: int, ghost right: int) returns (i: int)
    requires Split(a[..], lo, hi, start, j, p) && start <= right <= hi && a[right] >= p
    ensures Split(a[..], lo, hi, i, j, p) && start <= i <= right && a[i] >= p
  {
    i := start;
    while a[i] < p
      invariant start <= i <= right && Split(a[..], lo, hi, i, j, p)
      decreases right - i
    {
      i := i + 1;
    }
  }

  /** The scan for an item that is not more than the pivot; one at left stops it. */
  method ScanDown(a: array<int>, lo: int, hi: int, i: int, start: int, p: int, ghost left: int) returns (j: int)
    requires Split(a[..], lo, hi, i, start, p) && lo <= left <= start && a[left] <= p
    ensures Split(a[..], lo, hi, i, j, p) && left <= j <= start && a[j] <= p
  {
    j := start;
    while a[j] > p
      invariant left <= j <= start && Split(a[..], lo, hi, i, j, p)
      decreases j - left
    {
      j := j - 1;
    }
  }

  /** The partition loop. Items below i are at most the pivot, items above j at least; each index leaves its end. */
  method Partition(a: array<int>, lo: int, hi: int) returns (i: int, j: int, ghost pivot: int)
    requires 0 <= lo < hi < a.Length
    modifies a
    ensures Rearranged(old(a[..]), a[..], lo, hi)
    ensures Split(a[..], lo, hi, i, j, pivot)
    ensures j < i && lo < i && j < hi
  {
    var p := a[(lo + hi) / 2];
    i, j, pivot := lo, hi, p;
    ghost var left, right := (lo + hi) / 2, (lo + hi) / 2;
    while i <= j
      invariant Rearranged(old(a[..]), a[..], lo, hi)
      invariant Split(a[..], lo, hi, i, j, p)
      invariant i <= j ==> lo <= left <= j && a[left] <= p && i <= right <= hi && a[right] >= p
      invariant (i == lo && j == hi && left == right) || (lo < i && j < hi)
      decreases hi - i + j
    {
      i := ScanUp(a, lo, hi, i, j, p, right);
      j := ScanDown(a, lo, hi, i, j, p, left);
      if i <= j {
        ghost var s := a[..];
        a[i], a[j] := a[j], a[i];
        ExchangeSplits(s, a[..], lo, hi, i, j, p);
        left, right := i, j;
        i := i + 1;
        j := j - 1;
      }
    }
  }

  /** When both parts are sorted, the range is. */
  lemma PartsSorted(s: seq<int>, lo: int, hi: int, i: int, j: int, pivot: int)
    requires Split(s, lo, hi, i, j, pivot) && j < i
    requires SortedIn(s, lo, j) && SortedIn(s, i, hi)
    ensures SortedIn(s, lo, hi)
  {}

  /** qsort: the range from lo to hi is sorted in place, and nothing else changes. */
  method QSort(a: array<int>, lo: int, hi: int)
    requires 0 <= lo && hi < a.Length
    modifies a
    ensures Rearranged(old(a[..]), a[..], lo, hi)
    ensures SortedIn(a[..], lo, hi)
    decreases hi - lo
  {
    if lo >= hi { return; }
    var i, j, pivot := Partition(a, lo, hi);
    ghost var s := a[..];
    if lo < j {
      QSort(a, lo, j);
    }
    ghost var t := a[..];
    LeftPart(s, t, lo, hi, i, j, pivot);
    if i < hi {
      QSort(a, i, hi);
    }
    RightPart(t, a[..], lo, hi, i, j, pivot);
    RearrangedWider(s, t, lo, j, lo, hi);
    RearrangedWider(t, a[..], i, hi, lo, hi);
    RearrangedTwice(old(a[..]), s, t, lo, hi);
    RearrangedTwice(old(a[..]), t, a[..], lo, hi);
    PartsSorted(a[..], lo, hi, i, j, pivot);
  }

  lemma LeftPart(s: seq<int>, t: seq<int>, lo: int, hi: int, i: int, j: int, pivot: int)
    requires Split(s, lo, hi, i, j, pivot) && j < i && Rearranged(s, t, lo, j)
    ensures Split(t, lo, hi, i, j, pivot)
  {
    BoundsSurvive(s, t, lo, j, pivot);
  }

  lemma RightPart(s: seq<int>, t: seq<int>, lo: int, hi: int, i: int, j: int, pivot: int)
    requires Split(s, lo, hi, i, j, pivot) && j < i && Rearranged(s, t, i, hi) && SortedIn(s, lo, j)
    ensures Split(t, lo, hi, i, j, pivot) && SortedIn(t, lo, j)
  {
    BoundsSurvive(s, t, i, hi, pivot);
  }

  lemma RestOf(s: seq<int>)
    requires s != [] && SortedIn(s, 0, |s| - 1)
    ensures s == [s[0]] + s[1..] && multiset(s[1..]) == multiset(s) - multiset{s[0]} && SortedIn(s[1..], 0, |s| - 2)
  {
    assert s == [s[0]] + s[1..];
  }

  /** A sorted arrangement is unique. */
  lemma {:induction false} SortedIsUnique(s: seq<int>, t: seq<int>)
    requires multiset(s) == multiset(t)
    requires SortedIn(s, 0, |s| - 1) && SortedIn(t, 0, |t| - 1)
    ensures s == t
    decreases |s|
  {
    assert |multiset(s)| == |s| && |multiset(t)| == |t|;
    if s != [] {
      FirstIsBelow(s, t);
      FirstIsBelow(t, s);
      RestOf(s);
      RestOf(t);
      SortedIsUnique(s[1..], t[1..]);
    }
  }

  lemma FirstIsBelow(s: seq<int>, t: seq<int>)
    requires multiset(s) == multiset(t) && |s| > 0 && |t| > 0 && SortedIn(s, 0, |s| - 1)
    ensures s[0] <= t[0]
  {
    assert t[0] in multiset(s);
    var k :| 0 <= k < |s| && s[k] == t[0];
  }

  /** quicksortJS for any number of items: the array it builds ends up sorted, and the item returned is a least one,
      which is 0 exactly when the item 67 is among them. */
  method RunQuicksort(n: nat) returns (first: Option<int>, arr: array<int>)
    ensures fresh(arr) && SortedIn(arr[..], 0, n - 1) && multiset(arr[..]) == multiset(Items(n))
    ensures first == if n == 0 then None else Some(arr[..][0])
    ensures n > 0 ==> forall k :: 0 <= k < n ==> first.value <= Item(k)
    ensures first == Some(0) <==> n > 67
  {
    arr := new int[n];
    for i := 0 to n
      invariant forall k :: 0 <= k < i ==> arr[k] == Item(k)
    {
      arr[i] := (i * 2654435761 + 13) % 1000;
    }
    assert arr[..] == Items(n);
    QSort(arr, 0, n - 1);
    if n == 0 {
      return None, arr;
    }
    LeastItem(n, arr[..]);
    first := Some(arr[0]);
  }

  function Items(n: nat): (items: seq<int>)
    ensures |items| == n && forall k :: 0 <= k < n ==> items[k] == Item(k)
  {
    seq(n, k requires 0 <= k < n => Item(k))
  }

  lemma LeastItem(n: nat, t: seq<int>)
    requires n > 0 && multiset(t) == multiset(Items(n)) && SortedIn(t, 0, |t| - 1)
    ensures |t| > 0 && forall k :: 0 <= k < n ==> t[0] <= Item(k)
    ensures t[0] == 0 <==> n > 67
  {
    LeastFirst(Items(n), t);
    var k :| 0 <= k < n && Items(n)[k] == t[0];
    ZeroItem(k);
    ZeroItem(67);
  }

  function Item(k: int): (v: int)
    ensures v >= 0
  {
    (k * 2654435761 + 13) % 1000
  }

  lemma Thousands(x: int, t: int, r: int)
    requires x == r + 1000 * t && 0 <= r < 1000
    ensures x % 1000 == r
  {}

  /** Only the items 67, 1067, ... are 0. */
  lemma ZeroItem(k: int)
    ensures Item(k) == 0 <==> k % 1000 == 67
  {
    var m, t := (k * 2654435761 + 13) / 1000, k / 1000;
    if Item(k) == 0 {
      assert k * 2654435761 + 13 == 1000 * m;
      Thousands(k, 841 * m - 2232380475 * k - 11, 67);
    }
    if k % 1000 == 67 {
      assert k == 67 + 1000 * t;
      Thousands(k * 2654435761 + 13, 2654435761 * t + 177847196, 0);
    }
  }

  /** The first item of a sorted arrangement is one of the items, and none is less. */
  lemma LeastFirst(s: seq<int>, t: seq<int>)
    requires multiset(s) == multiset(t) && SortedIn(t, 0, |t| - 1) && s != []
    ensures |t| > 0 && (exists k :: 0 <= k < |s| && s[k] == t[0]) && forall k :: 0 <= k < |s| ==> t[0] <= s[k]
  {
    assert |multiset(s)| == |s| && |multiset(t)| == |t|;
    assert t[0] in multiset(s);
    forall k | 0 <= k < |s| ensures t[0] <= s[k] {
      assert s[k] in multiset(t);
      var m :| 0 <= m < |t| && t[m] == s[k];
    }
  }
}
