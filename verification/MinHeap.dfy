/** The scheduler's binary heap: an array that only grows, of which a logical size is in use. */
module MinHeap {
  import opened Sequences
  import opened Remainders
  import opened Generator

  datatype HeapNode = HeapNode(id: int, sortIndex: int)

  function Compare(a: HeapNode, b: HeapNode): int {
    var diff := a.sortIndex - b.sortIndex;
    if diff != 0 then diff else a.id - b.id
  }

  predicate Leq(a: HeapNode, b: HeapNode) { Compare(a, b) <= 0 }

  // ----- The specification: a multiset of nodes -----

  ghost predicate IsLeast(x: HeapNode, m: multiset<HeapNode>) {
    x in m && forall y :: y in m ==> Leq(x, y)
  }

  lemma {:induction false} LeastExists(m: multiset<HeapNode>)
    requires m != multiset{}
    ensures exists x :: IsLeast(x, m)
    decreases |m|
  {
    var x :| x in m;
    var rest := m - multiset{x};
    if rest == multiset{} {
      assert IsLeast(x, m) by {
        forall y | y in m ensures Leq(x, y) { assert y != x ==> y in rest; }
      }
    } else {
      LeastExists(rest);
      var y :| IsLeast(y, rest);
      var z := if Leq(x, y) then x else y;
      assert IsLeast(z, m) by {
        forall w | w in m ensures Leq(z, w) { assert w != x ==> w in rest; }
      }
    }
  }

  lemma LeastIsUnique(x: HeapNode, y: HeapNode, m: multiset<HeapNode>)
    requires IsLeast(x, m) && IsLeast(y, m)
    ensures x == y
  {
    assert Leq(x, y) && Leq(y, x);
  }

  ghost function Least(m: multiset<HeapNode>): (x: HeapNode)
    requires m != multiset{}
    ensures IsLeast(x, m)
  {
    LeastExists(m);
    var x :| IsLeast(x, m);
    x
  }

  /** The node that leaves first: none has a smaller sortIndex, and among those with its own none has a smaller id. */
  lemma LeastHasSmallestSortIndex(m: multiset<HeapNode>)
    requires m != multiset{}
    ensures var x := Least(m);
      x in m && forall y :: y in m ==> x.sortIndex <= y.sortIndex && (x.sortIndex == y.sortIndex ==> x.id <= y.id)
  {
    forall y | y in m ensures Least(m).sortIndex <= y.sortIndex &&
        (Least(m).sortIndex == y.sortIndex ==> Least(m).id <= y.id)
    {
      assert Leq(Least(m), y);
    }
  }

  datatype Operation = Push(node: HeapNode) | Pop

  /** What is left, and what each pop returned, after some operations on an empty queue. */
  ghost function Left(ops: seq<Operation>): multiset<HeapNode> {
    if ops == [] then multiset{} else
      var m := Left(ops[..|ops| - 1]);
      match ops[|ops| - 1]
      case Push(node) => m + multiset{node}
      case Pop => if m == multiset{} then m else m - multiset{Least(m)}
  }

  ghost function Returned(ops: seq<Operation>): seq<int> {
    if ops == [] then [] else
      var m, r := Left(ops[..|ops| - 1]), Returned(ops[..|ops| - 1]);
      match ops[|ops| - 1]
      case Push(_) => r
      case Pop => r + [if m == multiset{} then -1 else Least(m).sortIndex]
  }

  /** The order in which nodes leave. */
  ghost function Drained(m: multiset<HeapNode>): (s: seq<HeapNode>)
    ensures |s| == |m|
    decreases |m|
  {
    if m == multiset{} then [] else [Least(m)] + Drained(m - multiset{Least(m)})
  }

  ghost predicate Sorted(s: seq<HeapNode>) {
    forall i, j :: 0 <= i < j < |s| ==> Leq(s[i], s[j])
  }

  lemma {:induction false} DrainedKeepsNodes(m: multiset<HeapNode>)
    ensures multiset(Drained(m)) == m
    decreases |m|
  {
    if m != multiset{} {
      var x := Least(m);
      DrainedKeepsNodes(m - multiset{x});
      assert multiset([x] + Drained(m - multiset{x})) == multiset{x} + multiset(Drained(m - multiset{x}));
    }
  }

  lemma {:induction false} DrainedIsSorted(m: multiset<HeapNode>)
    ensures Sorted(Drained(m))
    decreases |m|
  {
    if m != multiset{} {
      var x := Least(m);
      var rest := Drained(m - multiset{x});
      DrainedIsSorted(m - multiset{x});
      DrainedKeepsNodes(m - multiset{x});
      Prepended(x, rest, m);
    }
  }

  lemma Prepended(x: HeapNode, rest: seq<HeapNode>, m: multiset<HeapNode>)
    requires IsLeast(x, m) && Sorted(rest) && multiset(rest) == m - multiset{x}
    ensures Sorted([x] + rest)
  {
    forall j | 0 <= j < |rest| ensures Leq(x, rest[j]) {
      assert rest[j] in multiset(rest);
    }
  }

  lemma FirstIsLeast(s: seq<HeapNode>)
    requires Sorted(s) && s != []
    ensures multiset(s) != multiset{} && Least(multiset(s)) == s[0]
    ensures multiset(s[1..]) == multiset(s) - multiset{s[0]}
  {
    assert s == [s[0]] + s[1..];
    assert s[0] in multiset(s);
    forall y | y in multiset(s) ensures Leq(s[0], y) {
      var i: nat :| i < |s| && s[i] == y;
    }
    LeastIsUnique(s[0], Least(multiset(s)), multiset(s));
  }

  lemma DrainedStep(m: multiset<HeapNode>, x: HeapNode, rest: multiset<HeapNode>)
    requires m != multiset{} && x == Least(m) && rest == m - multiset{x}
    ensures Drained(m) == [x] + Drained(rest)
  {}

  lemma HeadAndTail(s: seq<HeapNode>)
    requires s != []
    ensures s == [s[0]] + s[1..]
  {}

  lemma {:induction false} SortedIsDrained(s: seq<HeapNode>, m: multiset<HeapNode>)
    requires Sorted(s) && m == multiset(s)
    ensures s == Drained(m)
    decreases |s|
  {
    if s != [] {
      FirstIsLeast(s);
      SortedIsDrained(s[1..], multiset(s[1..]));
      DrainedStep(m, s[0], multiset(s[1..]));
      HeadAndTail(s);
    }
  }

  /** Emptying a queue gives its nodes by sortIndex, those of one sortIndex by id, and no other sequence is that. */
  lemma DrainedIsTheSortedOrder(m: multiset<HeapNode>, s: seq<HeapNode>)
    ensures s == Drained(m) <==>
      multiset(s) == m && forall i, j :: 0 <= i < j < |s| ==>
        s[i].sortIndex < s[j].sortIndex || (s[i].sortIndex == s[j].sortIndex && s[i].id <= s[j].id)
  {
    DrainedIsSorted(m);
    DrainedKeepsNodes(m);
    if Sorted(s) { SortedIsDrained(s, multiset(s)); }
  }

  ghost predicate DistinctIds(m: multiset<HeapNode>) {
    (forall x :: m[x] <= 1) && forall x, y :: x in m && y in m && x.id == y.id ==> x == y
  }

  lemma Twice(s: seq<HeapNode>, i: nat, j: nat)
    requires i < j < |s|
    ensures s[i] in multiset(s) && s[j] in multiset(s)
    ensures s[i] == s[j] ==> multiset(s)[s[i]] >= 2
  {
    assert s == s[..j] + s[j..];
    assert s[i] == s[..j][i] && s[i] in multiset(s[..j]) && s[j] == s[j..][0] && s[j] in multiset(s[j..]);
  }

  /** Nodes with distinct ids leave by sortIndex, and strictly by id within one sortIndex. */
  lemma DistinctIdsLeaveInOrder(m: multiset<HeapNode>, i: nat, j: nat)
    requires DistinctIds(m) && i < j < |m|
    ensures var x, y := Drained(m)[i], Drained(m)[j];
      x.sortIndex < y.sortIndex || (x.sortIndex == y.sortIndex && x.id < y.id)
  {
    DrainedIsSorted(m);
    DrainedKeepsNodes(m);
    Twice(Drained(m), i, j);
  }

  // ----- The shape of the heap -----

  function Parent(i: nat): (p: nat)
    requires i > 0
    ensures p < i
  {
    (i - 1) / 2
  }

  /** Every node but the one at hole is not before its parent. */
  ghost predicate OrderedUp(h: seq<HeapNode>, n: nat, hole: nat) {
    n <= |h| && forall i: nat {:trigger h[i]} :: 0 < i < n && i != hole ==> Leq(h[Parent(i)], h[i])
  }

  /** The children of hole are not before its parent. */
  ghost predicate OrderedAround(h: seq<HeapNode>, n: nat, hole: nat) {
    n <= |h| && forall i: nat {:trigger h[i]} :: 0 < i < n && Parent(i) == hole && 0 < hole ==>
      Leq(h[Parent(hole)], h[i])
  }

  /** Every node is not before its parent, unless the parent is at hole. */
  ghost predicate OrderedDown(h: seq<HeapNode>, n: nat, hole: nat) {
    n <= |h| && forall i: nat {:trigger h[i]} :: 0 < i < n && Parent(i) != hole ==> Leq(h[Parent(i)], h[i])
  }

  ghost predicate Ordered(h: seq<HeapNode>, n: nat) {
    n <= |h| && forall i: nat {:trigger h[i]} :: 0 < i < n ==> Leq(h[Parent(i)], h[i])
  }

  lemma {:induction false} RootIsFirst(h: seq<HeapNode>, n: nat, i: nat)
    requires Ordered(h, n) && i < n
    ensures Leq(h[0], h[i])
    decreases i
  {
    if i > 0 { RootIsFirst(h, n, Parent(i)); }
  }

  function Exchanged(h: seq<HeapNode>, i: nat, j: nat): (r: seq<HeapNode>)
    requires i < |h| && j < |h|
    ensures |r| == |h|
  {
    h[i := h[j]][j := h[i]]
  }

  lemma ExchangedKeepsNodes(h: seq<HeapNode>, n: nat, i: nat, j: nat)
    requires i < n <= |h| && j < n
    ensures multiset(Exchanged(h, i, j)[..n]) == multiset(h[..n])
  {
    assert Exchanged(h, i, j)[..n] == Exchanged(h[..n], i, j);
  }

  lemma ClimbKeepsOrder(h: seq<HeapNode>, n: nat, i: nat)
    requires 0 < i < n && OrderedUp(h, n, i) && OrderedAround(h, n, i) && !Leq(h[Parent(i)], h[i])
    ensures var r := Exchanged(h, Parent(i), i); OrderedUp(r, n, Parent(i)) && OrderedAround(r, n, Parent(i))
  {
    var p, r := Parent(i), Exchanged(h, Parent(i), i);
    assert p > 0 ==> Leq(h[Parent(p)], h[p]);
    forall k: nat | 0 < k < n && k != p ensures Leq(r[Parent(k)], r[k]) {
      assert h[k] == h[k];
    }
    forall k: nat | 0 < k < n && Parent(k) == p && 0 < p ensures Leq(r[Parent(p)], r[k]) {
      assert Leq(h[p], h[k]) || k == i;
    }
  }

  /** c is the child of i that is first, and it is before the node at i. */
  ghost predicate Descends(h: seq<HeapNode>, n: nat, i: nat, c: nat) {
    && 0 < c < n <= |h| && Parent(c) == i && !Leq(h[i], h[c])
    && forall k: nat {:trigger h[k]} :: 0 < k < n && Parent(k) == i ==> Leq(h[c], h[k])
  }

  lemma DescentKeepsOrder(h: seq<HeapNode>, n: nat, i: nat, c: nat)
    requires i < n && OrderedDown(h, n, i) && OrderedAround(h, n, i) && Descends(h, n, i, c)
    ensures var r := Exchanged(h, i, c); OrderedDown(r, n, c) && OrderedAround(r, n, c)
  {
    var r := Exchanged(h, i, c);
    forall k: nat | 0 < k < n && Parent(k) != c ensures Leq(r[Parent(k)], r[k]) {
      if k == i {
        assert Leq(h[Parent(i)], h[c]);
      }
    }
    forall k: nat | 0 < k < n && Parent(k) == c ensures Leq(r[Parent(c)], r[k]) {
      assert Leq(h[c], h[k]);
    }
  }

  // ----- The program -----

  class Heap {
    var heap: seq<HeapNode>
    var heapSize: nat

    ghost predicate Valid()
      reads this
    {
      Ordered(heap, heapSize)
    }

    /** The nodes below the logical size; the rest of the array is stale. */
    ghost function Live(): multiset<HeapNode>
      requires heapSize <= |heap|
      reads this
    {
      multiset(heap[..heapSize])
    }

    constructor ()
      ensures Valid() && Live() == multiset{}
    {
      heap, heapSize := [], 0;
    }

    method Reset()
      modifies this
      ensures Valid() && Live() == multiset{}
    {
      heap, heapSize := [], 0;
    }

    method Push(node: HeapNode)
      requires Valid()
      modifies this
      ensures Valid() && Live() == old(Live()) + multiset{node}
    {
      var index := heapSize;
      heap := if index < |heap| then heap[index := node] else heap + [node];
      heapSize := heapSize + 1;
      assert heap[..heapSize] == old(heap[..heapSize]) + [node];
      SiftUp(index);
    }

    method SiftUp(startIndex: nat)
      requires startIndex < heapSize && OrderedUp(heap, heapSize, startIndex) &&
          OrderedAround(heap, heapSize, startIndex)
      modifies this`heap
      ensures Valid() && Live() == old(Live()) && |heap| == old(|heap|)
    {
      var index: nat := startIndex;
      while index > 0
        invariant index < heapSize <= |heap| && |heap| == old(|heap|)
        invariant OrderedUp(heap, heapSize, index) && OrderedAround(heap, heapSize, index)
        invariant Live() == old(Live())
      {
        var parentIndex := Parent(index);
        var parent, node := heap[parentIndex], heap[index];
        if Compare(parent, node) > 0 {
          ClimbKeepsOrder(heap, heapSize, index);
          ExchangedKeepsNodes(heap, heapSize, parentIndex, index);
          heap := heap[parentIndex := node];
          heap := heap[index := parent];
          index := parentIndex;
        } else {
          break;
        }
      }
    }

    /** Returns the smallest sortIndex and removes the node of the smallest id among those that have it; -1 when there
        is no node. */
    method PopSort() returns (sortIndex: int)
      requires Valid()
      modifies this
      ensures Valid()
      ensures old(Live()) == multiset{} ==> sortIndex == -1 && Live() == multiset{}
      ensures old(Live()) != multiset{} ==>
        sortIndex == Least(old(Live())).sortIndex && Live() == old(Live()) - multiset{Least(old(Live()))}
      ensures forall x :: x in old(Live()) ==> sortIndex <= x.sortIndex
      ensures old(Live()) != multiset{} ==> exists node ::
        && node in old(Live()) && node.sortIndex == sortIndex && Live() == old(Live()) - multiset{node}
        && forall x :: x in old(Live()) && x.sortIndex == sortIndex ==> node.id <= x.id
    {
      if heapSize == 0 {
        return -1;
      }
      var first := heap[0];
      RootIsLeast(heap, heapSize);
      LeastHasSmallestSortIndex(Live());
      TakeRoot();
      return first.sortIndex;
    }

    /** The last node takes the place of the root and sinks. */
    method TakeRoot()
      requires Valid() && heapSize > 0
      modifies this
      ensures Valid() && Live() == old(Live()) - multiset{old(heap[0])}
    {
      heapSize := heapSize - 1;
      LastIsTaken(heap, heapSize);
      if heapSize == 0 {
        return;
      }
      var last := heap[heapSize];
      heap := heap[0 := last];
      SiftDown(0);
    }

    method SiftDown(startIndex: nat)
      requires startIndex < heapSize && OrderedDown(heap, heapSize, startIndex) &&
          OrderedAround(heap, heapSize, startIndex)
      modifies this`heap
      ensures Valid() && Live() == old(Live()) && |heap| == old(|heap|)
    {
      var index: nat := startIndex;
      var length := heapSize;
      var halfLength := length / 2;
      while index < halfLength
        invariant index < heapSize == length <= |heap| && |heap| == old(|heap|)
        invariant OrderedDown(heap, heapSize, index) && OrderedAround(heap, heapSize, index)
        invariant Live() == old(Live())
        decreases length - index
      {
        var leftIndex := 2 * (index + 1) - 1;
        var left := heap[leftIndex];
        var rightIndex := leftIndex + 1;
        var node := heap[index];
        if Compare(left, node) < 0 {
          if rightIndex < length {
            var right := heap[rightIndex];
            if Compare(right, left) < 0 {
              ChildMovesUp(heap, length, index, leftIndex, rightIndex);
              MoveDown(index, rightIndex);
              index := rightIndex;
            } else {
              ChildMovesUp(heap, length, index, leftIndex, leftIndex);
              MoveDown(index, leftIndex);
              index := leftIndex;
            }
          } else {
            ChildMovesUp(heap, length, index, leftIndex, leftIndex);
            MoveDown(index, leftIndex);
            index := leftIndex;
          }
        } else if rightIndex < length {
          var right := heap[rightIndex];
          if Compare(right, node) < 0 {
            ChildMovesUp(heap, length, index, leftIndex, rightIndex);
            MoveDown(index, rightIndex);
            index := rightIndex;
          } else {
            Settles(heap, length, index, leftIndex);
            return;
          }
        } else {
          Settles(heap, length, index, leftIndex);
          return;
        }
      }
      Settles(heap, length, index, 2 * (index + 1) - 1);
    }

    /** Exchange the node at i with its child at c. */
    method MoveDown(i: nat, c: nat)
      requires i < heapSize && OrderedDown(heap, heapSize, i) && OrderedAround(heap, heapSize, i)
      requires Descends(heap, heapSize, i, c)
      modifies this`heap
      ensures heap == Exchanged(old(heap), i, c)
      ensures OrderedDown(heap, heapSize, c) && OrderedAround(heap, heapSize, c) && Live() == old(Live())
    {
      DescentKeepsOrder(heap, heapSize, i, c);
      ExchangedKeepsNodes(heap, heapSize, i, c);
      var node := heap[i];
      heap := heap[i := heap[c]];
      heap := heap[c := node];
    }
  }

  lemma Children(i: nat, left: nat)
    requires left == 2 * (i + 1) - 1
    ensures Parent(left) == i && Parent(left + 1) == i
    ensures forall k: nat {:trigger Parent(k)} :: 0 < k && Parent(k) == i ==> k == left || k == left + 1
  {}

  lemma ChildMovesUp(h: seq<HeapNode>, n: nat, i: nat, left: nat, c: nat)
    requires left == 2 * (i + 1) - 1 && (c == left || c == left + 1) && c < n <= |h|
    requires Compare(h[c], h[i]) < 0 && Compare(h[c], h[left]) <= 0
    requires left + 1 < n ==> Compare(h[c], h[left + 1]) <= 0
    ensures Descends(h, n, i, c)
  {
    Children(i, left);
  }

  lemma Settles(h: seq<HeapNode>, n: nat, i: nat, left: nat)
    requires left == 2 * (i + 1) - 1 && OrderedDown(h, n, i) && i < n
    requires left < n ==> Compare(h[left], h[i]) >= 0
    requires left + 1 < n ==> Compare(h[left + 1], h[i]) >= 0
    ensures Ordered(h, n)
  {
    Children(i, left);
  }

  lemma RootIsLeast(h: seq<HeapNode>, n: nat)
    requires Ordered(h, n) && n > 0
    ensures multiset(h[..n]) != multiset{} && Least(multiset(h[..n])) == h[0]
  {
    var m := multiset(h[..n]);
    assert h[..n][0] in m;
    forall y | y in m ensures Leq(h[0], y) {
      var i: nat :| i < n && h[..n][i] == y;
      RootIsFirst(h, n, i);
    }
    LeastIsUnique(h[0], Least(m), m);
  }

  /** Moving the last node to the root takes the root away. */
  lemma LastIsTaken(h: seq<HeapNode>, n: nat)
    requires n < |h|
    ensures n == 0 ==> multiset(h[..n]) == multiset(h[..n + 1]) - multiset{h[0]}
    ensures n > 0 ==> multiset(h[0 := h[n]][..n]) == multiset(h[..n + 1]) - multiset{h[0]}
  {
    assert h[..n + 1] == h[..n] + [h[n]];
    if n > 0 {
      assert h[0 := h[n]][..n] == h[..n][0 := h[n]];
    }
  }

  // ----- Runs -----

  /** Over any interleaving of pushes and pops the heap is the multiset queue. */
  method RunOperations(ops: seq<Operation>) returns (heap: Heap, results: seq<int>)
    ensures heap.Valid() && heap.Live() == Left(ops)
    ensures results == Returned(ops)
  {
    heap := new Heap();
    results := [];
    for i := 0 to |ops|
      invariant fresh(heap) && heap.Valid() && heap.Live() == Left(ops[..i])
      invariant results == Returned(ops[..i])
    {
      OneMoreOperation(ops, i);
      match ops[i] {
        case Push(node) =>
          heap.Push(node);
        case Pop =>
          var r := heap.PopSort();
          results := results + [r];
      }
    }
    assert ops[..|ops|] == ops;
  }

  lemma OneMoreOperation(ops: seq<Operation>, i: nat)
    requires i < |ops|
    ensures var m := Left(ops[..i]);
      match ops[i]
      case Push(node) => Left(ops[..i + 1]) == m + multiset{node} && Returned(ops[..i + 1]) == Returned(ops[..i])
      case Pop =>
        && Left(ops[..i + 1]) == (if m == multiset{} then m else m - multiset{Least(m)})
        && Returned(ops[..i + 1]) == Returned(ops[..i]) + [if m == multiset{} then -1 else Least(m).sortIndex]
  {
    assert ops[..i + 1][..i] == ops[..i];
  }

  /** What each operation of a run does: a push adds its node; a pop returns the smallest sortIndex there is and takes
      away the node of the smallest id that has it; a pop of nothing returns -1. */
  lemma EachOperation(ops: seq<Operation>, k: nat)
    requires k < |ops|
    ensures Left(ops[..0]) == multiset{} && Returned(ops[..0]) == []
    ensures ops[k].Push? ==>
      Left(ops[..k + 1]) == Left(ops[..k]) + multiset{ops[k].node} && Returned(ops[..k + 1]) == Returned(ops[..k])
    ensures ops[k].Pop? && Left(ops[..k]) == multiset{} ==>
      Left(ops[..k + 1]) == multiset{} && Returned(ops[..k + 1]) == Returned(ops[..k]) + [-1]
    ensures ops[k].Pop? && Left(ops[..k]) != multiset{} ==> exists node ::
      && node in Left(ops[..k]) && Left(ops[..k + 1]) == Left(ops[..k]) - multiset{node}
      && Returned(ops[..k + 1]) == Returned(ops[..k]) + [node.sortIndex]
      && forall x :: x in Left(ops[..k]) ==>
           node.sortIndex < x.sortIndex || (node.sortIndex == x.sortIndex && node.id <= x.id)
  {
    OneMoreOperation(ops, k);
    if ops[k].Pop? && Left(ops[..k]) != multiset{} {
      LeastHasSmallestSortIndex(Left(ops[..k]));
    }
  }

  ghost function Priorities(seed: int, n: nat): int {
    if n == 0 then 0 else Priorities(seed, n - 1) + Drawn(seed, n)
  }

  ghost function SortIndexes(s: seq<HeapNode>): int {
    if s == [] then 0 else SortIndexes(s[..|s| - 1]) + s[|s| - 1].sortIndex
  }

  ghost function Pushed(seed: int, n: nat): (s: seq<HeapNode>)
    ensures |s| == n
  {
    if n == 0 then [] else Pushed(seed, n - 1) + [HeapNode(n - 1, Drawn(seed, n))]
  }

  lemma {:induction false} RemovalSum(s: seq<HeapNode>, i: nat)
    requires i < |s|
    ensures SortIndexes(s) == SortIndexes(s[..i] + s[i + 1..]) + s[i].sortIndex
    decreases |s|
  {
    var n := |s| - 1;
    if i < n {
      RemovalSum(s[..n], i);
      assert (s[..i] + s[i + 1..])[..n - 1] == s[..n][..i] + s[..n][i + 1..];
    } else {
      assert s[..i] + s[i + 1..] == s[..n];
    }
  }

  lemma Without(t: seq<HeapNode>, i: nat)
    requires i < |t|
    ensures multiset(t[..i] + t[i + 1..]) == multiset(t) - multiset{t[i]}
  {
    assert t == t[..i] + [t[i]] + t[i + 1..];
  }

  lemma TakenOut(s: seq<HeapNode>, t: seq<HeapNode>) returns (i: nat)
    requires multiset(s) == multiset(t) && s != []
    ensures i < |t| && t[i] == s[|s| - 1] && multiset(t[..i] + t[i + 1..]) == multiset(s[..|s| - 1])
  {
    var x := s[|s| - 1];
    assert s == s[..|s| - 1] + [x];
    assert x in multiset(t);
    i :| i < |t| && t[i] == x;
    Without(t, i);
    assert multiset(s) == multiset(s[..|s| - 1]) + multiset{x};
  }

  /** The sum does not depend on the order. */
  lemma {:induction false} SumOfSameNodes(s: seq<HeapNode>, t: seq<HeapNode>)
    requires multiset(s) == multiset(t)
    ensures SortIndexes(s) == SortIndexes(t)
    decreases |s|
  {
    if s == [] {
      assert |multiset(t)| == 0;
    } else {
      var i := TakenOut(s, t);
      SumOfSameNodes(s[..|s| - 1], t[..i] + t[i + 1..]);
      RemovalSum(t, i);
    }
  }

  lemma {:induction false} PushedSum(seed: int, n: nat)
    ensures SortIndexes(Pushed(seed, n)) == Priorities(seed, n)
  {
    if n > 0 {
      PushedSum(seed, n - 1);
      assert Pushed(seed, n)[..n - 1] == Pushed(seed, n - 1);
    }
  }

  /** One turn of the popping loop. */
  method PopNext(heap: Heap, checksum: int, ghost popped: seq<HeapNode>) returns (sum: int, ghost more: seq<HeapNode>)
    requires heap.Valid() && heap.Live() != multiset{} && checksum == SortIndexes(popped)
    modifies heap
    ensures heap.Valid() && |heap.Live()| == |old(heap.Live())| - 1
    ensures more + Drained(heap.Live()) == popped + Drained(old(heap.Live()))
    ensures sum == SortIndexes(more)
  {
    ghost var m := heap.Live();
    DrainNext(popped, m);
    var val := heap.PopSort();
    sum, more := checksum + val, popped + [Least(m)];
  }

  /** Popping everything: the nodes leave in the order Drained gives. */
  method PopAll(heap: Heap, n: nat) returns (checksum: int, ghost popped: seq<HeapNode>)
    requires heap.Valid() && |heap.Live()| == n
    modifies heap
    ensures heap.Valid() && heap.Live() == multiset{}
    ensures popped == Drained(old(heap.Live())) && checksum == SortIndexes(popped)
  {
    checksum, popped := 0, [];
    for j := 0 to n
      invariant heap.Valid() && popped + Drained(heap.Live()) == Drained(old(heap.Live()))
      invariant |heap.Live()| == n - j && checksum == SortIndexes(popped)
    {
      checksum, popped := PopNext(heap, checksum, popped);
    }
  }

  lemma DrainNext(s: seq<HeapNode>, m: multiset<HeapNode>)
    requires m != multiset{}
    ensures s + Drained(m) == s + [Least(m)] + Drained(m - multiset{Least(m)})
    ensures SortIndexes(s + [Least(m)]) == SortIndexes(s) + Least(m).sortIndex
  {
    DrainedStep(m, Least(m), m - multiset{Least(m)});
    Associative(s, [Least(m)], Drained(m - multiset{Least(m)}));
    assert (s + [Least(m)])[..|s|] == s;
  }

  lemma OneMorePushed(seed: int, i: nat)
    ensures multiset(Pushed(seed, i + 1)) == multiset(Pushed(seed, i)) + multiset{HeapNode(i, Drawn(seed, i + 1))}
  {
    assert Pushed(seed, i + 1) == Pushed(seed, i) + [HeapNode(i, Drawn(seed, i + 1))];
  }

  /** The pushing loop of jsInternalBenchmark. */
  method PushAll(heap: Heap, n: nat, seed: int)
    requires heap.Valid() && heap.Live() == multiset{}
    modifies heap
    ensures heap.Valid() && heap.Live() == multiset(Pushed(seed, n))
  {
    var rng := seed;
    for i := 0 to n
      invariant heap.Valid() && heap.Live() == multiset(Pushed(seed, i)) && rng == Drawn(seed, i)
    {
      rng := Draw(rng);
      OneMorePushed(seed, i);
      heap.Push(HeapNode(i, rng));
    }
  }

  /** jsInternalBenchmark: pushing n nodes and popping as many, by sortIndex and, within one sortIndex, by id. */
  method InternalBenchmark(heap: Heap, n: nat, seed: int) returns (checksum: int, ghost popped: seq<HeapNode>)
    modifies heap
    ensures heap.Valid() && heap.Live() == multiset{}
    ensures checksum == Priorities(seed, n)
    ensures |popped| == n && forall k: nat :: 1 <= k <= n ==> HeapNode(k - 1, Drawn(seed, k)) in popped
    ensures forall i, j :: 0 <= i < j < n ==>
      popped[i].sortIndex < popped[j].sortIndex ||
        (popped[i].sortIndex == popped[j].sortIndex && popped[i].id <= popped[j].id)
  {
    heap.Reset();
    PushAll(heap, n, seed);
    checksum, popped := PopAll(heap, n);
    DrainedSum(seed, n, popped);
    DrainedIsTheSortedOrder(multiset(Pushed(seed, n)), popped);
    PushedLeave(seed, n, popped);
  }

  lemma {:induction false} PushedAt(seed: int, n: nat, k: nat)
    requires k < n
    ensures Pushed(seed, n)[k] == HeapNode(k, Drawn(seed, k + 1))
  {
    if k < n - 1 { PushedAt(seed, n - 1, k); }
  }

  lemma PushedLeave(seed: int, n: nat, popped: seq<HeapNode>)
    requires multiset(popped) == multiset(Pushed(seed, n))
    ensures |popped| == n && forall k: nat :: 1 <= k <= n ==> HeapNode(k - 1, Drawn(seed, k)) in popped
  {
    assert |multiset(popped)| == |multiset(Pushed(seed, n))|;
    forall k: nat | 1 <= k <= n ensures HeapNode(k - 1, Drawn(seed, k)) in popped {
      PushedAt(seed, n, k - 1);
      assert Pushed(seed, n)[k - 1] in multiset(popped);
    }
  }

  lemma DrainedSum(seed: int, n: nat, popped: seq<HeapNode>)
    requires popped == Drained(multiset(Pushed(seed, n)))
    ensures SortIndexes(popped) == Priorities(seed, n)
  {
    DrainedKeepsNodes(multiset(Pushed(seed, n)));
    SumOfSameNodes(popped, Pushed(seed, n));
    PushedSum(seed, n);
  }
}
