/** The fiber reconciler benchmark: a tree of linked node objects, updates at random, and a walk over the
    links that uses no stack. Trees, properties and whole runs are specified on values. */
module ReactReconciler {
  import opened Sequences
  import opened Remainders
  import opened Generator
  import opened FiberTree

  const UPDATE_FLAG: bv32 := 4

  class FiberNode {
    var tag: int
    var type_: int
    var child: FiberNode?
    var sibling: FiberNode?
    var return_: FiberNode?
    var pendingProps: int
    var memoizedProps: int
    var memoizedState: int
    var flags: bv32

    constructor (tag: int, type_: int)
      ensures this.tag == tag && this.type_ == type_
      ensures child == null && sibling == null && return_ == null
      ensures pendingProps == memoizedProps == memoizedState == 0 && flags == 0
    {
      this.tag, this.type_ := tag, type_;
      child, sibling, return_ := null, null, null;
      pendingProps, memoizedProps, memoizedState, flags := 0, 0, 0, 0;
    }
  }

  // ---------------------------------------------------------------- the specification on values

  /** The seed, followed by n - 1 draws. */
  function Draws(seed: int, n: nat): (draws: seq<int>)
    requires n > 0
    ensures |draws| == n
  {
    if n == 1 then [seed] else Draws(seed, n - 1) + [Draw(Draws(seed, n - 1)[n - 2])]
  }

  /** Every parent index that is drawn for nodes 1, 2, ... is an index. */
  predicate Indexable(draws: seq<int>) {
    forall i :: 1 <= i < |draws| ==> Rem(draws[i], i) >= 0
  }

  /** The tree that the draws determine: draw i picks the parent of node i among the nodes before it. */
  function Parents(draws: seq<int>): (par: seq<nat>)
    ensures |par| == |draws| && (draws != [] ==> IsTree(par))
  {
    seq(|draws|, i requires 0 <= i < |draws| => if i == 0 || Rem(draws[i], i) < 0 then 0 else Rem(draws[i], i))
  }

  /** The values of the nodes: each is taken from its draw, that of the root from the seed. */
  function Props(draws: seq<int>): (props: seq<int>)
    ensures |props| == |draws|
  {
    seq(|draws|, i requires 0 <= i < |draws| => Rem(draws[i], 1000))
  }

  /** One random update: two draws, for the node and for its new value. */
  function UpdateOne(props: seq<int>, rng: Rng): (r: (seq<int>, Rng))
    requires props != []
    ensures |r.0| == |props|
  {
    var r1 := Draw(rng);
    var r2 := Draw(r1);
    (props[r1 % |props| := r2 % 1000], r2)
  }

  function Updates(props: seq<int>, count: nat, rng: Rng): (r: (seq<int>, Rng))
    requires props != []
    ensures |r.0| == |props|
  {
    if count == 0 then (props, rng)
    else var (p, r) := Updates(props, count - 1, rng); UpdateOne(p, r)
  }

  /** The nodes whose two properties differ. */
  ghost function Differ(a: seq<int>, b: seq<int>): set<nat>
    requires |a| == |b|
  {
    set i: nat | i < |a| && a[i] != b[i]
  }

  function Sum(a: seq<int>): int {
    if a == [] then 0 else Sum(a[..|a| - 1]) + a[|a| - 1]
  }

  // ---------------------------------------------------------------- the linked tree

  ghost function At(nodes: seq<FiberNode>, i: int): FiberNode? {
    if 0 <= i < |nodes| then nodes[i] else null
  }

  /** The child and sibling links of the nodes are those that fc and ns give by index. */
  ghost predicate LinkedTo(nodes: seq<FiberNode>, par: seq<nat>, fc: seq<int>, ns: seq<int>)
    reads nodes`child, nodes`sibling, nodes`return_
  {
    && |nodes| == |par| == |fc| == |ns|
    && (forall i :: 0 <= i < |nodes| ==> -1 <= fc[i] < |nodes| && -1 <= ns[i] < |nodes|)
    && (forall i, j :: 0 <= i < j < |nodes| ==> nodes[i] != nodes[j])
    && (forall i {:trigger nodes[i].child} :: 0 <= i < |nodes| ==> nodes[i].child == At(nodes, fc[i]))
    && (forall i {:trigger nodes[i].sibling} :: 0 <= i < |nodes| ==> nodes[i].sibling == At(nodes, ns[i]))
    && (forall i {:trigger nodes[i].return_} :: 0 <= i < |nodes| ==>
        nodes[i].return_ == if 0 < i && par[i] < |nodes| then nodes[par[i]] else null)
  }

  /** The links of the nodes are those of the tree par. */
  ghost predicate Linked(nodes: seq<FiberNode>, par: seq<nat>)
    reads nodes`child, nodes`sibling, nodes`return_
  {
    IsTree(par) && LinkedTo(nodes, par, FirstChildren(par), NextSiblings(par))
  }

  /** The pending properties of the nodes are pend and the memoized ones memo; each node's state was computed
      from its memoized properties, and no node is flagged for an update. */
  ghost predicate Values(nodes: seq<FiberNode>, pend: seq<int>, memo: seq<int>)
    reads nodes`pendingProps, nodes`memoizedProps, nodes`memoizedState, nodes`flags
  {
    && |nodes| == |pend| == |memo|
    && forall i :: 0 <= i < |nodes| ==>
         && nodes[i].pendingProps == pend[i]
         && nodes[i].memoizedProps == memo[i] == nodes[i].memoizedState
         && nodes[i].flags & UPDATE_FLAG == 0
  }

  // ---------------------------------------------------------------- building

  /** Walk along the children of the node at index p to the last one. */
  method FindLastChild(nodes: seq<FiberNode>, p: nat, ghost par: seq<nat>) returns (sib: FiberNode, ghost last: nat)
    requires Linked(nodes, par) && p < |nodes| && nodes[p].child != null
    ensures LastChild(par, p, last) && sib == nodes[last]
  {
    sib := nodes[p].child;
    last := FirstChild(par, p);
    while sib.sibling != null
      invariant 0 < last < |par| && par[last] == p && sib == nodes[last]
      decreases |par| - last
    {
      sib := sib.sibling;
      last := NextSibling(par, last);
    }
  }

  /** A node that no link leads to or from. */
  ghost predicate Loose(nodes: seq<FiberNode>, node: FiberNode)
    reads node
  {
    node !in nodes && node.child == null && node.sibling == null
  }

  method HangAsFirstChild(ghost nodes: seq<FiberNode>, ghost p: nat, parent: FiberNode, node: FiberNode,
                          ghost par: seq<nat>, ghost fc: seq<int>, ghost ns: seq<int>)
    requires LinkedTo(nodes, par, fc, ns) && IsTree(par) && p < |nodes| && parent == nodes[p] && Loose(nodes, node)
    modifies parent`child, node`return_
    ensures LinkedTo(nodes + [node], par + [p], fc[p := |par|] + [-1], ns + [-1])
  {
    node.return_ := parent;
    parent.child := node;
  }

  method HangAfter(ghost nodes: seq<FiberNode>, ghost p: nat, parent: FiberNode, ghost s: nat, sib: FiberNode,
      node: FiberNode, ghost par: seq<nat>, ghost fc: seq<int>, ghost ns: seq<int>)
    requires LinkedTo(nodes, par, fc, ns) && IsTree(par) && p < |nodes| && s < |nodes|
    requires parent == nodes[p] && sib == nodes[s] && Loose(nodes, node)
    modifies sib`sibling, node`return_
    ensures LinkedTo(nodes + [node], par + [p], fc + [-1], ns[s := |par|] + [-1])
  {
    node.return_ := parent;
    sib.sibling := node;
  }

  /** Append node as the last child of the node at index p. */
  method AppendChild(nodes: seq<FiberNode>, p: nat, node: FiberNode, ghost par: seq<nat>)
    requires Linked(nodes, par) && p < |nodes| && Loose(nodes, node)
    modifies nodes`child, nodes`sibling, node`return_
    ensures Linked(nodes + [node], par + [p])
  {
    ghost var fc, ns := FirstChildren(par), NextSiblings(par);
    FirstChildrenGrow(par, p);
    if nodes[p].child == null {
      NextSiblingsGrow(par, p, |par|);
      HangAsFirstChild(nodes, p, nodes[p], node, par, fc, ns);
    } else {
      var sib;
      ghost var last;
      sib, last := FindLastChild(nodes, p, par);
      NextSiblingsGrow(par, p, last);
      HangAfter(nodes, p, nodes[p], last, sib, node, par, fc, ns);
    }
  }

  /** The number of nodes that jsBuildTree makes: the root is always there. */
  function Size(n: nat): (r: nat)
    ensures r > 0
  {
    if n == 0 then 1 else n
  }

  /** The tree that the draws determine, before any update. */
  ghost predicate Built(nodes: seq<FiberNode>, draws: seq<int>)
    reads nodes
  {
    draws != [] && Linked(nodes, Parents(draws)) && Values(nodes, Props(draws), Props(draws))
  }

  method NewNode(i: nat, rng: int) returns (node: FiberNode)
    ensures fresh(node) && node.child == null && node.sibling == null
    ensures node.pendingProps == node.memoizedProps == node.memoizedState == Rem(rng, 1000) && node.flags == 0
  {
    node := new FiberNode(1, i);
    node.pendingProps := Rem(rng, 1000);
    node.memoizedProps := node.pendingProps;
    node.memoizedState := node.pendingProps;
  }

  method NewRoot(seed: int) returns (root: FiberNode)
    ensures fresh(root) && Built([root], [seed])
  {
    assert Parents([seed]) == [0] && Props([seed]) == [Rem(seed, 1000)];
    root := new FiberNode(0, 0);
    root.pendingProps := Rem(seed, 1000);
    root.memoizedProps := root.pendingProps;
    root.memoizedState := root.pendingProps;
  }

  /** What one more draw adds to the tree. */
  lemma OneMoreDraw(draws: seq<int>, rng: int)
    requires draws != [] && Rem(rng, |draws|) >= 0
    ensures Parents(draws + [rng]) == Parents(draws) + [Rem(rng, |draws|)]
    ensures Props(draws + [rng]) == Props(draws) + [Rem(rng, 1000)]
  {
  }

  lemma ValuesGrow(nodes: seq<FiberNode>, node: FiberNode, props: seq<int>, p: int)
    requires Values(nodes, props, props)
    requires node.pendingProps == node.memoizedProps == node.memoizedState == p && node.flags == 0
    ensures Values(nodes + [node], props + [p], props + [p])
  {
  }

  /** One turn of the building loop: a node with the drawn value, under the drawn parent. */
  method AddNode(nodes: seq<FiberNode>, i: nat, rng: int, ghost draws: seq<int>) returns (more: seq<FiberNode>)
    requires Built(nodes, draws) && Rem(rng, |draws|) >= 0
    modifies nodes`child, nodes`sibling
    ensures forall k :: 0 <= k < |more| ==> if k < |nodes| then more[k] == nodes[k] else fresh(more[k])
    ensures Built(more, draws + [rng])
  {
    OneMoreDraw(draws, rng);
    var node := NewNode(i, rng);
    AppendChild(nodes, Rem(rng, |nodes|), node, Parents(draws));
    ValuesGrow(nodes, node, Props(draws), Rem(rng, 1000));
    more := nodes + [node];
  }

  /** The tree after i turns, and the generator's state. */
  ghost predicate BuiltSoFar(nodes: seq<FiberNode>, seed: int, i: nat, rng: int)
    reads nodes
  {
    i >= 1 && Built(nodes, Draws(seed, i)) && rng == Draws(seed, i)[i - 1]
  }

  lemma NextDraw(seed: int, i: nat, rng: int, r: int)
    requires i >= 1 && rng == Draws(seed, i)[i - 1] && r == Draw(rng)
    ensures Draws(seed, i + 1) == Draws(seed, i) + [r] && Draws(seed, i + 1)[i] == r
    ensures Indexable(Draws(seed, i + 1)) <==> Indexable(Draws(seed, i)) && Rem(r, i) >= 0
  {
    assert Draws(seed, i + 1)[i] == r;
    assert forall j :: 0 <= j < i ==> Draws(seed, i + 1)[j] == Draws(seed, i)[j];
  }

  /** A draw that gives no index is a draw of every longer run. */
  lemma {:induction false} NotIndexableLater(seed: int, i: nat, n: nat)
    requires 1 <= i <= n && !Indexable(Draws(seed, i))
    ensures !Indexable(Draws(seed, n))
    decreases n
  {
    if i < n {
      NotIndexableLater(seed, i, n - 1);
      NextDraw(seed, n - 1, Draws(seed, n - 1)[n - 2], Draw(Draws(seed, n - 1)[n - 2]));
    }
  }

  /** One turn of the loop; it throws when the index drawn for the parent is negative. */
  method Turn(nodes: seq<FiberNode>, i: nat, rng: int, ghost seed: int) returns (ok: bool, more: seq<FiberNode>, r: int)
    requires BuiltSoFar(nodes, seed, i, rng) && Indexable(Draws(seed, i))
    modifies nodes`child, nodes`sibling
    ensures ok <==> Indexable(Draws(seed, i + 1))
    ensures ok ==> forall k :: 0 <= k < |more| ==> if k < |nodes| then more[k] == nodes[k] else fresh(more[k])
    ensures ok ==> BuiltSoFar(more, seed, i + 1, r)
  {
    r := Draw(rng);
    NextDraw(seed, i, rng, r);
    if Rem(r, |nodes|) < 0 {
      return false, nodes, r;
    }
    ghost var draws := Draws(seed, i);
    more := AddNode(nodes, i, r, draws);
    ok := true;
  }

  method OneNodeTree(seed: int, ghost i: nat) returns (nodes: seq<FiberNode>)
    requires i == 1
    ensures fresh(nodes) && BuiltSoFar(nodes, seed, i, seed) && Indexable(Draws(seed, i))
  {
    var root := NewRoot(seed);
    nodes := [root];
  }

  /** jsBuildTree, and whether it comes to its end: it throws exactly when a draw gives a negative index. */
  method BuildTree(n: nat, seed: int) returns (ok: bool, nodes: seq<FiberNode>)
    ensures ok <==> Indexable(Draws(seed, Size(n)))
    ensures ok ==> fresh(nodes) && Built(nodes, Draws(seed, Size(n)))
  {
    var rng, i: nat := seed, 1;
    nodes := OneNodeTree(seed, i);
    while i < n
      invariant 1 <= i <= Size(n) && fresh(nodes) && BuiltSoFar(nodes, seed, i, rng) && Indexable(Draws(seed, i))
    {
      ok, nodes, rng := Turn(nodes, i, rng, seed);
      i := i + 1;
      if !ok {
        NotIndexableLater(seed, i, n);
        return;
      }
    }
    ok := true;
  }

  lemma {:induction false} DrawsAreDrawn(seed: int, n: nat, i: nat)
    requires i < n
    ensures Draws(seed, n)[i] == Drawn(seed, i)
  {
    if n > 1 {
      DrawsAreDrawn(seed, n - 1, if i < n - 1 then i else n - 2);
    }
  }

  /** The values and the parents of the tree that was built: node i has those that draw i gives. */
  lemma BuiltNode(nodes: seq<FiberNode>, seed: int, n: nat, i: nat)
    requires n > 0 && Indexable(Draws(seed, n)) && Built(nodes, Draws(seed, n)) && i < n
    ensures |nodes| == n
    ensures nodes[i].pendingProps == nodes[i].memoizedProps == nodes[i].memoizedState == Rem(Drawn(seed, i), 1000)
    ensures i == 0 ==> nodes[i].return_ == null
    ensures i > 0 ==> 0 <= Rem(Drawn(seed, i), i) < i && nodes[i].return_ == nodes[Rem(Drawn(seed, i), i)]
  {
    DrawsAreDrawn(seed, n, i);
  }

  lemma FirstChildIs(par: seq<nat>, p: nat, c: nat)
    requires IsTree(par) && p < |par| && c < |par|
    ensures FirstChild(par, p) == c <==> 0 < c && par[c] == p && forall i: nat :: 0 < i < c ==> par[i] != p
  {
    assert forall i: nat :: 0 < i <= p ==> par[i] != p;
  }

  lemma NextSiblingIs(par: seq<nat>, v: nat, w: nat)
    requires IsTree(par) && 0 < v < |par| && w < |par|
    ensures NextSibling(par, v) == w <==> v < w && par[w] == par[v] && forall i: nat :: v < i < w ==> par[i] != par[v]
  {
  }

  lemma ReturnIs(nodes: seq<FiberNode>, par: seq<nat>, v: nat, w: nat)
    requires Linked(nodes, par) && v < |par| && 0 < w < |par|
    ensures nodes[w].return_ == nodes[v] <==> par[w] == v
  {
  }

  lemma LinkIs(nodes: seq<FiberNode>, link: int, c: nat)
    requires -1 <= link < |nodes| && c < |nodes| && forall i, j :: 0 <= i < j < |nodes| ==> nodes[i] != nodes[j]
    ensures At(nodes, link) == nodes[c] <==> link == c
  {
  }

  /** Down the tree: the child of a node is the first node whose parent it is. */
  lemma ChildIsFirst(nodes: seq<FiberNode>, par: seq<nat>, p: nat, c: nat)
    requires Linked(nodes, par) && p < |nodes| && c < |nodes|
    ensures nodes[p].child == nodes[c] <==>
      0 < c && nodes[c].return_ == nodes[p] && forall i: nat :: 0 < i < c ==> nodes[i].return_ != nodes[p]
  {
    FirstChildIs(par, p, c);
    LinkIs(nodes, FirstChild(par, p), c);
    forall i: nat | 0 < i < |par| ensures nodes[i].return_ == nodes[p] <==> par[i] == p { ReturnIs(nodes, par, p, i); }
  }

  /** Along the children: the sibling of a node is the next node under the same parent. */
  lemma SiblingIsNext(nodes: seq<FiberNode>, par: seq<nat>, v: nat, w: nat)
    requires Linked(nodes, par) && 0 < v < |nodes| && w < |nodes|
    ensures nodes[v].sibling == nodes[w] <==>
      v < w && nodes[w].return_ == nodes[v].return_ &&
        forall i: nat :: v < i < w ==> nodes[i].return_ != nodes[v].return_
  {
    NextSiblingIs(par, v, w);
    LinkIs(nodes, NextSibling(par, v), w);
    assert nodes[v].return_ == nodes[par[v]];
    forall i: nat | 0 < i < |par| ensures nodes[i].return_ == nodes[par[v]] <==> par[i] == par[v] {
      ReturnIs(nodes, par, par[v], i);
    }
  }

  // ---------------------------------------------------------------- updating

  /** The least integer that is not below x, and not below 0. */
  function Ceil(x: real): (n: nat)
    ensures n as real >= x && (n > 0 ==> (n - 1) as real < x)
  {
    if x <= 0.0 then 0 else -(-x).Floor
  }

  method SetPending(ghost nodes: seq<FiberNode>, node: FiberNode, ghost idx: nat, p: int, ghost pend: seq<int>,
      ghost memo: seq<int>)
    requires idx < |nodes| && nodes[idx] == node && Values(nodes, pend, memo)
    requires forall i, j :: 0 <= i < j < |nodes| ==> nodes[i] != nodes[j]
    modifies node`pendingProps
    ensures Values(nodes, pend[idx := p], memo)
  {
    node.pendingProps := p;
  }

  /** Two draws: one for the node, one for its new value. */
  method UpdateNode(nodes: seq<FiberNode>, rng0: Rng, ghost pend: seq<int>, ghost memo: seq<int>) returns (rng: Rng)
    requires nodes != [] && Values(nodes, pend, memo)
    requires forall i, j :: 0 <= i < j < |nodes| ==> nodes[i] != nodes[j]
    modifies nodes`pendingProps
    ensures Values(nodes, UpdateOne(pend, rng0).0, memo) && rng == UpdateOne(pend, rng0).1
  {
    var pick := Draw(rng0);
    var idx := pick % |nodes|;
    rng := Draw(pick);
    SetPending(nodes, nodes[idx], idx, rng % 1000, pend, memo);
  }

  /** Update k is the last of the first count that picks node i. */
  ghost predicate LastPick(rng: Rng, n: nat, count: nat, i: nat, k: nat)
    requires n > 0
  {
    && k < count && Drawn(rng, 2 * k + 1) % n == i
    && forall j {:trigger Drawn(rng, 2 * j + 1)} :: k < j < count ==> Drawn(rng, 2 * j + 1) % n != i
  }

  /** None of the first count updates picks node i. */
  ghost predicate NeverPicked(rng: Rng, n: nat, count: nat, i: nat)
    requires n > 0
  {
    forall k: nat :: k < count ==> Drawn(rng, 2 * k + 1) % n != i
  }

  lemma DrawnNext(rng: Rng, k: nat)
    ensures Drawn(rng, 2 * k + 1) == Draw(Drawn(rng, 2 * k)) && Drawn(rng, 2 * k + 2) == Draw(Drawn(rng, 2 * k + 1))
  {}

  /** Every node holds the value of the last update that picked it, and its former one when none did; update k, the
      first being update 0, uses draw 2k + 1 for the node and draw 2k + 2 for the value. */
  lemma {:induction false} LastUpdateWins(props: seq<int>, count: nat, rng: Rng)
    requires props != []
    ensures Updates(props, count, rng).1 == Drawn(rng, 2 * count)
    ensures forall i: nat, k: nat :: i < |props| && LastPick(rng, |props|, count, i, k) ==>
      Updates(props, count, rng).0[i] == Drawn(rng, 2 * k + 2) % 1000
    ensures forall i: nat :: i < |props| && NeverPicked(rng, |props|, count, i) ==>
      Updates(props, count, rng).0[i] == props[i]
  {
    if count > 0 {
      LastUpdateWins(props, count - 1, rng);
      DrawnNext(rng, count - 1);
      var before, after := Updates(props, count - 1, rng).0, Updates(props, count, rng).0;
      var idx := Drawn(rng, 2 * (count - 1) + 1) % |props|;
      assert after == before[idx := Drawn(rng, 2 * (count - 1) + 2) % 1000];
      forall i: nat, k: nat | i < |props| && LastPick(rng, |props|, count, i, k)
        ensures after[i] == Drawn(rng, 2 * k + 2) % 1000
      {
        if k < count - 1 {
          assert Drawn(rng, 2 * (count - 1) + 1) % |props| != i;
          assert LastPick(rng, |props|, count - 1, i, k);
        }
      }
      forall i: nat | i < |props| && NeverPicked(rng, |props|, count, i) ensures after[i] == props[i] {
        assert i != idx && NeverPicked(rng, |props|, count - 1, i);
      }
    }
  }

  lemma BelowCeil(i: nat, x: real)
    ensures i as real < x <==> i < Ceil(x)
  {}

  method ApplyUpdates(nodes: seq<FiberNode>, updateCount: real, rng0: Rng, ghost pend: seq<int>, ghost memo: seq<int>)
    returns (rng: Rng)
    requires nodes != [] && Values(nodes, pend, memo)
    requires forall i, j :: 0 <= i < j < |nodes| ==> nodes[i] != nodes[j]
    modifies nodes`pendingProps
    ensures Values(nodes, Updates(pend, Ceil(updateCount), rng0).0, memo)
    ensures rng == Updates(pend, Ceil(updateCount), rng0).1 == Drawn(rng0, 2 * Ceil(updateCount))
    ensures forall i: nat, k: nat :: i < |nodes| && LastPick(rng0, |nodes|, Ceil(updateCount), i, k) ==>
      nodes[i].pendingProps == Drawn(rng0, 2 * k + 2) % 1000
    ensures forall i: nat :: i < |nodes| && NeverPicked(rng0, |nodes|, Ceil(updateCount), i) ==>
      nodes[i].pendingProps == old(nodes[i].pendingProps)
  {
    rng := rng0;
    var i := 0;
    ghost var now, count := pend, Ceil(updateCount);
    BelowCeil(i, updateCount);
    while i as real < updateCount
      invariant 0 <= i <= count && (i as real < updateCount <==> i < count)
      invariant (now, rng) == Updates(pend, i, rng0) && Values(nodes, now, memo)
      decreases count - i
    {
      ghost var next := UpdateOne(now, rng).0;
      rng := UpdateNode(nodes, rng, now, memo);
      now := next;
      i := i + 1;
      BelowCeil(i, updateCount);
    }
    LastUpdateWins(pend, count, rng0);
  }

  // ---------------------------------------------------------------- reconciling

  /** Reconcile and commit one node. */
  method ReconcileNode(node: FiberNode) returns (changed: bool)
    requires node.memoizedState == node.memoizedProps && node.flags & UPDATE_FLAG == 0
    modifies node`memoizedProps, node`memoizedState, node`flags
    ensures changed == (node.pendingProps != old(node.memoizedProps))
    ensures node.memoizedState == node.memoizedProps == node.pendingProps && node.flags & UPDATE_FLAG == 0
  {
    changed := false;
    if node.pendingProps != node.memoizedProps {
      node.flags := node.flags | UPDATE_FLAG;
      changed := true;
    }
    if node.flags & UPDATE_FLAG != 0 {
      node.memoizedProps := node.pendingProps;
      node.memoizedState := node.pendingProps;
      node.flags := node.flags & !UPDATE_FLAG;
    }
  }

  /** The walk goes on from node v to node w, or ends there when next is null. */
  ghost predicate GoesOn(nodes: seq<FiberNode>, par: seq<nat>, v: nat, next: FiberNode?, w: nat)
    requires IsTree(par) && v < |par| == |nodes|
  {
    if next == null then Preorder(par, v) + After(par, v) == [v]
    else w < |par| && next == nodes[w] && Preorder(par, v) + After(par, v) == [v] + (Preorder(par, w) + After(par, w))
  }

  /** The link down from node v, and what the walk still has to visit. */
  lemma WayDown(nodes: seq<FiberNode>, par: seq<nat>, v: nat)
    requires Linked(nodes, par) && v < |nodes|
    ensures nodes[v].child != null ==>
      var j := FirstChild(par, v);
      0 <= j < |nodes| && nodes[v].child == nodes[j] &&
        Preorder(par, v) + After(par, v) == [v] + (Preorder(par, j) + After(par, j))
    ensures nodes[v].child == null ==> Preorder(par, v) + After(par, v) == [v] + After(par, v)
  {
    DownStep(par, v);
  }

  /** The links on the way up from node w, and what the walk still has to visit. */
  lemma WayUp(nodes: seq<FiberNode>, par: seq<nat>, w: nat)
    requires Linked(nodes, par) && w < |nodes|
    ensures nodes[w].sibling != null ==>
      var j := NextSibling(par, w);
      0 <= j < |nodes| && nodes[w].sibling == nodes[j] && After(par, w) == Preorder(par, j) + After(par, j)
    ensures nodes[w].sibling == null && w > 0 ==>
      par[w] < w && nodes[w].return_ == nodes[par[w]] && After(par, w) == After(par, par[w])
    ensures w == 0 ==> nodes[w].sibling == null && nodes[w].return_ == null && After(par, w) == []
  {
    if w > 0 { UpStep(par, w); }
  }

  /** The traversal step: down to the first child, or else up to the first ancestor with a next sibling. */
  method Successor(ghost nodes: seq<FiberNode>, root: FiberNode, from: FiberNode, ghost v: nat, ghost par: seq<nat>)
    returns (node: FiberNode?, ghost w: nat)
    requires Linked(nodes, par) && v < |nodes| && from == nodes[v] && root == nodes[0]
    ensures GoesOn(nodes, par, v, node, w)
  {
    WayDown(nodes, par, v);
    node, w := from, v;
    if node.child != null {
      node := node.child;
      w := FirstChild(par, v);
    } else {
      while node != null
        invariant node != null ==> w < |nodes| && node == nodes[w] && After(par, v) == After(par, w)
        invariant node == null ==> After(par, v) == []
        decreases if node == null then 0 else w + 1
      {
        WayUp(nodes, par, w);
        if node.sibling != null {
          node := node.sibling;
          w := NextSibling(par, w);
          break;
        }
        node := node.return_;
        w := if w > 0 then par[w] else w;
        if node != null && node == root {
          node := null;
        }
      }
    }
  }

  /** The same step as the source compiled to WebAssembly writes it, with flags instead of break. */
  method SuccessorWithFlags(ghost nodes: seq<FiberNode>, root: FiberNode, from: FiberNode, ghost v: nat,
      ghost par: seq<nat>)
    returns (node: FiberNode?, done: bool, ghost w: nat)
    requires Linked(nodes, par) && v < |nodes| && from == nodes[v] && root == nodes[0]
    ensures GoesOn(nodes, par, v, node, w) && (done ==> node == null)
  {
    WayDown(nodes, par, v);
    node, done, w := from, false, v;
    if node.child != null {
      node := node.child;
      w := FirstChild(par, v);
    } else {
      var climbing := true;
      while climbing && node != null
        invariant node != null ==> w < |nodes| && node == nodes[w]
        invariant node != null && climbing ==> After(par, v) == After(par, w)
        invariant node != null && !climbing ==> After(par, v) == Preorder(par, w) + After(par, w)
        invariant node == null ==> After(par, v) == []
        invariant done ==> node == null
        decreases climbing, if node == null then 0 else w + 1
      {
        WayUp(nodes, par, w);
        if node.sibling != null {
          node := node.sibling;
          w := NextSibling(par, w);
          climbing := false;
        } else {
          node := node.return_;
          w := if w > 0 then par[w] else w;
          if node == root {
            node, done, climbing := null, true, false;
          }
        }
      }
    }
  }

  /** The memoized properties once the nodes in done have been committed. */
  ghost function Mixed(pend: seq<int>, memo: seq<int>, done: set<nat>): (r: seq<int>)
    requires |pend| == |memo|
    ensures |r| == |pend| && forall i: nat :: i < |r| ==> r[i] == if i in done then pend[i] else memo[i]
  {
    seq(|pend|, i requires 0 <= i < |pend| => if i in done then pend[i] else memo[i])
  }

  ghost function Elements(s: seq<nat>): set<nat> { set v | v in s }

  /** Where the walk stands: at node v, with visited being what comes before it in preorder, or at the end. */
  ghost predicate OnWalk(nodes: seq<FiberNode>, par: seq<nat>, visited: seq<nat>, node: FiberNode?, v: nat)
    requires IsTree(par) && |par| == |nodes|
  {
    if node == null then visited == Preorder(par, 0)
    else v < |nodes| && node == nodes[v] && visited + (Preorder(par, v) + After(par, v)) == Preorder(par, 0)
  }

  /** The node the walk stands at has not been visited before. */
  lemma NotYetVisited(nodes: seq<FiberNode>, par: seq<nat>, visited: seq<nat>, node: FiberNode, v: nat)
    requires IsTree(par) && |par| == |nodes| && OnWalk(nodes, par, visited, node, v)
    ensures v !in visited && |visited| < |Preorder(par, 0)|
  {
    var s := Preorder(par, 0);
    assert (visited + (Preorder(par, v) + After(par, v)))[|visited|] == v;
    PreorderIsAPermutation(par);
    forall j | 0 <= j < |visited| ensures visited[j] != v {
      assert s[j] == visited[j];
    }
  }

  lemma WalkGoesOn(nodes: seq<FiberNode>, par: seq<nat>, visited: seq<nat>, node: FiberNode, v: nat, next: FiberNode?,
      w: nat)
    requires IsTree(par) && |par| == |nodes| && OnWalk(nodes, par, visited, node, v) && GoesOn(nodes, par, v, next, w)
    ensures OnWalk(nodes, par, visited + [v], next, w)
  {
    if next != null {
      Associative(visited, [v], Preorder(par, w) + After(par, w));
    }
  }

  /** One more differing node was found exactly when node v differs. */
  lemma DifferCount(pend: seq<int>, memo: seq<int>, visited: seq<nat>, v: nat)
    requires |pend| == |memo| && v < |pend| && v !in visited
    ensures |Differ(pend, memo) * Elements(visited + [v])|
         == |Differ(pend, memo) * Elements(visited)| + if pend[v] != memo[v] then 1 else 0
  {
    var before, after := Differ(pend, memo) * Elements(visited), Differ(pend, memo) * Elements(visited + [v]);
    assert after == if pend[v] != memo[v] then before + {v} else before;
  }

  lemma AllVisited(par: seq<nat>, pend: seq<int>, memo: seq<int>)
    requires IsTree(par) && |pend| == |memo| == |par|
    ensures Mixed(pend, memo, Elements(Preorder(par, 0))) == pend
    ensures Differ(pend, memo) * Elements(Preorder(par, 0)) == Differ(pend, memo)
  {
    PreorderIsAPermutation(par);
  }

  lemma MixedStep(pend: seq<int>, memo: seq<int>, visited: seq<nat>, v: nat)
    requires |pend| == |memo| && v < |pend| && v !in visited
    ensures var before := Mixed(pend, memo, Elements(visited));
      before[v] == memo[v] && Mixed(pend, memo, Elements(visited + [v])) == before[v := pend[v]]
  {
  }

  /** Reconcile node v, which the walk has reached for the first time. */
  method VisitNode(ghost nodes: seq<FiberNode>, node: FiberNode, ghost v: nat, ghost par: seq<nat>,
                   ghost pend: seq<int>, ghost memo: seq<int>, ghost visited: seq<nat>)
    returns (changed: bool)
    requires Linked(nodes, par) && |memo| == |pend| && Values(nodes, pend, Mixed(pend, memo, Elements(visited)))
    requires v < |nodes| && node == nodes[v] && v !in visited
    modifies node`memoizedProps, node`memoizedState, node`flags
    ensures Linked(nodes, par) && Values(nodes, pend, Mixed(pend, memo, Elements(visited + [v])))
    ensures changed == (pend[v] != memo[v])
  {
    MixedStep(pend, memo, visited, v);
    changed := ReconcileNode(node);
  }

  lemma WalkStarts(nodes: seq<FiberNode>, par: seq<nat>, pend: seq<int>, memo: seq<int>)
    requires IsTree(par) && |par| == |nodes| == |pend| == |memo|
    ensures OnWalk(nodes, par, [], nodes[0], 0)
    ensures Mixed(pend, memo, Elements([])) == memo && Differ(pend, memo) * Elements([]) == {}
  {
    EmptyLeft([], Preorder(par, 0));
    assert Preorder(par, 0) + After(par, 0) == Preorder(par, 0);
  }

  /** How many of the visited nodes differed. */
  ghost function Found(pend: seq<int>, memo: seq<int>, visited: seq<nat>): nat
    requires |pend| == |memo|
  {
    |Differ(pend, memo) * Elements(visited)|
  }

  /** One turn of the walk: visit the node, then find the next one. */
  method VisitAndGoOn(ghost nodes: seq<FiberNode>, root: FiberNode, node: FiberNode, ghost v: nat, ghost par: seq<nat>,
               ghost pend: seq<int>, ghost memo: seq<int>, ghost visited: seq<nat>)
    returns (changed: bool, next: FiberNode?, ghost w: nat, ghost visited': seq<nat>)
    requires Linked(nodes, par) && root == nodes[0] && OnWalk(nodes, par, visited, node, v)
    requires |memo| == |pend| && Values(nodes, pend, Mixed(pend, memo, Elements(visited)))
    modifies nodes`memoizedProps, nodes`memoizedState, nodes`flags
    ensures Linked(nodes, par) && OnWalk(nodes, par, visited', next, w)
    ensures |visited'| == |visited| + 1 <= |Preorder(par, 0)|
    ensures Values(nodes, pend, Mixed(pend, memo, Elements(visited')))
    ensures Found(pend, memo, visited') == Found(pend, memo, visited) + if changed then 1 else 0
  {
    NotYetVisited(nodes, par, visited, node, v);
    DifferCount(pend, memo, visited, v);
    changed := VisitNode(nodes, node, v, par, pend, memo, visited);
    next, w := Successor(nodes, root, node, v, par);
    WalkGoesOn(nodes, par, visited, node, v, next, w);
    visited' := visited + [v];
  }

  /** The same turn with flags. */
  method VisitAndGoOnWithFlags(ghost nodes: seq<FiberNode>, root: FiberNode, node: FiberNode, ghost v: nat,
      ghost par: seq<nat>, ghost pend: seq<int>, ghost memo: seq<int>, ghost visited: seq<nat>)
    returns (changed: bool, next: FiberNode?, done: bool, ghost w: nat, ghost visited': seq<nat>)
    requires Linked(nodes, par) && root == nodes[0] && OnWalk(nodes, par, visited, node, v)
    requires |memo| == |pend| && Values(nodes, pend, Mixed(pend, memo, Elements(visited)))
    modifies nodes`memoizedProps, nodes`memoizedState, nodes`flags
    ensures Linked(nodes, par) && OnWalk(nodes, par, visited', next, w) && (done ==> next == null)
    ensures |visited'| == |visited| + 1 <= |Preorder(par, 0)|
    ensures Values(nodes, pend, Mixed(pend, memo, Elements(visited')))
    ensures Found(pend, memo, visited') == Found(pend, memo, visited) + if changed then 1 else 0
  {
    NotYetVisited(nodes, par, visited, node, v);
    DifferCount(pend, memo, visited, v);
    changed := VisitNode(nodes, node, v, par, pend, memo, visited);
    next, done, w := SuccessorWithFlags(nodes, root, node, v, par);
    WalkGoesOn(nodes, par, visited, node, v, next, w);
    visited' := visited + [v];
  }

  /** The walk over the whole tree: it ends, visits the nodes in preorder, each exactly once, changes no link,
      commits every node, and returns the number of nodes that differed. */
  method Reconcile(root: FiberNode, ghost nodes: seq<FiberNode>, ghost par: seq<nat>, ghost pend: seq<int>,
      ghost memo: seq<int>)
    returns (updated: nat, ghost visited: seq<nat>)
    requires Linked(nodes, par) && root == nodes[0] && Values(nodes, pend, memo)
    modifies nodes`memoizedProps, nodes`memoizedState, nodes`flags
    ensures Values(nodes, pend, pend)
    ensures visited == Preorder(par, 0)
    ensures updated == |Differ(pend, memo)|
  {
    updated, visited := 0, [];
    var node: FiberNode? := root;
    ghost var v := 0;
    WalkStarts(nodes, par, pend, memo);
    while node != null
      invariant Linked(nodes, par) && OnWalk(nodes, par, visited, node, v)
      invariant Values(nodes, pend, Mixed(pend, memo, Elements(visited)))
      invariant updated == Found(pend, memo, visited)
      decreases |Preorder(par, 0)| - |visited|
    {
      var changed;
      changed, node, v, visited := VisitAndGoOn(nodes, root, node, v, par, pend, memo, visited);
      if changed {
        updated := updated + 1;
      }
    }
    AllVisited(par, pend, memo);
  }

  /** The same walk as the source compiled to WebAssembly writes it. */
  method ReconcileWithFlags(root: FiberNode?, ghost nodes: seq<FiberNode>, ghost par: seq<nat>, ghost pend: seq<int>,
      ghost memo: seq<int>)
    returns (updated: nat, ghost visited: seq<nat>)
    requires Linked(nodes, par) && root == nodes[0] && Values(nodes, pend, memo)
    modifies nodes`memoizedProps, nodes`memoizedState, nodes`flags
    ensures Values(nodes, pend, pend)
    ensures visited == Preorder(par, 0)
    ensures updated == |Differ(pend, memo)|
  {
    updated, visited := 0, [];
    var node: FiberNode? := root;
    var done := false;
    ghost var v := 0;
    WalkStarts(nodes, par, pend, memo);
    while node != null && !done
      invariant Linked(nodes, par) && OnWalk(nodes, par, visited, node, v) && (done ==> node == null)
      invariant Values(nodes, pend, Mixed(pend, memo, Elements(visited)))
      invariant updated == Found(pend, memo, visited)
      decreases |Preorder(par, 0)| - |visited|
    {
      var changed;
      changed, node, done, v, visited := VisitAndGoOnWithFlags(nodes, root, node, v, par, pend, memo, visited);
      if changed {
        updated := updated + 1;
      }
    }
    AllVisited(par, pend, memo);
  }

  method Checksum(nodes: seq<FiberNode>, ghost pend: seq<int>, ghost memo: seq<int>) returns (sum: int)
    requires Values(nodes, pend, memo)
    ensures sum == Sum(memo)
  {
    sum := 0;
    for i := 0 to |nodes|
      invariant sum == Sum(memo[..i])
    {
      assert memo[..i + 1][..i] == memo[..i];
      sum := sum + nodes[i].memoizedState;
    }
    assert memo[..|memo|] == memo;
  }

  // ---------------------------------------------------------------- whole runs

  /** The pending properties of all nodes, the generator, and the number of changes committed so far. */
  datatype Progress = Progress(props: seq<int>, rng: Rng, total: nat)

  /** One iteration with count updates. */
  ghost function RoundStep(s: Progress, count: nat): (r: Progress)
    requires s.props != []
    ensures |r.props| == |s.props|
  {
    var (props, rng) := Updates(s.props, count, s.rng);
    Progress(props, rng, s.total + |Differ(props, s.props)|)
  }

  ghost function Rounds(s: Progress, k: nat, count: nat): (r: Progress)
    requires s.props != []
    ensures |r.props| == |s.props|
  {
    if k == 0 then s else RoundStep(Rounds(s, k - 1, count), count)
  }

  /** A newly built tree of n nodes. */
  ghost function Start(n: nat, seed: Rng): (s: Progress)
    ensures s.props != []
  {
    Progress(Props(Draws(seed, Size(n))), seed, 0)
  }

  /** What a run returns that makes count updates in each iteration. */
  ghost function Result(s: Progress, iterations: nat, count: nat): int
    requires s.props != []
  {
    Sum(Rounds(s, iterations, count).props) + Rounds(s, iterations, count).total
  }

  /** One iteration: the random updates, then the walk. */
  method Round(nodes: seq<FiberNode>, updateCount: real, rng0: Rng, ghost par: seq<nat>, ghost now: Progress,
      ghost count: nat)
    returns (rng: Rng, updated: nat)
    requires Linked(nodes, par) && Values(nodes, now.props, now.props) && rng0 == now.rng && count == Ceil(updateCount)
    modifies nodes`pendingProps, nodes`memoizedProps, nodes`memoizedState, nodes`flags
    ensures var next := RoundStep(now, count);
      Linked(nodes, par) && Values(nodes, next.props, next.props) && rng == next.rng &&
        now.total + updated == next.total
  {
    rng := ApplyUpdates(nodes, updateCount, rng0, now.props, now.props);
    ghost var visited;
    updated, visited := Reconcile(nodes[0], nodes, par, Updates(now.props, count, rng0).0, now.props);
  }

  /** One iteration of the compiled program. */
  method RoundWithFlags(nodes: seq<FiberNode>, updateCount: real, rng0: Rng, ghost par: seq<nat>, ghost now: Progress,
      ghost count: nat)
    returns (rng: Rng, updated: nat)
    requires Linked(nodes, par) && Values(nodes, now.props, now.props) && rng0 == now.rng && count == Ceil(updateCount)
    modifies nodes`pendingProps, nodes`memoizedProps, nodes`memoizedState, nodes`flags
    ensures var next := RoundStep(now, count);
      Linked(nodes, par) && Values(nodes, next.props, next.props) && rng == next.rng &&
        now.total + updated == next.total
  {
    rng := ApplyUpdates(nodes, updateCount, rng0, now.props, now.props);
    ghost var visited;
    updated, visited := ReconcileWithFlags(nodes[0], nodes, par, Updates(now.props, count, rng0).0, now.props);
  }

  /** The iterations of a run. */
  method RunRounds(nodes: seq<FiberNode>, iterations: nat, updateCount: real, seed: Rng, ghost par: seq<nat>,
      ghost props: seq<int>)
    returns (totalUpdated: nat, ghost now: Progress)
    requires Linked(nodes, par) && Values(nodes, props, props)
    modifies nodes`pendingProps, nodes`memoizedProps, nodes`memoizedState, nodes`flags
    ensures now == Rounds(Progress(props, seed, 0), iterations, Ceil(updateCount))
    ensures Values(nodes, now.props, now.props) && totalUpdated == now.total
  {
    var rng := seed;
    ghost var first, count := Progress(props, seed, 0), Ceil(updateCount);
    totalUpdated, now := 0, first;
    for iter := 0 to iterations
      invariant Linked(nodes, par) && Values(nodes, now.props, now.props)
      invariant now == Rounds(first, iter, count) && rng == now.rng && totalUpdated == now.total
    {
      var updated;
      rng, updated := Round(nodes, updateCount, rng, par, now, count);
      totalUpdated := totalUpdated + updated;
      now := RoundStep(now, count);
    }
  }

  /** The iterations of the compiled program. */
  method RunCompiledRounds(nodes: seq<FiberNode>, iterations: nat, updateCount: real, seed: Rng, ghost par: seq<nat>,
      ghost props: seq<int>)
    returns (totalUpdated: nat, ghost now: Progress)
    requires Linked(nodes, par) && Values(nodes, props, props)
    modifies nodes`pendingProps, nodes`memoizedProps, nodes`memoizedState, nodes`flags
    ensures now == Rounds(Progress(props, seed, 0), iterations, Ceil(updateCount))
    ensures Values(nodes, now.props, now.props) && totalUpdated == now.total
  {
    var rng := seed;
    ghost var first, count := Progress(props, seed, 0), Ceil(updateCount);
    totalUpdated, now := 0, first;
    var iter := 0;
    while iter < iterations
      invariant 0 <= iter <= iterations
      invariant Linked(nodes, par) && Values(nodes, now.props, now.props)
      invariant now == Rounds(first, iter, count) && rng == now.rng && totalUpdated == now.total
    {
      var updated;
      rng, updated := RoundWithFlags(nodes, updateCount, rng, par, now, count);
      totalUpdated := totalUpdated + updated;
      now := RoundStep(now, count);
      iter := iter + 1;
    }
  }

  /** Draws that are not negative give indexes. */
  lemma {:induction false} NaturalDrawsAreIndexable(seed: Rng, n: nat)
    requires n > 0
    ensures Indexable(Draws(seed, n)) && Draws(seed, n)[n - 1] == Drawn(seed, n - 1)
  {
    if n > 1 {
      NaturalDrawsAreIndexable(seed, n - 1);
      DrawsStayNatural(seed, n - 1);
      NextDraw(seed, n - 1, Drawn(seed, n - 2), Drawn(seed, n - 1));
    }
  }

  lemma CeilOfNat(count: nat)
    ensures Ceil(count as real) == count
  {}

  /** Building, the rounds and the checksum. */
  method RunCounted(n: nat, iterations: nat, updateCount: real, ghost count: nat, seed: Rng) returns (result: int)
    requires count == Ceil(updateCount)
    ensures result == Result(Start(n, seed), iterations, count)
  {
    var ok, nodes := BuildTree(n, seed);
    NaturalDrawsAreIndexable(seed, Size(n));
    ghost var draws := Draws(seed, Size(n));
    var totalUpdated; ghost var now;
    totalUpdated, now := RunRounds(nodes, iterations, updateCount, seed, Parents(draws), Props(draws));
    var cs := Checksum(nodes, now.props, now.props);
    result := cs + totalUpdated;
  }

  method RunCompiledCounted(n: nat, iterations: nat, updateCount: real, ghost count: nat, seed: Rng)
    returns (result: int)
    requires count == Ceil(updateCount)
    ensures result == Result(Start(n, seed), iterations, count)
  {
    var ok, nodes := BuildTree(n, seed);
    NaturalDrawsAreIndexable(seed, Size(n));
    ghost var draws := Draws(seed, Size(n));
    var totalUpdated; ghost var now;
    totalUpdated, now := RunCompiledRounds(nodes, iterations, updateCount, seed, Parents(draws), Props(draws));
    var cs := Checksum(nodes, now.props, now.props);
    result := cs + totalUpdated;
  }

  method RunBenchmark(nodeCount: nat, iterations: nat, updatePercent: nat, seed: Rng) returns (result: int)
    ensures result == Result(Start(nodeCount, seed), iterations, nodeCount * updatePercent / 100)
  {
    var updateCount := (nodeCount * updatePercent) / 100;
    CeilOfNat(updateCount);
    result := RunCounted(nodeCount, iterations, updateCount as real, updateCount, seed);
  }

  /** The same program as it is compiled to WebAssembly. The number of updates is not rounded. */
  method RunCompiledBenchmark(n: nat, iterations: nat, updatePercent: nat, seed: Rng) returns (result: int)
    ensures result == Result(Start(n, seed), iterations, Ceil((n * updatePercent) as real / 100.0))
  {
    var updateCount := (n * updatePercent) as real / 100.0;
    result := RunCompiledCounted(n, iterations, updateCount, Ceil(updateCount), seed);
  }

  /** A round commits at most as many changes as it made updates. */
  lemma {:induction false} UpdatesBoundChanges(props: seq<int>, count: nat, rng: Rng)
    requires props != []
    ensures |Differ(Updates(props, count, rng).0, props)| <= count
  {
    if count == 0 {
      assert Differ(props, props) == {};
    } else {
      UpdatesBoundChanges(props, count - 1, rng);
      var (p, r) := Updates(props, count - 1, rng);
      var idx := Draw(r) % |p|;
      var before, after := Differ(p, props), Differ(UpdateOne(p, r).0, props);
      assert after <= before + {idx};
      SubsetSize(after, before + {idx});
    }
  }

  lemma {:induction false} SubsetSize(a: set<nat>, b: set<nat>)
    requires a <= b
    ensures |a| <= |b|
    decreases |a|
  {
    if a != {} {
      var x :| x in a;
      SubsetSize(a - {x}, b - {x});
    }
  }

  /** A whole run: the total is bounded by the number of updates made. */
  lemma {:induction false} RoundsBoundChanges(s: Progress, k: nat, count: nat)
    requires s.props != []
    ensures Rounds(s, k, count).total <= s.total + k * count
  {
    if k > 0 {
      RoundsBoundChanges(s, k - 1, count);
      var before := Rounds(s, k - 1, count);
      UpdatesBoundChanges(before.props, count, before.rng);
      assert (k - 1) * count + count == k * count;
    }
  }

  lemma {:induction false} UpdatesCompose(props: seq<int>, a: nat, b: nat, rng: Rng)
    requires props != []
    ensures Updates(Updates(props, a, rng).0, b, Updates(props, a, rng).1) == Updates(props, a + b, rng)
    decreases b
  {
    if b > 0 { UpdatesCompose(props, a, b - 1, rng); }
  }

  lemma RoundsUnfold(s: Progress, k: nat, count: nat)
    requires s.props != []
    ensures Rounds(s, k, count) == if k == 0 then s else RoundStep(Rounds(s, k - 1, count), count)
  {
  }

  lemma OneMoreRound(k: nat, count: nat)
    requires k > 0
    ensures (k - 1) * count + count == k * count
  {
  }

  /** The updates of all rounds are one sequence of updates. */
  lemma {:induction false} RoundsMerge(s: Progress, k: nat, count: nat, all: nat)
    requires s.props != [] && all == k * count
    ensures var r := Rounds(s, k, count); (r.props, r.rng) == Updates(s.props, all, s.rng)
  {
    RoundsUnfold(s, k, count);
    if k > 0 {
      var done, before := (k - 1) * count, Rounds(s, k - 1, count);
      OneMoreRound(k, count);
      RoundsMerge(s, k - 1, count, done);
      MergeRound(s, before, done, all, count);
    }
  }

  lemma MergeRound(s: Progress, before: Progress, done: nat, all: nat, count: nat)
    requires s.props != [] && (before.props, before.rng) == Updates(s.props, done, s.rng) && all == done + count
    ensures before.props != [] && var r := RoundStep(before, count); (r.props, r.rng) == Updates(s.props, all, s.rng)
  {
    UpdatesCompose(s.props, done, count, s.rng);
  }

  /** The changes that a run adds up: in each round those nodes whose value is not that of the round before. */
  lemma RoundAddsItsChanges(s: Progress, k: nat, count: nat)
    requires s.props != []
    ensures Rounds(s, 0, count).total == s.total
    ensures var before, after := Rounds(s, k, count), Rounds(s, k + 1, count);
      |after.props| == |before.props| &&
        after.total == before.total + |set i: nat | i < |before.props| && after.props[i] != before.props[i]|
  {
    RoundsUnfold(s, k + 1, count);
    RoundsUnfold(s, 0, count);
  }

  /** The values of which a run returns the sum: the last of all the updates that picked the node gives its value, and
      without one the node keeps that of its own draw. */
  lemma FinalValues(n: nat, seed: Rng, iterations: nat, count: nat, i: nat)
    requires i < Size(n)
    ensures var end := Rounds(Start(n, seed), iterations, count).props;
      && |end| == Size(n)
      && (forall k: nat :: LastPick(seed, Size(n), iterations * count, i, k) ==>
            end[i] == Drawn(seed, 2 * k + 2) % 1000)
      && (NeverPicked(seed, Size(n), iterations * count, i) ==> end[i] == Rem(Drawn(seed, i), 1000))
  {
    RoundsMerge(Start(n, seed), iterations, count, iterations * count);
    LastUpdateWins(Start(n, seed).props, iterations * count, seed);
    DrawsAreDrawn(seed, Size(n), i);
  }

  /** The two programs make the same number of updates exactly when 100 divides nodes times percentage. */
  lemma SameCountIff(m: nat)
    ensures Ceil(m as real / 100.0) == m / 100 <==> m % 100 == 0
  {
    var x := m as real / 100.0;
    assert x * 100.0 == m as real;
    assert m == (m / 100) * 100 + m % 100;
  }

  /** Both programs on one input: when 100 divides nodes times percentage they return the same value. */
  method ProgramsAgree(n: nat, iterations: nat, updatePercent: nat, seed: Rng) returns (result: int, compiled: int)
    ensures result == Result(Start(n, seed), iterations, n * updatePercent / 100)
    ensures compiled == Result(Start(n, seed), iterations, Ceil((n * updatePercent) as real / 100.0))
    ensures n * updatePercent % 100 == 0 ==> result == compiled
  {
    result := RunBenchmark(n, iterations, updatePercent, seed);
    compiled := RunCompiledBenchmark(n, iterations, updatePercent, seed);
    SameCountIff(n * updatePercent);
  }

  /** One node with value 0, one round, no update. */
  lemma RoundWithoutUpdate(s: Progress)
    requires s == Progress([0], 0, 0)
    ensures Rounds(s, 1, 0) == s
  {
    assert Differ([0], [0]) == {};
    assert Rounds(s, 0, 0) == s;
    assert RoundStep(s, 0) == s;
  }

  /** The same node, one round, one update. */
  lemma RoundWithUpdate(s: Progress)
    requires s == Progress([0], 0, 0)
    ensures Rounds(s, 1, 1) == Progress([880], 28880, 1)
  {
    assert UpdateOne([0], 0) == ([880], 28880) by {
      assert Draw(0) == 12345 && Draw(12345) == 28880 && [0][0 := 880] == [880];
    }
    assert Updates([0], 1, 0) == UpdateOne(Updates([0], 0, 0).0, Updates([0], 0, 0).1);
    assert Differ([880], [0]) == {0};
    assert Rounds(s, 0, 1) == s;
    assert RoundStep(s, 1) == Progress([880], 28880, 1);
  }

  lemma SumOfOne(x: int)
    ensures Sum([x]) == x
  {
    assert [x][..0] == [];
  }

  lemma OneNodeResults(s: Progress)
    requires s == Progress([0], 0, 0)
    ensures Result(s, 1, 0) == 0 && Result(s, 1, 1) == 881
  {
    RoundWithoutUpdate(s);
    RoundWithUpdate(s);
    SumOfOne(0);
    SumOfOne(880);
  }

  lemma OneNode(n: nat, seed: Rng)
    requires n == 1 && seed == 0
    ensures Start(n, seed) == Progress([0], 0, 0)
  {
    assert Props(Draws(seed, Size(n))) == [0];
  }

  lemma OneTenth(m: nat, x: real)
    requires m == 10 && x == m as real / 100.0
    ensures m / 100 == 0 && Ceil(x) == 1
  {
  }

  /** They can differ otherwise: one node, 10 percent, one iteration, seed 0. */
  lemma ProgramsCanDiffer(n: nat, updatePercent: nat, seed: Rng)
    requires n == 1 && updatePercent == 10 && seed == 0
    ensures Result(Start(n, seed), 1, n * updatePercent / 100) == 0
    ensures Result(Start(n, seed), 1, Ceil((n * updatePercent) as real / 100.0)) == 881
  {
    OneNode(n, seed);
    OneTenth(n * updatePercent, (n * updatePercent) as real / 100.0);
    OneNodeResults(Start(n, seed));
  }
}
