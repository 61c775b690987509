/** Trees given by parent indices: node 0 is the root, and each later node names an earlier one as its
    parent. The children of a node are ordered by index, which is the order in which they were appended. */
module FiberTree {
  import opened Sequences

  ghost predicate IsTree(par: seq<nat>) {
    par != [] && forall i :: 0 < i < |par| ==> par[i] < i
  }

  /** The first child of q at or after index i, or |par| when there is none. */
  ghost function Next(par: seq<nat>, q: nat, i: nat): (j: nat)
    requires i <= |par|
    ensures i <= j <= |par|
    ensures j < |par| ==> par[j] == q
    ensures forall k :: i <= k < j ==> par[k] != q
    decreases |par| - i
  {
    if i == |par| || par[i] == q then i else Next(par, q, i + 1)
  }

  /** The first child of v, or -1. */
  ghost function FirstChild(par: seq<nat>, v: nat): (j: int)
    requires v < |par|
    ensures j == -1 || v < j < |par|
  {
    if Next(par, v, v + 1) == |par| then -1 else Next(par, v, v + 1)
  }

  /** The next node with the same parent as v, or -1; the root has none. */
  ghost function NextSibling(par: seq<nat>, v: nat): (j: int)
    requires v < |par|
    ensures j == -1 || v < j < |par|
  {
    if v == 0 || Next(par, par[v], v + 1) == |par| then -1 else Next(par, par[v], v + 1)
  }

  ghost function FirstChildren(par: seq<nat>): (r: seq<int>)
    ensures |r| == |par| && forall v :: 0 <= v < |par| ==> r[v] == FirstChild(par, v)
  {
    seq(|par|, v requires 0 <= v < |par| => FirstChild(par, v))
  }

  ghost function NextSiblings(par: seq<nat>): (r: seq<int>)
    ensures |r| == |par| && forall v :: 0 <= v < |par| ==> r[v] == NextSibling(par, v)
  {
    seq(|par|, v requires 0 <= v < |par| => NextSibling(par, v))
  }

  /** The subtree of v in preorder. */
  ghost function Preorder(par: seq<nat>, v: nat): seq<nat>
    requires IsTree(par) && v < |par|
    decreases |par| - v, 0
  {
    [v] + Below(par, v, v + 1)
  }

  /** The subtrees of the children of q at or after index i, one after the other. */
  ghost function Below(par: seq<nat>, q: nat, i: nat): seq<nat>
    requires IsTree(par) && q < i <= |par|
    decreases |par| - i, 1
  {
    if i == |par| then []
    else if par[i] == q then Preorder(par, i) + Below(par, q, i + 1)
    else Below(par, q, i + 1)
  }

  /** What a preorder walk still has to visit once the subtree of v is done. */
  ghost function After(par: seq<nat>, v: nat): seq<nat>
    requires IsTree(par) && v < |par|
    decreases v
  {
    if v == 0 then [] else Below(par, par[v], v + 1) + After(par, par[v])
  }

  /** Skipping the indices that are not children of q. */
  lemma {:induction false} BelowFromNext(par: seq<nat>, q: nat, i: nat)
    requires IsTree(par) && q < i <= |par|
    ensures var j := Next(par, q, i);
      Below(par, q, i) == if j == |par| then [] else Preorder(par, j) + Below(par, q, j + 1)
    decreases |par| - i
  {
    if i < |par| && par[i] != q {
      BelowFromNext(par, q, i + 1);
    }
  }

  lemma PreorderUnfolds(par: seq<nat>, v: nat)
    requires IsTree(par) && v < |par|
    ensures Preorder(par, v) == [v] + Below(par, v, v + 1)
  {
  }

  lemma ChildStep(par: seq<nat>, v: nat, j: nat)
    requires IsTree(par) && v < j < |par| && par[j] == v && j == Next(par, v, v + 1)
    ensures Below(par, v, v + 1) + After(par, v) == Preorder(par, j) + After(par, j)
  {
    BelowFromNext(par, v, v + 1);
    AfterUnfolds(par, j);
    Associative(Preorder(par, j), Below(par, v, j + 1), After(par, v));
  }

  lemma LeafStep(par: seq<nat>, v: nat)
    requires IsTree(par) && v < |par| && Next(par, v, v + 1) == |par|
    ensures Below(par, v, v + 1) + After(par, v) == After(par, v)
  {
    BelowFromNext(par, v, v + 1);
    EmptyLeft(Below(par, v, v + 1), After(par, v));
  }

  /** Going down: after v come its first child's subtree and what follows that, if v has a child, and
      otherwise what follows the subtree of v. */
  lemma DownStep(par: seq<nat>, v: nat)
    requires IsTree(par) && v < |par|
    ensures var j := FirstChild(par, v);
      Preorder(par, v) + After(par, v) == [v] + if j != -1 then Preorder(par, j) + After(par, j) else After(par, v)
  {
    PreorderUnfolds(par, v);
    Associative([v], Below(par, v, v + 1), After(par, v));
    if FirstChild(par, v) != -1 { ChildStep(par, v, FirstChild(par, v)); } else { LeafStep(par, v); }
  }

  /** Going sideways or up: what follows the subtree of v starts with its next sibling, if it has one, and
      otherwise is what follows the subtree of its parent. */
  lemma UpStep(par: seq<nat>, v: nat)
    requires IsTree(par) && 0 < v < |par|
    ensures var j := NextSibling(par, v);
      After(par, v) == if j != -1 then Preorder(par, j) + After(par, j) else After(par, par[v])
  {
    var q, j := par[v], NextSibling(par, v);
    if j != -1 {
      SiblingStep(par, v, j);
    } else {
      BelowFromNext(par, q, v + 1);
      AfterUnfolds(par, v);
      EmptyLeft(Below(par, q, v + 1), After(par, q));
    }
  }

  lemma SiblingStep(par: seq<nat>, v: nat, j: nat)
    requires IsTree(par) && 0 < v < j < |par| && par[j] == par[v] && j == Next(par, par[v], v + 1)
    ensures After(par, v) == Preorder(par, j) + After(par, j)
  {
    BelowFromNext(par, par[v], v + 1);
    AfterUnfolds(par, v);
    AfterUnfolds(par, j);
    Associative(Preorder(par, j), Below(par, par[v], j + 1), After(par, par[v]));
  }

  lemma EmptyLeft(a: seq<nat>, b: seq<nat>)
    requires a == []
    ensures a + b == b
  {
  }

  lemma AfterUnfolds(par: seq<nat>, v: nat)
    requires IsTree(par) && 0 < v < |par|
    ensures After(par, v) == Below(par, par[v], v + 1) + After(par, par[v])
  {
  }

  // ---------------------------------------------------------------- every node once

  /** How often x occurs in s. */
  ghost function Count(s: seq<nat>, x: nat): nat { multiset(s)[x] }

  /** A new last child of p adds itself once for every occurrence of p, and changes nothing else. */
  lemma {:induction false} PreorderGrows(par: seq<nat>, p: nat, v: nat, x: nat)
    requires IsTree(par) && p < |par| && v < |par|
    ensures IsTree(par + [p])
    ensures Count(Preorder(par + [p], v), x) ==
      Count(Preorder(par, v), x) + if x == |par| then Count(Preorder(par, v), p) else 0
    decreases |par| - v, 0
  {
    BelowGrows(par, p, v, v + 1, x);
    if x != p && x == |par| { BelowGrows(par, p, v, v + 1, p); }
  }

  lemma BelowOfNew(par: seq<nat>, p: nat, q: nat)
    requires IsTree(par) && p < |par| && q < |par| && IsTree(par + [p])
    ensures Below(par + [p], q, |par|) == if q == p then [|par|] else []
  {
    var i := |par|;
    assert Below(par + [p], q, i + 1) == [];
    assert Below(par + [p], i, i + 1) == [];
    assert Preorder(par + [p], i) == [i];
  }

  lemma {:induction false} BelowGrows(par: seq<nat>, p: nat, q: nat, i: nat, x: nat)
    requires IsTree(par) && p < |par| && q < i <= |par|
    ensures IsTree(par + [p])
    ensures Count(Below(par + [p], q, i), x) ==
      Count(Below(par, q, i), x) + if x == |par| then Count(Below(par, q, i), p) + (if q == p then 1 else 0) else 0
    decreases |par| - i, 1
  {
    if i == |par| {
      BelowOfNew(par, p, q);
    } else {
      BelowGrows(par, p, q, i + 1, x);
      if par[i] == q { PreorderGrows(par, p, i, x); }
    }
  }

  /** The preorder of the whole tree holds each node exactly once, and nothing else. */
  lemma {:induction false} EveryNodeOnce(par: seq<nat>, x: nat)
    requires IsTree(par)
    ensures Count(Preorder(par, 0), x) == if x < |par| then 1 else 0
    decreases |par|
  {
    var n := |par| - 1;
    if n == 0 {
      assert Below(par, 0, 1) == [];
    } else {
      assert par == par[..n] + [par[n]];
      PreorderGrows(par[..n], par[n], 0, x);
      EveryNodeOnce(par[..n], x);
      EveryNodeOnce(par[..n], par[n]);
    }
  }

  /** Positions of the preorder and nodes of the tree correspond one to one. */
  lemma PreorderIsAPermutation(par: seq<nat>)
    requires IsTree(par)
    ensures forall v: nat :: v in Preorder(par, 0) <==> v < |par|
    ensures forall j, k :: 0 <= j < k < |Preorder(par, 0)| ==> Preorder(par, 0)[j] != Preorder(par, 0)[k]
  {
    var s := Preorder(par, 0);
    forall v: nat ensures v in s <==> v < |par| { EveryNodeOnce(par, v); }
    forall j, k | 0 <= j < k < |s| ensures s[j] != s[k] {
      EveryNodeOnce(par, s[j]);
      var rest := s[j + 1..];
      assert s == s[..j] + [s[j]] + rest;
      assert rest[k - j - 1] == s[k];
      assert multiset(rest)[s[k]] >= 1;
    }
  }

  // ---------------------------------------------------------------- appending a child

  lemma {:induction false} NextGrows(par: seq<nat>, p: nat, q: nat, i: nat)
    requires i <= |par|
    ensures Next(par + [p], q, i) ==
      if Next(par, q, i) < |par| then Next(par, q, i) else if q == p then |par| else |par| + 1
    decreases |par| - i
  {
    if i < |par| && par[i] != q { NextGrows(par, p, q, i + 1); }
  }

  /** A new node n with parent p becomes the first child of p if p had none, and has no child itself. */
  lemma FirstChildrenGrow(par: seq<nat>, p: nat)
    requires IsTree(par) && p < |par|
    ensures var fc := FirstChildren(par);
      FirstChildren(par + [p]) == (if fc[p] == -1 then fc[p := |par|] else fc) + [-1]
  {
    forall v: nat | v < |par| ensures FirstChild(par + [p], v) ==
      if FirstChild(par, v) == -1 && v == p then |par| else FirstChild(par, v)
    {
      NextGrows(par, p, v, v + 1);
    }
  }

  /** Node s is the last child of p. */
  ghost predicate LastChild(par: seq<nat>, p: nat, s: nat) {
    p < |par| && 0 < s < |par| && par[s] == p && NextSibling(par, s) == -1
  }

  /** The new node becomes the next sibling of the last child of p, and has no next sibling itself. */
  lemma NextSiblingsGrow(par: seq<nat>, p: nat, s: nat)
    requires IsTree(par) && p < |par|
    requires if FirstChild(par, p) == -1 then s == |par| else LastChild(par, p, s)
    ensures var ns := NextSiblings(par);
      NextSiblings(par + [p]) == (if s < |par| then ns[s := |par|] else ns) + [-1]
  {
    forall v: nat | v < |par| ensures NextSibling(par + [p], v) == if v == s then |par| else NextSibling(par, v) {
      NextGrows(par, p, par[v], v + 1);
    }
  }
}
