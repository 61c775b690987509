/** Registers that take in one item after another, over any type of word and any type of item. */
module Folds {

  ghost function Fold<S, A>(f: (S, A) -> S, c: S, items: seq<A>): S {
    if |items| == 0 then c else Fold(f, f(c, items[0]), items[1..])
  }

  ghost function Iterate<S>(f: S -> S, c: S, k: nat): S {
    if k == 0 then c else Iterate(f, f(c), k - 1)
  }

  ghost function FlatMap<A, B>(g: A -> seq<B>, items: seq<A>): seq<B> {
    if |items| == 0 then [] else g(items[0]) + FlatMap(g, items[1..])
  }

  ghost predicate Injective<S(!new), A(!new)>(f: (S, A) -> S) {
    forall a, b, x {:trigger f(a, x), f(b, x)} :: f(a, x) == f(b, x) ==> a == b
  }

  ghost predicate Linear<S(!new)>(step: S -> S, add: (S, S) -> S) {
    forall a, b :: step(add(a, b)) == add(step(a), step(b))
  }

  lemma {:induction false} FoldSplits<S, A>(f: (S, A) -> S, c: S, first: seq<A>, second: seq<A>)
    ensures Fold(f, c, first + second) == Fold(f, Fold(f, c, first), second)
    decreases |first|
  {
    if first == [] {
      assert first + second == second;
    } else {
      assert (first + second)[1..] == first[1..] + second;
      FoldSplits(f, f(c, first[0]), first[1..], second);
    }
  }

  lemma FlatMapOne<A, B>(g: A -> seq<B>, items: seq<A>, item: A)
    requires items == [item]
    ensures FlatMap(g, items) == g(item)
  {
    assert FlatMap(g, items[1..]) == [];
    assert g(item) + [] == g(item);
  }

  lemma FoldOne<S, A>(f: (S, A) -> S, c: S, item: A)
    ensures Fold(f, c, [item]) == f(c, item)
  {
    assert Fold(f, f(c, item), []) == f(c, item);
    assert [item][1..] == [];
  }

  lemma FoldNext<S, A>(f: (S, A) -> S, c: S, items: seq<A>, item: A)
    ensures Fold(f, c, items + [item]) == f(Fold(f, c, items), item)
  {
    FoldSplits(f, c, items, [item]);
    FoldOne(f, Fold(f, c, items), item);
  }

  lemma {:induction false} FoldIsInjective<S(!new), A(!new)>(f: (S, A) -> S, a: S, b: S, items: seq<A>)
    requires Injective(f) && Fold(f, a, items) == Fold(f, b, items)
    ensures a == b
    decreases |items|
  {
    if items != [] {
      FoldIsInjective(f, f(a, items[0]), f(b, items[0]), items[1..]);
    }
  }

  /** Taking in the parts of each item is taking in the items, when that is so for one item. */
  lemma {:induction false} FoldOfParts<S(!new), A(!new), B>(f: (S, B) -> S, g: A -> seq<B>, h: (S, A) -> S, c: S,
      items: seq<A>)
    requires forall c, x :: Fold(f, c, g(x)) == h(c, x)
    ensures Fold(f, c, FlatMap(g, items)) == Fold(h, c, items)
    decreases |items|
  {
    if items != [] {
      FoldSplits(f, c, g(items[0]), FlatMap(g, items[1..]));
      FoldOfParts(f, g, h, h(c, items[0]), items[1..]);
    }
  }

  lemma {:induction false} IteratesAdd<S>(f: S -> S, c: S, j: nat, k: nat)
    ensures Iterate(f, c, j + k) == Iterate(f, Iterate(f, c, j), k)
    decreases j
  {
    if j > 0 { IteratesAdd(f, f(c), j - 1, k); }
  }

  lemma IterateNext<S>(f: S -> S, c: S, k: nat)
    ensures Iterate(f, c, k + 1) == f(Iterate(f, c, k))
  {
    IteratesAdd(f, c, k, 1);
    assert Iterate(f, f(Iterate(f, c, k)), 0) == f(Iterate(f, c, k));
  }

  lemma FourIterates<S>(f: S -> S, c: S)
    ensures Iterate(f, c, 4) == f(f(f(f(c))))
  {
    assert Iterate(f, f(f(f(f(c)))), 0) == f(f(f(f(c))));
    assert Iterate(f, f(f(f(c))), 1) == f(f(f(f(c))));
    assert Iterate(f, f(f(c)), 2) == f(f(f(f(c))));
    assert Iterate(f, f(c), 3) == f(f(f(f(c))));
  }

  lemma {:induction false} IterateIsLinear<S(!new)>(step: S -> S, add: (S, S) -> S, a: S, b: S, k: nat)
    requires Linear(step, add)
    ensures Iterate(step, add(a, b), k) == add(Iterate(step, a, k), Iterate(step, b, k))
    decreases k
  {
    if k > 0 { IterateIsLinear(step, add, step(a), step(b), k - 1); }
  }

  // ----- Words taken in bit by bit -----

  /** The k lowest bits of a word, the lowest first. */
  ghost function LowBits<S>(low: S -> bool, half: S -> S, w: S, k: nat): (bits: seq<bool>)
    ensures |bits| == k
  {
    if k == 0 then [] else [low(w)] + LowBits(low, half, half(w), k - 1)
  }

  /** A register that takes in the low bit of a word, and then the rest of the word, takes in the word at once. */
  lemma {:induction false} BitsOfWord<S(!new)>(
    shiftIn: (S, bool) -> S, step: S -> S, add: (S, S) -> S, low: S -> bool, half: S -> S, c: S, w: S, k: nat)
    requires forall c, w {:trigger add(c, w)} :: add(shiftIn(c, low(w)), half(w)) == step(add(c, w))
    ensures add(Fold(shiftIn, c, LowBits(low, half, w, k)), Iterate(half, w, k)) == Iterate(step, add(c, w), k)
    decreases k
  {
    if k > 0 {
      var rest := LowBits(low, half, half(w), k - 1);
      assert ([low(w)] + rest)[1..] == rest;
      BitsOfWord(shiftIn, step, add, low, half, shiftIn(c, low(w)), half(w), k - 1);
    }
  }

  ghost function Differences(x: seq<bool>, y: seq<bool>): (d: seq<bool>)
    requires |x| == |y|
    ensures |d| == |x| && forall i :: 0 <= i < |d| ==> d[i] == (x[i] != y[i])
  {
    seq(|x|, i requires 0 <= i < |x| => x[i] != y[i])
  }

  /** The sum of two registers is the register of the differences. */
  lemma {:induction false} FoldOfDifferences<S(!new)>(shiftIn: (S, bool) -> S, add: (S, S) -> S, a: S, b: S,
      x: seq<bool>, y: seq<bool>)
    requires |x| == |y|
    requires forall a, b, p, q :: add(shiftIn(a, p), shiftIn(b, q)) == shiftIn(add(a, b), p != q)
    ensures add(Fold(shiftIn, a, x), Fold(shiftIn, b, y)) == Fold(shiftIn, add(a, b), Differences(x, y))
    decreases |x|
  {
    if x != [] {
      assert Differences(x, y)[1..] == Differences(x[1..], y[1..]);
      FoldOfDifferences(shiftIn, add, shiftIn(a, x[0]), shiftIn(b, y[0]), x[1..], y[1..]);
    }
  }

  // ----- Tables -----

  /** Every item of a table is as p says for its index. */
  ghost predicate AllIndexed<T>(p: (int, T) -> bool, items: seq<T>) {
    forall k :: 0 <= k < |items| ==> p(k, items[k])
  }

  lemma OneMoreIndexed<T>(p: (int, T) -> bool, items: seq<T>, item: T)
    requires AllIndexed(p, items) && p(|items|, item)
    ensures AllIndexed(p, items + [item])
  {}
}
