/**
 * The asymmetric free list: each chunk's `prev` word (at +4) holds the address of
 * the pointer that points to the chunk, its `next` word (at +8) the next chunk.
 */
module Links {
  import opened Sequences
  import opened Memory

  function At(m: Mem, a: int): Word { if a in m then m[a] else 0 }

  /** The pointer that leads to position `i`: the list head, or the `next` word before it. */
  function Cell(head: int, xs: seq<int>, i: int): int
    requires 0 <= i <= |xs|
  {
    if i == 0 then head else xs[i - 1] + 8
  }

  ghost predicate Node(m: Mem, head: int, xs: seq<int>, i: int)
    requires 0 <= i < |xs|
  {
    At(m, Cell(head, xs, i)) == xs[i] && At(m, xs[i] + 4) == Cell(head, xs, i)
  }

  /** The words from `head` on hold the list `xs`, ending in a null pointer. */
  ghost predicate Chain(m: Mem, head: int, xs: seq<int>) {
    && (forall i {:trigger Node(m, head, xs, i)} :: 0 <= i < |xs| ==> Node(m, head, xs, i))
    && At(m, Cell(head, xs, |xs|)) == 0
  }

  predicate Far(x: int, y: int) { x + 16 <= y || y + 16 <= x }

  /** The list's nodes do not overlap, nor the head word any of them. */
  ghost predicate Spread(head: int, xs: seq<int>) {
    && (forall i :: 0 <= i < |xs| ==> head + 4 <= xs[i])
    && (forall i, j :: 0 <= i < j < |xs| ==> Far(xs[i], xs[j]))
  }

  /** Exactly the words of a list. */
  ghost predicate InChain(head: int, xs: seq<int>, a: int) {
    a == head || exists i :: 0 <= i < |xs| && (a == xs[i] + 4 || a == xs[i] + 8)
  }

  /** A list depends only on its own words. */
  lemma ChainKept(m: Mem, m': Mem, head: int, xs: seq<int>)
    requires Chain(m, head, xs)
    requires At(m', head) == At(m, head)
    requires forall i :: 0 <= i < |xs| ==> At(m', xs[i] + 4) == At(m, xs[i] + 4) && At(m', xs[i] + 8) == At(m, xs[i] + 8)
    ensures Chain(m', head, xs)
  {
    forall i | 0 <= i < |xs| ensures Node(m', head, xs, i) {
      assert Node(m, head, xs, i);
      if i > 0 { assert At(m', xs[i - 1] + 8) == At(m, xs[i - 1] + 8); }
    }
    if |xs| > 0 { assert At(m', xs[|xs| - 1] + 8) == At(m, xs[|xs| - 1] + 8); }
  }

  function Inserted(xs: seq<int>, i: nat, c: int): seq<int>
    requires i <= |xs|
  {
    xs[..i] + [c] + xs[i..]
  }

  /** The stores that put `c` at position `i`. */
  ghost predicate LinksIn(m: Mem, m': Mem, head: int, xs: seq<int>, i: nat, c: int)
    requires i <= |xs|
  {
    && At(m', c + 4) == Cell(head, xs, i) && At(m', Cell(head, xs, i)) == c
    && At(m', c + 8) == (if i < |xs| then xs[i] else 0)
    && (i < |xs| ==> At(m', xs[i] + 4) == c + 8)
    && forall a :: a != c + 4 && a != c + 8 && a != Cell(head, xs, i) && (i < |xs| ==> a != xs[i] + 4) ==>
         At(m', a) == At(m, a)
  }

  lemma ChainInsert(m: Mem, m': Mem, head: int, xs: seq<int>, i: nat, c: int)
    requires Chain(m, head, xs) && i <= |xs| && LinksIn(m, m', head, xs, i, c)
    requires Spread(head, xs) && head + 4 <= c && forall j :: 0 <= j < |xs| ==> Far(xs[j], c)
    ensures Chain(m', head, Inserted(xs, i, c))
  {
    var ys := Inserted(xs, i, c);
    forall j | 0 <= j < |ys| ensures Node(m', head, ys, j) {
      if j < i {
        assert Node(m, head, xs, j);
      } else if j > i {
        assert Node(m, head, xs, j - 1);
      }
    }
    if i < |xs| {
      assert Cell(head, ys, |ys|) == Cell(head, xs, |xs|);
    }
  }

  /** The stores that take the chunk at position `i` out and null its own links. */
  ghost predicate LinksOut(m: Mem, m': Mem, head: int, xs: seq<int>, i: nat)
    requires i < |xs|
  {
    && At(m', Cell(head, xs, i)) == (if i + 1 < |xs| then xs[i + 1] else 0)
    && (i + 1 < |xs| ==> At(m', xs[i + 1] + 4) == Cell(head, xs, i))
    && At(m', xs[i] + 4) == 0 && At(m', xs[i] + 8) == 0
    && forall a :: a != xs[i] + 4 && a != xs[i] + 8 && a != Cell(head, xs, i) && (i + 1 < |xs| ==> a != xs[i + 1] + 4) ==>
         At(m', a) == At(m, a)
  }

  lemma ChainRemove(m: Mem, m': Mem, head: int, xs: seq<int>, i: nat)
    requires Chain(m, head, xs) && i < |xs| && LinksOut(m, m', head, xs, i) && Spread(head, xs)
    ensures Chain(m', head, RemoveAt(xs, i))
  {
    var ys := RemoveAt(xs, i);
    forall j | 0 <= j < |ys| ensures Node(m', head, ys, j) {
      assert Node(m, head, xs, if j < i then j else j + 1);
    }
    if i + 1 < |xs| {
      assert Cell(head, ys, |ys|) == Cell(head, xs, |xs|);
    }
  }
}
