/** Intrusive circular lists: every node holds its neighbours, and a head node closes the ring. */
module Rings {
  import opened Sequences

  /** The list nodes of the process table: two queue heads, and four nodes inside each process. */
  datatype Node = Null | RunQ | FreeQ | Run(slot: int) | Free(slot: int) | WaitQ(slot: int) | Wait(slot: int)

  type Map = map<Node, Node>

  function At(m: Map, n: Node): Node { if n in m then m[n] else Null }

  /** Position `i` of the ring `head, xs...`, which wraps to the head at both ends. */
  function Pos(head: Node, xs: seq<Node>, i: int): Node {
    if 1 <= i <= |xs| then xs[i - 1] else head
  }

  ghost predicate Link(next: Map, prev: Map, head: Node, xs: seq<Node>, i: int) {
    At(next, Pos(head, xs, i)) == Pos(head, xs, i + 1) && At(prev, Pos(head, xs, i + 1)) == Pos(head, xs, i)
  }

  predicate Distinct(head: Node, xs: seq<Node>) {
    head !in xs && forall i, j :: 0 <= i < j < |xs| ==> xs[i] != xs[j]
  }

  /** From `head`, the nodes are exactly `xs`, forwards and backwards. */
  ghost predicate Ring(next: Map, prev: Map, head: Node, xs: seq<Node>) {
    Distinct(head, xs) && forall i {:trigger Link(next, prev, head, xs, i)} :: 0 <= i <= |xs| ==> Link(next, prev, head, xs, i)
  }

  /** A list depends only on its own nodes. */
  lemma RingKept(next: Map, prev: Map, next': Map, prev': Map, head: Node, xs: seq<Node>)
    requires Ring(next, prev, head, xs)
    requires forall n :: n == head || n in xs ==> At(next', n) == At(next, n) && At(prev', n) == At(prev, n)
    ensures Ring(next', prev', head, xs)
  {
    forall i | 0 <= i <= |xs| ensures Link(next', prev', head, xs, i) {
      assert Link(next, prev, head, xs, i);
    }
  }

  /** `__listAdd`: the new node between two neighbours. */
  function AddNext(next: Map, n: Node, before: Node, after: Node): Map { next[n := after][before := n] }
  function AddPrev(prev: Map, n: Node, before: Node, after: Node): Map { prev[after := n][n := before] }

  /** Adding before the head appends. */
  lemma RingAppend(next: Map, prev: Map, head: Node, xs: seq<Node>, n: Node)
    requires Ring(next, prev, head, xs) && n != head && n !in xs
    ensures At(prev, head) == Pos(head, xs, |xs|)
    ensures Ring(AddNext(next, n, At(prev, head), head), AddPrev(prev, n, At(prev, head), head), head, xs + [n])
  {
    assert Link(next, prev, head, xs, |xs|);
    var before := At(prev, head);
    var next', prev' := AddNext(next, n, before, head), AddPrev(prev, n, before, head);
    var ys := xs + [n];
    forall i | 0 <= i <= |ys| ensures Link(next', prev', head, ys, i) {
      if i < |xs| { assert Link(next, prev, head, xs, i); }
    }
  }

  /** Adding after the head prepends. */
  lemma RingPrepend(next: Map, prev: Map, head: Node, xs: seq<Node>, n: Node)
    requires Ring(next, prev, head, xs) && n != head && n !in xs
    ensures At(next, head) == Pos(head, xs, 1)
    ensures Ring(AddNext(next, n, head, At(next, head)), AddPrev(prev, n, head, At(next, head)), head, [n] + xs)
  {
    assert Link(next, prev, head, xs, 0);
    var after := At(next, head);
    var next', prev' := AddNext(next, n, head, after), AddPrev(prev, n, head, after);
    var ys := [n] + xs;
    forall i | 0 <= i <= |ys| ensures Link(next', prev', head, ys, i) {
      if i >= 2 { assert Link(next, prev, head, xs, i - 1); }
    }
  }

  /** `__listUnlink`: the two neighbours of position `i` now know each other. */
  lemma RingUnlink(next: Map, prev: Map, head: Node, xs: seq<Node>, i: nat)
    requires Ring(next, prev, head, xs) && i < |xs|
    ensures At(prev, xs[i]) == Pos(head, xs, i) && At(next, xs[i]) == Pos(head, xs, i + 2)
    ensures var before := At(prev, xs[i]); var after := At(next, xs[i]);
      Ring(next[before := after], prev[after := before], head, RemoveAt(xs, i))
  {
    assert Link(next, prev, head, xs, i) && Link(next, prev, head, xs, i + 1);
    var before, after := At(prev, xs[i]), At(next, xs[i]);
    var next', prev' := next[before := after], prev[after := before];
    var ys := RemoveAt(xs, i);
    forall j | 0 <= j <= |ys| ensures Link(next', prev', head, ys, j) {
      if j < i {
        assert Link(next, prev, head, xs, j);
      } else if j > i {
        assert Link(next, prev, head, xs, j + 1);
      }
    }
  }

  /** The nodes of one ring are mapped. */
  lemma RingMapped(next: Map, prev: Map, head: Node, xs: seq<Node>)
    requires Ring(next, prev, head, xs) && head != Null && Null !in xs
    ensures head in next && head in prev && forall i :: 0 <= i < |xs| ==> xs[i] in next && xs[i] in prev
    ensures next[head] == Pos(head, xs, 1) && prev[head] == Pos(head, xs, |xs|)
    ensures forall i :: 0 <= i < |xs| ==> next[xs[i]] == Pos(head, xs, i + 2) && prev[xs[i]] == Pos(head, xs, i)
  {
    assert Link(next, prev, head, xs, 0) && Link(next, prev, head, xs, |xs|);
    forall i | 0 <= i < |xs|
      ensures xs[i] in next && xs[i] in prev && next[xs[i]] == Pos(head, xs, i + 2) && prev[xs[i]] == Pos(head, xs, i)
    {
      assert Link(next, prev, head, xs, i) && Link(next, prev, head, xs, i + 1);
    }
  }

  /** The two maps agree on a node. */
  ghost predicate Same(next: Map, prev: Map, next': Map, prev': Map, n: Node) {
    At(next', n) == At(next, n) && At(prev', n) == At(prev, n)
  }

  /** Out of a list, whatever the node's own links become. */
  function CutNext(next: Map, prev: Map, n: Node, own: Node): Map
    requires n in next && n in prev
  {
    next[prev[n] := next[n]][n := own]
  }

  function CutPrev(next: Map, prev: Map, n: Node, own: Node): Map
    requires n in next && n in prev
  {
    prev[next[n] := prev[n]][n := own]
  }

  lemma RingCut(next: Map, prev: Map, head: Node, xs: seq<Node>, i: nat, own: Node)
    requires Ring(next, prev, head, xs) && i < |xs| && head != Null && Null !in xs
    ensures xs[i] in next && xs[i] in prev
    ensures Ring(CutNext(next, prev, xs[i], own), CutPrev(next, prev, xs[i], own), head, RemoveAt(xs, i))
    ensures forall n {:trigger Same(next, prev, CutNext(next, prev, xs[i], own), CutPrev(next, prev, xs[i], own), n)} ::
      n != head && n !in xs ==> Same(next, prev, CutNext(next, prev, xs[i], own), CutPrev(next, prev, xs[i], own), n)
  {
    var n := xs[i];
    RingMapped(next, prev, head, xs);
    RingUnlink(next, prev, head, xs, i);
    var next', prev' := next[prev[n] := next[n]], prev[next[n] := prev[n]];
    assert n !in RemoveAt(xs, i);
    RingKept(next', prev', next'[n := own], prev'[n := own], head, RemoveAt(xs, i));
  }

  /** The node is at position `i` of the ring. */
  ghost predicate IsMember(next: Map, prev: Map, n: Node, head: Node, xs: seq<Node>, i: nat) {
    Ring(next, prev, head, xs) && head != Null && Null !in xs && i < |xs| && xs[i] == n
  }

  /** The links, and the list operations on them. */
  class Lists {
    var next: Map
    var prev: Map

    constructor ()
      ensures next == map[] && prev == map[]
    {
      next := map[];
      prev := map[];
    }

    /** `INIT_LIST_HEAD`: the node alone. */
    method InitHead(n: Node)
      modifies this
      ensures next == old(next)[n := n] && prev == old(prev)[n := n]
    {
      next := next[n := n];
      prev := prev[n := n];
    }

    method Add(n: Node, before: Node, after: Node)
      modifies this
      ensures next == AddNext(old(next), n, before, after) && prev == AddPrev(old(prev), n, before, after)
    {
      prev := prev[after := n];
      next := next[n := after];
      prev := prev[n := before];
      next := next[before := n];
    }

    /** `listAddAfter`: first in the ring of `head`. */
    method AddAfter(n: Node, head: Node, ghost xs: seq<Node>)
      requires head in next
      modifies this
      ensures next == AddNext(old(next), n, head, old(next)[head]) && prev == AddPrev(old(prev), n, head, old(next)[head])
      ensures Ring(old(next), old(prev), head, xs) && n != head && n !in xs ==> Ring(next, prev, head, [n] + xs)
    {
      if Ring(next, prev, head, xs) && n != head && n !in xs { RingPrepend(next, prev, head, xs, n); }
      Add(n, head, next[head]);
    }

    /** `listAddBefore`: last in the ring of `head`. */
    method AddBefore(n: Node, head: Node, ghost xs: seq<Node>)
      requires head in prev
      modifies this
      ensures next == AddNext(old(next), n, old(prev)[head], head) && prev == AddPrev(old(prev), n, old(prev)[head], head)
      ensures Ring(old(next), old(prev), head, xs) && n != head && n !in xs ==> Ring(next, prev, head, xs + [n])
    {
      if Ring(next, prev, head, xs) && n != head && n !in xs { RingAppend(next, prev, head, xs, n); }
      Add(n, prev[head], head);
    }

    method UnlinkBetween(before: Node, after: Node)
      modifies this
      ensures next == old(next)[before := after] && prev == old(prev)[after := before]
    {
      prev := prev[after := before];
      next := next[before := after];
    }

    /** `listUnlink`: out of its list, with null links. */
    method Unlink(n: Node, ghost head: Node, ghost xs: seq<Node>, ghost i: nat)
      requires n in next && n in prev
      modifies this
      ensures next == CutNext(old(next), old(prev), n, Null) && prev == CutPrev(old(next), old(prev), n, Null)
      ensures IsMember(old(next), old(prev), n, head, xs, i) ==> Ring(next, prev, head, RemoveAt(xs, i))
    {
      if IsMember(next, prev, n, head, xs, i) { RingCut(next, prev, head, xs, i, Null); }
      UnlinkBetween(prev[n], next[n]);
      prev := prev[n := Null];
      next := next[n := Null];
    }

    /** `listUnlinkAndInit`: out of its list, alone. */
    method UnlinkAndInit(n: Node, ghost head: Node, ghost xs: seq<Node>, ghost i: nat)
      requires n in next && n in prev
      modifies this
      ensures next == CutNext(old(next), old(prev), n, n) && prev == CutPrev(old(next), old(prev), n, n)
      ensures IsMember(old(next), old(prev), n, head, xs, i) ==> Ring(next, prev, head, RemoveAt(xs, i)) && Ring(next, prev, n, [])
    {
      if IsMember(next, prev, n, head, xs, i) { RingCut(next, prev, head, xs, i, n); }
      UnlinkBetween(prev[n], next[n]);
      InitHead(n);
    }

    /** `listIsEmpty`: the head is linked to itself, so no node follows it. */
    method IsEmpty(head: Node, ghost xs: seq<Node>) returns (r: bool)
      requires head in next
      ensures r <==> next[head] == head
      ensures Ring(next, prev, head, xs) ==> (r <==> xs == [])
    {
      r := next[head] == head;
      assert Ring(next, prev, head, xs) ==> Link(next, prev, head, xs, 0);
    }
  }
}
