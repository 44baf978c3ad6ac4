/** The bounded priority queue: a binary max-heap in an array. */
module HeapQueue {

  function Parent(i: int): int { (i - 1) / 2 }

  ghost predicate Under(s: seq<int>, i: int) {
    0 < i < |s| ==> s[i] <= s[Parent(i)]
  }

  ghost predicate MaxHeap(s: seq<int>) {
    forall i {:trigger Under(s, i)} :: Under(s, i)
  }

  /** The children of `hole` are no larger than its parent. */
  ghost predicate Bridged(s: seq<int>, hole: int) {
    forall i :: 0 < i < |s| && Parent(i) == hole && 0 < hole < |s| ==> s[i] <= s[Parent(hole)]
  }

  /** A heap except that the value at `hole` may be too small for its children. */
  ghost predicate HeapBelow(s: seq<int>, hole: int) {
    (forall i {:trigger Under(s, i)} :: Parent(i) != hole ==> Under(s, i)) && Bridged(s, hole)
  }

  /** A heap except that the value at `hole` may be too large for its parent. */
  ghost predicate HeapAbove(s: seq<int>, hole: int) {
    (forall i {:trigger Under(s, i)} :: i != hole ==> Under(s, i)) && Bridged(s, hole)
  }

  function Swap(s: seq<int>, i: nat, j: nat): seq<int>
    requires i < |s| && j < |s|
  {
    s[i := s[j]][j := s[i]]
  }

  /** The larger child of `start`; the right one when they are equal. */
  function MaxChild(s: seq<int>, start: nat): nat
    requires start * 2 + 1 < |s|
  {
    var left := start * 2 + 1;
    if left == |s| - 1 then left else if s[left] <= s[left + 1] then left + 1 else left
  }

  function SiftDown(s: seq<int>, start: nat): (r: seq<int>)
    ensures |r| == |s|
    decreases |s| - start
  {
    if start * 2 + 1 < |s| && s[start] <= s[MaxChild(s, start)] then
      SiftDown(Swap(s, start, MaxChild(s, start)), MaxChild(s, start))
    else s
  }

  function SiftUp(s: seq<int>, at: nat): (r: seq<int>)
    requires at < |s|
    ensures |r| == |s|
    decreases at
  {
    if at > 0 && s[Parent(at)] < s[at] then SiftUp(Swap(s, Parent(at), at), Parent(at)) else s
  }

  // ----- what sifting does

  lemma SwapPermutes(s: seq<int>, i: nat, j: nat)
    requires i < |s| && j < |s|
    ensures multiset(Swap(s, i, j)) == multiset(s)
  {
  }

  lemma SwapDown(s: seq<int>, hole: nat)
    requires HeapBelow(s, hole) && hole * 2 + 1 < |s| && s[hole] <= s[MaxChild(s, hole)]
    ensures HeapBelow(Swap(s, hole, MaxChild(s, hole)), MaxChild(s, hole))
  {
    var child := MaxChild(s, hole);
    var t := Swap(s, hole, child);
    forall i | Parent(i) != child ensures Under(t, i) {
      assert Parent(i) != hole ==> Under(s, i);
      if i == hole { assert Bridged(s, hole); }
    }
    forall i | 0 < i < |t| && Parent(i) == child ensures t[i] <= t[Parent(child)] {
      assert Under(s, i);
    }
  }

  lemma {:induction false} SiftDownHeap(s: seq<int>, start: nat)
    requires HeapBelow(s, start)
    ensures MaxHeap(SiftDown(s, start)) && multiset(SiftDown(s, start)) == multiset(s)
    decreases |s| - start
  {
    if start * 2 + 1 < |s| && s[start] <= s[MaxChild(s, start)] {
      SwapDown(s, start);
      SwapPermutes(s, start, MaxChild(s, start));
      SiftDownHeap(Swap(s, start, MaxChild(s, start)), MaxChild(s, start));
    } else {
      forall i ensures Under(s, i) {
        if Parent(i) != start { assert Under(s, i); }
      }
    }
  }

  lemma SwapUp(s: seq<int>, hole: nat)
    requires HeapAbove(s, hole) && 0 < hole < |s| && s[Parent(hole)] < s[hole]
    ensures HeapAbove(Swap(s, Parent(hole), hole), Parent(hole))
  {
    var up := Parent(hole);
    var t := Swap(s, up, hole);
    forall i | i != up ensures Under(t, i) {
      if i != hole { assert Under(s, i); }
    }
    forall i | 0 < i < |t| && Parent(i) == up && 0 < up ensures t[i] <= t[Parent(up)] {
      assert Under(s, up);
      if i != hole { assert Under(s, i); }
    }
  }

  lemma {:induction false} SiftUpHeap(s: seq<int>, at: nat)
    requires at < |s| && HeapAbove(s, at)
    ensures MaxHeap(SiftUp(s, at)) && multiset(SiftUp(s, at)) == multiset(s)
    decreases at
  {
    if at > 0 && s[Parent(at)] < s[at] {
      SwapUp(s, at);
      SwapPermutes(s, Parent(at), at);
      SiftUpHeap(Swap(s, Parent(at), at), Parent(at));
    } else {
      forall i ensures Under(s, i) {
        if i != at { assert Under(s, i); }
      }
    }
  }

  /** The root of a max-heap is its largest value. */
  lemma {:induction false} RootIsLargest(s: seq<int>, i: nat)
    requires MaxHeap(s) && i < |s|
    ensures s[i] <= s[0]
    decreases i
  {
    if i > 0 {
      assert Under(s, i);
      RootIsLargest(s, Parent(i));
    }
  }

  lemma Largest(s: seq<int>)
    requires MaxHeap(s) && s != []
    ensures s[0] in multiset(s) && forall y :: y in multiset(s) ==> y <= s[0]
  {
    forall y | y in multiset(s) ensures y <= s[0] {
      assert y in s;
      var i :| 0 <= i < |s| && s[i] == y;
      RootIsLargest(s, i);
    }
  }

  /** A new last value can only be too large. */
  lemma EnqueueHeap(s: seq<int>, x: int)
    requires MaxHeap(s)
    ensures MaxHeap(SiftUp(s + [x], |s|)) && multiset(SiftUp(s + [x], |s|)) == multiset(s) + multiset{x}
  {
    hide SiftUp, MaxHeap, HeapAbove;
    AppendHeap(s, x);
    SiftUpHeap(s + [x], |s|);
  }

  lemma AppendHeap(s: seq<int>, x: int)
    requires MaxHeap(s)
    ensures HeapAbove(s + [x], |s|)
  {
    forall i | i != |s| ensures Under(s + [x], i) {
      assert Under(s, i);
    }
  }

  function LastToRoot(s: seq<int>): seq<int>
    requires 2 <= |s|
  {
    [s[|s| - 1]] + s[1..|s| - 1]
  }

  /** Sinking it restores the heap without the old root. */
  lemma DequeueHeap(s: seq<int>)
    requires MaxHeap(s) && 2 <= |s|
    ensures var r := SiftDown(LastToRoot(s), 0);
      MaxHeap(r) && multiset(r) == multiset(s) - multiset{s[0]} && |LastToRoot(s)| == |s| - 1
  {
    MoveLastHeap(s);
    SiftDownHeap(LastToRoot(s), 0);
  }

  /** The last value moved to the root can only be too small. */
  lemma MoveLastHeap(s: seq<int>)
    requires MaxHeap(s) && 2 <= |s|
    ensures var t := LastToRoot(s); HeapBelow(t, 0) && multiset(t) == multiset(s) - multiset{s[0]}
  {
    var last := |s| - 1;
    var t := LastToRoot(s);
    forall i | Parent(i) != 0 ensures Under(t, i) {
      assert Under(s, i);
    }
    assert s == [s[0]] + s[1..last] + [s[last]];
  }

  class HeapQ {
    var n: nat
    const size: nat
    const buf: array<int>

    ghost predicate Valid()
      reads this, buf
    {
      n <= size == buf.Length && MaxHeap(buf[..n])
    }

    ghost function Contents(): multiset<int>
      reads this, buf
      requires n <= buf.Length
    {
      multiset(buf[..n])
    }

    constructor (size: nat)
      ensures Valid() && Contents() == multiset{} && this.size == size && fresh(buf)
    {
      this.size := size;
      buf := new int[size](_ => 0);
      n := 0;
    }

    /** Sinks the value at `start` until no child within `bottom` is larger. */
    method Down(start: nat, bottom: nat)
      requires bottom < buf.Length
      modifies buf
      ensures buf[..bottom + 1] == SiftDown(old(buf[..bottom + 1]), start)
      ensures buf[bottom + 1..] == old(buf[bottom + 1..])
      decreases bottom - start
    {
      var left := start * 2 + 1;
      var right := start * 2 + 2;
      ghost var s := buf[..bottom + 1];
      if left <= bottom {
        var max := left;
        if left != bottom {
          max := if buf[left] <= buf[right] then right else left;
        }
        assert max == MaxChild(s, start);
        if buf[start] <= buf[max] {
          buf[start], buf[max] := buf[max], buf[start];
          assert buf[..bottom + 1] == Swap(s, start, max);
          Down(max, bottom);
        }
      }
    }

    /** Floats the value at `bottom` until its parent is at least as large; `count` values are in play. */
    method Up(start: nat, bottom: nat, ghost count: nat)
      requires start == 0 && bottom < count <= buf.Length
      modifies buf
      ensures buf[..count] == SiftUp(old(buf[..count]), bottom)
      decreases bottom
    {
      ghost var s := buf[..count];
      if bottom > start {
        var up := (bottom - 1) / 2;
        if buf[up] < buf[bottom] {
          buf[up], buf[bottom] := buf[bottom], buf[up];
          assert buf[..count] == Swap(s, up, bottom);
          Up(start, up, count);
        }
      }
    }

    /** Adds a value unless the queue is full. */
    method Enqueue(x: int) returns (ok: bool)
      requires Valid()
      modifies this`n, buf
      ensures Valid() && (ok <==> old(n) < size)
      ensures Contents() == if ok then old(Contents()) + multiset{x} else old(Contents())
    {
      hide SiftUp, MaxHeap, HeapAbove;
      ok := n < size;
      if ok {
        ghost var before := buf[..n];
        EnqueueHeap(before, x);
        buf[n] := x;
        assert buf[..n + 1] == before + [x];
        Up(0, n, n + 1);
        n := n + 1;
      }
    }

    /** Takes the largest of at least two values; it is the lowest, too, only when all are equal. */
    method Dequeue() returns (ok: bool, x: int)
      requires Valid() && 2 <= n
      modifies this`n, buf
      ensures Valid() && ok && n == old(n) - 1
      ensures x in old(Contents()) && (forall y :: y in old(Contents()) ==> y <= x)
      ensures Contents() == old(Contents()) - multiset{x}
      ensures (forall y :: y in old(Contents()) ==> x <= y) <==>
              forall y, z :: y in old(Contents()) && z in old(Contents()) ==> y == z
    {
      hide SiftDown, MaxHeap, LastToRoot;
      ghost var s := buf[..n];
      Largest(s);
      DequeueHeap(s);
      x := buf[0];
      n := n - 1;
      MoveLast();
      assert buf[..n] == LastToRoot(s);
      Down(0, n - 1);
      ok := n > 0;
    }

    /** The value just past the end replaces the root. */
    method MoveLast()
      requires 1 <= n < buf.Length
      modifies buf
      ensures buf[..n] == LastToRoot(old(buf[..n + 1]))
    {
      ghost var s := buf[..n + 1];
      buf[0] := buf[n];
      assert buf[..n] == [s[n]] + s[1..n];
    }
  }

  predicate Descending(s: seq<int>) {
    forall i, j :: 0 <= i < j < |s| ==> s[i] >= s[j]
  }

  /** One more dequeued value: no larger than those before it, no smaller than those left. */
  lemma DescendingStep(out: seq<int>, rest: multiset<int>, x: int)
    requires Descending(out) && forall i, y :: 0 <= i < |out| && y in rest ==> y <= out[i]
    requires x in rest && forall y :: y in rest ==> y <= x
    ensures Descending(out + [x]) && multiset(out + [x]) + (rest - multiset{x}) == multiset(out) + rest
    ensures forall i, y :: 0 <= i < |out + [x]| && y in rest - multiset{x} ==> y <= (out + [x])[i]
  {
  }

  /** Dequeuing down to one value yields the stored values in descending order, the smallest staying behind. */
  method Drain(q: HeapQ) returns (out: seq<int>)
    requires q.Valid() && 1 <= q.n
    modifies q, q.buf
    ensures q.Valid() && q.n == 1 && Descending(out)
    ensures multiset(out) + q.Contents() == old(q.Contents())
    ensures forall i, y :: 0 <= i < |out| && y in q.Contents() ==> y <= out[i]
  {
    hide MaxHeap, Descending;
    out := [];
    ghost var all := q.Contents();
    DescendingNone();
    while q.n > 1
      invariant q.Valid() && 1 <= q.n && Descending(out) && multiset(out) + q.Contents() == all
      invariant forall i, y :: 0 <= i < |out| && y in q.Contents() ==> y <= out[i]
      decreases q.n
    {
      ghost var rest := q.Contents();
      var ok, x := q.Dequeue();
      DescendingStep(out, rest, x);
      out := out + [x];
    }
  }

  lemma DescendingNone()
    ensures Descending([])
  {
  }
}
