/**
 * How the linked nodes of the process table represent its queues: the run queue, the free
 * list, and a wait queue inside every slot that has been used. Each lemma says what one
 * list operation, or one re-initialisation, does to all of them together.
 */
module SchedRep {
  import opened Sequences
  import opened Rings
  import opened SchedModel
  import opened SchedInvariant

  function Runs(xs: seq<int>): (r: seq<Node>)
    ensures |r| == |xs| && forall i :: 0 <= i < |xs| ==> r[i] == Run(xs[i])
  {
    seq(|xs|, i requires 0 <= i < |xs| => Run(xs[i]))
  }

  function Frees(xs: seq<int>): (r: seq<Node>)
    ensures |r| == |xs| && forall i :: 0 <= i < |xs| ==> r[i] == Free(xs[i])
  {
    seq(|xs|, i requires 0 <= i < |xs| => Free(xs[i]))
  }

  function Waits(xs: seq<int>): (r: seq<Node>)
    ensures |r| == |xs| && forall i :: 0 <= i < |xs| ==> r[i] == Wait(xs[i])
  {
    seq(|xs|, i requires 0 <= i < |xs| => Wait(xs[i]))
  }

  ghost predicate QueueOf(next: Map, prev: Map, k: Kernel, p: int) {
    Ring(next, prev, WaitQ(p), Waits(Waiters(k, p)))
  }

  ghost predicate Alone(next: Map, prev: Map, q: int) {
    Ring(next, prev, Wait(q), [])
  }

  /** The slot has been used: until then the nodes of its wait queue are not set up. */
  predicate Made(k: Kernel, p: int) { IsSlot(p) && PidOf(k, p) != 0 }

  /** The run queue, the free list and every wait queue are rings; who waits on nobody is linked to itself. */
  ghost predicate Rep(next: Map, prev: Map, k: Kernel) {
    && Ring(next, prev, RunQ, Runs(k.run))
    && Ring(next, prev, FreeQ, Frees(k.free))
    && (forall p {:trigger QueueOf(next, prev, k, p)} :: Made(k, p) ==> QueueOf(next, prev, k, p))
    && (forall q {:trigger Alone(next, prev, q)} :: Made(k, q) && Unlinked(k, q) ==> Alone(next, prev, q))
  }

  /** Nobody waits in two queues. */
  ghost predicate OneQueue(k: Kernel) {
    forall p, r, q :: IsSlot(p) && IsSlot(r) && q in Waiters(k, p) && q in Waiters(k, r) ==> p == r
  }

  /** Only the queues matter. */
  lemma RepSame(next: Map, prev: Map, k: Kernel, l: Kernel)
    requires Rep(next, prev, k) && l.run == k.run && l.free == k.free && l.waiting == k.waiting
    requires forall p :: Made(l, p) ==> Made(k, p)
    ensures Rep(next, prev, l)
  {
    forall p | Made(l, p) ensures QueueOf(next, prev, l, p) { assert QueueOf(next, prev, k, p); }
    forall q | Made(l, q) && Unlinked(l, q) ensures Alone(next, prev, q) { assert Made(k, q) && Unlinked(k, q); }
  }

  /** A change confined to one kind of node leaves the queues of the other kinds. */
  lemma RunFrame(next: Map, prev: Map, next': Map, prev': Map, k: Kernel, run: seq<int>)
    requires Rep(next, prev, k) && Ring(next', prev', RunQ, Runs(run))
    requires forall n {:trigger Same(next, prev, next', prev', n)} :: n != RunQ && !n.Run? ==> Same(next, prev, next', prev', n)
    ensures Rep(next', prev', k.(run := run))
  {
    var l := k.(run := run);
    assert forall n :: n != RunQ && !n.Run? ==> Same(next, prev, next', prev', n);
    RingSame(next, prev, next', prev', FreeQ, Frees(k.free));
    forall p | Made(l, p) ensures QueueOf(next', prev', l, p) {
      assert QueueOf(next, prev, k, p);
      RingSame(next, prev, next', prev', WaitQ(p), Waits(Waiters(k, p)));
    }
    forall q | Made(l, q) && Unlinked(l, q) ensures Alone(next', prev', q) {
      assert Made(k, q) && Unlinked(k, q) && Alone(next, prev, q);
      RingSame(next, prev, next', prev', Wait(q), []);
    }
  }

  lemma FreeFrame(next: Map, prev: Map, next': Map, prev': Map, k: Kernel, free: seq<int>)
    requires Rep(next, prev, k) && Ring(next', prev', FreeQ, Frees(free))
    requires forall n {:trigger Same(next, prev, next', prev', n)} :: n != FreeQ && !n.Free? ==> Same(next, prev, next', prev', n)
    ensures Rep(next', prev', k.(free := free))
  {
    var l := k.(free := free);
    RingSame(next, prev, next', prev', RunQ, Runs(k.run));
    forall p | Made(l, p) ensures QueueOf(next', prev', l, p) {
      assert QueueOf(next, prev, k, p);
      RingSame(next, prev, next', prev', WaitQ(p), Waits(Waiters(k, p)));
    }
    forall q | Made(l, q) && Unlinked(l, q) ensures Alone(next', prev', q) {
      assert Made(k, q) && Unlinked(k, q) && Alone(next, prev, q);
      RingSame(next, prev, next', prev', Wait(q), []);
    }
  }

  /** The change is confined to the queue of `p`, the nodes that were in it and those that now are. */
  ghost predicate Touches(p: int, xs: seq<int>, ys: seq<int>, n: Node) {
    n == WaitQ(p) || (n.Wait? && (n.slot in xs || n.slot in ys))
  }

  lemma WaitFrame(next: Map, prev: Map, next': Map, prev': Map, k: Kernel, p: int, ys: seq<int>)
    requires Rep(next, prev, k) && Shaped(k) && IsSlot(p) && OneQueue(k) && Ring(next', prev', WaitQ(p), Waits(ys))
    requires forall n {:trigger Same(next, prev, next', prev', n)} ::
      !Touches(p, k.waiting[p], ys, n) ==> Same(next, prev, next', prev', n)
    requires forall q :: q in ys && q !in k.waiting[p] ==> Unlinked(k, q)
    requires forall q :: q in k.waiting[p] && q !in ys ==> Alone(next', prev', q)
    ensures Rep(next', prev', k.(waiting := k.waiting[p := ys]))
  {
    var l := k.(waiting := k.waiting[p := ys]);
    RingSame(next, prev, next', prev', RunQ, Runs(k.run));
    RingSame(next, prev, next', prev', FreeQ, Frees(k.free));
    forall r | Made(l, r) ensures QueueOf(next', prev', l, r) {
      if r != p {
        assert QueueOf(next, prev, k, r);
        forall q | q in k.waiting[r] ensures q !in k.waiting[p] && q !in ys {
          assert q in Waiters(k, r) && (q in k.waiting[p] ==> q in Waiters(k, p));
        }
        RingSame(next, prev, next', prev', WaitQ(r), Waits(k.waiting[r]));
      }
    }
    forall q | Made(l, q) && Unlinked(l, q) ensures Alone(next', prev', q) {
      assert q !in l.waiting[p];
      if q !in k.waiting[p] {
        forall r | 0 <= r < |k.waiting| ensures q !in k.waiting[r] { assert q !in l.waiting[r]; }
        assert Made(k, q) && Alone(next, prev, q);
        RingSame(next, prev, next', prev', Wait(q), []);
      }
    }
  }

  lemma RingSame(next: Map, prev: Map, next': Map, prev': Map, head: Node, xs: seq<Node>)
    requires Ring(next, prev, head, xs)
    requires Same(next, prev, next', prev', head) && forall i {:trigger xs[i]} :: 0 <= i < |xs| ==> Same(next, prev, next', prev', xs[i])
    ensures Ring(next', prev', head, xs)
  {
    RingKept(next, prev, next', prev', head, xs);
  }

  // ----- one list operation at a time

  lemma RunAppend(next: Map, prev: Map, k: Kernel, p: int)
    requires Rep(next, prev, k) && p !in k.run
    ensures RunQ in prev
    ensures Rep(AddNext(next, Run(p), prev[RunQ], RunQ), AddPrev(prev, Run(p), prev[RunQ], RunQ), k.(run := k.run + [p]))
  {
    var xs := Runs(k.run);
    RingMapped(next, prev, RunQ, xs);
    RingAppend(next, prev, RunQ, xs, Run(p));
    assert Runs(k.run + [p]) == xs + [Run(p)];
    RunFrame(next, prev, AddNext(next, Run(p), prev[RunQ], RunQ), AddPrev(prev, Run(p), prev[RunQ], RunQ), k, k.run + [p]);
  }

  lemma FreeAppend(next: Map, prev: Map, k: Kernel, p: int)
    requires Rep(next, prev, k) && p !in k.free
    ensures FreeQ in prev
    ensures Rep(AddNext(next, Free(p), prev[FreeQ], FreeQ), AddPrev(prev, Free(p), prev[FreeQ], FreeQ), k.(free := k.free + [p]))
  {
    var xs := Frees(k.free);
    RingMapped(next, prev, FreeQ, xs);
    RingAppend(next, prev, FreeQ, xs, Free(p));
    assert Frees(k.free + [p]) == xs + [Free(p)];
    FreeFrame(next, prev, AddNext(next, Free(p), prev[FreeQ], FreeQ), AddPrev(prev, Free(p), prev[FreeQ], FreeQ), k, k.free + [p]);
  }

  lemma FreesCons(p: int, xs: seq<int>)
    ensures Frees([p] + xs) == [Free(p)] + Frees(xs)
  {
  }

  lemma FreePrepend(next: Map, prev: Map, k: Kernel, p: int)
    requires Rep(next, prev, k) && p !in k.free
    ensures FreeQ in next
    ensures Rep(AddNext(next, Free(p), FreeQ, next[FreeQ]), AddPrev(prev, Free(p), FreeQ, next[FreeQ]), k.(free := [p] + k.free))
  {
    var xs := Frees(k.free);
    RingMapped(next, prev, FreeQ, xs);
    RingPrepend(next, prev, FreeQ, xs, Free(p));
    FreesCons(p, k.free);
    hide Frees;
    var after := next[FreeQ];
    var next', prev' := AddNext(next, Free(p), FreeQ, after), AddPrev(prev, Free(p), FreeQ, after);
    forall n | n != FreeQ && !n.Free? ensures Same(next, prev, next', prev', n) {
      assert after == FreeQ || after.Free?;
    }
    FreeFrame(next, prev, next', prev', k, [p] + k.free);
  }

  lemma RunCut(next: Map, prev: Map, k: Kernel, i: nat, own: Node)
    requires Rep(next, prev, k) && i < |k.run|
    ensures var n := Run(k.run[i]);
      n in next && n in prev && Rep(CutNext(next, prev, n, own), CutPrev(next, prev, n, own), k.(run := RemoveAt(k.run, i)))
  {
    var xs := Runs(k.run);
    RingCut(next, prev, RunQ, xs, i, own);
    assert Runs(RemoveAt(k.run, i)) == RemoveAt(xs, i);
    RunFrame(next, prev, CutNext(next, prev, xs[i], own), CutPrev(next, prev, xs[i], own), k, RemoveAt(k.run, i));
  }

  lemma FreeCut(next: Map, prev: Map, k: Kernel, own: Node)
    requires Rep(next, prev, k) && k.free != []
    ensures var n := Free(k.free[0]);
      n in next && n in prev && FreeQ in next && next[FreeQ] == n
      && Rep(CutNext(next, prev, n, own), CutPrev(next, prev, n, own), k.(free := k.free[1..]))
  {
    var xs := Frees(k.free);
    RingMapped(next, prev, FreeQ, xs);
    RingCut(next, prev, FreeQ, xs, 0, own);
    assert Frees(k.free[1..]) == RemoveAt(xs, 0);
    FreeFrame(next, prev, CutNext(next, prev, xs[0], own), CutPrev(next, prev, xs[0], own), k, k.free[1..]);
  }

  /** A waiting process leaves the queue it is in, and is alone. */
  lemma WaitCut(next: Map, prev: Map, k: Kernel, p: int, i: nat)
    requires Rep(next, prev, k) && Shaped(k) && Made(k, p) && OneQueue(k) && i < |k.waiting[p]|
    ensures var n := Wait(k.waiting[p][i]);
      n in next && n in prev
      && Rep(CutNext(next, prev, n, n), CutPrev(next, prev, n, n), k.(waiting := k.waiting[p := RemoveAt(k.waiting[p], i)]))
  {
    assert QueueOf(next, prev, k, p);
    var xs := Waits(k.waiting[p]);
    RingCut(next, prev, WaitQ(p), xs, i, xs[i]);
    assert Waits(RemoveAt(k.waiting[p], i)) == RemoveAt(xs, i);
    var next', prev' := CutNext(next, prev, xs[i], xs[i]), CutPrev(next, prev, xs[i], xs[i]);
    var ys := RemoveAt(k.waiting[p], i);
    forall n | !Touches(p, k.waiting[p], ys, n) ensures Same(next, prev, next', prev', n) {
      assert n != WaitQ(p) && n !in xs;
    }
    forall q | q in k.waiting[p] && q != k.waiting[p][i] ensures q in ys {
      var j :| 0 <= j < |k.waiting[p]| && k.waiting[p][j] == q;
      assert ys[if j < i then j else j - 1] == q;
    }
    LoneRing(next', prev', xs[i]);
    WaitFrame(next, prev, next', prev', k, p, ys);
  }

  lemma WaitsCons(q: int, xs: seq<int>)
    ensures Waits([q] + xs) == [Wait(q)] + Waits(xs)
  {
  }

  /** A process that waits on nobody is put first in the queue of `p`. */
  lemma WaitPrepend(next: Map, prev: Map, k: Kernel, p: int, q: int)
    requires Rep(next, prev, k) && Shaped(k) && Made(k, p) && OneQueue(k) && Unlinked(k, q)
    ensures WaitQ(p) in next
    ensures Rep(AddNext(next, Wait(q), WaitQ(p), next[WaitQ(p)]), AddPrev(prev, Wait(q), WaitQ(p), next[WaitQ(p)]),
                k.(waiting := k.waiting[p := [q] + k.waiting[p]]))
  {
    assert QueueOf(next, prev, k, p);
    var xs := Waits(k.waiting[p]);
    RingMapped(next, prev, WaitQ(p), xs);
    RingPrepend(next, prev, WaitQ(p), xs, Wait(q));
    var ys := [q] + k.waiting[p];
    WaitsCons(q, k.waiting[p]);
    var next', prev' := AddNext(next, Wait(q), WaitQ(p), next[WaitQ(p)]), AddPrev(prev, Wait(q), WaitQ(p), next[WaitQ(p)]);
    forall n | !Touches(p, k.waiting[p], ys, n) ensures Same(next, prev, next', prev', n) {
      assert n != WaitQ(p) && n !in xs && n != Wait(q);
    }
    WaitFrame(next, prev, next', prev', k, p, ys);
  }

  /** Making a node that is alone in its list point at itself changes nothing. */
  lemma InitAlone(next: Map, prev: Map, n: Node)
    requires Ring(next, prev, n, []) && n != Null
    ensures n in next && n in prev && next[n] == n && prev[n] == n && next[n := n] == next && prev[n := n] == prev
    ensures CutNext(next, prev, n, n) == next && CutPrev(next, prev, n, n) == prev
  {
    RingMapped(next, prev, n, []);
  }

  /** Resetting the links of a node that is in no list. */
  lemma InitRunNode(next: Map, prev: Map, k: Kernel, p: int)
    requires Rep(next, prev, k) && p !in k.run
    ensures Rep(next[Run(p) := Run(p)], prev[Run(p) := Run(p)], k)
  {
    RingKept(next, prev, next[Run(p) := Run(p)], prev[Run(p) := Run(p)], RunQ, Runs(k.run));
    RunFrame(next, prev, next[Run(p) := Run(p)], prev[Run(p) := Run(p)], k, k.run);
  }

  lemma InitFreeNode(next: Map, prev: Map, k: Kernel, p: int)
    requires Rep(next, prev, k) && p !in k.free
    ensures Rep(next[Free(p) := Free(p)], prev[Free(p) := Free(p)], k)
  {
    RingKept(next, prev, next[Free(p) := Free(p)], prev[Free(p) := Free(p)], FreeQ, Frees(k.free));
    FreeFrame(next, prev, next[Free(p) := Free(p)], prev[Free(p) := Free(p)], k, k.free);
  }

  /** Setting up the wait nodes of a slot that no queue involves. */
  lemma InitWaitNodes(next: Map, prev: Map, k: Kernel, l: Kernel, p: int)
    requires Rep(next, prev, k) && IsSlot(p) && Detached(k, p)
    requires l.run == k.run && l.free == k.free && l.waiting == k.waiting && forall q :: q != p ==> PidOf(l, q) == PidOf(k, q)
    ensures Rep(next[WaitQ(p) := WaitQ(p)][Wait(p) := Wait(p)], prev[WaitQ(p) := WaitQ(p)][Wait(p) := Wait(p)], l)
  {
    var next', prev' := next[WaitQ(p) := WaitQ(p)][Wait(p) := Wait(p)], prev[WaitQ(p) := WaitQ(p)][Wait(p) := Wait(p)];
    RingSame(next, prev, next', prev', RunQ, Runs(k.run));
    RingSame(next, prev, next', prev', FreeQ, Frees(k.free));
    assert Waits(Waiters(k, p)) == [];
    LoneRing(next', prev', WaitQ(p));
    LoneRing(next', prev', Wait(p));
    forall r | Made(l, r) ensures QueueOf(next', prev', l, r) {
      if r != p {
        assert Made(k, r) && QueueOf(next, prev, k, r);
        assert p !in Waiters(k, r);
        RingSame(next, prev, next', prev', WaitQ(r), Waits(Waiters(k, r)));
      }
    }
    forall q | Made(l, q) && Unlinked(l, q) ensures Alone(next', prev', q) {
      if q != p {
        assert Made(k, q) && Unlinked(k, q) && Alone(next, prev, q);
        RingSame(next, prev, next', prev', Wait(q), []);
      }
    }
  }

  lemma LoneRing(next: Map, prev: Map, n: Node)
    requires At(next, n) == n && At(prev, n) == n
    ensures Ring(next, prev, n, [])
  {
  }

  lemma NoneMade(next: Map, prev: Map, k: Kernel)
    requires Ring(next, prev, RunQ, []) && Ring(next, prev, FreeQ, []) && k.run == [] && k.free == []
    requires forall p :: !Made(k, p)
    ensures Rep(next, prev, k)
  {
    assert Runs([]) == [] && Frees([]) == [];
  }

  /** What a walk over the queue of `p` reads. */
  lemma QueueMapped(next: Map, prev: Map, k: Kernel, p: int)
    requires Rep(next, prev, k) && Made(k, p)
    ensures var xs := Waits(Waiters(k, p));
      && WaitQ(p) in next && next[WaitQ(p)] == Pos(WaitQ(p), xs, 1)
      && forall i :: 0 <= i < |xs| ==> xs[i] in next && xs[i] in prev && next[xs[i]] == Pos(WaitQ(p), xs, i + 2)
  {
    assert QueueOf(next, prev, k, p);
    RingMapped(next, prev, WaitQ(p), Waits(Waiters(k, p)));
  }

  lemma LiveMade(k: Kernel, p: int)
    requires Ok(k) && Live(k, p)
    ensures Made(k, p) && OneQueue(k) && forall q :: q in Waiters(k, p) ==> IsSlot(q)
  {
    assert PidOk(k, p);
  }

  lemma OneQueueSame(k: Kernel, l: Kernel)
    requires OneQueue(k) && l.waiting == k.waiting
    ensures OneQueue(l) && forall q :: Unlinked(k, q) ==> Unlinked(l, q)
  {
    assert forall p :: Waiters(l, p) == Waiters(k, p);
  }

  lemma WakeEmpties(k: Kernel, p: int)
    requires Ok(k) && Made(k, p)
    ensures Waiters(Wake(k, p), p) == [] && Made(Wake(k, p), p) && SameSlots(k, Wake(k, p))
  {
    WakeMeans(k, p);
  }

  /** The links of an empty queue: setting them up again changes nothing. */
  lemma EmptyQueueAlone(next: Map, prev: Map, k: Kernel, p: int)
    requires Rep(next, prev, k) && Made(k, p) && Waiters(k, p) == []
    ensures next[WaitQ(p) := WaitQ(p)] == next && prev[WaitQ(p) := WaitQ(p)] == prev
  {
    assert QueueOf(next, prev, k, p) && Waits([]) == [];
    InitAlone(next, prev, WaitQ(p));
  }

  /** Setting up again the nodes of a slot that is off every queue. */
  lemma ReinitNodes(next: Map, prev: Map, k: Kernel, p: int)
    requires Rep(next, prev, k) && IsSlot(p) && Detached(k, p) && p !in k.run && p !in k.free
    ensures Rep(InitAll(next, p), InitAll(prev, p), k)
  {
    NewNodes(next, prev, k, k, p);
  }

  function InitAll(m: Map, p: int): Map {
    m[WaitQ(p) := WaitQ(p)][Wait(p) := Wait(p)][Run(p) := Run(p)][Free(p) := Free(p)]
  }

  /** The same, for a slot that gets its first pid with it. */
  lemma NewNodes(next: Map, prev: Map, k: Kernel, l: Kernel, p: int)
    requires Rep(next, prev, k) && IsSlot(p) && Detached(k, p) && p !in k.run && p !in k.free
    requires l.run == k.run && l.free == k.free && l.waiting == k.waiting && forall q :: q != p ==> PidOf(l, q) == PidOf(k, q)
    ensures Rep(InitAll(next, p), InitAll(prev, p), l)
  {
    hide Rep;
    InitWaitNodes(next, prev, k, l, p);
    var next', prev' := next[WaitQ(p) := WaitQ(p)][Wait(p) := Wait(p)], prev[WaitQ(p) := WaitQ(p)][Wait(p) := Wait(p)];
    InitRunNode(next', prev', l, p);
    InitFreeNode(next'[Run(p) := Run(p)], prev'[Run(p) := Run(p)], l, p);
  }

  lemma FirstFree(k: Kernel)
    requires Ok(k) && k.free != []
    ensures var p := k.free[0]; IsSlot(p) && Detached(k, p) && p !in k.run && p !in k.free[1..] && k.rp != Slot(p)
  {
    var p := k.free[0];
    assert InOnePlace(k, p) && PidOk(k, p) && Detached(k, p);
  }

  lemma DetachedSame(k: Kernel, l: Kernel, p: int)
    requires Detached(k, p) && l.waiting == k.waiting
    ensures Detached(l, p)
  {
  }

  lemma TableMade(k: Kernel, pid: int)
    requires Ok(k) && Has(k.table, pid)
    ensures Made(k, k.table[pid]) && OneQueue(k) && Shaped(k)
  {
  }

  lemma AloneMapped(next: Map, prev: Map, k: Kernel, q: int)
    requires Rep(next, prev, k) && Made(k, q) && Unlinked(k, q)
    ensures Ring(next, prev, Wait(q), []) && Wait(q) in next && Wait(q) in prev
  {
    assert Alone(next, prev, q);
    RingMapped(next, prev, Wait(q), []);
  }

  // ----- leaving whatever queue a process waits in

  lemma {:induction false} DropAbsent(xs: seq<int>, x: int)
    requires x !in xs
    ensures Drop(xs, x) == xs
  {
    if xs != [] { DropAbsent(xs[1..], x); }
  }

  lemma {:induction false} DropIsRemoval(xs: seq<int>, i: nat)
    requires NoDup(xs) && i < |xs|
    ensures Drop(xs, xs[i]) == RemoveAt(xs, i)
  {
    if i > 0 {
      assert NoDup(xs[1..]);
      DropIsRemoval(xs[1..], i - 1);
      assert RemoveAt(xs, i) == [xs[0]] + RemoveAt(xs[1..], i - 1);
    }
  }

  /** Leaving all queues is leaving the one queue, or none. */
  lemma LeaveMapped(next: Map, prev: Map, k: Kernel, p: int)
    requires Rep(next, prev, k) && Ok(k) && Made(k, p)
    ensures var n := Wait(p);
      n in next && n in prev && Rep(CutNext(next, prev, n, n), CutPrev(next, prev, n, n), k.(waiting := Unwait(k.waiting, p)))
  {
    if Unlinked(k, p) {
      forall r | 0 <= r < |k.waiting| ensures Drop(k.waiting[r], p) == k.waiting[r] { DropAbsent(k.waiting[r], p); }
      assert Unwait(k.waiting, p) == k.waiting;
      assert Alone(next, prev, p);
      InitAlone(next, prev, Wait(p));
    } else {
      var r :| 0 <= r < |k.waiting| && p in k.waiting[r];
      var i :| 0 <= i < |k.waiting[r]| && k.waiting[r][i] == p;
      WaitedOnMade(k, r);
      DropIsRemoval(k.waiting[r], i);
      forall s | 0 <= s < |k.waiting| && s != r ensures Drop(k.waiting[s], p) == k.waiting[s] { DropAbsent(k.waiting[s], p); }
      assert Unwait(k.waiting, p) == k.waiting[r := RemoveAt(k.waiting[r], i)];
      WaitCut(next, prev, k, r, i);
    }
  }

  lemma WaitedOnMade(k: Kernel, r: int)
    requires Ok(k) && IsSlot(r) && Waiters(k, r) != []
    ensures Made(k, r) && OneQueue(k)
  {
    assert StateOf(k, r) == Dead ==> Detached(k, r);
    assert PidOk(k, r);
  }

  /** What a walk over the run queue reads. */
  lemma RunMapped(next: Map, prev: Map, k: Kernel)
    requires Rep(next, prev, k)
    ensures var xs := Runs(k.run);
      && RunQ in next && next[RunQ] == Pos(RunQ, xs, 1)
      && forall i :: 0 <= i < |xs| ==> xs[i] in next && next[xs[i]] == Pos(RunQ, xs, i + 2)
  {
    RingMapped(next, prev, RunQ, Runs(k.run));
  }

  lemma QueuedIsLive(k: Kernel, i: nat)
    requires Ok(k) && i < |k.run|
    ensures IsSlot(k.run[i]) && Live(k, k.run[i])
  {
  }

  lemma DeadInQueue(k: Kernel, i: nat)
    requires Ok(k) && i < |k.run| && StateOf(k, k.run[i]) == Dead
    ensures var p := k.run[i]; Made(k, p) && Detached(k, p) && p !in RemoveAt(k.run, i) && p !in k.free
  {
    var p := k.run[i];
    assert Live(k, p) && PidOk(k, p) && InOnePlace(k, p) && Detached(k, p);
  }

  /** The test on the runner's own node, made before it waits, succeeds exactly when it is in no wait queue. */
  lemma AloneExactly(next: Map, prev: Map, k: Kernel, q: int)
    requires Rep(next, prev, k) && Ok(k) && Made(k, q)
    ensures At(next, Wait(q)) == Wait(q) <==> Unlinked(k, q)
  {
    if Unlinked(k, q) {
      AloneMapped(next, prev, k, q);
      RingMapped(next, prev, Wait(q), []);
    } else {
      var r :| 0 <= r < |k.waiting| && q in k.waiting[r];
      var i :| 0 <= i < |k.waiting[r]| && k.waiting[r][i] == q;
      WaitedOnMade(k, r);
      QueueMapped(next, prev, k, r);
      assert QueueOf(next, prev, k, r);
    }
  }

  /** The own node of a used slot is linked somewhere. */
  lemma NodeMapped(next: Map, prev: Map, k: Kernel, q: int)
    requires Rep(next, prev, k) && Ok(k) && Made(k, q)
    ensures Wait(q) in next
  {
    if Unlinked(k, q) {
      AloneMapped(next, prev, k, q);
    } else {
      var r :| 0 <= r < |k.waiting| && q in k.waiting[r];
      var i :| 0 <= i < |k.waiting[r]| && k.waiting[r][i] == q;
      WaitedOnMade(k, r);
      QueueMapped(next, prev, k, r);
    }
  }
}
