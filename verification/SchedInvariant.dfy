/** What every reachable state of the process table satisfies. */
module SchedInvariant {
  import opened Sequences
  import opened SchedModel

  predicate NoDup(xs: seq<int>) {
    forall i, j :: 0 <= i < j < |xs| ==> xs[i] != xs[j]
  }

  predicate Live(k: Kernel, i: int) { i in k.run || k.rp == Slot(i) }

  /** A slot is on the free list, on the run queue, or running: exactly one of them. */
  predicate InOnePlace(k: Kernel, i: int) {
    || (i in k.free && i !in k.run && k.rp != Slot(i))
    || (i !in k.free && i in k.run && k.rp != Slot(i))
    || (i !in k.free && i !in k.run && k.rp == Slot(i))
  }

  ghost predicate SlotsOk(k: Kernel) {
    && Shaped(k) && NoDup(k.free) && NoDup(k.run)
    && (forall i :: i in k.free || i in k.run || k.rp == Slot(i) ==> IsSlot(i))
    && (forall i {:trigger InOnePlace(k, i)} :: IsSlot(i) ==> InOnePlace(k, i))
  }

  /** A slot's pid, once given, is its own; the table has it exactly while the slot is live. */
  ghost predicate PidOk(k: Kernel, i: int) {
    && 0 <= PidOf(k, i) <= k.nextPid
    && (Live(k, i) ==> 1 <= PidOf(k, i) && Has(k.table, PidOf(k, i)) && k.table[PidOf(k, i)] == i && k.procs[i].ppid != PidOf(k, i))
    && (!Live(k, i) ==> !Has(k.table, PidOf(k, i)) && StateOf(k, i) == Dead)
  }

  ghost predicate PidsOk(k: Kernel)
    requires Shaped(k)
  {
    && (forall i {:trigger PidOk(k, i)} :: IsSlot(i) ==> PidOk(k, i))
    && (forall i, j {:trigger PidOf(k, i), PidOf(k, j)} ::
          IsSlot(i) && IsSlot(j) && i != j && PidOf(k, i) == PidOf(k, j) ==> PidOf(k, i) == 0)
    && (forall q :: Has(k.table, q) ==> 1 <= q && IsSlot(k.table[q]) && PidOf(k, k.table[q]) == q)
    && k.nextPid == |Given(k)| && k.nextPid < MAXPROC
  }

  /** The slots that have been given a pid. */
  ghost function Given(k: Kernel): set<int> {
    set i | 0 <= i < MAXPROC && PidOf(k, i) != 0
  }

  /** The process waits on nobody. */
  ghost predicate Unlinked(k: Kernel, q: int) {
    forall p :: 0 <= p < |k.waiting| ==> q !in k.waiting[p]
  }

  /** No wait queue involves the slot. */
  ghost predicate Detached(k: Kernel, p: int) {
    Waiters(k, p) == [] && Unlinked(k, p)
  }

  ghost predicate WaitsOk(k: Kernel)
    requires Shaped(k)
  {
    && (forall p :: IsSlot(p) ==> NoDup(k.waiting[p]))
    && (forall p, q :: IsSlot(p) && q in k.waiting[p] ==> IsSlot(q))
    && (forall p, r, q :: IsSlot(p) && IsSlot(r) && q in k.waiting[p] && q in k.waiting[r] ==> p == r)
    && (forall p {:trigger Detached(k, p)} :: IsSlot(p) && StateOf(k, p) == Dead ==> Detached(k, p))
  }

  ghost predicate Ok(k: Kernel) {
    SlotsOk(k) && PidsOk(k) && WaitsOk(k)
  }

  // ----- what a step asks

  /** Abort only reaches a process that waits on no other; continue, one whose parent is in the table and not waiting. */
  ghost predicate SignalSafe(k: Kernel, p: int) {
    && (Pending(k, p).abort ==> forall q :: 0 <= q < |k.waiting| && q != p ==> p !in k.waiting[q])
    && (!Pending(k, p).abort && !Pending(k, p).stop && Pending(k, p).cont ==>
          IsSlot(Parent(k, p)) && Unlinked(k, Parent(k, p)))
  }

  /** Every signal that a scan from position `i` delivers is safe when it is delivered. */
  ghost predicate ScanSafe(k: Kernel, i: nat)
    decreases |k.run| - i
  {
    i < |k.run| ==>
      var p := k.run[i];
      if StateOf(k, p) == Dead then
        RecycledRun(k, i);
        ScanSafe(Recycled(k.(run := RemoveAt(k.run, i)), p), i)
      else
        SignalledRun(k, p);
        SignalSafe(k, p) && (StateOf(Signalled(k, p), p) != Ready ==> ScanSafe(Signalled(k, p), i + 1))
  }

  // ----- pids outlive their processes

  ghost predicate PidsKept(k: Kernel, l: Kernel) {
    forall i {:trigger PidOf(l, i)} :: PidOf(k, i) != 0 ==> PidOf(l, i) == PidOf(k, i)
  }

  lemma PidsKeptChain(k: Kernel, l: Kernel, m: Kernel)
    requires PidsKept(k, l) && PidsKept(l, m)
    ensures PidsKept(k, m)
  {
    forall i | PidOf(k, i) != 0 ensures PidOf(m, i) == PidOf(k, i) {
      assert PidOf(l, i) == PidOf(k, i);
    }
  }

  // ----- steps that only change states and wait queues

  /** The same slots, pids and queues. */
  ghost predicate SameSlots(k: Kernel, l: Kernel) {
    && l.run == k.run && l.free == k.free && l.table == k.table && l.nextPid == k.nextPid && l.rp == k.rp
    && |l.procs| == |k.procs| && |l.waiting| == |k.waiting|
    && forall q :: 0 <= q < |k.procs| ==> l.procs[q].pid == k.procs[q].pid && l.procs[q].ppid == k.procs[q].ppid
  }

  lemma SameSlotsOk(k: Kernel, l: Kernel)
    requires SlotsOk(k) && PidsOk(k) && SameSlots(k, l)
    requires forall i :: IsSlot(i) && !Live(k, i) ==> StateOf(l, i) == StateOf(k, i)
    ensures SlotsOk(l) && PidsOk(l) && PidsKept(k, l)
  {
    forall i | IsSlot(i) ensures InOnePlace(l, i) { assert InOnePlace(k, i); }
    forall i | IsSlot(i) ensures PidOk(l, i) { assert PidOk(k, i); }
    forall i, j | IsSlot(i) && IsSlot(j) && i != j && PidOf(l, i) == PidOf(l, j) ensures PidOf(l, i) == 0 {
      assert PidOf(k, i) == PidOf(l, i) && PidOf(k, j) == PidOf(l, j);
    }
    forall q | Has(l.table, q) ensures 1 <= q && IsSlot(l.table[q]) && PidOf(l, l.table[q]) == q {}
    assert Given(l) == Given(k) by {
      forall i ensures i in Given(l) <==> i in Given(k) {}
    }
  }

  // ----- waking and signals

  lemma {:induction false} WakeMeans(k: Kernel, p: int)
    requires Shaped(k) && IsSlot(p) && forall q :: q in k.waiting[p] ==> IsSlot(q)
    ensures var w := Wake(k, p);
      && SameSlots(k, w) && w.waiting == k.waiting[p := []]
      && forall q :: IsSlot(q) ==> w.procs[q] == k.procs[q].(state := if q in k.waiting[p] then Ready else k.procs[q].state)
    decreases |Waiters(k, p)|
  {
    if k.waiting[p] != [] {
      var q := k.waiting[p][0];
      var k1 := SetState(k.(waiting := k.waiting[p := k.waiting[p][1..]]), q, Ready);
      assert k.waiting[p] == [q] + k.waiting[p][1..];
      WakeMeans(k1, p);
      assert k1.waiting[p := []] == k.waiting[p := []];
    } else {
      assert k.waiting[p := []] == k.waiting;
    }
  }

  lemma NonLiveIsDead(k: Kernel, i: int)
    requires SlotsOk(k) && PidsOk(k) && IsSlot(i) && StateOf(k, i) != Dead
    ensures Live(k, i)
  {
    assert PidOk(k, i);
  }

  /** Whoever waits is alive. */
  lemma WaiterIsLive(k: Kernel, p: int, q: int)
    requires Ok(k) && IsSlot(p) && q in k.waiting[p]
    ensures IsSlot(q) && StateOf(k, q) != Dead && Live(k, q)
  {
    assert StateOf(k, q) == Dead ==> Detached(k, q);
    NonLiveIsDead(k, q);
  }

  /** Emptying one queue, and changing states of slots that end not dead or detached, keeps the queues in order. */
  lemma ShrunkWaitsOk(k: Kernel, l: Kernel)
    requires Shaped(k) && WaitsOk(k) && Shaped(l)
    requires forall p :: IsSlot(p) ==> l.waiting[p] == k.waiting[p] || l.waiting[p] == []
    requires forall p :: IsSlot(p) && StateOf(l, p) == Dead ==> StateOf(k, p) == Dead || Detached(l, p)
    ensures WaitsOk(l)
  {
    forall p | IsSlot(p) && StateOf(l, p) == Dead ensures Detached(l, p) {
      if StateOf(k, p) == Dead { assert Detached(k, p); }
    }
  }

  lemma WakeOk(k: Kernel, p: int)
    requires Ok(k) && IsSlot(p)
    ensures Ok(Wake(k, p)) && PidsKept(k, Wake(k, p)) && SameSlots(k, Wake(k, p))
    ensures forall q :: IsSlot(q) ==> StateOf(Wake(k, p), q) == if q in k.waiting[p] then Ready else StateOf(k, q)
    ensures Wake(k, p).waiting == k.waiting[p := []]
  {
    WakeMeans(k, p);
    var w := Wake(k, p);
    forall i | IsSlot(i) && !Live(k, i) ensures StateOf(w, i) == StateOf(k, i) {
      if i in k.waiting[p] { WaiterIsLive(k, p, i); }
    }
    SameSlotsOk(k, w);
    ShrunkWaitsOk(k, w);
  }

  /** Changing the state of one live slot, which ends not dead or detached. */
  lemma SetStateOk(k: Kernel, p: int, s: State)
    requires Ok(k) && Live(k, p) && (s == Dead ==> Detached(k, p))
    ensures Ok(SetState(k, p, s)) && PidsKept(k, SetState(k, p, s)) && SameSlots(k, SetState(k, p, s))
  {
    var l := SetState(k, p, s);
    SameSlotsOk(k, l);
    if s == Dead { assert Detached(l, p); }
    ShrunkWaitsOk(k, l);
  }

  /** Clearing or adding pending signals. */
  lemma SetPendingOk(k: Kernel, p: int, s: Sigs)
    requires Ok(k) && IsSlot(p)
    ensures var l := k.(procs := k.procs[p := k.procs[p].(pending := s)]); Ok(l) && PidsKept(k, l) && SameSlots(k, l)
  {
    var l := k.(procs := k.procs[p := k.procs[p].(pending := s)]);
    SameSlotsOk(k, l);
    ShrunkWaitsOk(k, l);
  }

  /** A process that waits on nobody starts to wait on a live one. */
  lemma AddWaiterOk(k: Kernel, p: int, q: int)
    requires Ok(k) && IsSlot(p) && IsSlot(q) && Unlinked(k, q) && StateOf(k, p) != Dead && StateOf(k, q) != Dead
    ensures var l := k.(waiting := k.waiting[p := [q] + k.waiting[p]]); Ok(l) && PidsKept(k, l) && SameSlots(k, l)
  {
    var l := k.(waiting := k.waiting[p := [q] + k.waiting[p]]);
    SameSlotsOk(k, l);
    forall r | IsSlot(r) && StateOf(l, r) == Dead ensures Detached(l, r) {
      assert Detached(k, r);
    }
  }

  lemma ParentIsOther(k: Kernel, p: int)
    requires Ok(k) && Live(k, p) && Parent(k, p) != -1
    ensures Parent(k, p) != p
  {
    assert IsSlot(p) && PidOk(k, p);
  }

  lemma SignalledOk(k: Kernel, p: int)
    requires Ok(k) && Live(k, p) && SignalSafe(k, p)
    ensures Ok(Signalled(k, p)) && PidsKept(k, Signalled(k, p)) && SameSlots(k, Signalled(k, p))
  {
    hide Ok, PidsKept, Wake, SameSlots;
    LiveIsSlot(k, p);
    var s := Pending(k, p);
    if s.abort || s.stop {
      WakeOk(k, p);
      var w := Wake(k, p);
      StillLive(k, w, p);
      if s.abort { AbortDetaches(k, p); }
      SetStateOk(w, p, if s.abort then Dead else Stopped);
      Clear(k, w, SetState(w, p, if s.abort then Dead else Stopped), p);
    } else if s.cont {
      ContinuedOk(k, p);
    } else if s.alarm {
      SetStateOk(k, p, Ready);
      Clear(k, k, SetState(k, p, Ready), p);
    } else {
      Clear(k, k, k, p);
    }
  }

  lemma LiveIsSlot(k: Kernel, p: int)
    requires Ok(k) && Live(k, p)
    ensures IsSlot(p) && Shaped(k)
  {
  }

  lemma StillLive(k: Kernel, l: Kernel, p: int)
    requires SameSlots(k, l) && Live(k, p)
    ensures Live(l, p)
  {
  }

  /** With its own queue emptied, a slot is detached just when it waits on no other. */
  lemma EmptiedDetached(k: Kernel, l: Kernel, p: int)
    requires 0 <= p < |k.waiting| && l.waiting == k.waiting[p := []]
    ensures Detached(l, p) <==> forall q :: 0 <= q < |k.waiting| && q != p ==> p !in k.waiting[q]
  {
    if Detached(l, p) {
      forall q | 0 <= q < |k.waiting| && q != p ensures p !in k.waiting[q] { assert p !in l.waiting[q]; }
    }
  }

  /** The last store of a delivery: nothing is pending any more. */
  lemma Clear(k: Kernel, l: Kernel, m: Kernel, p: int)
    requires Ok(m) && IsSlot(p)
    requires (k == l || (PidsKept(k, l) && SameSlots(k, l))) && (l == m || (PidsKept(l, m) && SameSlots(l, m)))
    ensures var n := m.(procs := m.procs[p := m.procs[p].(pending := NONE)]); Ok(n) && PidsKept(k, n) && SameSlots(k, n)
  {
    SetPendingOk(m, p, NONE);
    PidsKeptChain(k, l, m);
    PidsKeptChain(k, m, m.(procs := m.procs[p := m.procs[p].(pending := NONE)]));
  }

  lemma ContinuedOk(k: Kernel, p: int)
    requires Ok(k) && Live(k, p) && SignalSafe(k, p)
    requires !Pending(k, p).abort && !Pending(k, p).stop && Pending(k, p).cont
    ensures Ok(Signalled(k, p)) && PidsKept(k, Signalled(k, p)) && SameSlots(k, Signalled(k, p))
  {
    hide Ok, PidsKept;
    LiveIsSlot(k, p);
    var par := Parent(k, p);
    ParentIsOther(k, p);
    SetStateOk(k, p, Ready);
    var k1 := SetState(k, p, Ready);
    ParentLive(k, p);
    SetStateOk(k1, par, Waiting);
    var k2 := SetState(k1, par, Waiting);
    AddWaiterOk(k2, p, par);
    var k3 := k2.(waiting := k2.waiting[p := [par] + k2.waiting[p]]);
    PidsKeptChain(k, k1, k2);
    PidsKeptChain(k, k2, k3);
    Clear(k, k3, k3, p);
  }

  /** A pid in the table belongs to a live slot. */
  lemma ParentLive(k: Kernel, p: int)
    requires Ok(k) && IsSlot(Parent(k, p))
    ensures Live(k, Parent(k, p))
  {
    assert PidOk(k, Parent(k, p));
  }

  lemma AbortDetaches(k: Kernel, p: int)
    requires Ok(k) && IsSlot(p) && SignalSafe(k, p) && Pending(k, p).abort
    ensures Detached(Wake(k, p), p)
  {
    WakeOk(k, p);
    EmptiedDetached(k, Wake(k, p), p);
  }

  /** The condition on a signal is exact: without it the delivery breaks the wait queues. */
  lemma SignalSafeExactly(k: Kernel, p: int)
    requires Ok(k) && Live(k, p)
    ensures Ok(Signalled(k, p)) <==> SignalSafe(k, p)
  {
    LiveIsSlot(k, p);
    if SignalSafe(k, p) {
      SignalledOk(k, p);
    } else if Pending(k, p).abort {
      AbortUnsafe(k, p);
    } else {
      ContinueUnsafe(k, p);
    }
  }

  lemma AbortUnsafe(k: Kernel, p: int)
    requires Ok(k) && IsSlot(p) && Pending(k, p).abort && !SignalSafe(k, p)
    ensures !Ok(Signalled(k, p))
  {
    WakeMeans(k, p);
    var l := Signalled(k, p);
    EmptiedDetached(k, l, p);
    assert StateOf(l, p) == Dead && !Detached(l, p);
  }

  lemma ContinueUnsafe(k: Kernel, p: int)
    requires Ok(k) && IsSlot(p) && !Pending(k, p).abort && !SignalSafe(k, p)
    ensures !Ok(Signalled(k, p))
  {
    var l, par := Signalled(k, p), Parent(k, p);
    assert l.waiting == k.waiting[p := [par] + k.waiting[p]];
    assert l.waiting[p][0] == par;
    if IsSlot(par) {
      var r :| 0 <= r < |k.waiting| && par in k.waiting[r];
      if r == p {
        var j :| 0 <= j < |k.waiting[p]| && k.waiting[p][j] == par;
        assert l.waiting[p][j + 1] == par;
      } else {
        assert par in l.waiting[p] && par in l.waiting[r];
      }
    }
  }
}
