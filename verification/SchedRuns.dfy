/** The steps of the kernel, its whole runs, and what every reachable state satisfies. */
module SchedRuns {
  import opened SchedModel
  import opened SchedInvariant
  import opened SchedSteps

  // ----- the remaining steps

  lemma DropMeans(xs: seq<int>, x: int)
    requires NoDup(xs)
    ensures NoDup(Drop(xs, x)) && forall y :: y in Drop(xs, x) <==> y in xs && y != x
  {
    if xs != [] {
      assert xs == [xs[0]] + xs[1..];
      assert NoDup(xs[1..]);
      if xs[0] != x {
        DropMeans(xs[1..], x);
        var d := Drop(xs[1..], x);
        assert xs[0] !in d;
        assert NoDup([xs[0]] + d);
      }
    }
  }

  /** Leaving every wait queue. */
  lemma UnwaitOk(k: Kernel, q: int)
    requires Ok(k) && IsSlot(q)
    ensures var l := k.(waiting := Unwait(k.waiting, q)); Ok(l) && PidsKept(k, l) && SameSlots(k, l) && Unlinked(l, q)
  {
    var l := k.(waiting := Unwait(k.waiting, q));
    forall p | IsSlot(p) ensures NoDup(l.waiting[p]) && forall y :: y in l.waiting[p] <==> y in k.waiting[p] && y != q {
      DropMeans(k.waiting[p], q);
    }
    SameSlotsOk(k, l);
    forall r | IsSlot(r) && StateOf(l, r) == Dead ensures Detached(l, r) { assert Detached(k, r); }
  }

  lemma ExitedOk(k: Kernel)
    requires Ok(k) && k.rp.Slot?
    ensures Ok(Exited(k)) && PidsKept(k, Exited(k)) && StateOf(Exited(k), k.rp.slot) == Dead
  {
    hide Ok, PidsKept, Wake;
    var r := k.rp.slot;
    LiveIsSlot(k, r);
    WakeOk(k, r);
    var k1 := Wake(k, r);
    UnwaitOk(k1, r);
    var k2 := k1.(waiting := Unwait(k1.waiting, r));
    assert k2.waiting[r] == Drop([], r);
    SetStateOk(k2, r, Dead);
    PidsKeptChain(k, k1, k2);
    PidsKeptChain(k, k2, Exited(k));
  }

  lemma WaitedForOk(k: Kernel, pid: int)
    requires Ok(k) && k.rp.Slot? && 0 <= pid <= MAXPROC && Has(k.table, pid)
    requires StateOf(k, k.table[pid]) != Dead && StateOf(k, k.rp.slot) != Dead && Unlinked(k, k.rp.slot)
    ensures Ok(WaitedFor(k, pid)) && PidsKept(k, WaitedFor(k, pid))
  {
    var r, p := k.rp.slot, k.table[pid];
    LiveIsSlot(k, r);
    AddWaiterOk(k, p, r);
    var l := k.(waiting := k.waiting[p := [r] + k.waiting[p]]);
    SetStateOk(l, r, Waiting);
    PidsKeptChain(k, l, WaitedFor(k, pid));
  }

  /**
   * Waiting is in order exactly when the process waited for has not died, whose wait queue is
   * reset without being drained, and the runner is in no wait queue yet.
   */
  lemma WaitForExactly(k: Kernel, pid: int)
    requires Ok(k) && IsRunning(k) && 0 <= pid <= MAXPROC && Has(k.table, pid)
    ensures Ok(WaitedFor(k, pid)) <==> StateOf(k, k.table[pid]) != Dead && Unlinked(k, k.rp.slot)
  {
    var p, r, l := k.table[pid], k.rp.slot, WaitedFor(k, pid);
    if StateOf(k, p) == Dead {
      assert Detached(k, p);
      assert l.waiting[p][0] == r && !Detached(l, p);
    } else if Unlinked(k, r) {
      WaitedForOk(k, pid);
    } else {
      var q :| 0 <= q < |k.waiting| && r in k.waiting[q];
      assert l.waiting[p] == [r] + k.waiting[p];
      assert l.waiting[p][0] == r;
      if q == p {
        var j :| 0 <= j < |k.waiting[p]| && k.waiting[p][j] == r;
        assert l.waiting[p][j + 1] == r;
      } else {
        assert r in l.waiting[p] && r in l.waiting[q];
      }
    }
  }

  ghost predicate IsRunning(k: Kernel) {
    k.rp.Slot? && StateOf(k, k.rp.slot) == Running
  }

  lemma PostedOk(k: Kernel, pid: int, sig: Sigs)
    requires Ok(k)
    ensures Ok(Posted(k, pid, sig)) && PidsKept(k, Posted(k, pid, sig))
  {
    KeptSelf(k);
    if 0 <= pid <= MAXPROC && Has(k.table, pid) {
      var p := k.table[pid];
      SetPendingOk(k, p, Union(k.procs[p].pending, Minus(sig, k.procs[p].mask)));
    }
  }

  lemma MaskedOk(k: Kernel, mask: Sigs)
    requires Ok(k)
    ensures Ok(Masked(k, mask)) && PidsKept(k, Masked(k, mask))
  {
    var l := Masked(k, mask);
    SameSlotsOk(k, l);
    ShrunkWaitsOk(k, l);
  }

  /** The runner as it is when its signals are looked at. */
  function Preempted(k: Kernel): Kernel {
    if k.rp.Slot? && StateOf(k, k.rp.slot) == Running then SetState(k, k.rp.slot, Ready) else k
  }

  lemma YieldedOk(k: Kernel)
    requires Ok(k) && (k.rp.Slot? ==> SignalSafe(Preempted(k), k.rp.slot))
    ensures Ok(Yielded(k)) && PidsKept(k, Yielded(k)) && Yielded(k).rp == Bad
  {
    hide Ok, PidsKept, Signalled, SignalSafe;
    KeptSelf(k);
    if k.rp.Slot? {
      var r := k.rp.slot;
      LiveIsSlot(k, r);
      var k1 := Preempted(k);
      if k1 != k { SetStateOk(k, r, Ready); }
      SignalledOk(k1, r);
      var k2 := Signalled(k1, r);
      QueuedOk(k2, r);
      PidsKeptChain(k, k1, k2);
      PidsKeptChain(k, k2, Yielded(k));
    } else {
      NobodyOk(k);
    }
  }

  lemma NobodyOk(k: Kernel)
    requires Ok(k) && !k.rp.Slot?
    ensures Ok(k.(rp := Bad)) && PidsKept(k, k.(rp := Bad))
  {
    var l := k.(rp := Bad);
    forall j | IsSlot(j) ensures InOnePlace(l, j) { assert InOnePlace(k, j); }
    SamePids(k, l);
    forall r | IsSlot(r) && StateOf(l, r) == Dead ensures Detached(l, r) { assert Detached(k, r); }
  }

  lemma PickedOk(k: Kernel)
    requires Ok(k) && k.rp == Bad && ScanSafe(k, 0)
    ensures Ok(Picked(k)) && PidsKept(k, Picked(k))
    ensures Picked(k).rp.Slot? ==> StateOf(Picked(k), Picked(k).rp.slot) == Running
  {
    hide Ok, PidsKept, Scan, ScanSafe;
    ScanOk(k, 0);
    var Scanned(l, pick) := Scan(k, 0);
    if pick.Slot? {
      LiveIsSlot(l, pick.slot);
      SetStateOk(l, pick.slot, Running);
      PidsKeptChain(k, l, Picked(k));
    }
  }

  // ----- runs

  datatype Step = Spawn | Exit | Sleep | WaitFor(pid: int) | Mask(mask: Sigs) | Post(pid: int, sig: Sigs) | Yield | Look

  function Slept(k: Kernel): Kernel {
    if k.rp.Slot? then SetState(k, k.rp.slot, Waiting) else k
  }

  function After(k: Kernel, s: Step): Kernel
    requires s == Spawn ==> k.free != []
  {
    match s
    case Spawn => Spawned(k)
    case Exit => Exited(k)
    case Sleep => Slept(k)
    case WaitFor(pid) => WaitedFor(k, pid)
    case Mask(mask) => Masked(k, mask)
    case Post(pid, sig) => Posted(k, pid, sig)
    case Yield => Yielded(k)
    case Look => Picked(k)
  }

  /** What the kernel asks of its callers at each step. */
  ghost predicate Allowed(k: Kernel, s: Step) {
    match s
    case Spawn => RoomForPid(k) && k.rp != Bad
    case Exit => IsRunning(k)
    case Sleep => IsRunning(k)
    case WaitFor(pid) =>
      IsRunning(k) && (0 <= pid <= MAXPROC ==>
        Has(k.table, pid) && StateOf(k, k.table[pid]) != Dead && Unlinked(k, k.rp.slot))
    case Mask(_) => IsRunning(k)
    case Post(pid, sig) => 0 <= pid <= MAXPROC ==> Has(k.table, pid)
    case Yield => k.rp != Bad && (k.rp.Slot? ==> SignalSafe(Preempted(k), k.rp.slot))
    case Look => k.rp == Bad && ScanSafe(k, 0)
  }

  lemma StepOk(k: Kernel, s: Step)
    requires Ok(k) && Allowed(k, s)
    ensures Ok(After(k, s)) && PidsKept(k, After(k, s))
  {
    hide Ok, PidsKept, ScanSafe, SignalSafe, Scan, Wake, Unlinked;
    KeptSelf(k);
    match s
    case Spawn => SpawnedOk(k);
    case Exit => ExitedOk(k);
    case Sleep => SetStateOk(k, k.rp.slot, Waiting);
    case WaitFor(pid) => if 0 <= pid <= MAXPROC { WaitedForOk(k, pid); }
    case Mask(mask) => MaskedOk(k, mask);
    case Post(pid, sig) => PostedOk(k, pid, sig);
    case Yield => YieldedOk(k);
    case Look => PickedOk(k);
  }

  ghost predicate AllowedRun(k: Kernel, steps: seq<Step>)
    decreases |steps|
  {
    steps != [] ==> Allowed(k, steps[0]) && AllowedRun(After(k, steps[0]), steps[1..])
  }

  ghost function Final(k: Kernel, steps: seq<Step>): Kernel
    requires AllowedRun(k, steps)
    decreases |steps|
  {
    if steps == [] then k else Final(After(k, steps[0]), steps[1..])
  }

  /** At boot every slot is free, the last made first, and none has a pid. */
  function Boot(): Kernel {
    Kernel(seq(MAXPROC, i => Proc(0, 0, Dead, NONE, NONE)), seq(MAXPROC, i => MAXPROC - 1 - i), [],
           seq(MAXPROC, i => []), seq(MAXPROC, i => NOPROC), 0, Nobody)
  }

  lemma BootOk()
    ensures Ok(Boot())
  {
    var k := Boot();
    assert SlotsOk(k) by { BootSlots(); }
    assert PidsOk(k) by {
      forall i | IsSlot(i) ensures PidOk(k, i) { BootSlots(); }
      assert forall i :: PidOf(k, i) == 0;
      assert Given(k) == {};
    }
    assert WaitsOk(k);
  }

  lemma BootSlots()
    ensures SlotsOk(Boot()) && forall i :: !Live(Boot(), i)
  {
    var k := Boot();
    forall i | IsSlot(i) ensures InOnePlace(k, i) {
      assert k.free[MAXPROC - 1 - i] == i;
    }
  }

  /** Every reachable state is in order, and a pid once given stays with its slot. */
  lemma {:induction false} RunOk(k: Kernel, steps: seq<Step>)
    requires Ok(k) && AllowedRun(k, steps)
    ensures Ok(Final(k, steps)) && PidsKept(k, Final(k, steps))
    decreases |steps|
  {
    hide Ok, PidsKept, After, ScanSafe, SignalSafe, Unlinked;
    KeptSelf(k);
    if steps != [] {
      StepOk(k, steps[0]);
      var l := After(k, steps[0]);
      RunOk(l, steps[1..]);
      PidsKeptChain(k, l, Final(l, steps[1..]));
    }
  }

  /** In every state reached from boot: one place per slot, distinct pids that all have an entry in the table, and exact entries. */
  lemma Reachable(steps: seq<Step>)
    requires AllowedRun(Boot(), steps)
    ensures var k := Final(Boot(), steps);
      && Shaped(k) && NoDup(k.free) && NoDup(k.run)
      && (forall i :: IsSlot(i) ==> InOnePlace(k, i))
      && (forall i :: IsSlot(i) ==> 0 <= PidOf(k, i) < MAXPROC == |k.table|)
      && (forall i, j :: IsSlot(i) && IsSlot(j) && i != j && PidOf(k, i) == PidOf(k, j) ==> PidOf(k, i) == 0)
      && (forall i :: IsSlot(i) && Live(k, i) ==> Has(k.table, PidOf(k, i)) && k.table[PidOf(k, i)] == i)
      && (forall q :: Has(k.table, q) ==> IsSlot(k.table[q]) && Live(k, k.table[q]) && PidOf(k, k.table[q]) == q)
      && (forall i :: IsSlot(i) && i in k.free ==> StateOf(k, i) == Dead)
  {
    BootOk();
    RunOk(Boot(), steps);
    var k := Final(Boot(), steps);
    PidBound(k);
    forall i | IsSlot(i)
      ensures InOnePlace(k, i) && (Live(k, i) ==> Has(k.table, PidOf(k, i)) && k.table[PidOf(k, i)] == i)
        && (i in k.free ==> StateOf(k, i) == Dead)
    {
      assert InOnePlace(k, i) && PidOk(k, i);
    }
    forall q | Has(k.table, q) ensures IsSlot(k.table[q]) && Live(k, k.table[q]) && PidOf(k, k.table[q]) == q {
      assert PidOk(k, k.table[q]);
    }
  }
}
