/**
 * Recycling, queueing, scanning and spawning keep the invariant: a slot moves from one place to
 * another and takes its pid along. And which pids a spawn can give, and when there is room for one.
 */
module SchedSteps {
  import opened Sequences
  import opened SchedModel
  import opened SchedInvariant

  // ----- moving a slot between places

  lemma RemoveAtMeans(xs: seq<int>, i: nat)
    requires i < |xs| && NoDup(xs)
    ensures NoDup(RemoveAt(xs, i)) && forall x :: x in RemoveAt(xs, i) <==> x in xs && x != xs[i]
  {
    var ys := RemoveAt(xs, i);
    forall x | x in xs && x != xs[i] ensures x in ys {
      var j :| 0 <= j < |xs| && xs[j] == x;
      assert ys[if j < i then j else j - 1] == x;
    }
  }

  lemma AppendMeans(xs: seq<int>, x: int)
    requires NoDup(xs) && x !in xs
    ensures NoDup(xs + [x]) && forall y :: y in xs + [x] <==> y in xs || y == x
  {
  }

  /** The dead process at position `i` of the run queue goes back to the free list. */
  lemma RecycledOk(k: Kernel, i: nat)
    requires Ok(k) && i < |k.run| && StateOf(k, k.run[i]) == Dead
    ensures var l := Recycled(k.(run := RemoveAt(k.run, i)), k.run[i]); Ok(l) && PidsKept(k, l) && l.rp == k.rp
  {
    var p := k.run[i];
    var l := Recycled(k.(run := RemoveAt(k.run, i)), p);
    RemoveAtMeans(k.run, i);
    assert InOnePlace(k, p) && PidOk(k, p) && Live(k, p);
    AppendMeans(k.free, p);
    RecycledSlots(k, i, l);
    RecycledPids(k, i, l);
    forall r | IsSlot(r) && StateOf(l, r) == Dead ensures Detached(l, r) {
      assert Detached(k, r);
    }
  }

  lemma RecycledSlots(k: Kernel, i: nat, l: Kernel)
    requires Ok(k) && i < |k.run| && l == Recycled(k.(run := RemoveAt(k.run, i)), k.run[i])
    requires NoDup(l.run) && NoDup(l.free) && forall x :: x in l.run <==> x in k.run && x != k.run[i]
    requires IsSlot(k.run[i])
    ensures SlotsOk(l)
  {
    forall j | IsSlot(j) ensures InOnePlace(l, j) { assert InOnePlace(k, j) && InOnePlace(k, k.run[i]); }
  }

  lemma RecycledPids(k: Kernel, i: nat, l: Kernel)
    requires Ok(k) && i < |k.run| && l == Recycled(k.(run := RemoveAt(k.run, i)), k.run[i])
    requires forall x :: x in l.run <==> x in k.run && x != k.run[i]
    requires IsSlot(k.run[i]) && k.rp != Slot(k.run[i])
    ensures PidsOk(l) && PidsKept(k, l)
  {
    var p := k.run[i];
    forall j | IsSlot(j) ensures PidOk(l, j) {
      assert PidOk(k, j) && PidOk(k, p);
      assert PidOf(k, j) == PidOf(k, p) && j != p ==> PidOf(k, j) == 0;
    }
    forall a, b | IsSlot(a) && IsSlot(b) && a != b && PidOf(l, a) == PidOf(l, b) ensures PidOf(l, a) == 0 {
      assert PidOf(k, a) == PidOf(l, a) && PidOf(k, b) == PidOf(l, b);
    }
    assert Given(l) == Given(k);
  }

  /** The ready process at position `i` leaves the run queue to run. */
  lemma TakenOk(k: Kernel, i: nat)
    requires Ok(k) && i < |k.run| && k.rp == Bad
    ensures var l := k.(run := RemoveAt(k.run, i), rp := Slot(k.run[i])); Ok(l) && PidsKept(k, l)
  {
    var p := k.run[i];
    var l := k.(run := RemoveAt(k.run, i), rp := Slot(p));
    RemoveAtMeans(k.run, i);
    forall j | IsSlot(j) ensures InOnePlace(l, j) { assert InOnePlace(k, j) && InOnePlace(k, p); }
    SamePids(k, l);
    forall r | IsSlot(r) && StateOf(l, r) == Dead ensures Detached(l, r) { assert Detached(k, r); }
  }

  /** The running process joins the end of the run queue. */
  lemma QueuedOk(k: Kernel, r: int)
    requires Ok(k) && k.rp == Slot(r)
    ensures var l := k.(run := k.run + [r], rp := Bad); Ok(l) && PidsKept(k, l)
  {
    var l := k.(run := k.run + [r], rp := Bad);
    assert InOnePlace(k, r);
    AppendMeans(k.run, r);
    forall j | IsSlot(j) ensures InOnePlace(l, j) { assert InOnePlace(k, j); }
    SamePids(k, l);
    forall q | IsSlot(q) && StateOf(l, q) == Dead ensures Detached(l, q) { assert Detached(k, q); }
  }

  lemma SamePids(k: Kernel, l: Kernel)
    requires Ok(k) && Shaped(l) && l.procs == k.procs && l.table == k.table && l.nextPid == k.nextPid
    requires forall j :: IsSlot(j) ==> (Live(k, j) <==> Live(l, j))
    ensures PidsOk(l) && PidsKept(k, l)
  {
    forall j | IsSlot(j) ensures PidOk(l, j) { assert PidOk(k, j); }
    forall a, b | IsSlot(a) && IsSlot(b) && a != b && PidOf(l, a) == PidOf(l, b) ensures PidOf(l, a) == 0 {
      assert PidOf(k, a) == PidOf(l, a) && PidOf(k, b) == PidOf(l, b);
    }
    assert Given(l) == Given(k);
  }

  // ----- the scan

  lemma {:induction false} ScanOk(k: Kernel, i: nat)
    requires Ok(k) && k.rp == Bad && ScanSafe(k, i)
    ensures Ok(Scan(k, i).kernel) && PidsKept(k, Scan(k, i).kernel) && Scan(k, i).kernel.rp == Scan(k, i).pick
    ensures Scan(k, i).pick.Slot? ==> StateOf(Scan(k, i).kernel, Scan(k, i).pick.slot) == Ready
    decreases |k.run| - i
  {
    hide Ok, PidsKept, Signalled, Recycled, SignalSafe, SameSlots;
    KeptSelf(k);
    if i < |k.run| {
      var p := k.run[i];
      if StateOf(k, p) == Dead {
        RecycledRun(k, i);
        RecycledOk(k, i);
        var l := Recycled(k.(run := RemoveAt(k.run, i)), p);
        ScanOk(l, i);
        PidsKeptChain(k, l, Scan(l, i).kernel);
      } else {
        SignalledRun(k, p);
        SignalledOk(k, p);
        var l := Signalled(k, p);
        if StateOf(l, p) == Ready {
          TakenOk(l, i);
          PidsKeptChain(k, l, Scan(k, i).kernel);
        } else {
          ScanOk(l, i + 1);
          PidsKeptChain(k, l, Scan(l, i + 1).kernel);
        }
      }
    }
  }

  lemma KeptSelf(k: Kernel)
    ensures PidsKept(k, k)
  {
  }

  // ----- the other steps

  /** A new process takes the oldest free slot; its pid is the slot's old one or the next unused. */
  lemma SpawnedOk(k: Kernel)
    requires Ok(k) && RoomForPid(k) && k.rp != Bad
    ensures var l := Spawned(k); var p := k.free[0];
      && Ok(l) && PidsKept(k, l) && l.run == k.run + [p] && StateOf(l, p) == Ready
      && !Has(k.table, PidOf(l, p)) && PidOf(l, p) == SpawnPid(k)
      && 1 <= PidOf(l, p) < MAXPROC
  {
    hide PidsOk, PidsKept;
    var p := k.free[0];
    var l := Spawned(k);
    SpawnedTable(k);
    SpawnedIs(k);
    hide Spawned, Claimed, SetState;
    assert InOnePlace(k, p);
    AppendMeans(k.run, p);
    forall x ensures x in l.free <==> x in k.free && x != p {
      assert k.free == [p] + l.free;
    }
    forall j | IsSlot(j) ensures InOnePlace(l, j) { assert InOnePlace(k, j); }
    SpawnedPids(k);
    PidBound(l);
    forall q | IsSlot(q) && StateOf(l, q) == Dead ensures Detached(l, q) { assert Detached(k, q); }
  }

  /** Claiming and queueing in one update. */
  lemma SpawnedIs(k: Kernel)
    requires k.free != [] && IsSlot(k.free[0]) && Shaped(k)
    ensures var p := k.free[0]; var unused := k.procs[p].pid == 0; var pid := if unused then k.nextPid + 1 else k.procs[p].pid;
      Spawned(k) == k.(procs := k.procs[p := Proc(pid, if k.rp.Slot? then PidOf(k, k.rp.slot) else 0, Ready, NONE, NONE)],
                       free := k.free[1..], run := k.run + [p], table := Entered(k.table, pid, p),
                       nextPid := if unused then k.nextPid + 1 else k.nextPid)
  {
  }

  /** The new pid is not in use. */
  lemma SpawnedTable(k: Kernel)
    requires Ok(k) && k.free != []
    ensures var p := k.free[0]; IsSlot(p) && !Live(k, p) && !Has(k.table, k.nextPid + 1) && (PidOf(k, p) != 0 ==> !Has(k.table, PidOf(k, p)))
    ensures k.rp.Slot? ==> PidOf(k, k.rp.slot) != (if PidOf(k, k.free[0]) == 0 then k.nextPid + 1 else PidOf(k, k.free[0]))
    ensures 0 <= k.nextPid && 0 <= PidOf(k, k.free[0]) <= k.nextPid
  {
    var p := k.free[0];
    assert IsSlot(p) && InOnePlace(k, p) && PidOk(k, p);
    forall q | Has(k.table, q) ensures q <= k.nextPid { assert PidOk(k, k.table[q]); }
    if k.rp.Slot? {
      assert PidOk(k, k.rp.slot) && Live(k, k.rp.slot);
    }
  }

  lemma SpawnedPids(k: Kernel)
    requires Ok(k) && RoomForPid(k) && k.rp != Bad
    requires forall x :: x in Spawned(k).run <==> x in k.run || x == k.free[0]
    ensures PidsOk(Spawned(k)) && PidsKept(k, Spawned(k))
  {
    var p := k.free[0];
    var l := Spawned(k);
    SpawnedTable(k);
    var pid := PidOf(l, p);
    SpawnedDistinct(k);
    assert forall j :: j != p ==> PidOf(l, j) == PidOf(k, j);
    forall j | IsSlot(j) ensures PidOk(l, j) { SpawnedPidOk(k, j); }
    SpawnedGiven(k);
    forall q | Has(l.table, q) ensures 1 <= q && IsSlot(l.table[q]) && PidOf(l, l.table[q]) == q {
      assert q == pid || Has(k.table, q);
    }
  }

  lemma SpawnedDistinct(k: Kernel)
    requires Ok(k) && k.free != []
    ensures var l := Spawned(k);
      forall i, j {:trigger PidOf(l, i), PidOf(l, j)} ::
        IsSlot(i) && IsSlot(j) && i != j && PidOf(l, i) == PidOf(l, j) ==> PidOf(l, i) == 0
  {
    var p := k.free[0];
    var l := Spawned(k);
    SpawnedTable(k);
    forall i, j | IsSlot(i) && IsSlot(j) && i != j && PidOf(l, i) == PidOf(l, j) ensures PidOf(l, i) == 0 {
      assert PidOk(k, i) && PidOk(k, j);
      assert PidOf(k, i) == PidOf(k, j) ==> PidOf(k, i) == 0;
    }
  }

  lemma SpawnedPidOk(k: Kernel, j: int)
    requires Ok(k) && RoomForPid(k) && k.rp != Bad && IsSlot(j)
    requires forall x :: x in Spawned(k).run <==> x in k.run || x == k.free[0]
    ensures PidOk(Spawned(k), j)
  {
    var p := k.free[0];
    SpawnedTable(k);
    assert PidOk(k, j);
    assert Live(Spawned(k), j) <==> Live(k, j) || j == p;
    assert j != p && PidOf(k, j) == PidOf(k, p) ==> PidOf(k, j) == 0;
  }

  lemma SpawnedGiven(k: Kernel)
    requires Ok(k) && k.free != []
    ensures Spawned(k).nextPid == |Given(Spawned(k))|
  {
    var p := k.free[0];
    var l := Spawned(k);
    SpawnedTable(k);
    SpawnedIs(k);
    assert forall i :: i != p ==> PidOf(l, i) == PidOf(k, i);
    assert k.nextPid == |Given(k)| && PidOf(l, p) != 0;
    hide Spawned, Claimed, SetState, Ok, PidOf;
    forall i ensures i in Given(l) <==> i in Given(k) || i == p {}
    assert Given(l) == Given(k) + {p};
    assert p in Given(k) <==> PidOf(k, p) != 0;
  }

  /** Every pid has an entry in the table. */
  lemma PidBound(k: Kernel)
    requires Shaped(k) && PidsOk(k)
    ensures forall i :: IsSlot(i) ==> 0 <= PidOf(k, i) < MAXPROC
  {
    forall i | IsSlot(i) ensures 0 <= PidOf(k, i) < MAXPROC { assert PidOk(k, i); }
  }

  /** There is always a slot that never had a process: pids run out one before slots do. */
  lemma UnusedSlot(k: Kernel) returns (i: int)
    requires Ok(k)
    ensures IsSlot(i) && PidOf(k, i) == 0 && i in k.free
  {
    if forall j :: IsSlot(j) ==> PidOf(k, j) != 0 {
      CardAtLeast(Given(k), MAXPROC);
      assert false;
    }
    i :| IsSlot(i) && PidOf(k, i) == 0;
    assert PidOk(k, i) && InOnePlace(k, i);
  }

  lemma {:induction false} CardAtLeast(a: set<int>, n: nat)
    requires forall x :: 0 <= x < n ==> x in a
    ensures n <= |a|
    decreases n
  {
    if n > 0 {
      CardAtLeast(a - {n - 1}, n - 1);
      assert a == a - {n - 1} + {n - 1};
    }
  }

  /** A new pid has an empty entry in the table exactly when there is room for it. */
  lemma RoomExactly(k: Kernel)
    requires Ok(k) && k.free != []
    ensures (1 <= SpawnPid(k) < |k.table| && k.table[SpawnPid(k)] == NOPROC) <==> RoomForPid(k)
  {
    SpawnedTable(k);
    PidBound(k);
  }

  /** Without room, the new process gets the pid just past the end of the table, and is not entered. */
  lemma PastTheTable(k: Kernel)
    requires Ok(k) && k.free != [] && k.nextPid == MAXPROC - 1 && PidOf(k, k.free[0]) == 0
    ensures var l := Spawned(k); PidOf(l, k.free[0]) == MAXPROC == |l.table| && l.table == k.table && !Ok(l)
  {
    var l, p := Spawned(k), k.free[0];
    SpawnedTable(k);
    SpawnedIs(k);
    assert p in l.run && Live(l, p);
    assert !PidOk(l, p);
  }
}
