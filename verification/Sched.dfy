/**
 * The process table as the kernel keeps it, in linked nodes, and its operations: each method
 * changes links and fields as the source does, and is proved to compute one step of the model.
 */
module Sched {
  import opened Sequences
  import opened Rings
  import opened SchedModel
  import opened SchedInvariant
  import opened SchedSteps
  import opened SchedRuns
  import opened SchedFairness
  import opened SchedEffects
  import opened SchedRep

  /** What was found, running. */
  function Marked(k: Kernel): Kernel {
    if k.rp.Slot? then SetState(k, k.rp.slot, Running) else k
  }

  /** At most `n` looks, ending with the first that finds a process. */
  function LookUntil(k: Kernel, n: nat): Kernel
    decreases n
  {
    if n == 0 || k.rp != Bad then k else LookUntil(Picked(k), n - 1)
  }

  ghost predicate LooksSafe(k: Kernel, n: nat)
    decreases n
  {
    n == 0 || k.rp != Bad || (ScanSafe(k, 0) && LooksSafe(Picked(k), n - 1))
  }

  /** What claiming leaves as it is, and what filling in a new process relies on. */
  lemma ClaimedPids(k: Kernel)
    requires Ok(k) && RoomForPid(k)
    ensures var l, p := Claimed(k), k.free[0];
      && l.run == k.run && l.free == k.free[1..] && l.waiting == k.waiting && (forall q :: q != p ==> PidOf(l, q) == PidOf(k, q))
      && 1 <= SpawnPid(k) < |k.table| && k.table[SpawnPid(k)] == NOPROC
  {
    RoomExactly(k);
    SpawnedTable(k);
    assert PidOk(k, k.free[0]);
  }

  lemma WakeNobody(k: Kernel, p: int)
    requires Waiters(k, p) == []
    ensures Wake(k, p) == k
  {
  }

  lemma WakeUnfolds(k: Kernel, p: int)
    requires Shaped(k) && IsSlot(p) && OneQueue(k) && k.waiting[p] != []
    ensures var l := SetState(k.(waiting := k.waiting[p := k.waiting[p][1..]]), k.waiting[p][0], Ready);
      Wake(k, p) == Wake(l, p) && OneQueue(l) && l.waiting == k.waiting[p := k.waiting[p][1..]]
      && forall q :: PidOf(l, q) == PidOf(k, q)
  {
    var l := SetState(k.(waiting := k.waiting[p := k.waiting[p][1..]]), k.waiting[p][0], Ready);
    forall a, b, q | IsSlot(a) && IsSlot(b) && q in Waiters(l, a) && q in Waiters(l, b) ensures a == b {
      assert q in Waiters(k, a) && q in Waiters(k, b);
    }
  }

  lemma RunnerReadyOk(k: Kernel)
    requires Ok(k) && k.rp.Slot?
    ensures Ok(Preempted(k)) && Live(Preempted(k), k.rp.slot) && k.rp.slot !in k.run
  {
    LiveIsSlot(k, k.rp.slot);
    assert InOnePlace(k, k.rp.slot);
    if Preempted(k) != k { SetStateOk(k, k.rp.slot, Ready); }
  }

  lemma YieldedBusy(k: Kernel)
    requires k.rp.Slot?
    ensures var l := Signalled(Preempted(k), k.rp.slot); Yielded(k) == l.(run := l.run + [k.rp.slot], rp := Bad)
  {
  }

  lemma YieldedIdle(k: Kernel)
    requires !k.rp.Slot?
    ensures Yielded(k) == k.(rp := Bad)
  {
  }

  lemma ScanPickIsSlot(k: Kernel)
    requires Ok(k) && k.rp == Bad && ScanSafe(k, 0)
    ensures var s := Scan(k, 0); s.kernel.rp == s.pick && s.pick != Nobody && (s.pick.Slot? ==> IsSlot(s.pick.slot))
  {
    ScanOk(k, 0);
    ScanFinds(k, 0);
    if Scan(k, 0).pick.Slot? { LiveIsSlot(Scan(k, 0).kernel, Scan(k, 0).pick.slot); }
  }

  lemma {:induction false} ScanFinds(k: Kernel, i: nat)
    ensures Scan(k, i).pick != Nobody
    decreases |k.run| - i
  {
    if i < |k.run| {
      RecycledRun(k, i);
      SignalledRun(k, k.run[i]);
      if StateOf(k, k.run[i]) == Dead {
        ScanFinds(Recycled(k.(run := RemoveAt(k.run, i)), k.run[i]), i);
      } else if StateOf(Signalled(k, k.run[i]), k.run[i]) != Ready {
        ScanFinds(Signalled(k, k.run[i]), i + 1);
      }
    }
  }

  /** Looking more than twice finds nobody that two looks do not find. */
  lemma LooksSettle(k: Kernel, n: nat)
    requires Ok(k) && k.rp == Bad && ScanSafe(k, 0) && n >= 2
    ensures LookUntil(k, n) == LookUntil(k, 2)
  {
    hide Picked, ScanSafe, Ok;
    var l := Picked(k);
    var m := Picked(l);
    assert LookUntil(k, n) == if l.rp != Bad then l else LookUntil(m, n - 2);
    assert LookUntil(k, 2) == if l.rp != Bad then l else LookUntil(m, 0);
    if l.rp == Bad && m.rp == Bad {
      IdleSettles(k);
      FixedLook(m, n - 2);
    }
  }

  lemma LookStep(k: Kernel, n: nat)
    ensures k.rp == Bad && n > 0 && LooksSafe(k, n) ==> ScanSafe(k, 0) && LooksSafe(Picked(k), n - 1) && LookUntil(k, n) == LookUntil(Picked(k), n - 1)
    ensures n == 0 || k.rp != Bad ==> LookUntil(Marked(k), n) == Marked(k)
    ensures !k.rp.Slot? ==> Marked(k) == k
    ensures k.rp.Slot? ==> Marked(k) == SetState(k, k.rp.slot, Running)
  {
    hide ScanSafe, Picked;
  }

  lemma {:induction false} FixedLook(k: Kernel, n: nat)
    requires Picked(k) == k
    ensures LookUntil(k, n) == k
  {
    if n > 0 { FixedLook(k, n - 1); }
  }

  class Scheduler {
    const lists: Lists
    var procs: seq<Proc>
    var table: seq<int>
    var nextPid: int
    var rp: Current
    ghost var free: seq<int>
    ghost var run: seq<int>
    ghost var waiting: seq<seq<int>>

    ghost function K(): Kernel
      reads this
    {
      Kernel(procs, free, run, waiting, table, nextPid, rp)
    }

    /** The links represent the queues. */
    ghost predicate Valid()
      reads this, lists
    {
      Shaped(K()) && Rep(lists.next, lists.prev, K())
    }

    /** Boot: all slots on the free list. */
    constructor ()
      ensures Valid() && K() == Boot() && fresh(lists)
    {
      lists := new Lists();
      procs := seq(MAXPROC, i => Proc(0, 0, Dead, NONE, NONE));
      table := seq(MAXPROC, i => NOPROC);
      nextPid := 0;
      rp := Nobody;
      free := [];
      run := [];
      waiting := seq(MAXPROC, i => []);
      new;
      lists.InitHead(RunQ);
      lists.InitHead(FreeQ);
      LoneRing(lists.next, lists.prev, RunQ);
      LoneRing(lists.next, lists.prev, FreeQ);
      assert Rep(lists.next, lists.prev, K()) by { NoneMade(lists.next, lists.prev, K()); }
      ReleaseAll();
      assert free == Boot().free && waiting == Boot().waiting && procs == Boot().procs;
    }

    /** Every slot goes to the head of the empty free list. */
    method ReleaseAll()
      requires Valid() && free == []
      modifies this`free, lists
      ensures Valid() && K() == old(K()).(free := free)
      ensures |free| == MAXPROC && forall j :: 0 <= j < MAXPROC ==> free[j] == MAXPROC - 1 - j
    {
      hide Rep, AddNext, AddPrev;
      var i := 0;
      while i < MAXPROC
        invariant 0 <= i <= MAXPROC && Valid()
        invariant |free| == i && forall j :: 0 <= j < i ==> free[j] == i - 1 - j
      {
        InitFreeNode(lists.next, lists.prev, K(), i);
        lists.InitHead(Free(i));
        FreePrepend(lists.next, lists.prev, K(), i);
        lists.AddAfter(Free(i), FreeQ, Frees(free));
        free := [i] + free;
        i := i + 1;
      }
    }

    method SetProcState(p: int, s: State)
      requires Valid() && IsSlot(p)
      modifies this`procs
      ensures Valid() && K() == SetState(old(K()), p, s)
    {
      RepSame(lists.next, lists.prev, K(), SetState(K(), p, s));
      procs := procs[p := procs[p].(state := s)];
    }

    /** The process at the head of the queue of `p` leaves it, ready. */
    method WakeFirst(p: int, pos: Node)
      requires Valid() && Made(K(), p) && OneQueue(K()) && waiting[p] != [] && IsSlot(waiting[p][0]) && pos == Wait(waiting[p][0])
      modifies this`procs, this`waiting, lists
      ensures Valid() && K() == SetState(old(K()).(waiting := old(waiting)[p := old(waiting)[p][1..]]), old(waiting)[p][0], Ready)
    {
      hide Rep, OneQueue;
      WaitCut(lists.next, lists.prev, K(), p, 0);
      lists.UnlinkAndInit(pos, WaitQ(p), Waits(waiting[p]), 0);
      assert RemoveAt(waiting[p], 0) == waiting[p][1..];
      waiting := waiting[p := waiting[p][1..]];
      SetProcState(pos.slot, Ready);
    }

    /** Every process waiting on `p` leaves its queue, ready. */
    method WakeWaiting(p: int)
      requires Valid() && Made(K(), p) && OneQueue(K()) && forall q :: q in waiting[p] ==> IsSlot(q)
      modifies this`procs, this`waiting, lists
      ensures Valid() && K() == Wake(old(K()), p)
    {
      hide Rep, Wake;
      var head := WaitQ(p);
      QueueMapped(lists.next, lists.prev, K(), p);
      var pos := lists.next[head];
      var save := if pos == head then head else lists.next[pos];
      while pos != head
        invariant Valid() && Made(K(), p) && OneQueue(K()) && forall q :: q in waiting[p] ==> IsSlot(q)
        invariant Wake(K(), p) == Wake(old(K()), p)
        invariant pos == Pos(head, Waits(waiting[p]), 1) && save == Pos(head, Waits(waiting[p]), 2)
        decreases |waiting[p]|
      {
        ghost var k := K();
        WakeUnfolds(k, p);
        WakeFirst(p, pos);
        pos := save;
        QueueMapped(lists.next, lists.prev, K(), p);
        save := if save == head then head else lists.next[save];
      }
      WakeNobody(K(), p);
    }

    /** `p` is ready, and its parent waits for it. */
    method ContinueProc(p: int)
      requires Valid() && Made(K(), p) && OneQueue(K()) && IsSlot(Parent(K(), p)) && Unlinked(K(), Parent(K(), p))
      modifies this`procs, this`waiting, lists
      ensures Valid()
      ensures var k, par := SetState(old(K()), p, Ready), Parent(old(K()), p);
        K() == SetState(k.(waiting := k.waiting[p := [par] + k.waiting[p]]), par, Waiting)
    {
      hide Rep, OneQueue;
      var par := table[procs[p].ppid];
      SetProcState(p, Ready);
      WaitPrepend(lists.next, lists.prev, K(), p, par) by { OneQueueSame(old(K()), K()); }
      lists.AddAfter(Wait(par), WaitQ(p), Waits(waiting[p]));
      waiting := waiting[p := [par] + waiting[p]];
      SetProcState(par, Waiting);
    }

    /** The most urgent pending signal takes effect. */
    method ProcessSignals(p: int)
      requires Valid() && Ok(K()) && Live(K(), p) && SignalSafe(K(), p)
      modifies this`procs, this`waiting, lists
      ensures Valid() && K() == Signalled(old(K()), p) && Delivered(old(K()), K(), p)
    {
      LiveMade(K(), p);
      WakeEmpties(K(), p);
      SignalledMeans(K(), p);
      hide Delivered, Rep, Wake, Ok, OneQueue, Unlinked;
      var pending := procs[p].pending;
      if pending.abort {
        WakeWaiting(p);
        SetProcState(p, Dead);
      } else if pending.stop {
        WakeWaiting(p);
        EmptyQueueAlone(lists.next, lists.prev, K(), p);
        lists.InitHead(WaitQ(p));
        SetProcState(p, Stopped);
      } else if pending.cont {
        ContinueProc(p);
      } else if pending.alarm {
        SetProcState(p, Ready);
      }
      RepSame(lists.next, lists.prev, K(), K().(procs := procs[p := procs[p].(pending := NONE)]));
      procs := procs[p := procs[p].(pending := NONE)];
    }

    method InitNodes(p: int)
      modifies lists
      ensures lists.next == InitAll(old(lists.next), p) && lists.prev == InitAll(old(lists.prev), p)
    {
      lists.InitHead(WaitQ(p));
      lists.InitHead(Wait(p));
      lists.InitHead(Run(p));
      lists.InitHead(Free(p));
    }

    /** The slot of a dead process goes back to the free list. */
    method RecycleProc(p: int)
      requires Valid() && Made(K(), p) && Detached(K(), p) && p !in run && p !in free && 0 <= PidOf(K(), p) < MAXPROC
      modifies this`procs, this`table, this`free, lists
      ensures Valid() && K() == Recycled(old(K()), p)
    {
      hide Rep, Detached;
      ReinitNodes(lists.next, lists.prev, K(), p);
      InitNodes(p);
      ghost var l := K().(procs := procs[p := Proc(procs[p].pid, 0, Dead, NONE, NONE)], table := table[procs[p].pid := NOPROC]);
      RepSame(lists.next, lists.prev, K(), l);
      procs := procs[p := Proc(procs[p].pid, 0, Dead, NONE, NONE)];
      table := table[procs[p].pid := NOPROC];
      FreeAppend(lists.next, lists.prev, K(), p);
      lists.AddBefore(Free(p), FreeQ, Frees(free));
      free := free + [p];
    }

    method TakeFree() returns (p: int)
      requires Valid() && Ok(K()) && free != []
      modifies this`free, lists
      ensures Valid() && p == old(free)[0] && K() == old(K()).(free := old(free)[1..])
    {
      FreeCut(lists.next, lists.prev, K(), Null);
      hide Rep, Ok;
      p := lists.next[FreeQ].slot;
      lists.Unlink(Free(p), FreeQ, Frees(free), 0);
      free := free[1..];
    }

    /** The oldest free slot, set up for a new process; the source's two assertions hold. */
    method NewProc() returns (p: int)
      requires Valid() && Ok(K()) && RoomForPid(K()) && rp != Bad
      modifies this`procs, this`table, this`nextPid, this`free, lists
      ensures Valid() && K() == Claimed(old(K())) && p == old(free)[0] && p !in run
    {
      FirstFree(K());
      SpawnedTable(K());
      ClaimedPids(K());
      hide Rep, Ok, Detached, InitAll, PidOf, Live;
      p := TakeFree();
      DetachedSame(old(K()), K(), p);
      ghost var l := Claimed(old(K()));
      NewNodes(lists.next, lists.prev, K(), l, p);
      InitNodes(p);
      FillProc(p);
    }

    /** The fields of a new process: the slot's old pid or the next one, which is not in use. */
    method FillProc(p: int)
      requires Shaped(K()) && IsSlot(p) && rp != Slot(p)
      requires var pid := if procs[p].pid == 0 then nextPid + 1 else procs[p].pid; 1 <= pid < |table| && table[pid] == NOPROC
      modifies this`procs, this`table, this`nextPid
      ensures var k := old(K()); var unused := k.procs[p].pid == 0; var pid := if unused then k.nextPid + 1 else k.procs[p].pid;
        K() == k.(procs := k.procs[p := Proc(pid, if rp.Slot? then PidOf(k, rp.slot) else 0, Spawning, NONE, NONE)],
                  table := k.table[pid := p], nextPid := if unused then k.nextPid + 1 else k.nextPid)
    {
      if procs[p].pid == 0 {
        nextPid := nextPid + 1;
        procs := procs[p := procs[p].(pid := nextPid)];
      }
      var pid := procs[p].pid;
      assert pid != 0;
      assert table[pid] == NOPROC;
      var ppid := RunnerPid();
      procs := procs[p := Proc(pid, ppid, Spawning, NONE, NONE)];
      table := table[pid := p];
    }

    function RunnerPid(): (pid: int)
      reads this
      ensures pid == if rp.Slot? then PidOf(K(), rp.slot) else 0
    {
      if rp.Slot? && 0 <= rp.slot < |procs| then procs[rp.slot].pid else 0
    }

    /** A new process joins the run queue. */
    method SchedProc() returns (p: int)
      requires Valid() && Ok(K()) && RoomForPid(K()) && rp != Bad
      modifies this`procs, this`table, this`nextPid, this`free, this`run, lists
      ensures Valid() && Ok(K()) && K() == Spawned(old(K())) && p == old(free)[0] && Started(old(K()), K())
    {
      FirstFree(K());
      SpawnedOk(K());
      SpawnedMeans(K());
      hide Started, Rep, Ok, Claimed, Detached, PidsKept;
      p := NewProc();
      RunAppend(lists.next, lists.prev, K(), p);
      lists.AddBefore(Run(p), RunQ, Runs(run));
      run := run + [p];
      SetProcState(p, Ready);
    }

    /** The running process ends. */
    method Exit()
      requires Valid() && Ok(K()) && rp.Slot?
      modifies this`procs, this`waiting, lists
      ensures Valid() && Ok(K()) && K() == Exited(old(K())) && Ended(old(K()), K(), rp.slot)
    {
      ExitedOk(K());
      ExitedMeans(K());
      var p := rp.slot;
      LiveMade(K(), p);
      WakeOk(K(), p);
      hide Rep, Ok, Wake, Ended;
      WakeWaiting(p);
      LeaveQueue(p);
      SetProcState(p, Dead);
    }

    /** Out of the wait queue the process is in, if any. */
    method LeaveQueue(p: int)
      requires Valid() && Ok(K()) && Made(K(), p)
      modifies this`waiting, lists
      ensures Valid() && K() == old(K()).(waiting := Unwait(old(waiting), p))
    {
      hide Rep;
      LeaveMapped(lists.next, lists.prev, K(), p);
      lists.UnlinkAndInit(Wait(p), Wait(p), [], 0);
      waiting := Unwait(waiting, p);
    }

    /** What is asserted before the runner waits: it is in no wait queue. */
    method NotWaiting() returns (alone: bool)
      requires Valid() && Ok(K()) && rp.Slot?
      ensures alone <==> Unlinked(K(), rp.slot)
    {
      LiveMade(K(), rp.slot);
      NodeMapped(lists.next, lists.prev, K(), rp.slot);
      AloneExactly(lists.next, lists.prev, K(), rp.slot);
      hide Rep, Ok, Unlinked;
      alone := lists.IsEmpty(Wait(rp.slot), []);
    }

    /** The running process waits for the one with this pid, which has not died; it must not be waiting already. */
    method WaitPid(pid: int)
      requires Valid() && Ok(K()) && Allowed(K(), WaitFor(pid))
      modifies this`procs, this`waiting, lists
      ensures Valid() && Ok(K()) && K() == WaitedFor(old(K()), pid)
      ensures if 0 <= pid <= MAXPROC then NowWaits(old(K()), K(), pid) else K() == old(K())
    {
      StepOk(K(), WaitFor(pid));
      WaitedForMeans(K(), pid);
      hide NowWaits;
      if pid < 0 || pid > MAXPROC { return; }
      var p, r := table[pid], rp.slot;
      TableMade(K(), pid);
      LiveMade(K(), r);
      hide Rep, Ok, OneQueue, Unlinked;
      var alone := NotWaiting();
      assert alone;
      WaitPrepend(lists.next, lists.prev, K(), p, r);
      lists.AddAfter(Wait(r), WaitQ(p), Waits(waiting[p]));
      waiting := waiting[p := [r] + waiting[p]];
      SetProcState(r, Waiting);
    }

    /** The running process replaces its mask, and learns the old one. */
    method SetSignalMask(mask: Sigs) returns (oldMask: Sigs)
      requires Valid() && Ok(K()) && rp.Slot?
      modifies this`procs
      ensures Valid() && Ok(K()) && K() == Masked(old(K()), mask) && MaskSet(old(K()), K(), mask)
      ensures IsSlot(rp.slot) && |old(procs)| == MAXPROC && oldMask == old(procs)[rp.slot].mask
    {
      MaskedOk(K(), mask);
      MaskedMeans(K(), mask);
      LiveIsSlot(K(), rp.slot);
      hide Rep, Ok, MaskSet;
      RepSame(lists.next, lists.prev, K(), Masked(K(), mask));
      oldMask := procs[rp.slot].mask;
      procs := procs[rp.slot := procs[rp.slot].(mask := mask)];
    }

    /** It blocks some more signals. */
    method SetSignalBlock(mask: Sigs) returns (oldMask: Sigs)
      requires Valid() && Ok(K()) && rp.Slot?
      modifies this`procs
      ensures Valid() && Ok(K()) && K() == Masked(old(K()), Union(oldMask, mask))
      ensures IsSlot(rp.slot) && |old(procs)| == MAXPROC && oldMask == old(procs)[rp.slot].mask
    {
      LiveIsSlot(K(), rp.slot);
      oldMask := SetSignalMask(Union(procs[rp.slot].mask, mask));
    }

    /** Meant to unblock signals, it leaves the mask as it was: right only when none of them was blocked. */
    method SetSignalUnblock(mask: Sigs) returns (oldMask: Sigs)
      requires Valid() && Ok(K()) && rp.Slot?
      modifies this`procs
      ensures Valid() && Ok(K()) && K() == old(K()) && IsSlot(rp.slot) && oldMask == procs[rp.slot].mask
      ensures procs[rp.slot].mask == Minus(oldMask, mask) <==> Both(oldMask, mask) == NONE
    {
      LiveIsSlot(K(), rp.slot);
      oldMask := procs[rp.slot].mask;
      var m := Union(oldMask, Minus(oldMask, mask));
      assert m == oldMask;
      procs := procs[rp.slot := procs[rp.slot].(mask := m)];
      assert procs == old(procs);
    }

    /** A signal is pending until its process is scanned or switched from. */
    method PostSignal(pid: int, sig: Sigs)
      requires Valid() && Ok(K()) && Allowed(K(), Post(pid, sig))
      modifies this`procs
      ensures Valid() && Ok(K()) && K() == Posted(old(K()), pid, sig) && Signed(old(K()), K(), pid, sig)
    {
      StepOk(K(), Post(pid, sig));
      PostedMeans(K(), pid, sig);
      hide Signed;
      if pid < 0 || pid > MAXPROC { return; }
      var p := table[pid];
      TableMade(K(), pid);
      hide Rep, Ok;
      RepSame(lists.next, lists.prev, K(), Posted(K(), pid, sig));
      procs := procs[p := procs[p].(pending := Union(procs[p].pending, Minus(sig, procs[p].mask)))];
    }

    /** The dead process at position `i` leaves the run queue, and its slot is recycled. */
    method DropDead(p: int, ghost i: nat)
      requires Valid() && Ok(K()) && i < |run| && run[i] == p && StateOf(K(), p) == Dead
      modifies this`procs, this`table, this`free, this`run, lists
      ensures Valid() && K() == Recycled(old(K()).(run := RemoveAt(old(run), i)), p)
    {
      DeadInQueue(K(), i);
      PidBound(K());
      hide Rep, Ok, Detached;
      RunCut(lists.next, lists.prev, K(), i, Null);
      lists.Unlink(Run(p), RunQ, Runs(run), i);
      run := RemoveAt(run, i);
      DetachedSame(old(K()), K(), p);
      RecycleProc(p);
    }

    /** The process at position `i` leaves the run queue, alone. */
    method TakeReady(p: int, ghost i: nat)
      requires Valid() && i < |run| && run[i] == p
      modifies this`run, lists
      ensures Valid() && K() == old(K()).(run := RemoveAt(old(run), i))
    {
      hide Rep;
      RunCut(lists.next, lists.prev, K(), i, Run(p));
      lists.UnlinkAndInit(Run(p), RunQ, Runs(run), i);
      run := RemoveAt(run, i);
    }

    /** One scan of the run queue, removing from it while iterating over it. */
    method NextRunnableProc() returns (c: Current)
      requires Valid() && Ok(K()) && rp == Bad && ScanSafe(K(), 0)
      modifies this`procs, this`table, this`free, this`run, this`waiting, lists
      ensures Valid() && Scan(old(K()), 0) == Scanned(K().(rp := c), c)
    {
      hide Rep, Ok, SignalSafe, Signalled, Recycled, PidsKept, SameSlots;
      ghost var i := 0;
      RunMapped(lists.next, lists.prev, K());
      var pos := lists.next[RunQ];
      var save := if pos == RunQ then RunQ else lists.next[pos];
      while pos != RunQ
        invariant Valid() && Ok(K()) && i <= |run| && ScanSafe(K(), i)
        invariant Scan(K(), i) == Scan(old(K()), 0)
        invariant pos == Pos(RunQ, Runs(run), i + 1) && save == Pos(RunQ, Runs(run), i + 2)
        decreases |run| - i
      {
        var p := pos.slot;
        ghost var k := K();
        QueuedIsLive(k, i);
        if procs[p].state == Dead {
          RecycledRun(k, i);
          RecycledOk(k, i);
          DropDead(p, i);
        } else {
          SignalledRun(k, p);
          SignalledOk(k, p);
          ProcessSignals(p);
          if procs[p].state == Ready {
            TakeReady(p, i);
            return Slot(p);
          }
          i := i + 1;
        }
        pos := save;
        RunMapped(lists.next, lists.prev, K());
        save := if save == RunQ then RunQ else lists.next[save];
      }
      c := Bad;
    }

    method MarkReady(r: int)
      requires Valid() && rp == Slot(r) && IsSlot(r)
      modifies this`procs
      ensures Valid() && K() == Preempted(old(K()))
    {
      if procs[r].state == Running { SetProcState(r, Ready); }
    }

    /** The running process goes to the end of the run queue. */
    method Preempt()
      requires Valid() && Ok(K()) && rp.Slot? && SignalSafe(Preempted(K()), rp.slot)
      modifies this`procs, this`run, this`waiting, lists
      ensures Valid() && K().(rp := Bad) == Yielded(old(K()))
    {
      var r := rp.slot;
      LiveIsSlot(K(), r);
      RunnerReadyOk(K());
      YieldedBusy(K());
      hide Rep, Ok, SignalSafe, Signalled, PidsKept, SameSlots, Yielded, Preempted;
      MarkReady(r);
      SignalledRun(K(), r);
      ProcessSignals(r);
      RunAppend(lists.next, lists.prev, K(), r);
      lists.AddBefore(Run(r), RunQ, Runs(run));
      run := run + [r];
    }

    /** One look; the process it finds is not yet marked as running. */
    method Look()
      requires Valid() && Ok(K()) && rp == Bad && ScanSafe(K(), 0)
      modifies this, lists
      ensures Valid() && rp != Nobody && (rp.Slot? ==> IsSlot(rp.slot)) && Picked(old(K())) == Marked(K()) && Ok(Marked(K()))
    {
      PickedOk(K());
      ScanPickIsSlot(K());
      hide Rep, Ok, Scan, ScanSafe, PidsKept;
      var c := NextRunnableProc();
      RepSame(lists.next, lists.prev, K(), K().(rp := c));
      rp := c;
    }

    /** The runner, if there is one, is put back, and nobody runs. */
    method SwitchAway()
      requires Valid() && Ok(K()) && (rp.Slot? ==> SignalSafe(Preempted(K()), rp.slot))
      modifies this`procs, this`run, this`waiting, this`rp, lists
      ensures Valid() && K() == Yielded(old(K()))
      ensures if old(rp).Slot? then PutBack(old(K()), K(), old(rp).slot) else K() == old(K()).(rp := Bad)
    {
      if rp != Bad { YieldedMeans(K()); }
      hide Rep, Ok, Yielded, PutBack;
      if rp.Slot? { Preempt(); } else { YieldedIdle(K()); }
      RepSame(lists.next, lists.prev, K(), K().(rp := Bad));
      rp := Bad;
    }

    /** The loop that looks for a process. */
    method Seek(looks: nat)
      requires Valid() && Ok(K()) && rp == Bad && LooksSafe(K(), looks)
      modifies this, lists
      ensures Valid() && rp != Nobody && (rp.Slot? ==> IsSlot(rp.slot))
      ensures Ok(Marked(K())) && Marked(K()) == LookUntil(old(K()), looks)
    {
      hide Rep, Ok, Picked, ScanSafe, LookUntil, LooksSafe, Marked;
      ghost var y := K();
      var n := looks;
      LookStep(y, n);
      while rp == Bad && n > 0
        invariant Valid() && rp != Nobody && (rp.Slot? ==> IsSlot(rp.slot))
        invariant Ok(Marked(K())) && LooksSafe(Marked(K()), n) && LookUntil(Marked(K()), n) == LookUntil(y, looks)
        decreases n
      {
        LookStep(K(), n);
        Look();
        n := n - 1;
      }
      LookStep(K(), n);
    }

    /** A switch: the runner yields, and the queue is scanned, up to `looks` times here, until something can run. */
    method ScheduleProc(looks: nat)
      requires Valid() && Ok(K()) && (rp.Slot? ==> SignalSafe(Preempted(K()), rp.slot))
      requires LooksSafe(Yielded(K()), looks)
      modifies this, lists
      ensures Valid() && Ok(K()) && K() == LookUntil(Yielded(old(K())), looks)
    {
      YieldedOk(K());
      hide Rep, Ok, Yielded, PidsKept, LookUntil, LooksSafe;
      SwitchAway();
      Seek(looks);
      if rp.Slot? { SetProcState(rp.slot, Running); }
    }
  }
}
