/** How many processes a boot can spawn, and with which pids. */
module SchedPids {
  import opened Sequences
  import opened SchedModel
  import opened SchedInvariant
  import opened SchedSteps
  import opened SchedRuns
  import opened Options
  import HeapModel
  import HeapInvariant
  import HeapRuns

  /** On the free list, slots that never had a process come before all others. */
  predicate FreshFirst(k: Kernel) {
    forall i, j :: 0 <= i < j < |k.free| && PidOf(k, k.free[j]) == 0 ==> PidOf(k, k.free[i]) == 0
  }

  /** The free list is never empty, and its head has never been used. */
  lemma HeadIsFresh(k: Kernel)
    requires Ok(k) && FreshFirst(k)
    ensures k.free != [] && PidOf(k, k.free[0]) == 0
    ensures RoomForPid(k) <==> k.nextPid < MAXPROC - 1
  {
    var i := UnusedSlot(k);
    var j :| 0 <= j < |k.free| && k.free[j] == i;
    assert j > 0 ==> PidOf(k, k.free[0]) == 0;
  }

  /** Nothing is claimed or released. */
  ghost predicate SameFree(k: Kernel, l: Kernel) {
    l.free == k.free && l.nextPid == k.nextPid && forall q :: PidOf(l, q) == PidOf(k, q)
  }

  lemma SameFreeFresh(k: Kernel, l: Kernel)
    requires FreshFirst(k) && SameFree(k, l)
    ensures FreshFirst(l)
  {
  }

  lemma RecycledFresh(k: Kernel, i: nat)
    requires Ok(k) && FreshFirst(k) && i < |k.run|
    ensures var l := Recycled(k.(run := RemoveAt(k.run, i)), k.run[i]); FreshFirst(l) && l.nextPid == k.nextPid
  {
    assert Live(k, k.run[i]) && PidOk(k, k.run[i]);
  }

  lemma SignalledFree(k: Kernel, p: int)
    ensures SameFree(k, Signalled(k, p))
  {
    SignalledRun(k, p);
  }

  lemma {:induction false} ScanFresh(k: Kernel, i: nat)
    requires Ok(k) && k.rp == Bad && ScanSafe(k, i) && FreshFirst(k)
    ensures var l := Scan(k, i).kernel; FreshFirst(l) && l.nextPid == k.nextPid
    decreases |k.run| - i
  {
    hide Ok, Signalled, Recycled, SignalSafe, PidsKept, SameSlots, FreshFirst;
    if i < |k.run| {
      var p := k.run[i];
      if StateOf(k, p) == Dead {
        RecycledRun(k, i);
        RecycledOk(k, i);
        RecycledFresh(k, i);
        ScanFresh(Recycled(k.(run := RemoveAt(k.run, i)), p), i);
      } else {
        SignalledRun(k, p);
        QueuedLive(k, i);
        SignalledOk(k, p);
        SignalledFree(k, p);
        var l := Signalled(k, p);
        SameFreeFresh(k, l);
        if StateOf(l, p) == Ready {
          SameFreeFresh(l, Scan(k, i).kernel);
        } else {
          ScanFresh(l, i + 1);
        }
      }
    }
  }

  lemma QueuedLive(k: Kernel, i: nat)
    requires i < |k.run|
    ensures Live(k, k.run[i])
  {
  }

  function Count(s: Step): nat { if s == Spawn then 1 else 0 }

  /** Only a spawn takes a slot, and it takes one that never had a process. */
  lemma StepFresh(k: Kernel, s: Step)
    requires Ok(k) && Allowed(k, s) && FreshFirst(k)
    ensures FreshFirst(After(k, s)) && After(k, s).nextPid == k.nextPid + Count(s)
  {
    hide Ok, ScanSafe, SignalSafe, Unlinked, FreshFirst;
    match s
    case Spawn => SpawnFresh(k);
    case Look =>
      ScanFresh(k, 0);
      SameFreeFresh(Scan(k, 0).kernel, Picked(k));
    case Exit =>
      WakeQueues(k, k.rp.slot);
      SameFreeFresh(k, Exited(k));
    case Yield =>
      if k.rp.Slot? {
        SignalledRun(Preempted(k), k.rp.slot);
        hide Signalled;
        SameFreeFresh(k, Yielded(k));
      } else {
        SameFreeFresh(k, Yielded(k));
      }
    case _ => SameFreeFresh(k, After(k, s));
  }

  lemma SpawnFresh(k: Kernel)
    requires Ok(k) && RoomForPid(k) && FreshFirst(k)
    ensures FreshFirst(Spawned(k)) && Spawned(k).nextPid == k.nextPid + 1
  {
    var l := Spawned(k);
    HeadIsFresh(k);
    FirstSlot(k);
    SpawnedIs(k);
    assert forall i :: 0 <= i < |l.free| ==> l.free[i] == k.free[i + 1] && l.free[i] != k.free[0];
  }

  lemma FirstSlot(k: Kernel)
    requires Ok(k) && k.free != []
    ensures IsSlot(k.free[0]) && Shaped(k)
  {
  }

  ghost function Spawns(steps: seq<Step>): nat {
    if steps == [] then 0 else Count(steps[0]) + Spawns(steps[1..])
  }

  lemma {:induction false} RunFresh(k: Kernel, steps: seq<Step>)
    requires Ok(k) && AllowedRun(k, steps) && FreshFirst(k)
    ensures Ok(Final(k, steps)) && FreshFirst(Final(k, steps)) && Final(k, steps).nextPid == k.nextPid + Spawns(steps)
    decreases |steps|
  {
    hide Ok, After, ScanSafe, SignalSafe, Unlinked, FreshFirst;
    if steps != [] {
      StepOk(k, steps[0]);
      StepFresh(k, steps[0]);
      RunFresh(After(k, steps[0]), steps[1..]);
    }
  }

  /**
   * Every boot, whatever runs: each spawn takes a slot that never had a process and the next
   * pid, so there are never more than 126, and the next one is possible exactly while there
   * have been fewer.
   */
  lemma SpawnLimit(steps: seq<Step>)
    requires AllowedRun(Boot(), steps)
    ensures var k := Final(Boot(), steps);
      && k.nextPid == Spawns(steps) <= MAXPROC - 1 && k.free != [] && PidOf(k, k.free[0]) == 0
      && (RoomForPid(k) <==> Spawns(steps) < MAXPROC - 1)
  {
    BootOk();
    RunFresh(Boot(), steps);
    HeadIsFresh(Final(Boot(), steps));
  }

  function SpawnRun(n: nat): seq<Step> { seq(n, _ => Spawn) }

  lemma {:induction false} SpawnsAllowed(k: Kernel, n: nat)
    requires Ok(k) && FreshFirst(k) && k.rp == Nobody && k.nextPid + n <= MAXPROC - 1
    ensures AllowedRun(k, SpawnRun(n)) && Final(k, SpawnRun(n)).nextPid == k.nextPid + n
    decreases n
  {
    hide Ok, FreshFirst;
    if n > 0 {
      HeadIsFresh(k);
      StepOk(k, Spawn);
      StepFresh(k, Spawn);
      FirstSlot(k);
      SpawnedIs(k);
      SpawnsAllowed(Spawned(k), n - 1);
      assert SpawnRun(n)[1..] == SpawnRun(n - 1);
    }
  }

  /** The limit is reached: after 126 spawns, the next process would get pid 127, which has no entry in the table. */
  lemma LastSpawn()
    ensures var steps := SpawnRun(MAXPROC - 1);
      AllowedRun(Boot(), steps) && var k := Final(Boot(), steps);
        !RoomForPid(k) && k.free != [] && PidOf(Spawned(k), k.free[0]) == MAXPROC == |Spawned(k).table|
  {
    BootOk();
    SpawnsAllowed(Boot(), MAXPROC - 1);
    var steps := SpawnRun(MAXPROC - 1);
    RunFresh(Boot(), steps);
    HeadIsFresh(Final(Boot(), steps));
    PastTheTable(Final(Boot(), steps));
  }

  /** The chunk of the table's block has room for one entry more than asked, and at most 16 bytes behind that. */
  lemma TableBlock(lay: HeapModel.Layout, h: HeapModel.Heap, pid: int)
    requires HeapInvariant.Wf(lay, h) && HeapInvariant.NoneLoose(h)
    ensures var r := HeapModel.Malloc(h, 4 * MAXPROC, pid);
      r.chunk.Some? ==> 4 * (MAXPROC + 1) <= HeapModel.Size(r.heap, r.chunk.value) - 8 <= 4 * (MAXPROC + 1) + 16
  {
    hide HeapModel.Allocate;
    HeapRuns.MallocWf(lay, h, 4 * MAXPROC, pid);
    var r := HeapModel.Malloc(h, 4 * MAXPROC, pid);
    if r.chunk.Some? { assert HeapInvariant.Fits(lay, r.heap.chunks, r.chunk.value); }
  }
}
