/** What becomes of a process that has exited, or that an alarm takes out of its wait. */
module SchedLives {
  import opened Sequences
  import opened SchedModel
  import opened SchedInvariant
  import opened SchedSteps
  import opened SchedRuns
  import opened SchedFairness

  // ----- exit

  /** An exited process stays dead exactly when no signal is pending, or an abort is, which masks the others. */
  lemma StaysDead(k: Kernel)
    requires Ok(k) && k.rp.Slot? && StateOf(k, k.rp.slot) == Dead
    ensures StateOf(Yielded(k), k.rp.slot) == Dead <==> Pending(k, k.rp.slot) == NONE || Pending(k, k.rp.slot).abort
  {
    var r := k.rp.slot;
    LiveIsSlot(k, r);
    WakeMeans(k, r);
    if Parent(k, r) != -1 { ParentIsOther(k, r); }
  }

  /** A dead process on the run queue, which no queued child is about to make wait. */
  ghost predicate Mourned(k: Kernel, p: int) {
    p in k.run && StateOf(k, p) == Dead && forall q :: q in k.run ==> !Continues(k, q, p)
  }

  lemma RecycledMourned(k: Kernel, i: nat, p: int)
    requires Ok(k) && Mourned(k, p) && i < |k.run| && StateOf(k, k.run[i]) == Dead && k.run[i] != p
    ensures Mourned(Recycled(k.(run := RemoveAt(k.run, i)), k.run[i]), p)
  {
    var l := Recycled(k.(run := RemoveAt(k.run, i)), k.run[i]);
    RemoveAtMeans(k.run, i);
    forall q | q in l.run ensures !Continues(l, q, p) {
      assert !Continues(k, q, p);
    }
  }

  lemma SignalledMourned(k: Kernel, q: int, p: int)
    requires Ok(k) && Mourned(k, p) && q in k.run && q != p
    ensures Mourned(Signalled(k, q), p)
  {
    var l := Signalled(k, q);
    SignalledRun(k, q);
    WakeMeans(k, q);
    assert Detached(k, p);
    forall r | r in l.run ensures !Continues(l, r, p) {
      assert !Continues(k, r, p);
    }
    assert !Continues(k, q, p);
  }

  /** What is free stays free through a scan. */
  lemma {:induction false} ScanKeepsFree(k: Kernel, i: nat, p: int)
    requires p in k.free
    ensures p in Scan(k, i).kernel.free
    decreases |k.run| - i
  {
    hide Signalled;
    if i < |k.run| {
      var q := k.run[i];
      if StateOf(k, q) == Dead {
        RecycledRun(k, i);
        ScanKeepsFree(Recycled(k.(run := RemoveAt(k.run, i)), q), i, p);
      } else {
        SignalledRun(k, q);
        if StateOf(Signalled(k, q), q) != Ready { ScanKeepsFree(Signalled(k, q), i + 1, p); }
      }
    }
  }

  lemma FreeNotQueued(k: Kernel, p: int)
    requires Ok(k) && p in k.free
    ensures p !in k.run
  {
    assert IsSlot(p) && InOnePlace(k, p);
  }

  /** What is before `p` after an earlier element is gone was before it already. */
  lemma BeforeRemoval(xs: seq<int>, x: int, p: int, i: nat)
    requires p in xs && i < |xs| && i < Index(xs, p) && x in RemoveAt(xs, i) && Index(RemoveAt(xs, i), x) < Index(RemoveAt(xs, i), p)
    ensures x in xs && Index(xs, x) < Index(xs, p)
  {
    IndexAfterRemoval(xs, p, i);
    IndexMeans(RemoveAt(xs, i), x);
    IndexMeans(xs, p);
    var j := Index(RemoveAt(xs, i), x);
    var m := if j < i then j else j + 1;
    assert xs[m] == x;
    IndexAtMost(xs, x, m);
  }

  lemma IndexAtMost(xs: seq<int>, x: int, m: nat)
    requires m < |xs| && xs[m] == x
    ensures Index(xs, x) <= m
  {
    IndexMeans(xs, x);
  }

  /** A scan that starts at or before a dead process recycles it, unless it stops at one before it. */
  lemma {:induction false} ScanBuries(k: Kernel, i: nat, p: int)
    requires Ok(k) && k.rp == Bad && ScanSafe(k, i) && Mourned(k, p) && i <= Index(k.run, p)
    ensures var s := Scan(k, i);
      || (p in s.kernel.free && p !in s.kernel.run)
      || (s.pick.Slot? && s.pick.slot in k.run && Index(k.run, s.pick.slot) < Index(k.run, p))
    decreases |k.run| - i
  {
    hide Ok, Signalled, Recycled, SignalSafe, PidsKept, Mourned, SameSlots;
    MournedInRun(k, p);
    IndexMeans(k.run, p);
    ScanOk(k, i);
    var q := k.run[i];
    if StateOf(k, q) == Dead {
      RecycledRun(k, i);
      RecycledOk(k, i);
      var l := Recycled(k.(run := RemoveAt(k.run, i)), q);
      if q == p {
        RecycledIsFree(k, i);
        ScanKeepsFree(l, i, p);
        FreeNotQueued(Scan(l, i).kernel, p);
      } else {
        RecycledMourned(k, i, p);
        BeforeOther(k.run, p, i);
        IndexAfterRemoval(k.run, p, i);
        ScanBuries(l, i, p);
        var s := Scan(l, i);
        if s.pick.Slot? && s.pick.slot in l.run && Index(l.run, s.pick.slot) < Index(l.run, p) {
          BeforeRemoval(k.run, s.pick.slot, p, i);
        }
      }
    } else {
      SignalledRun(k, q);
      SignalledOk(k, q);
      BeforeOther(k.run, p, i);
      SignalledMourned(k, q, p);
      var l := Signalled(k, q);
      if StateOf(l, q) == Ready {
        IndexAtMost(k.run, q, i);
      } else {
        ScanBuries(l, i + 1, p);
      }
    }
  }

  lemma MournedInRun(k: Kernel, p: int)
    requires Mourned(k, p)
    ensures p in k.run && StateOf(k, p) == Dead
  {
  }

  lemma BeforeOther(xs: seq<int>, p: int, i: nat)
    requires p in xs && i <= Index(xs, p) && i < |xs| && xs[i] != p
    ensures i < Index(xs, p)
  {
    IndexMeans(xs, p);
  }

  lemma RecycledIsFree(k: Kernel, i: nat)
    requires Ok(k) && i < |k.run|
    ensures k.run[i] in Recycled(k.(run := RemoveAt(k.run, i)), k.run[i]).free
  {
    var l := Recycled(k.(run := RemoveAt(k.run, i)), k.run[i]);
    LiveIsSlot(k, k.run[i]);
    assert l.free[|k.free|] == k.run[i];
  }

  /** The next look recycles a dead queued process, unless it picks one that was before it. */
  lemma DeadIsRecycled(k: Kernel, p: int)
    requires Ok(k) && Allowed(k, Look) && Mourned(k, p)
    ensures var l := After(k, Look);
      || (p in l.free && p !in l.run)
      || (l.rp.Slot? && l.rp.slot in k.run && Index(k.run, l.rp.slot) < Index(k.run, p))
  {
    ScanOk(k, 0);
    ScanBuries(k, 0, p);
  }

  // ----- alarms

  /** An alarm makes a waiting process ready, and leaves it in the wait queue it is in. */
  lemma AlarmLeavesWaiting(k: Kernel, p: int, r: int)
    requires Ok(k) && IsSlot(r) && p in k.waiting[r]
    requires Pending(k, p).alarm && !Pending(k, p).abort && !Pending(k, p).stop && !Pending(k, p).cont
    ensures var l := Signalled(k, p); SignalSafe(k, p) && Ok(l) && StateOf(l, p) == Ready && p in l.waiting[r] && !Unlinked(l, p)
  {
    WaiterIsLive(k, r, p);
    SignalledOk(k, p);
  }

  // ----- a boot with one process

  const ALARM := Sigs(false, false, false, true)
  const FIRST := MAXPROC - 1

  /** After one spawn: the state of the process, its pending signals, who waits on it, the run queue and the runner. */
  function One(state: State, pending: Sigs, waiters: seq<int>, run: seq<int>, rp: Current): Kernel {
    var b := Boot();
    Kernel(b.procs[FIRST := Proc(1, 0, state, pending, NONE)], b.free[1..], run, b.waiting[FIRST := waiters],
           b.table[1 := FIRST], 1, rp)
  }

  lemma OneSpawned()
    ensures Allowed(Boot(), Spawn) && After(Boot(), Spawn) == One(Ready, NONE, [], [FIRST], Nobody)
  {
    var b := Boot();
    assert b.free[0] == FIRST && [] + [FIRST] == [FIRST] && b.waiting[FIRST := []] == b.waiting;
  }

  /** From ready, or running with an alarm that the yield delivers, to the end of the queue. */
  lemma OneYields(waiters: seq<int>, rp: Current, state: State, pending: Sigs)
    requires rp == Nobody ==> state == Ready && pending == NONE
    requires rp != Nobody ==> rp == Slot(FIRST) && (state == Waiting || state == Dead) && pending == ALARM
    ensures var k := One(state, pending, waiters, if rp == Nobody then [FIRST] else [], rp);
      Allowed(k, Yield) && After(k, Yield) == One(Ready, NONE, waiters, [FIRST], Bad)
  {
    var k := One(state, pending, waiters, if rp == Nobody then [FIRST] else [], rp);
    assert [] + [FIRST] == [FIRST];
    if rp != Nobody {
      assert After(k, Yield).procs == One(Ready, NONE, waiters, [FIRST], Bad).procs;
    }
  }

  lemma OneLooks(waiters: seq<int>)
    ensures var k := One(Ready, NONE, waiters, [FIRST], Bad);
      Allowed(k, Look) && After(k, Look) == One(Running, NONE, waiters, [], Slot(FIRST))
  {
    var k := One(Ready, NONE, waiters, [FIRST], Bad);
    QuietSignal(k, FIRST);
    assert k.run[0] == FIRST && RemoveAt(k.run, 0) == [];
    assert After(k, Look).procs == One(Running, NONE, waiters, [], Slot(FIRST)).procs;
  }

  lemma OneAlarmed(state: State, waiters: seq<int>)
    ensures var k := One(state, NONE, waiters, [], Slot(FIRST));
      Allowed(k, Post(1, ALARM)) && After(k, Post(1, ALARM)) == One(state, ALARM, waiters, [], Slot(FIRST))
  {
    var k := One(state, NONE, waiters, [], Slot(FIRST));
    assert k.table[1] == FIRST;
    assert After(k, Post(1, ALARM)).procs == One(state, ALARM, waiters, [], Slot(FIRST)).procs;
  }

  lemma OneExits()
    ensures var k := One(Running, ALARM, [], [], Slot(FIRST));
      Allowed(k, Exit) && After(k, Exit) == One(Dead, ALARM, [], [], Slot(FIRST))
  {
    var k, l := One(Running, ALARM, [], [], Slot(FIRST)), One(Dead, ALARM, [], [], Slot(FIRST));
    assert Wake(k, FIRST) == k;
    assert Unwait(k.waiting, FIRST) == k.waiting;
    assert After(k, Exit).procs == l.procs;
  }

  lemma OneWaits()
    ensures var k := One(Running, NONE, [], [], Slot(FIRST));
      Allowed(k, WaitFor(1)) && After(k, WaitFor(1)) == One(Waiting, NONE, [FIRST], [], Slot(FIRST))
  {
    var k, l := One(Running, NONE, [], [], Slot(FIRST)), One(Waiting, NONE, [FIRST], [], Slot(FIRST));
    assert k.table[1] == FIRST;
    assert [FIRST] + [] == [FIRST];
    assert After(k, WaitFor(1)).waiting == l.waiting;
    assert After(k, WaitFor(1)).procs == l.procs;
  }

  lemma OneMore(k: Kernel, s: Step, rest: seq<Step>, f: Kernel)
    requires Allowed(k, s) && AllowedRun(After(k, s), rest) && Final(After(k, s), rest) == f
    ensures AllowedRun(k, [s] + rest) && Final(k, [s] + rest) == f
  {
    assert ([s] + rest)[1..] == rest;
  }

  /** A run from boot in which a process exits with an alarm pending, and is ready again. */
  lemma ExitedRunsAgain()
    ensures var steps := [Spawn, Yield, Look, Post(1, ALARM), Exit, Yield];
      AllowedRun(Boot(), steps) && StateOf(Final(Boot(), steps), FIRST) == Ready && FIRST in Final(Boot(), steps).run
  {
    hide Allowed, After;
    var k1, k2 := One(Ready, NONE, [], [FIRST], Nobody), One(Ready, NONE, [], [FIRST], Bad);
    var k3, k4 := One(Running, NONE, [], [], Slot(FIRST)), One(Running, ALARM, [], [], Slot(FIRST));
    var k5 := One(Dead, ALARM, [], [], Slot(FIRST));
    OneSpawned();
    OneYields([], Nobody, Ready, NONE);
    OneLooks([]);
    OneAlarmed(Running, []);
    OneExits();
    OneYields([], Slot(FIRST), Dead, ALARM);
    hide One;
    OneMore(k5, Yield, [], k2);
    OneMore(k4, Exit, [Yield], k2);
    OneMore(k3, Post(1, ALARM), [Exit, Yield], k2);
    OneMore(k2, Look, [Post(1, ALARM), Exit, Yield], k2);
    OneMore(k1, Yield, [Look, Post(1, ALARM), Exit, Yield], k2);
    OneMore(Boot(), Spawn, [Yield, Look, Post(1, ALARM), Exit, Yield], k2);
    assert [Spawn] + [Yield, Look, Post(1, ALARM), Exit, Yield] == [Spawn, Yield, Look, Post(1, ALARM), Exit, Yield];
  }

  /** A run from boot after which the running process is still in a wait queue, so that its next wait breaks the queues. */
  lemma AlarmedWaiterRuns()
    ensures var steps := [Spawn, Yield, Look, WaitFor(1), Post(1, ALARM), Yield, Look];
      AllowedRun(Boot(), steps) && var k := Final(Boot(), steps);
        IsRunning(k) && !Unlinked(k, k.rp.slot) && Has(k.table, 1) && !Ok(WaitedFor(k, 1))
  {
    hide Allowed, After;
    var k1, k2 := One(Ready, NONE, [], [FIRST], Nobody), One(Ready, NONE, [], [FIRST], Bad);
    var k3, k4 := One(Running, NONE, [], [], Slot(FIRST)), One(Waiting, NONE, [FIRST], [], Slot(FIRST));
    var k5, k6 := One(Waiting, ALARM, [FIRST], [], Slot(FIRST)), One(Ready, NONE, [FIRST], [FIRST], Bad);
    var k7 := One(Running, NONE, [FIRST], [], Slot(FIRST));
    OneSpawned();
    OneYields([], Nobody, Ready, NONE);
    OneLooks([]);
    OneWaits();
    OneAlarmed(Waiting, [FIRST]);
    OneYields([FIRST], Slot(FIRST), Waiting, ALARM);
    OneLooks([FIRST]);
    assert Has(k7.table, 1) && FIRST in k7.waiting[FIRST];
    assert IsRunning(k7) && !Unlinked(k7, FIRST);
    hide One;
    OneMore(k6, Look, [], k7);
    OneMore(k5, Yield, [Look], k7);
    OneMore(k4, Post(1, ALARM), [Yield, Look], k7);
    OneMore(k3, WaitFor(1), [Post(1, ALARM), Yield, Look], k7);
    OneMore(k2, Look, [WaitFor(1), Post(1, ALARM), Yield, Look], k7);
    OneMore(k1, Yield, [Look, WaitFor(1), Post(1, ALARM), Yield, Look], k7);
    OneMore(Boot(), Spawn, [Yield, Look, WaitFor(1), Post(1, ALARM), Yield, Look], k7);
    var steps := [Spawn] + [Yield, Look, WaitFor(1), Post(1, ALARM), Yield, Look];
    assert steps == [Spawn, Yield, Look, WaitFor(1), Post(1, ALARM), Yield, Look];
    BootOk();
    RunOk(Boot(), steps);
    WaitForExactly(k7, 1);
  }
}
