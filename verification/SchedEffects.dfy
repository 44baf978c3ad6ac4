/** What each kernel operation does to every process and every queue, spelled out. */
module SchedEffects {
  import opened Sequences
  import opened SchedModel
  import opened SchedInvariant
  import opened SchedSteps
  import opened SchedRuns
  import opened SchedFairness

  // ----- what stays

  /** Run queue, free list, table, pid counter and runner stay. */
  predicate SamePlaces(k: Kernel, l: Kernel) {
    Shaped(k) && Shaped(l) && l.run == k.run && l.free == k.free && l.table == k.table && l.nextPid == k.nextPid && l.rp == k.rp
  }

  /** Everything about a process but its state. */
  predicate Now(a: Proc, b: Proc, s: State) {
    b.pid == a.pid && b.ppid == a.ppid && b.pending == a.pending && b.mask == a.mask && b.state == s
  }

  /** Without `x`, everything else in its old order. */
  predicate LeftOut(xs: seq<int>, ys: seq<int>, x: int) {
    (x !in xs && ys == xs) || exists i :: 0 <= i < |xs| && xs[i] == x && ys == xs[..i] + xs[i + 1..]
  }

  // ----- exit

  /** The runner `r` has ended: its waiters, and only they, are ready; nobody waits for it and it waits for nobody. */
  ghost predicate Ended(k: Kernel, l: Kernel, r: int) {
    && SamePlaces(k, l) && IsSlot(r) && Now(k.procs[r], l.procs[r], Dead) && l.waiting[r] == []
    && (forall q :: IsSlot(q) && q != r && q in k.waiting[r] ==> Now(k.procs[q], l.procs[q], Ready))
    && (forall q :: IsSlot(q) && q != r && q !in k.waiting[r] ==> l.procs[q] == k.procs[q])
    && (forall p :: IsSlot(p) && p != r ==> r !in l.waiting[p] && LeftOut(k.waiting[p], l.waiting[p], r))
  }

  lemma DropLeavesOut(xs: seq<int>, x: int)
    requires NoDup(xs)
    ensures LeftOut(xs, Drop(xs, x), x) && x !in Drop(xs, x)
  {
    DropMeans(xs, x);
    if x in xs { var i := DropIs(xs, x); }
  }

  lemma {:induction false} DropIs(xs: seq<int>, x: int) returns (i: nat)
    requires x in xs
    ensures i < |xs| && xs[i] == x && Drop(xs, x) == xs[..i] + xs[i + 1..]
    decreases |xs|
  {
    if xs[0] == x {
      i := 0;
    } else {
      i := DropIs(xs[1..], x);
      assert [xs[0]] + (xs[1..][..i] + xs[1..][i + 1..]) == xs[..i + 1] + xs[i + 2..];
      i := i + 1;
    }
  }

  lemma ExitedMeans(k: Kernel)
    requires Ok(k) && k.rp.Slot?
    ensures Ended(k, Exited(k), k.rp.slot)
  {
    var r, l := k.rp.slot, Exited(k);
    LiveIsSlot(k, r);
    WakeMeans(k, r);
    forall p | IsSlot(p) && p != r ensures r !in l.waiting[p] && LeftOut(k.waiting[p], l.waiting[p], r) {
      assert l.waiting[p] == Drop(k.waiting[p], r);
      DropLeavesOut(k.waiting[p], r);
    }
  }

  // ----- signals

  /** Nobody waits for `p` any more, and who did is ready; `p` itself is in state `s`. */
  ghost predicate Released(k: Kernel, l: Kernel, p: int, s: State)
    requires Shaped(k) && Shaped(l) && IsSlot(p)
  {
    && l.procs[p].state == s && l.waiting[p] == []
    && (forall q :: IsSlot(q) && q != p && q in k.waiting[p] ==> Now(k.procs[q], l.procs[q], Ready))
    && (forall q :: IsSlot(q) && q != p && q !in k.waiting[p] ==> l.procs[q] == k.procs[q])
    && (forall q :: IsSlot(q) && q != p ==> l.waiting[q] == k.waiting[q])
  }

  /** `p` is ready, and the process its parent pid names waits for it, before all others. */
  ghost predicate Resumed(k: Kernel, l: Kernel, p: int)
    requires Shaped(k) && Shaped(l) && IsSlot(p)
  {
    && Has(k.table, k.procs[p].ppid) && IsSlot(k.table[k.procs[p].ppid])
    && var par := k.table[k.procs[p].ppid];
      && par != p && l.procs[p].state == Ready && Now(k.procs[par], l.procs[par], Waiting)
      && l.waiting[p] == [par] + k.waiting[p]
      && (forall q :: IsSlot(q) && q != p && q != par ==> l.procs[q] == k.procs[q])
      && (forall q :: IsSlot(q) && q != p ==> l.waiting[q] == k.waiting[q])
  }

  /** Only the state of `p` changes. */
  ghost predicate OnlyState(k: Kernel, l: Kernel, p: int, s: State)
    requires Shaped(k) && Shaped(l) && IsSlot(p)
  {
    l.procs[p].state == s && l.waiting == k.waiting && forall q :: IsSlot(q) && q != p ==> l.procs[q] == k.procs[q]
  }

  /** Abort comes before stop, stop before continue, continue before alarm; afterwards nothing is pending. */
  ghost predicate Delivered(k: Kernel, l: Kernel, p: int) {
    && SamePlaces(k, l) && IsSlot(p) && var s, a, b := k.procs[p].pending, k.procs[p], l.procs[p];
      && b.pid == a.pid && b.ppid == a.ppid && b.mask == a.mask && b.pending == NONE
      && (s.abort ==> Released(k, l, p, Dead))
      && (!s.abort && s.stop ==> Released(k, l, p, Stopped))
      && (!s.abort && !s.stop && s.cont ==> Resumed(k, l, p))
      && (!s.abort && !s.stop && !s.cont && s.alarm ==> OnlyState(k, l, p, Ready))
      && (s == NONE ==> l == k)
  }

  lemma SignalledMeans(k: Kernel, p: int)
    requires Ok(k) && Live(k, p) && SignalSafe(k, p)
    ensures Delivered(k, Signalled(k, p), p)
  {
    LiveIsSlot(k, p);
    WakeMeans(k, p);
    var s := k.procs[p].pending;
    if !s.abort && !s.stop && s.cont { ParentIsOther(k, p); }
    if s == NONE { QuietSignal(k, p); }
  }

  /** Exactly the signals that the process does not mask become pending, besides those that were. */
  ghost predicate Signed(k: Kernel, l: Kernel, pid: int, sig: Sigs) {
    if 0 <= pid < |k.table| && IsSlot(k.table[pid]) then
      && SamePlaces(k, l) && l.waiting == k.waiting
      && (forall q :: IsSlot(q) && q != k.table[pid] ==> l.procs[q] == k.procs[q])
      && var a, b := k.procs[k.table[pid]], l.procs[k.table[pid]];
        && b.pid == a.pid && b.ppid == a.ppid && b.state == a.state && b.mask == a.mask
        && (b.pending.abort <==> a.pending.abort || (sig.abort && !a.mask.abort))
        && (b.pending.stop <==> a.pending.stop || (sig.stop && !a.mask.stop))
        && (b.pending.cont <==> a.pending.cont || (sig.cont && !a.mask.cont))
        && (b.pending.alarm <==> a.pending.alarm || (sig.alarm && !a.mask.alarm))
    else l == k
  }

  lemma PostedMeans(k: Kernel, pid: int, sig: Sigs)
    requires Ok(k)
    ensures Signed(k, Posted(k, pid, sig), pid, sig)
  {
  }

  /** The runner's mask, and nothing else, is replaced. */
  ghost predicate MaskSet(k: Kernel, l: Kernel, mask: Sigs) {
    && SamePlaces(k, l) && l.waiting == k.waiting && k.rp.Slot? && IsSlot(k.rp.slot)
    && (forall q :: IsSlot(q) && q != k.rp.slot ==> l.procs[q] == k.procs[q])
    && var a, b := k.procs[k.rp.slot], l.procs[k.rp.slot];
      b.pid == a.pid && b.ppid == a.ppid && b.state == a.state && b.pending == a.pending && b.mask == mask
  }

  lemma MaskedMeans(k: Kernel, mask: Sigs)
    requires Ok(k) && k.rp.Slot?
    ensures MaskSet(k, Masked(k, mask), mask)
  {
  }

  // ----- waiting

  /** The runner waits, in front of the others, for the process with this pid. */
  ghost predicate NowWaits(k: Kernel, l: Kernel, pid: int) {
    && SamePlaces(k, l) && k.rp.Slot? && IsSlot(k.rp.slot) && 0 <= pid < |k.table| && IsSlot(k.table[pid])
    && var r, p := k.rp.slot, k.table[pid];
      && Now(k.procs[r], l.procs[r], Waiting) && l.waiting[p] == [r] + k.waiting[p]
      && (forall q :: IsSlot(q) && q != r ==> l.procs[q] == k.procs[q])
      && (forall q :: IsSlot(q) && q != p ==> l.waiting[q] == k.waiting[q])
  }

  lemma WaitedForMeans(k: Kernel, pid: int)
    requires Ok(k) && Allowed(k, WaitFor(pid))
    ensures if 0 <= pid <= MAXPROC then NowWaits(k, WaitedFor(k, pid), pid) else WaitedFor(k, pid) == k
  {
  }

  // ----- spawning

  /** The oldest free slot runs a new process, a child of the runner with nothing pending or masked, last in the queue. */
  ghost predicate Started(k: Kernel, l: Kernel) {
    && Shaped(k) && Shaped(l) && k.free != [] && IsSlot(k.free[0])
    && var p := k.free[0]; var a, b := k.procs[p], l.procs[p];
      && l.free == k.free[1..] && l.run == k.run + [p] && l.waiting == k.waiting && l.rp == k.rp
      && b.state == Ready && b.pending == NONE && b.mask == NONE
      && b.ppid == (if k.rp.Slot? then PidOf(k, k.rp.slot) else 0)
      && (a.pid != 0 ==> b.pid == a.pid && l.nextPid == k.nextPid)
      && (a.pid == 0 ==> b.pid == l.nextPid == k.nextPid + 1)
      && (forall q :: IsSlot(q) && q != p ==> l.procs[q] == k.procs[q])
      && (forall pid :: 0 <= pid < |k.table| ==> l.table[pid] == if pid == b.pid then p else k.table[pid])
  }

  lemma SpawnedMeans(k: Kernel)
    requires Ok(k) && RoomForPid(k) && k.rp != Bad
    ensures Started(k, Spawned(k))
  {
    SpawnedTable(k);
    SpawnedIs(k);
    RoomExactly(k);
  }

  // ----- switching

  /** The runner, ready if it was running, is last in the queue with its signals delivered. */
  ghost predicate PutBack(k: Kernel, l: Kernel, r: int)
  {
    && Shaped(k) && IsSlot(r) && l.run == k.run + [r] && l.rp == Bad
    && var a := k.procs[r];
      Delivered(k.(procs := k.procs[r := if a.state == Running then a.(state := Ready) else a]), l.(run := k.run, rp := k.rp), r)
  }

  lemma YieldedMeans(k: Kernel)
    requires Ok(k) && Allowed(k, Yield)
    ensures match k.rp case Slot(r) => PutBack(k, Yielded(k), r) case _ => Yielded(k) == k.(rp := Bad)
  {
    hide Ok, Signalled, SignalSafe, Delivered;
    if k.rp.Slot? {
      var r := k.rp.slot;
      LiveIsSlot(k, r);
      var k1 := Preempted(k);
      if StateOf(k, r) == Running { SetStateOk(k, r, Ready); }
      SignalledMeans(k1, r);
      var l := Signalled(k1, r);
      SignalledRun(k1, r);
      assert Yielded(k) == l.(run := k.run + [r], rp := Bad);
      assert Yielded(k).(run := k.run, rp := k.rp) == l;
      assert k.procs[r := k.procs[r]] == k.procs;
    }
  }

  /** A process that a look takes when it comes to it: ready with nothing pending, or alarmed. */
  predicate Runnable(k: Kernel, p: int) {
    var s := Pending(k, p);
    StateOf(k, p) != Dead && !s.abort && !s.stop && !s.cont && (s.alarm || StateOf(k, p) == Ready)
  }

  /** With only stuck processes before it, a runnable one is taken off the queue and runs. */
  lemma LookTakes(k: Kernel, i: nat)
    requires Ok(k) && k.rp == Bad && i < |k.run| && Stuck(k, i) && Runnable(k, k.run[i])
    ensures var p := k.run[i];
      IsSlot(p) && Picked(k) == k.(run := k.run[..i] + k.run[i + 1..], rp := Slot(p),
                                   procs := k.procs[p := k.procs[p].(state := Running, pending := NONE)])
  {
    var p := k.run[i];
    LiveIsSlot(k, p);
    StuckSkips(k, 0, i);
    SignalledRun(k, p);
    if Pending(k, p) == NONE {
      QuietSignal(k, p);
      assert k.procs[p].(pending := NONE) == k.procs[p];
    }
  }

  lemma {:induction false} StuckSkips(k: Kernel, i: nat, j: nat)
    requires Stuck(k, j) && i <= j <= |k.run|
    ensures Scan(k, i) == Scan(k, j)
    decreases j - i
  {
    hide Signalled;
    if i < j {
      QuietSignal(k, k.run[i]);
      SignalledRun(k, k.run[i]);
      StuckSkips(k, i + 1, j);
    }
  }

  /** With only stuck processes before it, a dead one goes to the end of the free list, keeping just its pid, and the look goes on. */
  lemma LookBuries(k: Kernel, i: nat)
    requires Ok(k) && k.rp == Bad && i < |k.run| && Stuck(k, i) && StateOf(k, k.run[i]) == Dead
    ensures IsSlot(k.run[i]) && 0 <= PidOf(k, k.run[i]) < |k.table|
    ensures var p := k.run[i];
      Picked(k) == Picked(k.(run := k.run[..i] + k.run[i + 1..], free := k.free + [p],
                             procs := k.procs[p := Proc(PidOf(k, p), 0, Dead, NONE, NONE)],
                             table := k.table[PidOf(k, p) := NOPROC]))
  {
    var p := k.run[i];
    LiveIsSlot(k, p);
    PidBound(k);
    StuckSkips(k, 0, i);
    RecycledRun(k, i);
    var l := Recycled(k.(run := RemoveAt(k.run, i)), p);
    RemoveAtMeans(k.run, i);
    StuckSkips(l, 0, i);
  }

  /** With nobody dead, ready or signalled, a look changes nothing. */
  lemma LookFindsNobody(k: Kernel)
    requires k.rp == Bad && Stuck(k, |k.run|)
    ensures Picked(k) == k
  {
    StuckScan(k, 0);
  }

  /** Whoever a scan picks was queued, with neither an abort nor a stop pending; afterwards nothing is. */
  lemma {:induction false} ScanPicksUnharmed(k: Kernel, i: nat)
    requires Ok(k) && k.rp == Bad && ScanSafe(k, i) && Scan(k, i).pick.Slot?
    ensures var p := Scan(k, i).pick.slot;
      p in k.run[i..] && !Pending(k, p).abort && !Pending(k, p).stop && Pending(Scan(k, i).kernel, p) == NONE
    decreases |k.run| - i
  {
    hide Ok, Recycled, SignalSafe, PidsKept, SameSlots;
    var q := k.run[i];
    if StateOf(k, q) == Dead {
      RecycledRun(k, i);
      RecycledOk(k, i);
      var l := Recycled(k.(run := RemoveAt(k.run, i)), q);
      ScanPicksUnharmed(l, i);
      assert l.run[i..] == k.run[i + 1..];
      RecycledOthers(k, i, Scan(l, i).pick.slot);
    } else {
      SignalledRun(k, q);
      SignalledOk(k, q);
      LiveIsSlot(k, q);
      SignalledMeans(k, q);
      var l := Signalled(k, q);
      hide Signalled, Delivered;
      if StateOf(l, q) != Ready {
        ScanPicksUnharmed(l, i + 1);
        Later(k, i, Scan(l, i + 1).pick.slot);
      } else {
        TakenUnharmed(k, l, q);
      }
    }
  }

  lemma RecycledOthers(k: Kernel, i: nat, p: int)
    requires Ok(k) && i < |k.run| && p in k.run[i + 1..]
    ensures p in k.run[i..] && Pending(Recycled(k.(run := RemoveAt(k.run, i)), k.run[i]), p) == Pending(k, p)
  {
    Later(k, i, p);
  }

  lemma Later(k: Kernel, i: nat, p: int)
    requires Ok(k) && i < |k.run| && p in k.run[i + 1..]
    ensures p in k.run[i..] && p != k.run[i]
  {
    assert k.run[i..] == [k.run[i]] + k.run[i + 1..];
  }

  lemma TakenUnharmed(k: Kernel, l: Kernel, p: int)
    requires Delivered(k, l, p) && StateOf(l, p) == Ready
    ensures !Pending(k, p).abort && !Pending(k, p).stop && Pending(l, p) == NONE
  {
  }

  /** So a look never runs a process with an abort or a stop pending, and leaves nothing pending for the one it runs. */
  lemma LookSparesSignalled(k: Kernel)
    requires Ok(k) && Allowed(k, Look) && Picked(k).rp.Slot?
    ensures var p := Picked(k).rp.slot;
      p in k.run && !Pending(k, p).abort && !Pending(k, p).stop && Pending(Picked(k), p) == NONE && StateOf(Picked(k), p) == Running
  {
    ScanOk(k, 0);
    PickedOk(k);
    ScanPicksUnharmed(k, 0);
    hide Scan;
    assert k.run[0..] == k.run;
  }
}
