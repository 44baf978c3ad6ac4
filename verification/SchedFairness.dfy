/** No ready process is passed over for long, and idling settles. */
module SchedFairness {
  import opened Sequences
  import opened SchedModel
  import opened SchedInvariant
  import opened SchedSteps
  import opened SchedRuns

  lemma {:induction false} IndexMeans(xs: seq<int>, x: int)
    requires x in xs
    ensures Index(xs, x) < |xs| && xs[Index(xs, x)] == x
    ensures forall i :: 0 <= i < Index(xs, x) ==> xs[i] != x
  {
    if xs[0] != x { IndexMeans(xs[1..], x); }
  }

  lemma {:induction false} IndexIs(xs: seq<int>, x: int, n: nat)
    requires n < |xs| && xs[n] == x && forall i :: 0 <= i < n ==> xs[i] != x
    ensures Index(xs, x) == n
  {
    IndexMeans(xs, x);
  }

  /** Removing an earlier element moves `x` one forward. */
  lemma IndexAfterRemoval(xs: seq<int>, x: int, i: nat)
    requires x in xs && i < Index(xs, x)
    ensures i < |xs| && x in RemoveAt(xs, i) && Index(RemoveAt(xs, i), x) == Index(xs, x) - 1
  {
    IndexMeans(xs, x);
    var n, ys := Index(xs, x), RemoveAt(xs, i);
    assert ys[n - 1] == x;
    IndexIs(ys, x, n - 1);
  }

  lemma IndexAfterAppend(xs: seq<int>, x: int, y: int)
    requires x in xs
    ensures x in xs + [y] && Index(xs + [y], x) == Index(xs, x)
  {
    IndexMeans(xs, x);
    assert (xs + [y])[Index(xs, x)] == x;
    IndexIs(xs + [y], x, Index(xs, x));
  }

  /** Delivering a signal to `q` would make `p` wait for it. */
  predicate Continues(k: Kernel, q: int, p: int) {
    var s := Pending(k, q);
    !s.abort && !s.stop && s.cont && Parent(k, q) == p
  }

  /** `p` is queued and ready, is not about to be aborted or stopped, and no queued child of its is about to continue. */
  ghost predicate Calm(k: Kernel, p: int) {
    && p in k.run && StateOf(k, p) == Ready && !Pending(k, p).abort && !Pending(k, p).stop
    && forall q :: q in k.run ==> !Continues(k, q, p)
  }

  lemma RecycledCalm(k: Kernel, i: nat, p: int)
    requires Ok(k) && Calm(k, p) && i < |k.run| && StateOf(k, k.run[i]) == Dead
    ensures Calm(Recycled(k.(run := RemoveAt(k.run, i)), k.run[i]), p)
  {
    var l := Recycled(k.(run := RemoveAt(k.run, i)), k.run[i]);
    RemoveAtMeans(k.run, i);
    forall q | q in l.run ensures !Continues(l, q, p) {
      assert !Continues(k, q, p);
    }
  }

  lemma SignalledCalm(k: Kernel, q: int, p: int)
    requires Ok(k) && Calm(k, p) && q in k.run && q != p
    ensures Calm(Signalled(k, q), p)
  {
    var l := Signalled(k, q);
    SignalledRun(k, q);
    WakeMeans(k, q);
    forall r | r in l.run ensures !Continues(l, r, p) {
      assert !Continues(k, r, p);
    }
    assert !Continues(k, q, p);
  }

  /** A scan that starts at or before a calm process picks it, or one before it, which moves it up. */
  lemma {:induction false} ScanReaches(k: Kernel, i: nat, p: int)
    requires Ok(k) && k.rp == Bad && ScanSafe(k, i) && Calm(k, p) && i <= Index(k.run, p)
    ensures var s := Scan(k, i);
      s.pick.Slot? && (s.pick != Slot(p) ==>
        p in s.kernel.run && StateOf(s.kernel, p) == Ready && Index(s.kernel.run, p) < Index(k.run, p))
    decreases |k.run| - i
  {
    hide Ok, Signalled, Recycled, SignalSafe, PidsKept, Calm;
    IndexMeans(k.run, p) by { CalmInRun(k, p); }
    CalmInRun(k, p);
    var q := k.run[i];
    if StateOf(k, q) == Dead {
      RecycledRun(k, i);
      RecycledOk(k, i);
      RecycledCalm(k, i, p);
      IndexAfterRemoval(k.run, p, i);
      ScanReaches(Recycled(k.(run := RemoveAt(k.run, i)), q), i, p);
    } else {
      SignalledRun(k, q);
      SignalledOk(k, q);
      var l := Signalled(k, q);
      if q == p {
        CalmSignalled(k, p);
      } else {
        SignalledCalm(k, q, p);
        CalmInRun(l, p);
        if StateOf(l, q) == Ready {
          IndexAfterRemoval(l.run, p, i);
        } else {
          ScanReaches(l, i + 1, p);
        }
      }
    }
  }

  lemma CalmInRun(k: Kernel, p: int)
    requires Calm(k, p)
    ensures p in k.run && StateOf(k, p) == Ready
  {
  }

  lemma CalmSignalled(k: Kernel, p: int)
    requires Ok(k) && Calm(k, p)
    ensures StateOf(Signalled(k, p), p) == Ready
  {
    if Parent(k, p) != -1 { ParentIsOther(k, p); }
  }

  /** A look with a calm process queued always finds someone: that process, or one that was before it. */
  lemma LookMovesUp(k: Kernel, p: int)
    requires Ok(k) && Allowed(k, Look) && Calm(k, p)
    ensures var l := After(k, Look); l.rp.Slot? && (l.rp != Slot(p) ==> p in l.run && Index(l.run, p) < Index(k.run, p))
  {
    CalmInRun(k, p);
    IndexMeans(k.run, p);
    ScanReaches(k, 0, p);
    ScanOk(k, 0);
  }

  /** No other step moves a queued process back. */
  lemma OthersKeepPlace(k: Kernel, s: Step, p: int)
    requires Ok(k) && Allowed(k, s) && s != Look && p in k.run
    ensures p in After(k, s).run && Index(After(k, s).run, p) == Index(k.run, p)
  {
    hide Ok, ScanSafe, Wake, Signalled, SignalSafe;
    match s
    case Spawn =>
      SpawnedOk(k);
      IndexAfterAppend(k.run, p, k.free[0]);
    case Exit => WakeQueues(k, k.rp.slot);
    case Yield =>
      if k.rp.Slot? {
        SignalledRun(Preempted(k), k.rp.slot);
        IndexAfterAppend(k.run, p, k.rp.slot);
      }
    case _ =>
  }

  // ----- bounded bypass over whole runs

  /** `p` is calm in every state of the run until it is picked. */
  ghost predicate CalmUntilPicked(k: Kernel, steps: seq<Step>, p: int)
    requires AllowedRun(k, steps)
    decreases |steps|
  {
    Calm(k, p) && (steps != [] && After(k, steps[0]).rp != Slot(p) ==> CalmUntilPicked(After(k, steps[0]), steps[1..], p))
  }

  /** The looks of the run before the one that picks `p`. */
  ghost function PassedOver(k: Kernel, steps: seq<Step>, p: int): nat
    requires AllowedRun(k, steps)
    decreases |steps|
  {
    if steps == [] || After(k, steps[0]).rp == Slot(p) then 0
    else (if steps[0] == Look then 1 else 0) + PassedOver(After(k, steps[0]), steps[1..], p)
  }

  /** A calm process is passed over at most as often as there are processes before it. */
  lemma {:induction false} BoundedBypass(k: Kernel, steps: seq<Step>, p: int)
    requires Ok(k) && AllowedRun(k, steps) && CalmUntilPicked(k, steps, p)
    ensures PassedOver(k, steps, p) <= Index(k.run, p)
    decreases |steps|
  {
    hide Ok, Calm, After, PidsKept, ScanSafe, SignalSafe, Unlinked;
    if steps != [] && After(k, steps[0]).rp != Slot(p) {
      var l := After(k, steps[0]);
      CalmInRun(k, p);
      StepOk(k, steps[0]);
      BoundedBypass(l, steps[1..], p);
      if steps[0] == Look { LookMovesUp(k, p); } else { OthersKeepPlace(k, steps[0], p); }
    }
  }

  ghost function Looks(steps: seq<Step>): nat {
    if steps == [] then 0 else (if steps[0] == Look then 1 else 0) + Looks(steps[1..])
  }

  ghost predicate EverPicked(k: Kernel, steps: seq<Step>, p: int)
    requires AllowedRun(k, steps)
    decreases |steps|
  {
    steps != [] && (After(k, steps[0]).rp == Slot(p) || EverPicked(After(k, steps[0]), steps[1..], p))
  }

  /** With one look more than there are processes before it, a calm process has run. */
  lemma {:induction false} RunsInTurn(k: Kernel, steps: seq<Step>, p: int)
    requires Ok(k) && AllowedRun(k, steps) && CalmUntilPicked(k, steps, p)
    requires Looks(steps) > Index(k.run, p)
    ensures EverPicked(k, steps, p)
  {
    BoundedBypass(k, steps, p);
    if !EverPicked(k, steps, p) { AllPassed(k, steps, p); }
  }

  lemma {:induction false} AllPassed(k: Kernel, steps: seq<Step>, p: int)
    requires AllowedRun(k, steps) && !EverPicked(k, steps, p)
    ensures PassedOver(k, steps, p) == Looks(steps)
    decreases |steps|
  {
    hide After, ScanSafe, SignalSafe, Unlinked;
    if steps != [] { AllPassed(After(k, steps[0]), steps[1..], p); }
  }

  // ----- idling

  /** Up to position `i` of the run queue, nothing is pending. */
  ghost predicate Quiet(k: Kernel, i: nat) {
    forall j :: 0 <= j < i && j < |k.run| ==> Pending(k, k.run[j]) == NONE
  }

  /** Up to position `i` of the run queue, a scan would change nothing and pick nobody. */
  ghost predicate Stuck(k: Kernel, i: nat) {
    forall j :: 0 <= j < i && j < |k.run| ==>
      Pending(k, k.run[j]) == NONE && StateOf(k, k.run[j]) != Ready && StateOf(k, k.run[j]) != Dead
  }

  lemma QuietSignal(k: Kernel, p: int)
    requires Pending(k, p) == NONE
    ensures Signalled(k, p) == k
  {
    if 0 <= p < |k.procs| {
      assert k.procs[p := k.procs[p].(pending := NONE)] == k.procs;
    }
  }

  /** A scan delivers whatever is pending in the processes it leaves on the queue. */
  lemma {:induction false} EmptyScanQuiets(k: Kernel, i: nat)
    requires Shaped(k) && i <= |k.run| && Quiet(k, i) && Scan(k, i).pick == Bad
    ensures var l := Scan(k, i).kernel; Shaped(l) && Quiet(l, |l.run|)
    decreases |k.run| - i
  {
    hide Signalled;
    if i < |k.run| {
      var p := k.run[i];
      if StateOf(k, p) == Dead {
        RecycledRun(k, i);
        EmptyScanQuiets(Recycled(k.(run := RemoveAt(k.run, i)), p), i);
      } else {
        SignalledRun(k, p);
        EmptyScanQuiets(Signalled(k, p), i + 1);
      }
    }
  }

  lemma {:induction false} QuietScanSticks(k: Kernel, i: nat)
    requires Shaped(k) && NoDup(k.run) && i <= |k.run| && Stuck(k, i) && Quiet(k, |k.run|) && Scan(k, i).pick == Bad
    ensures var l := Scan(k, i).kernel; Stuck(l, |l.run|)
    decreases |k.run| - i
  {
    hide Signalled;
    if i < |k.run| {
      var p := k.run[i];
      if StateOf(k, p) == Dead {
        RecycledRun(k, i);
        RemoveAtMeans(k.run, i);
        var l := Recycled(k.(run := RemoveAt(k.run, i)), p);
        forall j | 0 <= j < |l.run| ensures Pending(l, l.run[j]) == NONE && (j < i ==> StateOf(l, l.run[j]) == StateOf(k, k.run[j])) {
          assert l.run[j] == k.run[if j < i then j else j + 1];
        }
        QuietScanSticks(l, i);
      } else {
        QuietSignal(k, p);
        SignalledRun(k, p);
        QuietScanSticks(k, i + 1);
      }
    }
  }

  lemma {:induction false} StuckScan(k: Kernel, i: nat)
    requires Stuck(k, |k.run|)
    ensures Scan(k, i) == Scanned(k, Bad)
    decreases |k.run| - i
  {
    hide Signalled;
    if i < |k.run| {
      QuietSignal(k, k.run[i]);
      SignalledRun(k, k.run[i]);
      StuckScan(k, i + 1);
    }
  }

  /** If two looks in a row find nobody, every further look finds nobody and changes nothing, until something else happens. */
  lemma IdleSettles(k: Kernel)
    requires Ok(k) && k.rp == Bad && ScanSafe(k, 0) && Picked(k).rp == Bad && Picked(Picked(k)).rp == Bad
    ensures var m := Picked(Picked(k)); Picked(m) == m
  {
    hide ScanSafe, PidsOk, WaitsOk;
    ScanOk(k, 0);
    EmptyScanQuiets(k, 0);
    var l := Picked(k);
    ScanPick(l, 0);
    QuietScanSticks(l, 0);
    StuckScan(Picked(l), 0);
  }

  lemma {:induction false} ScanPick(k: Kernel, i: nat)
    requires k.rp == Bad
    ensures Scan(k, i).kernel.rp == Scan(k, i).pick
    decreases |k.run| - i
  {
    hide Signalled;
    if i < |k.run| {
      var p := k.run[i];
      if StateOf(k, p) == Dead {
        RecycledRun(k, i);
        ScanPick(Recycled(k.(run := RemoveAt(k.run, i)), p), i);
      } else {
        SignalledRun(k, p);
        if StateOf(Signalled(k, p), p) != Ready { ScanPick(Signalled(k, p), i + 1); }
      }
    }
  }
}
