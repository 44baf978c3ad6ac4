/** The process table as a state machine: what each kernel operation does to slots, queues and pids. */
module SchedModel {
  import opened Sequences

  const MAXPROC := 127

  /** A null entry of the process table, which has one entry for each of the numbers below `MAXPROC`. */
  const NOPROC := -1

  datatype State = Dead | Spawning | Ready | Running | Waiting | Stopped

  /** A set of signals, one flag each. */
  datatype Sigs = Sigs(abort: bool, cont: bool, stop: bool, alarm: bool)

  const NONE := Sigs(false, false, false, false)

  function Union(a: Sigs, b: Sigs): Sigs { Sigs(a.abort || b.abort, a.cont || b.cont, a.stop || b.stop, a.alarm || b.alarm) }
  function Both(a: Sigs, b: Sigs): Sigs { Sigs(a.abort && b.abort, a.cont && b.cont, a.stop && b.stop, a.alarm && b.alarm) }
  function Minus(a: Sigs, b: Sigs): Sigs { Sigs(a.abort && !b.abort, a.cont && !b.cont, a.stop && !b.stop, a.alarm && !b.alarm) }

  datatype Proc = Proc(pid: int, ppid: int, state: State, pending: Sigs, mask: Sigs)

  /** The running process: none before the first switch, the placeholder while one is sought, or a slot. */
  datatype Current = Nobody | Bad | Slot(slot: int)

  /**
   * `free`, `run` and `waiting[p]` are the slots on the free list, the run queue and the
   * wait queue of `p`, in list order; `table` is the array from pids to slots.
   */
  datatype Kernel = Kernel(procs: seq<Proc>, free: seq<int>, run: seq<int>, waiting: seq<seq<int>>,
                           table: seq<int>, nextPid: int, rp: Current)

  predicate IsSlot(i: int) { 0 <= i < MAXPROC }

  predicate Shaped(k: Kernel) { |k.procs| == MAXPROC && |k.waiting| == MAXPROC && |k.table| == MAXPROC }

  /** The table has a process under this number. */
  predicate Has(table: seq<int>, pid: int) { 0 <= pid < |table| && table[pid] != NOPROC }

  /** A store to the table; one past its end is not part of it. */
  function Entered(table: seq<int>, pid: int, p: int): seq<int> {
    if 0 <= pid < |table| then table[pid := p] else table
  }

  function SetState(k: Kernel, i: int, s: State): Kernel {
    if 0 <= i < |k.procs| then k.(procs := k.procs[i := k.procs[i].(state := s)]) else k
  }

  function StateOf(k: Kernel, i: int): State { if 0 <= i < |k.procs| then k.procs[i].state else Dead }
  function PidOf(k: Kernel, i: int): int { if 0 <= i < |k.procs| then k.procs[i].pid else 0 }
  function Waiters(k: Kernel, p: int): seq<int> { if 0 <= p < |k.waiting| then k.waiting[p] else [] }
  function Pending(k: Kernel, i: int): Sigs { if 0 <= i < |k.procs| then k.procs[i].pending else NONE }

  function Drop(xs: seq<int>, x: int): seq<int> {
    if xs == [] then [] else if xs[0] == x then xs[1..] else [xs[0]] + Drop(xs[1..], x)
  }

  // ----- the operations

  /** Every process waiting on `p` is ready, and none waits on it any more. */
  function Wake(k: Kernel, p: int): Kernel
    decreases |Waiters(k, p)|
  {
    if Waiters(k, p) == [] || !(0 <= p < |k.waiting|) then k
    else
      Wake(SetState(k.(waiting := k.waiting[p := k.waiting[p][1..]]), k.waiting[p][0], Ready), p)
  }

  function Parent(k: Kernel, p: int): int {
    if 0 <= p < |k.procs| && Has(k.table, k.procs[p].ppid) then k.table[k.procs[p].ppid] else -1
  }

  /** The most urgent pending signal takes effect, and all pending ones are cleared. */
  function Signalled(k: Kernel, p: int): Kernel {
    var s := Pending(k, p);
    var k' :=
      if s.abort then SetState(Wake(k, p), p, Dead)
      else if s.stop then SetState(Wake(k, p), p, Stopped)
      else if s.cont then
        var par := Parent(k, p);
        var k1 := SetState(k, p, Ready);
        SetState(if 0 <= p < |k.waiting| then k1.(waiting := k1.waiting[p := [par] + k1.waiting[p]]) else k1, par, Waiting)
      else if s.alarm then SetState(k, p, Ready)
      else k;
    if 0 <= p < |k'.procs| then k'.(procs := k'.procs[p := k'.procs[p].(pending := NONE)]) else k'
  }

  /** A dead process's slot goes back to the free list; it keeps its pid for the next user. */
  function Recycled(k: Kernel, p: int): Kernel {
    if !(0 <= p < |k.procs|) then k
    else
      k.(procs := k.procs[p := Proc(k.procs[p].pid, 0, Dead, NONE, NONE)],
         free := k.free + [p], table := Entered(k.table, k.procs[p].pid, NOPROC))
  }

  /** The pid of the next process: that of the oldest free slot, or the next one. */
  function SpawnPid(k: Kernel): int
    requires k.free != []
  {
    if PidOf(k, k.free[0]) == 0 then k.nextPid + 1 else PidOf(k, k.free[0])
  }

  /** The oldest free slot has a pid already, or the next pid is still below the size of the table. */
  predicate RoomForPid(k: Kernel) {
    k.free != [] && (PidOf(k, k.free[0]) != 0 || k.nextPid < MAXPROC - 1)
  }

  /** The oldest free slot gets a new process: with the slot's old pid or the next one, and the runner as its parent. */
  function Claimed(k: Kernel): Kernel
    requires k.free != []
  {
    var p := k.free[0];
    if !(0 <= p < |k.procs|) then k
    else
      var unused := k.procs[p].pid == 0;
      var pid := SpawnPid(k);
      var ppid := if k.rp.Slot? then PidOf(k, k.rp.slot) else 0;
      k.(procs := k.procs[p := Proc(pid, ppid, Spawning, NONE, NONE)], free := k.free[1..],
         table := Entered(k.table, pid, p), nextPid := if unused then k.nextPid + 1 else k.nextPid)
  }

  /** The new process, ready, at the end of the run queue. */
  function Spawned(k: Kernel): Kernel
    requires k.free != []
  {
    SetState(Claimed(k).(run := k.run + [k.free[0]]), k.free[0], Ready)
  }

  function Unwait(waiting: seq<seq<int>>, q: int): (w: seq<seq<int>>)
    ensures |w| == |waiting| && forall p :: 0 <= p < |w| ==> w[p] == Drop(waiting[p], q)
  {
    seq(|waiting|, p requires 0 <= p < |waiting| => Drop(waiting[p], q))
  }

  /** The running process ends: waiters wake, it waits on nobody, and it is dead. */
  function Exited(k: Kernel): Kernel {
    if !k.rp.Slot? then k
    else
      var k1 := Wake(k, k.rp.slot);
      SetState(k1.(waiting := Unwait(k1.waiting, k.rp.slot)), k.rp.slot, Dead)
  }

  /** The running process waits for the one with this pid. */
  function WaitedFor(k: Kernel, pid: int): Kernel {
    if !(0 <= pid <= MAXPROC) || !k.rp.Slot? || !Has(k.table, pid) || !(0 <= k.table[pid] < |k.waiting|) then k
    else
      var p := k.table[pid];
      SetState(k.(waiting := k.waiting[p := [k.rp.slot] + k.waiting[p]]), k.rp.slot, Waiting)
  }

  function Posted(k: Kernel, pid: int, sig: Sigs): Kernel {
    if !(0 <= pid <= MAXPROC) || !Has(k.table, pid) || !(0 <= k.table[pid] < |k.procs|) then k
    else
      var p := k.table[pid];
      k.(procs := k.procs[p := k.procs[p].(pending := Union(k.procs[p].pending, Minus(sig, k.procs[p].mask)))])
  }

  /** The running process replaces its signal mask. */
  function Masked(k: Kernel, mask: Sigs): Kernel {
    if k.rp.Slot? && 0 <= k.rp.slot < |k.procs| then k.(procs := k.procs[k.rp.slot := k.procs[k.rp.slot].(mask := mask)]) else k
  }

  /** The running process goes to the end of the run queue, whatever its state. */
  function Yielded(k: Kernel): Kernel {
    match k.rp
    case Slot(r) =>
      var k1 := if StateOf(k, r) == Running then SetState(k, r, Ready) else k;
      var k2 := Signalled(k1, r);
      k2.(run := k2.run + [r], rp := Bad)
    case _ => k.(rp := Bad)
  }

  /** The state after a scan, and the slot it picked. */
  datatype Scanned = Scanned(kernel: Kernel, pick: Current)

  /**
   * From position `i` of the run queue: dead processes are recycled, signals take effect,
   * and the first ready process comes off the queue, to run next.
   */
  function Scan(k: Kernel, i: nat): Scanned
    decreases |k.run| - i
  {
    if i >= |k.run| then Scanned(k, Bad)
    else
      var p := k.run[i];
      if StateOf(k, p) == Dead then
        RecycledRun(k, i);
        Scan(Recycled(k.(run := RemoveAt(k.run, i)), p), i)
      else
        var k1 := Signalled(k, p);
        SignalledRun(k, p);
        if StateOf(k1, p) == Ready then Scanned(k1.(run := RemoveAt(k1.run, i), rp := Slot(p)), Slot(p))
        else Scan(k1, i + 1)
  }

  lemma RecycledRun(k: Kernel, i: nat)
    requires i < |k.run|
    ensures Recycled(k.(run := RemoveAt(k.run, i)), k.run[i]).run == RemoveAt(k.run, i)
  {
  }

  lemma {:induction false} WakeQueues(k: Kernel, p: int)
    ensures var w := Wake(k, p);
      w.run == k.run && w.free == k.free && w.table == k.table && w.nextPid == k.nextPid && w.rp == k.rp
      && |w.procs| == |k.procs| && |w.waiting| == |k.waiting|
      && forall q :: 0 <= q < |k.procs| ==> w.procs[q] == k.procs[q].(state := w.procs[q].state)
    decreases |Waiters(k, p)|
  {
    if Waiters(k, p) != [] && 0 <= p < |k.waiting| {
      WakeQueues(SetState(k.(waiting := k.waiting[p := k.waiting[p][1..]]), k.waiting[p][0], Ready), p);
    }
  }

  lemma SignalledRun(k: Kernel, p: int)
    ensures var w := Signalled(k, p);
      w.run == k.run && w.free == k.free && w.table == k.table && w.nextPid == k.nextPid && w.rp == k.rp
      && |w.procs| == |k.procs| && |w.waiting| == |k.waiting|
      && forall q :: 0 <= q < |k.procs| ==>
           w.procs[q] == k.procs[q].(state := w.procs[q].state, pending := w.procs[q].pending)
           && (q != p ==> w.procs[q].pending == k.procs[q].pending)
           && (q == p ==> w.procs[q].pending == NONE)
  {
    WakeQueues(k, p);
  }

  /** Scanning, and switching to what was found. */
  function Picked(k: Kernel): Kernel {
    var Scanned(k1, pick) := Scan(k, 0);
    if pick.Slot? then SetState(k1, pick.slot, Running) else k1
  }
}
