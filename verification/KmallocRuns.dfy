/** The allocator driven through whole runs of allocations and frees, chunk by chunk. */
module KmallocRuns {
  import opened Options
  import opened Memory
  import opened HeapModel
  import opened HeapInvariant
  import opened HeapOps
  import opened HeapRuns
  import opened Rep
  import opened RepUpdates
  import opened Kmalloc
  import Tags

  // ----- runs

  /** The allocator, driven through any legal calls, ends in the model's state with the model's counters. */
  method Drive(lay: Layout, ram: Ram, calls: seq<Call>) returns (a: Allocator)
    requires lay.Ok() && InDomain(lay, ram.mem) && LegalRun(lay, calls)
    modifies ram
    ensures fresh(a) && a.lay == lay && a.ram == ram && a.Valid() && a.st == Run(lay, calls) && a.stats == RunStats(lay, calls)
  {
    a := new Allocator(lay, ram);
    assert calls[..0] == [];
    assert Run(lay, []) == Initial(lay) && RunStats(lay, []) == Opening(lay);
    hide Run, RunStats, LegalRun, Legal, Counted, HeapRuns.After;
    for i := 0 to |calls|
      invariant fresh(a) && a.lay == lay && a.ram == ram && a.Valid()
      invariant a.st == Run(lay, calls[..i]) && a.stats == RunStats(lay, calls[..i])
    {
      PrefixStep(lay, calls, i);
      DriveOne(a, calls[i]);
    }
    assert calls[..|calls|] == calls;
  }

  lemma {:induction false} LegalPrefix(lay: Layout, calls: seq<Call>, n: nat)
    requires LegalRun(lay, calls) && n <= |calls|
    ensures LegalRun(lay, calls[..n])
    decreases |calls|
  {
    if n < |calls| {
      LegalPrefix(lay, calls[..|calls| - 1], n);
      assert calls[..|calls| - 1][..n] == calls[..n];
    } else {
      assert calls[..n] == calls;
    }
  }

  lemma PrefixStep(lay: Layout, calls: seq<Call>, i: nat)
    requires LegalRun(lay, calls) && i < |calls|
    ensures Legal(Run(lay, calls[..i]), calls[i])
    ensures Run(lay, calls[..i + 1]) == HeapRuns.After(Run(lay, calls[..i]), calls[i])
    ensures RunStats(lay, calls[..i + 1]) == Counted(Run(lay, calls[..i]), RunStats(lay, calls[..i]), calls[i])
  {
    LegalPrefix(lay, calls, i + 1);
    var before := calls[..i + 1];
    assert before[..|before| - 1] == calls[..i];
  }

  /** One call; a free is given the pointer that the allocation returned. */
  method DriveOne(a: Allocator, call: Call)
    requires a.Valid() && Legal(a.st, call)
    modifies a, a.ram
    ensures a.Valid() && a.st == HeapRuns.After(old(a.st), call) && a.stats == Counted(old(a.st), old(a.stats), call)
  {
    StateWf(a);
    hide Wf, StatsOk, Malloc, Free, Charged, Refunded;
    if call.CallMalloc? {
      MallocAbove(a.lay, a.st, call.request, call.pid);
      var mem := a.Kmalloc(call.request, call.pid);
    } else {
      BlockAligned(a.lay, a.st, call.chunk);
      a.Kfree(call.chunk + 4);
    }
  }

  lemma StateWf(a: Allocator)
    requires a.Valid()
    ensures Wf(a.lay, a.st) && NoneLoose(a.st)
  {
    InitialWf(a.lay);
  }

  lemma MallocAbove(lay: Layout, h: Heap, request: int, pid: int)
    requires Wf(lay, h) && NoneLoose(h) && 0 <= request <= U32 - 16
    ensures var r := Malloc(h, request, pid); r.chunk.Some? ==> 0 < r.chunk.value && r.chunk.value in r.heap.chunks
  {
    MallocWf(lay, h, request, pid);
    var r := Malloc(h, request, pid);
    if r.chunk.Some? { ChunkBounds(lay, r.heap, r.chunk.value); }
  }
}
