/** Whole runs of the allocator: accounting, and what every call keeps. */
module HeapRuns {
  import opened Options
  import opened HeapModel
  import opened HeapInvariant
  import opened HeapOps

  // ----- one call

  /** A successful allocation owns a fresh chunk large enough for the request and its tags. */
  lemma MallocWf(lay: Layout, h: Heap, request: int, pid: int)
    requires Wf(lay, h) && NoneLoose(h) && 0 <= request <= U32 - 16
    ensures var r := Malloc(h, request, pid); var k := r.heap;
      && Wf(lay, k) && NoneLoose(k)
      && match r.chunk
         case None => SameLive(h, k) && k.last == h.last
         case Some(c) =>
           && !HomeOf(h, c).Live? && HomeOf(k, c) == Live(pid % 128, request)
           && request + 8 <= Size(k, c) && k.last == Size(k, c)
           && Size(k, c) <= Padded(request) + MIN_ALLOC_BYTES
           && forall d :: d != c ==> (HomeOf(h, d).Live? || HomeOf(k, d).Live? ==>
                d in h.chunks && d in k.chunks && h.chunks[d] == k.chunks[d])
  {
    hide Wf, Allocate;
    PaddedFits(request);
    AllocateWf(lay, h, Padded(request));
    var r := Allocate(h, Padded(request));
    if r.chunk.Some? {
      var c := r.chunk.value;
      TakeInHand(lay, r.heap, c, Live(pid % 128, request));
      var k := Malloc(h, request, pid).heap;
      forall d ensures !IsLoose(k, d) {
        assert IsLoose(r.heap, d) ==> d == c;
      }
      forall d | d != c && (HomeOf(h, d).Live? || HomeOf(k, d).Live?)
        ensures d in h.chunks && d in k.chunks && h.chunks[d] == k.chunks[d]
      {
        assert HomeOf(r.heap, d) == HomeOf(k, d);
      }
    }
  }

  /** Allocating the loose chunk keeps everything in order. */
  lemma TakeInHand(lay: Layout, h: Heap, c: int, home: Home)
    requires Wf(lay, h) && IsLoose(h, c) && home.Live?
    ensures Wf(lay, h.(chunks := h.chunks[c := Chunk(Size(h, c), home)], last := Size(h, c)))
  {
    RehomeWf(lay, h, h.(chunks := h.chunks[c := Chunk(Size(h, c), home)], last := Size(h, c)), c);
  }

  /** Lists and bins do not depend on whether a chunk off every list is live or loose. */
  lemma RehomeWf(lay: Layout, h: Heap, k: Heap, c: int)
    requires Wf(lay, h) && c in h.chunks && !h.chunks[c].home.On?
    requires k.lists == h.lists && c in k.chunks && k.chunks == h.chunks[c := k.chunks[c]]
    requires k.chunks[c].size == h.chunks[c].size && !k.chunks[c].home.On?
    ensures Wf(lay, k)
  {
    TiledBySizes(lay, h, k);
    forall id ensures Holds(k, id) {
      assert Holds(h, id);
    }
    forall b | 1 <= b ensures DirtyOk(k, b) {
      assert DirtyOk(h, b) && Holds(h, Dirty(b));
    }
    forall b | 1 <= b ensures CleanOk(lay, k, b) {
      assert CleanOk(lay, h, b);
    }
  }

  /** Freeing an allocated chunk puts it on the recent stack and changes no other allocation. */
  lemma FreeWf(lay: Layout, h: Heap, c: int)
    requires Wf(lay, h) && NoneLoose(h) && HomeOf(h, c).Live?
    ensures var k := Free(h, c);
      && Wf(lay, Release(h, c)) && IsLoose(Release(h, c), c)
      && Wf(lay, k) && NoneLoose(k) && SameSizes(h, k) && HomeOf(k, c) == On(RECENT)
      && List(k, RECENT) == [c] + List(h, RECENT)
      && forall d :: d != c && d in h.chunks ==> k.chunks[d] == h.chunks[d]
  {
    RehomeWf(lay, h, Release(h, c), c);
    AddSpecialWf(lay, Release(h, c), RECENT, c);
    forall d ensures !IsLoose(Free(h, c), d) {
      assert !IsLoose(h, d);
    }
  }

  lemma InitialWf(lay: Layout)
    requires lay.Ok()
    ensures Wf(lay, Initial(lay)) && NoneLoose(Initial(lay))
  {
    var h := Initial(lay);
    var c := lay.Heap();
    assert Fits(lay, h.chunks, c);
    forall id ensures Holds(h, id) {}
    assert List(h, Clean(MAX_BINS - 1))[0] == c;
  }

  // ----- where the bytes are

  /** From any chunk, walking up by sizes reaches the chunk that holds a given address. */
  lemma {:induction false} HolderAbove(lay: Layout, h: Heap, c: int, a: int) returns (d: int)
    requires Tiled(lay, h.chunks) && c in h.chunks && c <= a < lay.ramHigh
    ensures d in h.chunks && d <= a < d + h.chunks[d].size
    decreases a - c
  {
    assert Fits(lay, h.chunks, c);
    if a < c + h.chunks[c].size {
      d := c;
    } else {
      d := HolderAbove(lay, h, c + h.chunks[c].size, a);
    }
  }

  ghost predicate HeldBy(h: Heap, a: int, c: int) {
    c in h.chunks && c <= a < c + h.chunks[c].size
  }

  /** The chunks tile the heap: each address is in exactly one, and none reaches outside. */
  lemma TiledExactly(lay: Layout, h: Heap, a: int)
    requires Tiled(lay, h.chunks)
    ensures (exists c :: HeldBy(h, a, c)) <==> lay.Heap() <= a < lay.ramHigh
    ensures forall c, d :: HeldBy(h, a, c) && HeldBy(h, a, d) ==> c == d
  {
    if lay.Heap() <= a < lay.ramHigh {
      var d := HolderAbove(lay, h, lay.Heap(), a);
      assert HeldBy(h, a, d);
    }
    forall c | HeldBy(h, a, c) ensures lay.Heap() <= a < lay.ramHigh {
      assert Fits(lay, h.chunks, c);
    }
    forall c, d | HeldBy(h, a, c) && HeldBy(h, a, d) ensures c == d {
      assert Apart(h.chunks, c, d) && Apart(h.chunks, d, c);
    }
  }

  /** The block handed to the caller: the chunk without its two tags. */
  ghost predicate InBlock(h: Heap, c: int, a: int) {
    HomeOf(h, c).Live? && c + 4 <= a < c + Size(h, c) - 4
  }

  /** Blocks of different allocations share no byte, and no block contains a tag byte of any chunk. */
  lemma BlocksDisjoint(lay: Layout, h: Heap, c: int, d: int, a: int)
    requires Tiled(lay, h.chunks) && InBlock(h, c, a) && d in h.chunks
    ensures d != c ==> !InBlock(h, d, a)
    ensures !(d <= a < d + 4) && !(d + Size(h, d) - 4 <= a < d + Size(h, d))
  {
    assert Apart(h.chunks, c, d) && Apart(h.chunks, d, c);
    assert Fits(lay, h.chunks, d);
  }

  // ----- accounting

  ghost function Pick<T>(s: set<T>): (x: T)
    requires s != {}
    ensures x in s
  {
    var x :| x in s;
    x
  }

  /** The total size of some chunks. */
  ghost function Bytes(h: Heap, s: set<int>): int {
    if s == {} then 0
    else
      var c := Pick(s);
      Size(h, c) + Bytes(h, s - {c})
  }

  lemma {:induction false} BytesWithout(h: Heap, s: set<int>, c: int)
    requires c in s
    ensures Bytes(h, s) == Size(h, c) + Bytes(h, s - {c})
    decreases |s|
  {
    var d := Pick(s);
    if d != c {
      BytesWithout(h, s - {d}, c);
      BytesWithout(h, s - {c}, d);
      assert s - {d} - {c} == s - {c} - {d};
    }
  }

  lemma {:induction false} BytesSame(h: Heap, k: Heap, s: set<int>)
    requires forall c :: c in s ==> Size(h, c) == Size(k, c)
    ensures Bytes(h, s) == Bytes(k, s)
    decreases |s|
  {
    if s != {} {
      var c := Pick(s);
      BytesWithout(h, s, c);
      BytesWithout(k, s, c);
      BytesSame(h, k, s - {c});
    }
  }

  ghost function LiveSet(h: Heap): set<int> {
    set c | c in h.chunks && h.chunks[c].home.Live?
  }

  ghost function InUse(h: Heap): int { Bytes(h, LiveSet(h)) }

  lemma MallocInUse(lay: Layout, h: Heap, request: int, pid: int)
    requires Wf(lay, h) && NoneLoose(h) && 0 <= request <= U32 - 16
    ensures var r := Malloc(h, request, pid);
      match r.chunk
      case None => InUse(r.heap) == InUse(h) && LiveSet(r.heap) == LiveSet(h)
      case Some(c) =>
        InUse(r.heap) == InUse(h) + Size(r.heap, c) && c !in LiveSet(h) && LiveSet(r.heap) == LiveSet(h) + {c}
  {
    hide Wf, Malloc;
    MallocWf(lay, h, request, pid);
    var r := Malloc(h, request, pid);
    if r.chunk.Some? {
      var c := r.chunk.value;
      forall d ensures d in LiveSet(r.heap) <==> d in LiveSet(h) || d == c {
        assert d in LiveSet(r.heap) <==> HomeOf(r.heap, d).Live?;
        assert d in LiveSet(h) <==> HomeOf(h, d).Live?;
      }
      assert LiveSet(r.heap) == LiveSet(h) + {c};
      BytesWithout(r.heap, LiveSet(r.heap), c);
      assert LiveSet(r.heap) - {c} == LiveSet(h);
    } else {
      forall d ensures d in LiveSet(r.heap) <==> d in LiveSet(h) {
        assert d in LiveSet(r.heap) <==> HomeOf(r.heap, d).Live?;
        assert d in LiveSet(h) <==> HomeOf(h, d).Live?;
      }
      assert LiveSet(r.heap) == LiveSet(h);
    }
    BytesSame(h, r.heap, LiveSet(h));
  }

  lemma FreeInUse(h: Heap, c: int)
    requires HomeOf(h, c).Live?
    ensures InUse(Free(h, c)) == InUse(h) - Size(h, c) && LiveSet(Free(h, c)) == LiveSet(h) - {c} && c in LiveSet(h)
  {
    var k := Free(h, c);
    assert LiveSet(k) == LiveSet(h) - {c};
    BytesWithout(h, LiveSet(h), c);
    BytesSame(h, k, LiveSet(k));
  }

  lemma {:induction false} BytesMonotone(lay: Layout, h: Heap, s: set<int>, t: set<int>)
    requires Tiled(lay, h.chunks) && s <= t && t <= h.chunks.Keys
    ensures 0 <= Bytes(h, s) <= Bytes(h, t)
    decreases |t|
  {
    if t != {} {
      var c := Pick(t);
      assert Fits(lay, h.chunks, c);
      BytesWithout(h, t, c);
      if c in s {
        BytesWithout(h, s, c);
        BytesMonotone(lay, h, s - {c}, t - {c});
      } else {
        BytesMonotone(lay, h, s, t - {c});
      }
    }
  }

  /** The chunks from `c` up fill the heap from `c` to its end. */
  lemma {:induction false} BytesFrom(lay: Layout, h: Heap, c: int)
    requires Tiled(lay, h.chunks) && c in h.chunks
    ensures Bytes(h, set d | d in h.chunks && c <= d) == lay.ramHigh - c
    decreases lay.ramHigh - c
  {
    var s := set d | d in h.chunks && c <= d;
    var next := c + h.chunks[c].size;
    var t := set d | d in h.chunks && next <= d;
    assert Fits(lay, h.chunks, c);
    forall d | d in h.chunks && c < d ensures next <= d {
      assert Apart(h.chunks, c, d);
    }
    assert s - {c} == t;
    BytesWithout(h, s, c);
    if next < lay.ramHigh {
      BytesFrom(lay, h, next);
    } else {
      forall d | d in h.chunks ensures d < next {
        assert Fits(lay, h.chunks, d);
      }
      assert t == {};
    }
  }

  /** Sizes are conserved: all chunks together always measure the whole heap. */
  lemma AllBytes(lay: Layout, h: Heap)
    requires Tiled(lay, h.chunks)
    ensures Bytes(h, h.chunks.Keys) == lay.ramHigh - lay.Heap()
    ensures 0 <= InUse(h) <= lay.ramHigh - lay.Heap()
  {
    forall c | c in h.chunks ensures lay.Heap() <= c {
      assert Fits(lay, h.chunks, c);
    }
    assert h.chunks.Keys == set d | d in h.chunks && lay.Heap() <= d;
    BytesFrom(lay, h, lay.Heap());
    BytesMonotone(lay, h, LiveSet(h), h.chunks.Keys);
  }

  /** What the counters mean. */
  ghost predicate StatsOk(lay: Layout, h: Heap, s: Stats) {
    && s.inUse == InUse(h) && s.inUse + s.free == lay.ramHigh - lay.Heap()
    && s.balance == |LiveSet(h)| && s.inUse <= s.hwm
    && (s.allocs - s.frees - s.balance) % U32 == 0
  }

  lemma ChargedOk(lay: Layout, h: Heap, request: int, pid: int, s: Stats)
    requires Wf(lay, h) && NoneLoose(h) && 0 <= request <= U32 - 16 && StatsOk(lay, h, s)
    ensures var r := Malloc(h, request, pid);
      StatsOk(lay, r.heap, match r.chunk case None => s case Some(c) => Charged(s, Size(r.heap, c)))
  {
    hide Malloc, Wf, InUse, LiveSet;
    MallocWf(lay, h, request, pid);
    MallocInUse(lay, h, request, pid);
    var r := Malloc(h, request, pid);
    TotalOf(lay, h);
    TotalOf(lay, r.heap);
    if r.chunk.Some? {
      var size := Size(r.heap, r.chunk.value);
      assert s.inUse + size == InUse(r.heap) < U32;
      assert s.free - size == lay.ramHigh - lay.Heap() - InUse(r.heap);
      Wraps(s.allocs + 1);
    }
  }

  lemma TotalOf(lay: Layout, h: Heap)
    requires Wf(lay, h)
    ensures 0 <= InUse(h) <= lay.ramHigh - lay.Heap() < 0x800_0000
  {
    AllBytes(lay, h);
  }

  lemma Wraps(n: int)
    ensures exists q :: n % U32 == n - q * U32
  {
    assert n % U32 == n - (n / U32) * U32;
  }

  lemma RefundedOk(lay: Layout, h: Heap, c: int, s: Stats)
    requires Wf(lay, h) && NoneLoose(h) && HomeOf(h, c).Live? && StatsOk(lay, h, s)
    ensures StatsOk(lay, Free(h, c), Refunded(s, Size(h, c)))
  {
    hide Free, Wf, InUse, LiveSet;
    FreeWf(lay, h, c);
    FreeInUse(h, c);
    TotalOf(lay, h);
    TotalOf(lay, Free(h, c));
    WfFits(lay, h, c);
    assert |LiveSet(Free(h, c))| == |LiveSet(h)| - 1;
    assert s.inUse - Size(h, c) == InUse(Free(h, c));
    assert s.free + Size(h, c) == lay.ramHigh - lay.Heap() - InUse(Free(h, c));
    Wraps(s.frees + 1);
  }

  lemma OpeningOk(lay: Layout)
    requires lay.Ok()
    ensures StatsOk(lay, Initial(lay), Opening(lay))
  {
    assert LiveSet(Initial(lay)) == {};
  }

  // ----- runs

  /** One call on the allocator; a free names the chunk of a live pointer. */
  datatype Call = CallMalloc(request: int, pid: int) | CallFree(chunk: int)

  predicate Legal(h: Heap, call: Call) {
    match call
    case CallMalloc(request, _) => 0 <= request <= U32 - 16
    case CallFree(c) => HomeOf(h, c).Live?
  }

  function After(h: Heap, call: Call): Heap {
    match call
    case CallMalloc(request, pid) => Malloc(h, request, pid).heap
    case CallFree(c) => Free(h, c)
  }

  function Counted(h: Heap, s: Stats, call: Call): Stats {
    match call
    case CallMalloc(request, pid) =>
      var r := Malloc(h, request, pid);
      if r.chunk.Some? then Charged(s, Size(r.heap, r.chunk.value)) else s
    case CallFree(c) => Refunded(s, Size(h, c))
  }

  function Run(lay: Layout, calls: seq<Call>): Heap {
    if calls == [] then Initial(lay) else After(Run(lay, calls[..|calls| - 1]), calls[|calls| - 1])
  }

  function RunStats(lay: Layout, calls: seq<Call>): Stats {
    if calls == [] then Opening(lay)
    else
      var before := calls[..|calls| - 1];
      Counted(Run(lay, before), RunStats(lay, before), calls[|calls| - 1])
  }

  predicate LegalRun(lay: Layout, calls: seq<Call>) {
    calls == [] ||
    (LegalRun(lay, calls[..|calls| - 1]) && Legal(Run(lay, calls[..|calls| - 1]), calls[|calls| - 1]))
  }

  /** The most bytes in use at any moment of a run. */
  ghost function Peak(lay: Layout, calls: seq<Call>): int {
    var now := InUse(Run(lay, calls));
    if calls == [] then now
    else
      var before := Peak(lay, calls[..|calls| - 1]);
      if before < now then now else before
  }

  /** Every legal run of kmalloc and kfree keeps the heap in order and the counters true. */
  lemma {:induction false} RunWf(lay: Layout, calls: seq<Call>)
    requires lay.Ok() && LegalRun(lay, calls)
    ensures Wf(lay, Run(lay, calls)) && NoneLoose(Run(lay, calls))
    ensures StatsOk(lay, Run(lay, calls), RunStats(lay, calls))
    ensures RunStats(lay, calls).hwm == Peak(lay, calls)
    decreases |calls|
  {
    hide Wf, Malloc, Free, InUse, NoneLoose, Initial;
    if calls == [] {
      InitialWf(lay);
      OpeningOk(lay);
    } else {
      var before := calls[..|calls| - 1];
      var h := Run(lay, before);
      RunWf(lay, before);
      match calls[|calls| - 1]
      case CallMalloc(request, pid) =>
        MallocWf(lay, h, request, pid);
        ChargedOk(lay, h, request, pid, RunStats(lay, before));
        MallocInUse(lay, h, request, pid);
        PeakIsUse(lay, before);
      case CallFree(c) =>
        FreeWf(lay, h, c);
        RefundedOk(lay, h, c, RunStats(lay, before));
        FreeInUse(h, c);
        PeakIsUse(lay, before);
        assert Fits(lay, h.chunks, c) by { WfFits(lay, h, c); }
    }
  }

  lemma WfFits(lay: Layout, h: Heap, c: int)
    requires Wf(lay, h) && c in h.chunks
    ensures Fits(lay, h.chunks, c)
  {
  }

  lemma PeakIsUse(lay: Layout, calls: seq<Call>)
    ensures InUse(Run(lay, calls)) <= Peak(lay, calls)
  {
  }

  /** The calls of a run that were given a chunk. */
  function Given(lay: Layout, calls: seq<Call>): nat {
    if calls == [] then 0
    else
      var before, call := calls[..|calls| - 1], calls[|calls| - 1];
      Given(lay, before) +
        if call.CallMalloc? && Malloc(Run(lay, before), call.request, call.pid).chunk.Some? then 1 else 0
  }

  function Frees(calls: seq<Call>): nat {
    if calls == [] then 0 else Frees(calls[..|calls| - 1]) + if calls[|calls| - 1].CallFree? then 1 else 0
  }

  /** The call counters count calls, in 32 bits; what was given and not freed is live. */
  lemma {:induction false} RunCounts(lay: Layout, calls: seq<Call>)
    requires lay.Ok() && LegalRun(lay, calls)
    ensures var s := RunStats(lay, calls);
      && s.allocs == Given(lay, calls) % U32 && s.frees == Frees(calls) % U32 && s.balance == Given(lay, calls) - Frees(calls)
      && |LiveSet(Run(lay, calls))| == Given(lay, calls) - Frees(calls)
    decreases |calls|
  {
    hide Malloc, Free, Wf, InUse, LiveSet;
    RunWf(lay, calls);
    if calls != [] {
      RunCounts(lay, calls[..|calls| - 1]);
      OneUp(Given(lay, calls[..|calls| - 1]));
      OneUp(Frees(calls[..|calls| - 1]));
    }
  }

  lemma OneUp(n: nat)
    ensures (n % U32 + 1) % U32 == (n + 1) % U32
  {
  }

  /** Every allocated chunk has room for what was asked, and its two tags. */
  ghost predicate RequestsFit(h: Heap) {
    forall c :: HomeOf(h, c).Live? ==> 0 <= h.chunks[c].home.request && h.chunks[c].home.request + 8 <= Size(h, c)
  }

  /** In every state of a legal run, not only when it is allocated, a block is as large as was asked. */
  lemma {:induction false} RunFits(lay: Layout, calls: seq<Call>)
    requires lay.Ok() && LegalRun(lay, calls)
    ensures RequestsFit(Run(lay, calls))
    decreases |calls|
  {
    if calls != [] {
      var before := calls[..|calls| - 1];
      RunWf(lay, before);
      RunFits(lay, before);
      CallFits(lay, Run(lay, before), calls[|calls| - 1]);
    }
  }

  lemma CallFits(lay: Layout, h: Heap, call: Call)
    requires Wf(lay, h) && NoneLoose(h) && RequestsFit(h) && Legal(h, call)
    ensures RequestsFit(After(h, call))
  {
    match call
    case CallMalloc(request, pid) =>
      MallocWf(lay, h, request, pid);
      hide Malloc, Wf;
    case CallFree(c) =>
      FreeWf(lay, h, c);
      hide Free, Wf;
  }
}
