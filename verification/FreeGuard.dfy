/** Which aligned pointers the checks of a free let through. */
module FreeGuard {
  import opened Options
  import opened Memory
  import opened Links
  import opened HeapModel
  import opened HeapInvariant
  import opened HeapRuns
  import opened Rep
  import opened RepUpdates
  import opened Kmalloc
  import Tags
  import Bits

  // ----- the bitmap

  /** Payloads lie 8 bytes apart at the least, slots are 16 bytes: each slot holds two payload addresses. */
  predicate SharesSlot(lay: Layout, c: int, p: int) {
    || c == p - 4
    || (c == p - 12 && (c - lay.Heap()) % 16 == 0)
    || (c == p + 4 && (c - lay.Heap()) % 16 == 8)
  }

  lemma SlotShared(lay: Layout, c: int, p: int)
    requires lay.Heap() <= c && lay.Heap() < p && (c - lay.Heap()) % 8 == 0 && (p - 4 - lay.Heap()) % 8 == 0
    ensures Slot(lay, c + 4) == Slot(lay, p) <==> SharesSlot(lay, c, p)
  {
    var x, y := (p - 4 - lay.Heap()) / 8, (c - lay.Heap()) / 8;
    assert p == lay.Heap() + 8 * x + 4 && c == lay.Heap() + 8 * y;
    HalfSlot(x);
    HalfSlot(y);
    Parity(y);
  }

  lemma HalfSlot(x: int)
    ensures (8 * x + 4) / 16 == x / 2
  {
  }

  lemma Parity(y: int)
    ensures (8 * y) % 16 == 8 * (y % 2)
  {
  }

  /** The guard of a free, on an aligned address in the heap: the bit is set exactly for a live block, or one in the other half of the slot. */
  lemma GuardExactly(lay: Layout, m: Mem, h: Heap, p: int)
    requires Wf(lay, h) && Rep.Rep(lay, m, h) && lay.Heap() <= p < lay.ramHigh && p % 8 == 0
    ensures BitOf(lay, m, p) <==>
            || HomeOf(h, p - 4).Live?
            || (HomeOf(h, p - 12).Live? && (p - 12 - lay.Heap()) % 16 == 0)
            || (HomeOf(h, p + 4).Live? && (p + 4 - lay.Heap()) % 16 == 8)
  {
    SlotInRange(lay, p);
    PayloadPlace(lay, p);
    assert BitOf(lay, m, p) <==> Taken(lay, h, Slot(lay, p)) by { hide BitAt, Taken, Slot; }
    hide BitOf, Slot;
    forall c | HomeOf(h, c).Live? ensures Slot(lay, c + 4) == Slot(lay, p) <==> SharesSlot(lay, c, p) {
      LivePlace(lay, h, c);
      SlotShared(lay, c, p);
    }
  }

  lemma PayloadPlace(lay: Layout, p: int)
    requires lay.Ok() && lay.Heap() <= p && p % 8 == 0
    ensures (p - 4 - lay.Heap()) % 8 == 0 && lay.Heap() < p
  {
    HeapAligned(lay);
    FoursApart(p, lay.Heap());
  }

  lemma FoursApart(p: int, q: int)
    requires p % 8 == 0 && q % 8 == 4
    ensures (p - 4 - q) % 8 == 0 && p != q
  {
    assert p == 8 * (p / 8) && q == 8 * (q / 8) + 4;
  }

  lemma LivePlace(lay: Layout, h: Heap, c: int)
    requires Wf(lay, h) && HomeOf(h, c).Live?
    ensures lay.Heap() <= c && (c - lay.Heap()) % 8 == 0
  {
    assert Fits(lay, h.chunks, c);
  }

  /** The check reads inside the bitmap exactly from the heap's start on for its size, or just below 2^32 when that wraps. */
  lemma GuardReads(lay: Layout, p: int)
    requires lay.Ok() && 0 <= p < U32
    ensures Sub32(p, lay.Heap()) / MIN_ALLOC_BYTES / 8 < ALLOCATION_BITMAP_SIZE <==>
            (lay.Heap() <= p < lay.Heap() + 128 * ALLOCATION_BITMAP_SIZE) || p + U32 < lay.Heap() + 128 * ALLOCATION_BITMAP_SIZE
  {
    var d := Sub32(p, lay.Heap());
    Wrapped(p - lay.Heap());
    assert d / 16 / 8 == d / 128;
  }

  lemma Wrapped(x: int)
    requires -U32 < x < U32
    ensures x % U32 == if x >= 0 then x else x + U32
  {
  }

  // ----- a pointer that passes every check

  /** All that a free checks of an aligned pointer: its bit, the range, and the neighbours of the chunk before it. */
  ghost predicate PassesChecks(lay: Layout, m: Mem, p: int) {
    var c := p - 4;
    && BitOf(lay, m, p) && lay.Heap() <= p <= lay.ramHigh
    && c in m && c - 4 in m && c + Tags.SizeOf(m[c]) in m
    && (c != lay.Heap() ==> TagsAgree(lay, m, c - Tags.SizeOf(m[c - 4]), m[c - 4]))
    && (c + Tags.SizeOf(m[c]) != lay.ramHigh ==> TagsAgree(lay, m, c + Tags.SizeOf(m[c]), m[c + Tags.SizeOf(m[c])]))
  }

  /**
   * A pointer 8 bytes into a live block whose first two words are zero, when the block's chunk
   * is a multiple of 16 from the heap's start: it shares the block's bit, and the zero words
   * read as a chunk of size 0, which is its own neighbour on both sides.
   */
  lemma InnerPointerPasses(lay: Layout, m: Mem, h: Heap, c: int)
    requires Wf(lay, h) && Rep.Rep(lay, m, h) && HomeOf(h, c).Live? && (c - lay.Heap()) % 16 == 0
    requires At(m, c + 4) == 0 && At(m, c + 8) == 0
    ensures PassesChecks(lay, m, c + 12) && (c + 12) % 8 == 0 && !HomeOf(h, c + 8).Live?
    ensures Slot(lay, c + 12) == Slot(lay, c + 4)
  {
    InRam(lay, m, h, c);
    SlotKnown(lay, m, h, c);
    BlockAligned(lay, h, c);
    EightOn(c + 4);
    LivePlace(lay, h, c);
    PayloadPlace(lay, c + 12);
    SlotShared(lay, c, c + 12);
    assert BitOf(lay, m, c + 12);
    if HomeOf(h, c + 8).Live? { ChunksFar(lay, h, c, c + 8); }
    hide Wf, Rep.Rep, BitOf, Slot, BitAt;
    assert Tags.SizeOf(0) == 0 && Tags.FreeOf(0) == 0;
    hide Tags.SizeOf, Tags.FreeOf;
    assert m[c + 4] == 0 && m[c + 8] == 0;
    assert TagsAgree(lay, m, c + 8, m[c + 4]);
    assert TagsAgree(lay, m, c + 8, m[c + 8]);
  }

  lemma EightOn(a: int)
    requires a % 8 == 0
    ensures (a + 8) % 8 == 0
  {
  }

  /** The first allocation of a boot gets the chunk at the start of the heap. */
  lemma FirstAtStart(lay: Layout, request: int, pid: int)
    requires lay.Ok() && 0 <= request <= U32 - 16 && Padded(request) <= lay.ramHigh - lay.Heap()
    ensures Malloc(Initial(lay), request, pid).chunk == Some(lay.Heap())
  {
    var h, size := Initial(lay), Padded(request);
    PaddedFits(request);
    BinIndexInRange(size);
    TopCleanFits(lay, BinIndex(size), size);
    assert List(h, RECENT) == [] && List(h, REMAINDER) == [] && List(h, Dirty(BinIndex(size))) == [];
  }

  lemma {:induction false} TopCleanFits(lay: Layout, bin: nat, size: int)
    requires lay.Ok() && bin < MAX_BINS && size <= lay.ramHigh - lay.Heap()
    ensures FindClean(Initial(lay), bin, size) == Some(lay.Heap())
    decreases MAX_BINS - bin
  {
    if bin < MAX_BINS - 1 { TopCleanFits(lay, bin + 1, size); }
  }

  /** So any allocation of 8 bytes or more yields such a pointer whenever its chunk is at a multiple of 16. */
  method InnerPointer(a: Allocator, size: int, pid: int) returns (mem: int)
    requires a.Valid() && 8 <= size <= U32 - 16
    modifies a, a.ram
    ensures a.Valid() && a.st == Malloc(old(a.st), size, pid).heap
    ensures mem != 0 && (mem - 4 - a.lay.Heap()) % 16 == 0 ==>
      PassesChecks(a.lay, a.ram.mem, mem + 8) && (mem + 8) % 8 == 0 && !HomeOf(a.st, mem + 4).Live?
  {
    hide Wf, Rep.Rep, StatsOk, PassesChecks, Malloc, Byte, WordOf;
    mem := a.Kmalloc(size, pid);
    if mem != 0 && (mem - 4 - a.lay.Heap()) % 16 == 0 {
      assert a.Inner() by { NoneLive(a.lay, mem - 4); }
      ZeroedPasses(a.lay, a.ram.mem, a.st, mem);
    }
  }

  lemma NoneLive(lay: Layout, c: int)
    ensures !HomeOf(Initial(lay), c).Live?
  {
  }

  lemma ZeroedPasses(lay: Layout, m: Mem, h: Heap, mem: int)
    requires Wf(lay, h) && Rep.Rep(lay, m, h) && HomeOf(h, mem - 4).Live? && (mem - 4 - lay.Heap()) % 16 == 0
    requires mem % 8 == 0 && forall b :: mem <= b < mem + 8 ==> WordOf(b) in m && Byte(m, b) == 0
    ensures PassesChecks(lay, m, mem + 8) && !HomeOf(h, mem + 4).Live?
  {
    hide Wf, Rep.Rep, PassesChecks, Byte, WordOf;
    ZeroWord(m, mem);
    ZeroWord(m, mem + 4);
    InnerPointerPasses(lay, m, h, mem - 4);
  }

  lemma ZeroWord(m: Mem, a: int)
    requires a % 4 == 0 && forall b :: a <= b < a + 4 ==> WordOf(b) in m && Byte(m, b) == 0
    ensures At(m, a) == 0
  {
    assert WordOf(a) == a;
    forall j | 0 <= j < 4 ensures ByteOf(m[a], j) == 0 { ByteInWord(m, a, j); }
    ZeroBytesZeroWord(m[a]);
  }
}
