/**
 * Stores that change tags, blocks or bitmap bytes, and the representation after them:
 * splitting a chunk, marking one allocated or free, setting and clearing its bit, and
 * filling its block. Bitmap slots are 16 bytes wide while chunks are multiples of 8, so
 * that slots of different chunks differ is an arithmetic fact with a proof of its own.
 * Each store also leaves the contents of every other live block alone.
 */
module RepUpdates {
  import opened Memory
  import opened Links
  import opened HeapModel
  import opened HeapInvariant
  import opened Rep
  import Tags
  import Bits

  /** The allocated blocks keep their contents, tags included. */
  ghost predicate LiveKept(h: Heap, m: Mem, m': Mem) {
    forall c, a {:trigger HomeOf(h, c), At(m', a)} ::
      HomeOf(h, c).Live? && c <= a < c + Size(h, c) ==> At(m', a) == At(m, a)
  }

  lemma OnlyLinksKeepLive(lay: Layout, h: Heap, m: Mem, m': Mem)
    requires lay.Ok() && Tiled(lay, h.chunks) && OnlyLinks(lay, h, m, m')
    ensures LiveKept(h, m, m')
  {
    hide IsLinkWord, Tiled;
    forall c, a | HomeOf(h, c).Live? && c <= a < c + Size(h, c) ensures At(m', a) == At(m, a) {
      LiveWordIsNoLink(lay, h, c, a);
    }
  }

  lemma LiveKeptChain(h: Heap, k: Heap, m0: Mem, m1: Mem, m2: Mem)
    requires SameLive(h, k) && LiveKept(h, m0, m1) && LiveKept(k, m1, m2)
    ensures LiveKept(h, m0, m2)
  {
    forall c, a | HomeOf(h, c).Live? && c <= a < c + Size(h, c) ensures At(m2, a) == At(m0, a) {
      assert HomeOf(k, c).Live? && Size(k, c) == Size(h, c);
      assert At(m1, a) == At(m0, a);
    }
  }

  // ----- stores inside one chunk that is on no list

  ghost predicate OnlyInside(m: Mem, m': Mem, lo: int, hi: int) {
    m.Keys == m'.Keys && forall a {:trigger At(m', a)} :: a < lo || hi <= a ==> At(m', a) == At(m, a)
  }

  /** Everything about the other chunks, the lists and the bitmap survives. */
  lemma InsideKept(lay: Layout, h: Heap, m: Mem, m': Mem, c: int)
    requires Wf(lay, h) && Rep.Rep(lay, m, h) && c in h.chunks && !h.chunks[c].home.On?
    requires OnlyInside(m, m', c, c + h.chunks[c].size)
    ensures InDomain(lay, m') && Linked(lay, m', h) && Mapped(lay, m', h) && At(m', lay.ram0) == h.last
    ensures forall d :: d in h.chunks && d != c ==> TagPair(m', d, h.chunks[d])
    ensures forall d :: IsLoose(h, d) && d != c ==> NullLinks(m', d)
    ensures forall d, a {:trigger HomeOf(h, d), At(m', a)} ::
              HomeOf(h, d).Live? && d != c && d <= a < d + Size(h, d) ==> At(m', a) == At(m, a)
  {
    hide TagOk, BitAt;
    assert Fits(lay, h.chunks, c);
    forall d | d in h.chunks && d != c
      ensures d + h.chunks[d].size <= c || c + h.chunks[c].size <= d
      ensures 16 <= h.chunks[d].size && lay.Heap() <= d
    {
      assert Apart(h.chunks, c, d) && Apart(h.chunks, d, c) && Fits(lay, h.chunks, d);
    }
    forall d | d in h.chunks && d != c ensures TagPair(m', d, h.chunks[d]) {
      assert TagPair(m, d, h.chunks[d]);
    }
    forall d | IsLoose(h, d) && d != c ensures NullLinks(m', d) {
      assert NullLinks(m, d);
    }
    InsideKeepsLists(lay, h, m, m', c);
    BelowHeapMapped(lay, h, m, m');
  }

  lemma InsideKeepsLists(lay: Layout, h: Heap, m: Mem, m': Mem, c: int)
    requires Wf(lay, h) && Linked(lay, m, h) && c in h.chunks && !h.chunks[c].home.On?
    requires OnlyInside(m, m', c, c + h.chunks[c].size)
    ensures Linked(lay, m', h)
  {
    assert Fits(lay, h.chunks, c);
    forall id | IsList(id) ensures Chain(m', Head(lay, id), List(h, id)) {
      var xs := List(h, id);
      assert Holds(h, id);
      forall i | 0 <= i < |xs| ensures At(m', xs[i] + 4) == At(m, xs[i] + 4) && At(m', xs[i] + 8) == At(m, xs[i] + 8) {
        assert Apart(h.chunks, c, xs[i]) && Apart(h.chunks, xs[i], c) && Fits(lay, h.chunks, xs[i]);
      }
      ChainKept(m, m', Head(lay, id), xs);
    }
  }

  /** The bitmap depends only on the header words. */
  lemma BelowHeapMapped(lay: Layout, h: Heap, m: Mem, m': Mem)
    requires lay.Ok() && Mapped(lay, m, h)
    requires forall a {:trigger At(m', a)} :: Bitmap(lay) <= a < lay.Heap() ==> At(m', a) == At(m, a)
    ensures Mapped(lay, m', h)
  {
    RamAligned(lay);
    hide ByteOf, Bits.Bit, Taken, BitAt, WordOf, Bitmap;
    forall k: nat | k < 8 * ALLOCATION_BITMAP_SIZE ensures BitAt(lay, m', k) <==> Taken(lay, h, k) {
      assert BitAt(lay, m, k) <==> Taken(lay, h, k);
      BitWord(lay, k);
      SameBit(lay, m, m', k);
    }
  }

  lemma RamAligned(lay: Layout)
    requires lay.Ok()
    ensures lay.ram0 % 4 == 0
  {
    EightsAreFours(lay.ram0);
  }

  lemma EightsAreFours(a: int)
    ensures a % 8 == 0 ==> a % 4 == 0
  {
    assert a == 8 * (a / 8) + a % 8;
  }

  lemma SameBit(lay: Layout, m: Mem, m': Mem, k: nat)
    requires var a := WordOf(Bitmap(lay) + k / 8); At(m', a) == At(m, a)
    ensures BitAt(lay, m', k) == BitAt(lay, m, k)
  {
    hide WordOf, Bits.Bit, ByteOf;
  }

  /** The word that holds bit `k` lies in the bitmap. */
  lemma BitWord(lay: Layout, k: nat)
    requires k < 8 * ALLOCATION_BITMAP_SIZE
    ensures lay.ram0 % 4 == 0 ==> Bitmap(lay) <= WordOf(Bitmap(lay) + k / 8) < lay.Heap()
  {
  }

  lemma MappedSameLive(lay: Layout, m: Mem, h: Heap, k: Heap)
    requires Mapped(lay, m, h) && SameLive(h, k)
    ensures Mapped(lay, m, k)
  {
    forall j: nat | j < 8 * ALLOCATION_BITMAP_SIZE ensures BitAt(lay, m, j) <==> Taken(lay, k, j) {
      assert BitAt(lay, m, j) <==> Taken(lay, h, j);
      assert forall c :: HomeOf(h, c).Live? <==> HomeOf(k, c).Live?;
    }
  }

  /** A chunk freshly initialised at `c`: free tags at both ends, null links. */
  ghost predicate Initialised(m: Mem, m': Mem, c: int, size: int) {
    && m.Keys == m'.Keys
    && TagPair(m', c, Chunk(size, Loose)) && NullLinks(m', c)
    && forall a {:trigger At(m', a)} :: a != c && a != c + 4 && a != c + 8 && a != c + size - 4 ==> At(m', a) == At(m, a)
  }

  /** Initialising both halves of a loose chunk splits it. */
  lemma SplitRep(lay: Layout, h: Heap, m: Mem, m1: Mem, m2: Mem, c: int, size: int)
    requires Wf(lay, h) && Rep.Rep(lay, m, h) && CanSplit(h, c, size)
    requires Initialised(m, m1, c, size) && Initialised(m1, m2, c + size, Size(h, c) - size)
    ensures Rep.Rep(lay, m2, Split(h, c, size)) && LiveKept(h, m, m2)
  {
    hide TagOk, BitAt, Tiled, Wf, Mapped, Listed, Binned;
    var k := Split(h, c, size);
    assert TagPair(m2, c, Chunk(size, Loose)) && NullLinks(m2, c);
    InsideKept(lay, h, m, m2, c);
    SplitFresh(lay, h, c, size);
    SplitWf(lay, h, c, size);
    MappedSameLive(lay, m2, h, k);
    forall d | d in k.chunks ensures TagPair(m2, d, k.chunks[d]) {
      if d != c && d != c + size {
        assert TagPair(m2, d, h.chunks[d]);
      }
    }
    forall id | IsList(id) ensures Chain(m2, Head(lay, id), List(k, id)) {
      assert List(k, id) == List(h, id);
    }
    forall d | IsLoose(k, d) ensures NullLinks(m2, d) {
      if d != c && d != c + size {
        assert IsLoose(h, d);
      }
    }
  }

  // ----- marking a chunk allocated or free

  /** Only the two tag words of chunk `c`, and the header's last size, were stored. */
  ghost predicate TagsStored(lay: Layout, m: Mem, m': Mem, c: int, chunk: Chunk) {
    && m.Keys == m'.Keys && TagPair(m', c, chunk)
    && forall a {:trigger At(m', a)} :: a != c && a != c + chunk.size - 4 && a != lay.ram0 ==> At(m', a) == At(m, a)
  }

  /** The state with `c`, so far in hand, allocated. */
  function Taking(h: Heap, c: int, home: Home): Heap {
    h.(chunks := h.chunks[c := Chunk(Size(h, c), home)], last := Size(h, c))
  }

  /** The representation, short of the bitmap. */
  ghost predicate RepButMap(lay: Layout, m: Mem, h: Heap) {
    InDomain(lay, m) && Tagged(m, h) && Linked(lay, m, h) && Unlinked(m, h) && At(m, lay.ram0) == h.last
  }

  lemma HeaderAside(lay: Layout, m: Mem, m': Mem, c: int, chunk: Chunk)
    requires TagsStored(lay, m, m', c, chunk) && lay.ram0 in m && 16 <= chunk.size
    ensures OnlyInside(m, m'[lay.ram0 := At(m, lay.ram0)], c, c + chunk.size)
  {
    hide TagPair;
    var mid := m'[lay.ram0 := At(m, lay.ram0)];
    forall a | a < c || c + chunk.size <= a ensures At(mid, a) == At(m, a) {
      assert a != lay.ram0 ==> At(m', a) == At(m, a);
    }
  }

  lemma LinkedIgnoresLast(lay: Layout, m: Mem, m': Mem, h: Heap)
    requires lay.Ok() && Tiled(lay, h.chunks) && Listed(h) && Linked(lay, m, h)
    requires forall a {:trigger At(m', a)} :: a != lay.ram0 ==> At(m', a) == At(m, a)
    ensures Linked(lay, m', h)
  {
    forall id | IsList(id) ensures Chain(m', Head(lay, id), List(h, id)) {
      var xs := List(h, id);
      assert Holds(h, id);
      forall i | 0 <= i < |xs| ensures At(m', xs[i] + 4) == At(m, xs[i] + 4) && At(m', xs[i] + 8) == At(m, xs[i] + 8) {
        assert Fits(lay, h.chunks, xs[i]);
      }
      ChainKept(m, m', Head(lay, id), xs);
    }
  }

  /** Storing allocated tags takes the chunk in hand; the bitmap still shows it free. */
  lemma TakeRep(lay: Layout, h: Heap, m: Mem, m': Mem, c: int, home: Home)
    requires Wf(lay, h) && Rep.Rep(lay, m, h) && IsLoose(h, c) && home.Live?
    requires TagsStored(lay, m, m', c, Chunk(Size(h, c), home)) && At(m', lay.ram0) == Size(h, c)
    ensures RepButMap(lay, m', Taking(h, c, home)) && Mapped(lay, m', h) && LiveKept(h, m, m')
  {
    hide TagOk, BitAt, Wf, Mapped, Binned;
    WfParts(lay, h);
    var size := Size(h, c);
    assert lay.Heap() <= c && 16 <= size by { assert Fits(lay, h.chunks, c); }
    assert lay.ram0 in m;
    var mid := m'[lay.ram0 := At(m, lay.ram0)];
    assert mid.Keys == m.Keys;
    HeaderAside(lay, m, m', c, Chunk(size, home));
    InsideKept(lay, h, m, mid, c);
    BelowHeapMapped(lay, h, mid, m');
    LinkedIgnoresLast(lay, mid, m', h);
    var k := Taking(h, c, home);
    TakeTags(lay, h, mid, m', c, home);
    forall d, a | HomeOf(h, d).Live? && d <= a < d + Size(h, d) ensures At(m', a) == At(m, a) {
      assert lay.Heap() <= d by { assert Fits(lay, h.chunks, d); }
      assert At(mid, a) == At(m, a);
    }
    forall id | IsList(id) ensures Chain(m', Head(lay, id), List(k, id)) {
      assert List(k, id) == List(h, id);
    }
  }

  lemma TakeTags(lay: Layout, h: Heap, mid: Mem, m': Mem, c: int, home: Home)
    requires Wf(lay, h) && IsLoose(h, c) && home.Live?
    requires forall a {:trigger At(m', a)} :: a != lay.ram0 ==> At(m', a) == At(mid, a)
    requires TagPair(m', c, Chunk(Size(h, c), home))
    requires forall d :: d in h.chunks && d != c ==> TagPair(mid, d, h.chunks[d])
    requires forall d :: IsLoose(h, d) && d != c ==> NullLinks(mid, d)
    ensures Tagged(m', Taking(h, c, home)) && Unlinked(m', Taking(h, c, home))
  {
    hide TagOk;
    var k := Taking(h, c, home);
    forall d | d in h.chunks ensures lay.Heap() <= d && 16 <= h.chunks[d].size {
      assert Fits(lay, h.chunks, d);
    }
    forall d | d in k.chunks ensures TagPair(m', d, k.chunks[d]) {
      if d != c { assert TagPair(mid, d, h.chunks[d]); }
    }
    forall d | IsLoose(k, d) ensures NullLinks(m', d) {
      assert IsLoose(h, d);
    }
  }

  // ----- the allocation bitmap

  /** Two chunks never share a bitmap slot, though sizes are only multiples of 8. */
  lemma SlotsDiffer(lay: Layout, h: Heap, c: int, d: int)
    requires Tiled(lay, h.chunks) && c in h.chunks && d in h.chunks && c != d
    ensures Slot(lay, c + 4) != Slot(lay, d + 4)
  {
    assert Fits(lay, h.chunks, c) && Fits(lay, h.chunks, d);
    ChunksFar(lay, h, c, d);
  }

  /** Nor does any 16-byte stride over one chunk's request hit the slot of another chunk. */
  lemma StrideMissesSlots(lay: Layout, h: Heap, c: int, d: int, off: int, request: int)
    requires Tiled(lay, h.chunks) && c in h.chunks && d in h.chunks && c != d
    requires 0 <= off < request && off % 16 == 0 && request + 8 <= h.chunks[c].size
    ensures Slot(lay, c + 4 + off) != Slot(lay, d + 4)
  {
    assert Fits(lay, h.chunks, c) && Fits(lay, h.chunks, d);
    assert Apart(h.chunks, c, d) && Apart(h.chunks, d, c);
    var x, y := c - lay.Heap(), d - lay.Heap();
    hide Fits, Apart, Tiled;
    assert Slot(lay, c + 4 + off) == (x + 4 + off) / 16 && Slot(lay, d + 4) == (y + 4) / 16;
    if c < d {
      StrideBelow(x, off, y);
    } else {
      StrideAbove(x, off, y);
    }
  }

  /** The stride stops 8 bytes short of the next chunk, whose start has the same parity in eights. */
  lemma StrideBelow(x: int, off: int, y: int)
    requires x % 8 == 0 && y % 8 == 0 && off % 16 == 0 && x + off + 8 < y
    ensures (x + 4 + off) / 16 < (y + 4) / 16
  {
    var a, b, n := x / 8, y / 8, off / 16;
    assert x == 8 * a && y == 8 * b && off == 16 * n;
    assert a + 2 * n + 1 < b;
  }

  lemma StrideAbove(x: int, off: int, y: int)
    requires 0 <= off && y + 16 <= x
    ensures (y + 4) / 16 < (x + 4 + off) / 16
  {
  }

  lemma SlotInRange(lay: Layout, a: int)
    requires lay.Ok() && lay.Heap() <= a < lay.ramHigh
    ensures 0 <= Slot(lay, a) < 8 * ALLOCATION_BITMAP_SIZE
  {
  }

  /** One byte of the bitmap was stored, and nothing else. */
  ghost predicate ByteStored(lay: Layout, m: Mem, m': Mem, s: nat, v: nat) {
    && m.Keys == m'.Keys
    && (forall b :: WordOf(b) in m ==> ByteAt(m', b) == if b == Bitmap(lay) + s / 8 then v else ByteAt(m, b))
    && (forall a {:trigger At(m', a)} :: a < Bitmap(lay) || lay.Heap() <= a ==> At(m', a) == At(m, a))
  }

  lemma BitStored(lay: Layout, m: Mem, m': Mem, s: nat, v: nat, j: nat)
    requires lay.Ok() && InDomain(lay, m) && s < 8 * ALLOCATION_BITMAP_SIZE && j < 8 * ALLOCATION_BITMAP_SIZE
    requires ByteStored(lay, m, m', s, v)
    ensures BitAt(lay, m', j) <==> if j / 8 == s / 8 then Bits.Bit(v, 7 - j % 8) else BitAt(lay, m, j)
  {
    hide ByteAt, Bits.Bit;
    BitWord(lay, j);
  }

  lemma SetMapped(lay: Layout, m: Mem, m': Mem, h: Heap, k: Heap, c: int)
    requires lay.Ok() && InDomain(lay, m) && Tiled(lay, h.chunks) && Mapped(lay, m, h)
    requires c in h.chunks && HomeOf(k, c).Live?
    requires forall d :: d != c ==> (HomeOf(k, d).Live? <==> HomeOf(h, d).Live?)
    requires !HomeOf(h, c).Live? && SlotInMap(lay, c)
    requires ByteStored(lay, m, m', Slot(lay, c + 4), Bits.SetBit(ByteAt(m, Bitmap(lay) + Slot(lay, c + 4) / 8), 7 - Slot(lay, c + 4) % 8))
    ensures Mapped(lay, m', k)
  {
    hide ByteAt, ByteStored, Bits.Bit, Slot;
    var s := Slot(lay, c + 4);
    var v := Bits.SetBit(ByteAt(m, Bitmap(lay) + s / 8), 7 - s % 8);
    forall j: nat | j < 8 * ALLOCATION_BITMAP_SIZE ensures BitAt(lay, m', j) <==> Taken(lay, k, j) {
      BitStored(lay, m, m', s, v, j);
      assert BitAt(lay, m, j) <==> Taken(lay, h, j);
      TakenAfterSet(lay, h, k, c, j);
    }
  }

  lemma TakenAfterSet(lay: Layout, h: Heap, k: Heap, c: int, j: int)
    requires HomeOf(k, c).Live? && !HomeOf(h, c).Live?
    requires forall d :: d != c ==> (HomeOf(k, d).Live? <==> HomeOf(h, d).Live?)
    ensures Taken(lay, k, j) <==> j == Slot(lay, c + 4) || Taken(lay, h, j)
  {
    hide Slot;
  }

  ghost predicate SlotInMap(lay: Layout, c: int) {
    0 <= Slot(lay, c + 4) < 8 * ALLOCATION_BITMAP_SIZE
  }

  lemma SlotOfChunk(lay: Layout, h: Heap, c: int)
    requires lay.Ok() && Tiled(lay, h.chunks) && c in h.chunks
    ensures SlotInMap(lay, c)
  {
    assert Fits(lay, h.chunks, c);
    SlotInRange(lay, c + 4);
  }

  lemma ClearMapped(lay: Layout, m: Mem, m': Mem, h: Heap, k: Heap, c: int)
    requires lay.Ok() && InDomain(lay, m) && Tiled(lay, h.chunks) && Mapped(lay, m, h)
    requires HomeOf(h, c).Live? && !HomeOf(k, c).Live?
    requires forall d :: d != c ==> (HomeOf(k, d).Live? <==> HomeOf(h, d).Live?)
    requires SlotInMap(lay, c)
    requires ByteStored(lay, m, m', Slot(lay, c + 4), Bits.ClearBit(ByteAt(m, Bitmap(lay) + Slot(lay, c + 4) / 8), 7 - Slot(lay, c + 4) % 8))
    ensures Mapped(lay, m', k)
  {
    hide ByteAt, ByteStored, Bits.Bit, Slot;
    var s := Slot(lay, c + 4);
    var v := Bits.ClearBit(ByteAt(m, Bitmap(lay) + s / 8), 7 - s % 8);
    forall j: nat | j < 8 * ALLOCATION_BITMAP_SIZE ensures BitAt(lay, m', j) <==> Taken(lay, k, j) {
      BitStored(lay, m, m', s, v, j);
      assert BitAt(lay, m, j) <==> Taken(lay, h, j);
      TakenAfterClear(lay, h, k, c, j);
    }
  }

  lemma TakenAfterClear(lay: Layout, h: Heap, k: Heap, c: int, j: int)
    requires Tiled(lay, h.chunks) && HomeOf(h, c).Live? && !HomeOf(k, c).Live?
    requires forall d :: d != c ==> (HomeOf(k, d).Live? <==> HomeOf(h, d).Live?)
    ensures Taken(lay, k, j) <==> j != Slot(lay, c + 4) && Taken(lay, h, j)
  {
    hide Slot;
    forall d | HomeOf(h, d).Live? && d != c ensures Slot(lay, d + 4) != Slot(lay, c + 4) {
      SlotsDiffer(lay, h, c, d);
    }
  }

  /** Bitmap stores leave tags, links and header alone. */
  lemma BitmapKept(lay: Layout, h: Heap, m: Mem, m': Mem)
    requires Wf(lay, h) && RepButMap(lay, m, h) && m.Keys == m'.Keys
    requires forall a {:trigger At(m', a)} :: a < Bitmap(lay) || lay.Heap() <= a ==> At(m', a) == At(m, a)
    ensures RepButMap(lay, m', h) && LiveKept(h, m, m')
  {
    hide TagOk;
    forall c | c in h.chunks ensures lay.Heap() <= c && 16 <= h.chunks[c].size { assert Fits(lay, h.chunks, c); }
    forall c | c in h.chunks ensures TagPair(m', c, h.chunks[c]) {
      assert TagPair(m, c, h.chunks[c]);
    }
    forall c | IsLoose(h, c) ensures NullLinks(m', c) {
      assert NullLinks(m, c);
    }
    forall id | IsList(id) ensures Chain(m', Head(lay, id), List(h, id)) {
      assert Holds(h, id);
      ChainKept(m, m', Head(lay, id), List(h, id));
    }
  }

  // ----- filling a payload, and freeing

  /** Stores between the tags of an allocated chunk keep the representation. */
  lemma PayloadRep(lay: Layout, h: Heap, m: Mem, m': Mem, c: int)
    requires Wf(lay, h) && Rep.Rep(lay, m, h) && HomeOf(h, c).Live?
    requires OnlyInside(m, m', c + 4, c + Size(h, c) - 4)
    ensures Rep.Rep(lay, m', h)
  {
    hide TagOk, BitAt, Wf, Mapped;
    InsideKept(lay, h, m, m', c);
    assert TagPair(m, c, h.chunks[c]);
    forall d | d in h.chunks ensures TagPair(m', d, h.chunks[d]) {
    }
  }

  lemma LiveFits(lay: Layout, h: Heap, c: int)
    requires Wf(lay, h) && c in h.chunks
    ensures Fits(lay, h.chunks, c)
  {
  }

  /** Storing free tags and null links puts an allocated chunk in hand, short of the bitmap. */
  lemma ReleaseRep(lay: Layout, h: Heap, m: Mem, m': Mem, c: int)
    requires Wf(lay, h) && NoneLoose(h) && Rep.Rep(lay, m, h) && HomeOf(h, c).Live?
    requires Initialised(m, m', c, Size(h, c))
    ensures RepButMap(lay, m', Release(h, c)) && Mapped(lay, m', h) && LiveKept(Release(h, c), m, m')
  {
    hide TagOk, BitAt, Mapped, Wf;
    LiveFits(lay, h, c);
    InsideKept(lay, h, m, m', c);
    var k := Release(h, c);
    forall d | d in k.chunks ensures TagPair(m', d, k.chunks[d]) {
      if d != c { assert TagPair(m', d, h.chunks[d]); }
    }
    forall d | IsLoose(k, d) ensures NullLinks(m', d) {
      assert !IsLoose(h, d);
    }
    forall id | IsList(id) ensures Chain(m', Head(lay, id), List(k, id)) {
      assert List(k, id) == List(h, id);
    }
    forall d, a | HomeOf(k, d).Live? && d <= a < d + Size(k, d) ensures At(m', a) == At(m, a) {
      assert HomeOf(h, d).Live? && Size(h, d) == Size(k, d);
    }
  }
}
