/**
 * How RAM holds the allocator's state. The header at the bottom has the last size asked
 * for, the two list heads of each bin, and the bitmap; above it lie the chunks, each with
 * a tag at either end and, while it is free, its two links. A list's stores touch nothing
 * but its own link words, so each of the parts survives changes to the others.
 */
module Rep {
  import opened Sequences
  import opened Memory
  import opened Links
  import opened HeapModel
  import opened HeapInvariant
  import Tags
  import Bits

  // ----- where things are

  function Head(lay: Layout, id: ListId): int {
    lay.ram0 + 4 + 8 * id.bin + if id.Clean? then 0 else 4
  }

  function Bitmap(lay: Layout): int { lay.ram0 + 4 + 8 * MAX_BINS }

  /** The bitmap slot of an address: one per 16 bytes of heap. */
  function Slot(lay: Layout, a: int): int { (a - lay.Heap()) / MIN_ALLOC_BYTES }

  function ByteAt(m: Mem, a: int): nat { ByteOf(At(m, WordOf(a)), a % 4) }

  /** Slot `k` of the bitmap, most significant bit first. */
  predicate BitAt(lay: Layout, m: Mem, k: nat) {
    Bits.Bit(ByteAt(m, Bitmap(lay) + k / 8), 7 - k % 8)
  }

  // ----- the representation

  ghost predicate InDomain(lay: Layout, m: Mem) {
    forall a :: a in m <==> lay.ram0 <= a <= lay.ramHigh && a % 4 == 0
  }

  ghost predicate TagOk(w: Word, chunk: Chunk) {
    && Tags.SizeOf(w) == chunk.size
    && Tags.FreeOf(w) == (if chunk.home.Live? then 0 else 1)
    && (chunk.home.Live? ==> Tags.PidOf(w) == chunk.home.pid)
  }

  /** Header and footer both describe the chunk. */
  ghost predicate TagPair(m: Mem, c: int, chunk: Chunk) {
    TagOk(At(m, c), chunk) && TagOk(At(m, c + chunk.size - 4), chunk)
  }

  ghost predicate Tagged(m: Mem, h: Heap) {
    forall c {:trigger TagPair(m, c, h.chunks[c])} :: c in h.chunks ==> TagPair(m, c, h.chunks[c])
  }

  ghost predicate Linked(lay: Layout, m: Mem, h: Heap) {
    forall id {:trigger List(h, id)} :: IsList(id) ==> Chain(m, Head(lay, id), List(h, id))
  }

  ghost predicate NullLinks(m: Mem, c: int) {
    At(m, c + 4) == 0 && At(m, c + 8) == 0
  }

  ghost predicate Unlinked(m: Mem, h: Heap) {
    forall c {:trigger NullLinks(m, c)} :: IsLoose(h, c) ==> NullLinks(m, c)
  }

  ghost predicate Taken(lay: Layout, h: Heap, k: int) {
    exists c :: HomeOf(h, c).Live? && Slot(lay, c + 4) == k
  }

  /** The set bits are exactly the slots of the live payload addresses. */
  ghost predicate Mapped(lay: Layout, m: Mem, h: Heap) {
    forall k: nat {:trigger BitAt(lay, m, k)} :: k < 8 * ALLOCATION_BITMAP_SIZE ==> (BitAt(lay, m, k) <==> Taken(lay, h, k))
  }

  ghost predicate Rep(lay: Layout, m: Mem, h: Heap) {
    && InDomain(lay, m) && Tagged(m, h) && Linked(lay, m, h) && Unlinked(m, h) && Mapped(lay, m, h)
    && At(m, lay.ram0) == h.last
  }

  // ----- stores that only touch links

  ghost predicate IsLinkWord(lay: Layout, h: Heap, a: int) {
    || Head(lay, REMAINDER) <= a < Bitmap(lay)
    || exists c :: c in h.chunks && !h.chunks[c].home.Live? && (a == c + 4 || a == c + 8)
  }

  ghost predicate OnlyLinks(lay: Layout, h: Heap, m: Mem, m': Mem) {
    && m.Keys == m'.Keys
    && forall a {:trigger At(m', a)} :: IsLinkWord(lay, h, a) || At(m', a) == At(m, a)
  }

  lemma ChunksFar(lay: Layout, h: Heap, c: int, d: int)
    requires Tiled(lay, h.chunks) && c in h.chunks && d in h.chunks && c != d
    ensures Far(c, d)
  {
    assert Fits(lay, h.chunks, c) && Fits(lay, h.chunks, d);
    assert Apart(h.chunks, c, d) && Apart(h.chunks, d, c);
  }

  /** Link words lie strictly inside free chunks, clear of every tag. */
  lemma TagIsNoLink(lay: Layout, h: Heap, c: int)
    requires lay.Ok() && Tiled(lay, h.chunks) && c in h.chunks
    ensures !IsLinkWord(lay, h, c) && !IsLinkWord(lay, h, c + h.chunks[c].size - 4)
  {
    assert Fits(lay, h.chunks, c);
    forall d | d in h.chunks && d != c ensures c + h.chunks[c].size <= d || d + h.chunks[d].size <= c {
      assert Apart(h.chunks, c, d) && Apart(h.chunks, d, c);
    }
    forall d | d in h.chunks ensures lay.Heap() <= d && 16 <= h.chunks[d].size {
      assert Fits(lay, h.chunks, d);
    }
  }

  /** No word of an allocated chunk is a link word. */
  lemma LiveWordIsNoLink(lay: Layout, h: Heap, c: int, a: int)
    requires lay.Ok() && Tiled(lay, h.chunks) && c in h.chunks && h.chunks[c].home.Live?
    requires c <= a < c + h.chunks[c].size
    ensures !IsLinkWord(lay, h, a)
  {
    assert Fits(lay, h.chunks, c);
    forall d | d in h.chunks && d != c ensures c + h.chunks[c].size <= d || d + 16 <= c {
      ChunksFar(lay, h, c, d);
      assert Apart(h.chunks, c, d) && Apart(h.chunks, d, c);
    }
  }

  lemma HeaderIsNoLink(lay: Layout, h: Heap, a: int)
    requires lay.Ok() && Tiled(lay, h.chunks) && (a == lay.ram0 || Bitmap(lay) <= a < lay.Heap())
    ensures !IsLinkWord(lay, h, a)
  {
    forall d | d in h.chunks ensures lay.Heap() <= d {
      assert Fits(lay, h.chunks, d);
    }
  }

  lemma TaggedKept(lay: Layout, h: Heap, m: Mem, m': Mem)
    requires lay.Ok() && Tiled(lay, h.chunks) && OnlyLinks(lay, h, m, m') && Tagged(m, h)
    ensures Tagged(m', h)
  {
    hide TagOk, IsLinkWord;
    forall c | c in h.chunks ensures TagPair(m', c, h.chunks[c]) {
      assert TagPair(m, c, h.chunks[c]);
      TagIsNoLink(lay, h, c);
    }
  }

  lemma MappedKept(lay: Layout, h: Heap, m: Mem, m': Mem)
    requires lay.Ok() && Tiled(lay, h.chunks) && OnlyLinks(lay, h, m, m') && Mapped(lay, m, h)
    ensures Mapped(lay, m', h)
  {
    hide IsLinkWord, ByteOf, Bits.Bit, Taken;
    forall k: nat | k < 8 * ALLOCATION_BITMAP_SIZE ensures BitAt(lay, m', k) <==> Taken(lay, h, k) {
      assert BitAt(lay, m, k) <==> Taken(lay, h, k);
      var a := WordOf(Bitmap(lay) + k / 8);
      assert Bitmap(lay) <= a < lay.Heap();
      HeaderIsNoLink(lay, h, a);
    }
  }

  // ----- list stores keep the representation

  lemma ListSpread(lay: Layout, h: Heap, id: ListId)
    requires lay.Ok() && Tiled(lay, h.chunks) && Holds(h, id) && IsList(id)
    ensures Spread(Head(lay, id), List(h, id))
  {
    var xs := List(h, id);
    forall i | 0 <= i < |xs| ensures Head(lay, id) + 4 <= xs[i] {
      assert Fits(lay, h.chunks, xs[i]);
    }
    forall i, j | 0 <= i < j < |xs| ensures Far(xs[i], xs[j]) {
      ChunksFar(lay, h, xs[i], xs[j]);
    }
  }

  /** Tags and bitmap say only which chunks are allocated. */
  lemma RehomeKept(lay: Layout, m: Mem, h: Heap, k: Heap)
    requires SameSizes(h, k) && SameLive(h, k)
    requires Tagged(m, h) && Mapped(lay, m, h)
    ensures Tagged(m, k) && Mapped(lay, m, k)
  {
    forall c | c in k.chunks ensures TagPair(m, c, k.chunks[c]) {
      assert TagPair(m, c, h.chunks[c]);
      assert HomeOf(h, c).Live? <==> HomeOf(k, c).Live?;
    }
    forall j: nat | j < 8 * ALLOCATION_BITMAP_SIZE ensures BitAt(lay, m, j) <==> Taken(lay, k, j) {
      assert BitAt(lay, m, j) <==> Taken(lay, h, j);
      assert forall c :: HomeOf(h, c).Live? <==> HomeOf(k, c).Live?;
    }
  }

  /** A list is untouched by stores to the links of chunks that are not on it. */
  lemma OtherList(lay: Layout, h: Heap, m: Mem, m': Mem, id: ListId, other: ListId, touched: set<int>)
    requires Wf(lay, h) && Linked(lay, m, h) && IsList(id) && IsList(other) && id != other
    requires forall c :: c in touched ==> c in h.chunks && h.chunks[c].home != On(other)
    requires forall a {:trigger At(m', a)} ::
               At(m', a) != At(m, a) ==> a == Head(lay, id) || exists c :: c in touched && (a == c + 4 || a == c + 8)
    ensures Chain(m', Head(lay, other), List(h, other))
  {
    var xs := List(h, other);
    assert Holds(h, other);
    forall c | c in touched ensures lay.Heap() <= c {
      assert Fits(lay, h.chunks, c);
    }
    forall i | 0 <= i < |xs|
      ensures At(m', xs[i] + 4) == At(m, xs[i] + 4) && At(m', xs[i] + 8) == At(m, xs[i] + 8)
    {
      assert Fits(lay, h.chunks, xs[i]);
      forall c | c in touched ensures Far(xs[i], c) {
        ChunksFar(lay, h, xs[i], c);
      }
    }
    ChainKept(m, m', Head(lay, other), xs);
  }

  lemma InsertLinked(lay: Layout, m: Mem, m': Mem, h: Heap, id: ListId, i: nat, c: int)
    requires Wf(lay, h) && Linked(lay, m, h) && IsLoose(h, c) && IsList(id) && i <= |List(h, id)|
    requires LinksIn(m, m', Head(lay, id), List(h, id), i, c)
    ensures Linked(lay, m', Insert(h, id, i, c))
  {
    var xs := List(h, id);
    assert Holds(h, id);
    ListSpread(lay, h, id);
    assert Fits(lay, h.chunks, c);
    forall j | 0 <= j < |xs| ensures Far(xs[j], c) {
      ChunksFar(lay, h, xs[j], c);
    }
    ChainInsert(m, m', Head(lay, id), xs, i, c);
    var touched := {c} + (if i > 0 then {xs[i - 1]} else {}) + (if i < |xs| then {xs[i]} else {});
    forall other | IsList(other) ensures Chain(m', Head(lay, other), List(Insert(h, id, i, c), other)) {
      if other != id {
        OtherList(lay, h, m, m', id, other, touched);
      }
    }
  }

  lemma RemoveLinked(lay: Layout, m: Mem, m': Mem, h: Heap, id: ListId, i: nat)
    requires Wf(lay, h) && Linked(lay, m, h) && IsList(id) && i < |List(h, id)|
    requires LinksOut(m, m', Head(lay, id), List(h, id), i)
    ensures Linked(lay, m', Unlink(h, List(h, id)[i]))
  {
    var xs := List(h, id);
    assert Holds(h, id);
    assert Index(xs, xs[i]) == i;
    ListSpread(lay, h, id);
    ChainRemove(m, m', Head(lay, id), xs, i);
    var touched := {xs[i]} + (if i > 0 then {xs[i - 1]} else {}) + (if i + 1 < |xs| then {xs[i + 1]} else {});
    forall other | IsList(other) ensures Chain(m', Head(lay, other), List(Unlink(h, xs[i]), other)) {
      if other != id {
        OtherList(lay, h, m, m', id, other, touched);
      }
    }
  }

  lemma LinkWords(lay: Layout, h: Heap, id: ListId, c: int)
    requires IsList(id)
    ensures IsLinkWord(lay, h, Head(lay, id))
    ensures c in h.chunks && !h.chunks[c].home.Live? ==> IsLinkWord(lay, h, c + 4) && IsLinkWord(lay, h, c + 8)
  {
  }

  lemma InsertOnlyLinks(lay: Layout, m: Mem, m': Mem, h: Heap, id: ListId, i: nat, c: int)
    requires Wf(lay, h) && IsLoose(h, c) && IsList(id) && i <= |List(h, id)| && m.Keys == m'.Keys
    requires LinksIn(m, m', Head(lay, id), List(h, id), i, c)
    ensures OnlyLinks(lay, h, m, m')
  {
    hide IsLinkWord;
    var xs := List(h, id);
    assert Holds(h, id);
    LinkWords(lay, h, id, c);
    if i > 0 { LinkWords(lay, h, id, xs[i - 1]); }
    if i < |xs| { LinkWords(lay, h, id, xs[i]); }
  }

  lemma RemoveOnlyLinks(lay: Layout, m: Mem, m': Mem, h: Heap, id: ListId, i: nat)
    requires Wf(lay, h) && IsList(id) && i < |List(h, id)| && m.Keys == m'.Keys
    requires LinksOut(m, m', Head(lay, id), List(h, id), i)
    ensures OnlyLinks(lay, h, m, m')
  {
    hide IsLinkWord;
    var xs := List(h, id);
    assert Holds(h, id);
    LinkWords(lay, h, id, xs[i]);
    if i > 0 { LinkWords(lay, h, id, xs[i - 1]); }
    if i + 1 < |xs| { LinkWords(lay, h, id, xs[i + 1]); }
  }

  /** The loose chunks other than `c` keep their null links. */
  lemma InsertUnlinked(lay: Layout, m: Mem, m': Mem, h: Heap, id: ListId, i: nat, c: int)
    requires Wf(lay, h) && Unlinked(m, h) && IsLoose(h, c) && IsList(id) && i <= |List(h, id)|
    requires LinksIn(m, m', Head(lay, id), List(h, id), i, c)
    ensures Unlinked(m', Insert(h, id, i, c))
  {
    var xs := List(h, id);
    assert Holds(h, id);
    forall d | IsLoose(Insert(h, id, i, c), d) ensures NullLinks(m', d) {
      assert IsLoose(h, d) && d != c;
      assert NullLinks(m, d);
      assert Fits(lay, h.chunks, d);
      ChunksFar(lay, h, c, d);
      if i > 0 { ChunksFar(lay, h, xs[i - 1], d); }
      if i < |xs| { ChunksFar(lay, h, xs[i], d); }
    }
  }

  lemma RemoveUnlinked(lay: Layout, m: Mem, m': Mem, h: Heap, id: ListId, i: nat)
    requires Wf(lay, h) && Unlinked(m, h) && IsList(id) && i < |List(h, id)|
    requires LinksOut(m, m', Head(lay, id), List(h, id), i)
    ensures Unlinked(m', Unlink(h, List(h, id)[i]))
  {
    var xs := List(h, id);
    var c := xs[i];
    assert Holds(h, id);
    forall d | IsLoose(Unlink(h, c), d) ensures NullLinks(m', d) {
      if d != c {
        assert IsLoose(h, d);
        assert NullLinks(m, d);
        assert Fits(lay, h.chunks, d);
        ChunksFar(lay, h, c, d);
        if i > 0 { ChunksFar(lay, h, xs[i - 1], d); }
        if i + 1 < |xs| { ChunksFar(lay, h, xs[i + 1], d); }
      }
    }
  }

  /** Storing the links of an insertion moves the chunk in the state and nothing else. */
  lemma InsertRep(lay: Layout, m: Mem, m': Mem, h: Heap, id: ListId, i: nat, c: int)
    requires Wf(lay, h) && Rep(lay, m, h) && IsLoose(h, c) && IsList(id) && i <= |List(h, id)| && m.Keys == m'.Keys
    requires LinksIn(m, m', Head(lay, id), List(h, id), i, c)
    ensures Rep(lay, m', Insert(h, id, i, c)) && OnlyLinks(lay, h, m, m')
  {
    hide Wf, Linked, Unlinked, Tagged, Mapped, IsLinkWord, LinksIn, Tiled, Binned, Listed;
    WfParts(lay, h);
    InsertOnlyLinks(lay, m, m', h, id, i, c);
    InsertUnlinked(lay, m, m', h, id, i, c);
    InsertLinked(lay, m, m', h, id, i, c);
    TaggedKept(lay, h, m, m');
    MappedKept(lay, h, m, m');
    HeaderIsNoLink(lay, h, lay.ram0);
    RehomeKept(lay, m', h, Insert(h, id, i, c));
  }

  lemma RemoveRep(lay: Layout, m: Mem, m': Mem, h: Heap, id: ListId, i: nat)
    requires Wf(lay, h) && Rep(lay, m, h) && IsList(id) && i < |List(h, id)| && m.Keys == m'.Keys
    requires LinksOut(m, m', Head(lay, id), List(h, id), i)
    ensures Rep(lay, m', Unlink(h, List(h, id)[i])) && OnlyLinks(lay, h, m, m')
  {
    hide Wf, Linked, Unlinked, Tagged, Mapped, IsLinkWord, LinksOut, Unlink, Tiled, Binned, Listed, Holds;
    WfParts(lay, h);
    OnList(h, id, i);
    UnlinkWf(lay, h, List(h, id)[i]);
    RemoveOnlyLinks(lay, m, m', h, id, i);
    RemoveUnlinked(lay, m, m', h, id, i);
    RemoveLinked(lay, m, m', h, id, i);
    TaggedKept(lay, h, m, m');
    MappedKept(lay, h, m, m');
    HeaderIsNoLink(lay, h, lay.ram0);
    RehomeKept(lay, m', h, Unlink(h, List(h, id)[i]));
  }

  lemma WfParts(lay: Layout, h: Heap)
    requires Wf(lay, h)
    ensures lay.Ok() && Tiled(lay, h.chunks) && Listed(h) && Binned(lay, h)
  {
  }

  lemma OnList(h: Heap, id: ListId, i: nat)
    requires Listed(h) && i < |List(h, id)|
    ensures List(h, id)[i] in h.chunks && h.chunks[List(h, id)[i]].home == On(id)
  {
    assert Holds(h, id);
  }
}
