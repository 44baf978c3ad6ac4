/** What every state of the allocator satisfies, and why each operation keeps it. */
module HeapInvariant {
  import opened Sequences
  import opened HeapModel

  // ----- the invariant

  ghost predicate Fits(lay: Layout, chunks: map<int, Chunk>, c: int)
    requires c in chunks
  {
    var end := c + chunks[c].size;
    && lay.Heap() <= c && (c - lay.Heap()) % 8 == 0
    && MIN_ALLOC_BYTES <= chunks[c].size && chunks[c].size % 8 == 0
    && end <= lay.ramHigh && (end < lay.ramHigh ==> end in chunks)
  }

  ghost predicate IsPred(chunks: map<int, Chunk>, p: int, c: int) {
    p in chunks && p + chunks[p].size == c
  }

  ghost predicate HasPred(chunks: map<int, Chunk>, d: int) {
    exists p :: IsPred(chunks, p, d)
  }

  /** The lower of two chunks ends before the other begins. */
  ghost predicate Apart(chunks: map<int, Chunk>, c: int, d: int)
    requires c in chunks && d in chunks
  {
    c < d ==> c + chunks[c].size <= d
  }

  /** The chunks lie end to end from the heap's first byte to its last. */
  ghost predicate Tiled(lay: Layout, chunks: map<int, Chunk>) {
    && lay.Heap() in chunks
    && (forall c {:trigger Fits(lay, chunks, c)} :: c in chunks ==> Fits(lay, chunks, c))
    && (forall c, d {:trigger Apart(chunks, c, d)} :: c in chunks && d in chunks ==> Apart(chunks, c, d))
    && (forall d {:trigger HasPred(chunks, d)} :: d in chunks && d != lay.Heap() ==> HasPred(chunks, d))
  }

  /** List `id` holds only chunks that call it home, none twice. */
  ghost predicate Holds(h: Heap, id: ListId) {
    var xs := List(h, id);
    && (forall i :: 0 <= i < |xs| ==> xs[i] in h.chunks && h.chunks[xs[i]].home == On(id))
    && (forall i, j :: 0 <= i < j < |xs| ==> xs[i] != xs[j])
  }

  /** Every chunk that calls a list home is on it: so each free chunk is on exactly one list. */
  ghost predicate Listed(h: Heap) {
    && (forall id :: Holds(h, id))
    && (forall c :: c in h.chunks && h.chunks[c].home.On? ==>
          IsList(h.chunks[c].home.id) && c in List(h, h.chunks[c].home.id))
  }

  predicate Sorted(xs: seq<int>) {
    forall i, j :: 0 <= i < j < |xs| ==> xs[i] < xs[j]
  }

  /** A dirty list is in address order and holds only sizes of its own bin. */
  ghost predicate DirtyOk(h: Heap, b: int) {
    var xs := List(h, Dirty(b));
    && Sorted(xs)
    && (forall i :: 0 <= i < |xs| ==> BinIndex(Size(h, xs[i])) == b)
  }

  /** A clean list is empty, unless it is the top one before the first allocation. */
  ghost predicate CleanOk(lay: Layout, h: Heap, b: int) {
    List(h, Clean(b)) == [] ||
    (b == MAX_BINS - 1 && List(h, Clean(b)) == [lay.Heap()] && h.chunks.Keys == {lay.Heap()})
  }

  ghost predicate Binned(lay: Layout, h: Heap) {
    && (forall b :: 1 <= b ==> DirtyOk(h, b))
    && (forall b :: 1 <= b ==> CleanOk(lay, h, b))
    && |List(h, REMAINDER)| <= 1
  }

  ghost predicate Wf(lay: Layout, h: Heap) {
    lay.Ok() && Tiled(lay, h.chunks) && Listed(h) && Binned(lay, h)
  }

  ghost predicate IsLoose(h: Heap, c: int) {
    c in h.chunks && h.chunks[c].home == Loose
  }

  ghost predicate NoneLoose(h: Heap) {
    forall c :: !IsLoose(h, c)
  }

  ghost predicate OnlyLoose(h: Heap, c: int) {
    IsLoose(h, c) && forall d :: IsLoose(h, d) ==> d == c
  }

  /** The allocated chunks of `h` and `k` are the same, with the same sizes. */
  ghost predicate SameLive(h: Heap, k: Heap) {
    forall c :: HomeOf(h, c).Live? || HomeOf(k, c).Live? ==>
      c in h.chunks && c in k.chunks && h.chunks[c] == k.chunks[c]
  }

  ghost predicate SameSizes(h: Heap, k: Heap) {
    h.chunks.Keys == k.chunks.Keys && forall c :: c in h.chunks ==> h.chunks[c].size == k.chunks[c].size
  }

  // ----- moving chunks between lists

  lemma TiledBySizes(lay: Layout, h: Heap, k: Heap)
    requires Tiled(lay, h.chunks) && SameSizes(h, k)
    ensures Tiled(lay, k.chunks)
  {
    forall c | c in k.chunks ensures Fits(lay, k.chunks, c) {
      assert Fits(lay, h.chunks, c);
    }
    forall c, d | c in k.chunks && d in k.chunks ensures Apart(k.chunks, c, d) {
      assert Apart(h.chunks, c, d);
    }
    forall d | d in k.chunks && d != lay.Heap() ensures HasPred(k.chunks, d) {
      assert HasPred(h.chunks, d);
      var p :| IsPred(h.chunks, p, d);
      assert IsPred(k.chunks, p, d);
    }
  }

  lemma UnlinkHolds(h: Heap, c: int, id: ListId)
    requires Listed(h) && HomeOf(h, c).On?
    ensures Holds(Unlink(h, c), id)
    ensures forall d :: d in h.chunks && d != c ==> Unlink(h, c).chunks[d] == h.chunks[d]
    ensures id != h.chunks[c].home.id ==> List(Unlink(h, c), id) == List(h, id)
    ensures IsLoose(Unlink(h, c), c) && SameSizes(h, Unlink(h, c)) && Unlink(h, c).last == h.last
  {
    var own := h.chunks[c].home.id;
    UnlinkMeans(h, c);
    assert Holds(h, id) && Holds(h, own);
    hide Unlink, Listed;
    var k, xs, i := Unlink(h, c), List(h, own), Index(List(h, own), c);
    if id == own {
      HoldsRest(h, k, id, i);
    } else {
      var ys := List(h, id);
      assert List(k, id) == ys;
      forall j | 0 <= j < |ys| ensures ys[j] != c && k.chunks[ys[j]] == h.chunks[ys[j]] {}
    }
  }

  lemma HoldsRest(h: Heap, k: Heap, id: ListId, i: nat)
    requires Holds(h, id) && i < |List(h, id)| && List(k, id) == List(h, id)[..i] + List(h, id)[i + 1..]
    requires forall d :: d in h.chunks && d != List(h, id)[i] ==> d in k.chunks && k.chunks[d] == h.chunks[d]
    ensures Holds(k, id)
  {
    var xs, ys := List(h, id), List(k, id);
    forall j | 0 <= j < |ys| ensures ys[j] == xs[if j < i then j else j + 1] && ys[j] != xs[i] {}
  }

  lemma UnlinkMeans(h: Heap, c: int)
    requires Listed(h) && HomeOf(h, c).On?
    ensures var id := h.chunks[c].home.id; var xs := List(h, id); var i := Index(xs, c);
      i < |xs| && xs[i] == c &&
      Unlink(h, c) == h.(lists := h.lists[id := xs[..i] + xs[i + 1..]], chunks := h.chunks[c := Chunk(Size(h, c), Loose)])
  {
    assert c in List(h, h.chunks[c].home.id);
  }

  lemma UnlinkListed(h: Heap, c: int)
    requires Listed(h) && HomeOf(h, c).On?
    ensures Listed(Unlink(h, c))
  {
    var k := Unlink(h, c);
    var id := h.chunks[c].home.id;
    var xs := List(h, id);
    var i := Index(xs, c);
    forall id' ensures Holds(k, id') {
      UnlinkHolds(h, c, id');
    }
    forall d | d in k.chunks && k.chunks[d].home.On?
      ensures IsList(k.chunks[d].home.id) && d in List(k, k.chunks[d].home.id)
    {
      UnlinkHolds(h, c, id);
      if h.chunks[d].home.id == id {
        var j := Index(xs, d);
        assert List(k, id)[if j < i then j else j - 1] == d;
      }
    }
  }

  lemma InsertListed(h: Heap, id: ListId, i: nat, c: int)
    requires Listed(h) && IsLoose(h, c) && IsList(id) && i <= |List(h, id)|
    ensures Listed(Insert(h, id, i, c)) && SameSizes(h, Insert(h, id, i, c))
  {
    var k := Insert(h, id, i, c);
    var xs := List(h, id);
    var ys := xs[..i] + [c] + xs[i..];
    assert Holds(h, id);
    assert c !in xs;
    forall id' ensures Holds(k, id') {
      assert Holds(h, id');
    }
    forall d | d in k.chunks && k.chunks[d].home.On?
      ensures IsList(k.chunks[d].home.id) && d in List(k, k.chunks[d].home.id)
    {
      if d == c {
        assert ys[i] == c;
      } else if h.chunks[d].home.id == id {
        var j := Index(xs, d);
        assert ys[if j < i then j else j + 1] == d;
      }
    }
  }

  // ----- the bins stay in order

  lemma UnlinkBinned(lay: Layout, h: Heap, c: int)
    requires Listed(h) && Binned(lay, h) && HomeOf(h, c).On?
    ensures Binned(lay, Unlink(h, c))
  {
    hide BinIndex, Index, Listed;
    var k, id := Unlink(h, c), h.chunks[c].home.id;
    UnlinkMeans(h, c);
    UnlinkHolds(h, c, id);
    hide Unlink, SameSizes;
    forall b | 1 <= b ensures DirtyOk(k, b) { UnlinkDirtyOk(h, k, c, b); }
    forall b | 1 <= b ensures CleanOk(lay, k, b) {
      assert CleanOk(lay, h, b);
      assert List(k, Clean(b)) == List(h, Clean(b)) || List(h, Clean(b)) == [lay.Heap()];
    }
  }

  lemma UnlinkDirtyOk(h: Heap, k: Heap, c: int, b: int)
    requires Listed(h) && HomeOf(h, c).On? && DirtyOk(h, b) && k == Unlink(h, c)
    ensures DirtyOk(k, b)
  {
    hide BinIndex, Index;
    UnlinkMeans(h, c);
    assert Holds(h, Dirty(b));
    var id := h.chunks[c].home.id;
    var xs, ys := List(h, Dirty(b)), List(k, Dirty(b));
    hide Listed, Unlink;
    if id == Dirty(b) {
      var i := Index(xs, c);
      forall j | 0 <= j < |ys| ensures ys[j] == xs[if j < i then j else j + 1] && Size(k, ys[j]) == Size(h, ys[j]) {}
    } else {
      assert ys == xs;
      forall j | 0 <= j < |xs| ensures Size(k, xs[j]) == Size(h, xs[j]) {}
    }
  }

  lemma SortedInsert(xs: seq<int>, c: int)
    requires Sorted(xs) && c !in xs
    ensures Sorted(xs[..SlotFor(xs, c)] + [c] + xs[SlotFor(xs, c)..])
  {
    var i := SlotFor(xs, c);
    hide SlotFor;
    var ys := xs[..i] + [c] + xs[i..];
    forall j | 0 <= j < i ensures xs[j] < c {
      assert xs[j] in xs;
    }
    forall j | 0 <= j < |ys| ensures ys[j] == if j < i then xs[j] else if j == i then c else xs[j - 1] {}
  }

  lemma AddDirtyBinned(lay: Layout, h: Heap, c: int)
    requires Listed(h) && Binned(lay, h) && IsLoose(h, c)
    requires MIN_ALLOC_BYTES <= Size(h, c) < U32
    ensures Binned(lay, AddDirty(h, c))
  {
    hide SlotFor, RangeBin, FastBin, Index;
    var k := AddDirty(h, c);
    BinIndexInRange(Size(h, c));
    forall b | 1 <= b ensures DirtyOk(k, b) {
      assert DirtyOk(h, b);
      assert Holds(h, Dirty(b));
      if b == BinIndex(Size(h, c)) {
        SortedInsert(List(h, Dirty(b)), c);
      }
    }
    forall b | 1 <= b ensures CleanOk(lay, k, b) {
      assert CleanOk(lay, h, b);
    }
  }

  lemma AddSpecialBinned(lay: Layout, h: Heap, id: ListId, c: int)
    requires Listed(h) && Binned(lay, h) && IsLoose(h, c)
    requires id == RECENT || (id == REMAINDER && List(h, REMAINDER) == [])
    ensures Binned(lay, Insert(h, id, 0, c))
  {
    var k := Insert(h, id, 0, c);
    forall b | 1 <= b ensures DirtyOk(k, b) {
      assert DirtyOk(h, b);
      assert Holds(h, Dirty(b));
    }
    forall b | 1 <= b ensures CleanOk(lay, k, b) {
      assert CleanOk(lay, h, b);
    }
  }

  // ----- whole steps

  lemma UnlinkWf(lay: Layout, h: Heap, c: int)
    requires Wf(lay, h) && HomeOf(h, c).On?
    ensures Wf(lay, Unlink(h, c)) && IsLoose(Unlink(h, c), c) && SameSizes(h, Unlink(h, c))
    ensures forall d :: d in h.chunks && d != c ==> Unlink(h, c).chunks[d] == h.chunks[d]
    ensures forall id :: id != h.chunks[c].home.id ==> List(Unlink(h, c), id) == List(h, id)
    ensures SameLive(h, Unlink(h, c)) && Unlink(h, c).last == h.last
  {
    UnlinkHolds(h, c, h.chunks[c].home.id);
    UnlinkListed(h, c);
    UnlinkBinned(lay, h, c);
    TiledBySizes(lay, h, Unlink(h, c));
  }

  lemma AddDirtyWf(lay: Layout, h: Heap, c: int)
    requires Wf(lay, h) && IsLoose(h, c)
    ensures Wf(lay, AddDirty(h, c)) && SameSizes(h, AddDirty(h, c)) && SameLive(h, AddDirty(h, c))
    ensures 1 <= BinIndex(Size(h, c)) <= 65
  {
    assert Fits(lay, h.chunks, c);
    BinIndexInRange(Size(h, c));
    var id := Dirty(BinIndex(Size(h, c)));
    InsertListed(h, id, SlotFor(List(h, id), c), c);
    AddDirtyBinned(lay, h, c);
    TiledBySizes(lay, h, AddDirty(h, c));
  }

  lemma AddSpecialWf(lay: Layout, h: Heap, id: ListId, c: int)
    requires Wf(lay, h) && IsLoose(h, c)
    requires id == RECENT || (id == REMAINDER && List(h, REMAINDER) == [])
    ensures Wf(lay, Insert(h, id, 0, c)) && SameSizes(h, Insert(h, id, 0, c)) && SameLive(h, Insert(h, id, 0, c))
  {
    InsertListed(h, id, 0, c);
    AddSpecialBinned(lay, h, id, c);
    TiledBySizes(lay, h, Insert(h, id, 0, c));
  }

  /** What a split asks of its chunk. */
  ghost predicate CanSplit(h: Heap, c: int, size: int) {
    && IsLoose(h, c) && MIN_ALLOC_BYTES <= size && size % 8 == 0
    && size + MIN_ALLOC_BYTES <= Size(h, c) && List(h, Clean(MAX_BINS - 1)) == []
  }

  lemma SplitFresh(lay: Layout, h: Heap, c: int, size: int)
    requires Wf(lay, h) && CanSplit(h, c, size)
    ensures c + size !in h.chunks
  {
    forall d | d in h.chunks ensures d != c + size {
      assert Apart(h.chunks, c, d);
    }
  }

  lemma SplitFits(lay: Layout, h: Heap, c: int, size: int, d: int)
    requires Wf(lay, h) && CanSplit(h, c, size) && d in Split(h, c, size).chunks
    ensures Fits(lay, Split(h, c, size).chunks, d)
  {
    assert Fits(lay, h.chunks, c);
    if d in h.chunks { assert Fits(lay, h.chunks, d); }
  }

  lemma SplitApart(lay: Layout, h: Heap, c: int, size: int, d: int, e: int)
    requires Wf(lay, h) && CanSplit(h, c, size)
    requires d in Split(h, c, size).chunks && e in Split(h, c, size).chunks
    ensures Apart(Split(h, c, size).chunks, d, e)
  {
    if d in h.chunks && e in h.chunks { assert Apart(h.chunks, d, e); }
    if d in h.chunks { assert Apart(h.chunks, d, c) && Apart(h.chunks, c, d); }
    if e in h.chunks { assert Apart(h.chunks, e, c) && Apart(h.chunks, c, e); }
  }

  lemma SplitHasPred(lay: Layout, h: Heap, c: int, size: int, d: int)
    requires Wf(lay, h) && CanSplit(h, c, size)
    requires d in Split(h, c, size).chunks && d != lay.Heap()
    ensures HasPred(Split(h, c, size).chunks, d)
  {
    var k := Split(h, c, size).chunks;
    var b := c + size;
    SplitFresh(lay, h, c, size);
    if d == b {
      assert IsPred(k, c, d);
    } else {
      assert HasPred(h.chunks, d);
      var p :| IsPred(h.chunks, p, d);
      assert IsPred(k, if p == c then b else p, d);
    }
  }

  lemma SplitTiled(lay: Layout, h: Heap, c: int, size: int)
    requires Wf(lay, h) && CanSplit(h, c, size)
    ensures Tiled(lay, Split(h, c, size).chunks)
  {
    hide Fits, Apart, HasPred;
    var k := Split(h, c, size).chunks;
    forall d | d in k ensures Fits(lay, k, d) { SplitFits(lay, h, c, size, d); }
    forall d, e | d in k && e in k ensures Apart(k, d, e) { SplitApart(lay, h, c, size, d, e); }
    forall d | d in k && d != lay.Heap() ensures HasPred(k, d) { SplitHasPred(lay, h, c, size, d); }
  }

  lemma SplitListed(lay: Layout, h: Heap, c: int, size: int)
    requires Wf(lay, h) && CanSplit(h, c, size)
    ensures Listed(Split(h, c, size)) && Binned(lay, Split(h, c, size))
  {
    SplitFresh(lay, h, c, size);
    var k := Split(h, c, size);
    forall id ensures Holds(k, id) {
      assert Holds(h, id);
    }
    forall b | 1 <= b ensures DirtyOk(k, b) {
      assert DirtyOk(h, b);
      assert Holds(h, Dirty(b));
    }
    forall b | 1 <= b ensures CleanOk(lay, k, b) {
      assert CleanOk(lay, h, b);
    }
  }

  lemma SplitWf(lay: Layout, h: Heap, c: int, size: int)
    requires Wf(lay, h) && CanSplit(h, c, size)
    ensures Wf(lay, Split(h, c, size)) && SameLive(h, Split(h, c, size))
    ensures IsLoose(Split(h, c, size), c) && IsLoose(Split(h, c, size), c + size) && c + size !in h.chunks
  {
    SplitFresh(lay, h, c, size);
    SplitTiled(lay, h, c, size);
    SplitListed(lay, h, c, size);
  }
}
