/** Each allocator operation keeps the heap's invariant and delivers what it promises. */
module HeapOps {
  import opened Sequences
  import opened Options
  import opened HeapModel
  import opened HeapInvariant

  predicate ValidSize(size: int) {
    MIN_ALLOC_BYTES <= size <= U32 - 8 && size % 8 == 0
  }

  /** The clean lists do not move. */
  ghost predicate SameClean(h: Heap, k: Heap) {
    forall b :: List(h, Clean(b)) == List(k, Clean(b))
  }

  // ----- rebinning the recent chunks

  lemma RebinOne(lay: Layout, h: Heap)
    requires Wf(lay, h) && NoneLoose(h) && List(h, RECENT) != []
    ensures var c := List(h, RECENT)[0]; var k := AddDirty(Unlink(h, c), c);
      && HomeOf(h, c) == On(RECENT)
      && Wf(lay, k) && NoneLoose(k) && SameSizes(h, k) && SameLive(h, k) && SameClean(h, k) && k.last == h.last
      && List(k, RECENT) == List(h, RECENT)[1..]
  {
    hide SlotFor, RangeBin, FastBin, Wf;
    var c := List(h, RECENT)[0];
    assert Holds(h, RECENT) by { ListedOf(lay, h); }
    var u := Unlink(h, c);
    UnlinkWf(lay, h, c);
    AddDirtyWf(lay, u, c);
    assert Index(List(h, RECENT), c) == 0;
    assert List(u, RECENT) == List(h, RECENT)[1..];
    forall d ensures !IsLoose(AddDirty(u, c), d) {
      assert !IsLoose(h, d);
    }
  }

  lemma ListedOf(lay: Layout, h: Heap)
    requires Wf(lay, h)
    ensures Listed(h)
  {
  }

  lemma {:induction false} RebinRecentWf(lay: Layout, h: Heap, xs: seq<int>, size: int)
    requires Wf(lay, h) && NoneLoose(h) && xs == List(h, RECENT)
    ensures var r := RebinRecent(h, xs, size); var k := r.heap;
      && Wf(lay, k) && NoneLoose(k) && SameSizes(h, k) && SameLive(h, k) && SameClean(h, k) && k.last == h.last
      && (r.chunk.Some? ==> HomeOf(k, r.chunk.value) == On(RECENT) && Exact(Size(k, r.chunk.value), size))
      && (r.chunk.Some? ==> r.chunk.value in xs)
      && (r.chunk.None? ==> List(k, RECENT) == [] && forall i :: 0 <= i < |xs| ==> !Exact(Size(h, xs[i]), size))
    decreases |xs|
  {
    hide Wf, AddDirty, Unlink;
    if xs != [] {
      RebinOne(lay, h);
      if !Exact(Size(h, xs[0]), size) {
        var k := AddDirty(Unlink(h, xs[0]), xs[0]);
        RebinRecentWf(lay, k, xs[1..], size);
      }
    }
  }

  // ----- splitting

  ghost predicate TwoLoose(h: Heap, a: int, b: int) {
    && a != b && IsLoose(h, a) && IsLoose(h, b)
    && forall d :: IsLoose(h, d) ==> d == a || d == b
  }

  /** Nothing waits on the top clean list or in the remainder bin. */
  ghost predicate ReadyToSplit(h: Heap) {
    List(h, Clean(MAX_BINS - 1)) == [] && List(h, REMAINDER) == []
  }

  /** One pre-allocation: a further chunk goes to the recent stack. */
  lemma PreAllocateOne(lay: Layout, h: Heap, a: int, rest: int, size: int)
    requires Wf(lay, h) && TwoLoose(h, a, rest) && ReadyToSplit(h) && CanSplit(h, rest, size)
    ensures var k := AddRecent(Split(h, rest, size), rest);
      && Wf(lay, k) && TwoLoose(k, a, rest + size) && ReadyToSplit(k) && SameLive(h, k)
      && k.last == h.last && k.chunks[a] == h.chunks[a]
      && Size(k, rest) == size && Size(k, rest + size) == Size(h, rest) - size
  {
    hide Wf, CanSplit;
    assert rest in h.chunks && IsLoose(h, rest);
    SplitWf(lay, h, rest, size);
    AddSpecialWf(lay, Split(h, rest, size), RECENT, rest);
    var k := AddRecent(Split(h, rest, size), rest);
    forall d ensures IsLoose(k, d) ==> d == a || d == rest + size {
      assert IsLoose(h, d) ==> d == a || d == rest;
    }
  }

  lemma {:induction false} PreAllocateWf(lay: Layout, h: Heap, a: int, rest: int, size: int, n: nat)
    requires Wf(lay, h) && TwoLoose(h, a, rest) && ReadyToSplit(h) && MIN_ALLOC_BYTES <= size && size % 8 == 0
    ensures var (k, r) := PreAllocate(h, rest, size, n);
      && Wf(lay, k) && TwoLoose(k, a, r) && ReadyToSplit(k) && SameLive(h, k)
      && k.last == h.last && k.chunks[a] == h.chunks[a]
    decreases n
  {
    hide Wf, Split, AddRecent;
    if n > 0 && size < Size(h, rest) && MIN_ALLOC_BYTES <= Size(h, rest) - size {
      PreAllocateOne(lay, h, a, rest, size);
      PreAllocateWf(lay, AddRecent(Split(h, rest, size), rest), a, rest + size, size, n - 1);
    }
  }

  lemma OneLeftLoose(h: Heap, id: ListId, a: int, b: int)
    requires TwoLoose(h, a, b)
    ensures OnlyLoose(Insert(h, id, 0, b), a)
  {
    forall d ensures IsLoose(Insert(h, id, 0, b), d) ==> d == a {
      assert IsLoose(h, d) ==> d == a || d == b;
    }
  }

  lemma CarveWf(lay: Layout, h: Heap, c: int, size: int)
    requires Wf(lay, h) && OnlyLoose(h, c) && ReadyToSplit(h) && ValidSize(size) && size <= Size(h, c)
    ensures var k := Carve(h, c, size);
      && Wf(lay, k) && OnlyLoose(k, c) && SameLive(h, k) && k.last == h.last
      && size <= Size(k, c) < size + MIN_ALLOC_BYTES
  {
    hide Wf, PreAllocate;
    if MIN_ALLOC_BYTES <= Size(h, c) - size {
      SplitWf(lay, h, c, size);
      var h1 := Split(h, c, size);
      forall d ensures IsLoose(h1, d) ==> d == c || d == c + size {
        assert IsLoose(h, d) ==> d == c;
      }
      if h.last == size {
        PreAllocateWf(lay, h1, c, c + size, size, MAX_PRE_ALLOCATIONS);
        var (h2, rest) := PreAllocate(h1, c + size, size, MAX_PRE_ALLOCATIONS);
        AddSpecialWf(lay, h2, REMAINDER, rest);
        OneLeftLoose(h2, REMAINDER, c, rest);
      } else {
        AddSpecialWf(lay, h1, REMAINDER, c + size);
        OneLeftLoose(h1, REMAINDER, c, c + size);
      }
    }
  }

  // ----- searching for a chunk to split

  /** The top clean list, when not empty, holds the only chunk there is. */
  lemma TopCleanIsAll(lay: Layout, h: Heap, c: int)
    requires Wf(lay, h) && HomeOf(h, c).On? && HomeOf(h, c).id.Clean? && 1 <= HomeOf(h, c).id.bin
    ensures h.chunks.Keys == {c} && HomeOf(h, c) == On(Clean(MAX_BINS - 1)) && c == lay.Heap()
  {
    var b := HomeOf(h, c).id.bin;
    assert CleanOk(lay, h, b);
    assert c in List(h, Clean(b));
  }

  lemma {:induction false} FindCleanMeaning(h: Heap, i: int, size: int)
    requires 1 <= i
    ensures match FindClean(h, i, size)
      case Some(c) => (exists b, k :: i <= b < MAX_BINS && 0 <= k < |List(h, Clean(b))| && List(h, Clean(b))[k] == c)
                      && size <= Size(h, c)
      case None => forall b, k :: i <= b < MAX_BINS && 0 <= k < |List(h, Clean(b))| ==> Size(h, List(h, Clean(b))[k]) < size
    decreases MAX_BINS - i
  {
    if i < MAX_BINS {
      FindCleanMeaning(h, i + 1, size);
    }
  }

  lemma FindToSplitWf(lay: Layout, h: Heap, size: int)
    requires Wf(lay, h) && NoneLoose(h) && ValidSize(size)
    ensures match FindToSplit(h, size)
      case Some(c) =>
        && HomeOf(h, c).On? && size <= Size(h, c) && Wf(lay, Unlink(h, c)) && OnlyLoose(Unlink(h, c), c)
        && ReadyToSplit(Unlink(h, c)) && SameLive(h, Unlink(h, c)) && Unlink(h, c).last == h.last
        && Size(Unlink(h, c), c) == Size(h, c)
      case None =>
        && (forall k :: 0 <= k < |List(h, REMAINDER)| ==> Size(h, List(h, REMAINDER)[k]) < size)
        && (forall b, k :: BinIndex(size) <= b < MAX_BINS && 0 <= k < |List(h, Clean(b))| ==>
              Size(h, List(h, Clean(b))[k]) < size)
  {
    hide RangeBin, FastBin;
    BinIndexInRange(size);
    FindCleanMeaning(h, BinIndex(size), size);
    var got := FindToSplit(h, size);
    if got.Some? {
      FoundToSplit(lay, h, got.value, size);
    }
  }

  lemma FoundToSplit(lay: Layout, h: Heap, c: int, size: int)
    requires Wf(lay, h) && NoneLoose(h)
    requires c in List(h, REMAINDER) || exists b, k :: 1 <= b && 0 <= k < |List(h, Clean(b))| && List(h, Clean(b))[k] == c
    ensures HomeOf(h, c).On? && Wf(lay, Unlink(h, c)) && OnlyLoose(Unlink(h, c), c) && ReadyToSplit(Unlink(h, c))
    ensures SameLive(h, Unlink(h, c)) && Unlink(h, c).last == h.last && Size(Unlink(h, c), c) == Size(h, c)
  {
    var b :| 0 <= b && c in List(h, Clean(b));
    assert Holds(h, Clean(b));
    UnlinkWf(lay, h, c);
    var u := Unlink(h, c);
    forall d ensures IsLoose(u, d) ==> d == c {
      assert !IsLoose(h, d);
    }
    if b >= 1 {
      TopCleanIsAll(lay, h, c);
    }
    OtherCleanEmpty(lay, h, c, b);
  }

  /** Until the initial chunk is taken, it is the only thing on any list. */
  lemma InitialAlone(lay: Layout, h: Heap, id: ListId)
    requires Wf(lay, h) && List(h, Clean(MAX_BINS - 1)) != [] && id != Clean(MAX_BINS - 1)
    ensures List(h, id) == []
  {
    assert CleanOk(lay, h, MAX_BINS - 1) && Holds(h, id) && Holds(h, Clean(MAX_BINS - 1));
    assert HomeOf(h, List(h, Clean(MAX_BINS - 1))[0]) == On(Clean(MAX_BINS - 1));
    if List(h, id) != [] {
      SomeoneHome(h, id);
    }
  }

  lemma SomeoneHome(h: Heap, id: ListId)
    requires Holds(h, id) && List(h, id) != []
    ensures exists d :: d in h.chunks.Keys && HomeOf(h, d) == On(id)
  {
    var d := List(h, id)[0];
    assert d in h.chunks.Keys && HomeOf(h, d) == On(id);
  }

  /** With `c` gone from a clean list, neither the remainder bin nor the top clean list holds anything. */
  lemma OtherCleanEmpty(lay: Layout, h: Heap, c: int, b: int)
    requires Wf(lay, h) && c in h.chunks && HomeOf(h, c) == On(Clean(b)) && (b == 0 || b == MAX_BINS - 1)
    ensures ReadyToSplit(Unlink(h, c))
  {
    assert Holds(h, Clean(b));
    assert CleanOk(lay, h, MAX_BINS - 1);
    assert c in List(h, Clean(b));
    if b == 0 {
      if List(h, Clean(MAX_BINS - 1)) != [] {
        InitialAlone(lay, h, REMAINDER);
      }
    } else {
      InitialAlone(lay, h, REMAINDER);
    }
  }

  // ----- allocating

  /**
   * An allocation leaves the heap in order with just the chunk it returns in hand,
   * at most 16 bytes larger than asked for, and touches no allocated chunk.
   */
  lemma AllocateWf(lay: Layout, h: Heap, size: int)
    requires Wf(lay, h) && NoneLoose(h) && ValidSize(size)
    ensures var r := Allocate(h, size);
      && Wf(lay, r.heap) && SameLive(h, r.heap) && r.heap.last == h.last
      && match r.chunk
         case None => NoneLoose(r.heap) && SameSizes(h, r.heap)
         case Some(c) => OnlyLoose(r.heap, c) && size <= Size(r.heap, c) <= size + MIN_ALLOC_BYTES
  {
    hide Wf, Listed, RangeBin, FastBin, RebinRecent, Carve, FindToSplit;
    var recent := List(h, RECENT);
    var dirty := List(h, Dirty(BinIndex(size)));
    var k := FindExact(h, dirty, size);
    ListedOf(lay, h);
    if recent != [] && Exact(Size(h, recent[0]), size) {
      TakeWf(lay, h, RECENT, recent[0], size);
    } else if k < |dirty| {
      TakeWf(lay, h, Dirty(BinIndex(size)), dirty[k], size);
    } else {
      RebinRecentWf(lay, h, recent, size);
      var Found(h1, fit) := RebinRecent(h, recent, size);
      if fit.Some? {
        ExactOn(lay, h1, RECENT, fit.value);
        TakeWf(lay, h1, RECENT, fit.value, size);
      } else {
        FindToSplitWf(lay, h1, size);
        if FindToSplit(h1, size).Some? {
          var c := FindToSplit(h1, size).value;
          CarveWf(lay, Unlink(h1, c), c, size);
        }
      }
    }
  }

  lemma ExactOn(lay: Layout, h: Heap, id: ListId, c: int)
    requires Wf(lay, h) && HomeOf(h, c) == On(id)
    ensures c in List(h, id)
  {
    assert c in h.chunks && h.chunks[c].home.On?;
  }

  lemma TakeWf(lay: Layout, h: Heap, id: ListId, c: int, size: int)
    requires Wf(lay, h) && NoneLoose(h) && ValidSize(size) && c in List(h, id) && Exact(Size(h, c), size)
    ensures var r := Take(h, c);
      && Wf(lay, r.heap) && SameLive(h, r.heap) && r.heap.last == h.last
      && OnlyLoose(r.heap, c) && size <= Size(r.heap, c) <= size + MIN_ALLOC_BYTES
  {
    hide RangeBin, FastBin, Unlink;
    assert Holds(h, id);
    assert Fits(lay, h.chunks, c);
    UnlinkWf(lay, h, c);
    ExactMeansClose(Size(h, c), size);
    forall d ensures IsLoose(Unlink(h, c), d) ==> d == c {
      assert !IsLoose(h, d);
    }
  }

  /** Some list that an allocation of `size` may use holds a chunk it can use. */
  ghost predicate Available(h: Heap, size: int) {
    || (exists i :: 0 <= i < |List(h, RECENT)| && size <= Size(h, List(h, RECENT)[i]) <= size + MIN_ALLOC_BYTES)
    || (exists i :: 0 <= i < |List(h, Dirty(BinIndex(size)))| &&
          size <= Size(h, List(h, Dirty(BinIndex(size)))[i]) <= size + MIN_ALLOC_BYTES)
    || (exists i :: 0 <= i < |List(h, REMAINDER)| && size <= Size(h, List(h, REMAINDER)[i]))
    || (exists b, i :: BinIndex(size) <= b < MAX_BINS && 0 <= i < |List(h, Clean(b))| && size <= Size(h, List(h, Clean(b))[i]))
  }

  lemma ExactOnList(lay: Layout, h: Heap, id: ListId, i: nat, size: int)
    requires Wf(lay, h) && ValidSize(size) && i < |List(h, id)|
    ensures Exact(Size(h, List(h, id)[i]), size) <==> size <= Size(h, List(h, id)[i]) <= size + MIN_ALLOC_BYTES
  {
    var c := List(h, id)[i];
    assert Holds(h, id);
    assert Fits(lay, h.chunks, c);
    ExactMeansClose(Size(h, c), size);
  }

  lemma RecentAvailable(lay: Layout, h: Heap, size: int)
    requires Wf(lay, h) && NoneLoose(h) && ValidSize(size)
    ensures (exists i :: 0 <= i < |List(h, RECENT)| && size <= Size(h, List(h, RECENT)[i]) <= size + MIN_ALLOC_BYTES)
       <==> RebinRecent(h, List(h, RECENT), size).chunk.Some?
  {
    hide Wf, RebinRecent;
    var recent := List(h, RECENT);
    var r := RebinRecent(h, recent, size);
    RebinRecentWf(lay, h, recent, size);
    if r.chunk.Some? {
      var i := Index(recent, r.chunk.value);
      ExactOnList(lay, h, RECENT, i, size);
      assert size <= Size(h, recent[i]) <= size + MIN_ALLOC_BYTES;
    } else {
      forall i | 0 <= i < |recent| ensures !(size <= Size(h, recent[i]) <= size + MIN_ALLOC_BYTES) {
        ExactOnList(lay, h, RECENT, i, size);
      }
    }
  }

  lemma DirtyAvailable(lay: Layout, h: Heap, size: int)
    requires Wf(lay, h) && NoneLoose(h) && ValidSize(size)
    ensures var dirty := List(h, Dirty(BinIndex(size)));
      (exists i :: 0 <= i < |dirty| && size <= Size(h, dirty[i]) <= size + MIN_ALLOC_BYTES)
       <==> FindExact(h, dirty, size) < |dirty|
  {
    hide Wf, RangeBin, FastBin;
    var id := Dirty(BinIndex(size));
    forall i | 0 <= i < |List(h, id)|
      ensures Exact(Size(h, List(h, id)[i]), size) <==> size <= Size(h, List(h, id)[i]) <= size + MIN_ALLOC_BYTES
    {
      ExactOnList(lay, h, id, i, size);
    }
    var k := FindExact(h, List(h, id), size);
  }

  lemma SplitAvailable(h: Heap, size: int)
    requires 1 <= BinIndex(size)
    ensures FindToSplit(h, size).Some? <==>
      || (exists i :: 0 <= i < |List(h, REMAINDER)| && size <= Size(h, List(h, REMAINDER)[i]))
      || (exists b, i :: BinIndex(size) <= b < MAX_BINS && 0 <= i < |List(h, Clean(b))| && size <= Size(h, List(h, Clean(b))[i]))
  {
    hide RangeBin, FastBin;
    FindCleanMeaning(h, BinIndex(size), size);
  }

  /** Allocation fails exactly when no such chunk exists. */
  lemma FailsExactlyWhenFull(lay: Layout, h: Heap, size: int)
    requires Wf(lay, h) && NoneLoose(h) && ValidSize(size)
    ensures Allocate(h, size).chunk.None? <==> !Available(h, size)
  {
    hide Wf, RangeBin, FastBin, RebinRecent, Carve, FindToSplit, FindExact;
    BinIndexInRange(size);
    RecentAvailable(lay, h, size);
    DirtyAvailable(lay, h, size);
    RebinRecentWf(lay, h, List(h, RECENT), size);
    SplitAvailable(RebinRecent(h, List(h, RECENT), size).heap, size);
    if List(h, RECENT) != [] { ExactOnList(lay, h, RECENT, 0, size); }
  }
}
