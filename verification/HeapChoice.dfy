/** Which chunk an allocation takes, and what it cuts off it. */
module HeapChoice {
  import opened Sequences
  import opened Options
  import opened HeapModel
  import opened HeapInvariant
  import opened HeapOps
  import opened HeapRuns

  // ----- cutting

  /** Cutting `size` off `total` bytes, `n` more pieces are cut in advance: none after another size, else as many as fit, up to 16. */
  predicate Advance(last: int, total: int, size: int, n: int) {
    && 0 <= n <= 16 && total - (n + 1) * size >= 16
    && (last != size ==> n == 0)
    && (last == size && n < 16 ==> total - (n + 2) * size < 16)
  }

  /** The recent list holds the `n` pieces of `size` bytes behind `c`, the farthest first, and what is left is the remainder. */
  ghost predicate Cut(k: Heap, c: int, total: int, size: int, n: int) {
    && Size(k, c) == size && |List(k, RECENT)| == n
    && (forall j :: 0 <= j < n ==> List(k, RECENT)[j] == c + (n - j) * size && Size(k, List(k, RECENT)[j]) == size)
    && List(k, REMAINDER) == [c + (n + 1) * size] && Size(k, c + (n + 1) * size) == total - (n + 1) * size
  }

  /** Every chunk of `h` but `c` is the same in `k`. */
  ghost predicate OthersSame(h: Heap, k: Heap, c: int) {
    forall d :: d in h.chunks && d != c ==> d in k.chunks && k.chunks[d] == h.chunks[d]
  }

  ghost predicate ListsSame(h: Heap, k: Heap, id: ListId) {
    forall other :: other != id ==> List(k, other) == List(h, other)
  }

  /** One piece cut off onto the recent stack. */
  lemma OneCut(lay: Layout, h: Heap, rest: int, size: int)
    requires Wf(lay, h) && CanSplit(h, rest, size)
    ensures var k := AddRecent(Split(h, rest, size), rest);
      && List(k, RECENT) == [rest] + List(h, RECENT) && ListsSame(h, k, RECENT) && OthersSame(h, k, rest)
      && rest in k.chunks && k.chunks[rest] == Chunk(size, On(RECENT)) && rest + size !in h.chunks
  {
    SplitFresh(lay, h, rest, size);
    hide Wf, CanSplit;
    assert [] + [rest] + List(h, RECENT) == [rest] + List(h, RECENT);
  }

  lemma OneMorePiece(tail: seq<int>, mid: seq<int>, xs: seq<int>, rest: int, size: int, m: nat)
    requires mid == [rest] + tail && |xs| == m + |mid| && xs[m..] == mid
    requires forall j :: 0 <= j < m ==> xs[j] == rest + size + (m - 1 - j) * size
    ensures xs[m + 1..] == tail && xs[m] == rest
    ensures forall j :: 0 <= j <= m ==> xs[j] == rest + (m - j) * size
  {
    assert xs[m] == mid[0];
    assert xs[m + 1..] == xs[m..][1..];
    forall j | 0 <= j < m ensures xs[j] == rest + (m - j) * size {
      assert size + (m - 1 - j) * size == (m - j) * size;
    }
  }

  lemma {:induction false} PreAllocateCuts(lay: Layout, h: Heap, a: int, rest: int, size: int, n: nat) returns (m: nat)
    requires Wf(lay, h) && TwoLoose(h, a, rest) && ReadyToSplit(h) && MIN_ALLOC_BYTES <= size && size % 8 == 0
    ensures var (k, r) := PreAllocate(h, rest, size, n);
      && m <= n && r == rest + m * size && Size(k, r) == Size(h, rest) - m * size
      && Size(k, r) >= MIN_ALLOC_BYTES && (m < n ==> Size(k, r) - size < MIN_ALLOC_BYTES)
      && |List(k, RECENT)| == m + |List(h, RECENT)| && List(k, RECENT)[m..] == List(h, RECENT)
      && (forall j :: 0 <= j < m ==> List(k, RECENT)[j] == rest + (m - 1 - j) * size && Size(k, List(k, RECENT)[j]) == size)
      && ListsSame(h, k, RECENT) && OthersSame(h, k, rest) && (r == rest || r !in h.chunks)
    decreases n
  {
    hide Wf, AddRecent, Split;
    assert Fits(lay, h.chunks, rest) by { WfFits(lay, h, rest); }
    if n > 0 && size < Size(h, rest) && MIN_ALLOC_BYTES <= Size(h, rest) - size {
      var h1 := AddRecent(Split(h, rest, size), rest);
      assert CanSplit(h, rest, size);
      PreAllocateOne(lay, h, a, rest, size);
      OneCut(lay, h, rest, size);
      var m1 := PreAllocateCuts(lay, h1, a, rest + size, size, n - 1);
      m := m1 + 1;
      var (k, r) := PreAllocate(h, rest, size, n);
      assert PreAllocate(h1, rest + size, size, n - 1) == (k, r);
      hide PreAllocate;
      OneMorePiece(List(h, RECENT), List(h1, RECENT), List(k, RECENT), rest, size, m1);
    } else {
      m := 0;
    }
  }

  lemma RemainderAdded(h: Heap, r: int)
    requires List(h, REMAINDER) == [] && r in h.chunks
    ensures var k := AddRemainder(h, r);
      List(k, REMAINDER) == [r] && ListsSame(h, k, REMAINDER) && OthersSame(h, k, r) && forall d :: Size(k, d) == Size(h, d)
  {
    assert [] + [r] + [] == [r];
  }

  lemma FirstCut(lay: Layout, h: Heap, c: int, size: int)
    requires Wf(lay, h) && OnlyLoose(h, c) && ReadyToSplit(h) && ValidSize(size) && size + MIN_ALLOC_BYTES <= Size(h, c)
    ensures var k := Split(h, c, size);
      && Wf(lay, k) && TwoLoose(k, c, c + size) && ReadyToSplit(k) && k.lists == h.lists && k.last == h.last
      && Size(k, c) == size && Size(k, c + size) == Size(h, c) - size
      && c + size in k.chunks && c + size !in h.chunks && c in k.chunks && OthersSame(h, k, c)
  {
    hide Wf;
    SplitWf(lay, h, c, size);
    var k := Split(h, c, size);
    forall d ensures IsLoose(k, d) ==> d == c || d == c + size {
      assert IsLoose(h, d) ==> d == c;
    }
  }

  /** What is cut off a chunk in hand that is large enough for more. */
  lemma CarveCuts(lay: Layout, h: Heap, c: int, size: int) returns (n: nat)
    requires Wf(lay, h) && OnlyLoose(h, c) && ReadyToSplit(h) && ValidSize(size) && size + MIN_ALLOC_BYTES <= Size(h, c)
    requires List(h, RECENT) == []
    ensures Advance(h.last, Size(h, c), size, n) && Cut(Carve(h, c, size), c, Size(h, c), size, n)
    ensures OthersSame(h, Carve(h, c, size), c)
    ensures forall id :: id != RECENT && id != REMAINDER ==> List(Carve(h, c, size), id) == List(h, id)
  {
    hide Wf, TwoLoose, OnlyLoose, Split, AddRemainder, PreAllocate;
    FirstCut(lay, h, c, size);
    var h1 := Split(h, c, size);
    if h.last == size {
      n := PreAllocateCuts(lay, h1, c, c + size, size, MAX_PRE_ALLOCATIONS);
      var (h2, r) := PreAllocate(h1, c + size, size, MAX_PRE_ALLOCATIONS);
      CutsDone(h, h1, h2, c, size, n);
    } else {
      n := 0;
      CutsDone(h, h1, h1, c, size, n);
    }
  }

  /** The rest goes to the remainder bin. */
  lemma CutsDone(h: Heap, h1: Heap, h2: Heap, c: int, size: int, n: nat)
    requires c in h1.chunks && OthersSame(h, h1, c) && h1.lists == h.lists && c + size !in h.chunks
    requires OthersSame(h1, h2, c + size) && ListsSame(h1, h2, RECENT) && List(h1, RECENT) == [] && List(h1, REMAINDER) == []
    requires Size(h1, c) == size >= MIN_ALLOC_BYTES && |List(h2, RECENT)| == n
    requires forall j :: 0 <= j < n ==> List(h2, RECENT)[j] == c + size + (n - 1 - j) * size && Size(h2, List(h2, RECENT)[j]) == size
    requires c + size + n * size !in h.chunks
    requires Size(h2, c + size + n * size) == Size(h, c) - size - n * size >= MIN_ALLOC_BYTES
    ensures var k := AddRemainder(h2, c + size + n * size);
      && Cut(k, c, Size(h, c), size, n) && OthersSame(h, k, c)
      && forall id :: id != RECENT && id != REMAINDER ==> List(k, id) == List(h, id)
  {
    var r := c + size + n * size;
    assert r in h2.chunks;
    RemainderAdded(h2, r);
    CutThrough(h2, c, size, n);
    assert Size(h2, c) == size;
  }

  /** The pieces counted from the chunk they were cut off. */
  lemma CutThrough(k: Heap, c: int, size: int, n: nat)
    requires |List(k, RECENT)| == n
    requires forall j :: 0 <= j < n ==> List(k, RECENT)[j] == c + size + (n - 1 - j) * size && Size(k, List(k, RECENT)[j]) == size
    ensures forall j :: 0 <= j < n ==> List(k, RECENT)[j] == c + (n - j) * size && Size(k, List(k, RECENT)[j]) == size
    ensures c + size + n * size == c + (n + 1) * size
  {
    forall j | 0 <= j < n ensures List(k, RECENT)[j] == c + (n - j) * size {
      assert size + (n - 1 - j) * size == (n - j) * size;
    }
  }

  /** A chunk in hand, while no chunk is recent, stays whole when fewer than 16 bytes would be left, and is cut otherwise. */
  ghost predicate Carved(h: Heap, k: Heap, c: int, size: int) {
    if Size(h, c) - size < 16 then k == h
    else List(h, RECENT) == [] ==> exists n :: Advance(h.last, Size(h, c), size, n) && Cut(k, c, Size(h, c), size, n)
  }

  lemma CarveMeans(lay: Layout, h: Heap, c: int, size: int)
    requires Wf(lay, h) && OnlyLoose(h, c) && ReadyToSplit(h) && ValidSize(size) && size <= Size(h, c)
    ensures Carved(h, Carve(h, c, size), c, size)
  {
    hide Advance, Cut;
    if size + MIN_ALLOC_BYTES <= Size(h, c) && List(h, RECENT) == [] { var n := CarveCuts(lay, h, c, size); }
  }

  // ----- rebinning

  /** The first `i` of the recent chunks have moved to the dirty lists of their sizes; no other chunk but `c` has changed. */
  ghost predicate Rebinned(h: Heap, k: Heap, xs: seq<int>, i: int, c: Option<int>)
    requires 0 <= i <= |xs|
  {
    && SameSizesBut(h, k, c)
    && (forall j :: 0 <= j < i ==> HomeOf(k, xs[j]) == On(Dirty(BinIndex(Size(h, xs[j])))))
    && (forall d :: d in h.chunks && d !in xs[..i] && c != Some(d) ==> d in k.chunks && k.chunks[d] == h.chunks[d])
  }

  ghost predicate SameSizesBut(h: Heap, k: Heap, c: Option<int>) {
    forall d :: d in h.chunks && c != Some(d) ==> d in k.chunks && Size(k, d) == Size(h, d)
  }

  lemma RebinsFirst(lay: Layout, h: Heap)
    requires Wf(lay, h) && NoneLoose(h) && List(h, RECENT) != []
    ensures var c := List(h, RECENT)[0]; var k := AddDirty(Unlink(h, c), c);
      && c in h.chunks && HomeOf(k, c) == On(Dirty(BinIndex(Size(h, c)))) && OthersSame(h, k, c)
      && c !in List(h, RECENT)[1..]
  {
    hide SlotFor, RangeBin, FastBin;
    var c := List(h, RECENT)[0];
    assert Holds(h, RECENT);
    UnlinkWf(lay, h, c);
  }

  lemma {:induction false} RebinRecentMeans(lay: Layout, h: Heap, xs: seq<int>, size: int) returns (i: nat)
    requires Wf(lay, h) && NoneLoose(h) && xs == List(h, RECENT)
    ensures var r := RebinRecent(h, xs, size);
      && i <= |xs| && (forall j :: 0 <= j < i ==> !Exact(Size(h, xs[j]), size))
      && (i < |xs| ==> Exact(Size(h, xs[i]), size) && r.chunk == Some(xs[i]))
      && (i == |xs| ==> r.chunk == None)
      && List(r.heap, RECENT) == xs[i..] && Rebinned(h, r.heap, xs, i, None)
    decreases |xs|
  {
    hide Wf, AddDirty, Unlink, BinIndex, Exact;
    if xs == [] || Exact(Size(h, xs[0]), size) {
      i := 0;
    } else {
      var c := xs[0];
      var k := AddDirty(Unlink(h, c), c);
      RebinOne(lay, h);
      RebinsFirst(lay, h);
      var i' := RebinRecentMeans(lay, k, xs[1..], size);
      i := i' + 1;
      var l := RebinRecent(k, xs[1..], size).heap;
      assert RebinRecent(h, xs, size) == RebinRecent(k, xs[1..], size);
      RebinnedOneMore(h, k, l, xs, i');
      assert xs[1..][i'..] == xs[i..];
    }
  }

  lemma RebinnedOneMore(h: Heap, k: Heap, l: Heap, xs: seq<int>, i: nat)
    requires i < |xs| && OthersSame(h, k, xs[0]) && SameSizes(h, k) && xs[0] in h.chunks && xs[0] !in xs[1..]
    requires HomeOf(k, xs[0]) == On(Dirty(BinIndex(Size(h, xs[0])))) && Rebinned(k, l, xs[1..], i, None)
    ensures Rebinned(h, l, xs, i + 1, None)
  {
    hide BinIndex;
    assert xs[..i + 1] == [xs[0]] + xs[1..][..i];
    assert xs[0] !in xs[1..][..i];
    forall j | 0 <= j <= i ensures HomeOf(l, xs[j]) == On(Dirty(BinIndex(Size(h, xs[j])))) {
      if j > 0 { assert xs[j] == xs[1..][j - 1]; }
      assert Size(k, xs[j]) == Size(h, xs[j]);
    }
  }

  // ----- the choice

  /** At least as large as asked, and at most 16 bytes more. */
  predicate Close(h: Heap, c: int, size: int) { size <= Size(h, c) <= size + 16 }

  ghost predicate FirstClose(h: Heap, xs: seq<int>, i: int, size: int) {
    0 <= i < |xs| && Close(h, xs[i], size) && forall j :: 0 <= j < i ==> !Close(h, xs[j], size)
  }

  ghost predicate SomeClose(h: Heap, xs: seq<int>, size: int) {
    exists i :: 0 <= i < |xs| && Close(h, xs[i], size)
  }

  /** The `i`-th chunk of a list is taken whole, and nothing else changes. */
  ghost predicate Plucked(h: Heap, r: Found, id: ListId, i: int)
    requires 0 <= i < |List(h, id)|
  {
    var xs := List(h, id);
    && r.chunk == Some(xs[i]) && Size(r.heap, xs[i]) == Size(h, xs[i]) && List(r.heap, id) == xs[..i] + xs[i + 1..]
    && ListsSame(h, r.heap, id) && OthersSame(h, r.heap, xs[i])
  }

  /** The recent chunks before the `i`-th are rebinned, and that one is taken whole. */
  ghost predicate PluckedBehind(h: Heap, r: Found, i: int)
    requires 0 <= i < |List(h, RECENT)|
  {
    var xs := List(h, RECENT);
    && r.chunk == Some(xs[i]) && Size(r.heap, xs[i]) == Size(h, xs[i]) && List(r.heap, RECENT) == xs[i + 1..]
    && Rebinned(h, r.heap, xs, i, Some(xs[i])) && SameClean(h, r.heap)
  }

  /** All recent chunks are rebinned, and `c` is cut to size, or taken whole when fewer than 16 bytes would be left. */
  ghost predicate SplitOff(h: Heap, r: Found, c: int, size: int) {
    var total := Size(h, c);
    && r.chunk == Some(c) && Rebinned(h, r.heap, List(h, RECENT), |List(h, RECENT)|, Some(c))
    && (forall b :: 1 <= b ==> List(r.heap, Clean(b)) == [])
    && if total - size < 16 then Size(r.heap, c) == total && List(r.heap, RECENT) == [] && List(r.heap, REMAINDER) == []
       else exists n :: Advance(h.last, total, size, n) && Cut(r.heap, c, total, size, n)
  }

  /**
   * Which chunk an allocation takes: the top of the recent stack if it is close; else the first close one of the
   * size's dirty list; else the first close recent one; else the remainder, or the heap's first chunk while it is whole, if
   * it is large enough; else none.
   */
  ghost predicate Chosen(h: Heap, r: Found, size: int) {
    var recent, dirty := List(h, RECENT), List(h, Dirty(BinIndex(size)));
    var rest, whole := List(h, REMAINDER), List(h, Clean(127));
    if recent != [] && Close(h, recent[0], size) then Plucked(h, r, RECENT, 0)
    else if SomeClose(h, dirty, size) then exists i :: FirstClose(h, dirty, i, size) && Plucked(h, r, Dirty(BinIndex(size)), i)
    else if SomeClose(h, recent, size) then exists i :: FirstClose(h, recent, i, size) && PluckedBehind(h, r, i)
    else if rest != [] && size <= Size(h, rest[0]) then SplitOff(h, r, rest[0], size)
    else if whole != [] && size <= Size(h, whole[0]) then SplitOff(h, r, whole[0], size)
    else r.chunk == None && Rebinned(h, r.heap, recent, |recent|, None) && List(r.heap, RECENT) == [] && SameClean(h, r.heap)
  }

  lemma CloseOn(lay: Layout, h: Heap, id: ListId, size: int)
    requires Wf(lay, h) && ValidSize(size)
    ensures forall i :: 0 <= i < |List(h, id)| ==> (Exact(Size(h, List(h, id)[i]), size) <==> Close(h, List(h, id)[i], size))
  {
    hide Wf, Exact;
    forall i | 0 <= i < |List(h, id)|
      ensures Exact(Size(h, List(h, id)[i]), size) <==> Close(h, List(h, id)[i], size)
    {
      ExactOnList(lay, h, id, i, size);
    }
  }

  lemma TakePlucks(lay: Layout, h: Heap, id: ListId, i: int)
    requires Wf(lay, h) && 0 <= i < |List(h, id)|
    ensures Plucked(h, Take(h, List(h, id)[i]), id, i)
  {
    var c := List(h, id)[i];
    assert Holds(h, id);
    UnlinkWf(lay, h, c);
    hide Wf;
    OnlyAt(List(h, id), i);
  }

  lemma OnlyAt(xs: seq<int>, i: int)
    requires 0 <= i < |xs| && forall j, k :: 0 <= j < k < |xs| ==> xs[j] != xs[k]
    ensures Index(xs, xs[i]) == i
  {
  }

  lemma BehindIsPlucked(lay: Layout, h: Heap, size: int, i: nat)
    requires Wf(lay, h) && NoneLoose(h) && i < |List(h, RECENT)|
    requires var h1 := RebinRecent(h, List(h, RECENT), size).heap;
      List(h1, RECENT) == List(h, RECENT)[i..] && Rebinned(h, h1, List(h, RECENT), i, None)
    ensures PluckedBehind(h, Take(RebinRecent(h, List(h, RECENT), size).heap, List(h, RECENT)[i]), i)
  {
    hide RebinRecent, BinIndex, Take;
    var xs := List(h, RECENT);
    var h1 := RebinRecent(h, xs, size).heap;
    RebinRecentWf(lay, h, xs, size);
    assert xs[i..][0] == xs[i];
    TakePlucks(lay, h1, RECENT, 0);
    assert Holds(h, RECENT);
    hide Wf, NoneLoose;
    var k := Take(h1, xs[i]).heap;
    assert xs[i..][..0] + xs[i..][1..] == xs[i + 1..];
    assert xs[i] !in xs[..i];
    ThenTaken(h, h1, k, xs, i, xs[i]);
  }

  /** After the rebinning, only `c` changes. */
  lemma ThenTaken(h: Heap, h1: Heap, k: Heap, xs: seq<int>, i: nat, c: int)
    requires i <= |xs| && Rebinned(h, h1, xs, i, None) && OthersSame(h1, k, c) && c !in xs[..i]
    ensures Rebinned(h, k, xs, i, Some(c))
  {
    hide BinIndex;
    forall j | 0 <= j < i ensures HomeOf(k, xs[j]) == On(Dirty(BinIndex(Size(h, xs[j])))) {
      assert xs[j] in xs[..i];
    }
  }

  /** What there is to split: the remainder, or the heap's only chunk. */
  lemma ToSplit(lay: Layout, h: Heap, size: int)
    requires Wf(lay, h) && NoneLoose(h) && ValidSize(size)
    ensures var rest, whole := List(h, REMAINDER), List(h, Clean(127));
      FindToSplit(h, size) ==
        if rest != [] && size <= Size(h, rest[0]) then Some(rest[0])
        else if whole != [] && size <= Size(h, whole[0]) then Some(whole[0])
        else None
  {
    hide RangeBin, FastBin;
    BinIndexInRange(size);
    var rest := List(h, REMAINDER);
    assert CleanOk(lay, h, 127);
    forall b | 1 <= b < 127 ensures List(h, Clean(b)) == [] { assert CleanOk(lay, h, b); }
    hide Wf;
    EmptyBins(h, BinIndex(size), size);
  }

  lemma {:induction false} EmptyBins(h: Heap, b: int, size: int)
    requires 1 <= b <= 127 && (forall a :: 1 <= a < 127 ==> List(h, Clean(a)) == []) && |List(h, Clean(127))| <= 1
    ensures var whole := List(h, Clean(127));
      FindClean(h, b, size) == if whole != [] && size <= Size(h, whole[0]) then Some(whole[0]) else None
    decreases 127 - b
  {
    if b < 127 { EmptyBins(h, b + 1, size); }
  }

  lemma SplitIsOff(lay: Layout, h: Heap, size: int, c: int)
    requires Wf(lay, h) && NoneLoose(h) && ValidSize(size)
    requires var h1 := RebinRecent(h, List(h, RECENT), size).heap;
      && RebinRecent(h, List(h, RECENT), size).chunk == None && List(h1, RECENT) == []
      && Rebinned(h, h1, List(h, RECENT), |List(h, RECENT)|, None) && FindToSplit(h1, size) == Some(c)
    ensures var h1 := RebinRecent(h, List(h, RECENT), size).heap;
      SplitOff(h, Found(Carve(Unlink(h1, c), c, size), Some(c)), c, size)
  {
    hide RebinRecent, BinIndex, FindToSplit, Carve, Unlink, Advance, Cut;
    var xs := List(h, RECENT);
    var h1 := RebinRecent(h, xs, size).heap;
    RebinRecentWf(lay, h, xs, size);
    FindToSplitWf(lay, h1, size);
    OnClean(lay, h1, size, c);
    UnlinkWf(lay, h1, c);
    var u := Unlink(h1, c);
    NotRecent(h, h1, xs, c);
    forall b | 1 <= b ensures List(u, Clean(b)) == [] { assert CleanOk(lay, u, b); }
    hide Wf, NoneLoose;
    assert c in h.chunks && Size(h1, c) == Size(h, c);
    if Size(h, c) - size < 16 {
      assert Carve(u, c, size) == u by { WholeStays(u, c, size); }
      ThenTaken(h, h1, u, xs, |xs|, c);
      assert Size(u, c) == Size(h, c);
      assert List(u, RECENT) == [] && List(u, REMAINDER) == [];
    } else {
      var n := CarveCuts(lay, u, c, size);
      ThenTaken(h, h1, Carve(u, c, size), xs, |xs|, c);
    }
  }

  lemma WholeStays(h: Heap, c: int, size: int)
    requires Size(h, c) - size < MIN_ALLOC_BYTES
    ensures Carve(h, c, size) == h
  {
  }

  lemma OnClean(lay: Layout, h: Heap, size: int, c: int)
    requires Wf(lay, h) && NoneLoose(h) && ValidSize(size) && FindToSplit(h, size) == Some(c)
    ensures c in h.chunks && HomeOf(h, c).On? && HomeOf(h, c).id.Clean?
  {
    ToSplit(lay, h, size);
    assert Holds(h, REMAINDER) && Holds(h, Clean(127));
  }

  lemma NotRecent(h: Heap, h1: Heap, xs: seq<int>, c: int)
    requires Rebinned(h, h1, xs, |xs|, None) && HomeOf(h1, c).On? && HomeOf(h1, c).id.Clean?
    ensures c !in xs[..|xs|] && c !in xs
  {
    hide BinIndex;
    assert xs[..|xs|] == xs;
  }

  lemma FirstIs(h: Heap, xs: seq<int>, i: nat, size: int)
    requires forall j :: 0 <= j < |xs| ==> (Exact(Size(h, xs[j]), size) <==> Close(h, xs[j], size))
    requires i <= |xs| && (i < |xs| ==> Exact(Size(h, xs[i]), size)) && forall j :: 0 <= j < i ==> !Exact(Size(h, xs[j]), size)
    ensures SomeClose(h, xs, size) <==> i < |xs|
    ensures i < |xs| ==> FirstClose(h, xs, i, size)
  {
  }

  /** What an allocation takes, in terms of the lists before and after. */
  lemma AllocateChooses(lay: Layout, h: Heap, size: int)
    requires Wf(lay, h) && NoneLoose(h) && ValidSize(size)
    ensures Chosen(h, Allocate(h, size), size)
  {
    hide Wf, NoneLoose, BinIndex, Exact, FindExact, RebinRecent, Plucked, PluckedBehind, SplitOff, Rebinned, Close, SomeClose,
      FirstClose, Take, Carve, FindToSplit, SameClean;
    var recent, dirty := List(h, RECENT), List(h, Dirty(BinIndex(size)));
    var k := FindExact(h, dirty, size);
    CloseOn(lay, h, RECENT, size);
    CloseOn(lay, h, Dirty(BinIndex(size)), size);
    FirstIs(h, dirty, k, size);
    var i := RebinRecentMeans(lay, h, recent, size);
    FirstIs(h, recent, i, size);
    if recent != [] && Close(h, recent[0], size) {
      TakePlucks(lay, h, RECENT, 0);
    } else if k < |dirty| {
      TakePlucks(lay, h, Dirty(BinIndex(size)), k);
    } else if i < |recent| {
      BehindIsPlucked(lay, h, size, i);
    } else {
      SlowChooses(lay, h, size);
    }
  }

  /** Nothing close: whatever there is to split. */
  lemma SlowChooses(lay: Layout, h: Heap, size: int)
    requires Wf(lay, h) && NoneLoose(h) && ValidSize(size)
    requires var r := RebinRecent(h, List(h, RECENT), size);
      r.chunk == None && List(r.heap, RECENT) == [] && Rebinned(h, r.heap, List(h, RECENT), |List(h, RECENT)|, None)
    ensures var rest, whole := List(h, REMAINDER), List(h, Clean(127)); var r := SlowPath(h, size);
      if rest != [] && size <= Size(h, rest[0]) then SplitOff(h, r, rest[0], size)
      else if whole != [] && size <= Size(h, whole[0]) then SplitOff(h, r, whole[0], size)
      else r == RebinRecent(h, List(h, RECENT), size) && SameClean(h, r.heap)
  {
    hide BinIndex, RebinRecent, SplitOff, Rebinned, FindToSplit, Carve;
    var h1 := RebinRecent(h, List(h, RECENT), size).heap;
    RebinRecentWf(lay, h, List(h, RECENT), size);
    ToSplit(lay, h1, size);
    assert List(h1, REMAINDER) == List(h, REMAINDER) && List(h1, Clean(127)) == List(h, Clean(127));
    assert forall d :: Size(h1, d) == Size(h, d);
    hide Wf, NoneLoose;
    if FindToSplit(h1, size).Some? { SplitIsOff(lay, h, size, FindToSplit(h1, size).value); }
  }

  /** The chunk in hand becomes a live one of the same size. */
  ghost predicate Handed(r: Found, s: Found) {
    && r.chunk.Some? && s.chunk == r.chunk && s.heap.lists == r.heap.lists && IsLoose(r.heap, r.chunk.value)
    && OthersSame(r.heap, s.heap, r.chunk.value) && forall d :: Size(s.heap, d) == Size(r.heap, d)
  }

  lemma HandedPlucked(h: Heap, r: Found, s: Found, id: ListId, i: int)
    requires 0 <= i < |List(h, id)| && Plucked(h, r, id, i) && Handed(r, s)
    ensures Plucked(h, s, id, i)
  {
  }

  lemma HandedRebinned(h: Heap, r: Found, s: Found, xs: seq<int>, i: int)
    requires 0 <= i <= |xs| && Rebinned(h, r.heap, xs, i, r.chunk) && Handed(r, s)
    ensures Rebinned(h, s.heap, xs, i, s.chunk)
  {
    hide BinIndex;
    forall j | 0 <= j < i ensures HomeOf(s.heap, xs[j]) == On(Dirty(BinIndex(Size(h, xs[j])))) {
      assert HomeOf(r.heap, xs[j]) == On(Dirty(BinIndex(Size(h, xs[j]))));
    }
  }

  lemma HandedSplit(h: Heap, r: Found, s: Found, c: int, size: int)
    requires SplitOff(h, r, c, size) && Handed(r, s)
    ensures SplitOff(h, s, c, size)
  {
    hide Rebinned, Advance, Cut;
    HandedRebinned(h, r, s, List(h, RECENT), |List(h, RECENT)|);
    if Size(h, c) - size >= 16 {
      var n :| Advance(h.last, Size(h, c), size, n) && Cut(r.heap, c, Size(h, c), size, n);
      HandedCut(r, s, c, Size(h, c), size, n);
    }
  }

  lemma HandedCut(r: Found, s: Found, c: int, total: int, size: int, n: int)
    requires Cut(r.heap, c, total, size, n) && Handed(r, s)
    ensures Cut(s.heap, c, total, size, n)
  {
  }

  lemma HandedChosen(h: Heap, r: Found, s: Found, size: int)
    requires Chosen(h, r, size) && Handed(r, s)
    ensures Chosen(h, s, size)
  {
    hide Plucked, PluckedBehind, SplitOff, Rebinned, Handed, Close, SomeClose, BinIndex;
    var recent, dirty := List(h, RECENT), List(h, Dirty(BinIndex(size)));
    var rest, whole := List(h, REMAINDER), List(h, Clean(127));
    if recent != [] && Close(h, recent[0], size) {
      HandedPlucked(h, r, s, RECENT, 0);
    } else if SomeClose(h, dirty, size) {
      var i :| FirstClose(h, dirty, i, size) && Plucked(h, r, Dirty(BinIndex(size)), i);
      HandedPlucked(h, r, s, Dirty(BinIndex(size)), i);
    } else if SomeClose(h, recent, size) {
      var i :| FirstClose(h, recent, i, size) && PluckedBehind(h, r, i);
      HandedBehind(h, r, s, i);
    } else if rest != [] && size <= Size(h, rest[0]) {
      HandedSplit(h, r, s, rest[0], size);
    } else if whole != [] && size <= Size(h, whole[0]) {
      HandedSplit(h, r, s, whole[0], size);
    } else {
      HandedSome(r, s);
    }
  }

  lemma HandedSome(r: Found, s: Found)
    requires Handed(r, s)
    ensures r.chunk.Some?
  {
  }

  lemma HandedBehind(h: Heap, r: Found, s: Found, i: int)
    requires 0 <= i < |List(h, RECENT)| && PluckedBehind(h, r, i) && Handed(r, s)
    ensures PluckedBehind(h, s, i)
  {
    hide Rebinned;
    HandedRebinned(h, r, s, List(h, RECENT), i);
  }

  /** The same of a call: it takes a chunk of the padded size. */
  lemma MallocChooses(lay: Layout, h: Heap, request: int, pid: int)
    requires Wf(lay, h) && NoneLoose(h) && 0 <= request <= U32 - 16
    ensures Chosen(h, Malloc(h, request, pid), Padded(request))
  {
    hide Wf, NoneLoose, BinIndex, Allocate, Padded;
    PaddedFits(request);
    AllocateWf(lay, h, Padded(request));
    AllocateChooses(lay, h, Padded(request));
    var r, s := Allocate(h, Padded(request)), Malloc(h, request, pid);
    hide Chosen;
    if r.chunk.Some? { HandedChosen(h, r, s, Padded(request)); }
  }

  lemma InitialLists(lay: Layout, size: int)
    requires lay.Ok()
    ensures var h := Initial(lay);
      && List(h, RECENT) == [] && List(h, Dirty(BinIndex(size))) == [] && List(h, REMAINDER) == []
      && List(h, Clean(127)) == [lay.Heap()] && Size(h, lay.Heap()) == lay.ramHigh - lay.Heap() && h.last == 0
  {
  }

  /** The first call of a boot cuts its chunk off the start of the heap, and nothing in advance. */
  lemma FirstCall(lay: Layout, request: int, pid: int)
    requires lay.Ok() && 0 <= request <= U32 - 16 && Padded(request) + 16 <= lay.ramHigh - lay.Heap()
    ensures var r, c, size := Malloc(Initial(lay), request, pid), lay.Heap(), Padded(request);
      && r.chunk == Some(c) && Size(r.heap, c) == size && List(r.heap, RECENT) == []
      && List(r.heap, REMAINDER) == [c + size] && Size(r.heap, c + size) == lay.ramHigh - c - size
      && forall b :: List(r.heap, Dirty(b)) == []
  {
    var h, size, c := Initial(lay), Padded(request), lay.Heap();
    InitialWf(lay);
    PaddedFits(request);
    MallocChooses(lay, h, request, pid);
    MallocWf(lay, h, request, pid);
    InitialLists(lay, size);
    hide Initial, Malloc, Padded, BinIndex, Chosen, Wf, NoneLoose;
    var r := Malloc(h, request, pid);
    WholeIsCut(h, r, c, size);
    forall b ensures List(r.heap, Dirty(b)) == [] { TwoChunks(lay, r.heap, c, size, b); }
  }

  lemma WholeIsCut(h: Heap, r: Found, c: int, size: int)
    requires Chosen(h, r, size) && List(h, RECENT) == [] && List(h, Dirty(BinIndex(size))) == [] && List(h, REMAINDER) == []
    requires List(h, Clean(127)) == [c] && MIN_ALLOC_BYTES <= size <= Size(h, c) - 16 && h.last == 0
    ensures r.chunk == Some(c) && Size(r.heap, c) == size && List(r.heap, RECENT) == []
    ensures List(r.heap, REMAINDER) == [c + size] && Size(r.heap, c + size) == Size(h, c) - size
  {
    hide BinIndex, Rebinned;
    var n :| Advance(h.last, Size(h, c), size, n) && Cut(r.heap, c, Size(h, c), size, n);
    assert n == 0;
  }

  /** A live chunk and the remainder, which fill the heap, leave every dirty list empty. */
  lemma TwoChunks(lay: Layout, h: Heap, c: int, size: int, b: int)
    requires Wf(lay, h) && c == lay.Heap() && HomeOf(h, c).Live? && Size(h, c) == size > 0 && List(h, RECENT) == []
    requires List(h, REMAINDER) == [c + size] && Size(h, c + size) == lay.ramHigh - c - size
    ensures List(h, Dirty(b)) == []
  {
    assert Holds(h, Dirty(b)) && Holds(h, REMAINDER);
    assert List(h, REMAINDER)[0] == c + size;
    forall d | d in h.chunks ensures d == c || d == c + size {
      assert Fits(lay, h.chunks, d) && Apart(h.chunks, c, d) && Apart(h.chunks, c + size, d);
    }
    if List(h, Dirty(b)) != [] { SomeoneHome(h, Dirty(b)); }
  }

  /** After boot, two equal requests get neighbours. */
  lemma FirstTwo(lay: Layout, request: int, pid: int)
    requires lay.Ok() && 0 <= request <= U32 - 16 && 2 * Padded(request) + 16 <= lay.ramHigh - lay.Heap()
    ensures var r := Malloc(Initial(lay), request, pid);
      r.chunk == Some(lay.Heap()) && Malloc(r.heap, request, pid).chunk == Some(lay.Heap() + Padded(request))
  {
    var r := Malloc(Initial(lay), request, pid);
    InitialWf(lay);
    PaddedFits(request);
    FirstCall(lay, request, pid);
    MallocWf(lay, Initial(lay), request, pid);
    hide Initial, Malloc, Padded, BinIndex, Rebinned, Wf, NoneLoose, Cut, Advance;
    MallocChooses(lay, r.heap, request, pid);
  }
}
