/**
 * The kernel allocator, store by store. Its methods follow the C functions of the same
 * names on words of RAM: each is proved to leave RAM representing the state that the
 * model's function of the old state gives, with every assertion of the source proved at
 * its place. The lemmas before the class say what a load finds, given the representation,
 * and what a few stores amount to; the methods then need only those, never the definition
 * of the invariant or of the representation. Between the calls of the public operations no
 * chunk is in hand; inside them the chunk being moved is.
 */
module Kmalloc {
  import opened Sequences
  import opened Options
  import opened Memory
  import opened Links
  import opened HeapModel
  import opened HeapInvariant
  import opened HeapOps
  import opened Rep
  import opened RepUpdates
  import opened HeapRuns
  import opened HeapChoice
  import Memset
  import Tags
  import Bits

  datatype BinMode = BinDirty | BinRecent | BinLastSplitRem

  /** An address compared as `intptr_t`. */
  function Signed(a: int): int {
    if a < U32 / 2 then a else a - U32
  }

  /** The state with chunk `c` put where `mode` says. */
  function Binning(h: Heap, c: int, mode: BinMode): Heap {
    match mode
    case BinDirty => AddDirty(h, c)
    case BinRecent => AddRecent(h, c)
    case BinLastSplitRem => AddRemainder(h, c)
  }

  // ----- reading what the representation says

  lemma Alignment(lay: Layout, c: int)
    requires lay.Ok() && (c - lay.Heap()) % 8 == 0
    ensures c % 8 == 4 && c % 4 == 0
  {
    assert lay.Heap() == lay.ram0 + 8 * 129677 + 4;
  }

  /** A word of a chunk can be read: it is in RAM. */
  lemma InRam(lay: Layout, m: Mem, h: Heap, c: int)
    requires Wf(lay, h) && InDomain(lay, m) && c in h.chunks
    ensures c in m && c + 4 in m && c + 8 in m && c + h.chunks[c].size - 4 in m && 16 <= h.chunks[c].size
    ensures lay.Heap() <= c && c % 8 == 4 && c % 4 == 0 && c + h.chunks[c].size <= lay.ramHigh && 0 < c < U32 - 8
    ensures h.chunks[c].size % 8 == 0
  {
    ChunkBounds(lay, h, c);
    ChunkWords(c, h.chunks[c].size);
    hide Wf, InDomain;
    WordInRam(lay, m, c);
    WordInRam(lay, m, c + 4);
    WordInRam(lay, m, c + 8);
    WordInRam(lay, m, c + h.chunks[c].size - 4);
  }

  /** The words a chunk's tags and links are in. */
  lemma ChunkWords(c: int, size: int)
    requires c % 4 == 0 && size % 8 == 0
    ensures (c + 4) % 4 == 0 && (c + 8) % 4 == 0 && (c - 4) % 4 == 0 && (c + size) % 4 == 0 && (c + size - 4) % 4 == 0
  {
    assert size == 4 * (2 * (size / 8));
  }

  lemma EightsLeft(a: int, b: int)
    requires a % 8 == 0 && b % 8 == 0
    ensures (a - b) % 8 == 0
  {
    assert a == 8 * (a / 8) && b == 8 * (b / 8);
  }

  lemma WordInRam(lay: Layout, m: Mem, a: int)
    requires InDomain(lay, m) && lay.ram0 <= a <= lay.ramHigh && a % 4 == 0
    ensures a in m
  {
  }

  lemma ChunkBounds(lay: Layout, h: Heap, c: int)
    requires Wf(lay, h) && c in h.chunks
    ensures 16 <= h.chunks[c].size && h.chunks[c].size % 8 == 0
    ensures lay.Heap() <= c && c % 8 == 4 && c + h.chunks[c].size <= lay.ramHigh && 0 < c < U32 - 8
    ensures lay.ram0 <= c && c % 4 == 0
  {
    hide Binned, Listed;
    assert Fits(lay, h.chunks, c);
    Alignment(lay, c);
  }

  lemma HeadInRam(lay: Layout, m: Mem, id: ListId)
    requires lay.Ok() && InDomain(lay, m) && IsList(id)
    ensures Head(lay, id) in m && lay.ram0 < Head(lay, id) < Bitmap(lay) < lay.Heap()
  {
    hide InDomain;
    HeadAligned(lay, id);
    WordInRam(lay, m, Head(lay, id));
  }

  lemma HeadAligned(lay: Layout, id: ListId)
    requires lay.Ok() && IsList(id)
    ensures Head(lay, id) % 4 == 0 && lay.ram0 < Head(lay, id) < Bitmap(lay) < lay.Heap()
  {
    var k := 1 + 2 * id.bin + if id.Clean? then 0 else 1;
    assert Head(lay, id) == lay.ram0 + 4 * k;
    MultipleOfFour(lay.ram0, k);
  }

  lemma MultipleOfFour(a: int, k: int)
    requires a % 4 == 0
    ensures (a + 4 * k) % 4 == 0
  {
  }

  /** What the words around position `i` of a list hold. */
  lemma NodeAt(lay: Layout, m: Mem, h: Heap, id: ListId, i: nat)
    requires Wf(lay, h) && Rep.Rep(lay, m, h) && IsList(id) && i < |List(h, id)|
    ensures var xs := List(h, id);
      && xs[i] in h.chunks && h.chunks[xs[i]].home == On(id)
      && Cell(Head(lay, id), xs, i) in m && 0 < Cell(Head(lay, id), xs, i) < U32
      && m[Cell(Head(lay, id), xs, i)] == xs[i]
      && xs[i] + 4 in m && m[xs[i] + 4] == Cell(Head(lay, id), xs, i)
      && xs[i] + 8 in m && m[xs[i] + 8] == (if i + 1 < |xs| then xs[i + 1] else 0)
      && (i + 1 < |xs| ==> 0 < xs[i + 1])
  {
    var xs := List(h, id);
    var head := Head(lay, id);
    assert Holds(h, id);
    assert Chain(m, head, xs);
    assert Node(m, head, xs, i);
    if i + 1 < |xs| { assert Node(m, head, xs, i + 1); InRam(lay, m, h, xs[i + 1]); }
    InRam(lay, m, h, xs[i]);
    HeadInRam(lay, m, id);
    if i > 0 { InRam(lay, m, h, xs[i - 1]); }
  }

  lemma HeadHolds(lay: Layout, m: Mem, h: Heap, id: ListId)
    requires Wf(lay, h) && Rep.Rep(lay, m, h) && IsList(id)
    ensures Head(lay, id) in m && m[Head(lay, id)] == (if List(h, id) == [] then 0 else List(h, id)[0])
    ensures List(h, id) != [] ==> m[Head(lay, id)] != 0
  {
    HeadInRam(lay, m, id);
    assert Chain(m, Head(lay, id), List(h, id));
    if List(h, id) != [] { NodeAt(lay, m, h, id, 0); InRam(lay, m, h, List(h, id)[0]); }
  }

  lemma TagsRead(lay: Layout, m: Mem, h: Heap, c: int)
    requires Wf(lay, h) && Rep.Rep(lay, m, h) && c in h.chunks
    ensures c in m && Tags.SizeOf(m[c]) == h.chunks[c].size
    ensures c + h.chunks[c].size - 4 in m && TagPair(m, c, h.chunks[c])
  {
    InRam(lay, m, h, c);
    assert TagPair(m, c, h.chunks[c]);
  }

  /** The footer, found through the header's size, holds that size too. */
  lemma FooterRead(lay: Layout, m: Mem, h: Heap, c: int)
    requires Wf(lay, h) && Rep.Rep(lay, m, h) && c in h.chunks
    ensures c in m && var f := c + Tags.SizeOf(m[c]) - 4; f in m && Tags.SizeOf(m[f]) == h.chunks[c].size
  {
    TagsRead(lay, m, h, c);
  }

  /** A chunk's own links tell whether it is on a list. */
  lemma LinkedHasPrev(lay: Layout, m: Mem, h: Heap, c: int)
    requires Wf(lay, h) && Rep.Rep(lay, m, h) && c in h.chunks && !h.chunks[c].home.Live?
    ensures c + 4 in m && c + 8 in m
    ensures h.chunks[c].home.On? ==>
              var id := h.chunks[c].home.id; var i := Index(List(h, id), c);
              IsList(id) && i < |List(h, id)| && List(h, id)[i] == c && m[c + 4] != 0
    ensures h.chunks[c].home == Loose ==> m[c + 4] == 0 && m[c + 8] == 0
  {
    InRam(lay, m, h, c);
    if h.chunks[c].home.On? {
      NodeAt(lay, m, h, h.chunks[c].home.id, Index(List(h, h.chunks[c].home.id), c));
    } else {
      assert NullLinks(m, c);
    }
  }

  /** The links of the chunk at position `i` are not the words that lead to it or back from the next. */
  lemma OwnLinksApart(lay: Layout, h: Heap, id: ListId, i: nat)
    requires Wf(lay, h) && IsList(id) && i < |List(h, id)|
    ensures var xs := List(h, id); var cell := Cell(Head(lay, id), xs, i);
      && cell != xs[i] + 4 && cell != xs[i] + 8
      && (i + 1 < |xs| ==> xs[i + 1] + 4 != xs[i] + 4 && xs[i + 1] + 4 != xs[i] + 8 && xs[i + 1] + 4 != cell)
  {
    var xs := List(h, id);
    assert Holds(h, id);
    ListSpread(lay, h, id);
    assert Fits(lay, h.chunks, xs[i]);
    if i > 0 { assert Far(xs[i - 1], xs[i]); }
    if i + 1 < |xs| { assert Far(xs[i], xs[i + 1]); }
  }

  /** The links of the loose chunk `c` are none of the words around position `i`. */
  lemma NewLinksApart(lay: Layout, h: Heap, id: ListId, i: nat, c: int)
    requires Wf(lay, h) && IsList(id) && i <= |List(h, id)| && IsLoose(h, c)
    ensures var xs := List(h, id); var cell := Cell(Head(lay, id), xs, i);
      && cell != c + 4 && cell != c + 8 && cell % 4 == 0
      && (i < |xs| ==> xs[i] + 4 != c + 4 && xs[i] + 4 != c + 8 && xs[i] + 4 != cell && Far(xs[i], c))
      && (i > 0 ==> xs[i - 1] != c && Far(xs[i - 1], c))
  {
    var xs := List(h, id);
    assert Holds(h, id);
    ListSpread(lay, h, id);
    HeadAligned(lay, id);
    assert xs == List(h, id) && forall j :: 0 <= j < |xs| ==> xs[j] in h.chunks && xs[j] != c;
    ChunkBounds(lay, h, c);
    hide Wf, Holds, Head, Bitmap;
    if i > 0 {
      ChunkBounds(lay, h, xs[i - 1]);
      ChunkWords(xs[i - 1], 0);
      ChunksFar(lay, h, xs[i - 1], c);
    }
    if i < |xs| { ChunkBounds(lay, h, xs[i]); ChunksFar(lay, h, xs[i], c); }
    if 0 < i < |xs| { assert Far(xs[i - 1], xs[i]); }
  }

  lemma BeforeLinks(m: Mem, m': Mem, head: int, xs: seq<int>, i: nat, c: int)
    requires i < |xs| && xs[i] + 4 in m && m[xs[i] + 4] == Cell(head, xs, i)
    requires 0 <= xs[i] < U32 && 0 <= c < U32 - 8 && Cell(head, xs, i) < U32
    requires m' == m[c + 4 := Cell(head, xs, i)][Cell(head, xs, i) := c][c + 8 := xs[i]][xs[i] + 4 := c + 8]
    requires var cell := Cell(head, xs, i);
      cell != c + 4 && cell != c + 8 && xs[i] + 4 != c + 4 && xs[i] + 4 != c + 8 && xs[i] + 4 != cell
    ensures LinksIn(m, m', head, xs, i, c)
  {
  }

  lemma AfterLinks(m: Mem, m': Mem, head: int, xs: seq<int>, i: nat, c: int)
    requires i < |xs| && 0 <= xs[i] < U32 - 8 && 0 < c < U32 - 8
    requires i + 1 < |xs| ==> 0 < xs[i + 1] < U32
    requires var next := if i + 1 < |xs| then xs[i + 1] else 0;
      var m1 := m[c + 8 := next][xs[i] + 8 := c][c + 4 := xs[i] + 8];
      m' == if next != 0 then m1[next + 4 := c + 8] else m1
    requires var cell := Cell(head, xs, i + 1); cell != c + 4 && cell != c + 8
    requires i + 1 < |xs| ==>
               var cell := Cell(head, xs, i + 1); xs[i + 1] + 4 != c + 4 && xs[i + 1] + 4 != c + 8 && xs[i + 1] + 4 != cell
    ensures LinksIn(m, m', head, xs, i + 1, c)
  {
  }

  /** What linking `c` in behind position `i` finds in memory. */
  lemma AfterReady(lay: Layout, m: Mem, h: Heap, id: ListId, i: nat, c: int)
    requires Wf(lay, h) && Rep.Rep(lay, m, h) && IsLoose(h, c) && IsList(id) && i < |List(h, id)|
    ensures var xs := List(h, id);
      && InDomain(lay, m) && 0 < xs[i] < U32 - 8 && 0 < c < U32 - 8
      && c + 4 in m && c + 8 in m && xs[i] + 8 in m && m[xs[i] + 8] == (if i + 1 < |xs| then xs[i + 1] else 0)
      && xs[i] != c && xs[i] + 4 != c && xs[i] + 8 != c + 4
    ensures var xs := List(h, id); i + 1 < |xs| ==>
      && 0 < xs[i + 1] < U32 && xs[i + 1] + 4 in m
      && xs[i + 1] != c && xs[i + 1] != c + 4 && xs[i + 1] != xs[i] + 4 && xs[i + 1] + 4 != c + 8
  {
    hide Wf, Tagged, Linked, Unlinked, Mapped;
    var xs := List(h, id);
    NodeAt(lay, m, h, id, i);
    InRam(lay, m, h, xs[i]);
    InRam(lay, m, h, c);
    NewLinksApart(lay, h, id, i + 1, c);
    if i + 1 < |xs| { NodeAt(lay, m, h, id, i + 1); InRam(lay, m, h, xs[i + 1]); }
  }

  /** Taking a chunk out and then nulling its links. */
  lemma OutLinks(m: Mem, m1: Mem, m2: Mem, head: int, xs: seq<int>, i: nat)
    requires i < |xs| && xs[i] + 4 in m1 && xs[i] + 8 in m1
    requires m2 == m1[xs[i] + 4 := 0][xs[i] + 8 := 0]
    requires At(m1, Cell(head, xs, i)) == (if i + 1 < |xs| then xs[i + 1] else 0)
    requires i + 1 < |xs| ==> At(m1, xs[i + 1] + 4) == Cell(head, xs, i)
    requires forall a {:trigger At(m1, a)} :: a != Cell(head, xs, i) && (i + 1 < |xs| ==> a != xs[i + 1] + 4) ==>
               At(m1, a) == At(m, a)
    requires Cell(head, xs, i) != xs[i] + 4 && Cell(head, xs, i) != xs[i] + 8
    requires i + 1 < |xs| ==> xs[i + 1] != xs[i] && xs[i + 1] != xs[i] + 4
    ensures LinksOut(m, m2, head, xs, i)
  {
    forall a | a != xs[i] + 4 && a != xs[i] + 8 && a != Cell(head, xs, i) && (i + 1 < |xs| ==> a != xs[i + 1] + 4)
      ensures At(m2, a) == At(m, a)
    {
      assert At(m1, a) == At(m, a);
    }
  }

  lemma InitialisedBy(m: Mem, m': Mem, c: int, size: int)
    requires MIN_ALLOC_BYTES <= size && c in m && c + 4 in m && c + 8 in m && c + size - 4 in m && m.Keys == m'.Keys
    requires m' == m[c := m'[c]][c + size - 4 := m'[c + size - 4]][c + 4 := 0][c + 8 := 0]
    requires Tags.SizeOf(m'[c]) == size && Tags.FreeOf(m'[c]) == 1
    requires Tags.SizeOf(m'[c + size - 4]) == size && Tags.FreeOf(m'[c + size - 4]) == 1
    ensures Initialised(m, m', c, size)
  {
    hide Tags.SizeOf, Tags.FreeOf;
  }

  lemma InsertDone(lay: Layout, m: Mem, m': Mem, h: Heap, id: ListId, i: nat, c: int)
    requires Wf(lay, h) && Rep.Rep(lay, m, h) && IsLoose(h, c) && IsList(id) && i <= |List(h, id)| && m.Keys == m'.Keys
    requires LinksIn(m, m', Head(lay, id), List(h, id), i, c)
    ensures Rep.Rep(lay, m', Insert(h, id, i, c)) && LiveKept(h, m, m')
  {
    hide LinksIn, Insert, Rep.Rep, OnlyLinks, LiveKept;
    InsertRep(lay, m, m', h, id, i, c);
    OnlyLinksKeepLive(lay, h, m, m');
  }

  /** All of RAM is on one side of the sign bit, so signed comparison is address order. */
  lemma SameHalf(lay: Layout, h: Heap, c: int, d: int)
    requires Wf(lay, h) && c in h.chunks && d in h.chunks
    ensures Signed(c) < Signed(d) <==> c < d
  {
    ChunkBounds(lay, h, c);
    ChunkBounds(lay, h, d);
  }

  lemma SlotIs(xs: seq<int>, c: int, i: nat)
    requires i <= |xs| && (forall j :: 0 <= j < i ==> xs[j] <= c) && (i < |xs| ==> c < xs[i])
    ensures SlotFor(xs, c) == i
  {
  }

  lemma UnlinkLoose(h: Heap, c: int)
    requires IsLoose(h, c)
    ensures Unlink(h, c) == h
  {
  }

  lemma UnlinkDone(lay: Layout, m: Mem, m': Mem, h: Heap, id: ListId, i: nat)
    requires Wf(lay, h) && Rep.Rep(lay, m, h) && IsList(id) && i < |List(h, id)| && m.Keys == m'.Keys
    requires LinksOut(m, m', Head(lay, id), List(h, id), i)
    ensures var k := Unlink(h, List(h, id)[i]);
      && Wf(lay, k) && Rep.Rep(lay, m', k) && LiveKept(h, m, m') && IsLoose(k, List(h, id)[i])
  {
    hide LinksOut, Unlink, Rep.Rep, OnlyLinks, LiveKept;
    OnList(h, id, i);
    RemoveRep(lay, m, m', h, id, i);
    UnlinkWf(lay, h, List(h, id)[i]);
    OnlyLinksKeepLive(lay, h, m, m');
  }

  // ----- the searches

  /** A list's first chunk as a pointer: null when there is none. */
  function First(xs: seq<int>): int { AtOrNull(xs, 0) }

  function AtOrNull(xs: seq<int>, k: nat): int {
    if k < |xs| then xs[k] else 0
  }

  function Maybe(p: int): Option<int> {
    if p == 0 then None else Some(p)
  }

  lemma ListedPositive(lay: Layout, h: Heap, id: ListId)
    requires Wf(lay, h)
    ensures forall i :: 0 <= i < |List(h, id)| ==> 0 < List(h, id)[i]
  {
    assert Holds(h, id);
    forall i | 0 <= i < |List(h, id)| ensures 0 < List(h, id)[i] {
      ChunkBounds(lay, h, List(h, id)[i]);
    }
  }

  lemma NothingMoved(h: Heap, m: Mem)
    ensures SameLive(h, h) && LiveKept(h, m, m)
  {
  }

  lemma SameLiveChain(h: Heap, k: Heap, l: Heap)
    requires SameLive(h, k) && SameLive(k, l)
    ensures SameLive(h, l)
  {
    forall c | HomeOf(h, c).Live? || HomeOf(l, c).Live?
      ensures c in h.chunks && c in l.chunks && h.chunks[c] == l.chunks[c]
    {
      assert HomeOf(h, c).Live? ==> h.chunks[c] == k.chunks[c];
      assert HomeOf(l, c).Live? ==> k.chunks[c] == l.chunks[c];
    }
  }

  lemma UnlinkKeepsLive(lay: Layout, h: Heap, c: int)
    requires Wf(lay, h) && HomeOf(h, c).On?
    ensures SameLive(h, Unlink(h, c))
  {
    UnlinkWf(lay, h, c);
  }

  lemma FoundExact(h: Heap, xs: seq<int>, size: int, i: nat)
    requires i <= |xs| && (i < |xs| ==> Exact(Size(h, xs[i]), size))
    requires forall j :: 0 <= j < i ==> !Exact(Size(h, xs[j]), size)
    ensures FindExact(h, xs, size) == i
  {
  }

  lemma RebinFound(h: Heap, xs: seq<int>, size: int)
    requires xs != [] && Exact(Size(h, xs[0]), size)
    ensures RebinRecent(h, xs, size) == Found(h, Some(xs[0]))
  {
  }

  lemma RebinEmpty(h: Heap, size: int)
    ensures RebinRecent(h, [], size) == Found(h, None)
  {
  }

  lemma RebinStep(lay: Layout, h: Heap, size: int)
    requires Wf(lay, h) && NoneLoose(h) && List(h, RECENT) != [] && !Exact(Size(h, List(h, RECENT)[0]), size)
    ensures var c := List(h, RECENT)[0]; var k := AddDirty(Unlink(h, c), c);
      && RebinRecent(h, List(h, RECENT), size) == RebinRecent(k, List(k, RECENT), size)
      && NoneLoose(k) && SameLive(h, k) && List(k, RECENT) == List(h, RECENT)[1..] && HomeOf(h, c) == On(RECENT)
  {
    RebinOne(lay, h);
  }

  lemma FindCleanUnfold(h: Heap, i: int, size: int)
    ensures FindClean(h, i, size) ==
            if i >= MAX_BINS then None
            else
              var xs := List(h, Clean(i)); var k := FindFit(h, xs, size);
              if k < |xs| then Some(xs[k]) else FindClean(h, i + 1, size)
  {
  }

  // ----- splitting

  lemma SplitBounds(lay: Layout, m: Mem, h: Heap, c: int, size: int)
    requires Wf(lay, h) && Rep.Rep(lay, m, h) && CanSplit(h, c, size)
    ensures InDomain(lay, m) && lay.Ok() && lay.Heap() <= c && c % 4 == 0 && c + Size(h, c) <= lay.ramHigh
    ensures Size(h, c) % 8 == 0 && size % 8 == 0 && c in h.chunks
    ensures MIN_ALLOC_BYTES <= size && size + MIN_ALLOC_BYTES <= Size(h, c) == h.chunks[c].size
  {
    ChunkBounds(lay, h, c);
  }

  lemma InitialisedKeys(lay: Layout, m: Mem, m': Mem, c: int, size: int)
    requires Initialised(m, m', c, size) && InDomain(lay, m)
    ensures InDomain(lay, m')
  {
  }

  lemma SplitSizes(h: Heap, c: int, size: int)
    requires c in h.chunks && 0 < size
    ensures var k := Split(h, c, size); Size(k, c) == size && Size(k, c + size) == Size(h, c) - size
    ensures c in Split(h, c, size).chunks && c + size in Split(h, c, size).chunks && Split(h, c, size).last == h.last
  {
  }

  lemma InRamOf(lay: Layout, m: Mem, h: Heap, c: int)
    requires Wf(lay, h) && Rep.Rep(lay, m, h) && c in h.chunks
    ensures c in m && c + Size(h, c) - 4 in m && c % 4 == 0 && (c + Size(h, c) - 4) % 4 == 0 && 16 <= Size(h, c)
    ensures lay.Heap() <= c && lay.ram0 % 4 == 0 && Size(h, c) < U32
  {
    InRam(lay, m, h, c);
  }

  // ----- finishing an allocation

  lemma ButMapDomain(lay: Layout, m: Mem, h: Heap)
    requires Wf(lay, h) && RepButMap(lay, m, h)
    ensures lay.Ok() && InDomain(lay, m)
  {
  }

  /** An allocated chunk exists only after the first call. */
  lemma LiveFacts(lay: Layout, h: Heap, c: int, ready: bool)
    requires HomeOf(h, c).Live? && (!ready ==> h == Initial(lay))
    ensures ready
  {
  }

  lemma LiveInHeap(lay: Layout, h: Heap, c: int)
    requires Wf(lay, h) && c in h.chunks
    ensures lay.Heap() <= c && c + 4 <= lay.ramHigh
  {
    ChunkBounds(lay, h, c);
  }

  lemma BitmapFreed(lay: Layout, h: Heap, m1: Mem, m2: Mem, c: int)
    requires Wf(lay, h) && Wf(lay, Release(h, c)) && HomeOf(h, c).Live?
    requires RepButMap(lay, m1, Release(h, c)) && Mapped(lay, m1, h)
    requires 0 <= Slot(lay, c + 4) < 8 * ALLOCATION_BITMAP_SIZE
    requires var s := Slot(lay, c + 4);
      ByteStored(lay, m1, m2, s, Bits.ClearBit(ByteAt(m1, Bitmap(lay) + s / 8), 7 - s % 8))
    ensures Rep.Rep(lay, m2, Release(h, c)) && LiveKept(Release(h, c), m1, m2)
  {
    hide Slot, ByteAt, Wf, Mapped;
    WfParts(lay, h);
    ClearMapped(lay, m1, m2, h, Release(h, c), c);
    BitmapKept(lay, Release(h, c), m1, m2);
  }

  lemma FreeKeepsLive(h: Heap, c: int, m: Mem, m': Mem)
    requires LiveKept(Release(h, c), m, m')
    ensures LiveKept(Free(h, c), m, m')
  {
    forall d, a | HomeOf(Free(h, c), d).Live? && d <= a < d + Size(Free(h, c), d) ensures At(m', a) == At(m, a) {
      assert HomeOf(Release(h, c), d).Live?;
    }
  }

  lemma RepDomain(lay: Layout, m: Mem, h: Heap)
    requires Wf(lay, h) && Rep.Rep(lay, m, h)
    ensures lay.Ok() && InDomain(lay, m)
  {
  }

  lemma BlockAligned(lay: Layout, h: Heap, c: int)
    requires Wf(lay, h) && c in h.chunks
    ensures (c + 4) % 8 == 0 && 0 < c
  {
    ChunkBounds(lay, h, c);
    hide Wf;
    NextEight(c);
  }

  lemma NextEight(a: int)
    requires a % 8 == 4
    ensures (a + 4) % 8 == 0
  {
    assert a == 8 * (a / 8) + 4;
  }

  lemma SlotOk(lay: Layout, h: Heap, c: int)
    requires Wf(lay, h) && c in h.chunks
    ensures 0 <= Slot(lay, c + 4) < 8 * ALLOCATION_BITMAP_SIZE
  {
    SlotOfChunk(lay, h, c);
  }

  lemma StrideClear(lay: Layout, m: Mem, h: Heap, c: int, off: int, size: int)
    requires Wf(lay, h) && Mapped(lay, m, h) && IsLoose(h, c) && size + 8 <= Size(h, c)
    requires 0 <= off && off % 16 == 0 && (off == 0 || off < size)
    ensures 0 <= Slot(lay, c + 4 + off) < 8 * ALLOCATION_BITMAP_SIZE && !BitAt(lay, m, Slot(lay, c + 4 + off)) && lay.Ok()
  {
    hide BitAt;
    ChunkBounds(lay, h, c);
    SlotInRange(lay, c + 4 + off);
    assert BitAt(lay, m, Slot(lay, c + 4 + off)) <==> Taken(lay, h, Slot(lay, c + 4 + off));
    forall d | HomeOf(h, d).Live? ensures Slot(lay, d + 4) != Slot(lay, c + 4 + off) {
      if off == 0 { SlotsDiffer(lay, h, c, d); } else { StrideMissesSlots(lay, h, c, d, off, size); }
    }
  }

  lemma TakingFacts(lay: Layout, h: Heap, m1: Mem, c: int, home: Home)
    requires Wf(lay, h) && OnlyLoose(h, c) && home.Live? && RepButMap(lay, m1, Taking(h, c, home))
    ensures var k := Taking(h, c, home);
      && Wf(lay, k) && NoneLoose(k) && InDomain(lay, m1) && lay.Ok() && k.chunks[c] == Chunk(Size(h, c), home) && c in k.chunks
      && Size(k, c) == Size(h, c) && HomeOf(k, c) == home
      && SameSizes(h, k) && forall d :: d in h.chunks && d != c ==> k.chunks[d] == h.chunks[d]
  {
    TakeInHand(lay, h, c, home);
    forall d ensures !IsLoose(Taking(h, c, home), d) {
      assert IsLoose(h, d) ==> d == c;
    }
  }

  lemma BitmapTaken(lay: Layout, h: Heap, k: Heap, m1: Mem, m2: Mem, c: int, home: Home)
    requires Wf(lay, h) && Wf(lay, k) && IsLoose(h, c) && home.Live? && k == Taking(h, c, home)
    requires RepButMap(lay, m1, k) && Mapped(lay, m1, h)
    requires 0 <= Slot(lay, c + 4) < 8 * ALLOCATION_BITMAP_SIZE
    requires var s := Slot(lay, c + 4);
      ByteStored(lay, m1, m2, s, Bits.SetBit(ByteAt(m1, Bitmap(lay) + s / 8), 7 - s % 8))
    ensures Rep.Rep(lay, m2, k) && LiveKept(h, m1, m2)
  {
    hide Slot, ByteAt, Wf, Mapped;
    WfParts(lay, h);
    WfParts(lay, k);
    SetMapped(lay, m1, m2, h, k, c);
    BitmapKept(lay, k, m1, m2);
    LiveSubset(h, k, m1, m2);
  }

  lemma LiveSubset(h: Heap, k: Heap, m: Mem, m': Mem)
    requires LiveKept(k, m, m')
    requires forall c :: HomeOf(h, c).Live? ==> HomeOf(k, c).Live? && Size(k, c) == Size(h, c)
    ensures LiveKept(h, m, m')
  {
    forall c, a | HomeOf(h, c).Live? && c <= a < c + Size(h, c) ensures At(m', a) == At(m, a) {
      assert HomeOf(k, c).Live?;
    }
  }

  lemma WordOfBounds(b: int)
    ensures b - 3 <= WordOf(b) <= b && WordOf(b) % 4 == 0
  {
  }

  lemma BlockInRam(lay: Layout, m: Mem, h: Heap, c: int, size: int)
    requires Wf(lay, h) && Rep.Rep(lay, m, h) && c in h.chunks && 0 <= size && size + 8 <= h.chunks[c].size
    ensures Memset.InRam(m, c + 4, c + 4 + size) && Memset.Aligned(m)
  {
    ChunkBounds(lay, h, c);
    hide Wf, Tagged, Linked, Unlinked, Mapped;
    assert Memset.Aligned(m);
    hide InDomain, Memset.Aligned;
    forall b | c + 4 <= b < c + 4 + size ensures WordOf(b) in m {
      WordOfBounds(b);
      WordInRam(lay, m, WordOf(b));
    }
  }

  lemma BlockZeroed(lay: Layout, h: Heap, k: Heap, m: Mem, m': Mem, c: int, size: int)
    requires Wf(lay, h) && Wf(lay, k) && Rep.Rep(lay, m, k) && IsLoose(h, c) && HomeOf(k, c).Live?
    requires SameSizes(h, k) && forall d :: d in h.chunks && d != c ==> k.chunks[d] == h.chunks[d]
    requires 0 <= size && size + 8 <= Size(k, c) && Memset.IsFill(m, m', 0, c + 4, c + 4 + size)
    ensures Rep.Rep(lay, m', k) && LiveKept(h, m, m')
    ensures forall b :: c + 4 <= b < c + 4 + size ==> WordOf(b) in m' && Byte(m', b) == 0
  {
    hide Wf, Rep.Rep, Byte;
    BlockInRam(lay, m, k, c, size);
    ChunkBounds(lay, k, c);
    forall a | a < c + 4 || c + Size(k, c) - 4 <= a ensures At(m', a) == At(m, a) {
      assert a in m ==> a + 4 <= c + 4 || c + 4 + size <= a;
    }
    PayloadRep(lay, k, m, m', c);
    forall d, a | HomeOf(h, d).Live? && d <= a < d + Size(h, d) ensures At(m', a) == At(m, a) {
      ChunkApart(lay, h, c, d);
    }
  }

  lemma ChunkApart(lay: Layout, h: Heap, c: int, d: int)
    requires Wf(lay, h) && c in h.chunks && d in h.chunks && c != d
    ensures d + Size(h, d) <= c || c + Size(h, c) <= d
  {
    assert Apart(h.chunks, c, d) && Apart(h.chunks, d, c);
  }

  lemma LastSize(lay: Layout, m: Mem, h: Heap)
    requires Wf(lay, h) && Rep.Rep(lay, m, h)
    ensures lay.ram0 in m && m[lay.ram0] == h.last
  {
    WordInRam(lay, m, lay.ram0);
  }

  /** After the first cut, the chunk and the rest are in hand. */
  lemma CarveStart(lay: Layout, h: Heap, c: int, size: int)
    requires Wf(lay, h) && OnlyLoose(h, c) && ReadyToSplit(h) && ValidSize(size) && size + MIN_ALLOC_BYTES <= Size(h, c)
    ensures var k := Split(h, c, size);
      && Wf(lay, k) && TwoLoose(k, c, c + size) && ReadyToSplit(k) && SameLive(h, k) && CanSplit(h, c, size)
      && k.last == h.last
  {
    hide Wf;
    SplitWf(lay, h, c, size);
    forall d ensures IsLoose(Split(h, c, size), d) ==> d == c || d == c + size {
      assert IsLoose(h, d) ==> d == c;
    }
  }

  lemma PreAllocateUnfold(h: Heap, rest: int, size: int, n: nat)
    ensures n > 0 && size < Size(h, rest) && MIN_ALLOC_BYTES <= Size(h, rest) - size ==>
              PreAllocate(h, rest, size, n) ==
              PreAllocate(AddRecent(Split(h, rest, size), rest), rest + size, size, n - 1)
    ensures !(n > 0 && size < Size(h, rest) && MIN_ALLOC_BYTES <= Size(h, rest) - size) ==>
              PreAllocate(h, rest, size, n) == (h, rest)
  {
  }

  // ----- bitmap bytes

  lemma BitmapByte(lay: Layout, m: Mem, k: nat)
    requires lay.Ok() && InDomain(lay, m) && k < 8 * ALLOCATION_BITMAP_SIZE
    ensures var a := Bitmap(lay) + k / 8; WordOf(a) in m && Byte(m, a) == ByteAt(m, a)
    ensures Bitmap(lay) <= WordOf(Bitmap(lay) + k / 8) < lay.Heap()
  {
    RamAligned(lay);
    BitWord(lay, k);
    WordOfBounds(Bitmap(lay) + k / 8);
    hide WordOf, InDomain, ByteOf;
    WordInRam(lay, m, WordOf(Bitmap(lay) + k / 8));
  }

  lemma BitmapStored(lay: Layout, m: Mem, m': Mem, s: nat, v: nat)
    requires lay.Ok() && InDomain(lay, m) && s < 8 * ALLOCATION_BITMAP_SIZE && v < 256
    requires var a := Bitmap(lay) + s / 8; WordOf(a) in m && m' == m[WordOf(a) := PutByte(m[WordOf(a)], a % 4, v)]
    requires forall b :: WordOf(b) in m' ==> Byte(m', b) == if b == Bitmap(lay) + s / 8 then v else Byte(m, b)
    ensures ByteStored(lay, m, m', s, v)
  {
    hide ByteOf, PutByte, InDomain;
    BitmapByte(lay, m, s);
    var a := Bitmap(lay) + s / 8;
    assert m'.Keys == m.Keys;
    forall b | WordOf(b) in m ensures ByteAt(m', b) == if b == a then v else ByteAt(m, b) {
      assert ByteAt(m', b) == Byte(m', b) && ByteAt(m, b) == Byte(m, b);
    }
    assert Bitmap(lay) <= WordOf(a) < lay.Heap();
  }

  // ----- the first layout

  lemma RamShape(lay: Layout, m: Mem)
    requires lay.Ok() && InDomain(lay, m)
    ensures Memset.Aligned(m) && Memset.InRam(m, lay.ram0, lay.ramHigh)
    ensures Memset.InRam(m, lay.ram0, lay.ram0 + HEADER_BYTES)
    ensures Memset.InRam(m, lay.Heap(), lay.Heap() + (lay.ramHigh - lay.Heap()))
  {
  }

  lemma SameShape(lay: Layout, m: Mem, m': Mem, v: int, d: int, e: int)
    requires InDomain(lay, m) && Memset.IsFill(m, m', v, d, e)
    ensures InDomain(lay, m')
  {
  }

  lemma HeapAligned(lay: Layout)
    requires lay.Ok()
    ensures lay.Heap() % 8 == 4 && lay.Heap() % 4 == 0
  {
    var c := lay.Heap();
    Alignment(lay, c);
  }

  lemma TopInRam(lay: Layout, m: Mem)
    requires lay.Ok() && InDomain(lay, m)
    ensures var top := Head(lay, Clean(MAX_BINS - 1)); top in m && top % 4 == 0 && 0 < top < U32
    ensures lay.Heap() + 4 in m && (lay.Heap() + 4) % 4 == 0 && 0 < lay.Heap() < U32
  {
    HeadInRam(lay, m, Clean(MAX_BINS - 1));
    HeapAligned(lay);
    WordInRam(lay, m, lay.Heap() + 4);
  }

  lemma ZeroBytesZeroWord(w: Word)
    requires forall j :: 0 <= j < 4 ==> ByteOf(w, j) == 0
    ensures w == 0
  {
    WordIsItsBytes(w);
  }

  /** After the header is cleared, its words are null and its bitmap empty. */
  lemma ClearedHeader(lay: Layout, m0: Mem, m: Mem, a: int)
    requires lay.Ok() && InDomain(lay, m0) && Memset.IsFill(m0, m, 0, lay.ram0, lay.ram0 + HEADER_BYTES)
    requires lay.ram0 <= a < lay.Heap() && a % 4 == 0
    ensures At(m, a) == 0
  {
    hide ByteOf, Byte;
    HeapAligned(lay);
    WordInRam(lay, m0, a);
    forall j | 0 <= j < 4 ensures ByteOf(m[a], j) == 0 {
      ByteInWord(m, a, j);
      assert Byte(m, a + j) == 0;
    }
    ZeroBytesZeroWord(m[a]);
  }

  lemma ByteInWord(m: Mem, a: int, j: int)
    requires a in m && a % 4 == 0 && 0 <= j < 4
    ensures WordOf(a + j) == a && Byte(m, a + j) == ByteOf(m[a], j)
  {
    hide ByteOf;
  }

  lemma NoBits(lay: Layout, m: Mem, k: nat)
    requires lay.Ok() && k < 8 * ALLOCATION_BITMAP_SIZE
    requires forall a {:trigger At(m, a)} :: Bitmap(lay) <= a < lay.Heap() && a % 4 == 0 ==> At(m, a) == 0
    ensures !BitAt(lay, m, k)
  {
    RamAligned(lay);
    BitWord(lay, k);
    Bits.NoBitsInZero(7 - k % 8);
    var b := Bitmap(lay) + k / 8;
    WordOfBounds(b);
    hide WordOf, Bits.Bit, Bitmap;
    assert At(m, WordOf(b)) == 0;
    NullByte(b % 4);
  }

  lemma NullByte(j: int)
    requires 0 <= j < 4
    ensures ByteOf(0, j) == 0
  {
  }

  lemma InitialNoLive(lay: Layout, m: Mem, m': Mem)
    ensures LiveKept(Initial(lay), m, m')
  {
  }

  /** The stores of the first call represent the initial state. */
  lemma InitialRep(lay: Layout, m0: Mem, m1: Mem, m2: Mem, m3: Mem, m4: Mem, m5: Mem)
    requires lay.Ok() && InDomain(lay, m0)
    requires Memset.IsFill(m0, m1, 0, lay.ram0, lay.ram0 + HEADER_BYTES)
    requires m2.Keys == m1.Keys && forall id :: IsList(id) ==> At(m2, Head(lay, id)) == 0
    requires forall a {:trigger At(m2, a)} :: a <= lay.ram0 || Bitmap(lay) <= a ==> At(m2, a) == At(m1, a)
    requires Memset.IsFill(m2, m3, 0xfa, lay.Heap(), lay.Heap() + (lay.ramHigh - lay.Heap()))
    requires Initialised(m3, m4, lay.Heap(), lay.ramHigh - lay.Heap())
    requires var top := Head(lay, Clean(MAX_BINS - 1));
      top in m4 && lay.Heap() + 4 in m4 && 0 < top < U32 && 0 < lay.Heap() < U32 &&
      m5 == m4[top := lay.Heap()][lay.Heap() + 4 := top]
    ensures Rep.Rep(lay, m5, Initial(lay))
  {
    var h := Initial(lay);
    var c := lay.Heap();
    var top := Clean(MAX_BINS - 1);
    forall a | a < lay.Heap() && a != Head(lay, top) ensures At(m5, a) == At(m2, a) {
      BelowUntouched(lay, m2, m3, m4, a);
    }
    InitialHeader(lay, m0, m1, m2, m5);
    InitialLinked(lay, m2, m4, m5);
    InitialTagged(lay, m3, m4, m5);
    assert m5.Keys == m0.Keys;
    forall d ensures !IsLoose(h, d) {}
  }

  lemma BelowUntouched(lay: Layout, m2: Mem, m3: Mem, m4: Mem, a: int)
    requires lay.Ok() && a < lay.Heap()
    requires Memset.IsFill(m2, m3, 0xfa, lay.Heap(), lay.Heap() + (lay.ramHigh - lay.Heap()))
    requires Initialised(m3, m4, lay.Heap(), lay.ramHigh - lay.Heap()) && Memset.Aligned(m2)
    ensures At(m4, a) == At(m2, a)
  {
    HeapAligned(lay);
    assert a in m2 ==> a + 4 <= lay.Heap();
  }

  lemma InitialHeader(lay: Layout, m0: Mem, m1: Mem, m2: Mem, m5: Mem)
    requires lay.Ok() && InDomain(lay, m0) && Memset.IsFill(m0, m1, 0, lay.ram0, lay.ram0 + HEADER_BYTES)
    requires forall a {:trigger At(m2, a)} :: a <= lay.ram0 || Bitmap(lay) <= a ==> At(m2, a) == At(m1, a)
    requires forall a :: a < lay.Heap() && a != Head(lay, Clean(MAX_BINS - 1)) ==> At(m5, a) == At(m2, a)
    ensures Mapped(lay, m5, Initial(lay)) && At(m5, lay.ram0) == 0
  {
    hide BitAt, Taken;
    forall a | (a == lay.ram0 || Bitmap(lay) <= a < lay.Heap()) && a % 4 == 0 ensures At(m5, a) == 0 {
      ClearedHeader(lay, m0, m1, a);
      assert At(m2, a) == At(m1, a);
    }
    forall k: nat | k < 8 * ALLOCATION_BITMAP_SIZE ensures BitAt(lay, m5, k) <==> Taken(lay, Initial(lay), k) {
      NoBits(lay, m5, k);
      NoneTaken(lay, k);
    }
  }

  lemma NoneTaken(lay: Layout, k: int)
    ensures !Taken(lay, Initial(lay), k)
  {
  }

  lemma InitialLinked(lay: Layout, m2: Mem, m4: Mem, m5: Mem)
    requires lay.Ok() && forall id :: IsList(id) ==> At(m2, Head(lay, id)) == 0
    requires NullLinks(m4, lay.Heap())
    requires forall a :: a < lay.Heap() && a != Head(lay, Clean(MAX_BINS - 1)) ==> At(m5, a) == At(m2, a)
    requires var top := Head(lay, Clean(MAX_BINS - 1));
      top in m4 && lay.Heap() + 4 in m4 && 0 < top < U32 && 0 < lay.Heap() < U32 &&
      m5 == m4[top := lay.Heap()][lay.Heap() + 4 := top]
    ensures Linked(lay, m5, Initial(lay))
  {
    var h := Initial(lay);
    var top := Clean(MAX_BINS - 1);
    forall id | IsList(id) ensures Chain(m5, Head(lay, id), List(h, id)) {
      if id == top {
        var xs := List(h, id);
        assert xs == [lay.Heap()];
        assert Node(m5, Head(lay, id), xs, 0);
        assert At(m5, lay.Heap() + 8) == At(m4, lay.Heap() + 8);
      }
    }
  }

  lemma InitialTagged(lay: Layout, m3: Mem, m4: Mem, m5: Mem)
    requires lay.Ok() && Initialised(m3, m4, lay.Heap(), lay.ramHigh - lay.Heap())
    requires var top := Head(lay, Clean(MAX_BINS - 1));
      top in m4 && lay.Heap() + 4 in m4 && 0 < top < U32 && 0 < lay.Heap() < U32 &&
      m5 == m4[top := lay.Heap()][lay.Heap() + 4 := top]
    ensures Tagged(m5, Initial(lay))
  {
    hide Tags.SizeOf, Tags.FreeOf, Tags.PidOf;
    var h := Initial(lay);
    var c := lay.Heap();
    forall d | d in h.chunks ensures TagPair(m5, d, h.chunks[d]) {
      assert d == c && TagPair(m4, c, Chunk(lay.ramHigh - c, Loose));
    }
  }

  // ----- neighbours of a chunk

  /** The words on either side of a chunk are the tags of its neighbours. */
  lemma Neighbours(lay: Layout, m: Mem, h: Heap, c: int)
    requires Wf(lay, h) && Rep.Rep(lay, m, h) && c in h.chunks
    ensures c - 4 in m && c + h.chunks[c].size in m
    ensures c != lay.Heap() ==>
              var pred := c - Tags.SizeOf(m[c - 4]);
              pred in h.chunks && TagOk(m[c - 4], h.chunks[pred]) && pred + h.chunks[pred].size == c
    ensures c + h.chunks[c].size != lay.ramHigh ==> c + h.chunks[c].size in h.chunks
  {
    hide Wf, InDomain, Tags.SizeOf, Tags.FreeOf, Tags.PidOf, Tagged, Linked, Unlinked, Mapped;
    ChunkBounds(lay, h, c);
    ChunkWords(c, h.chunks[c].size);
    WordInRam(lay, m, c - 4);
    WordInRam(lay, m, c + h.chunks[c].size);
    if c + h.chunks[c].size != lay.ramHigh { NextChunk(lay, h, c); }
    if c != lay.Heap() {
      var p := PredChunk(lay, h, c);
      TagsRead(lay, m, h, p);
    }
  }

  lemma NextChunk(lay: Layout, h: Heap, c: int)
    requires Wf(lay, h) && c in h.chunks && c + h.chunks[c].size != lay.ramHigh
    ensures c + h.chunks[c].size in h.chunks
  {
    assert Fits(lay, h.chunks, c);
  }

  lemma PredChunk(lay: Layout, h: Heap, c: int) returns (p: int)
    requires Wf(lay, h) && c in h.chunks && c != lay.Heap()
    ensures p in h.chunks && p + h.chunks[p].size == c
  {
    assert HasPred(h.chunks, c);
    p :| IsPred(h.chunks, p, c);
  }

  /** The bitmap shows a chunk exactly when it is allocated. */
  lemma SlotKnown(lay: Layout, m: Mem, h: Heap, c: int)
    requires Wf(lay, h) && Rep.Rep(lay, m, h) && c in h.chunks
    ensures lay.Ok() && InDomain(lay, m) && 0 <= Slot(lay, c + 4) < 8 * ALLOCATION_BITMAP_SIZE
    ensures BitAt(lay, m, Slot(lay, c + 4)) <==> h.chunks[c].home.Live?
  {
    hide BitAt, Slot;
    SlotOfChunk(lay, h, c);
    assert BitAt(lay, m, Slot(lay, c + 4)) <==> Taken(lay, h, Slot(lay, c + 4));
    forall d | HomeOf(h, d).Live? && d != c ensures Slot(lay, d + 4) != Slot(lay, c + 4) {
      SlotsDiffer(lay, h, c, d);
    }
    assert h.chunks[c].home == HomeOf(h, c);
  }

  /** The bitmap's bit for an address. */
  ghost predicate BitOf(lay: Layout, m: Mem, a: int) {
    0 <= Slot(lay, a) && BitAt(lay, m, Slot(lay, a))
  }

  /** What is asserted of a neighbour: its tags agree with each other and with the tag `w` read first, and it is free or in the bitmap. */
  ghost predicate TagsAgree(lay: Layout, m: Mem, c: int, w: Word) {
    && c in m && c + Tags.SizeOf(m[c]) - 4 in m
    && Tags.SizeOf(m[c]) == Tags.SizeOf(m[c + Tags.SizeOf(m[c]) - 4]) == Tags.SizeOf(w)
    && Tags.FreeOf(m[c]) == Tags.FreeOf(m[c + Tags.SizeOf(m[c]) - 4]) == Tags.FreeOf(w)
    && (Tags.FreeOf(w) == 1 || BitOf(lay, m, c + 4))
  }

  class Allocator {
    const lay: Layout
    const ram: Ram
    var ready: bool
    var stats: Stats
    ghost var st: Heap

    /** Before the first call nothing is laid out in RAM. */
    constructor (lay: Layout, ram: Ram)
      requires lay.Ok() && InDomain(lay, ram.mem)
      ensures this.lay == lay && this.ram == ram && Valid() && st == Initial(lay) && stats == Opening(lay)
    {
      this.lay := lay;
      this.ram := ram;
      ready := false;
      stats := Opening(lay);
      st := Initial(lay);
    }

    /** What holds between calls. */
    ghost predicate Valid()
      reads this, ram
    {
      && lay.Ok() && InDomain(lay, ram.mem) && StatsOk(lay, st, stats)
      && if ready then Inner() && NoneLoose(st) else st == Initial(lay) && stats == Opening(lay)
    }

    /** RAM holds the state `st`, which is in order; some chunks may be in hand. */
    ghost predicate Inner()
      reads this, ram
    {
      Wf(lay, st) && Rep.Rep(lay, ram.mem, st)
    }

    /** The bit-field assignments of one tag: the other words stay. */
    method SetFree(a: int, free: int)
      requires a % 4 == 0 && a in ram.mem && 0 <= free <= 1
      modifies ram
      ensures a in ram.mem && ram.mem == old(ram.mem)[a := ram.mem[a]]
      ensures Tags.FreeOf(ram.mem[a]) == free && Tags.SizeOf(ram.mem[a]) == Tags.SizeOf(old(ram.mem)[a])
      ensures Tags.PidOf(ram.mem[a]) == Tags.PidOf(old(ram.mem)[a])
    {
      ram.Store32(a, Tags.WithFree(ram.mem[a], free));
    }

    method SetSize(a: int, size: int)
      requires a % 4 == 0 && a in ram.mem && 0 <= size < 0x800_0000 && size % 8 == 0
      modifies ram
      ensures a in ram.mem && ram.mem == old(ram.mem)[a := ram.mem[a]]
      ensures Tags.SizeOf(ram.mem[a]) == size && Tags.FreeOf(ram.mem[a]) == Tags.FreeOf(old(ram.mem)[a])
      ensures Tags.PidOf(ram.mem[a]) == Tags.PidOf(old(ram.mem)[a])
    {
      ram.Store32(a, Tags.WithSize(ram.mem[a], size));
    }

    method SetPid(a: int, pid: int)
      requires a % 4 == 0 && a in ram.mem
      modifies ram
      ensures a in ram.mem && ram.mem == old(ram.mem)[a := ram.mem[a]]
      ensures Tags.PidOf(ram.mem[a]) == pid % 128 && Tags.SizeOf(ram.mem[a]) == Tags.SizeOf(old(ram.mem)[a])
      ensures Tags.FreeOf(ram.mem[a]) == Tags.FreeOf(old(ram.mem)[a])
    {
      ram.Store32(a, Tags.WithPid(ram.mem[a], pid));
    }

    method ZeroTag(a: int)
      requires a % 4 == 0 && a in ram.mem
      modifies ram
      ensures a in ram.mem && ram.mem == old(ram.mem)[a := ram.mem[a]]
      ensures Tags.PidOf(ram.mem[a]) == 0 && Tags.SizeOf(ram.mem[a]) == 0 && Tags.FreeOf(ram.mem[a]) == 0
    {
      hide Tags.SizeOf, Tags.PidOf, Tags.FreeOf;
      SetPid(a, 0);
      SetSize(a, 0);
      SetFree(a, 0);
    }

    /** Lays out a free chunk of `size` bytes at `c`, on no list. */
    method InitChunk(c: int, size: int)
      requires lay.Ok() && InDomain(lay, ram.mem) && lay.Heap() <= c && c % 4 == 0
      requires MIN_ALLOC_BYTES <= size && size % 8 == 0 && c + size <= lay.ramHigh
      modifies ram
      ensures Initialised(old(ram.mem), ram.mem, c, size)
    {
      ChunkWords(c, size);
      EightsAreFours(size);
      assert c % 4 == 0 && size % 4 == 0 && size >= MIN_ALLOC_BYTES && c + size <= lay.ramHigh;
      hide InDomain, Tags.SizeOf, Tags.PidOf, Tags.FreeOf;
      WordInRam(lay, ram.mem, c);
      WordInRam(lay, ram.mem, c + 4);
      WordInRam(lay, ram.mem, c + 8);
      WordInRam(lay, ram.mem, c + size - 4);
      ghost var m := ram.mem;
      SetBothTags(c, size);
      ram.Store32(c + 4, 0);
      ram.Store32(c + 8, 0);
      InitialisedBy(m, ram.mem, c, size);
    }

    method SetBothTags(c: int, size: int)
      requires c % 4 == 0 && c in ram.mem && c + size - 4 in ram.mem
      requires MIN_ALLOC_BYTES <= size < 0x800_0000 && size % 8 == 0
      modifies ram
      ensures c in ram.mem && c + size - 4 in ram.mem
      ensures ram.mem == old(ram.mem)[c := ram.mem[c]][c + size - 4 := ram.mem[c + size - 4]]
      ensures Tags.SizeOf(ram.mem[c]) == size && Tags.FreeOf(ram.mem[c]) == 1
      ensures Tags.SizeOf(ram.mem[c + size - 4]) == size && Tags.FreeOf(ram.mem[c + size - 4]) == 1
    {
      hide Tags.SizeOf, Tags.PidOf, Tags.FreeOf;
      ZeroTag(c);
      SetSize(c, size);
      var footer := c + Tags.SizeOf(ram.mem[c]) - 4;
      SetSize(footer, size);
      SetFree(c, 1);
      SetFree(footer, 1);
    }

    /** Takes the chunk at position `i` of list `id` out by its own two links. */
    method RemoveChunk(c: int, ghost id: ListId, ghost i: nat)
      requires Inner() && IsList(id) && i < |List(st, id)| && c == List(st, id)[i]
      modifies ram
      ensures ram.mem.Keys == old(ram.mem.Keys)
      ensures var xs := List(st, id); var m0 := old(ram.mem);
        && At(ram.mem, Cell(Head(lay, id), xs, i)) == (if i + 1 < |xs| then xs[i + 1] else 0)
        && (i + 1 < |xs| ==> At(ram.mem, xs[i + 1] + 4) == Cell(Head(lay, id), xs, i))
        && forall a {:trigger At(ram.mem, a)} :: a != Cell(Head(lay, id), xs, i) && (i + 1 < |xs| ==> a != xs[i + 1] + 4) ==>
             At(ram.mem, a) == At(m0, a)
    {
      NodeAt(lay, ram.mem, st, id, i);
      if i + 1 < |List(st, id)| { NodeAt(lay, ram.mem, st, id, i + 1); }
      InRam(lay, ram.mem, st, c);
      assert c != 0;
      var prev := ram.mem[c + 4];
      var next := ram.mem[c + 8];
      ram.Store32(prev, next);
      if next != 0 {
        ram.Store32(next + 4, prev);
      }
    }

    /** A linked chunk comes off its list; one on no list is left alone. */
    method UnlinkChunk(c: int)
      requires Inner() && c in st.chunks && !st.chunks[c].home.Live?
      modifies ram, this`st
      ensures Inner() && st == Unlink(old(st), c) && IsLoose(st, c)
      ensures LiveKept(old(st), old(ram.mem), ram.mem)
    {
      hide Wf, Rep.Rep, Unlink;
      LinkedHasPrev(lay, ram.mem, st, c);
      if ram.mem[c + 4] != 0 || ram.mem[c + 8] != 0 {
        ghost var id := st.chunks[c].home.id;
        ghost var i := Index(List(st, id), c);
        UnlinkAt(c, id, i);
      } else {
        UnlinkLoose(st, c);
      }
    }

    method UnlinkAt(c: int, ghost id: ListId, ghost i: nat)
      requires Inner() && IsList(id) && i < |List(st, id)| && c == List(st, id)[i]
      modifies ram, this`st
      ensures Inner() && st == Unlink(old(st), c) && IsLoose(st, c)
      ensures LiveKept(old(st), old(ram.mem), ram.mem)
    {
      hide Wf, Unlink, Tagged, Linked, Unlinked, Mapped, LinksOut;
      ghost var m := ram.mem;
      NodeAt(lay, m, st, id, i);
      InRam(lay, m, st, c);
      OwnLinksApart(lay, st, id, i);
      RemoveChunk(c, id, i);
      ghost var m1 := ram.mem;
      ram.Store32(c + 4, 0);
      ram.Store32(c + 8, 0);
      OutLinks(m, m1, ram.mem, Head(lay, id), List(st, id), i);
      UnlinkDone(lay, m, ram.mem, st, id, i);
      st := Unlink(st, c);
    }

    /** Puts `c` in front of the linked chunk `that`. */
    method InsertBefore(that: int, c: int)
      requires InDomain(lay, ram.mem) && 0 < that < U32 && 0 < c < U32 - 8
      requires c + 4 in ram.mem && c + 8 in ram.mem && that + 4 in ram.mem && ram.mem[that + 4] in ram.mem
      requires var prev := ram.mem[that + 4];
        prev != 0 && prev != c + 4 && prev != c + 8 && prev != that + 4 && that != c && that != c + 4
      modifies ram
      ensures ram.mem == var m := old(ram.mem); m[c + 4 := m[that + 4]][m[that + 4] := c][c + 8 := that][that + 4 := c + 8]
    {
      assert that != 0 && c != 0 && ram.mem[that + 4] != 0;
      ram.Store32(c + 4, ram.mem[that + 4]);
      ram.Store32(ram.mem[c + 4], c);
      ram.Store32(c + 8, that);
      ram.Store32(that + 4, c + 8);
    }

    /** Puts `c` behind the chunk `that`. */
    method InsertAfter(that: int, c: int)
      requires InDomain(lay, ram.mem) && 0 < that < U32 - 8 && 0 < c < U32 - 8
      requires c + 4 in ram.mem && c + 8 in ram.mem && that + 8 in ram.mem && that != c && that + 4 != c
      requires var next: int := ram.mem[that + 8];
        next != 0 ==> next + 4 in ram.mem && next != c && next != c + 4 && next != that + 4
      modifies ram
      ensures ram.mem == var m := old(ram.mem); var m1 := m[c + 8 := m[that + 8]][that + 8 := c][c + 4 := that + 8];
                if m[that + 8] != 0 then m1[m[that + 8] as int + 4 := c + 8] else m1
    {
      assert that != 0 && c != 0;
      ram.Store32(c + 8, ram.mem[that + 8]);
      if ram.mem[c + 8] != 0 {
        ram.Store32(ram.mem[c + 8] as int + 4, c + 8);
      }
      ram.Store32(that + 8, c);
      ram.Store32(c + 4, that + 8);
    }

    /** Makes `c` the one chunk of the empty list `id`. */
    method InsertAlone(c: int, id: ListId)
      requires Inner() && IsLoose(st, c) && IsList(id) && List(st, id) == []
      modifies ram
      ensures ram.mem.Keys == old(ram.mem.Keys)
      ensures LinksIn(old(ram.mem), ram.mem, Head(lay, id), List(st, id), 0, c)
    {
      hide Wf, Tagged, Linked, Mapped;
      InRam(lay, ram.mem, st, c);
      assert NullLinks(ram.mem, c);
      NewLinksApart(lay, st, id, 0, c);
      WfParts(lay, st);
      HeadInRam(lay, ram.mem, id);
      ram.Store32(Head(lay, id), c);
      ram.Store32(c + 4, Head(lay, id));
    }

    /** InsertBefore at position `i` of a list. */
    method LinkBefore(that: int, c: int, ghost id: ListId, ghost i: nat)
      requires Inner() && IsLoose(st, c) && IsList(id) && i < |List(st, id)| && that == List(st, id)[i]
      requires Wf(lay, Insert(st, id, i, c))
      modifies ram, this`st
      ensures Inner() && st == Insert(old(st), id, i, c) && LiveKept(old(st), old(ram.mem), ram.mem)
    {
      hide Wf, Tagged, Linked, Unlinked, Mapped, Insert, LinksIn;
      NodeAt(lay, ram.mem, st, id, i);
      InRam(lay, ram.mem, st, that);
      InRam(lay, ram.mem, st, c);
      NewLinksApart(lay, st, id, i, c);
      ghost var m := ram.mem;
      InsertBefore(that, c);
      BeforeLinks(m, ram.mem, Head(lay, id), List(st, id), i, c);
      InsertDone(lay, m, ram.mem, st, id, i, c);
      st := Insert(st, id, i, c);
    }

    /** InsertAfter at position `i` of a list. */
    method LinkAfter(that: int, c: int, ghost id: ListId, ghost i: nat)
      requires Inner() && IsLoose(st, c) && IsList(id) && i < |List(st, id)| && that == List(st, id)[i]
      requires Wf(lay, Insert(st, id, i + 1, c))
      modifies ram, this`st
      ensures Inner() && st == Insert(old(st), id, i + 1, c) && LiveKept(old(st), old(ram.mem), ram.mem)
    {
      hide Wf, Rep.Rep, InDomain, Insert, LinksIn;
      ghost var m := ram.mem;
      AfterReady(lay, m, st, id, i, c);
      InsertAfter(that, c);
      AfterLinks(m, ram.mem, Head(lay, id), List(st, id), i, c);
      InsertDone(lay, m, ram.mem, st, id, i + 1, c);
      st := Insert(st, id, i + 1, c);
    }

    method LinkAlone(c: int, id: ListId)
      requires Inner() && IsLoose(st, c) && IsList(id) && List(st, id) == []
      requires Wf(lay, Insert(st, id, 0, c))
      modifies ram, this`st
      ensures Inner() && st == Insert(old(st), id, 0, c) && LiveKept(old(st), old(ram.mem), ram.mem)
    {
      hide Wf, Rep.Rep, Insert;
      ghost var m := ram.mem;
      InsertAlone(c, id);
      InsertDone(lay, m, ram.mem, st, id, 0, c);
      st := Insert(st, id, 0, c);
    }

    /** Adds a loose chunk to a bin: address order for dirty bins, a stack for recent chunks, one chunk for the remainder. */
    method BinChunk(c: int, mode: BinMode)
      requires Inner() && IsLoose(st, c)
      requires mode == BinLastSplitRem ==> List(st, REMAINDER) == []
      modifies ram, this`st
      ensures Inner() && st == Binning(old(st), c, mode) && LiveKept(old(st), old(ram.mem), ram.mem)
    {
      hide Wf, Rep.Rep, Insert, AddDirty, Tags.SizeOf;
      LinkedHasPrev(lay, ram.mem, st, c);
      TagsRead(lay, ram.mem, st, c);
      ChunkBounds(lay, st, c);
      assert c != 0 && ram.mem[c + 4] == 0 && ram.mem[c + 8] == 0;
      var bin := BinIndex(Tags.SizeOf(ram.mem[c]));
      match mode
      case BinDirty =>
        BinSorted(c, bin);
      case BinRecent =>
        AddSpecialWf(lay, st, RECENT, c);
        HeadHolds(lay, ram.mem, st, RECENT);
        var chunks := ram.mem[Head(lay, RECENT)];
        if chunks == 0 {
          LinkAlone(c, RECENT);
        } else {
          LinkBefore(chunks, c, RECENT, 0);
        }
      case BinLastSplitRem =>
        AddSpecialWf(lay, st, REMAINDER, c);
        HeadHolds(lay, ram.mem, st, REMAINDER);
        assert ram.mem[Head(lay, REMAINDER)] == 0;
        LinkAlone(c, REMAINDER);
    }

    /** The walk down a dirty bin to the place of `c` in address order. */
    method BinSorted(c: int, bin: int)
      requires Inner() && IsLoose(st, c) && bin == BinIndex(Size(st, c))
      modifies ram, this`st
      ensures Inner() && st == AddDirty(old(st), c) && LiveKept(old(st), old(ram.mem), ram.mem)
    {
      hide Wf, Rep.Rep, Insert, SlotFor, BinIndex;
      ghost var h := st;
      ghost var id := Dirty(bin);
      ghost var xs := List(st, id);
      AddDirtyWf(lay, st, c);
      HeadHolds(lay, ram.mem, st, id);
      var chunks: int := ram.mem[Head(lay, Dirty(bin))];
      if chunks == 0 {
        LinkAlone(c, Dirty(bin));
        return;
      }
      ghost var i := 0;
      while chunks != 0
        invariant Inner() && st == h && ram.mem == old(ram.mem) && IsLoose(h, c)
        invariant 0 <= i < |xs| && chunks == xs[i] && chunks != 0 && forall j :: 0 <= j < i ==> xs[j] <= c
        decreases |xs| - i
      {
        NodeAt(lay, ram.mem, st, id, i);
        SameHalf(lay, st, c, xs[i]);
        if Signed(c) < Signed(chunks) {
          SlotIs(xs, c, i);
          LinkBefore(chunks, c, id, i);
          return;
        } else if ram.mem[chunks + 8] == 0 {
          SlotIs(xs, c, i + 1);
          LinkAfter(chunks, c, id, i);
          return;
        } else {
          chunks := ram.mem[chunks + 8];
          i := i + 1;
        }
      }
    }

    /** The first chunk of a list that wastes at most 16 bytes; with `rebin`, misfits move to dirty bins on the way. */
    method ExactFitSearch(chunks: int, size: int, rebin: bool, ghost id: ListId) returns (chunk: int)
      requires Inner() && NoneLoose(st) && IsList(id) && (rebin ==> id == RECENT)
      requires chunks == First(List(st, id))
      modifies ram, this`st
      ensures Inner() && NoneLoose(st) && SameLive(old(st), st) && LiveKept(old(st), old(ram.mem), ram.mem)
      ensures !rebin ==> st == old(st) && chunk == AtOrNull(List(st, id), FindExact(st, List(st, id), size))
      ensures rebin ==> Found(st, Maybe(chunk)) == RebinRecent(old(st), List(old(st), id), size)
    {
      hide Wf, Rep.Rep, NoneLoose, FindExact, AddDirty, Unlink, Tags.SizeOf, Exact, SameLive, LiveKept, RebinRecent;
      ghost var h, m0 := st, ram.mem;
      ghost var xs := List(st, id);
      ghost var i := 0;
      chunk := chunks;
      NothingMoved(st, ram.mem);
      while chunk != 0
        invariant Inner() && NoneLoose(st) && SameLive(h, st) && LiveKept(h, m0, ram.mem)
        invariant i <= |xs| && chunk == First(if rebin then List(st, id) else xs[i..])
        invariant !rebin ==> st == h && forall j :: 0 <= j < i ==> !Exact(Size(h, xs[j]), size)
        invariant rebin ==> RebinRecent(h, xs, size) == RebinRecent(st, List(st, id), size)
        decreases if rebin then |List(st, id)| else |xs| - i
      {
        NodeAt(lay, ram.mem, st, id, if rebin then 0 else i);
        TagsRead(lay, ram.mem, st, chunk);
        if Exact(Tags.SizeOf(ram.mem[chunk]), size) {
          if !rebin { FoundExact(h, xs, size, i); } else { RebinFound(st, List(st, id), size); }
          return;
        }
        if rebin {
          var next := ram.mem[chunk + 8];
          ghost var k, m := st, ram.mem;
          RebinStep(lay, k, size);
          UnlinkChunk(chunk);
          UnlinkKeepsLive(lay, k, chunk);
          LiveKeptChain(h, k, m0, m, ram.mem);
          SameLiveChain(h, k, st);
          ghost var u, mu := st, ram.mem;
          BinChunk(chunk, BinDirty);
          LiveKeptChain(h, u, m0, mu, ram.mem);
          SameLiveChain(h, k, st);
          chunk := next;
        } else {
          chunk := ram.mem[chunk + 8];
          i := i + 1;
        }
      }
      if !rebin {
        ListedPositive(lay, h, id);
        FoundExact(h, xs, size, i);
      } else {
        ListedPositive(lay, st, id);
        RebinEmpty(st, size);
      }
    }

    /** The first chunk of a list that is large enough. */
    method FirstFitSearch(chunks: int, size: int, ghost id: ListId) returns (chunk: int)
      requires Inner() && IsList(id) && chunks == First(List(st, id))
      ensures chunk == AtOrNull(List(st, id), FindFit(st, List(st, id), size))
    {
      hide Wf, Rep.Rep, FindFit, Tags.SizeOf;
      ghost var xs := List(st, id);
      ghost var i := 0;
      ListedPositive(lay, st, id);
      chunk := chunks;
      while chunk != 0
        invariant i <= |xs| && chunk == First(xs[i..])
        invariant forall j :: 0 <= j < i ==> Size(st, xs[j]) < size
        decreases |xs| - i
      {
        NodeAt(lay, ram.mem, st, id, i);
        TagsRead(lay, ram.mem, st, chunk);
        if Tags.SizeOf(ram.mem[chunk]) >= size {
          return;
        }
        chunk := ram.mem[chunk + 8];
        i := i + 1;
      }
    }

    /** Cleaves `size` bytes off the front of a loose chunk. */
    method SplitChunk(c: int, size: int) returns (rest: int)
      requires Inner() && CanSplit(st, c, size)
      modifies ram, this`st
      ensures Inner() && st == Split(old(st), c, size) && rest == c + size
      ensures LiveKept(old(st), old(ram.mem), ram.mem)
    {
      hide Rep.Rep, Wf, Initialised, LiveKept, Split, Tags.SizeOf, InDomain, CanSplit, TagPair;
      ghost var h, m := st, ram.mem;
      SplitBounds(lay, m, st, c, size);
      TagsRead(lay, ram.mem, st, c);
      ChunkWords(c, size);
      EightsAreFours(size);
      EightsAreFours(Tags.SizeOf(ram.mem[c]));
      assert Tags.SizeOf(ram.mem[c]) > size && size % 4 == 0 && Tags.SizeOf(ram.mem[c]) % 4 == 0;
      var oldSize := Tags.SizeOf(ram.mem[c]);
      EightsLeft(oldSize, size);
      InitChunk(c, size);
      ghost var m1 := ram.mem;
      InitialisedKeys(lay, m, m1, c, size);
      InitChunk(c + size, oldSize - size);
      SplitRep(lay, h, m, m1, ram.mem, c, size);
      SplitWf(lay, h, c, size);
      SplitSizes(h, c, size);
      st := Split(h, c, size);
      TagsRead(lay, ram.mem, st, c);
      TagsRead(lay, ram.mem, st, c + size);
      assert c % 4 == 0 && (c + size) % 4 == 0;
      assert Tags.SizeOf(ram.mem[c]) == size;
      FooterRead(lay, ram.mem, st, c);
      assert Tags.SizeOf(ram.mem[c + Tags.SizeOf(ram.mem[c]) - 4]) == size;
      assert Tags.SizeOf(ram.mem[c + size]) == oldSize - size;
      FooterRead(lay, ram.mem, st, c + size);
      assert Tags.SizeOf(ram.mem[c + size + Tags.SizeOf(ram.mem[c + size]) - 4]) == oldSize - size;
      rest := c + size;
    }

    /** Splits one more chunk of the same size off `rest` and pushes it on the recent stack. */
    method PreAllocateChunk(rest: int, size: int, ghost c: int) returns (rest': int)
      requires Inner() && TwoLoose(st, c, rest) && ReadyToSplit(st) && CanSplit(st, rest, size)
      modifies ram, this`st
      ensures Inner() && st == AddRecent(Split(old(st), rest, size), rest) && rest' == rest + size
      ensures TwoLoose(st, c, rest') && ReadyToSplit(st) && SameLive(old(st), st) && st.last == old(st).last
      ensures LiveKept(old(st), old(ram.mem), ram.mem)
    {
      hide Rep.Rep, Wf, LiveKept, Split, AddRecent, Insert;
      ghost var h, m := st, ram.mem;
      PreAllocateOne(lay, h, c, rest, size);
      SplitWf(lay, h, rest, size);
      rest' := SplitChunk(rest, size);
      ghost var k, mk := st, ram.mem;
      BinChunk(rest, BinRecent);
      LiveKeptChain(h, k, m, mk, ram.mem);
    }

    /** Cuts the wanted chunk off `c`; after a repeated size, up to 16 more for the recent stack. */
    method CarveChunk(c: int, size: int)
      requires Inner() && OnlyLoose(st, c) && ReadyToSplit(st) && ValidSize(size) && size <= Size(st, c)
      modifies ram, this`st
      ensures Inner() && st == Carve(old(st), c, size) && LiveKept(old(st), old(ram.mem), ram.mem)
      ensures Carved(old(st), st, c, size)
    {
      hide Carved, Rep.Rep, Wf, LiveKept, Split, PreAllocate, AddRecent, AddRemainder, Tags.SizeOf, SameLive, OnlyLoose;
      CarveMeans(lay, st, c, size);
      ghost var h, m := st, ram.mem;
      TagsRead(lay, ram.mem, st, c);
      if Tags.SizeOf(ram.mem[c]) - size < MIN_ALLOC_BYTES {
        NothingMoved(st, m);
        return;
      }
      CarveStart(lay, h, c, size);
      var rest := SplitChunk(c, size);
      ghost var h1 := st;
      TagsRead(lay, ram.mem, st, rest);
      LastSize(lay, ram.mem, st);
      var sizeRest := Tags.SizeOf(ram.mem[rest]);
      if ram.mem[lay.ram0] == size {
        var i := 0;
        while i < MAX_PRE_ALLOCATIONS && sizeRest > size && sizeRest - size >= MIN_ALLOC_BYTES
          invariant 0 <= i <= MAX_PRE_ALLOCATIONS
          invariant Inner() && TwoLoose(st, c, rest) && ReadyToSplit(st) && SameLive(h, st) && LiveKept(h, m, ram.mem)
          invariant sizeRest == Size(st, rest)
          invariant PreAllocate(h1, c + size, size, MAX_PRE_ALLOCATIONS) == PreAllocate(st, rest, size, MAX_PRE_ALLOCATIONS - i)
        {
          ghost var k, mk, r := st, ram.mem, rest;
          PreAllocateUnfold(k, rest, size, MAX_PRE_ALLOCATIONS - i);
          rest := PreAllocateChunk(rest, size, c);
          LiveKeptChain(h, k, m, mk, ram.mem);
          SameLiveChain(h, k, st);
          TagsRead(lay, ram.mem, st, rest);
          sizeRest := Tags.SizeOf(ram.mem[rest]);
          i := i + 1;
        }
        PreAllocateUnfold(st, rest, size, MAX_PRE_ALLOCATIONS - i);
      }
      ghost var k, mk := st, ram.mem;
      BinChunk(rest, BinLastSplitRem);
      LiveKeptChain(h, k, m, mk, ram.mem);
    }

    /** Steps 4 to 7: the remainder, then the clean lists from the size's own bin up, twice over the upper bins. */
    method FindSplittable(size: int) returns (chunk: int)
      requires Inner() && ValidSize(size)
      ensures Maybe(chunk) == FindToSplit(st, size)
    {
      hide Wf, Rep.Rep, FindFit, FindClean, RangeBin, FastBin;
      BinIndexInRange(size);
      HeadHolds(lay, ram.mem, st, REMAINDER);
      ListedPositive(lay, st, REMAINDER);
      chunk := FirstFitSearch(ram.mem[Head(lay, REMAINDER)], size, REMAINDER);
      if chunk != 0 { return; }

      var bin := BinIndex(size);
      chunk := CleanFit(bin, size);
      FindCleanUnfold(st, bin, size);
      if chunk != 0 { return; }

      for i := bin + 1 to MAX_BINS
        invariant FindClean(st, bin, size) == FindClean(st, i, size)
      {
        chunk := CleanFit(i, size);
        FindCleanUnfold(st, i, size);
        if chunk != 0 { return; }
      }
      FindCleanUnfold(st, MAX_BINS, size);
      assert FindClean(st, bin, size) == None;

      FindCleanUnfold(st, bin, size);
      for i := bin + 1 to MAX_BINS
        invariant FindClean(st, i, size) == None
      {
        chunk := CleanFit(i, size);
        FindCleanUnfold(st, i, size);
        assert chunk == 0;
      }
      chunk := 0;
    }

    /** The first fit in the clean list of one bin. */
    method CleanFit(bin: int, size: int) returns (chunk: int)
      requires Inner() && 1 <= bin < MAX_BINS
      ensures var xs := List(st, Clean(bin)); var k := FindFit(st, xs, size);
        Maybe(chunk) == if k < |xs| then Some(xs[k]) else None
    {
      hide Wf, Rep.Rep, FindFit;
      HeadHolds(lay, ram.mem, st, Clean(bin));
      ListedPositive(lay, st, Clean(bin));
      chunk := FirstFitSearch(ram.mem[Head(lay, Clean(bin))], size, Clean(bin));
    }

    /** The main allocation path: an exact fit first, then a chunk to split. */
    method AllocateChunk(size: int) returns (chunk: int)
      requires Inner() && NoneLoose(st) && ValidSize(size)
      modifies ram, this`st
      ensures Inner() && Found(st, Maybe(chunk)) == Allocate(old(st), size)
      ensures LiveKept(old(st), old(ram.mem), ram.mem)
    {
      hide Wf, Rep.Rep, FindExact, RebinRecent, FindToSplit, Carve, Unlink, RangeBin, FastBin, Tags.SizeOf, NoneLoose,
           SameLive, LiveKept, Exact;
      ghost var h, m := st, ram.mem;
      BinIndexInRange(size);
      ListedPositive(lay, st, RECENT);
      HeadHolds(lay, ram.mem, st, RECENT);
      var recent := ram.mem[Head(lay, RECENT)];
      if recent != 0 {
        NodeAt(lay, ram.mem, st, RECENT, 0);
        TagsRead(lay, ram.mem, st, recent);
      }
      if recent != 0 && Exact(Tags.SizeOf(ram.mem[recent]), size) {
        chunk := recent;
        UnlinkChunk(chunk);
        return;
      }

      var bin := BinIndex(size);
      ListedPositive(lay, st, Dirty(bin));
      HeadHolds(lay, ram.mem, st, Dirty(bin));
      chunk := ExactFitSearch(ram.mem[Head(lay, Dirty(bin))], size, false, Dirty(bin));
      if chunk != 0 {
        NodeAt(lay, ram.mem, st, Dirty(bin), FindExact(st, List(st, Dirty(bin)), size));
        ghost var m1 := ram.mem;
        UnlinkChunk(chunk);
        LiveKeptChain(h, h, m, m1, ram.mem);
        return;
      }

      chunk := AllocateSlow(size, m);
    }

    /** Steps 3 to 9: the recent chunks, rebinned as they fail, then a chunk to split. */
    method AllocateSlow(size: int, ghost m: Mem) returns (chunk: int)
      requires Inner() && NoneLoose(st) && ValidSize(size) && LiveKept(st, m, ram.mem)
      modifies ram, this`st
      ensures Inner() && Found(st, Maybe(chunk)) == SlowPath(old(st), size) && LiveKept(old(st), m, ram.mem)
    {
      hide Wf, Rep.Rep, RebinRecent, FindToSplit, Carve, Unlink, Tags.SizeOf, SameLive, LiveKept, NoneLoose;
      ghost var h, m0 := st, ram.mem;
      RebinRecentWf(lay, h, List(h, RECENT), size);
      HeadHolds(lay, ram.mem, st, RECENT);
      chunk := ExactFitSearch(ram.mem[Head(lay, RECENT)], size, true, RECENT);
      NothingMoved(h, m0);
      LiveKeptChain(h, h, m, m0, ram.mem);
      ghost var h1, m1 := st, ram.mem;
      if chunk != 0 {
        UnlinkChunk(chunk);
        LiveKeptChain(h, h1, m, m1, ram.mem);
        return;
      }
      chunk := FindSplittable(size);
      if chunk == 0 { return; }
      FindToSplitWf(lay, h1, size);
      UnlinkChunk(chunk);
      LiveKeptChain(h, h1, m, m1, ram.mem);
      SameLiveChain(h, h1, st);
      ghost var h2, m2 := st, ram.mem;
      CarveChunk(chunk, size);
      LiveKeptChain(h, h2, m, m2, ram.mem);
    }

    // ----- the bitmap

    method CheckBitmap(addr: int) returns (set': bool)
      requires lay.Ok() && InDomain(lay, ram.mem) && 0 <= Slot(lay, addr) < 8 * ALLOCATION_BITMAP_SIZE
      ensures set' == BitAt(lay, ram.mem, Slot(lay, addr))
    {
      hide ByteOf, Bits.Bit;
      var offset := Slot(lay, addr);
      BitmapByte(lay, ram.mem, offset);
      var byte := ram.Load8(Bitmap(lay) + offset / 8);
      set' := Bits.Bit(byte, 7 - offset % 8);
    }

    method SetBitmap(addr: int)
      requires lay.Ok() && InDomain(lay, ram.mem) && 0 <= Slot(lay, addr) < 8 * ALLOCATION_BITMAP_SIZE
      modifies ram
      ensures var s := Slot(lay, addr); var m := old(ram.mem);
        ByteStored(lay, m, ram.mem, s, Bits.SetBit(ByteAt(m, Bitmap(lay) + s / 8), 7 - s % 8))
    {
      hide ByteOf, Bits.Bit, PutByte, ByteStored, InDomain, Byte, ByteAt, Slot, Bitmap, WordOf, Bits.SetBit, Bits.ClearBit;
      var offset := Slot(lay, addr);
      ghost var m := ram.mem;
      BitmapByte(lay, m, offset);
      var byte := ram.Load8(Bitmap(lay) + offset / 8);
      Bits.SetBitInByte(byte, 7 - offset % 8);
      ram.Store8(Bitmap(lay) + offset / 8, Bits.SetBit(byte, 7 - offset % 8));
      BitmapStored(lay, m, ram.mem, offset, Bits.SetBit(byte, 7 - offset % 8));
    }

    method ClearBitmap(addr: int)
      requires lay.Ok() && InDomain(lay, ram.mem) && 0 <= Slot(lay, addr) < 8 * ALLOCATION_BITMAP_SIZE
      modifies ram
      ensures var s := Slot(lay, addr); var m := old(ram.mem);
        ByteStored(lay, m, ram.mem, s, Bits.ClearBit(ByteAt(m, Bitmap(lay) + s / 8), 7 - s % 8))
    {
      hide ByteOf, Bits.Bit, PutByte, ByteStored, InDomain, Byte, ByteAt, Slot, Bitmap, WordOf, Bits.SetBit, Bits.ClearBit;
      var offset := Slot(lay, addr);
      ghost var m := ram.mem;
      BitmapByte(lay, m, offset);
      var byte := ram.Load8(Bitmap(lay) + offset / 8);
      ram.Store8(Bitmap(lay) + offset / 8, Bits.ClearBit(byte, 7 - offset % 8));
      BitmapStored(lay, m, ram.mem, offset, Bits.ClearBit(byte, 7 - offset % 8));
    }

    // ----- the checks made when a pointer is freed

    /** Every assertion on the neighbours of an allocated chunk holds. */
    method AssertChunk(chunk: int)
      requires Inner() && NoneLoose(st) && HomeOf(st, chunk).Live?
      ensures chunk in ram.mem && chunk - 4 in ram.mem && chunk + Tags.SizeOf(ram.mem[chunk]) in ram.mem
      ensures chunk != lay.Heap() ==>
                TagsAgree(lay, ram.mem, chunk - Tags.SizeOf(ram.mem[chunk - 4]), ram.mem[chunk - 4])
      ensures chunk + Tags.SizeOf(ram.mem[chunk]) != lay.ramHigh ==>
                var succ := chunk + Tags.SizeOf(ram.mem[chunk]); TagsAgree(lay, ram.mem, succ, ram.mem[succ])
    {
      hide Wf, Rep.Rep, Tags.SizeOf, Tags.FreeOf, BitAt, Slot, Taken;
      TagsRead(lay, ram.mem, st, chunk);
      Neighbours(lay, ram.mem, st, chunk);
      var size := Tags.SizeOf(ram.mem[chunk]);
      var predTag := ram.mem[chunk - 4];
      var succTag := ram.mem[chunk + size];
      var pred := chunk - Tags.SizeOf(predTag);
      var succ := chunk + size;
      var firstChunk := lay.Heap() == chunk;
      var lastChunk := succ == lay.ramHigh;

      if !firstChunk {
        TagsRead(lay, ram.mem, st, pred);
        ghost var ch := st.chunks[pred];
        var footer := ram.mem[pred + Tags.SizeOf(ram.mem[pred]) - 4];
        assert Tags.SizeOf(ram.mem[pred]) == Tags.SizeOf(footer);
        assert Tags.SizeOf(ram.mem[pred]) == Tags.SizeOf(predTag);
        assert Tags.FreeOf(ram.mem[pred]) == Tags.FreeOf(footer);
        assert Tags.FreeOf(ram.mem[pred]) == Tags.FreeOf(predTag);
        SlotKnown(lay, ram.mem, st, pred);
        var predInBitmap := CheckBitmap(pred + 4);
        assert Tags.FreeOf(predTag) == 1 || predInBitmap;
      }
      if !lastChunk {
        TagsRead(lay, ram.mem, st, succ);
        var footer := ram.mem[succ + Tags.SizeOf(ram.mem[succ]) - 4];
        assert Tags.SizeOf(ram.mem[succ]) == Tags.SizeOf(footer);
        assert Tags.SizeOf(ram.mem[succ]) == Tags.SizeOf(succTag);
        assert Tags.FreeOf(ram.mem[succ]) == Tags.FreeOf(footer);
        assert Tags.FreeOf(ram.mem[succ]) == Tags.FreeOf(succTag);
        SlotKnown(lay, ram.mem, st, succ);
        var succInBitmap := CheckBitmap(succ + 4);
        assert Tags.FreeOf(succTag) == 1 || succInBitmap;
      }
    }

    // ----- initialisation

    /** The first call lays out the header, the bins, and one chunk covering the heap. */
    method InitRam()
      requires Valid()
      modifies ram, this`ready
      ensures Valid() && ready && LiveKept(st, old(ram.mem), ram.mem) && (old(ready) ==> ram.mem == old(ram.mem))
    {
      if ready {
        NothingMoved(st, ram.mem);
        return;
      }
      hide Rep.Rep, Wf, Initial;
      ghost var m := ram.mem;
      LayOut();
      InitialWf(lay);
      InitialNoLive(lay, m, ram.mem);
      ready := true;
    }

    method LayOut()
      requires lay.Ok() && InDomain(lay, ram.mem)
      modifies ram
      ensures Rep.Rep(lay, ram.mem, Initial(lay))
    {
      hide Rep.Rep, Initial, Memset.IsFill, InDomain, Memset.Aligned, Memset.InRam, Initialised;
      ghost var m0 := ram.mem;
      RamShape(lay, m0);
      Memset.Kmemset(ram, lay.ram0, 0, HEADER_BYTES);
      ghost var m1 := ram.mem;
      SameShape(lay, m0, m1, 0, lay.ram0, lay.ram0 + HEADER_BYTES);
      NullBins();
      ghost var m2 := ram.mem;
      RamShape(lay, m2);
      Memset.Kmemset(ram, lay.Heap(), 0xfa, lay.ramHigh - lay.Heap());
      ghost var m3 := ram.mem;
      SameShape(lay, m2, m3, 0xfa, lay.Heap(), lay.Heap() + (lay.ramHigh - lay.Heap()));
      LinkTop(m0, m1, m2);
    }

    method LinkTop(ghost m0: Mem, ghost m1: Mem, ghost m2: Mem)
      requires lay.Ok() && InDomain(lay, m0) && InDomain(lay, ram.mem)
      requires Memset.IsFill(m0, m1, 0, lay.ram0, lay.ram0 + HEADER_BYTES)
      requires m2.Keys == m1.Keys && forall id :: IsList(id) ==> At(m2, Head(lay, id)) == 0
      requires forall a {:trigger At(m2, a)} :: a <= lay.ram0 || Bitmap(lay) <= a ==> At(m2, a) == At(m1, a)
      requires Memset.IsFill(m2, ram.mem, 0xfa, lay.Heap(), lay.Heap() + (lay.ramHigh - lay.Heap()))
      modifies ram
      ensures Rep.Rep(lay, ram.mem, Initial(lay))
    {
      hide Rep.Rep, Initial, Memset.IsFill, InDomain, Initialised;
      ghost var m3 := ram.mem;
      var firstChunk := lay.Heap();
      HeapAligned(lay);
      InitChunk(firstChunk, lay.ramHigh - lay.Heap());
      ghost var m4 := ram.mem;
      var top := Head(lay, Clean(MAX_BINS - 1));
      InitialisedKeys(lay, m3, m4, firstChunk, lay.ramHigh - lay.Heap());
      TopInRam(lay, m4);
      ram.Store32(top, firstChunk);
      ram.Store32(firstChunk + 4, top);
      InitialRep(lay, m0, m1, m2, m3, m4, ram.mem);
    }

    /** Every bin head becomes null. */
    method NullBins()
      requires lay.Ok() && InDomain(lay, ram.mem)
      modifies ram
      ensures InDomain(lay, ram.mem) && ram.mem.Keys == old(ram.mem.Keys)
      ensures forall id :: IsList(id) ==> At(ram.mem, Head(lay, id)) == 0
      ensures forall a {:trigger At(ram.mem, a)} :: a <= lay.ram0 || Bitmap(lay) <= a ==> At(ram.mem, a) == At(old(ram.mem), a)
    {
      for i := 0 to MAX_BINS
        invariant InDomain(lay, ram.mem) && ram.mem.Keys == old(ram.mem.Keys)
        invariant forall id :: IsList(id) && id.bin < i ==> At(ram.mem, Head(lay, id)) == 0
        invariant forall a {:trigger At(ram.mem, a)} :: a <= lay.ram0 || Bitmap(lay) <= a ==>
                    At(ram.mem, a) == At(old(ram.mem), a)
      {
        HeadInRam(lay, ram.mem, Dirty(i));
        HeadInRam(lay, ram.mem, Clean(i));
        ghost var before := ram.mem;
        ram.Store32(Head(lay, Dirty(i)), 0);
        ram.Store32(Head(lay, Clean(i)), 0);
        forall a | a <= lay.ram0 || Bitmap(lay) <= a ensures At(ram.mem, a) == At(old(ram.mem), a) {
          assert At(before, a) == At(old(ram.mem), a);
        }
      }
    }

    // ----- kmalloc

    /** Stores the caller's pid and the allocated mark in both tags, and the size in the header. */
    method MarkAllocated(c: int, pid: int, ghost request: int)
      requires Inner() && IsLoose(st, c)
      modifies ram
      ensures TagsStored(lay, old(ram.mem), ram.mem, c, Chunk(Size(st, c), Live(pid % 128, request)))
      ensures At(ram.mem, lay.ram0) == Size(st, c)
    {
      hide Rep.Rep, Wf, Tags.SizeOf, Tags.FreeOf, Tags.PidOf;
      ghost var m := ram.mem;
      ghost var size := Size(st, c);
      InRamOf(lay, ram.mem, st, c);
      TagsRead(lay, ram.mem, st, c);
      LastSize(lay, ram.mem, st);
      ram.Store32(lay.ram0, Tags.SizeOf(ram.mem[c]));
      SetPid(c, pid);
      var footer := c + Tags.SizeOf(ram.mem[c]) - 4;
      SetPid(footer, pid);
      SetFree(c, 0);
      SetFree(footer, 0);
    }

    /** No 16-byte stride over the new block meets a set bit. */
    method CheckStrides(c: int, size: int)
      requires Wf(lay, st) && InDomain(lay, ram.mem) && Mapped(lay, ram.mem, st)
      requires IsLoose(st, c) && 0 <= size && size + 8 <= Size(st, c)
      ensures !BitOf(lay, ram.mem, c + 4)
      ensures forall k: nat {:trigger BitOf(lay, ram.mem, c + 4 + 16 * k)} :: 16 * k < size ==> !BitOf(lay, ram.mem, c + 4 + 16 * k)
    {
      hide BitAt, Slot, Wf, Mapped;
      StrideClear(lay, ram.mem, st, c, 0, size);
      var taken := CheckBitmap(c + 4);
      assert !taken;
      var iter := c + 4;
      ghost var n: nat := 0;
      while iter < c + 4 + size
        invariant iter == c + 4 + 16 * n
        invariant forall k: nat {:trigger BitOf(lay, ram.mem, c + 4 + 16 * k)} :: k < n ==> !BitOf(lay, ram.mem, c + 4 + 16 * k)
      {
        StrideClear(lay, ram.mem, st, c, 16 * n, size);
        taken := CheckBitmap(iter);
        assert !taken;
        iter := iter + MIN_ALLOC_BYTES;
        n := n + 1;
      }
    }

    /** Turns the chunk in hand into a zeroed, allocated block. */
    method FinishMalloc(c: int, size: int, pid: int) returns (mem: int)
      requires Inner() && OnlyLoose(st, c) && 0 <= size && size + 8 <= Size(st, c)
      modifies ram, this`st
      ensures Inner() && NoneLoose(st) && st == Taking(old(st), c, Live(pid % 128, size))
      ensures mem == c + 4 && LiveKept(old(st), old(ram.mem), ram.mem)
      ensures forall b :: mem <= b < mem + size ==> WordOf(b) in ram.mem && Byte(ram.mem, b) == 0
    {
      hide Rep.Rep, RepButMap, Wf, Mapped, LiveKept, TagsStored, ByteStored, InDomain, BitAt, Byte, WordOf, Slot,
           Memset.IsFill, Memset.Aligned, Memset.InRam, Taking;
      ghost var h, m := st, ram.mem;
      ghost var home := Live(pid % 128, size);
      ghost var k := Taking(h, c, home);
      InRamOf(lay, m, h, c);
      mem := c + 4;
      MarkAllocated(c, pid, size);
      ghost var m1 := ram.mem;
      TakeRep(lay, h, m, m1, c, home);
      TakingFacts(lay, h, m1, c, home);
      CheckStrides(c, size);
      SlotOk(lay, h, c);
      SetBitmap(mem);
      ghost var m2 := ram.mem;
      BitmapTaken(lay, h, k, m1, m2, c, home);
      NothingMoved(h, m);
      LiveKeptChain(h, h, m, m1, m2);
      st := k;
      ZeroBlock(c, size, h);
      LiveKeptChain(h, h, m, m2, ram.mem);
    }

    /** Clears the new block; its tags and every other allocation stay. */
    method ZeroBlock(c: int, size: int, ghost h: Heap)
      requires Inner() && Wf(lay, h) && IsLoose(h, c) && HomeOf(st, c).Live? && SameSizes(h, st)
      requires forall d :: d in h.chunks && d != c ==> st.chunks[d] == h.chunks[d]
      requires 0 <= size && size + 8 <= Size(st, c)
      modifies ram
      ensures Inner() && LiveKept(h, old(ram.mem), ram.mem)
      ensures forall b :: c + 4 <= b < c + 4 + size ==> WordOf(b) in ram.mem && Byte(ram.mem, b) == 0
    {
      hide Rep.Rep, Wf, LiveKept, Byte, WordOf, Memset.IsFill, Memset.Aligned, Memset.InRam;
      ghost var m := ram.mem;
      BlockInRam(lay, m, st, c, size);
      Memset.Kmemset(ram, c + 4, 0, size);
      BlockZeroed(lay, h, st, m, ram.mem, c, size);
    }

    /** A double-word aligned, zeroed block of at least `size` bytes, or null. */
    method Kmalloc(size: int, pid: int) returns (mem: int)
      requires Valid() && 0 <= size <= U32 - 16
      modifies this, ram
      ensures Valid()
      ensures var r := Malloc(old(st), size, pid);
        st == r.heap && mem == match r.chunk case None => 0 case Some(c) => c + 4
      ensures Chosen(old(st), Found(st, if mem == 0 then None else Some(mem - 4)), Padded(size))
      ensures mem != 0 ==> mem % 8 == 0 && HomeOf(st, mem - 4) == Live(pid % 128, size)
      ensures mem != 0 ==> forall b :: mem <= b < mem + size ==> WordOf(b) in ram.mem && Byte(ram.mem, b) == 0
      ensures stats == if mem == 0 then old(stats) else Charged(old(stats), Size(st, mem - 4))
      ensures LiveKept(old(st), old(ram.mem), ram.mem)
    {
      hide Rep.Rep, Wf, Allocate, Chosen, StatsOk, LiveKept, Tags.SizeOf, SameLive, Byte, WordOf;
      ghost var h, m := st, ram.mem;
      var newSize := (size + 8) % U32;
      InitRam();
      ghost var m1 := ram.mem;
      if newSize < MIN_ALLOC_BYTES {
        newSize := newSize + (MIN_ALLOC_BYTES - newSize);
      }
      var padded := (newSize + 7) % U32;
      PaddedFits(size);
      AllocateWf(lay, h, Padded(size));
      MallocWf(lay, h, size, pid);
      MallocChooses(lay, h, size, pid);
      ChargedOk(lay, h, size, pid, stats);
      var chunk := AllocateChunk(padded - padded % 8);
      ghost var h2, m2 := st, ram.mem;
      NothingMoved(h, m);
      LiveKeptChain(h, h, m, m1, m2);
      mem := 0;
      if chunk != 0 {
        InRamOf(lay, ram.mem, st, chunk);
        mem := FinishMalloc(chunk, size, pid);
        LiveKeptChain(h, h2, m, m2, ram.mem);
        BlockAligned(lay, st, chunk);
        TagsRead(lay, ram.mem, st, chunk);
        stats := Charged(stats, Tags.SizeOf(ram.mem[chunk]));
      }
      RepDomain(lay, ram.mem, st);
    }

    // ----- kfree

    /** Clears both tags to free and nulls the links, which lie in the old block. */
    method MarkFree(c: int)
      requires Inner() && HomeOf(st, c).Live?
      modifies ram
      ensures Initialised(old(ram.mem), ram.mem, c, Size(st, c))
    {
      hide Rep.Rep, Wf, Tags.SizeOf, Tags.FreeOf, Tags.PidOf;
      ghost var m := ram.mem;
      ghost var size := Size(st, c);
      RepDomain(lay, m, st);
      InRam(lay, m, st, c);
      TagsRead(lay, m, st, c);
      var footer := FreeTags(c, size);
      ram.Store32(c + 4, 0);
      ram.Store32(c + 8, 0);
      InitialisedBy(m, ram.mem, c, size);
    }

    method FreeTags(c: int, ghost size: int) returns (footer: int)
      requires c % 4 == 0 && c in ram.mem && size % 4 == 0 && 16 <= size && c + size - 4 in ram.mem
      requires Tags.SizeOf(ram.mem[c]) == size && Tags.SizeOf(ram.mem[c + size - 4]) == size
      modifies ram
      ensures c in ram.mem && c + size - 4 in ram.mem && footer == c + size - 4
      ensures ram.mem == old(ram.mem)[c := ram.mem[c]][c + size - 4 := ram.mem[c + size - 4]]
      ensures Tags.SizeOf(ram.mem[c]) == size && Tags.FreeOf(ram.mem[c]) == 1
      ensures Tags.SizeOf(ram.mem[c + size - 4]) == size && Tags.FreeOf(ram.mem[c + size - 4]) == 1
    {
      hide Tags.SizeOf, Tags.FreeOf, Tags.PidOf;
      SetPid(c, 0);
      SetFree(c, 1);
      footer := c + Tags.SizeOf(ram.mem[c]) - 4;
      SetPid(footer, 0);
      SetFree(footer, 1);
    }

    /** Null and unaligned pointers are ignored; a live block goes back on the recent stack. */
    method Kfree(ptr: int)
      requires Valid() && (ptr == 0 || ptr % 8 != 0 || HomeOf(st, ptr - 4).Live?)
      modifies this, ram
      ensures Valid()
      ensures ptr == 0 || ptr % 8 != 0 ==> st == old(st) && stats == old(stats) && ram.mem == old(ram.mem)
      ensures ptr != 0 && ptr % 8 == 0 ==>
                && st == Free(old(st), ptr - 4) && stats == Refunded(old(stats), Size(old(st), ptr - 4))
                && LiveKept(st, old(ram.mem), ram.mem)
    {
      hide Rep.Rep, Wf, Free, Refunded, StatsOk, LiveKept, Tags.SizeOf, BitAt, Slot;
      if ptr == 0 { return; }
      var isAligned := ptr % 8 == 0;
      if isAligned {
        ghost var h := st;
        var chunk := ptr - 4;
        LiveFacts(lay, st, chunk, ready);
        SlotKnown(lay, ram.mem, st, chunk);
        LiveInHeap(lay, st, chunk);
        var inBitmap := CheckBitmap(ptr);
        assert inBitmap;
        assert lay.Heap() <= ptr <= lay.ramHigh;
        if inBitmap {
          AssertChunk(chunk);
          TagsRead(lay, ram.mem, st, chunk);
          var chunkSize := Tags.SizeOf(ram.mem[chunk]);
          RefundedOk(lay, h, chunk, stats);
          FreeWf(lay, h, chunk);
          stats := Refunded(stats, chunkSize);
          ReleaseChunk(chunk);
          RepDomain(lay, ram.mem, st);
        }
      }
    }

    /** The stores of a free: tags, links, bitmap, and the recent stack. */
    method ReleaseChunk(c: int)
      requires Inner() && NoneLoose(st) && HomeOf(st, c).Live?
      modifies ram, this`st
      ensures Inner() && st == Free(old(st), c) && LiveKept(st, old(ram.mem), ram.mem)
    {
      hide Rep.Rep, RepButMap, Wf, Mapped, LiveKept, Initialised, ByteStored, InDomain, BitAt, Slot, Insert, Release;
      ghost var h, m := st, ram.mem;
      ghost var k := Release(h, c);
      FreeWf(lay, h, c);
      MarkFree(c);
      ghost var m1 := ram.mem;
      ReleaseRep(lay, h, m, m1, c);
      SlotOk(lay, h, c);
      ButMapDomain(lay, m1, k);
      ClearBitmap(c + 4);
      ghost var m2 := ram.mem;
      BitmapFreed(lay, h, m1, m2, c);
      st := k;
      NothingMoved(k, m);
      LiveKeptChain(k, k, m, m1, m2);
      BinChunk(c, BinRecent);
      LiveKeptChain(k, k, m, m2, ram.mem);
      FreeKeepsLive(h, c, m, ram.mem);
    }
  }
}
