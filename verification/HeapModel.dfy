/**
 * What the kernel allocator decides, apart from how it stores it: the chunks that
 * tile the heap, the free lists of every bin, and one function per operation.
 */
module HeapModel {
  import opened Options
  import opened Sequences

  const U32 := 0x1_0000_0000
  const MIN_ALLOC_BYTES := 16
  const MAX_PRE_ALLOCATIONS := 16
  const MAX_BINS := 128
  const MAX_RANGE_BINS := 127
  const MAX_FAST_BIN := 512
  const MAX_RANGE_BIN := 0x400_0000
  const ALLOCATION_BITMAP_SIZE := 1036392
  const HEADER_BYTES := 4 + 8 * MAX_BINS + ALLOCATION_BITMAP_SIZE

  /** Where the allocator's RAM begins and ends. */
  datatype Layout = Layout(ram0: int, ramHigh: int) {
    function Heap(): int { ram0 + HEADER_BYTES }

    /** What the K70 configuration provides. */
    predicate Ok() {
      && 0 < ram0 && ram0 % 8 == 0 && ramHigh < U32 - 4
      && Heap() + MIN_ALLOC_BYTES <= ramHigh && (ramHigh - Heap()) % 8 == 0
      && ramHigh - Heap() < 0x800_0000
      && ramHigh - Heap() <= 128 * ALLOCATION_BITMAP_SIZE
      && (ramHigh < U32 / 2 || U32 / 2 <= ram0)
    }
  }

  const SDRAM_START := 0x8007_f800
  const SDRAM_SIZE := 133695488

  /** The configuration the kernel is built with. */
  function K70(): (lay: Layout)
    ensures lay.Ok()
  {
    var top := SDRAM_START + SDRAM_SIZE - 1;
    Layout(SDRAM_START, top - top % 4)
  }

  /** A bin has a clean and a dirty list; bin 0 holds the two special ones. */
  datatype ListId = Clean(bin: int) | Dirty(bin: int)

  const RECENT := Dirty(0)
  const REMAINDER := Clean(0)

  predicate IsList(id: ListId) { 0 <= id.bin < MAX_BINS }

  /** A chunk is allocated, on one free list, or in the hands of the running operation. */
  datatype Home = Live(pid: int, request: int) | On(id: ListId) | Loose
  datatype Chunk = Chunk(size: int, home: Home)

  datatype Heap = Heap(chunks: map<int, Chunk>, lists: map<ListId, seq<int>>, last: int)

  function List(h: Heap, id: ListId): seq<int> {
    if id in h.lists then h.lists[id] else []
  }

  function Size(h: Heap, c: int): int {
    if c in h.chunks then h.chunks[c].size else 0
  }

  function HomeOf(h: Heap, c: int): Home {
    if c in h.chunks then h.chunks[c].home else Loose
  }

  // ----- bins

  function Mul32(x: int, y: int): int { (x * y) % U32 }
  function Sub32(x: int, y: int): int { (x - y) % U32 }

  function FastBin(size: int): int { Sub32(size, MIN_ALLOC_BYTES) / 8 }

  function RangeBin(size: int): int {
    Mul32(MAX_RANGE_BINS - 1, Sub32(size, MIN_ALLOC_BYTES)) / (MAX_RANGE_BIN - MIN_ALLOC_BYTES)
  }

  function BinIndex(size: int): int {
    1 + if size < MAX_FAST_BIN && size % 8 == 0 then FastBin(size) else RangeBin(size)
  }

  /** The wrapping multiply is what keeps every size, however large, off the top bins. */
  lemma BinIndexInRange(size: int)
    requires MIN_ALLOC_BYTES <= size < U32
    ensures 1 <= BinIndex(size) <= 65
  {
  }

  /** The index as documented: fast bins 8 bytes apart, the other sizes spread over bins 1 to 127. */
  function SpreadIndex(size: int): int {
    1 + if size < MAX_FAST_BIN && size % 8 == 0 then (size - MIN_ALLOC_BYTES) / 8
        else (MAX_RANGE_BINS - 1) * (size - MIN_ALLOC_BYTES) / (MAX_RANGE_BIN - MIN_ALLOC_BYTES)
  }

  /** The index is the documented one exactly up to the largest size whose product fits 32 bits. */
  lemma BinIndexSpreads(size: int)
    requires MIN_ALLOC_BYTES <= size < U32
    ensures BinIndex(size) == SpreadIndex(size) <==> size <= 34087058
  {
    var x, d := (MAX_RANGE_BINS - 1) * (size - MIN_ALLOC_BYTES), MAX_RANGE_BIN - MIN_ALLOC_BYTES;
    if size > 34087058 {
      assert x >= U32 && x % U32 <= x - U32;
    }
  }

  // ----- free lists

  /** Takes a chunk off the list it is on. */
  function Unlink(h: Heap, c: int): Heap {
    match HomeOf(h, c)
    case On(id) =>
      var xs := List(h, id);
      var i := Index(xs, c);
      if i < |xs| then
        h.(lists := h.lists[id := RemoveAt(xs, i)], chunks := h.chunks[c := Chunk(Size(h, c), Loose)])
      else h
    case _ => h
  }

  /** Puts a chunk at position `i` of a list. */
  function Insert(h: Heap, id: ListId, i: nat, c: int): Heap
    requires i <= |List(h, id)|
  {
    var xs := List(h, id);
    h.(lists := h.lists[id := xs[..i] + [c] + xs[i..]], chunks := h.chunks[c := Chunk(Size(h, c), On(id))])
  }

  /** Where address order puts `c`: before the first chunk above it. */
  function SlotFor(xs: seq<int>, c: int): (i: nat)
    ensures i <= |xs| && (i < |xs| ==> c < xs[i])
    ensures forall j :: 0 <= j < i ==> xs[j] <= c
  {
    if xs == [] || c < xs[0] then 0 else 1 + SlotFor(xs[1..], c)
  }

  function AddSorted(h: Heap, id: ListId, c: int): Heap {
    Insert(h, id, SlotFor(List(h, id), c), c)
  }

  function AddDirty(h: Heap, c: int): Heap { AddSorted(h, Dirty(BinIndex(Size(h, c))), c) }
  function AddRecent(h: Heap, c: int): Heap { Insert(h, RECENT, 0, c) }
  function AddRemainder(h: Heap, c: int): Heap { Insert(h, REMAINDER, 0, c) }

  // ----- searches

  predicate Exact(chunkSize: int, size: int) {
    chunkSize == size || Sub32(chunkSize, size) <= MIN_ALLOC_BYTES
  }

  /** An exact match wastes at most 16 bytes, even in wrapping arithmetic. */
  lemma ExactMeansClose(chunkSize: int, size: int)
    requires 0 <= chunkSize < 0x800_0000 && MIN_ALLOC_BYTES <= size <= U32 - 8
    requires MIN_ALLOC_BYTES <= chunkSize
    ensures Exact(chunkSize, size) <==> size <= chunkSize <= size + MIN_ALLOC_BYTES
  {
  }

  function FindExact(h: Heap, xs: seq<int>, size: int): (i: nat)
    ensures i <= |xs| && (i < |xs| ==> Exact(Size(h, xs[i]), size))
    ensures forall j :: 0 <= j < i ==> !Exact(Size(h, xs[j]), size)
  {
    if xs == [] || Exact(Size(h, xs[0]), size) then 0 else 1 + FindExact(h, xs[1..], size)
  }

  function FindFit(h: Heap, xs: seq<int>, size: int): (i: nat)
    ensures i <= |xs| && (i < |xs| ==> size <= Size(h, xs[i]))
    ensures forall j :: 0 <= j < i ==> Size(h, xs[j]) < size
  {
    if xs == [] || size <= Size(h, xs[0]) then 0 else 1 + FindFit(h, xs[1..], size)
  }

  /** The state after a search, and the chunk it settled on, if any. */
  datatype Found = Found(heap: Heap, chunk: Option<int>)

  /** The recent chunks `xs` are tried in turn; each misfit moves to its dirty bin. */
  function RebinRecent(h: Heap, xs: seq<int>, size: int): Found
    decreases |xs|
  {
    if xs == [] then Found(h, None)
    else if Exact(Size(h, xs[0]), size) then Found(h, Some(xs[0]))
    else RebinRecent(AddDirty(Unlink(h, xs[0]), xs[0]), xs[1..], size)
  }

  /** The clean lists of bins `i` and above, lowest bin first. */
  function FindClean(h: Heap, i: int, size: int): Option<int>
    decreases MAX_BINS - i
  {
    if i >= MAX_BINS then None
    else
      var xs := List(h, Clean(i));
      var k := FindFit(h, xs, size);
      if k < |xs| then Some(xs[k]) else FindClean(h, i + 1, size)
  }

  // ----- splitting and allocating

  function Split(h: Heap, c: int, size: int): Heap {
    h.(chunks := h.chunks[c := Chunk(size, Loose)][c + size := Chunk(Size(h, c) - size, Loose)])
  }

  /** Up to `n` more chunks of the same size, cut off `rest` onto the recent stack. */
  function PreAllocate(h: Heap, rest: int, size: int, n: nat): (Heap, int)
    decreases n
  {
    if n > 0 && size < Size(h, rest) && MIN_ALLOC_BYTES <= Size(h, rest) - size then
      PreAllocate(AddRecent(Split(h, rest, size), rest), rest + size, size, n - 1)
    else
      (h, rest)
  }

  /** Cuts `size` bytes off the loose chunk `c`, unless too little would be left. */
  function Carve(h: Heap, c: int, size: int): Heap {
    if Size(h, c) - size < MIN_ALLOC_BYTES then h
    else
      var h1 := Split(h, c, size);
      var (h2, rest) := if h.last == size then PreAllocate(h1, c + size, size, MAX_PRE_ALLOCATIONS)
                        else (h1, c + size);
      AddRemainder(h2, rest)
  }

  /** The first fit among the remainder, then the clean lists from the size's own bin up. */
  function FindToSplit(h: Heap, size: int): Option<int> {
    var xs := List(h, REMAINDER);
    var k := FindFit(h, xs, size);
    if k < |xs| then Some(xs[k]) else FindClean(h, BinIndex(size), size)
  }

  function Take(h: Heap, c: int): Found { Found(Unlink(h, c), Some(c)) }

  /** No recent or dirty chunk fits at once: rebin the recent ones, then split something. */
  function SlowPath(h: Heap, size: int): Found {
    var Found(h1, fit) := RebinRecent(h, List(h, RECENT), size);
    if fit.Some? then Take(h1, fit.value)
    else
      match FindToSplit(h1, size)
      case None => Found(h1, None)
      case Some(c) => Found(Carve(Unlink(h1, c), c, size), Some(c))
  }

  function Allocate(h: Heap, size: int): Found {
    var recent := List(h, RECENT);
    var dirty := List(h, Dirty(BinIndex(size)));
    var k := FindExact(h, dirty, size);
    if recent != [] && Exact(Size(h, recent[0]), size) then Take(h, recent[0])
    else if k < |dirty| then Take(h, dirty[k])
    else SlowPath(h, size)
  }

  /** Room for two tags, the minimum size, and double-word padding, in 32 bits. */
  function Padded(request: int): int {
    var newSize := (request + 8) % U32;
    var atLeast := if newSize < MIN_ALLOC_BYTES then MIN_ALLOC_BYTES else newSize;
    var up := (atLeast + 7) % U32;
    up - up % 8
  }

  /** Exactly the requests whose padding does not wrap get a usable chunk size. */
  lemma PaddedFits(request: int)
    requires 0 <= request < U32
    ensures (request + 8 <= Padded(request) && MIN_ALLOC_BYTES <= Padded(request)) <==> request <= U32 - 16
    ensures request <= U32 - 16 ==> Padded(request) % 8 == 0 && Padded(request) <= U32 - 8
    ensures request <= U32 - 16 ==> Padded(request) == MIN_ALLOC_BYTES || Padded(request) < request + 16
  {
  }

  function Malloc(h: Heap, request: int, pid: int): Found {
    var Found(h1, got) := Allocate(h, Padded(request));
    if got.None? then Found(h1, None)
    else
      var c := got.value;
      Found(h1.(chunks := h1.chunks[c := Chunk(Size(h1, c), Live(pid % 128, request))], last := Size(h1, c)), got)
  }

  function Release(h: Heap, c: int): Heap {
    h.(chunks := h.chunks[c := Chunk(Size(h, c), Loose)])
  }

  function Free(h: Heap, c: int): Heap { AddRecent(Release(h, c), c) }

  /** One chunk covering the whole heap, on the top clean list. */
  function Initial(lay: Layout): Heap {
    Heap(map[lay.Heap() := Chunk(lay.ramHigh - lay.Heap(), On(Clean(MAX_BINS - 1)))],
         map[Clean(MAX_BINS - 1) := [lay.Heap()]], 0)
  }

  // ----- the counters

  /** The allocator's counters: 32-bit, except the signed balance of calls. */
  datatype Stats = Stats(inUse: int, free: int, hwm: int, allocs: int, frees: int, balance: int)

  function Charged(s: Stats, size: int): Stats {
    var inUse := (s.inUse + size) % U32;
    Stats(inUse, Sub32(s.free, size), if inUse > s.hwm then inUse else s.hwm, (s.allocs + 1) % U32, s.frees, s.balance + 1)
  }

  function Refunded(s: Stats, size: int): Stats {
    s.(inUse := Sub32(s.inUse, size), free := (s.free + size) % U32, frees := (s.frees + 1) % U32, balance := s.balance - 1)
  }

  /** As left by the first initialisation. */
  function Opening(lay: Layout): Stats {
    Stats(0, lay.ramHigh - lay.Heap(), 0, 0, 0, 0)
  }
}
