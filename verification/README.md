# Manos kernel: allocator, scheduler, namespaces and shell parser

A Dafny model of the core of the Manos kernel, with the properties its design relies on.
`dafny verify dfyconfig.toml` checks the whole project.

**The memory allocator.** `HeapModel` gives what each operation decides, as functions on chunks
and free lists; `HeapInvariant`, `HeapOps` and `HeapRuns` prove what every operation and every run
keeps, `HeapChoice` which chunk an allocation takes and what it cuts off it. `Memory`, `Tags`,
`Bits`, `Links`, `Rep` and `RepUpdates` say how 32-bit words of RAM hold that state: boundary tags,
lists whose back link is the address of the pointer that leads to the chunk, and the bitmap. `Kmalloc.Allocator` is the allocator itself, store by store; each method is
proved to compute the function of the model and to leave every live block's contents alone. The
source's assertions appear as `assert` statements that are proved. `KmallocRuns` drives it through whole
runs, and `FreeGuard` says which pointers the checks of a free let through. `Memset` is the fill routine
with its overlapping stores.

**The shell parser.** `ShellParser.Parser` steps through its states over a chain of input pieces
with a growing `CharBufs.CharBuf`; `ShellLexer` is the one-pass reference; `ShellRuns` relates
every interleaving of adding and parsing to it, and `ShellSpelling` says what every way to spell a command
reads as.

**The process scheduler.** `SchedModel` is the process table as a state machine; `SchedInvariant`,
`SchedSteps` and `SchedRuns` prove what every reachable state satisfies, `SchedEffects` what each operation
does to every process and queue, `SchedPids` how many processes a boot can spawn, `SchedLives` what
becomes of processes that exit or are woken by an alarm, and `SchedFairness` how long a ready process can be passed over. `Rings` models the intrusive circular lists as two link
maps over nodes, `SchedRep` relates them to the queues, and `Sched.Scheduler` is the code on the
links, each method proved equal to a step of the model.

**Static namespaces.** `StaticNamespace` reads a tree out of a flat array; `Walk` resolves paths
inside a device and across mounts; `ReadDir` lists directories through a buffer.

**Two smaller parts.** `HeapQueue` is the array heap, `Calendar` the date conversions.

Where the code does not do what its comments or its checks promise, the model follows the code:

- `dequeueHeapQ` is documented to yield the lowest value; it yields the largest, which is
  the lowest only when all stored values are equal.
- The sentinel of a static namespace is documented as index 2^16 in both halves; the macros keep 12
  bits of the parent, and the test compares the whole number with the low half, so it never matches: the
  search for a first child runs off the array from an empty directory.
- `dateToSeconds` counts the days of the years 1971 up to the date's own year, so leap years come
  out a day late and years before 1970 on the wrong side of the epoch; the error is stated exactly.
- `setSignalUnblock` is documented to clear bits of the mask; it leaves the mask as it was.
- An empty input string stops the shell parser for good: nothing added behind it is read.
- The bin index is documented to spread over 127 bins; for sizes above 34087058 the multiplication wraps
  in 32 bits, and the index stays below 66.
- `kfree` is documented to ignore pointers that are not from an allocation, and is checked by assertions. A bit
  of the bitmap stands for two aligned addresses (`GuardExactly`), so some pointers that are not live pass
  every check: 8 bytes into the first block of a boot, while its first two words are zero, is one
  (`InnerPointer`, `FirstAtStart`). Freeing it would clear the live block's bit and push a chunk of size zero.
  An aligned pointer outside the heap is looked up before its range is checked, which can read outside the
  bitmap (`GuardReads`).
- The process table has 127 entries for pids 1 to 127, so pid 127 has none: the store for it, and the
  assertion before it, use the word behind the array. The block is at least one word longer than asked, but only
  what was asked is zeroed. Slots are given out in order, so the 127th spawn of every boot gets there.
- An exited process becomes ready again at its last switch if an alarm or a continue signal is pending,
  and stopped, so that its slot is not recycled, if a stop is; a pending abort masks the others.
- An alarm ends a wait without taking the process out of the wait queue it is in.

Preconditions are the source's own:

- An allocation asks for at most 2^32 - 16 bytes; a free names a live pointer, or null, or an unaligned
  one, which is ignored.
- A spawn finds the oldest free slot with a pid, or fewer than 126 pids given (`RoomExactly`).
- A process waits only while it is in no wait queue, and for a pid that has a process which has not
  died (`WaitForExactly`, `AloneExactly`).
- A signal is posted to a pid that has a process: for a number from 0 to 127 without one the source
  follows a null pointer, or for 127 reads behind the table.
- At each delivery, an aborted process waits on no other, and a continued one has a parent in the table
  that waits on nobody (`SignalSafeExactly`).
- A static namespace is sound when each entry's self index is its position, parents come first, siblings
  are contiguous, and no directory owns the parent index of the first or the last entry; it is well formed
  when, too, every directory has a child (`ScanRunsOff`).

## Model

| member | source | states |
|---|---|---|
| `HeapModel.K70` | src/kmalloc/ramk70.h:1-15 | the K70 configuration satisfies everything the allocator assumes of its RAM: heap start 4 mod 8, size 0 mod 8 below 2^27, room in the bitmap |
| `HeapModel.BinIndexSpreads` | src/kmalloc/kmalloc.c:154-158 | the index is the documented spread over bins 1 to 127 if and only if the size is at most 34087058; above, the 32-bit product wraps |
| `HeapModel.BinIndexInRange` | src/kmalloc/kmalloc.c:211-216 | because the multiplication wraps in 32 bits, every size from 16 up gets a bin between 1 and 65 |
| `HeapModel.ExactMeansClose` | src/kmalloc/kmalloc.c:116 | in wrapping arithmetic an exact match is exactly a chunk of the asked size to 16 bytes more |
| `HeapModel.PaddedFits` | src/kmalloc/kmalloc.c:723-731 | the padded size covers the request and its two tags exactly for requests up to 2^32 - 16 |
| `HeapOps.AllocateWf` | src/kmalloc/kmalloc.c:621-719 | an allocation keeps tiling, lists and bins, returns at most one chunk, of size in [size, size + 16], and changes no allocated chunk |
| `HeapOps.FailsExactlyWhenFull` | src/kmalloc/kmalloc.c:621-719 | allocation fails exactly when no recent or same-bin dirty chunk is within 16 bytes, the remainder is too small and no clean list from that bin up has a fit |
| `HeapOps.RebinRecentWf` | src/kmalloc/kmalloc.c:552-568 | the search that moves mismatches to dirty bins while walking the recent stack keeps every list sorted, binned and complete |
| `HeapOps.CarveWf` | src/kmalloc/kmalloc.c:696-714 | splitting, up to 16 pre-allocations and the store to the remainder bin keep the heap in order; the remainder bin is empty when it is stored to |
| `HeapOps.PreAllocateWf` | src/kmalloc/kmalloc.c:706-712 | pre-allocating any number of equal chunks keeps the heap in order with only the wanted chunk and the rest in hand |
| `HeapOps.InitialAlone` | src/kmalloc/kmalloc.c:340-343 | while the top clean list still holds the first chunk, no chunk is on any other list, the remainder bin included |
| `HeapInvariant.UnlinkWf` | src/kmalloc/kmalloc.c:474-481 | unlinking any listed chunk keeps the invariant and leaves just that chunk in hand |
| `HeapInvariant.AddDirtyWf` | src/kmalloc/kmalloc.c:346-356 | binning a chunk by size and address keeps dirty lists sorted and holding only their own bin's sizes |
| `HeapInvariant.SplitWf` | src/kmalloc/kmalloc.c:595-612 | a split keeps the tiling: the two parts exactly replace the chunk and meet their neighbours |
| `HeapRuns.MallocWf` | src/kmalloc/kmalloc.c:721-768 | a successful allocation owns a chunk nobody had, large enough for request and tags; all other allocations keep address, size and owner |
| `HeapRuns.FreeWf` | src/kmalloc/kmalloc.c:823-836 | a free puts exactly that chunk on top of the recent stack and changes no other chunk |
| `HeapRuns.TiledExactly` | src/kmalloc/kmalloc.c:83-112 | each heap address is in exactly one chunk and no chunk reaches outside the heap |
| `HeapRuns.BlocksDisjoint` | src/kmalloc/kmalloc.c:721-768 | blocks of different allocations share no byte, and no block contains a byte of any tag |
| `HeapRuns.AllBytes` | src/kmalloc/kmalloc.c:175-181 | the sizes of all chunks always sum to the whole heap |
| `HeapRuns.ChargedOk` | src/kmalloc/kmalloc.c:756-761 | after an allocation in use + free is the heap size, in use is the sum of live sizes, the balance counts live chunks |
| `HeapRuns.RefundedOk` | src/kmalloc/kmalloc.c:823-827 | the same after a free, in wrapping 32-bit counters |
| `HeapRuns.RunWf` | src/kmalloc/kmalloc.c:721-840 | over every legal sequence of allocations and frees: the invariant, the counters, and the high-water mark being the maximum in use |
| `HeapRuns.RunFits` | src/kmalloc/kmalloc.c:721-768 | in every state of a legal run each live chunk is as large as its request and two tags |
| `HeapRuns.RunCounts` | src/kmalloc/kmalloc.c:756-761 | over every legal run the call counters are the numbers of successful allocations and of frees in 32 bits, and their difference is the number of live chunks |
| `HeapChoice.MallocChooses` | src/kmalloc/kmalloc.c:621-719 | which chunk a call takes, by the lists before and after: the top recent one if close; else the first close one of the size's dirty list; else the first close recent one, those before it rebinned; else the remainder, or the heap's first chunk while whole, cut to size; else none |
| `HeapChoice.CarveCuts` | src/kmalloc/kmalloc.c:696-714 | cutting leaves exactly the size asked, n pieces of the same size on the recent list with the farthest first, and the rest alone in the remainder bin; n is 0 after another size, else as many as leave 16 bytes, up to 16 |
| `HeapChoice.RebinRecentMeans` | src/kmalloc/kmalloc.c:552-568 | the search stops at the first close recent chunk; exactly those before it move, each to the dirty list of its own size, and no other chunk changes |
| `HeapChoice.FirstTwo` | src/kmalloc/kmalloc.c:696-714 | after boot two equal requests get the heap's first bytes and the bytes right behind: nothing is cut in advance for the first |
| `RepUpdates.SlotsDiffer` | src/kmalloc/kmalloc.c:190-196 | distinct chunks have distinct bitmap slots, although sizes are only multiples of 8 and slots are 16 bytes |
| `RepUpdates.StrideMissesSlots` | src/kmalloc/kmalloc.c:749-752 | no 16-byte stride over one chunk's request hits another chunk's slot |
| `Rep.InsertRep` | src/kmalloc/kmalloc.c:246-269 | inserting a chunk by its own pointer stores keeps the whole representation |
| `Rep.RemoveRep` | src/kmalloc/kmalloc.c:276-282 | removing a chunk through its pointer-to-pointer link keeps the whole representation |
| `RepUpdates.SplitRep` | src/kmalloc/kmalloc.c:595-612 | the stores of a split represent the split heap and leave live contents alone |
| `RepUpdates.TakeRep` | src/kmalloc/kmalloc.c:733-744 | the tag stores of an allocation represent the chunk as allocated |
| `RepUpdates.ReleaseRep` | src/kmalloc/kmalloc.c:828-833 | the stores of a free represent the chunk as free, with null links |
| `RepUpdates.SetMapped` | src/kmalloc/kmalloc.c:194-196 | setting one bit keeps the bitmap equal to the slots of live payloads |
| `RepUpdates.ClearMapped` | src/kmalloc/kmalloc.c:195-195 | clearing one bit does too |
| `Links.ChainInsert` | src/kmalloc/kmalloc.c:246-269 | four pointer stores turn an asymmetric chain into the chain with the chunk at that position |
| `Links.ChainRemove` | src/kmalloc/kmalloc.c:276-282 | two pointer stores turn it into the chain without the chunk |
| `Tags.WithSize` | src/kmalloc/kmalloc.c:93-101 | storing a size in the 24-bit field reads back for multiples of 8 below 2^27 and keeps pid and free bit |
| `Tags.Fields` | src/kmalloc/kmalloc.c:35-39 | a tag is exactly 24 bits of size in units of 8, 7 of pid and 1 free bit, low to high |
| `Kmalloc.Allocator.constructor` | src/kmalloc/kmalloc.c:125-133 | before the first call the allocator stands for one chunk covering the heap |
| `Kmalloc.Allocator.InitChunk` | src/kmalloc/kmalloc.c:225-239 | tags at both ends say size and free, links are null, nothing else changes |
| `Kmalloc.Allocator.LinkBefore` | src/kmalloc/kmalloc.c:246-254 | inserts before a listed chunk; RAM represents the list with it |
| `Kmalloc.Allocator.LinkAfter` | src/kmalloc/kmalloc.c:261-269 | inserts after a listed chunk; RAM represents the list with it |
| `Kmalloc.Allocator.InsertBefore` | src/kmalloc/kmalloc.c:246-254 | the four stores, in terms of the words they leave |
| `Kmalloc.Allocator.InsertAfter` | src/kmalloc/kmalloc.c:261-269 | the three or four stores, in terms of the words they leave |
| `Kmalloc.Allocator.RemoveChunk` | src/kmalloc/kmalloc.c:276-282 | the two stores of a removal, found from the chunk's own links |
| `Kmalloc.Allocator.UnlinkChunk` | src/kmalloc/kmalloc.c:474-481 | takes any chunk off its list, or leaves an unlinked one |
| `Kmalloc.Allocator.BinChunk` | src/kmalloc/kmalloc.c:301-359 | puts the chunk where its mode says; the remainder assertion holds |
| `Kmalloc.Allocator.ExactFitSearch` | src/kmalloc/kmalloc.c:552-568 | first exact match; with rebinning, all mismatches before it end in their dirty bins |
| `Kmalloc.Allocator.FirstFitSearch` | src/kmalloc/kmalloc.c:576-586 | first chunk of a list that is large enough, or null |
| `Kmalloc.Allocator.SplitChunk` | src/kmalloc/kmalloc.c:595-612 | splits in RAM as the model does; its nine assertions, on sizes, footers and alignment, are proved in place |
| `Kmalloc.Allocator.CarveChunk` | src/kmalloc/kmalloc.c:696-714 | leaves a chunk whole, or cuts it to size with the pieces and the remainder that `Cut` spells out; live contents kept |
| `Kmalloc.Allocator.AllocateChunk` | src/kmalloc/kmalloc.c:621-719 | the in-place search, split and bin path computes exactly the model's allocation and keeps live contents |
| `Kmalloc.Allocator.AssertChunk` | src/kmalloc/kmalloc.c:365-420 | each neighbour's tags agree with each other and with the tag read first, and it is free or in the bitmap: no assertion fires |
| `Kmalloc.Allocator.CheckStrides` | src/kmalloc/kmalloc.c:747-752 | no 16-byte stride over the new block has its bit set: neither bitmap assertion fires |
| `Kmalloc.Allocator.CheckBitmap` | src/kmalloc/kmalloc.c:196-196 | reads the bit of an address's slot, most significant first |
| `Kmalloc.Allocator.SetBitmap` | src/kmalloc/kmalloc.c:194-194 | changes one bit of one byte and no other word or byte |
| `Kmalloc.Allocator.ClearBitmap` | src/kmalloc/kmalloc.c:195-195 | changes one bit of one byte and no other word or byte |
| `Kmalloc.Allocator.FindSplittable` | src/kmalloc/kmalloc.c:660-691 | finds what the model finds to split: the remainder, then clean lists from the size's bin up |
| `Kmalloc.Allocator.FinishMalloc` | src/kmalloc/kmalloc.c:733-763 | the chunk in hand becomes a live, zeroed block; live contents kept |
| `Kmalloc.Allocator.MarkFree` | src/kmalloc/kmalloc.c:828-833 | both tags free, links null, nothing else changed |
| `Kmalloc.Allocator.InitRam` | src/kmalloc/kmalloc.c:429-466 | the first call lays out header, bins, bitmap and one chunk; later calls leave RAM as it is |
| `Kmalloc.Allocator.Kmalloc` | src/kmalloc/kmalloc.c:721-768 | a null or 8-aligned zeroed block of the requested size, from the chunk that `Chosen` spells out; state and counters as the model; live contents kept |
| `Kmalloc.Allocator.Kfree` | src/kmalloc/kmalloc.c:798-840 | null and unaligned pointers change nothing; a live block is freed, its assertions hold, other live contents are kept |
| `KmallocRuns.Drive` | src/kmalloc/kmalloc.c:721-840 | the allocator, driven through any legal sequence of calls, ends in the state and with the counters of the model's run |
| `FreeGuard.GuardExactly` | src/kmalloc/kmalloc.c:804-812 | an aligned address in the heap has its bit set if and only if it is a live block, or the one live block in the other half of the 16-byte slot |
| `FreeGuard.GuardReads` | src/kmalloc/kmalloc.c:196-196 | checking an address stays inside the bitmap if and only if the address is from the heap's start on within the bitmap's reach, or wraps into it |
| `FreeGuard.InnerPointerPasses` | src/kmalloc/kmalloc.c:804-821 | 8 bytes into a live block that starts with two zero words, at a chunk a multiple of 16 from the heap's start, is no live block but passes every check of a free, and has the live block's bit |
| `FreeGuard.InnerPointer` | src/kmalloc/kmalloc.c:721-768 | every allocation of 8 bytes or more whose chunk is a multiple of 16 from the heap's start yields such a pointer |
| `FreeGuard.FirstAtStart` | src/kmalloc/kmalloc.c:660-714 | the first allocation that fits gets the chunk at the heap's start |
| `Memset.Kmemset` | src/kmalloc/memset.c:31-113 | sets exactly the n bytes to the low byte of c and nothing else, for every n and alignment, every wide store aligned and inside |
| `Memset.FillAligned` | src/kmalloc/memset.c:59-106 | the overlapping word stores and the aligned 32-byte loop cover the block together with the byte stores |
| `Memset.WholeBlock` | src/kmalloc/memset.c:31-113 | overlapping filled stretches that cover the block amount to the fill of the block |
| `Memory.Repeat32` | src/kmalloc/memset.c:63-63 | the multiplied pattern is four copies of the byte |
| `ShellInput.AdvanceReads` | src/torgo/parser.c:389-403 | advancing consumes exactly one character of what remains, across piece ends |
| `ShellInput.AddReads` | src/torgo/parser.c:342-367 | adding a piece extends what remains, unless an empty piece already blocks the way |
| `ShellInput.UnparsedMeans` | src/torgo/parser.c:536-538 | without empty pieces, a last link is known exactly while input remains |
| `ShellLexer.ParseAppend` | src/torgo/parser.c:415-529 | more text after a finished command changes nothing, after a starved parse it resumes it |
| `ShellLexer.TokenizeAppend` | src/torgo/parser.c:415-529 | one pass over a text equals stopping and resuming anywhere |
| `ShellLexer.TokenizeByParse` | src/torgo/parser.c:415-529 | the one-pass tokenizer is parsing command by command |
| `ShellLexer.QuoteRoundTrip` | src/torgo/parser.c:419-511 | quoted words, blanks between, operator at the end: one command with the non-empty words in order; unchanged exactly when no word is empty |
| `ShellSpelling.ScriptReads` | src/torgo/parser.c:415-529 | any text of command lines, whose words mix bare and quoted stretches and escapes, is one command a line: the words meant, in order, the empty ones dropped |
| `ShellSpelling.SpellingsRead` | src/torgo/parser.c:415-529 | one such line, with blanks before and between the words and an operator at the end |
| `ShellSpelling.EscapeReads` | src/torgo/parser.c:481-511 | for every character, a backslash and it are one word of code 7, 8, 12, 10, 13, 9 or 11 for a, b, f, n, r, t, v, and of itself otherwise, outside quotes and inside |
| `ShellSpelling.CharReads` | src/torgo/parser.c:419-511 | for every character between two plain ones: space and tab part words, newline, return and semicolon part commands, a backslash vanishes, a quote opens a quotation, anything else joins the word |
| `ShellSpelling.WriteRoundTrip` | src/torgo/parser.c:419-511 | any non-empty words of any characters, written without quotes, read back |
| `ShellSpelling.ReadScript` | src/torgo/parser.c:339-529 | the parser object, fed such a text in any pieces and called until it starves, returns exactly those commands |
| `ShellParser.MkParsedCommand` | src/torgo/parser.c:139-156 | the tokens, stored newest first, come out in reading order with their number |
| `ShellParser.Parser.AddInput` | src/torgo/parser.c:342-367 | the parser's remaining text grows by the piece, its state stays |
| `ShellParser.Parser.AdvanceInput` | src/torgo/parser.c:389-403 | moves the chain and pointer as the model |
| `ShellParser.Parser.ParseInput` | src/torgo/parser.c:415-529 | the loop over states terminates and returns exactly the reference parse of the remaining text |
| `ShellParser.Parser.HasUnparsedInput` | src/torgo/parser.c:536-538 | answers whether input remains or a last link is known |
| `ShellRuns.AnyCutSameCommands` | src/torgo/parser.c:342-529 | in every interleaving of adds and parses, commands returned so far plus those still to come are the one-pass commands of the text fed |
| `ShellRuns.CutsDoNotMatter` | src/torgo/parser.c:342-529 | two runs on the same text, both drained, return the same commands and end in the same state |
| `ShellRuns.StarvedHasAll` | src/torgo/parser.c:520-527 | a parse that starves has returned every complete command |
| `ShellRuns.LaterTextReached` | src/torgo/parser.c:389-403 | what is added behind a piece can be read exactly when the piece is not empty |
| `ShellRuns.EmptyPieceLosesCommand` | src/torgo/parser.c:389-403 | a concrete run in which an empty piece hides a whole command |
| `ShellRuns.Drive` | src/torgo/parser.c:264-529 | the parser object, driven by any legal calls, returns the model's commands |
| `CharBufs.CharBuf.Concat` | src/torgo/charbuf.c:86-103 | appends; the buffer is replaced, if and only if it is too small, by one of twice its size and the string; contents, terminator and used < size kept; out of memory changes nothing |
| `CharBufs.CharBuf.Append` | src/torgo/charbuf.c:111-115 | appends one character; NUL appends nothing |
| `CharBufs.CharBuf.DropLast` | src/torgo/charbuf.c:122-129 | removes and returns the last character, NUL on empty |
| `CharBufs.CharBuf.Clear` | src/torgo/charbuf.c:65-68 | empty afterwards, same buffer |
| `HeapQueue.SiftDownHeap` | src/heapq/downHeapQ.c:11-34 | sifting down repairs a heap broken only at the root and permutes |
| `HeapQueue.SiftUpHeap` | src/heapq/downHeapQ.c:36-50 | sifting up repairs a heap broken only at the last place and permutes |
| `HeapQueue.Largest` | src/heapq/downHeapQ.c:81-82 | the root of a max-heap is its largest value |
| `HeapQueue.HeapQ.Down` | src/heapq/downHeapQ.c:11-34 | the in-place recursion computes the sift |
| `HeapQueue.HeapQ.Up` | src/heapq/downHeapQ.c:36-50 | the in-place recursion computes the sift |
| `HeapQueue.HeapQ.Enqueue` | src/heapq/downHeapQ.c:61-70 | adds the value to the stored multiset unless full, heap order kept |
| `HeapQueue.HeapQ.Dequeue` | src/heapq/downHeapQ.c:81-87 | with two values or more: removes and returns the largest, heap order kept; it is the lowest, as documented, if and only if any two values stored are equal |
| `HeapQueue.Drain` | src/heapq/downHeapQ.c:81-87 | draining to one value gives a descending sequence; nothing lost or invented |
| `Calendar.SecondsToDate` | src/date/date.c:30-53 | a valid Gregorian date whose seconds since the epoch (`EpochByRule`) are the input, exactly while the day count fits 32 bits |
| `Calendar.MonthsByRule` | src/date/date.c:16-20 | the table of months is the calendar's: 31 days, 59 or 60, and from March on the rule of 153 days in five months |
| `Calendar.EpochByRule` | src/date/date.c:13-20 | the seconds of every date in one formula without tables |
| `Calendar.DateToSeconds` | src/date/date.c:55-74 | the loops sum to a closed form over years, months and the day, wrapping in 64 bits; a month that is not positive adds nothing |
| `Calendar.ConversionError` | src/date/date.c:55-74 | the distance to POSIX time (Base Definitions, section 4.16) for every date: a day in leap years, twice the distance to 1970 before it; exact if and only if the year is a non-leap year from 1970 on |
| `Calendar.OrderKept` | src/date/date.c:30-53 | calendar order and order of seconds agree, so conversion is strictly increasing and injective |
| `Calendar.ThereAndBack` | src/dev/devdev.c:169-170 | converting and converting back is exact outside leap years and a day ahead in them |
| `Calendar.YearStep` | src/date/date.c:13-14 | the closed form for days before a year counts each year's days |
| `StaticNamespace.CrumbIndices` | include/manos/api.h:51-58 | parent and self index come back out of a crumb if and only if they fit 12 and 16 bits |
| `StaticNamespace.SentinelUnseen` | include/manos/api.h:50-54 | the sentinel crumb as the macros build it is never recognised by the sentinel test |
| `StaticNamespace.ScanRunsOff` | src/walk/getNodeInfoStaticNS.c:45-53 | in any sound namespace with the end marker as built, the search for a first child runs off the array if and only if the directory is empty |
| `StaticNamespace.ScanFinds` | src/walk/getNodeInfoStaticNS.c:45-53 | from a directory with a child, the search ends at its first child |
| `StaticNamespace.EmptyDirRunsOff` | src/walk/getNodeInfoStaticNS.c:45-53 | a three-entry namespace with an empty directory, from which the search runs off the array |
| `StaticNamespace.NextSibling` | src/walk/getNodeInfoStaticNS.c:60-64 | the array neighbour with the same parent is the next sibling; without one there is none |
| `StaticNamespace.PrevSibling` | src/walk/getNodeInfoStaticNS.c:55-59 | the same backwards |
| `StaticNamespace.GetNodeInfo` | src/walk/getNodeInfoStaticNS.c:20-76 | in a sound namespace, returns the tree's parent, first child, neighbour sibling or self, and fails exactly when there is none, with the right errno; asked down from a directory only if it has a child |
| `StaticNamespace.FirstChild` | src/walk/getNodeInfoStaticNS.c:45-53 | the loop is the scan, and finds the first child of a directory that has one |
| `Walk.TrailMeans` | src/walk/genericWalk.c:32-68 | the trail is the resolution of the longest resolvable prefix: each node one element from the one before, and no further element resolves |
| `Walk.ResolveMeans` | src/walk/genericWalk.c:38-67 | an element leads to the directory itself for ., to its parent for .., else to its first child of that name; it fails exactly at a file and where no child has the name |
| `Walk.TrailFollows` | src/walk/genericWalk.c:32-68 | each node of a trail is where its element leads in the tree, and the trail ends only where an element fails |
| `Walk.DownThenUp` | src/walk/genericWalk.c:45-50 | a name followed by .. resolves back to where it started, and .. at the root stays |
| `Walk.FindName` | src/walk/genericWalk.c:53-64 | the loop over siblings finds the first child of that name, or none |
| `Walk.GenericWalk` | src/walk/genericWalk.c:6-72 | each recorded crumb names the entry that its element leads to, by parents, children and names, and the record stops exactly where an element fails; null exactly on an empty path or a start that is no directory; the error number says whether it stopped at a missing name or at a file |
| `Walk.WalkIsStretch` | src/sys/walk.c:22-45 | one device's walk is a stretch of the global resolution, ending at the path's end, at a mount, or where nothing resolves |
| `Walk.StepMeans` | src/sys/walk.c:29-44 | one element leads to a place in its device's tree, and from a mount on to where the first device with the mount's length as id attaches its contents |
| `Walk.ReachMeans` | src/sys/walk.c:22-45 | the places passed on a path, one such element apart, end where the path does or where an element fails |
| `Walk.Syswalk` | src/sys/walk.c:4-51 | returns a portal exactly when every element leads on, across mounts too, and then to the last place; otherwise the error number says whether the place where it stops is a directory; each crossing consumes an element |
| `ReadDir.EachChildOnce` | src/walk/readStaticNS.c:18-39 | listing order visits every child once, ascending |
| `ReadDir.UnpackPack` | src/walk/readStaticNS.c:32-36 | NUL-terminated names written to a buffer read back |
| `ReadDir.TakenProgress` | src/walk/readStaticNS.c:23-26 | with a buffer for the longest name a read delivers something exactly while names remain |
| `ReadDir.TakenMost` | src/walk/readStaticNS.c:23-37 | a read takes as many names behind the skipped ones as there are bytes for, not one fewer; nothing when a skipped name alone would not fit |
| `ReadDir.ReadStaticNS` | src/walk/readStaticNS.c:8-42 | one read skips offset names, copies as many whole names as fit, touches no byte behind them, and advances the offset by their number |
| `ReadDir.ReadOnce` | src/walk/readStaticNS.c:8-42 | one read at the portal's offset, as a reader of the buffer sees it: the next names that fit |
| `ReadDir.ListDirectory` | src/walk/readStaticNS.c:8-42 | reading repeatedly with the portal's own offset lists every child once, in order, then returns 0 |
| `Rings.RingAppend` | include/manos/list.h:30-53 | adding before the head appends to the ring |
| `Rings.RingPrepend` | include/manos/list.h:30-44 | adding after the head prepends |
| `Rings.RingUnlink` | include/manos/list.h:62-65 | unlinking a node leaves the ring without it |
| `Rings.Lists.Add` | include/manos/list.h:30-35 | the four stores of an addition, in terms of the two maps |
| `Rings.Lists.AddAfter` | include/manos/list.h:42-44 | the head's ring starts with the new node |
| `Rings.Lists.AddBefore` | include/manos/list.h:51-53 | the head's ring ends with the new node |
| `Rings.Lists.Unlink` | include/manos/list.h:71-75 | the ring is left without the node, whose links are null |
| `Rings.Lists.UnlinkAndInit` | include/manos/list.h:82-85 | the ring is left without the node, which is a ring of its own |
| `Rings.Lists.IsEmpty` | include/manos/list.h:91-93 | whether the head is linked to itself; for a ring, exactly when it is empty |
| `SchedInvariant.WakeOk` | src/process/wakeWaiters.c:4-12 | draining a wait queue readies exactly its waiters, empties it and keeps the invariant |
| `SchedInvariant.SignalledOk` | src/sys/schedule.c:21-46 | delivering a safe signal keeps the invariant, every slot's place and every pid |
| `SchedInvariant.SignalSafeExactly` | src/sys/schedule.c:24-42 | delivery keeps the invariant if and only if an aborted process waits on no other and a continued one has a parent in the table that waits on nobody |
| `SchedSteps.RecycledOk` | src/process/newProc.c:35-52 | recycling a dead process found in the queue keeps the invariant and its slot's pid |
| `SchedSteps.SpawnedOk` | src/sys/execv.c:44-65 | while there is room for a pid: a spawn takes the oldest free slot; its pid is unused, the slot's old one or the next, and has an entry in the table |
| `SchedSteps.RoomExactly` | src/process/newProc.c:72-90 | the new pid has an empty entry in the 127-entry table if and only if the oldest free slot has a pid already or fewer than 126 pids are given |
| `SchedSteps.PastTheTable` | src/process/newProc.c:72-90 | otherwise the pid is 127, one past the end of the table, and the invariant is lost |
| `SchedPids.SpawnLimit` | src/process/newProc.c:54-93 | in every boot, each spawn takes a slot never used before and the next pid: no pid is ever reused, the free list is never empty, and a spawn has room if and only if there were fewer than 126 |
| `SchedPids.LastSpawn` | src/boot/main.c:53-53 | 126 spawns in a row are allowed, and the next process would get pid 127 |
| `SchedPids.TableBlock` | src/boot/main.c:53-53 | the block allocated for the table has room for one entry past the 127 asked for, and at most 16 bytes behind that |
| `SchedSteps.ScanOk` | src/sys/schedule.c:60-72 | a whole scan, recycling and signalling on the way, keeps the invariant and picks a ready process or none |
| `SchedRuns.ExitedOk` | src/sys/execv.c:11-16 | exit keeps the invariant and the pids, and the runner is dead |
| `SchedEffects.ExitedMeans` | src/process/newProc.c:27-29 | after an exit exactly the processes that waited for the runner are ready, nobody waits for it, every other wait queue has lost at most the runner, and all else is as before |
| `SchedEffects.SignalledMeans` | src/sys/schedule.c:21-46 | every branch of a delivery, process by process and queue by queue: abort and stop ready exactly the waiters and empty the queue; continue makes the parent wait in front; alarm changes one state; abort comes before stop, stop before continue, continue before alarm |
| `SchedEffects.PostedMeans` | src/sys/postsignal.c:3-13 | flag by flag, a signal is pending if it was or if it is posted and not masked; nothing else changes |
| `SchedEffects.MaskedMeans` | src/process/signals.c:12-18 | only the runner's mask changes, to the one given |
| `SchedEffects.WaitedForMeans` | src/process/waitpid.c:5-17 | the runner is waiting, in front of that process's other waiters; nothing else changes |
| `SchedEffects.SpawnedMeans` | src/process/newProc.c:54-93 | the oldest free slot alone changes: ready, nothing pending or masked, the runner's child, its old pid or the next one, entered in the table, last in the queue |
| `SchedEffects.YieldedMeans` | src/sys/schedule.c:87-95 | the runner, ready if it was running, is last in the queue, with its signals delivered |
| `SchedEffects.LookTakes` | src/sys/schedule.c:60-72 | behind processes that are not ready and have nothing pending, the first ready or alarmed one leaves the queue and runs; nothing else changes |
| `SchedEffects.LookBuries` | src/sys/schedule.c:60-63 | behind such processes, a dead one goes to the end of the free list with just its pid, its table entry is cleared, and the look goes on |
| `SchedEffects.LookFindsNobody` | src/sys/schedule.c:60-76 | a look over such processes alone changes nothing |
| `SchedEffects.LookSparesSignalled` | src/sys/schedule.c:60-72 | whoever a look runs was queued with neither abort nor stop pending, and has nothing pending any more |
| `SchedRuns.WaitForExactly` | src/process/waitpid.c:5-17 | waiting keeps the invariant if and only if the process waited for has not died and the runner is in no wait queue |
| `SchedRep.AloneExactly` | src/process/waitpid.c:12-12 | the assertion before the wait holds if and only if the runner is in no wait queue |
| `SchedLives.AlarmLeavesWaiting` | src/sys/schedule.c:42-44 | an alarm makes a waiting process ready and leaves it in its wait queue |
| `SchedLives.AlarmedWaiterRuns` | src/process/waitpid.c:12-13 | a run from boot after which the runner is still in a wait queue: its next wait fails the assertion and would break the queues |
| `SchedLives.StaysDead` | src/sys/schedule.c:87-94 | a process that has exited is dead after its last switch if and only if no signal is pending or an abort is |
| `SchedLives.ExitedRunsAgain` | src/sys/schedule.c:42-44 | a run from boot in which a process exits with an alarm pending and is ready again |
| `SchedLives.DeadIsRecycled` | src/sys/schedule.c:60-63 | the next look recycles a dead queued process that no queued child is about to make wait, unless it picks one that was before it |
| `SchedRuns.YieldedOk` | src/sys/schedule.c:87-98 | putting the runner back in the queue keeps the invariant |
| `SchedRuns.PickedOk` | src/sys/schedule.c:98-105 | looking for and marking the next runner keeps the invariant |
| `SchedRuns.BootOk` | src/boot/main.c:19-53 | the boot state satisfies the invariant |
| `SchedRuns.RunOk` | src/sys/schedule.c:52-109 | every run keeps the invariant, and a pid once given stays with its slot |
| `SchedRuns.Reachable` | src/process/newProc.c:35-93 | in every state reached from boot: each slot on exactly one of free list, run queue or running; pids distinct and below 127; entry `pid` of the table is that slot exactly while the slot is live, and null otherwise |
| `SchedFairness.LookMovesUp` | src/sys/schedule.c:52-77 | a look while a ready process is queued that is not about to be aborted, stopped or made to wait by a child picks it, or picks another and strictly lowers its position |
| `SchedFairness.OthersKeepPlace` | src/sys/schedule.c:84-109 | no other step changes a queued process's position |
| `SchedFairness.BoundedBypass` | src/sys/schedule.c:52-109 | over any run, such a process is passed over at most as often as there are processes before it |
| `SchedFairness.RunsInTurn` | src/sys/schedule.c:52-109 | in any run with one look more than that, it has been picked |
| `SchedFairness.IdleSettles` | src/sys/schedule.c:98-101 | when two looks in a row find nobody, every further look finds nobody and changes nothing |
| `Sched.LooksSettle` | src/sys/schedule.c:98-101 | so looking more than twice is the same as looking twice |
| `Sched.Scheduler.constructor` | src/boot/main.c:19-51 | boot links all slots on the free list, the last first |
| `Sched.Scheduler.WakeWaiting` | src/process/wakeWaiters.c:4-12 | drains the linked queue while iterating over it; the state becomes the model's wake |
| `Sched.Scheduler.ProcessSignals` | src/sys/schedule.c:21-46 | the linked and stored state becomes the model's delivery, whose every effect `Delivered` spells out |
| `Sched.Scheduler.RecycleProc` | src/process/newProc.c:35-52 | re-initialises the nodes, frees the slot, clears the table entry |
| `Sched.Scheduler.NewProc` | src/process/newProc.c:54-93 | while there is room for a pid, claims the head of the free list; both assertions on the pid are proved, on a table of 127 entries |
| `Sched.Scheduler.SchedProc` | src/sys/execv.c:44-65 | while there is room for a pid, the new process is last in the linked run queue, ready, with the fields that `Started` spells out |
| `Sched.Scheduler.NextRunnableProc` | src/sys/schedule.c:52-77 | the removal-safe iteration computes exactly the model's scan |
| `Sched.Scheduler.ScheduleProc` | src/sys/schedule.c:84-109 | yield, then look until a process is found; the state is the model's |
| `Sched.Scheduler.Exit` | src/sys/execv.c:11-16 | the linked state becomes the model's exit: exactly the waiters are ready, and the runner is dead and in no wait queue; the invariant holds |
| `Sched.Scheduler.WaitPid` | src/process/waitpid.c:5-17 | asked by a runner in no wait queue for a process that has not died: it is waiting, first in that process's wait queue, and nothing else changes |
| `Sched.Scheduler.NotWaiting` | src/process/waitpid.c:12-12 | the test that is asserted: true if and only if the runner is in no wait queue |
| `Sched.Scheduler.SetSignalMask` | src/process/signals.c:12-18 | replaces the runner's mask and returns the old one; nothing else changes |
| `Sched.Scheduler.SetSignalBlock` | src/process/signals.c:28-34 | adds to the runner's mask and returns the old one |
| `Sched.Scheduler.SetSignalUnblock` | src/process/signals.c:36-45 | changes nothing, so it unblocks as documented if and only if none of the signals was blocked |
| `Sched.Scheduler.TakeFree` | src/process/newProc.c:63-64 | unlinks the head of the free list |
| `Sched.Scheduler.LeaveQueue` | src/process/newProc.c:27-29 | unlinks the process from whatever wait queue it is in, or from none |
| `Sched.Scheduler.DropDead` | src/sys/schedule.c:61-63 | unlinks and recycles a dead process in mid-queue |
| `Sched.Scheduler.PostSignal` | src/sys/postsignal.c:3-13 | exactly the unmasked signals become pending, and nothing else changes |

## Left out

- `coalesce` and the clean mode of `binChunk`: every call is commented out in the source.
- Heap, chunk and hex dumps, and console messages: printing only.
- The NICE platform's RAM layout: only the K70 configuration is modelled.
- HeapModel.PaddedFits: requests above 2^32 - 16 wrap to a chunk smaller than the request; the lemma gives the exact bound, the run theorems assume it.
- Kmalloc.Allocator.Kfree: aligned pointers that are not live are excluded: some stop in an assertion, some pass every check (`InnerPointerPasses`), and some are looked up outside the bitmap first (`GuardReads`).
- The caller's pid is a parameter of an allocation; critical regions are atomic calls.
- The boundary tag's bit-fields are laid out low to high in a little-endian word, as the K70 compiler does.
- Memset.Kmemset: models the branch for GNU compilers, not the byte loop of the fallback.
- ShellParser.Parser.ParseInput: assumes memory for tokens and results, as the source does; parsing before the first input is added, a buffer of size zero and sizes beyond the machine word are excluded.
- HeapQueue.HeapQ.Dequeue: with fewer than two values the source's index underflows, so two are required.
- Calendar.DateToSeconds: the month is at most 12, since the source indexes its table of months with it, and the products of the fields fit `int`, as a day below 24856 does.
- Walk.Syswalk: a mount crossed in mid-path leads to a directory, since the source dereferences a null trail otherwise; attaching a device is a function parameter, closing portals is not modelled.
- ReadDir.ReadStaticNS: the branch that reads a file's contents is not modelled.
- Memory of portals, trails and names, and allocation failure in walking: one value is copied to another.
- Process memory: stacks, canaries, descriptor tables, process groups, portals, locks and terminal messages.
- Sched.Scheduler.NewProc: a spawn without room for a pid, because what the word behind the table holds is whatever the heap held there.
- StaticNamespace.GetNodeInfo: the previous entry of the root, and the next of a root without entries, lie outside the tree.
- Sched.Scheduler.ScheduleProc: the loop that looks for a process is bounded by a parameter, because the source's loop ends only when an interrupt makes a process ready; `LooksSettle` shows that two looks decide.
- Sched.Scheduler.WaitPid: a wait on a dead process, or by one that is in a wait queue already, which fails the source's assertion, is excluded; `WaitForExactly` shows that both break the queues.
- Sched.Scheduler.PostSignal: a pid without a process, for which the source follows a null pointer, is excluded.
- Relative multi-component paths, the environment, and file reading: not modelled.
- FIFO queues, locks, reference counts, strings, device drivers and formatted output: they would add only easy members.
