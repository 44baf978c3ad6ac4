/** Namespaces kept as flat arrays: each entry knows its own index and its parent's. */
module StaticNamespace {
  import opened Options
  import CharBufs

  datatype Flags = Flags(isDir: bool, isMount: bool, isStatic: bool)
  datatype Crumb = Crumb(flags: Flags, fid: int)
  datatype Entry = Entry(name: string, crumb: Crumb, length: int, contents: string)

  type Namespace = seq<Entry>

  const SENTINEL := 0xffff

  function MkFid(parent: int, self: int): int { parent % 0x1000 * 0x1_0000 + self % 0x1_0000 }

  function MkCrumb(parent: int, self: int, flags: Flags): Crumb {
    Crumb(flags.(isStatic := true), MkFid(parent, self))
  }

  function ParentOf(c: Crumb): int { c.fid / 0x1_0000 % 0x1_0000 }
  function SelfOf(c: Crumb): int { c.fid % 0x1_0000 }
  predicate IsSentinel(c: Crumb) { c.flags.isStatic && c.fid == SENTINEL }

  /** Exactly the indices below the field widths, 12 and 16 bits, come back from a crumb. */
  lemma CrumbIndices(parent: int, self: int, flags: Flags)
    ensures ParentOf(MkCrumb(parent, self, flags)) == parent && SelfOf(MkCrumb(parent, self, flags)) == self <==>
            0 <= parent < 0x1000 && 0 <= self < 0x1_0000
  {
  }

  /** The end marker the arrays are built with is never recognised: its parent half is not zero. */
  lemma SentinelUnseen(flags: Flags)
    ensures !IsSentinel(MkCrumb(SENTINEL, SENTINEL, flags))
    ensures ParentOf(MkCrumb(SENTINEL, SENTINEL, flags)) == 0xfff
  {
    assert 0xffff % 0x1000 == 0xfff && 0xffff % 0x1_0000 == 0xffff;
    assert MkFid(SENTINEL, SENTINEL) == 0xfff_ffff;
  }

  // ----- the tree an array stands for

  function Parent(ns: Namespace, i: int): int
    requires 0 <= i < |ns|
  {
    ParentOf(ns[i].crumb)
  }

  predicate IsDir(ns: Namespace, i: int)
    requires 0 <= i < |ns|
  {
    ns[i].crumb.flags.isDir
  }

  /** The entries proper; the last array element only marks the end. */
  function Count(ns: Namespace): int { |ns| - 1 }

  ghost predicate IsChild(ns: Namespace, c: int, i: int) {
    1 <= c < Count(ns) && Parent(ns, c) == i
  }

  ghost predicate HasChild(ns: Namespace, i: int) {
    exists c :: i < c && IsChild(ns, c, i)
  }

  /** An entry is at its own index, below its parent, which is a directory; no directory owns the indices that mark the ends. */
  ghost predicate Seated(ns: Namespace, i: int)
    requires 0 <= i < Count(ns)
  {
    && SelfOf(ns[i].crumb) == i && CharBufs.NUL !in ns[i].name
    && (i > 0 ==> Parent(ns, i) < i && IsDir(ns, Parent(ns, i)))
    && (IsDir(ns, i) ==> i != Parent(ns, 0) && i != Parent(ns, Count(ns)))
    && (ns[i].crumb.flags.isMount ==> !IsDir(ns, i))
  }

  /** Siblings are next to each other. */
  ghost predicate Grouped(ns: Namespace) {
    forall i, j, k {:trigger IsChild(ns, i, Parent(ns, k)), ns[j]} ::
      1 <= i < j < k < Count(ns) && Parent(ns, i) == Parent(ns, k) ==> Parent(ns, j) == Parent(ns, k)
  }

  /** A tree in an array, in which directories may be empty. */
  ghost predicate Sound(ns: Namespace) {
    && 2 <= |ns| && IsDir(ns, 0) && Grouped(ns)
    && (forall i {:trigger Seated(ns, i)} :: 0 <= i < Count(ns) ==> Seated(ns, i))
    && (forall i :: 0 <= i < |ns| ==> !IsSentinel(ns[i].crumb) || i == Count(ns))
  }

  ghost predicate Placed(ns: Namespace, i: int)
    requires 0 <= i < Count(ns)
  {
    Seated(ns, i) && (IsDir(ns, i) ==> HasChild(ns, i))
  }

  /** A sound array without empty directories. */
  ghost predicate WellFormed(ns: Namespace) {
    Sound(ns) && forall i {:trigger Placed(ns, i)} :: 0 <= i < Count(ns) ==> Placed(ns, i)
  }

  /** A crumb names an entry. */
  predicate At(ns: Namespace, c: Crumb, i: int) {
    0 <= i < Count(ns) && ns[i].crumb == c
  }

  // ----- moving one step

  datatype Direction = WalkUp | WalkDown | WalkPrev | WalkNext | WalkSelf
  datatype Errno = EOK | ENOTDIR | ENOENT | EINVAL

  /** Which entry lies in a direction, in terms of the tree. */
  ghost predicate Leads(ns: Namespace, i: int, d: Direction, j: int)
    requires 0 <= i < Count(ns)
  {
    match d
    case WalkUp => j == if i == 0 then 0 else Parent(ns, i)
    case WalkDown => IsChild(ns, j, i) && forall k :: IsChild(ns, k, i) ==> j <= k
    case WalkPrev => i > 0 && IsChild(ns, j, Parent(ns, i)) && j < i &&
                     forall k :: IsChild(ns, k, Parent(ns, i)) && k < i ==> k <= j
    case WalkNext => i > 0 && IsChild(ns, j, Parent(ns, i)) && i < j &&
                     forall k :: IsChild(ns, k, Parent(ns, i)) && i < k ==> j <= k
    case WalkSelf => j == i
  }

  lemma SeatedAt(ns: Namespace, i: int)
    requires Sound(ns) && 0 <= i < Count(ns)
    ensures Seated(ns, i)
  {
  }

  lemma PlacedAt(ns: Namespace, i: int)
    requires WellFormed(ns) && 0 <= i < Count(ns)
    ensures Placed(ns, i)
  {
  }

  lemma WellFormedMeans(ns: Namespace)
    requires WellFormed(ns)
    ensures Sound(ns) && 1 < Count(ns) && forall i :: 0 <= i < Count(ns) && IsDir(ns, i) ==> HasChild(ns, i)
  {
    PlacedAt(ns, 0);
    forall i | 0 <= i < Count(ns) && IsDir(ns, i) ensures HasChild(ns, i) { PlacedAt(ns, i); }
  }

  /** The neighbour in the array is the sibling, because siblings are contiguous; the root's is never the end marker. */
  lemma NextSibling(ns: Namespace, i: int)
    requires Sound(ns) && 0 <= i < Count(ns) && (i == 0 ==> 1 < Count(ns))
    ensures Parent(ns, i + 1) == Parent(ns, i) ==> i > 0 && i + 1 < Count(ns) && Leads(ns, i, WalkNext, i + 1)
    ensures Parent(ns, i + 1) != Parent(ns, i) ==> forall j :: !Leads(ns, i, WalkNext, j)
    ensures i > 0 && Parent(ns, i + 1) != Parent(ns, i) ==> forall j :: IsChild(ns, j, Parent(ns, i)) ==> j <= i
  {
    SeatedAt(ns, i);
    SeatedAt(ns, 0);
    if i > 0 { SeatedAt(ns, Parent(ns, i)); }
    if i + 1 < Count(ns) { SeatedAt(ns, i + 1); }
    forall j | i > 0 && IsChild(ns, j, Parent(ns, i)) && i < j ensures Parent(ns, i + 1) == Parent(ns, i) {
      if i + 1 < j { Contiguous(ns, i, i + 1, j); }
    }
  }

  lemma Contiguous(ns: Namespace, i: int, j: int, k: int)
    requires Sound(ns) && 1 <= i < j < k < Count(ns) && Parent(ns, i) == Parent(ns, k)
    ensures Parent(ns, j) == Parent(ns, k)
  {
    assert IsChild(ns, i, Parent(ns, k));
  }

  lemma PrevSibling(ns: Namespace, i: int)
    requires Sound(ns) && 1 <= i < Count(ns)
    ensures Parent(ns, i - 1) == Parent(ns, i) ==> Leads(ns, i, WalkPrev, i - 1)
    ensures Parent(ns, i - 1) != Parent(ns, i) ==> forall j :: !Leads(ns, i, WalkPrev, j)
  {
    SeatedAt(ns, i);
    SeatedAt(ns, i - 1);
    SeatedAt(ns, Parent(ns, i));
    forall j | IsChild(ns, j, Parent(ns, i)) && j < i ensures Parent(ns, i - 1) == Parent(ns, i) {
      if j < i - 1 { Contiguous(ns, j, i - 1, i); }
    }
  }

  // ----- the scan for a first child

  datatype Down = ChildAt(index: int) | AtSentinel | PastEnd

  /** From entry `from` on: the first whose parent is `i`, unless the sentinel is recognised before; or off the array. */
  function ScanDown(ns: Namespace, i: int, from: int): Down
    requires 0 <= from
    decreases |ns| - from
  {
    if from >= |ns| then PastEnd
    else if Parent(ns, from) == i then ChildAt(from)
    else if IsSentinel(ns[from].crumb) then AtSentinel
    else ScanDown(ns, i, from + 1)
  }

  /** The scan passes over entries that are neither children nor sentinels. */
  lemma {:induction false} ScanSkips(ns: Namespace, i: int, from: int, next: int)
    requires 0 <= from <= next <= |ns|
    requires forall k :: from <= k < next ==> Parent(ns, k) != i && !IsSentinel(ns[k].crumb)
    ensures ScanDown(ns, i, from) == ScanDown(ns, i, next)
    decreases next - from
  {
    if from < next { ScanSkips(ns, i, from + 1, next); }
  }

  /** In a sound array, a scan from a directory with a child ends at its first child. */
  lemma ScanFinds(ns: Namespace, i: int)
    requires Sound(ns) && 0 <= i < Count(ns) && IsDir(ns, i) && HasChild(ns, i)
    ensures ScanDown(ns, i, i).ChildAt? && Leads(ns, i, WalkDown, ScanDown(ns, i, i).index)
  {
    var c :| i < c && IsChild(ns, c, i);
    var first := FirstOwned(ns, i, i, c);
    assert Seated(ns, i) && Seated(ns, 0);
    ScanSkips(ns, i, i, first);
    forall k | IsChild(ns, k, i) ensures first <= k {
      assert Seated(ns, k);
    }
  }

  lemma {:induction false} FirstOwned(ns: Namespace, i: int, from: int, c: int) returns (first: int)
    requires 0 <= from <= c < |ns| && Parent(ns, c) == i
    ensures from <= first <= c && Parent(ns, first) == i && forall k :: from <= k < first ==> Parent(ns, k) != i
    decreases c - from
  {
    if Parent(ns, from) == i { first := from; } else { first := FirstOwned(ns, i, from + 1, c); }
  }

  /**
   * With the end marker as the arrays are built, a scan from a directory runs off the array
   * exactly when the directory is empty: the marker never stops it.
   */
  lemma ScanRunsOff(ns: Namespace, i: int, flags: Flags)
    requires Sound(ns) && ns[Count(ns)].crumb == MkCrumb(SENTINEL, SENTINEL, flags)
    requires 0 <= i < Count(ns) && IsDir(ns, i)
    ensures ScanDown(ns, i, i) == PastEnd <==> !HasChild(ns, i)
  {
    if HasChild(ns, i) {
      ScanFinds(ns, i);
    } else {
      SentinelUnseen(flags);
      assert Seated(ns, i) && Seated(ns, 0);
      forall k | i <= k < |ns| ensures Parent(ns, k) != i {
        if 1 <= k < Count(ns) { assert Seated(ns, k) && (k == i || !IsChild(ns, k, i)); }
      }
      ScanSkips(ns, i, i, |ns|);
    }
  }

  /** A sound namespace with an empty directory, from which the scan runs off the array. */
  lemma EmptyDirRunsOff()
    ensures var dir := Flags(true, false, true); var none := Flags(false, false, true);
      var ns := [Entry(".", MkCrumb(SENTINEL, 0, dir), 0, ""), Entry("empty", MkCrumb(0, 1, dir), 0, ""),
                 Entry("", MkCrumb(SENTINEL, SENTINEL, none), 0, "")];
      Sound(ns) && IsDir(ns, 1) && !HasChild(ns, 1) && ScanDown(ns, 1, 1) == PastEnd
  {
    var dir, none := Flags(true, false, true), Flags(false, false, true);
    var ns := [Entry(".", MkCrumb(SENTINEL, 0, dir), 0, ""), Entry("empty", MkCrumb(0, 1, dir), 0, ""),
               Entry("", MkCrumb(SENTINEL, SENTINEL, none), 0, "")];
    SentinelUnseen(none);
    CrumbIndices(0xfff, 0, dir);
    CrumbIndices(0, 1, dir);
    assert MkCrumb(SENTINEL, 0, dir) == MkCrumb(0xfff, 0, dir);
    assert Parent(ns, 0) == 0xfff && Parent(ns, 1) == 0 && Parent(ns, 2) == 0xfff;
    assert Seated(ns, 0) && Seated(ns, 1);
    ScanRunsOff(ns, 1, none);
  }

  /** Looks from the entry named by `crumb` in one direction. */
  method GetNodeInfo(crumb: Crumb, ns: Namespace, d: Direction) returns (info: Option<Entry>, errno: Errno)
    requires Sound(ns) && At(ns, crumb, SelfOf(crumb))
    requires d == WalkPrev ==> SelfOf(crumb) > 0
    requires d == WalkDown && crumb.flags.isDir ==> HasChild(ns, SelfOf(crumb))
    requires d == WalkNext && SelfOf(crumb) == 0 ==> 1 < Count(ns)
    ensures info.Some? ==>
              var j := SelfOf(info.value.crumb); 0 <= j < Count(ns) && info.value == ns[j] && Leads(ns, SelfOf(crumb), d, j)
    ensures info.Some? <==> errno == EOK
    ensures errno != EINVAL
    ensures info == None && d == WalkNext && SelfOf(crumb) > 0 ==>
              forall k :: IsChild(ns, k, Parent(ns, SelfOf(crumb))) ==> k <= SelfOf(crumb)
    ensures info == None ==> forall j :: !Leads(ns, SelfOf(crumb), d, j)
    ensures errno == ENOTDIR <==> d == WalkDown && !crumb.flags.isDir
    ensures errno == ENOENT ==> (d == WalkPrev || d == WalkNext) && info == None
  {
    hide Sound;
    forall j | 0 <= j < Count(ns) ensures SelfOf(ns[j].crumb) == j {
      SeatedAt(ns, j);
    }
    var parentIdx := ParentOf(crumb);
    var selfIdx := SelfOf(crumb);
    errno := EOK;
    StepFacts(ns, selfIdx);
    match d
    case WalkUp =>
      var sns := if selfIdx != 0 then ns[parentIdx] else ns[selfIdx];
      UpLands(ns, selfIdx);
      return Some(sns), EOK;
    case WalkDown =>
      if !crumb.flags.isDir {
        NoChildOfFile(ns, selfIdx);
        return None, ENOTDIR;
      }
      var i := FirstChild(ns, selfIdx);
      return Some(ns[i]), EOK;
    case WalkPrev =>
      PrevSibling(ns, selfIdx);
      var sns := ns[selfIdx - 1];
      if parentIdx != ParentOf(sns.crumb) { return None, ENOENT; }
      return Some(sns), EOK;
    case WalkNext =>
      NextSibling(ns, selfIdx);
      var sns := ns[selfIdx + 1];
      if parentIdx != ParentOf(sns.crumb) { return None, ENOENT; }
      return Some(sns), EOK;
    case WalkSelf =>
      return Some(ns[selfIdx]), EOK;
  }

  lemma StepFacts(ns: Namespace, i: int)
    requires Sound(ns) && 0 <= i < Count(ns)
    ensures i > 0 ==> 0 <= Parent(ns, i) < i
    ensures |ns| >= 2
  {
    SeatedAt(ns, i);
  }

  lemma UpLands(ns: Namespace, i: int)
    requires Sound(ns) && 0 <= i < Count(ns)
    ensures var j := if i == 0 then 0 else Parent(ns, i); 0 <= j < Count(ns) && Leads(ns, i, WalkUp, j) && At(ns, ns[j].crumb, j)
  {
    SeatedAt(ns, i);
  }

  lemma NoChildOfFile(ns: Namespace, i: int)
    requires Sound(ns) && 0 <= i < Count(ns) && !IsDir(ns, i)
    ensures forall j :: !Leads(ns, i, WalkDown, j)
  {
    forall j ensures !IsChild(ns, j, i) {
      if 1 <= j < Count(ns) { SeatedAt(ns, j); }
    }
  }

  /** The downward scan: from the directory itself to the first entry whose parent it is. */
  method FirstChild(ns: Namespace, selfIdx: int) returns (i: int)
    requires Sound(ns) && 0 <= selfIdx < Count(ns) && IsDir(ns, selfIdx) && HasChild(ns, selfIdx)
    ensures Leads(ns, selfIdx, WalkDown, i) && ScanDown(ns, selfIdx, selfIdx) == ChildAt(i)
  {
    SeatedAt(ns, selfIdx);
    SeatedAt(ns, 0);
    ghost var c :| selfIdx < c && IsChild(ns, c, selfIdx);
    i := selfIdx;
    while true
      invariant selfIdx <= i <= c && ScanDown(ns, selfIdx, selfIdx) == ScanDown(ns, selfIdx, i)
      invariant forall k :: selfIdx <= k < i ==> Parent(ns, k) != selfIdx
      decreases c - i
    {
      if ParentOf(ns[i].crumb) == selfIdx {
        break;
      }
      if IsSentinel(ns[i].crumb) { assert false; }
      i := i + 1;
    }
    forall k | IsChild(ns, k, selfIdx) ensures i <= k {
      SeatedAt(ns, k);
    }
    assert i > 0;
  }
}
