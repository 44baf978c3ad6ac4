/** Listing a directory through a buffer, a read at a time. */
module ReadDir {
  import opened Options
  import opened StaticNamespace
  import CharBufs

  // ----- a directory's names

  function ChildrenFrom(ns: Namespace, i: int, from: int): (cs: seq<int>)
    requires 1 <= from
    ensures forall k :: 0 <= k < |cs| ==> from <= cs[k] < Count(ns) && Parent(ns, cs[k]) == i
    decreases |ns| - from
  {
    if from >= Count(ns) then []
    else (if Parent(ns, from) == i then [from] else []) + ChildrenFrom(ns, i, from + 1)
  }

  function NamesOf(ns: Namespace, cs: seq<int>): (names: seq<string>)
    requires forall k :: 0 <= k < |cs| ==> 0 <= cs[k] < |ns|
    ensures |names| == |cs| && forall k :: 0 <= k < |cs| ==> names[k] == ns[cs[k]].name
  {
    if cs == [] then [] else [ns[cs[0]].name] + NamesOf(ns, cs[1..])
  }

  /** The names of all children of entry `i`, in order. */
  function ChildNames(ns: Namespace, i: int): seq<string> {
    NamesOf(ns, ChildrenFrom(ns, i, 1))
  }

  predicate Ascending(cs: seq<int>) {
    forall j, k :: 0 <= j < k < |cs| ==> cs[j] < cs[k]
  }

  lemma {:induction false} ChildrenAscend(ns: Namespace, i: int, from: int)
    requires 1 <= from
    ensures Ascending(ChildrenFrom(ns, i, from))
    decreases |ns| - from
  {
    if from < Count(ns) {
      ChildrenAscend(ns, i, from + 1);
      var rest := ChildrenFrom(ns, i, from + 1);
      hide Parent, ParentOf;
      assert [] + rest == rest;
      PrependAscends(from, rest);
    }
  }

  lemma PrependAscends(x: int, rest: seq<int>)
    requires Ascending(rest) && forall k :: 0 <= k < |rest| ==> x < rest[k]
    ensures Ascending([x] + rest)
  {
    var cs := [x] + rest;
    forall j, k | 0 <= j < k < |cs| ensures cs[j] < cs[k] {
      assert cs[k] == rest[k - 1];
      if j > 0 { assert cs[j] == rest[j - 1]; }
    }
  }

  lemma {:induction false} NoChildMissed(ns: Namespace, i: int, from: int, c: int)
    requires 1 <= from <= c && IsChild(ns, c, i)
    ensures c in ChildrenFrom(ns, i, from)
    decreases |ns| - from
  {
    if from < c { NoChildMissed(ns, i, from + 1, c); }
  }

  /** Each child is listed once, in array order. */
  lemma EachChildOnce(ns: Namespace, i: int, from: int)
    requires 1 <= from
    ensures var cs := ChildrenFrom(ns, i, from);
      && (forall j, k :: 0 <= j < k < |cs| ==> cs[j] < cs[k])
      && (forall c :: from <= c && IsChild(ns, c, i) ==> c in cs)
  {
    ChildrenAscend(ns, i, from);
    forall c | from <= c && IsChild(ns, c, i) ensures c in ChildrenFrom(ns, i, from) {
      NoChildMissed(ns, i, from, c);
    }
  }

  lemma {:induction false} SkipToChild(ns: Namespace, i: int, from: int, next: int)
    requires 1 <= from <= next <= Count(ns) && forall c :: from <= c < next ==> !IsChild(ns, c, i)
    ensures ChildrenFrom(ns, i, from) == ChildrenFrom(ns, i, next)
    decreases next - from
  {
    if from < next {
      assert !IsChild(ns, from, i);
      SkipToChild(ns, i, from + 1, next);
    }
  }

  // ----- a buffer of names

  function Pack(names: seq<string>): string {
    if names == [] then "" else names[0] + [CharBufs.NUL] + Pack(names[1..])
  }

  lemma {:induction false} PackAppend(names: seq<string>, name: string)
    ensures Pack(names + [name]) == Pack(names) + name + [CharBufs.NUL]
    decreases |names|
  {
    if names == [] {
      assert names + [name] == [name] && [name][1..] == [];
    } else {
      assert (names + [name])[1..] == names[1..] + [name];
      PackAppend(names[1..], name);
    }
  }

  /** The first `n` C strings of a buffer. */
  function Unpack(s: string, n: nat): seq<string>
    decreases n
  {
    if n == 0 || s == [] then []
    else
      var name := CharBufs.CString(s);
      [name] + (if |name| < |s| then Unpack(s[|name| + 1..], n - 1) else [])
  }

  /** A reader of the buffer gets the names back. */
  lemma {:induction false} UnpackPack(names: seq<string>, rest: string)
    requires forall k :: 0 <= k < |names| ==> CharBufs.NUL !in names[k]
    ensures Unpack(Pack(names) + rest, |names|) == names
    decreases |names|
  {
    if names != [] {
      var more := Pack(names[1..]) + rest;
      assert Pack(names) + rest == names[0] + [CharBufs.NUL] + more;
      UnpackFirst(names[0], more, |names| - 1);
      UnpackPack(names[1..], rest);
    }
  }

  lemma UnpackFirst(name: string, more: string, n: nat)
    requires CharBufs.NUL !in name
    ensures Unpack(name + [CharBufs.NUL] + more, n + 1) == [name] + Unpack(more, n)
  {
    var s := name + [CharBufs.NUL] + more;
    assert s[|name|] == CharBufs.NUL && s[..|name|] == name && s[|name| + 1..] == more;
    CharBufs.CStringIs(s, |name|);
  }

  /** How many names one read delivers: after the skipped ones, as long as they fit. */
  function Taken(names: seq<string>, skip: nat, bytes: nat): nat
    decreases |names|
  {
    if names == [] || bytes < |names[0]| + 1 then 0
    else if skip > 0 then Taken(names[1..], skip - 1, bytes)
    else 1 + Taken(names[1..], 0, bytes - (|names[0]| + 1))
  }

  lemma {:induction false} TakenInside(names: seq<string>, skip: nat, bytes: nat)
    ensures var t := Taken(names, skip, bytes);
      t > 0 ==> skip + t <= |names| && |Pack(names[skip..][..t])| <= bytes
    decreases |names|
  {
    if names != [] && |names[0]| + 1 <= bytes {
      if skip > 0 {
        TakenInside(names[1..], skip - 1, bytes);
        if skip <= |names| { assert names[1..][skip - 1..] == names[skip..]; }
      } else {
        TakenInside(names[1..], 0, bytes - (|names[0]| + 1));
        var t := Taken(names[1..], 0, bytes - (|names[0]| + 1));
        assert names[0..] == names && names[1..][0..] == names[1..];
        if t == 0 {
          assert names[..1] == [names[0]] && [names[0]][1..] == [];
        } else {
          assert names[..1 + t][1..] == names[1..][..t];
        }
      }
    }
  }

  /** A buffer that holds the longest name makes every read before the end progress. */
  lemma {:induction false} TakenProgress(names: seq<string>, skip: nat, bytes: nat)
    requires forall k :: 0 <= k < |names| ==> |names[k]| + 1 <= bytes
    ensures Taken(names, skip, bytes) > 0 <==> skip < |names|
    decreases |names|
  {
    if names != [] && skip > 0 {
      TakenProgress(names[1..], skip - 1, bytes);
    }
  }

  /** The bytes that names take up, each with its NUL. */
  function Room(names: seq<string>): nat {
    if names == [] then 0 else |names[0]| + 1 + Room(names[1..])
  }

  lemma {:induction false} PackRoom(names: seq<string>)
    ensures |Pack(names)| == Room(names)
    decreases |names|
  {
    if names != [] { PackRoom(names[1..]); }
  }

  /** There are enough names to skip, and each of them alone would fit. */
  predicate Skippable(names: seq<string>, skip: nat, bytes: nat) {
    skip <= |names| && forall k :: 0 <= k < skip ==> |names[k]| + 1 <= bytes
  }

  lemma {:induction false} TakenSkips(names: seq<string>, skip: nat, bytes: nat)
    ensures Taken(names, skip, bytes) == if Skippable(names, skip, bytes) then Taken(names[skip..], 0, bytes) else 0
    decreases |names|
  {
    if names != [] && skip > 0 {
      TakenSkips(names[1..], skip - 1, bytes);
      assert Skippable(names, skip, bytes) <==> |names[0]| + 1 <= bytes && Skippable(names[1..], skip - 1, bytes) by {
        assert forall k :: 0 < k < |names| ==> names[k] == names[1..][k - 1];
        forall k | 0 <= k < skip - 1 && skip <= |names| && Skippable(names, skip, bytes) ensures |names[1..][k]| + 1 <= bytes {
          assert names[1..][k] == names[k + 1];
        }
      }
      if skip <= |names| { assert names[1..][skip - 1..] == names[skip..]; }
    } else if skip == 0 {
      assert names[0..] == names;
    }
  }

  lemma {:induction false} TakenFits(names: seq<string>, bytes: nat)
    ensures var t := Taken(names, 0, bytes);
      t <= |names| && Room(names[..t]) <= bytes && (t < |names| ==> bytes < Room(names[..t + 1]))
    decreases |names|
  {
    if names != [] {
      if |names[0]| + 1 <= bytes {
        TakenFits(names[1..], bytes - (|names[0]| + 1));
        RoomStep(names, Taken(names[1..], 0, bytes - (|names[0]| + 1)));
      } else {
        RoomStep(names, 0);
      }
    }
  }

  lemma RoomStep(names: seq<string>, t: nat)
    requires t < |names|
    ensures Room(names[..t + 1]) == |names[0]| + 1 + Room(names[1..][..t])
    ensures t + 1 < |names| ==> Room(names[..t + 2]) == |names[0]| + 1 + Room(names[1..][..t + 1])
  {
    assert names[..t + 1][1..] == names[1..][..t];
    if t + 1 < |names| { assert names[..t + 2][1..] == names[1..][..t + 1]; }
  }

  /** A read takes as many names, behind those skipped, as there is room for; none when a skipped name alone would not fit. */
  lemma TakenMost(names: seq<string>, skip: nat, bytes: nat)
    ensures var t := Taken(names, skip, bytes);
      if Skippable(names, skip, bytes) then
        && skip + t <= |names| && |Pack(names[skip..][..t])| <= bytes
        && (skip + t < |names| ==> bytes < |Pack(names[skip..][..t + 1])|)
      else t == 0
  {
    TakenSkips(names, skip, bytes);
    if Skippable(names, skip, bytes) {
      var t := Taken(names, skip, bytes);
      TakenFits(names[skip..], bytes);
      PackRoom(names[skip..][..t]);
      if skip + t < |names| { PackRoom(names[skip..][..t + 1]); }
    }
  }

  /** A portal as reading needs it. */
  class OpenDir {
    var crumb: Crumb
    var offset: nat

    constructor (c: Crumb)
      ensures crumb == c && offset == 0
    {
      crumb := c;
      offset := 0;
    }
  }

  /**
   * One read of a directory: skips `offset` entries, then copies as many whole names,
   * each with its NUL, as fit; the portal's offset moves on by their number.
   */
  method ReadStaticNS(p: OpenDir, ns: Namespace, buf: array<char>, size: nat, offset: nat) returns (entries: nat)
    requires WellFormed(ns) && At(ns, p.crumb, SelfOf(p.crumb)) && p.crumb.flags.isDir
    requires size <= buf.Length
    modifies p`offset, buf
    ensures var names := ChildNames(ns, SelfOf(p.crumb));
      && entries == Taken(names, offset, size)
      && (entries > 0 ==> offset + entries <= |names|)
      && var text := if entries == 0 then "" else Pack(names[offset..][..entries]);
         |text| <= size && buf[..] == text + old(buf[..])[|text|..]
    ensures p.offset == old(p.offset) + entries
  {
    hide WellFormed, ChildrenFrom, NamesOf, Taken, Pack, ChildNames, Leads, SelfOf, ParentOf, Parent;
    entries := 0;
    ghost var self := SelfOf(p.crumb);
    ghost var names := ChildNames(ns, self);
    TakenInside(names, offset, size);
    if size == 0 {
      TakenNothing(names, offset);
      return;
    }
    var nix := FirstOf(p.crumb, ns);
    ghost var j := SelfOf(nix.value.crumb);
    var bytes: nat := size;
    var c: nat := 0;
    var skip: nat := offset;
    ghost var seen := 0;
    ghost var buf0 := buf[..];
    PackNothing(names, offset);
    while nix.Some? && bytes != 0 && |nix.value.name| + 1 <= bytes
      invariant seen <= |names| && 1 <= j <= Count(ns)
      invariant NamesOf(ns, ChildrenFrom(ns, self, j)) == names[seen..]
      invariant nix.Some? ==> nix.value == ns[j] && j < Count(ns) && SelfOf(ns[j].crumb) == j && IsChild(ns, j, self)
      invariant nix.None? ==> j == Count(ns)
      invariant skip > 0 ==> entries == 0 && skip + seen == offset && c == 0
      invariant skip == 0 ==> offset + entries == seen
      invariant Taken(names, offset, size) == entries + Taken(names[seen..], skip, bytes)
      invariant c + bytes == size && p.offset == old(p.offset)
      invariant entries == 0 ==> c == 0
      invariant skip == 0 ==> buf[..c] == Pack(names[offset..seen])
      invariant buf[c..] == buf0[c..]
      decreases Count(ns) - j
    {
      var info := nix.value;
      OneMore(ns, self, j, names, seen, skip, bytes);
      if skip > 0 {
        skip := skip - 1;
        PackNothing(names, offset);
      } else {
        c := CopyNext(buf, c, info.name, names, offset, seen, buf0);
        bytes := bytes - (|info.name| + 1);
        entries := entries + 1;
      }
      nix := NextOf(info.crumb, ns, self);
      j := if nix.Some? then SelfOf(nix.value.crumb) else Count(ns);
      seen := seen + 1;
    }
    AllTaken(ns, self, j, nix, names[seen..], skip, bytes);
    ReadDone(names, offset, entries, seen, c, buf[..], buf0);
    p.offset := p.offset + entries;
  }

  /** Copies one more name behind those already in the buffer. */
  method CopyNext(buf: array<char>, c: nat, name: string, ghost names: seq<string>, ghost offset: nat, ghost seen: nat, ghost buf0: string)
    returns (c': nat)
    requires offset <= seen < |names| && names[seen] == name && c + |name| + 1 <= buf.Length == |buf0|
    requires buf[..c] == Pack(names[offset..seen]) && buf[c..] == buf0[c..]
    modifies buf
    ensures c' == c + |name| + 1 && buf[..c'] == Pack(names[offset..seen + 1]) && buf[c'..] == buf0[c'..]
  {
    PackStep(names, offset, seen);
    hide Pack;
    c' := CopyName(buf, c, name);
    assert forall k :: c' <= k < buf.Length ==> buf0[k] == buf0[c..][k - c];
  }

  /** The first child of a directory. */
  method FirstOf(crumb: Crumb, ns: Namespace) returns (nix: Option<Entry>)
    requires WellFormed(ns) && At(ns, crumb, SelfOf(crumb)) && crumb.flags.isDir
    ensures nix.Some? && var j := SelfOf(nix.value.crumb);
      0 <= j < Count(ns) && nix.value == ns[j] && IsChild(ns, j, SelfOf(crumb)) &&
      NamesOf(ns, ChildrenFrom(ns, SelfOf(crumb), j)) == ChildNames(ns, SelfOf(crumb))
  {
    WellFormedMeans(ns);
    hide WellFormed, Sound;
    var errno;
    nix, errno := GetNodeInfo(crumb, ns, WalkDown);
    SkipToChild(ns, SelfOf(crumb), 1, SelfOf(nix.value.crumb));
  }

  /** The child after this one. */
  method NextOf(crumb: Crumb, ns: Namespace, ghost i: int) returns (nix: Option<Entry>)
    requires WellFormed(ns) && At(ns, crumb, SelfOf(crumb)) && IsChild(ns, SelfOf(crumb), i)
    ensures var j := if nix.Some? then SelfOf(nix.value.crumb) else Count(ns);
      && SelfOf(crumb) < j <= Count(ns) && ChildrenFrom(ns, i, SelfOf(crumb) + 1) == ChildrenFrom(ns, i, j)
      && (nix.Some? ==> j < Count(ns) && nix.value == ns[j] && IsChild(ns, j, i))
  {
    WellFormedMeans(ns);
    hide WellFormed, Sound, ChildrenFrom;
    var errno;
    nix, errno := GetNodeInfo(crumb, ns, WalkNext);
    SkipToChild(ns, i, SelfOf(crumb) + 1, if nix.Some? then SelfOf(nix.value.crumb) else Count(ns));
  }

  lemma HeadName(ns: Namespace, i: int, j: int, names: seq<string>)
    requires 1 <= j < Count(ns) && IsChild(ns, j, i) && NamesOf(ns, ChildrenFrom(ns, i, j)) == names
    ensures names != [] && names[0] == ns[j].name
  {
  }

  /** What one more child means for the names still to come. */
  lemma OneMore(ns: Namespace, i: int, j: int, names: seq<string>, seen: nat, skip: nat, bytes: nat)
    requires 1 <= j < Count(ns) && IsChild(ns, j, i) && seen <= |names|
    requires NamesOf(ns, ChildrenFrom(ns, i, j)) == names[seen..] && |ns[j].name| + 1 <= bytes
    ensures seen < |names| && names[seen] == ns[j].name && NamesOf(ns, ChildrenFrom(ns, i, j + 1)) == names[seen + 1..]
    ensures Taken(names[seen..], skip, bytes) ==
            if skip > 0 then Taken(names[seen + 1..], skip - 1, bytes)
            else 1 + Taken(names[seen + 1..], 0, bytes - (|ns[j].name| + 1))
  {
    var cs := ChildrenFrom(ns, i, j + 1);
    assert ChildrenFrom(ns, i, j) == [j] + cs;
    assert ([j] + cs)[1..] == cs;
    assert names[seen..] == [ns[j].name] + NamesOf(ns, cs);
    assert names[seen..][0] == names[seen] && names[seen..][1..] == names[seen + 1..];
  }

  lemma NoneFromEnd(ns: Namespace, i: int)
    requires 2 <= |ns|
    ensures ChildrenFrom(ns, i, Count(ns)) == [] && NamesOf(ns, []) == []
  {
  }

  /** Where the loop stops, nothing more is taken. */
  lemma AllTaken(ns: Namespace, i: int, j: int, nix: Option<Entry>, names: seq<string>, skip: nat, bytes: nat)
    requires 2 <= |ns| && 1 <= j <= Count(ns) && NamesOf(ns, ChildrenFrom(ns, i, j)) == names
    requires nix.Some? ==> j < Count(ns) && nix.value == ns[j] && IsChild(ns, j, i) && bytes < |nix.value.name| + 1
    requires nix.None? ==> j == Count(ns)
    ensures Taken(names, skip, bytes) == 0
  {
    hide NamesOf, ChildrenFrom, Taken, IsChild;
    if nix.Some? { HeadName(ns, i, j, names); } else { NoneFromEnd(ns, i); }
    TakenStops(names, skip, bytes, if nix.Some? then nix.value.name else "");
  }

  lemma TakenNothing(names: seq<string>, skip: nat)
    ensures Taken(names, skip, 0) == 0
  {
  }

  lemma TakenStops(names: seq<string>, skip: nat, bytes: nat, name: string)
    requires names == [] || (names[0] == name && bytes < |name| + 1)
    ensures Taken(names, skip, bytes) == 0
  {
  }

  lemma PackNothing(names: seq<string>, offset: nat)
    ensures offset <= |names| ==> Pack(names[offset..offset]) == ""
  {
  }

  lemma PackStep(names: seq<string>, offset: nat, seen: nat)
    requires offset <= seen < |names|
    ensures Pack(names[offset..seen + 1]) == Pack(names[offset..seen]) + names[seen] + [CharBufs.NUL]
    ensures offset == seen ==> Pack(names[offset..seen]) == ""
  {
    PackAppend(names[offset..seen], names[seen]);
    assert names[offset..seen] + [names[seen]] == names[offset..seen + 1];
  }

  /** `memcpy` of a name and its terminator. */
  method CopyName(buf: array<char>, c: nat, name: string) returns (c': nat)
    requires c + |name| + 1 <= buf.Length
    modifies buf
    ensures c' == c + |name| + 1
    ensures buf[..c'] == old(buf[..c]) + name + [CharBufs.NUL] && buf[c'..] == old(buf[..])[c'..]
  {
    CharBufs.CopyIn(buf, c, name);
    assert buf[..c + |name|] == buf[..c] + buf[c..c + |name|];
    buf[c + |name|] := CharBufs.NUL;
    c' := c + |name| + 1;
    assert buf[..c'] == buf[..c + |name|] + [CharBufs.NUL];
  }

  lemma ReadDone(names: seq<string>, offset: nat, entries: nat, seen: nat, c: nat, buf: string, buf0: string)
    requires entries > 0 ==> offset + entries == seen && seen <= |names|
    requires c <= |buf| == |buf0| && buf[c..] == buf0[c..]
    requires buf[..c] == if entries == 0 then "" else Pack(names[offset..seen])
    ensures var text := if entries == 0 then "" else Pack(names[offset..][..entries]);
      |text| == c && buf == text + buf0[|text|..]
  {
    if entries > 0 { assert names[offset..][..entries] == names[offset..seen]; }
    assert buf == buf[..c] + buf[c..];
  }

  /**
   * Reading again and again with the portal's own offset lists every child once, in
   * order, and then nothing, for any buffer that holds the longest name.
   */
  method ListDirectory(p: OpenDir, ns: Namespace, size: nat) returns (listing: seq<string>)
    requires WellFormed(ns) && At(ns, p.crumb, SelfOf(p.crumb)) && p.crumb.flags.isDir && p.offset == 0
    requires forall k :: 0 <= k < |ChildNames(ns, SelfOf(p.crumb))| ==> |ChildNames(ns, SelfOf(p.crumb))[k]| + 1 <= size
    modifies p`offset
    ensures listing == ChildNames(ns, SelfOf(p.crumb)) && p.offset == |listing|
    ensures Taken(listing, p.offset, size) == 0
  {
    hide WellFormed, Taken, ChildNames, Unpack;
    ghost var names := ChildNames(ns, SelfOf(p.crumb));
    CleanNames(ns, SelfOf(p.crumb));
    listing := [];
    assert names[..0] == [];
    var entries: nat := 1;
    while entries > 0
      invariant p.offset <= |names| && listing == names[..p.offset]
      invariant entries == 0 ==> p.offset == |names|
      decreases |names| - p.offset, entries
    {
      TakenProgress(names, p.offset, size);
      ghost var from := p.offset;
      var some := ReadOnce(p, ns, size);
      entries := |some|;
      listing := listing + some;
      assert entries > 0 ==> names[..from] + names[from..][..entries] == names[..from + entries];
    }
    TakenProgress(names, p.offset, size);
    assert listing == names[..|names|] == names;
  }

  /** One read at the portal's own offset, and what a reader of the buffer sees. */
  method ReadOnce(p: OpenDir, ns: Namespace, size: nat) returns (some: seq<string>)
    requires WellFormed(ns) && At(ns, p.crumb, SelfOf(p.crumb)) && p.crumb.flags.isDir
    modifies p`offset
    ensures var names := ChildNames(ns, SelfOf(p.crumb)); var from := old(p.offset);
      && |some| == Taken(names, from, size) && p.offset == from + |some|
      && (|some| > 0 ==> p.offset <= |names| && some == names[from..][..|some|])
  {
    hide WellFormed, Taken, ChildNames, Unpack, Pack;
    ghost var names := ChildNames(ns, SelfOf(p.crumb));
    CleanNames(ns, SelfOf(p.crumb));
    var buf := new char[size](_ => CharBufs.NUL);
    ghost var from := p.offset;
    var entries := ReadStaticNS(p, ns, buf, size, p.offset);
    if entries == 0 { return []; }
    ghost var want := names[from..][..entries];
    UnpackPack(want, buf[..][|Pack(want)|..]);
    some := Unpack(buf[..], entries);
  }

  lemma CleanNames(ns: Namespace, i: int)
    requires WellFormed(ns)
    ensures forall k :: 0 <= k < |ChildNames(ns, i)| ==> CharBufs.NUL !in ChildNames(ns, i)[k]
  {
    var cs := ChildrenFrom(ns, i, 1);
    forall k | 0 <= k < |ChildNames(ns, i)| ensures CharBufs.NUL !in ChildNames(ns, i)[k] {
      assert ChildNames(ns, i)[k] == ns[cs[k]].name;
      PlacedAt(ns, cs[k]);
    }
  }
}
