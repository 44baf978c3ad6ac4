/** Resolving paths: inside one namespace, and across the devices mounted in it. */
module Walk {
  import opened Options
  import opened StaticNamespace

  // ----- what a path means in the tree

  predicate Named(ns: Namespace, c: int, i: int, name: string) {
    1 <= c < Count(ns) && Parent(ns, c) == i && ns[c].name == name
  }

  /** The first child of `i` with a given name, from entry `from` on. */
  function FindChild(ns: Namespace, i: int, name: string, from: int): Option<int>
    requires 1 <= from
    decreases |ns| - from
  {
    if from >= Count(ns) then None
    else if Named(ns, from, i, name) then Some(from)
    else FindChild(ns, i, name, from + 1)
  }

  /** One path element: only directories have any. */
  function Resolve(ns: Namespace, i: int, elem: string): Option<int>
    requires 0 <= i < Count(ns)
  {
    if !IsDir(ns, i) then None
    else if elem == "." then Some(i)
    else if elem == ".." then Some(if i == 0 then 0 else Parent(ns, i))
    else FindChild(ns, i, elem, 1)
  }

  lemma {:induction false} FindChildMeans(ns: Namespace, i: int, name: string, from: int)
    requires 1 <= from
    ensures var r := FindChild(ns, i, name, from);
      && (r.Some? ==> from <= r.value && Named(ns, r.value, i, name) && forall c :: from <= c < r.value ==> !Named(ns, c, i, name))
      && (r.None? ==> forall c :: from <= c ==> !Named(ns, c, i, name))
    decreases |ns| - from
  {
    if from < Count(ns) && !Named(ns, from, i, name) {
      FindChildMeans(ns, i, name, from + 1);
    }
  }

  lemma ResolveInside(ns: Namespace, i: int, elem: string)
    requires WellFormed(ns) && 0 <= i < Count(ns)
    ensures Resolve(ns, i, elem).Some? ==> 0 <= Resolve(ns, i, elem).value < Count(ns)
  {
    PlacedAt(ns, i);
    FindChildMeans(ns, i, elem, 1);
  }

  /** The nodes visited by the longest prefix of the path that resolves. */
  function Trail(ns: Namespace, i: int, path: seq<string>): (t: seq<int>)
    requires WellFormed(ns) && 0 <= i < Count(ns)
    ensures |t| <= |path| && forall k :: 0 <= k < |t| ==> 0 <= t[k] < Count(ns)
    decreases |path|
  {
    if path == [] then []
    else
      ResolveInside(ns, i, path[0]);
      match Resolve(ns, i, path[0])
      case None => []
      case Some(j) => [j] + Trail(ns, j, path[1..])
  }

  function Last(i: int, t: seq<int>): int { if t == [] then i else t[|t| - 1] }

  /** Each node of a trail is one element away from the one before, and the trail stops only where the next element fails. */
  lemma {:induction false} TrailMeans(ns: Namespace, i: int, path: seq<string>, k: nat)
    requires WellFormed(ns) && 0 <= i < Count(ns)
    ensures var t := Trail(ns, i, path);
      && (k < |t| ==> Resolve(ns, if k == 0 then i else t[k - 1], path[k]) == Some(t[k]))
      && (|t| < |path| ==> Resolve(ns, Last(i, t), path[|t|]) == None)
    decreases |path|
  {
    if path != [] {
      ResolveInside(ns, i, path[0]);
      var r := Resolve(ns, i, path[0]);
      if r.Some? {
        TrailMeans(ns, r.value, path[1..], if k == 0 then 0 else k - 1);
        var t := Trail(ns, r.value, path[1..]);
        assert Trail(ns, i, path) == [r.value] + t;
      }
    }
  }

  /** One element leads from a directory to: itself, its parent, or its first child of that name. */
  ghost predicate Goes(ns: Namespace, i: int, elem: string, j: int)
    requires 0 <= i < Count(ns)
  {
    && IsDir(ns, i)
    && (elem == "." ==> Leads(ns, i, WalkSelf, j))
    && (elem == ".." ==> Leads(ns, i, WalkUp, j))
    && (elem != "." && elem != ".." ==>
          IsChild(ns, j, i) && ns[j].name == elem && forall c :: IsChild(ns, c, i) && ns[c].name == elem ==> j <= c)
  }

  /** An element fails: at a file, or at a directory none of whose children has that name. */
  ghost predicate Fails(ns: Namespace, i: int, elem: string)
    requires 0 <= i < Count(ns)
  {
    !IsDir(ns, i) || (elem != "." && elem != ".." && forall c :: IsChild(ns, c, i) ==> ns[c].name != elem)
  }

  lemma ResolveMeans(ns: Namespace, i: int, elem: string)
    requires WellFormed(ns) && 0 <= i < Count(ns)
    ensures match Resolve(ns, i, elem)
      case Some(j) => 0 <= j < Count(ns) && Goes(ns, i, elem, j) && !Fails(ns, i, elem)
      case None => Fails(ns, i, elem)
  {
    ResolveInside(ns, i, elem);
    FindChildMeans(ns, i, elem, 1);
    forall c | IsChild(ns, c, i) && ns[c].name == elem ensures Named(ns, c, i, elem) {}
  }

  /** The crumbs of a walk: each names the entry that its element leads to, and they end only where an element fails. */
  ghost predicate Follows(ns: Namespace, i: int, path: seq<string>, crumbs: seq<Crumb>) {
    && |crumbs| <= |path|
    && (forall k :: 0 <= k <= |crumbs| ==> 0 <= NodeAfter(i, crumbs, k) < Count(ns))
    && (forall k :: 0 <= k < |crumbs| ==>
          At(ns, crumbs[k], SelfOf(crumbs[k])) && Goes(ns, NodeAfter(i, crumbs, k), path[k], SelfOf(crumbs[k])))
    && (|crumbs| < |path| ==> Fails(ns, NodeAfter(i, crumbs, |crumbs|), path[|crumbs|]))
  }

  /** Where `k` elements of a walk from entry `i` lead, by the crumbs recorded. */
  function NodeAfter(i: int, crumbs: seq<Crumb>, k: int): int
    requires 0 <= k <= |crumbs|
  {
    if k == 0 then i else SelfOf(crumbs[k - 1])
  }

  lemma {:induction false} TrailFollows(ns: Namespace, i: int, path: seq<string>)
    requires WellFormed(ns) && 0 <= i < Count(ns)
    ensures Follows(ns, i, path, Crumbs(ns, Trail(ns, i, path)))
  {
    var t := Trail(ns, i, path);
    var cs := Crumbs(ns, t);
    forall k | 0 <= k < |cs| ensures SelfOf(cs[k]) == t[k] && At(ns, cs[k], t[k]) { PlacedAt(ns, t[k]); }
    hide Trail, Crumbs, WellFormed, SelfOf, Goes, Fails;
    forall k | 0 <= k < |cs| ensures Goes(ns, NodeAfter(i, cs, k), path[k], SelfOf(cs[k])) {
      TrailMeans(ns, i, path, k);
      ResolveMeans(ns, NodeAfter(i, cs, k), path[k]);
    }
    if |cs| < |path| {
      TrailMeans(ns, i, path, 0);
      ResolveMeans(ns, NodeAfter(i, cs, |cs|), path[|cs|]);
    }
  }

  /** Going down to a directory and up again comes back; up from the root stays at the root. */
  lemma DownThenUp(ns: Namespace, i: int, name: string)
    requires WellFormed(ns) && 0 <= i < Count(ns) && name != "." && name != ".."
    ensures Resolve(ns, 0, "..") == Some(0)
    ensures var r := Resolve(ns, i, name);
      r.Some? ==> 0 <= r.value < Count(ns) && (IsDir(ns, r.value) ==> Trail(ns, i, [name, ".."]) == [r.value, i])
  {
    ResolveInside(ns, i, name);
    FindChildMeans(ns, i, name, 1);
    var r := Resolve(ns, i, name);
    if r.Some? && IsDir(ns, r.value) {
      assert [name, ".."][1..] == [".."] && [".."][1..] == [];
      assert Resolve(ns, r.value, "..") == Some(i);
      assert Trail(ns, r.value, [".."]) == [i];
    }
  }

  // ----- the walk

  datatype WalkTrail = WalkTrail(max: nat, crumbs: seq<Crumb>)

  method PushCrumb(t: WalkTrail, c: Crumb) returns (t': WalkTrail)
    ensures t' == if |t.crumbs| >= t.max then t else t.(crumbs := t.crumbs + [c])
  {
    t' := t;
    if |t.crumbs| < t.max { t' := t.(crumbs := t.crumbs + [c]); }
  }

  function Crumbs(ns: Namespace, t: seq<int>): (cs: seq<Crumb>)
    requires forall k :: 0 <= k < |t| ==> 0 <= t[k] < |ns|
    ensures |cs| == |t| && forall k :: 0 <= k < |t| ==> cs[k] == ns[t[k]].crumb
  {
    if t == [] then [] else [ns[t[0]].crumb] + Crumbs(ns, t[1..])
  }

  /** Searches the children of the directory `crumb` for a name. */
  method FindName(crumb: Crumb, ns: Namespace, name: string) returns (r: Option<Crumb>)
    requires WellFormed(ns) && At(ns, crumb, SelfOf(crumb)) && crumb.flags.isDir
    ensures match FindChild(ns, SelfOf(crumb), name, 1)
      case None => r == None
      case Some(c) => 0 <= c < |ns| && r == Some(ns[c].crumb)
  {
    WellFormedMeans(ns);
    hide WellFormed, Sound;
    var self := SelfOf(crumb);
    FindChildMeans(ns, self, name, 1);
    var nix, errno := GetNodeInfo(crumb, ns, WalkDown);
    ghost var j := SelfOf(nix.value.crumb);
    forall c | 1 <= c < j ensures !Named(ns, c, self, name) {
      assert Named(ns, c, self, name) ==> IsChild(ns, c, self);
    }
    while nix.Some?
      invariant 1 <= j <= Count(ns)
      invariant nix.Some? ==> j < Count(ns) && nix.value == ns[j] && SelfOf(nix.value.crumb) == j && IsChild(ns, j, self)
      invariant nix.None? ==> j == Count(ns)
      invariant forall c :: 1 <= c < j ==> !Named(ns, c, self, name)
      decreases Count(ns) - j
    {
      var info := nix.value;
      if name == info.name {
        assert Named(ns, j, self, name);
        return Some(info.crumb);
      }
      nix, errno := GetNodeInfo(info.crumb, ns, WalkNext);
      ghost var next := if nix.Some? then SelfOf(nix.value.crumb) else Count(ns);
      forall c | j < c < next ensures !Named(ns, c, self, name) {
        assert Named(ns, c, self, name) ==> IsChild(ns, c, self);
      }
      j := next;
    }
    r := None;
  }

  /** Walks a path from a directory, recording the crumb of each node reached. */
  method GenericWalk(start: Crumb, ns: Namespace, path: seq<string>) returns (t: Option<WalkTrail>, errno: Errno)
    requires WellFormed(ns) && At(ns, start, SelfOf(start))
    ensures t.None? <==> path == [] || !start.flags.isDir
    ensures t.None? ==> errno == if path == [] then EINVAL else ENOTDIR
    ensures t.Some? ==> Follows(ns, SelfOf(start), path, t.value.crumbs)
    ensures t.Some? ==> t.value.max == |path| && t.value.crumbs == Crumbs(ns, Trail(ns, SelfOf(start), path))
    ensures t.Some? ==> var end := Last(SelfOf(start), Trail(ns, SelfOf(start), path));
      0 <= end < Count(ns) && errno == if |t.value.crumbs| == |path| then EOK else if IsDir(ns, end) then ENOENT else ENOTDIR
  {
    hide Follows, WellFormed, Trail, Crumbs, Resolve, SelfOf, ParentOf, Parent;
    TrailFollows(ns, SelfOf(start), path);
    errno := EOK;
    if path == [] { return None, EINVAL; }
    if !start.flags.isDir { return None, ENOTDIR; }
    var px := start;
    var trail := WalkTrail(|path|, []);
    ghost var at := SelfOf(start);
    ghost var done: seq<int> := [];
    assert path[0..] == path;
    NoTrail(ns, at);
    assert done + Trail(ns, at, path) == Trail(ns, at, path);
    for i := 0 to |path|
      invariant At(ns, px, at) && SelfOf(px) == at && at == Last(SelfOf(start), done) && errno == EOK
      invariant |done| == i && (forall k :: 0 <= k < |done| ==> 0 <= done[k] < Count(ns))
      invariant trail == WalkTrail(|path|, Crumbs(ns, done))
      invariant Trail(ns, SelfOf(start), path) == done + Trail(ns, at, path[i..])
    {
      TrailStep(ns, at, path, i);
      if !px.flags.isDir {
        OnlyFromDir(ns, at, path[i]);
        assert done + Trail(ns, at, path[i..]) == done;
        errno := ENOTDIR;
        return Some(trail), errno;
      }
      var name := path[i];
      var next := WalkElem(px, ns, name);
      if next.None? {
        assert done + Trail(ns, at, path[i..]) == done;
        return Some(trail), ENOENT;
      }
      px := next.value;
      ghost var j := Resolve(ns, at, name).value;
      trail := PushCrumb(trail, px);
      CrumbsPush(ns, done, j);
      assert done + ([j] + Trail(ns, j, path[i + 1..])) == (done + [j]) + Trail(ns, j, path[i + 1..]);
      done := done + [j];
      at := j;
    }
    NoTrail(ns, at);
    assert path[|path|..] == [];
    assert done + [] == done;
    t := Some(trail);
  }

  lemma OnlyFromDir(ns: Namespace, i: int, elem: string)
    requires 0 <= i < Count(ns) && !IsDir(ns, i)
    ensures Resolve(ns, i, elem) == None
  {
  }

  lemma NoTrail(ns: Namespace, i: int)
    requires WellFormed(ns) && 0 <= i < Count(ns)
    ensures Trail(ns, i, []) == [] && Crumbs(ns, []) == []
  {
  }

  /** One element of the walk: the node itself, its parent, or a named child. */
  method WalkElem(px: Crumb, ns: Namespace, name: string) returns (next: Option<Crumb>)
    requires WellFormed(ns) && At(ns, px, SelfOf(px)) && px.flags.isDir
    ensures match Resolve(ns, SelfOf(px), name)
      case None => next == None
      case Some(j) => 0 <= j < Count(ns) && next == Some(ns[j].crumb) && SelfOf(ns[j].crumb) == j
  {
    WellFormedMeans(ns);
    hide WellFormed, Sound;
    ResolveInside(ns, SelfOf(px), name);
    if name == "." {
      var ni, _ := GetNodeInfo(px, ns, WalkSelf);
      return Some(ni.value.crumb);
    } else if name == ".." {
      var ni, _ := GetNodeInfo(px, ns, WalkUp);
      return Some(ni.value.crumb);
    }
    next := FindName(px, ns, name);
    var r := FindChild(ns, SelfOf(px), name, 1);
    if r.Some? { PlacedAt(ns, r.value); }
  }

  lemma TrailStep(ns: Namespace, at: int, path: seq<string>, i: nat)
    requires WellFormed(ns) && 0 <= at < Count(ns) && i < |path|
    ensures match Resolve(ns, at, path[i])
      case None => Trail(ns, at, path[i..]) == []
      case Some(j) => 0 <= j < Count(ns) && Trail(ns, at, path[i..]) == [j] + Trail(ns, j, path[i + 1..])
  {
    assert path[i..][1..] == path[i + 1..];
    ResolveInside(ns, at, path[i]);
  }

  lemma {:induction false} CrumbsPush(ns: Namespace, t: seq<int>, j: int)
    requires forall k :: 0 <= k < |t| ==> 0 <= t[k] < |ns|
    requires 0 <= j < |ns|
    ensures Crumbs(ns, t + [j]) == Crumbs(ns, t) + [ns[j].crumb]
  {
  }

  // ----- across mounts

  /** A place in the global tree: a device and an entry of its namespace. */
  datatype Place = Place(device: int, index: int)

  /** The device table, with each device's namespace and where it attaches for a given name. */
  datatype World = World(spaces: seq<Namespace>, ids: seq<int>, attach: (int, string) -> int)

  /** `fromDeviceId`: the first device with this id. */
  function DeviceOf(ids: seq<int>, id: int): (r: int)
    ensures -1 <= r < |ids|
    ensures r >= 0 ==> ids[r] == id
    ensures r == -1 <==> id !in ids
  {
    if ids == [] then -1
    else if ids[0] == id then 0
    else
      var r := DeviceOf(ids[1..], id);
      if r == -1 then -1 else r + 1
  }

  predicate InWorld(w: World, p: Place) {
    0 <= p.device < |w.spaces| && 0 <= p.index < Count(w.spaces[p.device])
  }

  function EntryAt(w: World, p: Place): Entry
    requires InWorld(w, p)
  {
    w.spaces[p.device][p.index]
  }

  /** Where a mount entry leads: the device its length field names, attached at its contents. */
  function Target(w: World, e: Entry): Place {
    var device := DeviceOf(w.ids, e.length);
    Place(device, w.attach(device, e.contents))
  }

  ghost predicate MountOk(w: World, p: Place)
    requires InWorld(w, p)
  {
    var e := EntryAt(w, p);
    e.crumb.flags.isMount ==>
      InWorld(w, Target(w, e)) && !EntryAt(w, Target(w, e)).crumb.flags.isMount
  }

  /** Every namespace is well formed and every mount names a device and lands on a plain node of it. */
  ghost predicate WorldOk(w: World) {
    && |w.ids| == |w.spaces|
    && (forall d :: 0 <= d < |w.spaces| ==> WellFormed(w.spaces[d]))
    && (forall p {:trigger MountOk(w, p)} :: InWorld(w, p) ==> MountOk(w, p))
  }

  /** A mount entry stands for what is attached there. */
  function Cross(w: World, p: Place): Place
    requires InWorld(w, p)
  {
    if EntryAt(w, p).crumb.flags.isMount then Target(w, EntryAt(w, p)) else p
  }

  lemma CrossInside(w: World, p: Place)
    requires WorldOk(w) && InWorld(w, p)
    ensures InWorld(w, Cross(w, p)) && !EntryAt(w, Cross(w, p)).crumb.flags.isMount
  {
    assert MountOk(w, p);
  }

  /** One path element in the global tree, mounts crossed on arrival. */
  function Step(w: World, p: Place, elem: string): (r: Option<Place>)
    requires WorldOk(w) && InWorld(w, p)
    ensures r.Some? ==> InWorld(w, r.value)
  {
    ResolveInside(w.spaces[p.device], p.index, elem);
    match Resolve(w.spaces[p.device], p.index, elem)
    case None => None
    case Some(j) =>
      CrossInside(w, Place(p.device, j));
      Some(Cross(w, Place(p.device, j)))
  }

  /** The place a whole path names, if every element resolves. */
  function Reach(w: World, p: Place, path: seq<string>): (r: Option<Place>)
    requires WorldOk(w) && InWorld(w, p)
    ensures r.Some? ==> InWorld(w, r.value)
    decreases |path|
  {
    if path == [] then Some(p)
    else
      match Step(w, p, path[0])
      case None => None
      case Some(q) => Reach(w, q, path[1..])
  }

  /** The last place reached on a path, however far it resolves. */
  function Stop(w: World, p: Place, path: seq<string>): (q: Place)
    requires WorldOk(w) && InWorld(w, p)
    ensures InWorld(w, q)
    decreases |path|
  {
    if path == [] then p
    else
      match Step(w, p, path[0])
      case None => p
      case Some(q) => Stop(w, q, path[1..])
  }

  /** One element leads from a place to another: in its device's tree, and from a mount on to where the device it names attaches. */
  ghost predicate Hops(w: World, p: Place, elem: string, q: Place)
    requires InWorld(w, p)
  {
    var ns := w.spaces[p.device];
    exists j :: 0 <= j < Count(ns) && Goes(ns, p.index, elem, j) &&
      if ns[j].crumb.flags.isMount then
        && 0 <= q.device < |w.ids| && w.ids[q.device] == ns[j].length
        && (forall d :: 0 <= d < q.device ==> w.ids[d] != ns[j].length)
        && q.index == w.attach(q.device, ns[j].contents)
      else q == Place(p.device, j)
  }

  lemma {:induction false} FirstDevice(ids: seq<int>, id: int)
    ensures forall d :: 0 <= d < DeviceOf(ids, id) ==> ids[d] != id
    decreases |ids|
  {
    if ids != [] && ids[0] != id {
      FirstDevice(ids[1..], id);
      forall d | 0 <= d < DeviceOf(ids, id) ensures ids[d] != id {
        if d > 0 { assert ids[d] == ids[1..][d - 1]; }
      }
    }
  }

  lemma StepMeans(w: World, p: Place, elem: string)
    requires WorldOk(w) && InWorld(w, p)
    ensures match Step(w, p, elem)
      case Some(q) => Hops(w, p, elem, q)
      case None => Fails(w.spaces[p.device], p.index, elem)
  {
    var ns := w.spaces[p.device];
    ResolveMeans(ns, p.index, elem);
    var r := Resolve(ns, p.index, elem);
    if r.Some? {
      var q := Place(p.device, r.value);
      CrossInside(w, q);
      FirstDevice(w.ids, EntryAt(w, q).length);
      hide WorldOk, Goes, DeviceOf;
      assert w.spaces[q.device][q.index] == ns[r.value] && Goes(ns, p.index, elem, r.value);
    }
  }

  /** The places passed on a path, one hop apart, ending where the path does, or where an element fails. */
  ghost predicate Passes(w: World, path: seq<string>, ps: seq<Place>) {
    && 1 <= |ps| <= |path| + 1 && (forall k :: 0 <= k < |ps| ==> InWorld(w, ps[k]))
    && (forall k :: 0 <= k < |ps| - 1 ==> Hops(w, ps[k], path[k], ps[k + 1]))
    && (|ps| <= |path| ==> var q := ps[|ps| - 1]; Fails(w.spaces[q.device], q.index, path[|ps| - 1]))
  }

  lemma {:induction false} ReachMeans(w: World, p: Place, path: seq<string>) returns (ps: seq<Place>)
    requires WorldOk(w) && InWorld(w, p)
    ensures Passes(w, path, ps) && ps[0] == p && ps[|ps| - 1] == Stop(w, p, path)
    ensures Reach(w, p, path) == if |ps| == |path| + 1 then Some(Stop(w, p, path)) else None
    decreases |path|
  {
    hide WorldOk, Hops, Fails, InWorld, Step;
    ps := [p];
    if path != [] {
      StepMeans(w, p, path[0]);
      var next := Step(w, p, path[0]);
      if next.Some? {
        var more := ReachMeans(w, next.value, path[1..]);
        ps := [p] + more;
        forall k | 0 <= k < |ps| - 1 ensures Hops(w, ps[k], path[k], ps[k + 1]) {
          if k > 0 { assert ps[k] == more[k - 1] && path[k] == path[1..][k - 1] && ps[k + 1] == more[k]; }
        }
        assert ps[|ps| - 1] == more[|more| - 1];
      }
    }
  }

  /** No mount is crossed in mid-path onto something that is not a directory. */
  predicate DirMounts(w: World, p: Place, path: seq<string>)
    requires WorldOk(w) && InWorld(w, p)
    decreases |path|
  {
    path == [] ||
    match Step(w, p, path[0])
    case None => true
    case Some(q) =>
      (path[1..] != [] && q != Place(p.device, Resolve(w.spaces[p.device], p.index, path[0]).value) ==>
         EntryAt(w, q).crumb.flags.isDir) &&
      DirMounts(w, q, path[1..])
  }

  lemma SpaceOk(w: World, p: Place)
    requires WorldOk(w) && InWorld(w, p)
    ensures WellFormed(w.spaces[p.device]) && Placed(w.spaces[p.device], p.index)
  {
    PlacedAt(w.spaces[p.device], p.index);
  }

  function TrailAt(w: World, p: Place, path: seq<string>): seq<int>
    requires WorldOk(w) && InWorld(w, p)
  {
    Trail(w.spaces[p.device], p.index, path)
  }

  /**
   * One device's walk is a stretch of the global one: it goes as far as it can, and then
   * either the path is done, or it stands on a mount to cross, or nothing resolves further.
   */
  lemma {:induction false} WalkIsStretch(w: World, p: Place, path: seq<string>)
    requires WorldOk(w) && InWorld(w, p) && path != [] && !EntryAt(w, p).crumb.flags.isMount && DirMounts(w, p, path)
    ensures var t := TrailAt(w, p, path); var q := Place(p.device, Last(p.index, t));
      && InWorld(w, q)
      && (t != [] && EntryAt(w, q).crumb.flags.isMount ==>
            && InWorld(w, Cross(w, q)) && Reach(w, p, path) == Reach(w, Cross(w, q), path[|t|..])
            && DirMounts(w, Cross(w, q), path[|t|..]) && Stop(w, p, path) == Stop(w, Cross(w, q), path[|t|..])
            && (|t| < |path| ==> EntryAt(w, Cross(w, q)).crumb.flags.isDir)
            && !EntryAt(w, Cross(w, q)).crumb.flags.isMount)
      && (t == [] || !EntryAt(w, q).crumb.flags.isMount ==> Stop(w, p, path) == q && Reach(w, p, path) == if |t| == |path| then Some(q) else None)
    decreases |path|
  {
    SpaceOk(w, p);
    var ns := w.spaces[p.device];
    ResolveInside(ns, p.index, path[0]);
    var r := Resolve(ns, p.index, path[0]);
    if r.Some? {
      var q := Place(p.device, r.value);
      SpaceOk(w, q);
      CrossInside(w, q);
      assert path[1..][0..] == path[1..];
      if EntryAt(w, q).crumb.flags.isMount {
        FileTrail(ns, r.value, path[1..]);
      } else if path[1..] == [] {
        assert Trail(ns, r.value, path[1..]) == [];
      } else {
        hide WellFormed, WorldOk, Resolve, Trail, Reach, Stop, DirMounts;
        WalkIsStretch(w, q, path[1..]);
        var t := Trail(ns, r.value, path[1..]);
        StretchStep(w, p, path);
        assert path[1..][|t|..] == path[|t| + 1..];
      }
    }
  }

  /** One element that does not arrive at a mount. */
  lemma StretchStep(w: World, p: Place, path: seq<string>)
    requires WorldOk(w) && InWorld(w, p) && path != []
    requires Resolve(w.spaces[p.device], p.index, path[0]).Some?
    requires var q := Place(p.device, Resolve(w.spaces[p.device], p.index, path[0]).value);
      InWorld(w, q) && !EntryAt(w, q).crumb.flags.isMount
    ensures var q := Place(p.device, Resolve(w.spaces[p.device], p.index, path[0]).value);
      && TrailAt(w, p, path) == [q.index] + TrailAt(w, q, path[1..])
      && Last(p.index, TrailAt(w, p, path)) == Last(q.index, TrailAt(w, q, path[1..]))
      && Reach(w, p, path) == Reach(w, q, path[1..]) && Stop(w, p, path) == Stop(w, q, path[1..])
      && (DirMounts(w, p, path) ==> DirMounts(w, q, path[1..]))
  {
    SpaceOk(w, p);
  }

  /** Nothing resolves below a node that is not a directory. */
  lemma FileTrail(ns: Namespace, i: int, path: seq<string>)
    requires WellFormed(ns) && 0 <= i < Count(ns) && !IsDir(ns, i)
    ensures Trail(ns, i, path) == []
  {
  }

  /** A portal: an open place, known by its device and crumb. */
  datatype Portal = Portal(device: int, crumb: Crumb)

  function PlaceOf(p: Portal): Place { Place(p.device, SelfOf(p.crumb)) }

  ghost predicate OpenAt(w: World, p: Portal) {
    InWorld(w, PlaceOf(p)) && EntryAt(w, PlaceOf(p)).crumb == p.crumb
  }

  lemma Opened(w: World, p: Place)
    requires WorldOk(w) && InWorld(w, p)
    ensures var px := Portal(p.device, EntryAt(w, p).crumb); PlaceOf(px) == p && OpenAt(w, px)
    ensures EntryAt(w, p).crumb.flags.isMount ==> !EntryAt(w, p).crumb.flags.isDir
  {
    SpaceOk(w, p);
  }

  /** Walks a path through the global tree, device by device. */
  method Syswalk(w: World, p: Portal, path: seq<string>) returns (r: Option<Portal>, errno: Errno)
    requires WorldOk(w) && OpenAt(w, p) && DirMounts(w, PlaceOf(p), path)
    ensures r.Some? <==> Reach(w, PlaceOf(p), path).Some?
    ensures r.Some? ==> OpenAt(w, r.value) && PlaceOf(r.value) == Reach(w, PlaceOf(p), path).value
    ensures exists ps :: Passes(w, path, ps) && ps[0] == PlaceOf(p) && (r.Some? <==> |ps| == |path| + 1)
              && (r.Some? ==> PlaceOf(r.value) == ps[|ps| - 1])
              && errno == if r.Some? then EOK else if EntryAt(w, ps[|ps| - 1]).crumb.flags.isDir then ENOENT else ENOTDIR
  {
    hide Follows, WellFormed, Reach, Stop, Passes, DirMounts, WorldOk, MountOk, TrailAt, Crumbs, EntryAt, Cross, InWorld;
    PassesMeans(w, PlaceOf(p), path);
    errno := EOK;
    if |path| > 0 && !p.crumb.flags.isDir {
      NoReach(w, PlaceOf(p), path);
      return None, ENOTDIR;
    }
    var px := p;
    var subPath := path;
    while |subPath| > 0
      invariant OpenAt(w, px) && Reach(w, PlaceOf(px), subPath) == Reach(w, PlaceOf(p), path)
      invariant Stop(w, PlaceOf(px), subPath) == Stop(w, PlaceOf(p), path)
      invariant DirMounts(w, PlaceOf(px), subPath) && (subPath != [] ==> px.crumb.flags.isDir)
      invariant subPath == [] ==> errno == EOK
      decreases |subPath|
    {
      ghost var at := PlaceOf(px);
      DirIsPlain(w, px);
      WalkIsStretch(w, at, subPath);
      TrailLast(w, at, subPath);
      var t, e := GenericWalk(px.crumb, w.spaces[px.device], subPath);
      errno := e;
      var top := |t.value.crumbs|;
      subPath := subPath[top..];
      if top > 0 { px := px.(crumb := t.value.crumbs[top - 1]); }
      ghost var q := PlaceOf(px);
      if px.crumb.flags.isMount {
        CrossMeans(w, q);
        var idx := DeviceOf(w.ids, w.spaces[px.device][SelfOf(px.crumb)].length);
        assert idx != -1;
        var there := w.attach(idx, w.spaces[px.device][SelfOf(px.crumb)].contents);
        px := Portal(idx, w.spaces[idx][there].crumb);
        Opened(w, Place(idx, there));
      } else {
        StopsAt(w, q);
        break;
      }
    }
    if |subPath| > 0 { return None, errno; }
    ReachNothing(w, PlaceOf(px));
    r := Some(px);
  }

  /** The places passed, and how they say whether the path resolves. */
  lemma PassesMeans(w: World, p: Place, path: seq<string>)
    requires WorldOk(w) && InWorld(w, p)
    ensures exists ps :: Passes(w, path, ps) && ps[0] == p && ps[|ps| - 1] == Stop(w, p, path)
              && Reach(w, p, path) == if |ps| == |path| + 1 then Some(Stop(w, p, path)) else None
  {
    hide Reach, Stop, Passes;
    var ps := ReachMeans(w, p, path);
  }

  lemma StopsAt(w: World, q: Place)
    requires InWorld(w, q)
    ensures EntryAt(w, q).crumb.flags.isDir <==> IsDir(w.spaces[q.device], q.index)
  {
  }

  lemma ReachNothing(w: World, p: Place)
    requires WorldOk(w) && InWorld(w, p)
    ensures Reach(w, p, []) == Some(p)
  {
  }

  lemma NoReach(w: World, p: Place, path: seq<string>)
    requires WorldOk(w) && InWorld(w, p) && path != [] && !EntryAt(w, p).crumb.flags.isDir
    ensures Reach(w, p, path) == None && Stop(w, p, path) == p
  {
  }

  /** A directory is not a mount point, and its device's namespace is in order. */
  lemma DirIsPlain(w: World, px: Portal)
    requires WorldOk(w) && OpenAt(w, px) && px.crumb.flags.isDir
    ensures !EntryAt(w, PlaceOf(px)).crumb.flags.isMount && InWorld(w, PlaceOf(px))
    ensures 0 <= px.device < |w.spaces| && WellFormed(w.spaces[px.device]) && StaticNamespace.At(w.spaces[px.device], px.crumb, SelfOf(px.crumb))
  {
    SpaceOk(w, PlaceOf(px));
  }

  /** The last crumb of a device's trail opens the place where the stretch ends. */
  lemma TrailLast(w: World, p: Place, path: seq<string>)
    requires WorldOk(w) && InWorld(w, p)
    ensures 0 <= p.device < |w.spaces| && TrailAt(w, p, path) == Trail(w.spaces[p.device], p.index, path)
    ensures var t := TrailAt(w, p, path); var cs := Crumbs(w.spaces[p.device], t);
      var q := Place(p.device, Last(p.index, t));
      && |cs| == |t| && InWorld(w, q)
      && (t != [] ==>
            var px := Portal(p.device, cs[|cs| - 1]);
            OpenAt(w, px) && PlaceOf(px) == q && EntryAt(w, q).crumb == px.crumb)
  {
    var t := TrailAt(w, p, path);
    var cs := Crumbs(w.spaces[p.device], t);
    var q := Place(p.device, Last(p.index, t));
    hide WellFormed, SelfOf, Trail, OpenAt, PlaceOf, Crumbs, MountOk;
    assert InWorld(w, q);
    if t != [] {
      Opened(w, q);
      assert EntryAt(w, q).crumb == cs[|cs| - 1];
    }
  }

  lemma CrossMeans(w: World, q: Place)
    requires WorldOk(w) && InWorld(w, q) && EntryAt(w, q).crumb.flags.isMount
    ensures 0 <= q.device < |w.spaces| && 0 <= q.index < |w.spaces[q.device]|
    ensures var e := w.spaces[q.device][q.index]; var idx := DeviceOf(w.ids, e.length);
      var there := w.attach(idx, e.contents);
      && idx != -1 && 0 <= idx < |w.spaces| && 0 <= there < |w.spaces[idx]|
      && InWorld(w, Place(idx, there)) && Cross(w, q) == Place(idx, there)
      && EntryAt(w, Cross(w, q)).crumb == w.spaces[idx][there].crumb
  {
    CrossInside(w, q);
    assert MountOk(w, q);
  }
}
