/** Mounted filesystems without any cache: what a path means and what each operation does to that
    (src/kernel/vfs/vfs.c, src/kernel/vfs/filesystems/ramfs/ramfs.c). */
module Namespace {
  import opened Wrappers

  type Name = seq<char>
  type Path = seq<Name>

  const MAX_RAM_CHILDREN: nat := 8

  /** The S_IFMT part of a mode. */
  datatype Format = Directory | Regular | CharDevice | BlockDevice | OtherFormat

  /** What a FAT32 entry leads to. FAT32 volumes are read-only: their inodes are values. */
  datatype FatNode = FatNode(volume: nat, ino: nat, directory: bool)

  /** InitialRoot is the root before the first mount: a directory without operations. */
  datatype Inode = InitialRoot | Ram(id: nat) | Fat(node: FatNode)

  const FAT_ROOT_INO: nat := 2

  /** The root directory of a FAT32 volume. */
  function FatRoot(device: nat): Inode { Fat(FatNode(device, FAT_ROOT_INO, true)) }

  datatype Child = Child(name: Name, id: nat)
  datatype RamNode = RamNode(format: Format, device: nat, children: seq<Child>)

  /** What does not change: the lookup in FAT32 directories, the block devices that hold a
      FAT32 volume, the registered devices. */
  datatype World = World(
    fatLookup: (FatNode, Name) -> Outcome<Option<FatNode>>,
    fatVolumes: set<nat>,
    blockDevices: set<nat>,
    charDevices: set<nat>)

  datatype Slot = Slot(directory: nat, name: Name)

  /** ramfs inodes in order of creation and the mounted roots by path. `owner` records where each
      created inode hangs; no operation reads it. */
  datatype State = State(ram: seq<RamNode>, mounts: map<Path, Inode>, owner: map<nat, Slot>)

  function FormatOf(ram: seq<RamNode>, i: Inode): Format {
    match i
    case InitialRoot => Directory
    case Ram(id) => if id < |ram| then ram[id].format else OtherFormat
    case Fat(node) => if node.directory then Directory else Regular
  }

  predicate IsDir(ram: seq<RamNode>, i: Inode) { FormatOf(ram, i) == Directory }

  /** The first child of a name. */
  function FindChild(children: seq<Child>, name: Name): (r: Option<nat>)
    ensures r.Some? ==> Child(name, r.value) in children
    ensures r.None? ==> forall a :: 0 <= a < |children| ==> children[a].name != name
  {
    if children == [] then None
    else if children[0].name == name then Some(children[0].id)
    else FindChild(children[1..], name)
  }

  lemma {:induction false} FindAppended(children: seq<Child>, c: Child, name: Name)
    ensures FindChild(children + [c], name) ==
            if FindChild(children, name).Some? then FindChild(children, name)
            else if c.name == name then Some(c.id) else None
  {
    if children != [] {
      assert (children + [c])[1..] == children[1..] + [c];
      FindAppended(children[1..], c, name);
    }
  }

  /** inode_ops->lookup. */
  function LookupIn(w: World, ram: seq<RamNode>, dir: Inode, name: Name): Outcome<Option<Inode>> {
    match dir
    case InitialRoot => Fatal
    case Ram(id) =>
      if id >= |ram| then Fatal
      else Done(match FindChild(ram[id].children, name) case None => None case Some(c) => Some(Ram(c)))
    case Fat(node) =>
      var found :- w.fatLookup(node, name);
      Done(match found case None => None case Some(n) => Some(Fat(n)))
  }

  function Parent(q: Path): Path
    requires q != []
  {
    q[..|q| - 1]
  }

  function Last(q: Path): Name
    requires q != []
  {
    q[|q| - 1]
  }

  /** The inode at a path: the root mounted there, or what the parent directory says. */
  function At(w: World, s: State, q: Path): Outcome<Option<Inode>>
    decreases |q|
  {
    if q in s.mounts then Done(Some(s.mounts[q]))
    else if q == [] then Done(Some(InitialRoot))
    else
      var dir :- At(w, s, Parent(q));
      if dir.Some? && IsDir(s.ram, dir.value) then LookupIn(w, s.ram, dir.value, Last(q)) else Done(None)
  }

  predicate DirAt(w: World, s: State, q: Path) {
    var i := At(w, s, q);
    i.Done? && i.value.Some? && IsDir(s.ram, i.value.value)
  }

  // ---- paths ----

  /** The index of the first separator, the length when there is none. */
  function Cut(path: seq<char>): (n: nat)
    ensures n <= |path|
    ensures n < |path| ==> path[n] == '/'
    ensures forall i :: 0 <= i < n ==> path[i] != '/'
  {
    if path == [] || path[0] == '/' then 0 else 1 + Cut(path[1..])
  }

  /** The segments of a path. */
  function Split(path: seq<char>): (r: seq<Name>)
    ensures r != []
    decreases |path|
  {
    var n := Cut(path);
    if n == |path| then [path] else [path[..n]] + Split(path[n + 1..])
  }

  /** _vfs_node_lookup_rec without a cache: the path that the segments name below the directory
      at q. None when something on the way is missing or no directory; Fatal when it halts. */
  function Walk(w: World, s: State, q: Path, segments: seq<Name>): Outcome<Option<Path>>
    requires segments != []
    decreases |segments|
  {
    if |segments| == 1 then
      if segments[0] == [] then Done(Some(q))
      else
        var _ :- At(w, s, q + [segments[0]]);
        Done(Some(q + [segments[0]]))
    else
      var child :- At(w, s, q + [segments[0]]);
      if child.Some? && IsDir(s.ram, child.value) then Walk(w, s, q + [segments[0]], segments[1..]) else Done(None)
  }

  /** _vfs_dentry_lookup without a cache. */
  function Resolve(w: World, s: State, path: seq<char>): Outcome<Option<Path>> {
    if path == [] || path[0] != '/' then Done(None) else Walk(w, s, [], Split(path[1..]))
  }

  /** What the segments name when everything on the way is there: an empty last one is dropped. */
  function Named(q: Path, segments: seq<Name>): Path
    requires segments != []
  {
    q + if Last(segments) == [] then Parent(segments) else segments
  }

  lemma WalkShift(q: Path, segments: seq<Name>)
    requires |segments| > 1
    ensures Named(q + [segments[0]], segments[1..]) == Named(q, segments)
    ensures forall i :: 1 <= i < |segments| ==> q + segments[..i] == (q + [segments[0]]) + segments[1..][..i - 1]
  {
    var rest := segments[1..];
    assert Last(rest) == Last(segments);
    assert segments == [segments[0]] + rest;
    assert Parent(segments) == [segments[0]] + Parent(rest);
    assert forall i :: 1 <= i < |segments| ==> segments[..i] == [segments[0]] + rest[..i - 1];
  }

  /** A walk ends at the path named iff every proper non-empty prefix of the segments leads to a
      directory and the last lookup does not halt. */
  lemma {:induction false} WalkMeaning(w: World, s: State, q: Path, segments: seq<Name>)
    requires segments != []
    ensures var r := Walk(w, s, q, segments);
            && (r.Done? && r.value.Some? ==> r.value.value == Named(q, segments))
            && ((r.Done? && r.value.Some?) <==>
                  && (forall i :: 1 <= i < |segments| ==> DirAt(w, s, q + segments[..i]))
                  && (Last(segments) != [] ==> At(w, s, q + segments).Done?))
    decreases |segments|
  {
    if |segments| == 1 {
      assert segments == [segments[0]];
    } else {
      var rest, q1 := segments[1..], q + [segments[0]];
      WalkShift(q, segments);
      assert q + segments[..1] == q1 by { assert segments[..1] == [segments[0]]; }
      assert q + segments == q1 + rest by { assert segments == [segments[0]] + rest; }
      if DirAt(w, s, q1) {
        WalkMeaning(w, s, q1, rest);
        if forall i :: 1 <= i < |rest| ==> DirAt(w, s, q1 + rest[..i]) {
          forall i | 1 <= i < |segments| ensures DirAt(w, s, q + segments[..i]) {
            assert q + segments[..i] == q1 + rest[..i - 1];
            if i == 1 { assert q1 + rest[..0] == q1; }
          }
        }
        if forall i :: 1 <= i < |segments| ==> DirAt(w, s, q + segments[..i]) {
          forall i | 1 <= i < |rest| ensures DirAt(w, s, q1 + rest[..i]) {
            assert q + segments[..i + 1] == q1 + rest[..i];
          }
        }
      }
    }
  }

  // ---- the invariant of the filesystems ----

  predicate OwnedAt(s: State, d: nat, a: nat)
    requires d < |s.ram| && a < |s.ram[d].children|
  {
    var c := s.ram[d].children[a];
    c.id < |s.ram| && c.id in s.owner && s.owner[c.id] == Slot(d, c.name)
  }

  /** No two children of one name. */
  predicate DistinctNames(children: seq<Child>) {
    forall a, b :: 0 <= a < b < |children| ==> children[a].name != children[b].name
  }

  predicate MountOk(s: State, q: Path)
    requires q in s.mounts
  {
    match s.mounts[q]
    case InitialRoot => false
    case Ram(id) => id < |s.ram| && s.ram[id].format == Directory && id !in s.owner
    case Fat(node) => node.directory
  }

  /** The ramfs inodes form trees whose roots are the mounted ones, each mounted once, and no
      directory holds two children of one name. */
  predicate Tree(s: State) {
    && (forall d, a :: 0 <= d < |s.ram| && 0 <= a < |s.ram[d].children| ==> OwnedAt(s, d, a))
    && (forall d :: 0 <= d < |s.ram| ==> DistinctNames(s.ram[d].children) && |s.ram[d].children| <= MAX_RAM_CHILDREN)
    && (forall id :: id in s.owner ==> id < |s.ram|)
    && (forall q :: q in s.mounts ==> MountOk(s, q))
    && (forall q, r :: q in s.mounts && r in s.mounts && s.mounts[q].Ram? && s.mounts[q] == s.mounts[r] ==> q == r)
  }

  /** What a path leads to exists, and a ramfs inode that is not mounted there hangs under the
      directory of the parent path by the last name. */
  lemma AtOwned(w: World, s: State, q: Path)
    requires Tree(s) && At(w, s, q).Done? && At(w, s, q).value.Some? && At(w, s, q).value.value.Ram?
    ensures var id := At(w, s, q).value.value.id;
            && id < |s.ram|
            && (q in s.mounts <==> id !in s.owner)
            && (q !in s.mounts ==>
                  && q != [] && DirAt(w, s, Parent(q))
                  && At(w, s, Parent(q)) == Done(Some(Ram(s.owner[id].directory))) && Last(q) == s.owner[id].name)
  {
    if q in s.mounts {
      assert MountOk(s, q);
    } else {
      var dir := At(w, s, Parent(q)).value.value;
      if dir.Ram? {
        var id := At(w, s, q).value.value.id;
        var a :| 0 <= a < |s.ram[dir.id].children| && s.ram[dir.id].children[a] == Child(Last(q), id);
        assert OwnedAt(s, dir.id, a);
      }
    }
  }

  /** No ramfs inode is reached by two paths. */
  lemma {:induction false} UniquePath(w: World, s: State, q: Path, r: Path)
    requires Tree(s) && At(w, s, q) == At(w, s, r)
    requires At(w, s, q).Done? && At(w, s, q).value.Some? && At(w, s, q).value.value.Ram?
    ensures q == r
    decreases |q|
  {
    AtOwned(w, s, q);
    AtOwned(w, s, r);
    if q !in s.mounts {
      UniquePath(w, s, Parent(q), Parent(r));
      assert q == Parent(q) + [Last(q)];
      assert r == Parent(r) + [Last(r)];
    }
  }

  /** What a resolved path is like: the root, or a name in a directory. */
  predicate Reached(w: World, s: State, q: Path) {
    if q == [] then DirAt(w, s, q) else At(w, s, q).Done? && DirAt(w, s, Parent(q))
  }

  lemma {:induction false} WalkReaches(w: World, s: State, q: Path, segments: seq<Name>)
    requires segments != [] && DirAt(w, s, q) && Reached(w, s, q)
    ensures var r := Walk(w, s, q, segments); r.Done? && r.value.Some? ==> Reached(w, s, r.value.value)
    decreases |segments|
  {
    var child := q + [segments[0]];
    assert Parent(child) == q;
    if |segments| > 1 && DirAt(w, s, child) { WalkReaches(w, s, child, segments[1..]); }
  }

  lemma ResolveReaches(w: World, s: State, path: seq<char>)
    requires Tree(s)
    ensures DirAt(w, s, [])
    ensures var r := Resolve(w, s, path); r.Done? && r.value.Some? ==> Reached(w, s, r.value.value)
  {
    if [] in s.mounts { assert MountOk(s, []); }
    if path != [] { WalkReaches(w, s, [], Split(path[1..])); }
  }

  // ---- creating ----

  function AppendChild(ram: seq<RamNode>, d: nat, c: Child): (r: seq<RamNode>)
    requires d < |ram|
    ensures |r| == |ram|
  {
    ram[d := ram[d].(children := ram[d].children + [c])]
  }

  /** A fresh inode becomes the last child of ramfs directory d. */
  function AddChild(s: State, d: nat, name: Name, node: RamNode): State
    requires d < |s.ram|
  {
    State(AppendChild(s.ram, d, Child(name, |s.ram|)) + [node], s.mounts, s.owner[|s.ram| := Slot(d, name)])
  }

  predicate IsPrefix(p: Path, q: Path) { |p| <= |q| && q[..|p|] == p }

  lemma AddKeepsTree(s: State, d: nat, name: Name, node: RamNode)
    requires Tree(s) && d < |s.ram| && FindChild(s.ram[d].children, name).None? && node.children == []
    requires |s.ram[d].children| < MAX_RAM_CHILDREN
    ensures Tree(AddChild(s, d, name, node))
  {
    var t := AddChild(s, d, name, node);
    forall e, a | 0 <= e < |t.ram| && 0 <= a < |t.ram[e].children| ensures OwnedAt(t, e, a) {
      if e < |s.ram| && a < |s.ram[e].children| { assert OwnedAt(s, e, a); }
    }
    forall e | 0 <= e < |t.ram| ensures DistinctNames(t.ram[e].children) {
      if e < |s.ram| { assert DistinctNames(s.ram[e].children); }
    }
    forall q | q in t.mounts ensures MountOk(t, q) { assert MountOk(s, q); }
  }

  /** Creating a file changes the meaning of no path but its own and those below it. */
  lemma {:induction false} AtAfterAdd(w: World, s: State, p: Path, d: nat, name: Name, node: RamNode, q: Path)
    requires Tree(s) && At(w, s, p) == Done(Some(Ram(d))) && d < |s.ram|
    requires FindChild(s.ram[d].children, name).None? && !IsPrefix(p + [name], q)
    ensures At(w, AddChild(s, d, name, node), q) == At(w, s, q)
    decreases |q|
  {
    if q !in s.mounts && q != [] {
      var up := Parent(q);
      assert q == up + [Last(q)];
      assert !IsPrefix(p + [name], up);
      AtAfterAdd(w, s, p, d, name, node, up);
      var dir := At(w, s, up);
      if dir.Done? && dir.value.Some? && dir.value.value.Ram? {
        AtOwned(w, s, up);
        var id := dir.value.value.id;
        if id == d {
          UniquePath(w, s, p, up);
          FindAppended(s.ram[d].children, Child(name, |s.ram|), Last(q));
        }
      }
    }
  }

  /** The path of the new file leads to it. */
  lemma AtAdded(w: World, s: State, p: Path, d: nat, name: Name, node: RamNode)
    requires Tree(s) && At(w, s, p) == Done(Some(Ram(d))) && DirAt(w, s, p)
    requires FindChild(s.ram[d].children, name).None? && p + [name] !in s.mounts
    ensures At(w, AddChild(s, d, name, node), p + [name]) == Done(Some(Ram(|s.ram|)))
  {
    AtAfterAdd(w, s, p, d, name, node, p);
    FindAppended(s.ram[d].children, Child(name, |s.ram|), name);
    assert Parent(p + [name]) == p;
  }

  // ---- mounting ----

  /** A root covers a path: what was mounted below is no longer reached. */
  function Cover(s: State, p: Path, root: Inode): State {
    s.(mounts := (map q | q in s.mounts && !IsPrefix(p, q) :: s.mounts[q])[p := root])
  }

  /** A mounted root: of a fresh ramfs or of a FAT32 volume. */
  function MountRam(s: State, p: Path): State {
    Cover(s.(ram := s.ram + [RamNode(Directory, 0, [])]), p, Ram(|s.ram|))
  }

  lemma GrowKeepsTree(s: State, node: RamNode)
    requires Tree(s) && node.children == []
    ensures Tree(s.(ram := s.ram + [node]))
  {
    var t := s.(ram := s.ram + [node]);
    forall e, a | 0 <= e < |t.ram| && 0 <= a < |t.ram[e].children| ensures OwnedAt(t, e, a) { assert OwnedAt(s, e, a); }
    forall q | q in t.mounts ensures MountOk(t, q) { assert MountOk(s, q); }
  }

  lemma CoverKeepsTree(s: State, p: Path, root: Inode)
    requires Tree(s) && MountOk(Cover(s, p, root), p)
    requires root.Ram? ==> forall q :: q in s.mounts ==> s.mounts[q] != root
    ensures Tree(Cover(s, p, root))
  {
    var t := Cover(s, p, root);
    forall e, a | 0 <= e < |t.ram| && 0 <= a < |t.ram[e].children| ensures OwnedAt(t, e, a) { assert OwnedAt(s, e, a); }
    forall q | q in t.mounts ensures MountOk(t, q) { if q != p { assert MountOk(s, q); } }
  }

  /** Mounting changes the meaning of no path outside the mount point. */
  lemma {:induction false} AtAfterCover(w: World, s: State, p: Path, root: Inode, q: Path)
    requires !IsPrefix(p, q)
    ensures At(w, Cover(s, p, root), q) == At(w, s, q)
    decreases |q|
  {
    if q !in s.mounts && q != [] {
      assert q == Parent(q) + [Last(q)];
      AtAfterCover(w, s, p, root, Parent(q));
    }
  }

  /** An inode that nothing refers to changes the meaning of no path. */
  lemma {:induction false} AtAfterGrow(w: World, s: State, node: RamNode, q: Path)
    requires Tree(s)
    ensures At(w, s.(ram := s.ram + [node]), q) == At(w, s, q)
    decreases |q|
  {
    if q !in s.mounts && q != [] {
      AtAfterGrow(w, s, node, Parent(q));
      var dir := At(w, s, Parent(q));
      if dir.Done? && dir.value.Some? && dir.value.value.Ram? { AtOwned(w, s, Parent(q)); }
    }
  }

  // ---- operations on paths ----

  datatype FsType = RamFs | Fat32 | UnknownFs

  datatype Call =
    | Mount(target: seq<char>, source: Option<seq<char>>, fs: FsType)
    | Mknod(path: seq<char>, format: Format, device: nat)
    | Mkdir(path: seq<char>, format: Format)
    | Open(path: seq<char>, create: bool, directory: bool, exclusive: bool, format: Format)

  datatype Reply = Failed | Success | Opened(inode: Inode)

  datatype Answer = Answer(state: State, reply: Reply)

  /** The inode that a resolved path leads to, None for a missing dentry or a negative one. */
  function InodeAt(w: World, s: State, q: Option<Path>): Option<Inode> {
    if q.None? then None else if At(w, s, q.value).Fatal? then None else At(w, s, q.value).value
  }

  /** _add_inode_child after the checks of create, mkdir or mknod; Fatal when the directory is full. */
  function Create(w: World, s: State, q: Path, node: RamNode): Outcome<Answer>
    requires q != []
  {
    var dir :- At(w, s, Parent(q));
    if dir.None? || !dir.value.Ram? || dir.value.id >= |s.ram| then Fatal
    else if |s.ram[dir.value.id].children| >= MAX_RAM_CHILDREN then Fatal
    else Done(Answer(AddChild(s, dir.value.id, Last(q), node), Opened(Ram(|s.ram|))))
  }

  /** Whether the directory that holds a path is of a ramfs. */
  predicate InRam(w: World, s: State, q: Path)
    requires q != []
  {
    var dir := At(w, s, Parent(q));
    dir.Done? && dir.value.Some? && dir.value.value.Ram?
  }

  /** The registered block device that a path leads to. */
  function DeviceAt(w: World, s: State, path: seq<char>): Outcome<Option<Option<nat>>> {
    var q :- Resolve(w, s, path);
    var i := InodeAt(w, s, q);
    if i.None? || FormatOf(s.ram, i.value) != BlockDevice || !i.value.Ram? || i.value.id >= |s.ram| then Done(None)
    else if s.ram[i.value.id].device in w.blockDevices then Done(Some(Some(s.ram[i.value.id].device)))
    else Done(Some(None))
  }

  /** _vfs_mount_dev on the directory at p. */
  function MountAt(w: World, s: State, p: Path, device: Option<nat>, fs: FsType): Outcome<Answer> {
    match fs
    case UnknownFs => Fatal
    case RamFs => Done(Answer(MountRam(s, p), Success))
    case Fat32 =>
      if device.None? then Fatal
      else if device.value in w.fatVolumes then Done(Answer(Cover(s, p, FatRoot(device.value)), Success))
      else Done(Answer(s, Failed))
  }

  /** vfs_file_open once the path is looked up. */
  function OpenPath(w: World, s: State, q: Option<Path>, create: bool, directory: bool, exclusive: bool, format: Format): Outcome<Answer> {
    var i := InodeAt(w, s, q);
    if q.None? then Done(Answer(s, Failed))
    else if i.Some? then
      if exclusive || (directory && !IsDir(s.ram, i.value)) then Done(Answer(s, Failed))
      else Done(Answer(s, Opened(i.value)))
    else if !create || directory || !InRam(w, s, q.value) || format != Regular then Done(Answer(s, Failed))
    else Create(w, s, q.value, RamNode(format, 0, []))
  }

  /** What a call means: the new filesystems and the reply. Paths that end at the root cannot be
      opened. */
  function Perform(w: World, s: State, call: Call): Outcome<Answer> {
    match call
    case Mount(target, source, fs) =>
      var q :- Resolve(w, s, target);
      var i := InodeAt(w, s, q);
      if i.None? || !IsDir(s.ram, i.value) then Done(Answer(s, Failed))
      else if source.None? then MountAt(w, s, q.value, None, fs)
      else
        var device :- DeviceAt(w, s, source.value);
        if device.None? then Done(Answer(s, Failed)) else MountAt(w, s, q.value, device.value, fs)
    case Mknod(path, format, device) =>
      var q :- Resolve(w, s, path);
      if q.None? || InodeAt(w, s, q).Some? || q.value == [] then Done(Answer(s, Failed))
      else if !InRam(w, s, q.value) then Fatal
      else if (format == CharDevice && device in w.charDevices) || (format == BlockDevice && device in w.blockDevices) then
        var made :- Create(w, s, q.value, RamNode(format, device, []));
        Done(made.(reply := Success))
      else Done(Answer(s, Failed))
    case Mkdir(path, format) =>
      var q :- Resolve(w, s, path);
      if q.None? || InodeAt(w, s, q).Some? || q.value == [] then Done(Answer(s, Failed))
      else if !InRam(w, s, q.value) then Fatal
      else if format == Directory then
        var made :- Create(w, s, q.value, RamNode(format, 0, []));
        Done(made.(reply := Success))
      else Done(Answer(s, Failed))
    case Open(path, create, directory, exclusive, format) =>
      var q :- Resolve(w, s, path);
      OpenPath(w, s, q, create, directory, exclusive, format)
  }

  /** Every operation keeps the filesystems well formed: trees, and no two children of one name. */
  lemma PerformKeepsTree(w: World, s: State, call: Call)
    requires Tree(s) && Perform(w, s, call).Done?
    ensures Tree(Perform(w, s, call).value.state)
  {
    match call
    case Mount(target, source, fs) =>
      var q := Resolve(w, s, target).value;
      if q.Some? { MountsKeepTree(s, q.value); }
    case _ =>
      var q := Resolve(w, s, call.path).value;
      ResolveReaches(w, s, call.path);
      if q.Some? && q.value != [] && InodeAt(w, s, q).None? { CreateKeepsTree(w, s, q.value); }
  }

  lemma MountsKeepTree(s: State, p: Path)
    requires Tree(s)
    ensures Tree(MountRam(s, p)) && forall device :: Tree(Cover(s, p, FatRoot(device)))
  {
    var grown := s.(ram := s.ram + [RamNode(Directory, 0, [])]);
    GrowKeepsTree(s, RamNode(Directory, 0, []));
    forall q | q in s.mounts ensures s.mounts[q] != Ram(|s.ram|) { assert MountOk(s, q); }
    CoverKeepsTree(grown, p, Ram(|s.ram|));
    forall device ensures Tree(Cover(s, p, FatRoot(device))) { CoverKeepsTree(s, p, FatRoot(device)); }
  }

  lemma CreateKeepsTree(w: World, s: State, q: Path)
    requires Tree(s) && q != [] && InodeAt(w, s, Some(q)).None? && Reached(w, s, q)
    ensures forall node: RamNode :: node.children == [] && Create(w, s, q, node).Done? ==> Tree(Create(w, s, q, node).value.state)
  {
    forall node: RamNode | node.children == [] && Create(w, s, q, node).Done?
      ensures Tree(Create(w, s, q, node).value.state)
    {
      AddKeepsTree(s, At(w, s, Parent(q)).value.value.id, Last(q), node);
    }
  }
}
