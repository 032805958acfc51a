/** What the operations on paths are for: what one call makes is what later calls find, and nothing
    else (src/kernel/vfs/vfs.c). */
module NamespaceLaws {
  import opened Wrappers
  import opened Namespace
  import opened CacheCalls

  // ---- paths ----

  /** The string of a path: every name behind a separator. */
  function Joined(names: seq<Name>): seq<char>
    requires names != []
  {
    if |names| == 1 then names[0] else names[0] + ['/'] + Joined(names[1..])
  }

  lemma CutWhole(a: Name)
    requires '/' !in a
    ensures Cut(a) == |a|
  {
  }

  lemma CutInside(a: seq<char>, b: seq<char>)
    ensures Cut(a + ['/'] + b) == Cut(a)
  {
    var s := a + ['/'] + b;
    assert s[|a|] == '/';
    assert forall i :: 0 <= i < |a| ==> s[i] == a[i];
  }

  lemma SlicesOf(a: seq<char>, b: seq<char>, n: nat)
    requires n <= |a|
    ensures (a + ['/'] + b)[..n] == a[..n]
    ensures (a + ['/'] + b)[n + 1..] == if n == |a| then b else a[n + 1..] + ['/'] + b
  {
  }

  lemma SplitStep(path: seq<char>)
    ensures Cut(path) == |path| ==> Split(path) == [path]
    ensures Cut(path) < |path| ==> Split(path) == [path[..Cut(path)]] + Split(path[Cut(path) + 1..])
  {
  }

  /** A path below another one. */
  lemma {:induction false} SplitBelow(a: seq<char>, b: seq<char>)
    ensures Split(a + ['/'] + b) == Split(a) + Split(b)
    decreases |a|
  {
    var n := Cut(a);
    if n == |a| {
      SplitStep(a);
      SplitName(a, b);
    } else {
      SplitBelow(a[n + 1..], b);
      SplitFurther(a, b, n);
    }
  }

  lemma SplitName(a: seq<char>, b: seq<char>)
    requires Cut(a) == |a|
    ensures Split(a + ['/'] + b) == [a] + Split(b)
  {
    CutInside(a, b);
    SlicesOf(a, b, |a|);
    SplitStep(a + ['/'] + b);
    assert a[..|a|] == a;
  }

  lemma SplitFurther(a: seq<char>, b: seq<char>, n: nat)
    requires n == Cut(a) < |a| && Split(a[n + 1..] + ['/'] + b) == Split(a[n + 1..]) + Split(b)
    ensures Split(a + ['/'] + b) == Split(a) + Split(b)
  {
    CutInside(a, b);
    SlicesOf(a, b, n);
    SplitStep(a + ['/'] + b);
    SplitStep(a);
    Associates(a[..n], Split(a[n + 1..]), Split(b));
  }

  lemma Associates<T>(x: T, a: seq<T>, b: seq<T>)
    ensures [x] + (a + b) == ([x] + a) + b
  {
  }

  /** Splitting a path gives the names that it was joined from. */
  lemma {:induction false} SplitJoined(names: seq<Name>)
    requires names != [] && forall i :: 0 <= i < |names| ==> '/' !in names[i]
    ensures Split(Joined(names)) == names
  {
    if |names| == 1 {
      SplitOne(names[0]);
      assert names == [names[0]];
    } else {
      SplitJoined(names[1..]);
      SplitNext(names[0], names[1..]);
      assert names == [names[0]] + names[1..];
    }
  }

  lemma SplitOne(name: Name)
    requires '/' !in name
    ensures Split(name) == [name]
  {
    CutWhole(name);
    SplitStep(name);
  }

  lemma SplitNext(name: Name, rest: seq<Name>)
    requires '/' !in name && rest != [] && Split(Joined(rest)) == rest
    ensures Split(name + ['/'] + Joined(rest)) == [name] + rest
  {
    CutWhole(name);
    SplitName(name, Joined(rest));
  }

  /** The names of an absolute path. */
  predicate IsAbsolute(path: seq<char>) { path != "" && path[0] == '/' }

  function Segments(path: seq<char>): (r: seq<Name>)
    requires IsAbsolute(path)
    ensures r != []
  {
    Split(path[1..])
  }

  /** The path without a separator at its end. */
  function Canonical(path: seq<char>): Path
    requires IsAbsolute(path)
  {
    var names := Segments(path);
    if names[|names| - 1] == "" then names[..|names| - 1] else names
  }

  /** When a path resolves, and to what. */
  lemma ResolveMeaning(w: World, s: State, path: seq<char>)
    requires IsAbsolute(path)
    ensures var r, names := Resolve(w, s, path), Segments(path);
            && (r.Done? && r.value.Some? ==> r.value.value == Canonical(path))
            && ((r.Done? && r.value.Some?) <==>
                  && (forall i :: 1 <= i < |names| ==> DirAt(w, s, names[..i]))
                  && (names[|names| - 1] != "" ==> At(w, s, names).Done?))
  {
    var names := Segments(path);
    WalkMeaning(w, s, [], names);
    PrefixesFromRoot(w, s, names);
    assert [] + names == names && [] + Parent(names) == Parent(names);
    assert Named([], names) == Canonical(path) && Resolve(w, s, path) == Walk(w, s, [], names);
  }

  lemma PrefixesFromRoot(w: World, s: State, names: seq<Name>)
    ensures (forall i :: 1 <= i < |names| ==> DirAt(w, s, [] + names[..i])) <==> forall i :: 1 <= i < |names| ==> DirAt(w, s, names[..i])
  {
    if forall i :: 1 <= i < |names| ==> DirAt(w, s, [] + names[..i]) {
      forall i | 1 <= i < |names| ensures DirAt(w, s, names[..i]) {
        assert DirAt(w, s, [] + names[..i]);
        assert [] + names[..i] == names[..i];
      }
    }
    if forall i :: 1 <= i < |names| ==> DirAt(w, s, names[..i]) {
      forall i | 1 <= i < |names| ensures DirAt(w, s, [] + names[..i]) {
        assert DirAt(w, s, names[..i]);
        assert [] + names[..i] == names[..i];
      }
    }
  }

  /** In a resolved path that leads to nothing, there is no separator at the end. */
  lemma NewName(w: World, s: State, path: seq<char>, q: Path)
    requires Tree(s) && Resolve(w, s, path) == Done(Some(q)) && q != [] && InodeAt(w, s, Some(q)).None?
    ensures IsAbsolute(path) && Segments(path) == q && At(w, s, q) == Done(None) && DirAt(w, s, Parent(q))
  {
    ResolveMeaning(w, s, path);
    ResolveReaches(w, s, path);
    var names := Segments(path);
    if names[|names| - 1] == "" { assert DirAt(w, s, names[..|names| - 1]); }
  }

  // ---- where mounts hang ----

  /** Every mount point but the root is a name in a directory. */
  ghost predicate Anchored(w: World, s: State) { forall q :: q in s.mounts && q != [] ==> DirAt(w, s, Parent(q)) }

  /** What leads to something leads through directories. */
  lemma {:induction false} ThroughDirectories(w: World, s: State, q: Path, i: nat)
    requires Anchored(w, s) && i < |q| && At(w, s, q).Done? && At(w, s, q).value.Some?
    ensures DirAt(w, s, q[..i])
  {
    assert DirAt(w, s, Parent(q));
    if i < |q| - 1 {
      ThroughDirectories(w, s, Parent(q), i);
      assert Parent(q)[..i] == q[..i];
    } else {
      assert Parent(q) == q[..i];
    }
  }

  /** A path that leads to a mount point leads to something. */
  lemma AboveMounts(w: World, s: State, q: Path, m: Path)
    requires Anchored(w, s) && m in s.mounts && IsPrefix(q, m)
    ensures At(w, s, q) != Done(None)
  {
    if |q| < |m| { ThroughDirectories(w, s, m, |q|); } else { assert m == q; }
  }

  // ---- what creation leaves ----

  /** A directory elsewhere stays one, and everything else stays what it was. */
  lemma DirKept(w: World, s: State, p: Path, d: nat, name: Name, node: RamNode, q: Path)
    requires Tree(s) && At(w, s, p) == Done(Some(Ram(d))) && d < |s.ram|
    requires FindChild(s.ram[d].children, name).None? && !IsPrefix(p + [name], q)
    ensures At(w, AddChild(s, d, name, node), q) == At(w, s, q)
    ensures DirAt(w, AddChild(s, d, name, node), q) == DirAt(w, s, q)
  {
    AtAfterAdd(w, s, p, d, name, node, q);
    var i := At(w, s, q);
    if i.Done? && i.value.Some? && i.value.value.Ram? { AtOwned(w, s, q); }
  }

  /** What Create does at a resolved path that leads to nothing. */
  lemma CreateAdds(w: World, s: State, path: seq<char>, q: Path, node: RamNode)
    requires Tree(s) && Resolve(w, s, path) == Done(Some(q)) && q != [] && InodeAt(w, s, Some(q)).None?
    requires Create(w, s, q, node).Done?
    ensures var d := At(w, s, Parent(q)).value.value.id;
            && At(w, s, Parent(q)) == Done(Some(Ram(d))) && d < |s.ram| && FindChild(s.ram[d].children, Last(q)).None?
            && DirAt(w, s, Parent(q)) && q !in s.mounts && q == Parent(q) + [Last(q)]
            && Create(w, s, q, node) == Done(Answer(AddChild(s, d, Last(q), node), Opened(Ram(|s.ram|))))
  {
    NewName(w, s, path, q);
    MissingChild(w, s, q, At(w, s, Parent(q)).value.value.id);
  }

  lemma MissingChild(w: World, s: State, q: Path, d: nat)
    requires q != [] && At(w, s, q) == Done(None) && DirAt(w, s, Parent(q)) && At(w, s, Parent(q)) == Done(Some(Ram(d))) && d < |s.ram|
    ensures q !in s.mounts && FindChild(s.ram[d].children, Last(q)).None? && q == Parent(q) + [Last(q)]
  {
    assert At(w, s, q) == LookupIn(w, s.ram, Ram(d), Last(q));
  }

  /** The new path resolves and leads to the new file. */
  lemma CreatedResolves(w: World, s: State, path: seq<char>, q: Path, node: RamNode)
    requires Tree(s) && Resolve(w, s, path) == Done(Some(q)) && q != [] && InodeAt(w, s, Some(q)).None?
    requires Create(w, s, q, node).Done?
    ensures var s1 := Create(w, s, q, node).value.state;
            && Resolve(w, s1, path) == Done(Some(q)) && At(w, s1, q) == Done(Some(Ram(|s.ram|)))
            && |s1.ram| == |s.ram| + 1 && s1.ram[|s.ram|] == node
  {
    NewName(w, s, path, q);
    CreateAdds(w, s, path, q, node);
    var d := At(w, s, Parent(q)).value.value.id;
    var s1 := AddChild(s, d, Last(q), node);
    AtAdded(w, s, Parent(q), d, Last(q), node);
    ResolveMeaning(w, s, path);
    ResolveMeaning(w, s1, path);
    forall i | 1 <= i < |q| ensures DirAt(w, s1, q[..i]) {
      assert DirAt(w, s, q[..i]);
      DirKept(w, s, Parent(q), d, Last(q), node, q[..i]);
    }
  }

  // ---- what one call makes is what the next one finds ----

  /** Opening a path that leads to something, and one that leads to nothing. */
  lemma OpenFound(w: World, s: State, path: seq<char>, q: Path, i: Inode, c: bool, d: bool, x: bool, f: Format)
    requires Resolve(w, s, path) == Done(Some(q)) && At(w, s, q) == Done(Some(i))
    ensures Perform(w, s, Open(path, c, d, x, f)) == Done(Answer(s, if x || (d && !IsDir(s.ram, i)) then Failed else Opened(i)))
  {
    assert InodeAt(w, s, Some(q)) == Some(i);
  }

  lemma OpenMissing(w: World, s: State, path: seq<char>, q: Path, d: bool, x: bool, f: Format)
    requires Resolve(w, s, path) == Done(Some(q)) && InodeAt(w, s, Some(q)).None?
    ensures Perform(w, s, Open(path, false, d, x, f)) == Done(Answer(s, Failed))
  {
  }

  /** A successful mkdir or mknod makes the node. */
  lemma MadeNode(w: World, s: State, call: Call, s1: State, node: RamNode)
    requires Tree(s) && Perform(w, s, call) == Done(Answer(s1, Success)) && (call.Mkdir? || call.Mknod?)
    requires node == RamNode(call.format, if call.Mknod? then call.device else 0, [])
    ensures var q := Resolve(w, s, call.path);
            && q.Done? && q.value.Some? && q.value.value != [] && InodeAt(w, s, q.value).None?
            && Create(w, s, q.value.value, node) == Done(Answer(s1, Opened(Ram(|s.ram|))))
    ensures if call.Mkdir? then call.format.Directory?
            else if call.format.CharDevice? then call.device in w.charDevices
            else call.format.BlockDevice? && call.device in w.blockDevices
  {
    ResolveReaches(w, s, call.path);
  }

  /** After an open that succeeds, an open without flags gives the same inode, and an exclusive one fails. */
  lemma OpenAgain(w: World, s: State, path: seq<char>, create: bool, directory: bool, exclusive: bool, format: Format,
                  s1: State, i: Inode, c: bool, d: bool, f: Format)
    requires Tree(s) && Perform(w, s, Open(path, create, directory, exclusive, format)) == Done(Answer(s1, Opened(i)))
    ensures Perform(w, s1, Open(path, c, false, false, f)) == Done(Answer(s1, Opened(i)))
    ensures Perform(w, s1, Open(path, c, d, true, f)) == Done(Answer(s1, Failed))
    ensures directory ==> Perform(w, s1, Open(path, c, true, false, f)) == Done(Answer(s1, Opened(i)))
  {
    var q := Resolve(w, s, path).value.value;
    if InodeAt(w, s, Some(q)).None? {
      ResolveReaches(w, s, path);
      CreatedResolves(w, s, path, q, RamNode(format, 0, []));
    }
  }

  /** An exclusive open that succeeds has made the file: an empty regular one of the ramfs, at a path that
      led to nothing. */
  lemma ExclusiveIsNew(w: World, s: State, path: seq<char>, create: bool, directory: bool, format: Format, s1: State, i: Inode, f: Format)
    requires Tree(s) && Perform(w, s, Open(path, create, directory, true, format)) == Done(Answer(s1, Opened(i)))
    ensures Perform(w, s, Open(path, false, false, false, f)) == Done(Answer(s, Failed))
    ensures i == Ram(|s.ram|) && |s1.ram| == |s.ram| + 1 && s1.ram[|s.ram|] == RamNode(Regular, 0, []) && create && !directory
  {
    var q := Resolve(w, s, path).value.value;
    ResolveReaches(w, s, path);
    CreatedResolves(w, s, path, q, RamNode(format, 0, []));
  }

  /** After mkdir the path is opened as a directory, an empty one of the ramfs. */
  lemma MkdirThenOpen(w: World, s: State, path: seq<char>, format: Format, s1: State, c: bool, d: bool, f: Format)
    requires Tree(s) && Perform(w, s, Mkdir(path, format)) == Done(Answer(s1, Success))
    ensures Perform(w, s, Open(path, false, d, false, f)) == Done(Answer(s, Failed))
    ensures Perform(w, s1, Open(path, c, d, false, f)) == Done(Answer(s1, Opened(Ram(|s.ram|))))
    ensures |s1.ram| == |s.ram| + 1 && s1.ram[|s.ram|] == RamNode(Directory, 0, [])
  {
    MadeNode(w, s, Mkdir(path, format), s1, RamNode(Directory, 0, []));
    var q := Resolve(w, s, path).value.value;
    CreatedResolves(w, s, path, q, RamNode(Directory, 0, []));
    OpenMissing(w, s, path, q, d, false, f);
    OpenFound(w, s1, path, q, Ram(|s.ram|), c, d, false, f);
  }

  /** After mknod the path leads to a file of that format and device, which is no directory. */
  lemma MknodThenOpen(w: World, s: State, path: seq<char>, format: Format, device: nat, s1: State, c: bool, f: Format)
    requires Tree(s) && Perform(w, s, Mknod(path, format, device)) == Done(Answer(s1, Success))
    ensures Perform(w, s, Open(path, false, false, false, f)) == Done(Answer(s, Failed))
    ensures Perform(w, s1, Open(path, c, false, false, f)) == Done(Answer(s1, Opened(Ram(|s.ram|))))
    ensures Perform(w, s1, Open(path, c, true, false, f)) == Done(Answer(s1, Failed))
    ensures |s1.ram| == |s.ram| + 1 && s1.ram[|s.ram|] == RamNode(format, device, [])
    ensures if format.CharDevice? then device in w.charDevices else format.BlockDevice? && device in w.blockDevices
  {
    MadeNode(w, s, Mknod(path, format, device), s1, RamNode(format, device, []));
    var q := Resolve(w, s, path).value.value;
    CreatedResolves(w, s, path, q, RamNode(format, device, []));
    OpenMissing(w, s, path, q, false, false, f);
    OpenFound(w, s1, path, q, Ram(|s.ram|), c, false, false, f);
    OpenFound(w, s1, path, q, Ram(|s.ram|), c, true, false, f);
  }

  /** A new directory holds nothing, and takes a file. */
  lemma NewDirectoryIsEmpty(w: World, s: State, path: seq<char>, format: Format, s1: State, name: Name, x: bool, f: Format)
    requires Tree(s) && Anchored(w, s) && Perform(w, s, Mkdir(path, format)) == Done(Answer(s1, Success))
    requires name != "" && '/' !in name
    ensures Perform(w, s1, Open(path + "/" + name, false, false, x, f)) == Done(Answer(s1, Failed))
    ensures var r := Perform(w, s1, Open(path + "/" + name, true, false, x, Regular)); r.Done? && r.value.reply.Opened?
  {
    var q := NewDirectory(w, s, path, format, s1, name);
    OpenMissing(w, s1, path + "/" + name, q + [name], false, x, f);
    OpenCreates(w, s1, path + "/" + name, q + [name], |s.ram|, x);
  }

  lemma NewDirectory(w: World, s: State, path: seq<char>, format: Format, s1: State, name: Name) returns (q: Path)
    requires Tree(s) && Anchored(w, s) && Perform(w, s, Mkdir(path, format)) == Done(Answer(s1, Success))
    requires name != "" && '/' !in name
    ensures Resolve(w, s1, path + "/" + name) == Done(Some(q + [name])) && At(w, s1, q + [name]) == Done(None)
    ensures At(w, s1, Parent(q + [name])) == Done(Some(Ram(|s.ram|))) && |s.ram| < |s1.ram|
    ensures s1.ram[|s.ram|] == RamNode(Directory, 0, [])
  {
    MadeNode(w, s, Mkdir(path, format), s1, RamNode(Directory, 0, []));
    q := Resolve(w, s, path).value.value;
    NewName(w, s, path, q);
    CreatedResolves(w, s, path, q, RamNode(Directory, 0, []));
    CreateAdds(w, s, path, q, RamNode(Directory, 0, []));
    var below := q + [name];
    assert Parent(below) == q;
    if below in s.mounts { AboveMounts(w, s, q, below); }
    FreshBelow(w, s1, |s.ram|, below);
    ResolvesBelow(w, s1, path, q, name);
  }

  lemma OpenCreates(w: World, s: State, path: seq<char>, q: Path, d: nat, x: bool)
    requires Resolve(w, s, path) == Done(Some(q)) && q != [] && At(w, s, q) == Done(None)
    requires At(w, s, Parent(q)) == Done(Some(Ram(d))) && d < |s.ram| && s.ram[d].children == []
    ensures var r := Perform(w, s, Open(path, true, false, x, Regular)); r.Done? && r.value.reply.Opened?
  {
  }

  /** Below a directory a name resolves when the directory says what it is. */
  lemma ResolvesBelow(w: World, s: State, path: seq<char>, q: Path, name: Name)
    requires IsAbsolute(path) && Segments(path) == q && q != [] && DirAt(w, s, q) && name != "" && '/' !in name
    requires Resolve(w, s, path) == Done(Some(q)) && At(w, s, q + [name]).Done?
    ensures Resolve(w, s, path + "/" + name) == Done(Some(q + [name]))
  {
    SegmentsBelow(path, name);
    ResolveMeaning(w, s, path);
    ResolveMeaning(w, s, path + "/" + name);
    forall i | 1 <= i < |q| + 1 ensures DirAt(w, s, (q + [name])[..i]) {
      if i < |q| { assert DirAt(w, s, q[..i]); }
      assert (q + [name])[..i] == if i < |q| then q[..i] else q;
    }
  }

  lemma SegmentsBelow(path: seq<char>, name: Name)
    requires IsAbsolute(path) && '/' !in name
    ensures IsAbsolute(path + "/" + name) && Segments(path + "/" + name) == Segments(path) + [name]
  {
    SplitBelow(path[1..], name);
    SplitOne(name);
    assert (path + "/" + name)[1..] == path[1..] + ['/'] + name;
  }

  lemma FreshBelow(w: World, s: State, d: nat, below: Path)
    requires below != [] && below !in s.mounts && At(w, s, Parent(below)) == Done(Some(Ram(d)))
    requires d < |s.ram| && s.ram[d] == RamNode(Directory, 0, [])
    ensures At(w, s, below) == Done(None) && DirAt(w, s, Parent(below))
  {
  }

  // ---- mounting ----

  /** A directory outside what is covered stays one. */
  lemma CoverKeeps(w: World, s: State, p: Path, root: Inode, q: Path)
    requires !IsPrefix(p, q)
    ensures At(w, Cover(s, p, root), q) == At(w, s, q) && DirAt(w, Cover(s, p, root), q) == DirAt(w, s, q)
  {
    AtAfterCover(w, s, p, root, q);
  }

  lemma GrowKeeps(w: World, s: State, node: RamNode, q: Path)
    requires Tree(s)
    ensures At(w, s.(ram := s.ram + [node]), q) == At(w, s, q) && DirAt(w, s.(ram := s.ram + [node]), q) == DirAt(w, s, q)
  {
    AtAfterGrow(w, s, node, q);
    var i := At(w, s, q);
    if i.Done? && i.value.Some? && i.value.value.Ram? { AtOwned(w, s, q); }
  }

  /** Mounting changes nothing outside the mount point, whatever is mounted. */
  lemma MountKeeps(w: World, s: State, p: Path, device: Option<nat>, fs: FsType, q: Path)
    requires Tree(s) && MountAt(w, s, p, device, fs).Done? && !IsPrefix(p, q)
    ensures var s1 := MountAt(w, s, p, device, fs).value.state;
            At(w, s1, q) == At(w, s, q) && DirAt(w, s1, q) == DirAt(w, s, q)
  {
    if fs.RamFs? {
      GrowKeeps(w, s, RamNode(Directory, 0, []), q);
      CoverKeeps(w, s.(ram := s.ram + [RamNode(Directory, 0, [])]), p, Ram(|s.ram|), q);
    } else if fs.Fat32? && device.Some? {
      CoverKeeps(w, s, p, FatRoot(device.value), q);
    }
  }

  lemma RootResolves(w: World, s: State, s1: State, target: seq<char>, p: Path)
    requires IsAbsolute(target) && Resolve(w, s, target) == Done(Some(p)) && DirAt(w, s1, p)
    requires forall i :: 1 <= i < |p| ==> DirAt(w, s1, p[..i]) == DirAt(w, s, p[..i])
    ensures Resolve(w, s1, target) == Done(Some(p))
  {
    var names := Segments(target);
    ResolveMeaning(w, s, target);
    ResolveMeaning(w, s1, target);
    forall i | 1 <= i < |names| ensures DirAt(w, s1, names[..i]) {
      assert DirAt(w, s, names[..i]);
      if i < |p| { assert p[..i] == names[..i]; } else { assert names[..i] == p; }
    }
  }

  /** The target still resolves, to the new root. */
  lemma MountedResolves(w: World, s: State, target: seq<char>, p: Path, device: Option<nat>, fs: FsType)
    requires Tree(s) && Resolve(w, s, target) == Done(Some(p)) && MountAt(w, s, p, device, fs).Done?
    requires MountAt(w, s, p, device, fs).value.reply == Success
    ensures var s1 := MountAt(w, s, p, device, fs).value.state;
            && Resolve(w, s1, target) == Done(Some(p)) && p in s1.mounts && At(w, s1, p) == Done(Some(s1.mounts[p])) && DirAt(w, s1, p)
            && s1.mounts[p] == if fs.RamFs? then Ram(|s.ram|) else FatRoot(device.value)
  {
    var s1 := MountAt(w, s, p, device, fs).value.state;
    assert At(w, s1, p) == Done(Some(s1.mounts[p]));
    forall i | 1 <= i < |p| ensures DirAt(w, s1, p[..i]) == DirAt(w, s, p[..i]) {
      MountKeeps(w, s, p, device, fs, p[..i]);
    }
    RootResolves(w, s, s1, target, p);
  }

  /** Mounting a ramfs works on exactly the paths that open as a directory; the path then opens as a new
      empty directory. */
  lemma MountThenOpen(w: World, s: State, target: seq<char>, c: bool, d: bool, f: Format)
    requires Tree(s)
    ensures var r, o := Perform(w, s, Mount(target, None, RamFs)), Perform(w, s, Open(target, false, true, false, f));
            && (r.Fatal? <==> o.Fatal?)
            && (r.Done? && r.value.reply == Success <==> o.Done? && o.value.reply.Opened?)
            && (r.Done? && r.value.reply == Success ==>
                  && Perform(w, r.value.state, Open(target, c, d, false, f)) == Done(Answer(r.value.state, Opened(Ram(|s.ram|))))
                  && r.value.state.ram == s.ram + [RamNode(Directory, 0, [])])
  {
    var r, q := Perform(w, s, Mount(target, None, RamFs)), Resolve(w, s, target);
    if q.Done? && q.value.Some? {
      ResolveReaches(w, s, target);
      MountedResolves(w, s, target, q.value.value, None, RamFs);
      OpenFound(w, MountRam(s, q.value.value), target, q.value.value, Ram(|s.ram|), c, d, false, f);
    }
  }

  /** A block device file made by mknod is the source of a later mount: on any path that opens as a
      directory, which then opens as the root of the volume. */
  lemma DeviceMounts(w: World, s: State, path: seq<char>, device: nat, s1: State, target: seq<char>, i: Inode, c: bool, d: bool, f: Format)
    requires Tree(s) && Perform(w, s, Mknod(path, BlockDevice, device)) == Done(Answer(s1, Success)) && device in w.fatVolumes
    requires Perform(w, s1, Open(target, false, true, false, f)) == Done(Answer(s1, Opened(i)))
    ensures var r := Perform(w, s1, Mount(target, Some(path), Fat32));
            && r.Done? && r.value.reply == Success && r.value.state.ram == s1.ram
            && Perform(w, r.value.state, Open(target, c, d, false, f)) ==
               Done(Answer(r.value.state, Opened(Fat(FatNode(device, 2, true)))))
  {
    MadeNode(w, s, Mknod(path, BlockDevice, device), s1, RamNode(BlockDevice, device, []));
    var q := Resolve(w, s, path).value.value;
    CreatedResolves(w, s, path, q, RamNode(BlockDevice, device, []));
    assert DeviceAt(w, s1, path) == Done(Some(Some(device)));
    PerformKeepsTree(w, s, Mknod(path, BlockDevice, device));
    var p := Resolve(w, s1, target).value.value;
    MountedResolves(w, s1, target, p, Some(device), Fat32);
    OpenFound(w, Cover(s1, p, FatRoot(device)), target, p, FatRoot(device), c, d, false, f);
  }

  /** What a successful mount of a volume comes from. */
  lemma MountMade(w: World, s: State, target: seq<char>, source: seq<char>, s1: State) returns (p: Path, device: nat)
    requires Perform(w, s, Mount(target, Some(source), Fat32)) == Done(Answer(s1, Success))
    ensures Resolve(w, s, target) == Done(Some(p)) && DeviceAt(w, s, source) == Done(Some(Some(device)))
    ensures MountAt(w, s, p, Some(device), Fat32) == Done(Answer(s1, Success)) && device in w.fatVolumes
  {
    p := Resolve(w, s, target).value.value;
    device := DeviceAt(w, s, source).value.value.value;
  }

  lemma DeviceOpens(w: World, s: State, source: seq<char>, device: nat) returns (b: nat)
    requires DeviceAt(w, s, source) == Done(Some(Some(device)))
    ensures var q := Resolve(w, s, source); q.Done? && q.value.Some? && At(w, s, q.value.value) == Done(Some(Ram(b)))
    ensures b < |s.ram| && s.ram[b].format == BlockDevice && s.ram[b].device == device && device in w.blockDevices
  {
    b := At(w, s, Resolve(w, s, source).value.value).value.value.id;
  }

  /** Only block device files can be mounted as FAT32 volumes. */
  lemma MountNeedsDevice(w: World, s: State, target: seq<char>, source: seq<char>, s1: State, f: Format) returns (b: nat)
    requires Tree(s) && Perform(w, s, Mount(target, Some(source), Fat32)) == Done(Answer(s1, Success))
    ensures Perform(w, s, Open(source, false, false, false, f)) == Done(Answer(s, Opened(Ram(b)))) && b < |s.ram|
    ensures s.ram[b].format == BlockDevice && s.ram[b].device in w.blockDevices && s.ram[b].device in w.fatVolumes
    ensures Perform(w, s1, Open(target, false, true, false, f)) == Done(Answer(s1, Opened(Fat(FatNode(s.ram[b].device, 2, true)))))
  {
    var p, device := MountMade(w, s, target, source, s1);
    b := DeviceOpens(w, s, source, device);
    OpenFound(w, s, source, Resolve(w, s, source).value.value, Ram(b), false, false, false, f);
    MountedResolves(w, s, target, p, Some(device), Fat32);
    OpenFound(w, s1, target, p, FatRoot(device), false, true, false, f);
  }

  /** Below a directory of a FAT32 volume a name opens as what the volume says it is. */
  lemma FatNameOpens(w: World, s: State, path: seq<char>, n: FatNode, name: Name, f: Format)
    requires Tree(s) && Perform(w, s, Open(path, false, true, false, f)) == Done(Answer(s, Opened(Fat(n))))
    requires IsAbsolute(path) && Segments(path) == Canonical(path) && name != "" && '/' !in name
    requires Canonical(path) + [name] !in s.mounts && w.fatLookup(n, name).Done?
    ensures var found := w.fatLookup(n, name).value;
            Perform(w, s, Open(path + "/" + name, false, false, false, f)) ==
            Done(Answer(s, if found.Some? then Opened(Fat(found.value)) else Failed))
  {
    OpenedAt(w, s, path, Fat(n), f);
    var p := Canonical(path);
    FatNameAt(w, s, p, n, name);
    ResolvesBelow(w, s, path, p, name);
    var found := w.fatLookup(n, name).value;
    if found.Some? {
      OpenFound(w, s, path + "/" + name, p + [name], Fat(found.value), false, false, false, f);
    } else {
      OpenMissing(w, s, path + "/" + name, p + [name], false, false, f);
    }
  }

  lemma OpenedAt(w: World, s: State, path: seq<char>, i: Inode, f: Format)
    requires IsAbsolute(path) && Perform(w, s, Open(path, false, true, false, f)) == Done(Answer(s, Opened(i)))
    ensures Resolve(w, s, path) == Done(Some(Canonical(path))) && At(w, s, Canonical(path)) == Done(Some(i)) && IsDir(s.ram, i)
  {
    ResolveMeaning(w, s, path);
  }

  lemma FatNameAt(w: World, s: State, p: Path, n: FatNode, name: Name)
    requires At(w, s, p) == Done(Some(Fat(n))) && n.directory && p + [name] !in s.mounts && w.fatLookup(n, name).Done?
    ensures var found := w.fatLookup(n, name).value;
            At(w, s, p + [name]) == Done(if found.Some? then Some(Fat(found.value)) else None)
  {
    assert Parent(p + [name]) == p && Last(p + [name]) == name;
  }

  // ---- nothing else ----

  function PathOf(call: Call): seq<char> { if call.Mount? then call.target else call.path }

  /** A call changes nothing outside its path. */
  lemma KeptElsewhere(w: World, s: State, call: Call, s1: State, reply: Reply, p: Path)
    requires Tree(s) && Perform(w, s, call) == Done(Answer(s1, reply))
    requires IsAbsolute(PathOf(call)) ==> !IsPrefix(Canonical(PathOf(call)), p)
    ensures At(w, s1, p) == At(w, s, p) && DirAt(w, s1, p) == DirAt(w, s, p)
  {
    if s1 != s {
      var q := Resolve(w, s, PathOf(call)).value.value;
      ResolveMeaning(w, s, PathOf(call));
      if call.Mount? {
        MountOutcome(w, s, call, s1, q, p);
      } else {
        var node := CreateOutcome(w, s, call, s1, q);
        CreateAdds(w, s, PathOf(call), q, node);
        DirKept(w, s, Parent(q), At(w, s, Parent(q)).value.value.id, Last(q), node, p);
      }
    }
  }

  lemma MountOutcome(w: World, s: State, call: Call, s1: State, q: Path, p: Path)
    requires Tree(s) && call.Mount? && Perform(w, s, call).Done? && Perform(w, s, call).value.state == s1 != s
    requires Resolve(w, s, call.target) == Done(Some(q)) && !IsPrefix(q, p)
    ensures At(w, s1, p) == At(w, s, p) && DirAt(w, s1, p) == DirAt(w, s, p)
  {
    var device := if call.source.None? then None else DeviceAt(w, s, call.source.value).value.value;
    MountKeeps(w, s, q, device, call.fs, p);
  }

  lemma CreateOutcome(w: World, s: State, call: Call, s1: State, q: Path) returns (node: RamNode)
    requires Tree(s) && !call.Mount? && Perform(w, s, call).Done? && Perform(w, s, call).value.state == s1 != s
    requires Resolve(w, s, call.path) == Done(Some(q))
    ensures q != [] && InodeAt(w, s, Some(q)).None? && Create(w, s, q, node) == Done(Answer(s1, Opened(Ram(|s.ram|))))
    ensures node == RamNode(call.format, if call.Mknod? then call.device else 0, [])
    ensures call.Open? ==> Perform(w, s, call).value.reply == Opened(Ram(|s.ram|))
    ensures !call.Open? ==> Perform(w, s, call).value.reply == Success
  {
    ResolveReaches(w, s, call.path);
    node := RamNode(call.format, if call.Mknod? then call.device else 0, []);
  }

  lemma {:induction false} WalkSame(w: World, s: State, t: State, q: Path, names: seq<Name>)
    requires names != []
    requires forall i :: 0 <= i <= |names| ==> At(w, t, q + names[..i]) == At(w, s, q + names[..i])
    requires forall i :: 0 <= i <= |names| ==> DirAt(w, t, q + names[..i]) == DirAt(w, s, q + names[..i])
    ensures Walk(w, t, q, names) == Walk(w, s, q, names)
    decreases |names|
  {
    var next := q + [names[0]];
    assert q + names[..1] == next by { assert names[..1] == [names[0]]; }
    assert At(w, t, q + names[..1]) == At(w, s, q + names[..1]) && DirAt(w, t, q + names[..1]) == DirAt(w, s, q + names[..1]);
    if |names| > 1 {
      forall i | 0 <= i <= |names| - 1
        ensures At(w, t, next + names[1..][..i]) == At(w, s, next + names[1..][..i])
        ensures DirAt(w, t, next + names[1..][..i]) == DirAt(w, s, next + names[1..][..i])
      {
        assert next + names[1..][..i] == q + names[..i + 1];
      }
      WalkSame(w, s, t, next, names[1..]);
    }
  }

  /** Opening a path outside that of a call answers after the call what it answered before. */
  lemma OpenElsewhere(w: World, s: State, call: Call, s1: State, reply: Reply, path: seq<char>, d: bool, x: bool, f: Format)
    requires Tree(s) && Perform(w, s, call) == Done(Answer(s1, reply)) && IsAbsolute(path)
    requires IsAbsolute(PathOf(call)) ==> !IsPrefix(Canonical(PathOf(call)), Segments(path))
    ensures var before, after := Perform(w, s, Open(path, false, d, x, f)), Perform(w, s1, Open(path, false, d, x, f));
            after == if before.Fatal? then Fatal else Done(Answer(s1, before.value.reply))
  {
    var names := Segments(path);
    forall i | 0 <= i <= |names|
      ensures At(w, s1, [] + names[..i]) == At(w, s, [] + names[..i]) && DirAt(w, s1, [] + names[..i]) == DirAt(w, s, [] + names[..i])
    {
      PrefixKept(w, s, call, s1, reply, names, i);
    }
    WalkSame(w, s, s1, [], names);
    ResolveMeaning(w, s, path);
    if Canonical(path) == names {
      PrefixKept(w, s, call, s1, reply, names, |names|);
      assert [] + names[..|names|] == names;
    } else {
      PrefixKept(w, s, call, s1, reply, names, |names| - 1);
      assert [] + names[..|names| - 1] == Canonical(path);
    }
    OpenSame(w, s, s1, path, d, x, f);
  }

  lemma PrefixKept(w: World, s: State, call: Call, s1: State, reply: Reply, names: Path, i: nat)
    requires Tree(s) && Perform(w, s, call) == Done(Answer(s1, reply)) && i <= |names|
    requires IsAbsolute(PathOf(call)) ==> !IsPrefix(Canonical(PathOf(call)), names)
    ensures At(w, s1, [] + names[..i]) == At(w, s, [] + names[..i]) && DirAt(w, s1, [] + names[..i]) == DirAt(w, s, [] + names[..i])
  {
    assert [] + names[..i] == names[..i];
    if IsAbsolute(PathOf(call)) {
      PrefixOfPrefix(Canonical(PathOf(call)), names, i);
    }
    KeptElsewhere(w, s, call, s1, reply, names[..i]);
  }

  lemma PrefixOfPrefix(q: Path, names: Path, i: nat)
    requires i <= |names|
    ensures IsPrefix(q, names[..i]) ==> IsPrefix(q, names)
  {
  }

  lemma OpenSame(w: World, s: State, t: State, path: seq<char>, d: bool, x: bool, f: Format)
    requires Resolve(w, t, path) == Resolve(w, s, path)
    requires var q := Resolve(w, s, path);
             q.Done? && q.value.Some? ==> At(w, t, q.value.value) == At(w, s, q.value.value) && DirAt(w, t, q.value.value) == DirAt(w, s, q.value.value)
    ensures var before, after := Perform(w, s, Open(path, false, d, x, f)), Perform(w, t, Open(path, false, d, x, f));
            after == if before.Fatal? then Fatal else Done(Answer(t, before.value.reply))
  {
  }

  lemma AnchorKept(w: World, s: State, call: Call, s1: State, reply: Reply, q: Path, m: Path)
    requires Tree(s) && Anchored(w, s) && Perform(w, s, call) == Done(Answer(s1, reply)) && s1 != s
    requires Resolve(w, s, PathOf(call)) == Done(Some(q)) && IsAbsolute(PathOf(call)) && q == Canonical(PathOf(call))
    requires m in s.mounts && m != [] && (call.Mount? ==> !IsPrefix(q, m))
    ensures DirAt(w, s1, Parent(m))
  {
    assert DirAt(w, s, Parent(m));
    if IsPrefix(q, Parent(m)) {
      assert IsPrefix(q, m);
      var node := CreateOutcome(w, s, call, s1, q);
      NewName(w, s, PathOf(call), q);
      AboveMounts(w, s, q, m);
    } else {
      KeptElsewhere(w, s, call, s1, reply, Parent(m));
    }
  }

  /** Mount points keep hanging in directories. */
  lemma PerformKeepsAnchored(w: World, s: State, call: Call, s1: State, reply: Reply)
    requires Tree(s) && Anchored(w, s) && Perform(w, s, call) == Done(Answer(s1, reply))
    ensures Anchored(w, s1)
  {
    if s1 != s {
      var path := PathOf(call);
      var q := Resolve(w, s, path).value.value;
      ResolveMeaning(w, s, path);
      ResolveReaches(w, s, path);
      MountsAfter(w, s, call, s1, q);
      forall m | m in s1.mounts && m != [] ensures DirAt(w, s1, Parent(m)) {
        if call.Mount? && m == q {
          KeptElsewhere(w, s, call, s1, reply, Parent(m));
        } else {
          AnchorKept(w, s, call, s1, reply, q, m);
        }
      }
    }
  }

  lemma MountsAfter(w: World, s: State, call: Call, s1: State, q: Path)
    requires Tree(s) && Perform(w, s, call).Done? && Perform(w, s, call).value.state == s1 != s
    requires Resolve(w, s, PathOf(call)) == Done(Some(q))
    ensures if call.Mount? then forall m :: m in s1.mounts ==> m == q || (m in s.mounts && !IsPrefix(q, m)) else s1.mounts == s.mounts
  {
    if call.Mount? {
      var device := if call.source.None? then None else DeviceAt(w, s, call.source.value).value.value;
      MountPoints(w, s, q, device, call.fs);
    } else {
      var node := CreateOutcome(w, s, call, s1, q);
      CreateAdds(w, s, call.path, q, node);
    }
  }

  lemma MountPoints(w: World, s: State, p: Path, device: Option<nat>, fs: FsType)
    requires MountAt(w, s, p, device, fs).Done? && MountAt(w, s, p, device, fs).value.state != s
    ensures forall m :: m in MountAt(w, s, p, device, fs).value.state.mounts ==> m == p || (m in s.mounts && !IsPrefix(p, m))
  {
  }

  // ---- a ramfs root is a map from paths to files ----

  datatype File = File(format: Format, device: nat)

  /** A path leads to the file that the map has for it, or to nothing. */
  predicate LeadsTo(w: World, s: State, made: map<Path, File>, q: Path) {
    var i := At(w, s, q);
    && i.Done? && (i.value.Some? <==> q in made)
    && (q in made ==> i.value.value.Ram? && i.value.value.id < |s.ram| && IsFile(s.ram[i.value.value.id], made[q]))
  }

  predicate IsFile(node: RamNode, file: File) { node.format == file.format && node.device == file.device }

  ghost predicate Shows(w: World, s: State, made: map<Path, File>) {
    && Tree(s) && s.mounts.Keys == {[]} && [] in made && made[[]].format == Directory
    && forall q :: LeadsTo(w, s, made, q)
  }

  /** What a call that is no mount adds, going by its reply alone. */
  function MadeBy(call: Call, reply: Reply, made: map<Path, File>): map<Path, File>
    requires !call.Mount?
  {
    if reply.Failed? || !IsAbsolute(call.path) || Canonical(call.path) in made then made
    else made[Canonical(call.path) := File(call.format, if call.Mknod? then call.device else 0)]
  }

  lemma BelowMade(w: World, s: State, made: map<Path, File>, q: Path, p: Path)
    requires Shows(w, s, made) && q !in made && IsPrefix(q, p)
    ensures p !in made
  {
    assert LeadsTo(w, s, made, q) && LeadsTo(w, s, made, p);
    assert LeadsTo(w, s, made, []);
    if p in made && |q| < |p| { ThroughDirectories(w, s, p, |q|); }
    if |q| == |p| { assert p == q; }
  }

  lemma {:induction false} BelowNew(w: World, s: State, d: nat, q: Path, p: Path)
    requires At(w, s, q) == Done(Some(Ram(d))) && d < |s.ram| && s.ram[d].children == [] && s.mounts.Keys == {[]}
    requires IsPrefix(q, p) && |q| < |p|
    ensures At(w, s, p) == Done(None)
    decreases |p|
  {
    if |p| == |q| + 1 {
      assert Parent(p) == q;
    } else {
      assert Parent(p)[..|q|] == p[..|q|];
      BelowNew(w, s, d, q, Parent(p));
    }
  }

  lemma NewLeads(w: World, s: State, call: Call, s1: State, reply: Reply, made: map<Path, File>, q: Path, node: RamNode, p: Path)
    requires Shows(w, s, made) && !call.Mount? && Perform(w, s, call) == Done(Answer(s1, reply)) && IsAbsolute(call.path)
    requires Resolve(w, s, call.path) == Done(Some(q)) && q == Canonical(call.path) && q != [] && q !in made
    requires InodeAt(w, s, Some(q)).None? && Create(w, s, q, node) == Done(Answer(s1, Opened(Ram(|s.ram|)))) && node.children == []
    ensures LeadsTo(w, s1, made[q := File(node.format, node.device)], p)
  {
    assert LeadsTo(w, s, made, p);
    CreatedResolves(w, s, call.path, q, node);
    CreateAdds(w, s, call.path, q, node);
    if !IsPrefix(q, p) {
      KeptElsewhere(w, s, call, s1, reply, p);
    } else if |q| < |p| {
      BelowMade(w, s, made, q, p);
      BelowNew(w, s1, |s.ram|, q, p);
    } else {
      assert p == q;
    }
  }

  /** Each call changes what the paths lead to by what its reply says, and nothing else. */
  lemma PerformMakes(w: World, s: State, call: Call, s1: State, reply: Reply, made: map<Path, File>)
    requires Shows(w, s, made) && !call.Mount? && Perform(w, s, call) == Done(Answer(s1, reply))
    ensures Shows(w, s1, MadeBy(call, reply, made))
  {
    PerformKeepsTree(w, s, call);
    if s1 == s {
      if !reply.Failed? { NothingMade(w, s, call, reply, made); }
    } else {
      var q := Resolve(w, s, call.path).value.value;
      ResolveMeaning(w, s, call.path);
      var node := CreateOutcome(w, s, call, s1, q);
      assert LeadsTo(w, s, made, q);
      CreateAdds(w, s, call.path, q, node);
      forall p ensures LeadsTo(w, s1, MadeBy(call, reply, made), p) { NewLeads(w, s, call, s1, reply, made, q, node, p); }
    }
  }

  lemma NothingMade(w: World, s: State, call: Call, reply: Reply, made: map<Path, File>)
    requires Shows(w, s, made) && !call.Mount? && Perform(w, s, call) == Done(Answer(s, reply)) && !reply.Failed?
    ensures MadeBy(call, reply, made) == made
  {
    if IsAbsolute(call.path) {
      ResolveMeaning(w, s, call.path);
      assert LeadsTo(w, s, made, Canonical(call.path));
    }
  }

  /** What a run makes. */
  function AllMade(calls: seq<Call>, replies: seq<Reply>, made: map<Path, File>): map<Path, File>
    requires |calls| == |replies| && forall i :: 0 <= i < |calls| ==> !calls[i].Mount?
    decreases |calls|
  {
    if calls == [] then made else AllMade(calls[1..], replies[1..], MadeBy(calls[0], replies[0], made))
  }

  lemma {:induction false} RunMakes(w: World, s: State, calls: seq<Call>, made: map<Path, File>)
    requires Shows(w, s, made) && PerformAll(w, s, calls).Done? && forall i :: 0 <= i < |calls| ==> !calls[i].Mount?
    ensures var (s1, replies) := PerformAll(w, s, calls).value;
            |replies| == |calls| && Shows(w, s1, AllMade(calls, replies, made))
    decreases |calls|
  {
    if calls != [] {
      var first := Perform(w, s, calls[0]).value;
      PerformMakes(w, s, calls[0], first.state, first.reply, made);
      RunMakes(w, first.state, calls[1..], MadeBy(calls[0], first.reply, made));
    }
  }

  /** A path opens exactly when the map has it, and as a directory exactly when it is one there, or when the
      path ends in a separator; what is opened has the format and the device of the map. */
  lemma OpensExactlyMade(w: World, s: State, made: map<Path, File>, path: seq<char>, d: bool, f: Format)
    requires Shows(w, s, made)
    ensures var r := Perform(w, s, Open(path, false, d, false, f));
            && r.Done? && r.value.state == s
            && (r.value.reply.Opened? <==>
                  && IsAbsolute(path) && Canonical(path) in made
                  && (d || Canonical(path) != Segments(path) ==> made[Canonical(path)].format == Directory))
            && (r.value.reply.Opened? ==>
                  && r.value.reply.inode.Ram? && r.value.reply.inode.id < |s.ram|
                  && IsFile(s.ram[r.value.reply.inode.id], made[Canonical(path)]))
  {
    if IsAbsolute(path) {
      assert LeadsTo(w, s, made, Canonical(path));
      WalkNeverHalts(w, s, made, [], Segments(path));
      MadeResolves(w, s, made, path);
    }
  }

  lemma MadeResolves(w: World, s: State, made: map<Path, File>, path: seq<char>)
    requires Shows(w, s, made) && IsAbsolute(path) && Resolve(w, s, path).Done?
    ensures var r, q := Resolve(w, s, path).value, Canonical(path);
            && (r.Some? ==> r.value == q)
            && (r.Some? && q in made <==> q in made && (q != Segments(path) ==> made[q].format == Directory))
  {
    var q, names := Canonical(path), Segments(path);
    assert LeadsTo(w, s, made, q) && LeadsTo(w, s, made, []);
    ResolveMeaning(w, s, path);
    if q in made && (q != names ==> made[q].format == Directory) {
      forall i | 1 <= i < |names| ensures DirAt(w, s, names[..i]) {
        if i < |q| { ThroughDirectories(w, s, q, i); assert q[..i] == names[..i]; } else { assert names[..i] == q; }
      }
    }
    if q != names && Resolve(w, s, path).value.Some? && |names| > 1 { assert DirAt(w, s, names[..|names| - 1]); }
  }

  lemma {:induction false} WalkNeverHalts(w: World, s: State, made: map<Path, File>, q: Path, names: seq<Name>)
    requires Shows(w, s, made) && names != []
    ensures Walk(w, s, q, names).Done?
    decreases |names|
  {
    assert LeadsTo(w, s, made, q + [names[0]]);
    if |names| > 1 { WalkNeverHalts(w, s, made, q + [names[0]], names[1..]); }
  }

  /** The names that the map has in a directory, of which a ramfs directory takes eight. */
  function NamesIn(made: map<Path, File>, p: Path): set<Name> {
    set q | q in made && q != [] && Parent(q) == p :: Last(q)
  }

  predicate Full(made: map<Path, File>, p: Path) { |NamesIn(made, p)| >= 8 }

  /** A path that the map does not have, in a directory that it has. */
  predicate Free(made: map<Path, File>, path: seq<char>) {
    && IsAbsolute(path) && Segments(path) == Canonical(path) && Canonical(path) !in made
    && Parent(Canonical(path)) in made && made[Parent(Canonical(path))].format == Directory
  }

  function ChildNames(children: seq<Child>): set<Name> { set c | c in children :: c.name }

  lemma {:induction false} ChildNamesCount(children: seq<Child>)
    requires DistinctNames(children)
    ensures |ChildNames(children)| == |children|
  {
    if children != [] {
      var rest := children[1..];
      assert forall i :: 0 <= i < |rest| ==> rest[i] == children[i + 1];
      ChildNamesCount(rest);
      forall c | c in rest ensures c.name != children[0].name {
        var i :| 0 <= i < |rest| && rest[i] == c;
        assert children[i + 1] == c;
      }
      assert children == [children[0]] + rest;
      assert ChildNames(children) == {children[0].name} + ChildNames(rest);
    }
  }

  lemma ChildIsName(w: World, s: State, made: map<Path, File>, p: Path, d: nat, name: Name)
    requires Shows(w, s, made) && At(w, s, p) == Done(Some(Ram(d))) && d < |s.ram| && s.ram[d].format == Directory
    ensures name in ChildNames(s.ram[d].children) <==> name in NamesIn(made, p)
  {
    var q := p + [name];
    assert Parent(q) == p && Last(q) == name;
    assert LeadsTo(w, s, made, q);
    if name in NamesIn(made, p) {
      var r :| r in made && r != [] && Parent(r) == p && Last(r) == name;
      assert r == Parent(r) + [Last(r)];
    }
  }

  lemma FullIff(w: World, s: State, made: map<Path, File>, p: Path, d: nat)
    requires Shows(w, s, made) && At(w, s, p) == Done(Some(Ram(d))) && d < |s.ram| && s.ram[d].format == Directory
    ensures |s.ram[d].children| == |NamesIn(made, p)|
  {
    ChildNamesCount(s.ram[d].children);
    forall name ensures name in ChildNames(s.ram[d].children) <==> name in NamesIn(made, p) {
      ChildIsName(w, s, made, p, d, name);
    }
    assert ChildNames(s.ram[d].children) == NamesIn(made, p);
  }

  lemma FreeIff(w: World, s: State, made: map<Path, File>, path: seq<char>)
    requires Shows(w, s, made) && IsAbsolute(path) && Resolve(w, s, path).Done?
    ensures var r := Resolve(w, s, path).value;
            Free(made, path) <==> r.Some? && r.value != [] && InodeAt(w, s, r).None?
  {
    var q, names, r := Canonical(path), Segments(path), Resolve(w, s, path).value;
    ResolveMeaning(w, s, path);
    assert LeadsTo(w, s, made, q) && LeadsTo(w, s, made, []);
    if r.Some? && r.value != [] && InodeAt(w, s, r).None? {
      NewName(w, s, path, q);
      assert LeadsTo(w, s, made, Parent(q));
    }
    if Free(made, path) {
      assert LeadsTo(w, s, made, Parent(q));
      forall i | 1 <= i < |names| ensures DirAt(w, s, names[..i]) {
        if i < |names| - 1 {
          ThroughDirectories(w, s, Parent(q), i);
          assert Parent(q)[..i] == names[..i];
        } else {
          assert names[..i] == Parent(q);
        }
      }
    }
  }

  /** Calls that may make something. */
  predicate Permitted(w: World, call: Call) {
    match call
    case Mount(_, _, _) => false
    case Mkdir(_, format) => format == Directory
    case Mknod(_, format, device) =>
      if format == CharDevice then device in w.charDevices else format == BlockDevice && device in w.blockDevices
    case Open(_, create, directory, _, format) => create && !directory && format == Regular
  }

  /** Which calls make something: the permitted ones on free paths. The ninth name of a directory halts; any
      other call on a path that the map does not have fails, and so do mkdir and mknod on one that it has. */
  lemma MakesIff(w: World, s: State, made: map<Path, File>, call: Call)
    requires Shows(w, s, made) && !call.Mount?
    ensures var r := Perform(w, s, call);
            && (r.Fatal? <==> Free(made, call.path) && Permitted(w, call) && Full(made, Parent(Canonical(call.path))))
            && (r.Done? && (!call.Open? || !IsAbsolute(call.path) || Canonical(call.path) !in made) ==>
                  (r.value.reply.Failed? <==> !(Free(made, call.path) && Permitted(w, call))))
  {
    if IsAbsolute(call.path) {
      WalkNeverHalts(w, s, made, [], Segments(call.path));
      var q := Canonical(call.path);
      FreeIff(w, s, made, call.path);
      ResolveMeaning(w, s, call.path);
      assert LeadsTo(w, s, made, q);
      if Free(made, call.path) { CreateIff(w, s, made, call.path, q); }
    }
  }

  lemma CreateIff(w: World, s: State, made: map<Path, File>, path: seq<char>, q: Path)
    requires Shows(w, s, made) && Free(made, path) && Resolve(w, s, path) == Done(Some(q)) && q == Canonical(path)
    ensures q != [] && InRam(w, s, q)
    ensures forall node :: Create(w, s, q, node).Fatal? <==> Full(made, Parent(q))
  {
    assert LeadsTo(w, s, made, Parent(q));
    FullIff(w, s, made, Parent(q), At(w, s, Parent(q)).value.value.id);
  }

  /** From boot, once a ramfs is mounted on the root: after any calls but mounts a path opens if and only if
      it is the root or one of the calls made it, and then as what that call made. */
  lemma BootRunsMake(w: World, calls: seq<Call>, path: seq<char>, d: bool, f: Format)
    requires forall i :: 0 <= i < |calls| ==> !calls[i].Mount?
    requires PerformAll(w, State([], map[], map[]), [Mount("/", None, RamFs)] + calls).Done?
    ensures var (s1, replies) := PerformAll(w, State([], map[], map[]), [Mount("/", None, RamFs)] + calls).value;
            && |replies| == 1 + |calls| && replies[0] == Success
            && var made := AllMade(calls, replies[1..], map[[] := File(Directory, 0)]);
               var r := Perform(w, s1, Open(path, false, d, false, f));
               && r.Done?
               && (r.value.reply.Opened? <==>
                     && IsAbsolute(path) && Canonical(path) in made
                     && (d || Canonical(path) != Segments(path) ==> made[Canonical(path)].format == Directory))
  {
    var s0 := RootMounted(w);
    var all := [Mount("/", None, RamFs)] + calls;
    assert all[1..] == calls && all[0] == Mount("/", None, RamFs);
    RunMakes(w, s0, calls, map[[] := File(Directory, 0)]);
    var (s1, replies) := PerformAll(w, s0, calls).value;
    assert ([Success] + replies)[1..] == replies;
    OpensExactlyMade(w, s1, AllMade(calls, replies, map[[] := File(Directory, 0)]), path, d, f);
  }

  lemma RootMounted(w: World) returns (s: State)
    ensures Perform(w, State([], map[], map[]), Mount("/", None, RamFs)) == Done(Answer(s, Success))
    ensures Shows(w, s, map[[] := File(Directory, 0)])
  {
    var boot := State([], map[], map[]);
    var root := "/";
    assert root[1..] == "" && Split("") == [""];
    assert Resolve(w, boot, root) == Done(Some([]));
    s := MountRam(boot, []);
    assert s.ram == [RamNode(Directory, 0, [])] && s.mounts == map[[] := Ram(0)];
    PerformKeepsTree(w, boot, Mount(root, None, RamFs));
    forall q ensures LeadsTo(w, s, map[[] := File(Directory, 0)], q) {
      if q != [] { BelowNew(w, s, 0, [], q); }
    }
  }
}
