/** The virtual filesystem with its dentry cache updated in place, proved against the uncached
    meaning of paths (src/kernel/vfs/vfs.c). */
module Vfs {
  import opened Wrappers
  import opened FsUtils
  import opened Namespace
  import opened DentryCache
  import opened CacheWalk
  import opened CacheCalls

  /** _strchr for the separator. */
  method FindSeparator(path: seq<char>) returns (n: nat)
    ensures n == Cut(path)
  {
    n := 0;
    while n < |path| && path[n] != '/'
      invariant n <= |path| && Cut(path) == n + Cut(path[n..])
    {
      assert path[n..][1..] == path[n + 1..];
      n := n + 1;
    }
  }

  class Vfs {
    const world: World
    var pool: seq<Dentry>
    var ram: seq<RamNode>
    // what the proofs track
    ghost var paths: seq<Path>
    ghost var live: set<nat>
    ghost var mounts: map<Path, Inode>
    ghost var owner: map<nat, Slot>

    /** The filesystems without the cache. */
    ghost function View(): State
      reads this
    {
      State(ram, mounts, owner)
    }

    ghost function Cached(): Cache
      reads this
    {
      Cache(pool, paths, live)
    }

    ghost predicate Valid()
      reads this
    {
      Sound(world, View(), Cached())
    }

    /** vfs_init. */
    constructor (world: World)
      ensures Valid() && this.world == world && View() == State([], map[], map[])
    {
      this.world := world;
      pool, ram := [Dentry("root", Some(InitialRoot), None, [])], [];
      paths, live, mounts, owner := [[]], {0}, map[], map[];
    }

    /** inode_ops->lookup through the operations of the inode. */
    method InodeLookup(dir: Inode, name: Name) returns (r: Outcome<Option<Inode>>)
      ensures r == LookupIn(world, ram, dir, name)
    {
      match dir
      case InitialRoot => return Fatal;
      case Fat(node) =>
        var found :- world.fatLookup(node, name);
        return Done(if found.None? then None else Some(Fat(found.value)));
      case Ram(id) =>
        if id >= |ram| { return Fatal; }
        var children := ram[id].children;
        var i := 0;
        while i < |children|
          invariant i <= |children| && FindChild(children, name) == FindChild(children[i..], name)
        {
          assert children[i..][1..] == children[i + 1..];
          if children[i].name == name { return Done(Some(Ram(children[i].id))); }
          i := i + 1;
        }
        return Done(None);
    }

    /** The loop over the cached children. */
    method FindCached(p: nat, name: Name) returns (r: Option<nat>)
      requires Valid() && DirDentryAt(View(), Cached(), p)
      ensures r.Some? ==> IsCached(Cached(), paths[p] + [name]) && r.value == IndexOf(Cached(), paths[p] + [name])
      ensures r.None? ==> NoChildNamed(Cached(), p, name) && !IsCached(Cached(), paths[p] + [name])
    {
      assert LinkOk(Cached(), p);
      var i := 0;
      while i < |pool[p].children|
        invariant i <= |pool[p].children|
        invariant forall x :: 0 <= x < i ==> pool[p].children[x] < |pool| && pool[pool[p].children[x]].name != name
      {
        var child := pool[p].children[i];
        ParentPath(Cached(), p, child);
        if pool[child].name == name {
          assert paths[child] == paths[p] + [name];
          return Some(child);
        }
        i := i + 1;
      }
      MissNotCached(Cached(), p, name);
      return None;
    }

    /** A new dentry for a child that is not cached. */
    method AddDentry(p: nat, name: Name, inode: Option<Inode>) returns (r: Outcome<nat>)
      requires Valid() && DirDentryAt(View(), Cached(), p) && NoChildNamed(Cached(), p, name)
      requires LookupIn(world, ram, pool[p].inode.value, name) == Done(inode)
      modifies this`pool, this`paths, this`live
      ensures r.Fatal? <==> |name| > MAX_NAME || |old(pool)| == MAX_DENTRIES || |old(pool)[p].children| == MAX_CHILDREN
      ensures r.Done? ==> Valid() && r.value == |old(pool)| && Cached() == Insert(old(Cached()), p, name, inode)
    {
      if |pool| == MAX_DENTRIES || |name| > MAX_NAME || |pool[p].children| == MAX_CHILDREN { return Fatal; }
      ghost var was := Cached();
      assert LinkOk(was, p);
      InsertKeepsSound(world, View(), was, p, name, inode);
      var new_dentry := |pool|;
      pool := pool[p := pool[p].(children := pool[p].children + [new_dentry])] + [Dentry(name, inode, Some(p), [])];
      paths, live := paths + [paths[p] + [name]], live + {new_dentry};
      assert Cached() == Insert(was, p, name, inode);
      return Done(new_dentry);
    }

    /** _vfs_dentry_child_by_name. */
    method ChildByName(p: nat, name: Name) returns (r: Outcome<nat>)
      requires Valid() && DirDentryAt(View(), Cached(), p)
      modifies this`pool, this`paths, this`live
      ensures match Stepped(world, View(), old(Cached()), p, name)
              case Fatal => r.Fatal?
              case Done((c, k)) => r == Done(k) && Cached() == c && Valid()
    {
      var cached := FindCached(p, name);
      if cached.Some? { return Done(cached.value); }
      var inode :- InodeLookup(pool[p].inode.value, name);
      r := AddDentry(p, name, inode);
    }

    /** _vfs_node_lookup_rec: None when something on the way is missing or no directory. */
    method LookupRec(p: nat, path: seq<char>) returns (r: Outcome<Option<nat>>)
      requires Valid() && DirDentryAt(View(), Cached(), p)
      modifies this`pool, this`paths, this`live
      ensures match Walked(world, View(), old(Cached()), p, Split(path))
              case Fatal => r.Fatal?
              case Done((c, k)) => r == Done(k) && Cached() == c && Valid()
      decreases |path|
    {
      var n := FindSeparator(path);
      SplitStep(path);
      if n == |path| && n == 0 { return Done(Some(p)); }
      if n < |path| && n > MAX_NAME { return Fatal; }
      var child :- ChildByName(p, path[..n]);
      if n == |path| { return Done(Some(child)); }
      if pool[child].inode.None? || !IsDir(ram, pool[child].inode.value) { return Done(None); }
      r := LookupRec(child, path[n + 1..]);
    }

    /** _vfs_dentry_lookup. Its assertion, that a negative dentry has a directory for a parent, is
        proved where the code makes it. */
    method Lookup(path: seq<char>) returns (r: Outcome<Option<nat>>)
      requires Valid()
      modifies this`pool, this`paths, this`live
      ensures match LookedUp(world, View(), old(Cached()), path)
              case Fatal => r.Fatal?
              case Done((c, k)) => r == Done(k) && Cached() == c && Valid()
    {
      if path == [] || path[0] != '/' { return Done(None); }
      RootPositive(world, View(), Cached());
      r := LookupRec(0, path[1..]);
      if r.Done? && r.value.Some? {
        var k := r.value.value;
        if pool[k].inode.None? { NegativeHasParent(world, View(), Cached(), k); }
        assert pool[k].inode.Some? ||
               (pool[k].parent.Some? && pool[pool[k].parent.value].inode.Some? &&
                IsDir(ram, pool[pool[k].parent.value].inode.value));
      }
    }

    // ---- the ramfs and the operations ----

    /** _add_inode_child on a fresh inode, then the update of the negative dentry. */
    method NewFile(k: nat, node: RamNode) returns (r: Outcome<Inode>)
      requires Valid() && k in live && k < |pool| && pool[k].inode.None? && node.children == []
      requires paths[k] != [] && InRam(world, View(), paths[k])
      modifies this`pool, this`ram, this`owner
      ensures match Create(world, old(View()), paths[k], node)
              case Fatal => r.Fatal?
              case Done(made) =>
                && r.Done? && Valid() && View() == made.state && made.reply == Opened(r.value)
                && Cached() == Fill(old(Cached()), k, Ram(|old(ram)|)) && |ram| == |old(ram)| + 1
    {
      ghost var s, c := View(), Cached();
      NegativeHasParent(world, s, c, k);
      var d := pool[pool[k].parent.value].inode.value.id;
      if |ram[d].children| >= MAX_RAM_CHILDREN { return Fatal; }
      FillKeepsSound(world, s, c, k, d, node);
      var id := |ram|;
      ram := ram[d := ram[d].(children := ram[d].children + [Child(pool[k].name, id)])] + [node];
      owner := owner[id := Slot(d, pool[k].name)];
      pool := pool[k := pool[k].(inode := Some(Ram(id)))];
      assert View() == AddChild(s, d, Last(c.paths[k]), node);
      assert Cached() == Fill(c, k, Ram(id));
      return Done(Ram(id));
    }

    /** The inode of the parent of a negative dentry. */
    method ParentInode(k: nat) returns (parent: Inode)
      requires Valid() && k in live && k < |pool| && pool[k].inode.None?
      ensures paths[k] != [] && At(world, View(), Parent(paths[k])) == Done(Some(parent)) && IsDir(ram, parent)
    {
      NegativeHasParent(world, View(), Cached(), k);
      parent := pool[pool[k].parent.value].inode.value;
    }

    /** What a call returns and leaves behind, filesystems and cache: what PerformedOn says. By
        CacheCalls.PerformedIff that is what the call means without the cache. */
    ghost predicate Answers(s: State, c: Cache, call: Call, r: Outcome<Reply>)
      requires Sound(world, s, c)
      reads this
    {
      match PerformedOn(world, s, c, call)
      case Fatal => r.Fatal?
      case Done(e) => r == Done(e.reply) && View() == e.state && Cached() == e.cache && Valid()
    }

    /** The file that mknod and mkdir make at the negative dentry k of the path. */
    method MakeAt(k: nat, node: RamNode) returns (r: Outcome<Reply>)
      requires Valid() && k in live && k < |pool| && pool[k].inode.None? && node.children == []
      requires paths[k] != [] && InRam(world, View(), paths[k])
      modifies this`pool, this`ram, this`owner
      ensures match Create(world, old(View()), paths[k], node)
              case Fatal => r.Fatal?
              case Done(made) =>
                && r == Done(Success) && Valid() && View() == made.state
                && Cached() == Fill(old(Cached()), k, Ram(|old(ram)|)) && |ram| == |old(ram)| + 1
    {
      var made :- NewFile(k, node);
      return Done(Success);
    }

    /** vfs_mknod, with the checks of the ramfs. */
    method Mknod(path: seq<char>, format: Format, device: nat) returns (r: Outcome<Reply>)
      requires Valid()
      modifies this
      ensures Answers(old(View()), old(Cached()), Namespace.Mknod(path, format, device), r)
    {
      var found :- Lookup(path);
      TargetAgrees(world, View(), old(Cached()), path);
      LookedUpAgrees(world, View(), old(Cached()), path);
      if found.None? || pool[found.value].inode.Some? { return Done(Failed); }
      var k := found.value;
      var parent := ParentInode(k);
      if !parent.Ram? { return Fatal; }
      if (format == CharDevice && device in world.charDevices) || (format == BlockDevice && device in world.blockDevices) {
        r := MakeAt(k, RamNode(format, device, []));
        return;
      }
      return Done(Failed);
    }

    /** vfs_mkdir. The ramfs looks the name up once more; it never finds it. */
    method Mkdir(path: seq<char>, format: Format) returns (r: Outcome<Reply>)
      requires Valid()
      modifies this
      ensures Answers(old(View()), old(Cached()), Namespace.Mkdir(path, format), r)
    {
      var found :- Lookup(path);
      TargetAgrees(world, View(), old(Cached()), path);
      LookedUpAgrees(world, View(), old(Cached()), path);
      if found.None? || pool[found.value].inode.Some? { return Done(Failed); }
      var k := found.value;
      var parent := ParentInode(k);
      if !parent.Ram? { return Fatal; }
      if format != Directory { return Done(Failed); }
      NameIsLast(world, View(), Cached(), k);
      var existing := InodeLookup(parent, pool[k].name);
      if existing.Fatal? { return Fatal; }
      if existing.value.Some? { return Done(Failed); }
      r := MakeAt(k, RamNode(format, 0, []));
    }

    /** The creating branch of vfs_file_open: a parent without a create operation refuses. */
    method CreateFile(k: nat, format: Format) returns (r: Outcome<Reply>)
      requires Valid() && k in live && k < |pool| && pool[k].inode.None?
      modifies this`pool, this`ram, this`owner
      ensures paths == old(paths) && paths[k] != []
      ensures
        if !InRam(world, old(View()), paths[k]) || format != Regular then
          r == Done(Failed) && Valid() && View() == old(View()) && Cached() == old(Cached())
        else
          match Create(world, old(View()), paths[k], RamNode(format, 0, []))
          case Fatal => r.Fatal?
          case Done(made) =>
            && r == Done(made.reply) && Valid() && View() == made.state
            && Cached() == Fill(old(Cached()), k, Ram(|old(ram)|)) && |ram| == |old(ram)| + 1
    {
      var parent := ParentInode(k);
      if !parent.Ram? || format != Regular { return Done(Failed); }
      var made :- NewFile(k, RamNode(format, 0, []));
      return Done(Opened(made));
    }

    /** vfs_file_open up to the call of file_ops->open. */
    method Open(path: seq<char>, create: bool, directory: bool, exclusive: bool, format: Format) returns (r: Outcome<Reply>)
      requires Valid()
      modifies this
      ensures Answers(old(View()), old(Cached()), Namespace.Open(path, create, directory, exclusive, format), r)
    {
      var found :- Lookup(path);
      TargetAgrees(world, View(), old(Cached()), path);
      LookedUpAgrees(world, View(), old(Cached()), path);
      if found.None? { return Done(Failed); }
      var k := found.value;
      if pool[k].inode.None? {
        if !create || directory { return Done(Failed); }
        r := CreateFile(k, format);
        return;
      }
      if exclusive { return Done(Failed); }
      var inode := pool[k].inode.value;
      if directory && !IsDir(ram, inode) { return Done(Failed); }
      return Done(Opened(inode));
    }

    /** The end of _vfs_mount_dev: the dentry gets the root and forgets its children. */
    method Attach(k: nat, root: Inode, ghost before: State)
      requires Sound(world, before, Cached()) && k in live && k < |pool|
      requires View() == before && IsDir(ram, root) && Tree(Cover(before, paths[k], root))
      modifies this`pool, this`live, this`mounts
      ensures Valid() && View() == Cover(before, paths[k], root) && Cached() == Flush(old(Cached()), k, root)
    {
      ghost var c := Cached();
      FlushKeepsSound(world, before, c, k, root);
      pool := pool[k := pool[k].(inode := Some(root), children := [])];
      live := Flush(c, k, root).live;
      mounts := Cover(before, paths[k], root).mounts;
      assert Cached() == Flush(c, k, root);
    }

    /** _vfs_mount_dev on the directory of dentry k. */
    method MountDevice(k: nat, device: Option<nat>, fs: FsType) returns (r: Outcome<Reply>)
      requires Valid() && k in live && k < |pool|
      modifies this
      ensures match MountAt(world, old(View()), old(paths[k]), device, fs)
              case Fatal => r.Fatal?
              case Done(a) =>
                r == Done(a.reply) && View() == a.state && Cached() == Flushed(old(Cached()), k, a.state, a.reply) && Valid()
    {
      ghost var s, c := View(), Cached();
      MountsKeepTree(s, paths[k]);
      match fs
      case UnknownFs => return Fatal;
      case RamFs =>
        GrowKeepsSound(world, s, c, RamNode(Directory, 0, []));
        ram := ram + [RamNode(Directory, 0, [])];
        Attach(k, Ram(|ram| - 1), View());
        return Done(Success);
      case Fat32 =>
        if device.None? { return Fatal; }
        if device.value !in world.fatVolumes { return Done(Failed); }
        Attach(k, FatRoot(device.value), s);
        return Done(Success);
    }

    /** The block device behind a path: None when the path leads to no block device file. */
    method FindDevice(path: seq<char>) returns (r: Outcome<Option<Option<nat>>>)
      requires Valid()
      modifies this`pool, this`paths, this`live
      ensures match LookedUp(world, View(), old(Cached()), path)
              case Fatal => r.Fatal?
              case Done((c, _)) => r == DeviceAt(world, View(), path) && r.Done? && Cached() == c && Valid()
    {
      var found :- Lookup(path);
      TargetAgrees(world, View(), old(Cached()), path);
      if found.None? { return Done(None); }
      var k := found.value;
      if pool[k].inode.None? || FormatOf(ram, pool[k].inode.value) != BlockDevice { return Done(None); }
      var inode := pool[k].inode.value;
      if !inode.Ram? || inode.id >= |ram| { return Done(None); }
      var device := ram[inode.id].device;
      return Done(Some(if device in world.blockDevices then Some(device) else None));
    }

    /** vfs_mount on the directory of dentry k, from the lookup of the device on. */
    method MountFrom(k: nat, source: seq<char>, fs: FsType) returns (r: Outcome<Reply>)
      requires Valid() && k in live && k < |pool|
      modifies this
      ensures match LookedUp(world, old(View()), old(Cached()), source)
              case Fatal => r.Fatal?
              case Done((c, _)) =>
                && DeviceAt(world, old(View()), source).Done?
                && match DeviceAt(world, old(View()), source).value
                   case None => r == Done(Failed) && View() == old(View()) && Cached() == c && Valid()
                   case Some(device) =>
                     match MountAt(world, old(View()), old(paths[k]), device, fs)
                     case Fatal => r.Fatal?
                     case Done(a) => r == Done(a.reply) && View() == a.state && Cached() == Flushed(c, k, a.state, a.reply) && Valid()
    {
      var block :- FindDevice(source);
      if block.None? { return Done(Failed); }
      r := MountDevice(k, block.value, fs);
    }

    /** vfs_mount. */
    method Mount(target: seq<char>, source: Option<seq<char>>, fs: FsType) returns (r: Outcome<Reply>)
      requires Valid()
      modifies this
      ensures Answers(old(View()), old(Cached()), Namespace.Mount(target, source, fs), r)
    {
      var found :- Lookup(target);
      TargetAgrees(world, View(), old(Cached()), target);
      LookedUpAgrees(world, View(), old(Cached()), target);
      if found.None? || pool[found.value].inode.None? || !IsDir(ram, pool[found.value].inode.value) { return Done(Failed); }
      if source.None? {
        r := MountDevice(found.value, None, fs);
      } else {
        r := MountFrom(found.value, source.value, fs);
      }
    }

    method Execute(call: Call) returns (r: Outcome<Reply>)
      requires Valid()
      modifies this
      ensures Answers(old(View()), old(Cached()), call, r)
    {
      match call
      case Mount(target, source, fs) => r := Mount(target, source, fs);
      case Mknod(path, format, device) => r := Mknod(path, format, device);
      case Mkdir(path, format) => r := Mkdir(path, format);
      case Open(path, create, directory, exclusive, format) => r := Open(path, create, directory, exclusive, format);
    }

    /** Any run of calls through the cache gives the replies of the run without it and leaves the same
        filesystems; it halts if and only if the run without the cache does or there is no room for one
        of its calls. */
    method Replay(calls: seq<Call>) returns (r: Outcome<seq<Reply>>)
      requires Valid()
      modifies this
      ensures var meant := PerformAll(world, old(View()), calls);
              && (r.Fatal? <==> meant.Fatal? || !RoomForAll(world, old(View()), old(Cached()), calls))
              && (r.Done? ==> Valid() && meant == Done((View(), r.value)))
    {
      ghost var s, c := View(), Cached();
      PerformedAllIff(world, s, c, calls);
      var replies: seq<Reply> := [];
      assert calls[0..] == calls;
      ContinueNothing(PerformedAll(world, s, c, calls));
      for i := 0 to |calls|
        invariant Valid()
        invariant PerformedAll(world, s, c, calls) == Continue(replies, PerformedAll(world, View(), Cached(), calls[i..]))
      {
        assert calls[i..][1..] == calls[i + 1..];
        ContinueStep(world, View(), Cached(), replies, calls[i..]);
        PerformedIff(world, View(), Cached(), calls[i]);
        var reply :- Execute(calls[i]);
        replies := replies + [reply];
      }
      assert replies + [] == replies;
      return Done(replies);
    }
  }

  /** The segments in terms of the separator. */
  lemma SplitStep(path: seq<char>)
    ensures var n, segments := Cut(path), Split(path);
            && segments[0] == path[..n]
            && (n == |path| ==> |segments| == 1)
            && (n < |path| ==> |segments| > 1 && segments[1..] == Split(path[n + 1..]))
  {
    if Cut(path) == |path| { assert path[..|path|] == path; }
  }

  // ---- runs ----

  function Continue<A, B>(replies: seq<Reply>, rest: Outcome<(A, B, seq<Reply>)>): Outcome<(A, B, seq<Reply>)> {
    if rest.Fatal? then Fatal else Done((rest.value.0, rest.value.1, replies + rest.value.2))
  }

  lemma ContinueNothing<A, B>(rest: Outcome<(A, B, seq<Reply>)>)
    ensures Continue([], rest) == rest
  {
    if rest.Done? { assert [] + rest.value.2 == rest.value.2; }
  }

  function WithReply<A, B>(reply: Reply, rest: Outcome<(A, B, seq<Reply>)>): Outcome<(A, B, seq<Reply>)> {
    if rest.Fatal? then Fatal else Done((rest.value.0, rest.value.1, [reply] + rest.value.2))
  }

  lemma ContinueMoves<A, B>(replies: seq<Reply>, reply: Reply, rest: Outcome<(A, B, seq<Reply>)>)
    ensures Continue(replies, WithReply(reply, rest)) == Continue(replies + [reply], rest)
  {
    if rest.Done? { assert replies + ([reply] + rest.value.2) == (replies + [reply]) + rest.value.2; }
  }

  lemma PerformedFirst(w: World, s: State, c: Cache, calls: seq<Call>)
    requires calls != [] && Sound(w, s, c)
    ensures var first := PerformedOn(w, s, c, calls[0]);
            PerformedAll(w, s, c, calls) ==
            if first.Fatal? then Fatal
            else
              (PerformedSound(w, s, c, calls[0]);
               WithReply(first.value.reply, PerformedAll(w, first.value.state, first.value.cache, calls[1..])))
  {
  }

  lemma ContinueStep(w: World, s: State, c: Cache, replies: seq<Reply>, calls: seq<Call>)
    requires calls != [] && Sound(w, s, c)
    ensures var first := PerformedOn(w, s, c, calls[0]);
            Continue(replies, PerformedAll(w, s, c, calls)) ==
            if first.Fatal? then Fatal
            else
              (PerformedSound(w, s, c, calls[0]);
               Continue(replies + [first.value.reply], PerformedAll(w, first.value.state, first.value.cache, calls[1..])))
  {
    PerformedFirst(w, s, c, calls);
    var first := PerformedOn(w, s, c, calls[0]);
    if first.Done? {
      PerformedSound(w, s, c, calls[0]);
      ContinueMoves(replies, first.value.reply, PerformedAll(w, first.value.state, first.value.cache, calls[1..]));
    }
  }
}
