/** What each operation does to filesystems and cache together, as a function on values, and the room it
    needs (src/kernel/vfs/vfs.c). */
module CacheCalls {
  import opened Wrappers
  import opened Namespace
  import opened DentryCache
  import opened CacheWalk

  datatype Effect = Effect(state: State, cache: Cache, reply: Reply)

  /** The inode of a dentry that a lookup has found. */
  function FoundInode(c: Cache, k: Option<nat>): Option<Inode> {
    if k.Some? && k.value < |c.pool| then c.pool[k.value].inode else None
  }

  /** The cache after a call that has created a file at dentry k. */
  function Filled(c: Cache, k: Option<nat>, s: State, s1: State): Cache {
    if k.Some? && k.value < |c.pool| && |s1.ram| > |s.ram| then Fill(c, k.value, Ram(|s.ram|)) else c
  }

  /** The cache after a mount that has succeeded at dentry k. */
  function Flushed(c: Cache, k: nat, s1: State, reply: Reply): Cache {
    if reply == Success && k < |c.pool| == |c.paths| && c.paths[k] in s1.mounts then Flush(c, k, s1.mounts[c.paths[k]]) else c
  }

  ghost function PerformedOn(w: World, s: State, c: Cache, call: Call): Outcome<Effect>
    requires Sound(w, s, c)
  {
    match call
    case Mount(target, source, _) =>
      var (c1, k) :- LookedUp(w, s, c, target);
      var i := FoundInode(c1, k);
      if i.None? || !IsDir(s.ram, i.value) then Done(Effect(s, c1, Failed))
      else
        var (c2, _) :- if source.None? then Done((c1, None)) else LookedUp(w, s, c1, source.value);
        var a :- Perform(w, s, call);
        Done(Effect(a.state, Flushed(c2, k.value, a.state, a.reply), a.reply))
    case _ =>
      var (c1, k) :- LookedUp(w, s, c, call.path);
      var a :- Perform(w, s, call);
      Done(Effect(a.state, Filled(c1, k, s, a.state), a.reply))
  }

  /** Room for the lookups of a call; a mount with a device makes two. */
  ghost predicate RoomForCall(w: World, s: State, c: Cache, call: Call)
    requires Sound(w, s, c)
  {
    match call
    case Mount(target, source, _) =>
      && RoomFor(w, s, c, target)
      && (source.Some? && LookedUp(w, s, c, target).Done? ==>
            var (c1, k) := LookedUp(w, s, c, target).value;
            var i := FoundInode(c1, k);
            i.Some? && IsDir(s.ram, i.value) ==> RoomFor(w, s, c1, source.value))
    case _ => RoomFor(w, s, c, call.path)
  }

  /** Through the cache a call answers what it means without, and halts if and only if that halts or
      there is no room. */
  lemma PerformedIff(w: World, s: State, c: Cache, call: Call)
    requires Sound(w, s, c)
    ensures var r, meant := PerformedOn(w, s, c, call), Perform(w, s, call);
            && (r.Fatal? <==> meant.Fatal? || !RoomForCall(w, s, c, call))
            && (r.Done? ==> meant == Done(Answer(r.value.state, r.value.reply)))
  {
    if call.Mount? { MountIff(w, s, c, call); } else { LookedUpAgrees(w, s, c, call.path); }
  }

  lemma TargetAgrees(w: World, s: State, c: Cache, path: seq<char>)
    requires Sound(w, s, c) && LookedUp(w, s, c, path).Done?
    ensures Resolve(w, s, path).Done?
    ensures var (c1, k) := LookedUp(w, s, c, path).value;
            FoundInode(c1, k) == InodeAt(w, s, Resolve(w, s, path).value)
  {
    LookedUpAgrees(w, s, c, path);
    var (c1, k) := LookedUp(w, s, c, path).value;
    if k.Some? { AgreesHere(w, s, c1, k.value); }
  }

  lemma MountIff(w: World, s: State, c: Cache, call: Call)
    requires Sound(w, s, c) && call.Mount?
    ensures var r, meant := PerformedOn(w, s, c, call), Perform(w, s, call);
            && (r.Fatal? <==> meant.Fatal? || !RoomForCall(w, s, c, call))
            && (r.Done? ==> meant == Done(Answer(r.value.state, r.value.reply)))
  {
    LookedUpAgrees(w, s, c, call.target);
    if LookedUp(w, s, c, call.target).Done? {
      TargetAgrees(w, s, c, call.target);
      if call.source.Some? { LookedUpAgrees(w, s, LookedUp(w, s, c, call.target).value.0, call.source.value); }
    }
  }

  // ---- the invariant ----

  /** Creating the file of a negative dentry keeps cache and filesystems in agreement. */
  lemma CreateKeeps(w: World, s: State, c: Cache, k: nat, node: RamNode)
    requires Sound(w, s, c) && k in c.live && c.pool[k].inode.None? && node.children == [] && c.paths[k] != []
    requires Create(w, s, c.paths[k], node).Done?
    ensures var a := Create(w, s, c.paths[k], node).value;
            |a.state.ram| == |s.ram| + 1 && Sound(w, a.state, Fill(c, k, Ram(|s.ram|)))
  {
    NegativeHasParent(w, s, c, k);
    var d := At(w, s, Parent(c.paths[k])).value.value.id;
    FillKeepsSound(w, s, c, k, d, node);
  }

  /** Mounting keeps it too. */
  lemma MountKeeps(w: World, s: State, c: Cache, k: nat, device: Option<nat>, fs: FsType)
    requires Sound(w, s, c) && k in c.live && MountAt(w, s, c.paths[k], device, fs).Done?
    ensures var a := MountAt(w, s, c.paths[k], device, fs).value;
            Sound(w, a.state, Flushed(c, k, a.state, a.reply))
  {
    MountsKeepTree(s, c.paths[k]);
    match fs
    case RamFs =>
      var t := s.(ram := s.ram + [RamNode(Directory, 0, [])]);
      GrowKeepsSound(w, s, c, RamNode(Directory, 0, []));
      FlushKeepsSound(w, t, c, k, Ram(|s.ram|));
    case Fat32 =>
      if device.value in w.fatVolumes { FlushKeepsSound(w, s, c, k, FatRoot(device.value)); }
  }

  lemma PerformedSound(w: World, s: State, c: Cache, call: Call)
    requires Sound(w, s, c) && PerformedOn(w, s, c, call).Done?
    ensures var e := PerformedOn(w, s, c, call).value; Sound(w, e.state, e.cache)
  {
    if call.Mount? { MountSound(w, s, c, call); } else { CreatingSound(w, s, c, call); }
  }

  lemma MountSound(w: World, s: State, c: Cache, call: Call)
    requires Sound(w, s, c) && call.Mount? && PerformedOn(w, s, c, call).Done?
    ensures var e := PerformedOn(w, s, c, call).value; Sound(w, e.state, e.cache)
  {
    var (c1, k) := LookedUp(w, s, c, call.target).value;
    TargetAgrees(w, s, c, call.target);
    LookedUpAgrees(w, s, c, call.target);
    var i := FoundInode(c1, k);
    if i.Some? && IsDir(s.ram, i.value) {
      var c2 := if call.source.None? then c1 else LookedUp(w, s, c1, call.source.value).value.0;
      assert c2.paths[k.value] == c1.paths[k.value] && k.value in c2.live;
      var device := if call.source.None? then Some(None) else DeviceAt(w, s, call.source.value).value;
      if device.Some? { MountKeeps(w, s, c2, k.value, device.value, call.fs); }
    }
  }

  lemma CreatingSound(w: World, s: State, c: Cache, call: Call)
    requires Sound(w, s, c) && !call.Mount? && PerformedOn(w, s, c, call).Done?
    ensures var e := PerformedOn(w, s, c, call).value; Sound(w, e.state, e.cache)
  {
    var (c1, k) := LookedUp(w, s, c, call.path).value;
    TargetAgrees(w, s, c, call.path);
    LookedUpAgrees(w, s, c, call.path);
    var a := Perform(w, s, call).value;
    if |a.state.ram| > |s.ram| {
      var q := c1.paths[k.value];
      var node := RamNode(call.format, if call.Mknod? then call.device else 0, []);
      assert Create(w, s, q, node).Done? && a.state == Create(w, s, q, node).value.state;
      CreateKeeps(w, s, c1, k.value, node);
    }
  }

  // ---- runs ----

  /** A run of calls through the cache. */
  ghost function PerformedAll(w: World, s: State, c: Cache, calls: seq<Call>): Outcome<(State, Cache, seq<Reply>)>
    requires Sound(w, s, c)
    decreases |calls|
  {
    if calls == [] then Done((s, c, []))
    else
      var e :- PerformedOn(w, s, c, calls[0]);
      PerformedSound(w, s, c, calls[0]);
      var (s1, c1, replies) :- PerformedAll(w, e.state, e.cache, calls[1..]);
      Done((s1, c1, [e.reply] + replies))
  }

  /** There is room for every call of the run when it comes. */
  ghost predicate RoomForAll(w: World, s: State, c: Cache, calls: seq<Call>)
    requires Sound(w, s, c)
    decreases |calls|
  {
    calls == [] ||
    (&& RoomForCall(w, s, c, calls[0])
     && (PerformedOn(w, s, c, calls[0]).Done? ==>
           (PerformedSound(w, s, c, calls[0]);
            var e := PerformedOn(w, s, c, calls[0]).value;
            RoomForAll(w, e.state, e.cache, calls[1..]))))
  }

  function PerformAll(w: World, s: State, calls: seq<Call>): Outcome<(State, seq<Reply>)>
    decreases |calls|
  {
    if calls == [] then Done((s, []))
    else
      var first :- Perform(w, s, calls[0]);
      var (s1, replies) :- PerformAll(w, first.state, calls[1..]);
      Done((s1, [first.reply] + replies))
  }

  /** Over any run the cache changes no reply and no filesystem, and the run halts if and only if it
      halts without the cache or there is no room for one of its calls. */
  lemma {:induction false} PerformedAllIff(w: World, s: State, c: Cache, calls: seq<Call>)
    requires Sound(w, s, c)
    ensures var r, meant := PerformedAll(w, s, c, calls), PerformAll(w, s, calls);
            && (r.Fatal? <==> meant.Fatal? || !RoomForAll(w, s, c, calls))
            && (r.Done? ==> Sound(w, r.value.0, r.value.1) && meant == Done((r.value.0, r.value.2)))
    decreases |calls|
  {
    if calls != [] {
      PerformedIff(w, s, c, calls[0]);
      var r := PerformedOn(w, s, c, calls[0]);
      if r.Done? {
        PerformedSound(w, s, c, calls[0]);
        PerformedAllIff(w, r.value.state, r.value.cache, calls[1..]);
      }
    }
  }

  /** Over every run ramfs directories never hold two children of one name. */
  lemma {:induction false} RunsKeepTree(w: World, s: State, calls: seq<Call>)
    requires Tree(s) && PerformAll(w, s, calls).Done?
    ensures Tree(PerformAll(w, s, calls).value.0)
    decreases |calls|
  {
    if calls != [] {
      PerformKeepsTree(w, s, calls[0]);
      RunsKeepTree(w, Perform(w, s, calls[0]).value.state, calls[1..]);
    }
  }
}
