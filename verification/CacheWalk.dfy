/** Lookup through the dentry cache as a function on values, when it agrees with the uncached walk, and
    exactly when it finds no room, in the cache or for a name (src/kernel/vfs/vfs.c). */
module CacheWalk {
  import opened Wrappers
  import opened FsUtils
  import opened Namespace
  import opened DentryCache

  /** A live directory dentry. */
  ghost predicate DirDentryAt(s: State, c: Cache, p: nat) {
    p in c.live && p < |c.pool| && c.pool[p].inode.Some? && IsDir(s.ram, c.pool[p].inode.value)
  }

  /** The live dentry of a cached path; there is only one. */
  ghost function IndexOf(c: Cache, q: Path): (k: nat)
    requires IsCached(c, q)
    ensures k in c.live && k < |c.paths| && c.paths[k] == q
  {
    var k :| k in c.live && k < |c.paths| && c.paths[k] == q;
    k
  }

  /** _vfs_dentry_child_by_name: the cached child, or a new dentry that holds what the directory says. It
      halts when the directory does, when the pool is used up and when the parent has 8 children. A name
      that is too long for the dentry overwrites what stands behind it: there the model stops too. */
  ghost function Stepped(w: World, s: State, c: Cache, p: nat, name: Name): (r: Outcome<(Cache, nat)>)
    requires Sound(w, s, c) && DirDentryAt(s, c, p)
    ensures r.Done? ==>
      && Sound(w, s, r.value.0) && Extends(c, r.value.0)
      && r.value.1 in r.value.0.live && r.value.0.paths[r.value.1] == c.paths[p] + [name]
  {
    var child := c.paths[p] + [name];
    if IsCached(c, child) then Done((c, IndexOf(c, child)))
    else
      NotCachedIsMiss(c, p, name);
      var inode :- LookupIn(w, s.ram, c.pool[p].inode.value, name);
      if |name| > MAX_NAME || |c.pool| == MAX_DENTRIES || |c.pool[p].children| == MAX_CHILDREN then Fatal
      else
        assert LinkOk(c, p);
        InsertKeepsSound(w, s, c, p, name, inode);
        Done((Insert(c, p, name, inode), |c.pool|))
  }

  lemma NotCachedIsMiss(c: Cache, p: nat, name: Name)
    requires Linked(c) && p in c.live && !IsCached(c, c.paths[p] + [name])
    ensures NoChildNamed(c, p, name)
  {
    assert LinkOk(c, p);
    forall ch | ch in c.pool[p].children ensures c.pool[ch].name != name { ParentPath(c, p, ch); }
  }

  /** _vfs_node_lookup_rec on the segments of a path. All but the last are copied to a buffer first. */
  ghost function Walked(w: World, s: State, c: Cache, p: nat, segments: seq<Name>): (r: Outcome<(Cache, Option<nat>)>)
    requires Sound(w, s, c) && DirDentryAt(s, c, p) && segments != []
    ensures r.Done? ==>
      && Sound(w, s, r.value.0) && Extends(c, r.value.0) && (r.value.1.Some? ==> r.value.1.value in r.value.0.live)
    decreases |segments|
  {
    if |segments| == 1 && segments[0] == [] then Done((c, Some(p)))
    else if |segments| > 1 && |segments[0]| > MAX_NAME then Fatal
    else
      var (c1, child) :- Stepped(w, s, c, p, segments[0]);
      if |segments| == 1 then Done((c1, Some(child)))
      else if !DirDentryAt(s, c1, child) then Done((c1, None))
      else
        var r :- Walked(w, s, c1, child, segments[1..]);
        ExtendsTransitive(c, c1, r.0);
        Done(r)
  }

  /** What the cached step means. */
  lemma SteppedMeans(w: World, s: State, c: Cache, p: nat, name: Name)
    requires Sound(w, s, c) && DirDentryAt(s, c, p)
    ensures var r, child := Stepped(w, s, c, p, name), c.paths[p] + [name];
            && (r.Done? ==> At(w, s, child).Done? && (DirDentryAt(s, r.value.0, r.value.1) <==> DirAt(w, s, child)))
            && (r.Fatal? ==> !IsCached(c, child))
            && (r.Done? && !IsCached(c, child) ==> |name| <= MAX_NAME)
            && (At(w, s, child).Fatal? ==> r.Fatal?)
  {
    var r := Stepped(w, s, c, p, name);
    if r.Done? { AgreesHere(w, s, r.value.0, r.value.1); }
  }

  /** The cached walk ends where the uncached one does. */
  lemma {:induction false} WalkedAgrees(w: World, s: State, c: Cache, p: nat, segments: seq<Name>)
    requires Sound(w, s, c) && DirDentryAt(s, c, p) && segments != []
    ensures var r, meant := Walked(w, s, c, p, segments), Walk(w, s, c.paths[p], segments);
            r.Done? ==>
              match r.value.1
              case None => meant == Done(None)
              case Some(k) => meant == Done(Some(r.value.0.paths[k]))
    decreases |segments|
  {
    if !(|segments| == 1 && segments[0] == []) {
      SteppedMeans(w, s, c, p, segments[0]);
      var r := Stepped(w, s, c, p, segments[0]);
      if r.Done? && |segments| > 1 && DirDentryAt(s, r.value.0, r.value.1) {
        WalkedAgrees(w, s, r.value.0, r.value.1, segments[1..]);
      }
    }
  }

  // ---- room ----

  /** The child lookups that the uncached walk makes. */
  ghost function Lookups(w: World, s: State, q: Path, segments: seq<Name>): nat
    requires segments != []
    decreases |segments|
  {
    if |segments| == 1 then if segments[0] == [] then 0 else 1
    else 1 + if DirAt(w, s, q + [segments[0]]) then Lookups(w, s, q + [segments[0]], segments[1..]) else 0
  }

  predicate FewChildren(c: Cache, q: Path) {
    forall k :: k in c.live && k < |c.pool| && k < |c.paths| && c.paths[k] == q ==> |c.pool[k].children| < MAX_CHILDREN
  }

  /** There is room for a walk: each step is cached up to the first one that is not, the dentry there has
      fewer than 8 children, and the pool has a slot for every lookup from there on. */
  ghost predicate Room(w: World, s: State, c: Cache, q: Path, segments: seq<Name>)
    requires segments != []
    decreases |segments|
  {
    (|segments| == 1 && segments[0] == []) ||
    (var child := q + [segments[0]];
     if IsCached(c, child) then
       |segments| > 1 && DirAt(w, s, child) ==> Room(w, s, c, child, segments[1..])
     else FewChildren(c, q) && |c.pool| + Lookups(w, s, q, segments) <= MAX_DENTRIES)
  }

  /** The walk copies a segment that is too long: to the buffer unless it is the last one, and to a new
      dentry. */
  ghost predicate MeetsLongName(w: World, s: State, c: Cache, q: Path, segments: seq<Name>)
    requires segments != []
    decreases |segments|
  {
    var child := q + [segments[0]];
    if |segments| == 1 then |segments[0]| > MAX_NAME && !IsCached(c, child)
    else |segments[0]| > MAX_NAME || (DirAt(w, s, child) && MeetsLongName(w, s, c, child, segments[1..]))
  }

  /** A dentry that is added does not matter further on. */
  lemma {:induction false} LongNameBehind(w: World, s: State, c: Cache, c1: Cache, q: Path, segments: seq<Name>)
    requires segments != [] && forall p: Path :: |p| > |q| ==> (IsCached(c1, p) <==> IsCached(c, p))
    ensures MeetsLongName(w, s, c1, q, segments) <==> MeetsLongName(w, s, c, q, segments)
    decreases |segments|
  {
    if |segments| > 1 { LongNameBehind(w, s, c, c1, q + [segments[0]], segments[1..]); }
  }

  /** Behind a new dentry nothing is cached, so there the room is a matter of the pool alone. */
  lemma RoomBehindNew(w: World, s: State, c: Cache, p: nat, name: Name, inode: Option<Inode>, segments: seq<Name>)
    requires Linked(c) && p < |c.pool| && p in c.live && Linked(Insert(c, p, name, inode)) && segments != []
    ensures var c1, child := Insert(c, p, name, inode), c.paths[p] + [name];
            Room(w, s, c1, child, segments) <==> |c1.pool| + Lookups(w, s, child, segments) <= MAX_DENTRIES
  {
    var c1, n, child := Insert(c, p, name, inode), |c.pool|, c.paths[p] + [name];
    assert c1.paths[n] == child && c1.pool[n].children == [];
    if !(|segments| == 1 && segments[0] == []) {
      assert LinkOk(c1, n);
      assert NoChildNamed(c1, n, segments[0]);
      MissNotCached(c1, n, segments[0]);
    }
  }

  lemma FewIs(c: Cache, p: nat)
    requires Linked(c) && p in c.live
    ensures FewChildren(c, c.paths[p]) <==> |c.pool[p].children| < MAX_CHILDREN
  {
  }

  /** The cached walk halts if and only if the uncached one does, or there is no room for it in the
      cache, or it copies a name that is too long. */
  lemma {:induction false} WalkedRoom(w: World, s: State, c: Cache, p: nat, segments: seq<Name>)
    requires Sound(w, s, c) && DirDentryAt(s, c, p) && segments != []
    ensures Walked(w, s, c, p, segments).Fatal? <==>
              || Walk(w, s, c.paths[p], segments).Fatal?
              || !Room(w, s, c, c.paths[p], segments) || MeetsLongName(w, s, c, c.paths[p], segments)
    decreases |segments|
  {
    if !(|segments| == 1 && segments[0] == []) && !(|segments| > 1 && |segments[0]| > MAX_NAME) {
      var child := c.paths[p] + [segments[0]];
      SteppedMeans(w, s, c, p, segments[0]);
      FewIs(c, p);
      assert LinkOk(c, p);
      var r := Stepped(w, s, c, p, segments[0]);
      if r.Done? {
        var (c1, k) := r.value;
        if |segments| > 1 && DirAt(w, s, child) {
          WalkedRoom(w, s, c1, k, segments[1..]);
          if !IsCached(c, child) { NewRoom(w, s, c, p, segments, c1, k); }
        }
      } else {
        StepFails(w, s, c, p, segments[0]);
      }
    }
  }

  lemma StepFails(w: World, s: State, c: Cache, p: nat, name: Name)
    requires Sound(w, s, c) && DirDentryAt(s, c, p) && Stepped(w, s, c, p, name).Fatal?
    ensures || At(w, s, c.paths[p] + [name]).Fatal? || |name| > MAX_NAME
            || |c.pool| == MAX_DENTRIES || |c.pool[p].children| == MAX_CHILDREN
  {
    NotCachedIsMiss(c, p, name);
    AtMiss(w, s, c, p, name);
  }

  lemma InsertedOnly(c: Cache, p: nat, name: Name, inode: Option<Inode>)
    requires Linked(c) && p in c.live && p < |c.pool| && Linked(Insert(c, p, name, inode))
    ensures forall q: Path :: q != c.paths[p] + [name] ==> (IsCached(Insert(c, p, name, inode), q) <==> IsCached(c, q))
  {
    var c1 := Insert(c, p, name, inode);
    forall q: Path | q != c.paths[p] + [name] ensures IsCached(c1, q) <==> IsCached(c, q) {
      if IsCached(c, q) {
        var k :| k in c.live && k < |c.paths| && c.paths[k] == q;
        assert k in c1.live && c1.paths[k] == q;
      }
    }
  }

  lemma NewRoom(w: World, s: State, c: Cache, p: nat, segments: seq<Name>, c1: Cache, k: nat)
    requires Sound(w, s, c) && DirDentryAt(s, c, p) && |segments| > 1 && !IsCached(c, c.paths[p] + [segments[0]])
    requires Stepped(w, s, c, p, segments[0]) == Done((c1, k)) && DirAt(w, s, c.paths[p] + [segments[0]])
    ensures var child := c.paths[p] + [segments[0]];
            && (Room(w, s, c, c.paths[p], segments) <==> Room(w, s, c1, child, segments[1..]))
            && (MeetsLongName(w, s, c, child, segments[1..]) <==> MeetsLongName(w, s, c1, child, segments[1..]))
  {
    NotCachedIsMiss(c, p, segments[0]);
    var inode := LookupIn(w, s.ram, c.pool[p].inode.value, segments[0]).value;
    InsertedOnly(c, p, segments[0], inode);
    LongNameBehind(w, s, c, c1, c.paths[p] + [segments[0]], segments[1..]);
    RoomBehindNew(w, s, c, p, segments[0], inode, segments[1..]);
    FewIs(c, p);
    assert LinkOk(c, p);
  }

  // ---- whole paths ----

  /** _vfs_dentry_lookup. */
  ghost function LookedUp(w: World, s: State, c: Cache, path: seq<char>): (r: Outcome<(Cache, Option<nat>)>)
    requires Sound(w, s, c)
    ensures r.Done? ==>
      && Sound(w, s, r.value.0) && Extends(c, r.value.0) && (r.value.1.Some? ==> r.value.1.value in r.value.0.live)
  {
    if path == [] || path[0] != '/' then Done((c, None))
    else
      RootPositive(w, s, c);
      Walked(w, s, c, 0, Split(path[1..]))
  }

  /** There is room for the lookup of a path, in the cache and for its names. */
  ghost predicate RoomFor(w: World, s: State, c: Cache, path: seq<char>) {
    path == [] || path[0] != '/' ||
    (Room(w, s, c, [], Split(path[1..])) && !MeetsLongName(w, s, c, [], Split(path[1..])))
  }

  /** Lookup through the cache: the same none, negative or positive result as without it, and a halt if
      and only if the uncached lookup halts or there is no room. */
  lemma LookedUpAgrees(w: World, s: State, c: Cache, path: seq<char>)
    requires Sound(w, s, c)
    ensures var r, meant := LookedUp(w, s, c, path), Resolve(w, s, path);
            && (r.Fatal? <==> meant.Fatal? || !RoomFor(w, s, c, path))
            && (r.Done? ==>
                  match r.value.1
                  case None => meant == Done(None)
                  case Some(k) => meant == Done(Some(r.value.0.paths[k])))
  {
    if path != [] && path[0] == '/' {
      RootPositive(w, s, c);
      WalkedAgrees(w, s, c, 0, Split(path[1..]));
      WalkedRoom(w, s, c, 0, Split(path[1..]));
    }
  }
}
