/** The dentry cache as a value: a pool of dentries linked into a tree, and when it agrees with the
    uncached meaning of paths (src/kernel/vfs/vfs.c, src/kernel/vfs/dentry.h). */
module DentryCache {
  import opened Wrappers
  import opened Namespace

  const MAX_DENTRIES: nat := 72
  const MAX_CHILDREN: nat := 8

  /** No inode: a negative dentry. The children are the used part of the array. */
  datatype Dentry = Dentry(name: Name, inode: Option<Inode>, parent: Option<nat>, children: seq<nat>)

  /** The pool, and what the proofs track beside it: the path of each dentry and which dentries
      still hang below the root (a mount drops the ones below it without freeing them). */
  datatype Cache = Cache(pool: seq<Dentry>, paths: seq<Path>, live: set<nat>)

  predicate LinkOk(c: Cache, k: nat)
    requires k < |c.pool| == |c.paths|
  {
    && |c.pool[k].children| <= MAX_CHILDREN
    && (forall ch :: ch in c.pool[k].children ==> ch in c.live && ch < |c.pool| && c.pool[ch].parent == Some(k))
    && (k == 0 || HangsOk(c, k))
  }

  /** A dentry below the root: its parent is a live positive dentry that lists it. */
  predicate HangsOk(c: Cache, k: nat)
    requires k < |c.pool| == |c.paths|
  {
    && c.pool[k].parent.Some?
    && var p := c.pool[k].parent.value;
      && p in c.live && p < |c.pool| && c.pool[p].inode.Some? && k in c.pool[p].children
      && c.paths[k] == c.paths[p] + [c.pool[k].name]
  }

  /** The live dentries form a tree in which no path occurs twice. */
  predicate Linked(c: Cache) {
    && 0 < |c.pool| == |c.paths| <= MAX_DENTRIES
    && 0 in c.live && c.paths[0] == [] && c.pool[0].parent.None?
    && (forall k :: k in c.live ==> k < |c.pool|)
    && (forall k {:trigger LinkOk(c, k)} :: k in c.live ==> LinkOk(c, k))
    && (forall j, k :: j in c.live && k in c.live && c.paths[j] == c.paths[k] ==> j == k)
  }

  predicate AgreesAt(w: World, s: State, c: Cache, k: nat)
    requires k < |c.pool| == |c.paths|
  {
    && At(w, s, c.paths[k]) == Done(c.pool[k].inode)
    && (c.paths[k] != [] ==> DirAt(w, s, Parent(c.paths[k])))
  }

  predicate IsCached(c: Cache, q: Path) {
    exists k :: k in c.live && k < |c.paths| && c.paths[k] == q
  }

  /** Each live dentry holds what its path means, below a directory; mount points are cached. */
  predicate Coherent(w: World, s: State, c: Cache)
    requires Linked(c)
  {
    && (forall k {:trigger AgreesAt(w, s, c, k)} :: k in c.live ==> AgreesAt(w, s, c, k))
    && (forall q :: q in s.mounts ==> IsCached(c, q))
  }

  ghost predicate Sound(w: World, s: State, c: Cache) { Linked(c) && Tree(s) && Coherent(w, s, c) }

  /** Dentries that were live still are, with their paths and what they hold. */
  predicate Extends(a: Cache, b: Cache)
    requires Linked(a) && Linked(b)
  {
    && a.live <= b.live
    && forall k :: k in a.live ==> b.paths[k] == a.paths[k] && b.pool[k].inode == a.pool[k].inode
  }

  /** A live dentry of a child path is among the children of the parent's dentry. */
  lemma ChildListed(c: Cache, p: nat, k: nat, name: Name)
    requires Linked(c) && p in c.live && k in c.live && c.paths[k] == c.paths[p] + [name]
    ensures k in c.pool[p].children && c.pool[k].name == name
  {
    assert LinkOk(c, k) && HangsOk(c, k);
    var up := c.pool[k].parent.value;
    LastOfAppend(c.paths[up], c.pool[k].name);
    LastOfAppend(c.paths[p], name);
  }

  lemma LastOfAppend(q: Path, name: Name)
    ensures Last(q + [name]) == name && Parent(q + [name]) == q
  {
  }

  // ---- inserting a child ----

  function Insert(c: Cache, p: nat, name: Name, inode: Option<Inode>): Cache
    requires p < |c.pool| == |c.paths|
  {
    var n := |c.pool|;
    Cache(c.pool[p := c.pool[p].(children := c.pool[p].children + [n])] + [Dentry(name, inode, Some(p), [])],
          c.paths + [c.paths[p] + [name]], c.live + {n})
  }

  predicate NoChildNamed(c: Cache, p: nat, name: Name)
    requires p in c.live && Linked(c)
  {
    LinkOk(c, p) && forall ch :: ch in c.pool[p].children ==> c.pool[ch].name != name
  }

  lemma MissNotCached(c: Cache, p: nat, name: Name)
    requires Linked(c) && p in c.live && NoChildNamed(c, p, name)
    ensures !IsCached(c, c.paths[p] + [name])
  {
    forall k | k in c.live ensures c.paths[k] != c.paths[p] + [name] {
      if c.paths[k] == c.paths[p] + [name] { ChildListed(c, p, k, name); }
    }
  }

  lemma InsertKeepsLinked(c: Cache, p: nat, name: Name, inode: Option<Inode>)
    requires Linked(c) && p in c.live && c.pool[p].inode.Some? && NoChildNamed(c, p, name)
    requires |c.pool| < MAX_DENTRIES && |c.pool[p].children| < MAX_CHILDREN
    ensures Linked(Insert(c, p, name, inode)) && Extends(c, Insert(c, p, name, inode))
  {
    var d, n := Insert(c, p, name, inode), |c.pool|;
    MissNotCached(c, p, name);
    assert n in d.pool[p].children;
    forall k | k in d.live ensures k < |d.pool| && LinkOk(d, k) {
      if k < n {
        assert LinkOk(c, k);
        if k != 0 { assert HangsOk(c, k); }
      }
    }
  }

  lemma InsertKeepsSound(w: World, s: State, c: Cache, p: nat, name: Name, inode: Option<Inode>)
    requires Sound(w, s, c) && p in c.live && c.pool[p].inode.Some? && IsDir(s.ram, c.pool[p].inode.value)
    requires NoChildNamed(c, p, name) && |c.pool| < MAX_DENTRIES && |c.pool[p].children| < MAX_CHILDREN
    requires LookupIn(w, s.ram, c.pool[p].inode.value, name) == Done(inode)
    ensures Sound(w, s, Insert(c, p, name, inode)) && Extends(c, Insert(c, p, name, inode))
  {
    var d, n := Insert(c, p, name, inode), |c.pool|;
    InsertKeepsLinked(c, p, name, inode);
    AtMiss(w, s, c, p, name);
    forall k | k in d.live ensures AgreesAt(w, s, d, k) {
      if k < n { assert AgreesAt(w, s, c, k); }
    }
    forall q | q in s.mounts ensures IsCached(d, q) {
      var k :| k in c.live && k < |c.paths| && c.paths[k] == q;
      assert d.paths[k] == q;
    }
  }

  /** What a path that is not cached means is what the parent's lookup says. */
  lemma AtMiss(w: World, s: State, c: Cache, p: nat, name: Name)
    requires Sound(w, s, c) && p in c.live && c.pool[p].inode.Some? && IsDir(s.ram, c.pool[p].inode.value)
    requires NoChildNamed(c, p, name)
    ensures At(w, s, c.paths[p] + [name]) == LookupIn(w, s.ram, c.pool[p].inode.value, name)
    ensures DirAt(w, s, c.paths[p])
  {
    assert AgreesAt(w, s, c, p);
    MissNotCached(c, p, name);
    LastOfAppend(c.paths[p], name);
  }

  // ---- a created file ----

  /** The negative dentry k becomes positive. */
  function Fill(c: Cache, k: nat, inode: Inode): Cache
    requires k < |c.pool|
  {
    c.(pool := c.pool[k := c.pool[k].(inode := Some(inode))])
  }

  lemma FillKeepsLinked(c: Cache, k: nat, inode: Inode)
    requires Linked(c) && k in c.live
    ensures Linked(Fill(c, k, inode))
  {
    var d := Fill(c, k, inode);
    forall j | j in d.live ensures LinkOk(d, j) {
      assert LinkOk(c, j);
      if j != 0 { assert HangsOk(c, j); }
    }
  }

  /** No cached path lies below a negative one. */
  lemma {:induction false} NothingBelowNegative(w: World, s: State, c: Cache, k: nat, j: nat)
    requires Sound(w, s, c) && k in c.live && j in c.live && c.pool[k].inode.None?
    requires IsPrefix(c.paths[k], c.paths[j])
    ensures j == k
    decreases |c.paths[j]|
  {
    if c.paths[j] != c.paths[k] {
      assert LinkOk(c, j) && HangsOk(c, j);
      var p := c.pool[j].parent.value;
      assert c.paths[p] == c.paths[j][..|c.paths[j]| - 1];
      NothingBelowNegative(w, s, c, k, p);
    }
  }

  /** The conditions under which the file of dentry k is created in directory d of a ramfs. */
  ghost predicate Creates(w: World, s: State, c: Cache, k: nat, d: nat, node: RamNode) {
    && Sound(w, s, c) && k in c.live && c.pool[k].inode.None? && c.paths[k] != []
    && At(w, s, Parent(c.paths[k])) == Done(Some(Ram(d))) && d < |s.ram|
    && node.children == [] && |s.ram[d].children| < MAX_RAM_CHILDREN
  }

  /** The directory has no child of that name yet. */
  lemma NegativeIsFree(w: World, s: State, c: Cache, k: nat, d: nat, node: RamNode)
    requires Creates(w, s, c, k, d, node)
    ensures FindChild(s.ram[d].children, Last(c.paths[k])).None? && c.paths[k] !in s.mounts
    ensures DirAt(w, s, Parent(c.paths[k])) && c.paths[k] == Parent(c.paths[k]) + [Last(c.paths[k])]
  {
    assert AgreesAt(w, s, c, k);
  }

  lemma PrefixOfParent(p: Path, q: Path)
    requires q != [] && !IsPrefix(p, q)
    ensures !IsPrefix(p, Parent(q))
  {
    assert |p| < |q| ==> Parent(q)[..|p|] == q[..|p|];
  }

  lemma FillAgrees(w: World, s: State, c: Cache, k: nat, d: nat, node: RamNode, j: nat)
    requires Creates(w, s, c, k, d, node) && j in c.live
    ensures AgreesAt(w, AddChild(s, d, Last(c.paths[k]), node), Fill(c, k, Ram(|s.ram|)), j)
  {
    var p, name, q := Parent(c.paths[k]), Last(c.paths[k]), c.paths[j];
    NegativeIsFree(w, s, c, k, d, node);
    assert AgreesAt(w, s, c, j);
    if j == k {
      AtAdded(w, s, p, d, name, node);
      DirAfterAdd(w, s, p, d, name, node, p);
    } else if IsPrefix(c.paths[k], q) {
      NothingBelowNegative(w, s, c, k, j);
    } else {
      AtAfterAdd(w, s, p, d, name, node, q);
      if q != [] {
        PrefixOfParent(c.paths[k], q);
        DirAfterAdd(w, s, p, d, name, node, Parent(q));
      }
    }
  }

  /** Creating the file of a negative dentry in the directory of a ramfs and filling the dentry. */
  lemma FillKeepsSound(w: World, s: State, c: Cache, k: nat, d: nat, node: RamNode)
    requires Creates(w, s, c, k, d, node)
    ensures Sound(w, AddChild(s, d, Last(c.paths[k]), node), Fill(c, k, Ram(|s.ram|)))
  {
    NegativeIsFree(w, s, c, k, d, node);
    AddKeepsTree(s, d, Last(c.paths[k]), node);
    FillKeepsLinked(c, k, Ram(|s.ram|));
    forall j | j in c.live { FillAgrees(w, s, c, k, d, node, j); }
    var f := Fill(c, k, Ram(|s.ram|));
    forall q | q in s.mounts ensures IsCached(f, q) { CachedStays(c, f, q); }
  }

  lemma CachedStays(c: Cache, d: Cache, q: Path)
    requires IsCached(c, q) && d.paths == c.paths && (forall j :: j in c.live && j < |c.paths| && c.paths[j] == q ==> j in d.live)
    ensures IsCached(d, q)
  {
    var j :| j in c.live && j < |c.paths| && c.paths[j] == q;
    assert d.paths[j] == q;
  }

  lemma DirAfterAdd(w: World, s: State, p: Path, d: nat, name: Name, node: RamNode, q: Path)
    requires Tree(s) && At(w, s, p) == Done(Some(Ram(d))) && d < |s.ram| && FindChild(s.ram[d].children, name).None?
    requires !IsPrefix(p + [name], q) && DirAt(w, s, q)
    ensures DirAt(w, AddChild(s, d, name, node), q)
  {
    AtAfterAdd(w, s, p, d, name, node, q);
    if At(w, s, q).value.value.Ram? { AtOwned(w, s, q); }
  }

  // ---- a mount ----

  predicate StrictlyBelow(p: Path, q: Path) { p != q && IsPrefix(p, q) }

  /** The dentry k gets a new inode and forgets its children; those below it are dropped. */
  function Flush(c: Cache, k: nat, root: Inode): Cache
    requires k < |c.pool| == |c.paths|
  {
    Cache(c.pool[k := c.pool[k].(inode := Some(root), children := [])], c.paths,
          set j | j in c.live && j < |c.paths| && !StrictlyBelow(c.paths[k], c.paths[j]))
  }

  lemma FlushKeepsLinked(c: Cache, k: nat, root: Inode)
    requires Linked(c) && k in c.live
    ensures Linked(Flush(c, k, root))
  {
    var d := Flush(c, k, root);
    forall j | j in d.live ensures LinkOk(d, j) {
      assert LinkOk(c, j);
      if j != 0 {
        assert HangsOk(c, j);
        var p := c.pool[j].parent.value;
        BelowParent(c.paths[k], c.paths[p], c.pool[j].name);
        assert HangsOk(d, j);
      }
      forall ch | ch in d.pool[j].children ensures ch in d.live {
        assert LinkOk(c, ch);
        if ch != 0 { assert HangsOk(c, ch); }
        BelowParent(c.paths[k], c.paths[j], c.pool[ch].name);
      }
    }
  }

  lemma BelowParent(p: Path, q: Path, name: Name)
    ensures StrictlyBelow(p, q + [name]) <==> StrictlyBelow(p, q) || p == q
  {
    if IsPrefix(p, q + [name]) && |p| <= |q| { assert (q + [name])[..|p|] == q[..|p|]; }
    if |p| == |q| + 1 { assert (q + [name])[..|p|] == q + [name]; }
    if IsPrefix(p, q) { assert (q + [name])[..|p|] == q[..|p|]; }
  }

  lemma FlushAgrees(w: World, s: State, c: Cache, k: nat, root: Inode, j: nat)
    requires Sound(w, s, c) && k in c.live && IsDir(s.ram, root) && j in Flush(c, k, root).live
    ensures AgreesAt(w, Cover(s, c.paths[k], root), Flush(c, k, root), j)
  {
    var p, q := c.paths[k], c.paths[j];
    assert AgreesAt(w, s, c, j);
    if j != k { AtAfterCover(w, s, p, root, q); }
    if q != [] {
      assert q == Parent(q) + [Last(q)];
      BelowParent(p, Parent(q), Last(q));
      AtAfterCover(w, s, p, root, Parent(q));
    }
  }

  /** Covering the directory of dentry k with a root and flushing the dentry. */
  lemma FlushKeepsSound(w: World, s: State, c: Cache, k: nat, root: Inode)
    requires Sound(w, s, c) && k in c.live && IsDir(s.ram, root)
    requires Tree(Cover(s, c.paths[k], root))
    ensures Sound(w, Cover(s, c.paths[k], root), Flush(c, k, root))
  {
    var t, f := Cover(s, c.paths[k], root), Flush(c, k, root);
    FlushKeepsLinked(c, k, root);
    forall j | j in f.live { FlushAgrees(w, s, c, k, root, j); }
    forall q | q in t.mounts ensures IsCached(f, q) {
      if q == c.paths[k] { assert f.paths[k] == q; } else { CachedStays(c, f, q); }
    }
  }

  /** An inode that nothing refers to keeps everything. */
  lemma GrowKeepsSound(w: World, s: State, c: Cache, node: RamNode)
    requires Sound(w, s, c) && node.children == []
    ensures Sound(w, s.(ram := s.ram + [node]), c)
  {
    var t := s.(ram := s.ram + [node]);
    GrowKeepsTree(s, node);
    forall j | j in c.live ensures AgreesAt(w, t, c, j) {
      assert AgreesAt(w, s, c, j);
      var q := c.paths[j];
      AtAfterGrow(w, s, node, q);
      if q != [] {
        AtAfterGrow(w, s, node, Parent(q));
        if At(w, s, Parent(q)).value.value.Ram? { AtOwned(w, s, Parent(q)); }
      }
    }
  }

  // ---- facts about one dentry ----

  lemma ParentPath(c: Cache, p: nat, child: nat)
    requires Linked(c) && p in c.live && child in c.pool[p].children
    ensures child in c.live && child < |c.pool| && c.paths[child] == c.paths[p] + [c.pool[child].name]
  {
    assert LinkOk(c, p) && LinkOk(c, child);
    if child != 0 { assert HangsOk(c, child); }
  }

  lemma AgreesHere(w: World, s: State, c: Cache, k: nat)
    requires Sound(w, s, c) && k in c.live
    ensures k < |c.pool| && At(w, s, c.paths[k]) == Done(c.pool[k].inode)
  {
    assert AgreesAt(w, s, c, k);
  }

  lemma ExtendsTransitive(a: Cache, b: Cache, c: Cache)
    requires Linked(a) && Linked(b) && Linked(c) && Extends(a, b) && Extends(b, c)
    ensures Extends(a, c)
  {
  }

  lemma NegativeHasParent(w: World, s: State, c: Cache, k: nat)
    requires Sound(w, s, c) && k in c.live && c.pool[k].inode.None?
    ensures k != 0 && c.pool[k].parent.Some?
    ensures var p := c.pool[k].parent.value;
            && p in c.live && p < |c.pool| && c.pool[p].inode.Some? && IsDir(s.ram, c.pool[p].inode.value)
            && c.paths[p] == Parent(c.paths[k]) && Last(c.paths[k]) == c.pool[k].name
            && At(w, s, c.paths[p]) == Done(c.pool[p].inode)
  {
    RootPositive(w, s, c);
    assert LinkOk(c, k) && HangsOk(c, k);
    var p := c.pool[k].parent.value;
    LastOfAppend(c.paths[p], c.pool[k].name);
    assert AgreesAt(w, s, c, p) && AgreesAt(w, s, c, k);
  }

  lemma RootPositive(w: World, s: State, c: Cache)
    requires Sound(w, s, c)
    ensures c.pool[0].inode.Some? && IsDir(s.ram, c.pool[0].inode.value)
  {
    assert AgreesAt(w, s, c, 0);
    ResolveReaches(w, s, []);
  }

  lemma NameIsLast(w: World, s: State, c: Cache, k: nat)
    requires Sound(w, s, c) && k in c.live && c.pool[k].inode.None?
    ensures k < |c.pool| && c.paths[k] != [] && c.pool[k].name == Last(c.paths[k])
    ensures var dir := At(w, s, Parent(c.paths[k]));
            dir.Done? && dir.value.Some? && LookupIn(w, s.ram, dir.value.value, c.pool[k].name) == Done(None)
  {
    NegativeHasParent(w, s, c, k);
    assert AgreesAt(w, s, c, k);
  }
}
