/** Open files and their descriptor counts: the count of a file is never below the number
    of (process, descriptor) slots that name it. Exit leaks counts, so it may be above. */
module FileInvariant {
  import opened Wrappers
  import opened Kernel

  /** Descriptor slots of one process that name f. */
  function FdUses(files: seq<Option<nat>>, f: nat): nat {
    if files == [] then 0
    else FdUses(files[..|files| - 1], f) + (if files[|files| - 1] == Some(f) then 1 else 0)
  }

  /** Slots of the whole table that name f, zombies included. */
  function Uses(procs: seq<Process>, f: nat): nat {
    if procs == [] then 0
    else Uses(procs[..|procs| - 1], f) + FdUses(procs[|procs| - 1].files, f)
  }

  /** Every file named by a slot is open and its count covers its uses. */
  predicate FileOk(procs: seq<Process>, fdCount: map<nat, nat>, f: nat) {
    Uses(procs, f) > 0 ==> f in fdCount && Uses(procs, f) <= fdCount[f]
  }

  ghost predicate FileInv(procs: seq<Process>, fdCount: map<nat, nat>) {
    forall f: nat :: FileOk(procs, fdCount, f)
  }

  lemma {:induction false} FdUsesUpdate(files: seq<Option<nat>>, i: nat, v: Option<nat>, f: nat)
    requires i < |files|
    ensures FdUses(files[i := v], f) + (if files[i] == Some(f) then 1 else 0)
            == FdUses(files, f) + (if v == Some(f) then 1 else 0)
  {
    var n := |files| - 1;
    if i < n {
      assert files[i := v][..n] == files[..n][i := v];
      FdUsesUpdate(files[..n], i, v, f);
    } else {
      assert files[i := v][..n] == files[..n];
    }
  }

  lemma {:induction false} FdUsesNamed(files: seq<Option<nat>>, i: nat, f: nat)
    requires i < |files| && files[i] == Some(f)
    ensures FdUses(files, f) >= 1
  {
    if i < |files| - 1 { FdUsesNamed(files[..|files| - 1], i, f); }
  }

  lemma {:induction false} UsesUpdate(procs: seq<Process>, i: nat, p: Process, f: nat)
    requires i < |procs|
    ensures Uses(procs[i := p], f) + FdUses(procs[i].files, f) == Uses(procs, f) + FdUses(p.files, f)
  {
    var n := |procs| - 1;
    if i < n {
      assert procs[i := p][..n] == procs[..n][i := p];
      UsesUpdate(procs[..n], i, p, f);
    } else {
      assert procs[i := p][..n] == procs[..n];
    }
  }

  lemma {:induction false} UsesNamed(procs: seq<Process>, i: nat, f: nat)
    requires i < |procs|
    ensures Uses(procs, f) >= FdUses(procs[i].files, f)
  {
    if i < |procs| - 1 { UsesNamed(procs[..|procs| - 1], i, f); }
  }

  lemma {:induction false} UsesWithout(procs: seq<Process>, i: nat, f: nat)
    requires i < |procs|
    ensures Uses(Without(procs, i), f) + FdUses(procs[i].files, f) == Uses(procs, f)
  {
    var n := |procs| - 1;
    var r := Without(procs, i);
    if i < n {
      UsesWithout(procs[..n], i, f);
      assert r[..n - 1] == Without(procs[..n], i);
      assert r[n - 1] == procs[n];
    } else {
      assert r == procs[..n];
    }
  }

  lemma {:induction false} UsesSame(a: seq<Process>, b: seq<Process>, f: nat)
    requires |a| == |b| && forall i :: 0 <= i < |a| ==> a[i].files == b[i].files
    ensures Uses(a, f) == Uses(b, f)
  {
    if |a| > 0 { UsesSame(a[..|a| - 1], b[..|b| - 1], f); }
  }

  lemma UsesAppend(procs: seq<Process>, p: Process, f: nat)
    ensures Uses(procs + [p], f) == Uses(procs, f) + FdUses(p.files, f)
  {
    assert (procs + [p])[..|procs|] == procs;
  }

  /** fork's loop adds to each count the number of slots the child inherits. */
  lemma {:induction false} AddRefsCounts(m: map<nat, nat>, files: seq<Option<nat>>, f: nat)
    ensures f in AddRefs(m, files) <==> f in m
    ensures f in m ==> AddRefs(m, files)[f] == m[f] + FdUses(files, f)
  {
    if files != [] { AddRefsCounts(m, files[..|files| - 1], f); }
  }

  lemma SameFilesKeep(a: seq<Process>, b: seq<Process>, fdCount: map<nat, nat>)
    requires FileInv(a, fdCount)
    requires |a| == |b| && forall i :: 0 <= i < |a| ==> a[i].files == b[i].files
    ensures FileInv(b, fdCount)
  {
    forall f: nat ensures FileOk(b, fdCount, f) {
      assert FileOk(a, fdCount, f);
      UsesSame(a, b, f);
    }
  }

  lemma RemoveKeepsFiles(procs: seq<Process>, z: nat, fdCount: map<nat, nat>)
    requires FileInv(procs, fdCount) && z < |procs|
    ensures FileInv(Without(procs, z), fdCount)
  {
    forall f: nat ensures FileOk(Without(procs, z), fdCount, f) {
      assert FileOk(procs, fdCount, f);
      UsesWithout(procs, z, f);
    }
  }

  lemma ForkKeepsFiles(procs: seq<Process>, fdCount: map<nat, nat>, c: nat, child: Process)
    requires FileInv(procs, fdCount) && c < |procs| && child.files == procs[c].files
    ensures FileInv(procs + [child], AddRefs(fdCount, procs[c].files))
  {
    var m := AddRefs(fdCount, procs[c].files);
    forall f: nat ensures FileOk(procs + [child], m, f) {
      assert FileOk(procs, fdCount, f);
      UsesAppend(procs, child, f);
      UsesNamed(procs, c, f);
      AddRefsCounts(fdCount, procs[c].files, f);
    }
  }

  /** A fresh file gets its first slot. */
  lemma OpenKeepsFiles(procs: seq<Process>, fdCount: map<nat, nat>, c: nat, fd: nat, file: nat)
    requires FileInv(procs, fdCount) && c < |procs| && fd < |procs[c].files|
    requires procs[c].files[fd] == None && file !in fdCount
    ensures FileInv(procs[c := procs[c].(files := procs[c].files[fd := Some(file)])], fdCount[file := 1])
  {
    var p := procs[c].(files := procs[c].files[fd := Some(file)]);
    var r, m := procs[c := p], fdCount[file := 1];
    forall f: nat ensures FileOk(r, m, f) {
      assert FileOk(procs, fdCount, f);
      UsesUpdate(procs, c, p, f);
      FdUsesUpdate(procs[c].files, fd, Some(file), f);
    }
  }

  /** A close that completes leaves no slot that names the released file. */
  lemma CloseReleasesLast(procs: seq<Process>, fdCount: map<nat, nat>, c: nat, fd: nat, file: nat)
    requires FileInv(procs, fdCount) && c < |procs| && fd < |procs[c].files|
    requires procs[c].files[fd] == Some(file) && file in fdCount && fdCount[file] == 1
    ensures var r := procs[c := procs[c].(files := procs[c].files[fd := None])];
            Uses(r, file) == 0 && FileInv(r, fdCount - {file})
  {
    var p := procs[c].(files := procs[c].files[fd := None]);
    var r := procs[c := p];
    forall f: nat ensures FileOk(r, fdCount - {file}, f) && (f == file ==> Uses(r, f) == 0) {
      assert FileOk(procs, fdCount, f);
      UsesUpdate(procs, c, p, f);
      FdUsesUpdate(procs[c].files, fd, None, f);
      if f == file {
        FdUsesNamed(procs[c].files, fd, f);
        UsesNamed(procs, c, f);
      }
    }
  }
}
