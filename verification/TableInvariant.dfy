/** The ordering that the scheduler relies on without saying so: pids increase along the
    table, init stays first, parents are live and older, and a suspended process waits
    for a live child. Every operation on the table keeps it. */
module TableInvariant {
  import opened Wrappers
  import opened Mmu
  import opened Kernel

  predicate Ordered(procs: seq<Process>) {
    forall i, j :: 0 <= i < j < |procs| ==> procs[i].id < procs[j].id
  }

  predicate LivePid(procs: seq<Process>, pid: int) {
    exists j :: 0 <= j < |procs| && procs[j].id == pid && Live(procs[j])
  }

  predicate LiveChild(procs: seq<Process>, pid: int, parent: int) {
    exists j :: 0 <= j < |procs| && procs[j].id == pid && procs[j].parent == parent && Live(procs[j])
  }

  predicate ParentOk(procs: seq<Process>, i: nat)
    requires i < |procs|
  {
    procs[i].parent < procs[i].id && LivePid(procs, procs[i].parent)
  }

  predicate WaitOk(procs: seq<Process>, i: nat)
    requires i < |procs|
  {
    procs[i].status.Suspended? ==> LiveChild(procs, procs[i].status.waitPid, procs[i].id)
  }

  /** Every process but init has a live parent with a smaller pid. */
  predicate Parented(procs: seq<Process>) {
    forall i :: 0 < i < |procs| ==> ParentOk(procs, i)
  }

  /** Every suspended process waits for a live child of its own. */
  predicate Waiting(procs: seq<Process>) {
    forall i :: 0 <= i < |procs| ==> WaitOk(procs, i)
  }

  /** What holds whoever waits for whom. */
  predicate Lineage(procs: seq<Process>, idGen: nat) {
    && 1 <= |procs| <= MAX_PROCS
    && Ordered(procs)
    && procs[0].id == INIT_PID && procs[0].parent == 0 && Live(procs[0])
    && procs[|procs| - 1].id <= idGen
    && Parented(procs)
  }

  predicate TableInv(procs: seq<Process>, idGen: nat) {
    Lineage(procs, idGen) && Waiting(procs)
  }

  /** In an ordered table a pid names one index. */
  lemma FindIs(procs: seq<Process>, i: nat)
    requires Ordered(procs) && i < |procs|
    ensures FindPid(procs, procs[i].id) == Some(i)
  {
    assert procs[i].id == procs[i].id;
  }

  /** The witnesses behind ParentOk and WaitOk. */
  lemma ParentAt(procs: seq<Process>, i: nat) returns (j: nat)
    requires i < |procs| && ParentOk(procs, i) && Ordered(procs)
    ensures j < i && procs[j].id == procs[i].parent && Live(procs[j])
  {
    j :| 0 <= j < |procs| && procs[j].id == procs[i].parent && Live(procs[j]);
  }

  lemma ChildAt(procs: seq<Process>, i: nat) returns (j: nat)
    requires i < |procs| && WaitOk(procs, i) && procs[i].status.Suspended?
    ensures j < |procs| && procs[j].id == procs[i].status.waitPid && procs[j].parent == procs[i].id && Live(procs[j])
  {
    j :| 0 <= j < |procs| && procs[j].id == procs[i].status.waitPid && procs[j].parent == procs[i].id && Live(procs[j]);
  }

  lemma IdPositive(procs: seq<Process>, idGen: nat, i: nat)
    requires Lineage(procs, idGen) && i < |procs|
    ensures 1 <= procs[i].id <= idGen
    ensures i > 0 ==> procs[i].id > 1 && procs[i].parent >= 1
  {
    if i > 0 {
      assert ParentOk(procs, i);
      var j := ParentAt(procs, i);
    }
  }

  /** Same pids, parents and statuses. */
  predicate SameSkeleton(a: seq<Process>, b: seq<Process>) {
    && |a| == |b|
    && forall i :: 0 <= i < |a| ==> a[i].id == b[i].id && a[i].parent == b[i].parent && a[i].status == b[i].status
  }

  lemma SkeletonKeeps(a: seq<Process>, b: seq<Process>, idGen: nat)
    requires Lineage(a, idGen) && SameSkeleton(a, b)
    ensures Lineage(b, idGen) && (Waiting(a) ==> Waiting(b))
  {
    forall i | 0 < i < |b| ensures ParentOk(b, i) {
      assert ParentOk(a, i);
      var j := ParentAt(a, i);
      assert b[j].id == b[i].parent && Live(b[j]);
    }
    if Waiting(a) {
      forall i | 0 <= i < |b| ensures WaitOk(b, i) {
        assert WaitOk(a, i);
        if a[i].status.Suspended? {
          var j := ChildAt(a, i);
          assert b[j].id == b[i].status.waitPid;
        }
      }
    }
  }

  /** fork appends a fresh pid whose parent is the live caller. */
  lemma AppendKeeps(procs: seq<Process>, idGen: nat, c: nat, p: Process)
    requires Lineage(procs, idGen) && |procs| < MAX_PROCS
    requires c < |procs| && Live(procs[c])
    requires p.id == idGen + 1 && p.parent == procs[c].id && p.status.Scheduled?
    ensures Lineage(procs + [p], idGen + 1) && (Waiting(procs) ==> Waiting(procs + [p]))
  {
    var r := procs + [p];
    assert forall i :: 0 <= i < |procs| ==> r[i] == procs[i];
    forall i | 0 <= i < |procs| ensures procs[i].id <= idGen { IdPositive(procs, idGen, i); }
    forall i | 0 < i < |r| ensures ParentOk(r, i) {
      if i == |procs| {
        assert r[c].id == p.parent && Live(r[c]);
      } else {
        assert ParentOk(procs, i);
        var j := ParentAt(procs, i);
        assert r[j].id == r[i].parent && Live(r[j]);
      }
    }
    if Waiting(procs) {
      forall i | 0 <= i < |r| ensures WaitOk(r, i) {
        if i < |procs| && procs[i].status.Suspended? {
          assert WaitOk(procs, i);
          var j := ChildAt(procs, i);
          assert r[j].id == r[i].status.waitPid && r[j].parent == r[i].id && Live(r[j]);
        }
      }
    }
  }

  /** Suspending a live process keeps lineage whatever it waits for. */
  lemma SuspendKeepsLineage(procs: seq<Process>, idGen: nat, c: nat, pid: int, ref: nat)
    requires Lineage(procs, idGen) && c < |procs| && Live(procs[c])
    ensures Lineage(procs[c := procs[c].(status := Suspended(pid, ref))], idGen)
  {
    var r := procs[c := procs[c].(status := Suspended(pid, ref))];
    forall i | 0 < i < |r| ensures ParentOk(r, i) {
      assert ParentOk(procs, i);
      var j := ParentAt(procs, i);
      assert r[j].id == r[i].parent && Live(r[j]);
    }
  }

  /** A wait for a live child keeps every waiting process on a live child. */
  lemma SuspendKeepsWaiting(procs: seq<Process>, c: nat, pid: int, ref: nat)
    requires Waiting(procs) && c < |procs| && Live(procs[c]) && LiveChild(procs, pid, procs[c].id)
    ensures Waiting(procs[c := procs[c].(status := Suspended(pid, ref))])
  {
    var r := procs[c := procs[c].(status := Suspended(pid, ref))];
    forall i | 0 <= i < |r| && i != c ensures WaitOk(r, i) {
      assert WaitOk(procs, i);
      if procs[i].status.Suspended? {
        var j := ChildAt(procs, i);
        assert r[j].id == r[i].status.waitPid && r[j].parent == r[i].id && Live(r[j]);
      }
    }
    var j :| 0 <= j < |procs| && procs[j].id == pid && procs[j].parent == procs[c].id && Live(procs[j]);
    assert r[j].id == pid && r[j].parent == r[c].id && Live(r[j]);
    assert WaitOk(r, c);
  }

  /** Only the parent can be waiting for a process. */
  lemma WaiterIsParent(procs: seq<Process>, idGen: nat, c: nat, i: nat)
    requires TableInv(procs, idGen) && c < |procs| && i < |procs|
    requires procs[i].status.Suspended? && procs[i].status.waitPid == procs[c].id
    ensures procs[c].parent == procs[i].id && Live(procs[c]) && i < c
  {
    assert WaitOk(procs, i);
    var j := ChildAt(procs, i);
    assert j == c;
    IdPositive(procs, idGen, i);
    if c > 0 {
      assert ParentOk(procs, c);
    }
  }

  /** Nobody waits for an exited process. */
  lemma NobodyWaitsForZombie(procs: seq<Process>, idGen: nat, c: nat, i: nat)
    requires TableInv(procs, idGen) && c < |procs| && i < |procs|
    requires procs[c].status.Exited?
    ensures !(procs[i].status.Suspended? && procs[i].status.waitPid == procs[c].id)
  {
    if procs[i].status.Suspended? && procs[i].status.waitPid == procs[c].id {
      WaiterIsParent(procs, idGen, c, i);
    }
  }

  lemma WithoutAt<T>(s: seq<T>, z: nat, i: nat)
    requires z < |s| && i < |s| - 1
    ensures Without(s, z)[i] == s[if i < z then i else i + 1]
  {
  }

  lemma RemoveKeepsParent(procs: seq<Process>, z: nat, i: nat)
    requires Ordered(procs) && Parented(procs) && z < |procs| && !Live(procs[z]) && 0 < i < |procs| - 1
    ensures ParentOk(Without(procs, z), i)
  {
    var o := if i < z then i else i + 1;
    assert ParentOk(procs, o);
    var j := ParentAt(procs, o);
    WithoutAt(procs, z, i);
    WithoutAt(procs, z, if j < z then j else j - 1);
  }

  lemma RemoveKeepsWait(procs: seq<Process>, z: nat, i: nat)
    requires Waiting(procs) && z < |procs| && !Live(procs[z]) && i < |procs| - 1
    ensures WaitOk(Without(procs, z), i)
  {
    var o := if i < z then i else i + 1;
    assert WaitOk(procs, o);
    WithoutAt(procs, z, i);
    if procs[o].status.Suspended? {
      var j := ChildAt(procs, o);
      WithoutAt(procs, z, if j < z then j else j - 1);
    }
  }

  /** Exited processes have no children, so an entry of theirs can leave the table. */
  lemma RemoveKeeps(procs: seq<Process>, idGen: nat, z: nat)
    requires Lineage(procs, idGen) && z < |procs| && procs[z].status.Exited?
    ensures z > 0 && Lineage(Without(procs, z), idGen) && (Waiting(procs) ==> Waiting(Without(procs, z)))
  {
    var r := Without(procs, z);
    assert forall i :: 0 <= i < |r| ==> r[i] == procs[if i < z then i else i + 1];
    forall i | 0 < i < |r| ensures ParentOk(r, i) { RemoveKeepsParent(procs, z, i); }
    if Waiting(procs) {
      forall i | 0 <= i < |r| ensures WaitOk(r, i) { RemoveKeepsWait(procs, z, i); }
    }
    IdPositive(procs, idGen, if |r| - 1 < z then |r| - 1 else |r|);
  }

  /** What exit does to the skeleton of each entry. */
  lemma ExitedTableAt(procs: seq<Process>, c: nat, status: Word, i: nat)
    requires c < |procs| && i < |procs| && procs[c].parent != procs[c].id
    ensures var r := ExitedTable(procs, c, status);
            && |r| == |procs|
            && r[i].id == procs[i].id
            && r[i].parent == (if procs[i].parent == procs[c].id then INIT_PID else procs[i].parent)
            && r[i].status == (if i == c then Exited(status) else procs[i].status)
            && r[c].parent == procs[c].parent
            && (i != c ==> r[i] == procs[i].(parent := r[i].parent))
  {
  }

  /** The skeleton after `c` has exited: its children go to init, waiters may have been woken. */
  predicate ExitSkeleton(procs: seq<Process>, c: nat, status: Word, r: seq<Process>)
    requires c < |procs|
  {
    && |r| == |procs|
    && (forall i :: 0 <= i < |r| ==>
      && r[i].id == procs[i].id
      && r[i].parent == (if procs[i].parent == procs[c].id then INIT_PID else procs[i].parent))
    && r[c].status == Exited(status)
    && (forall i :: 0 <= i < |r| && i != c ==>
      r[i].status == procs[i].status || (r[i].status.Scheduled? && procs[i].status.Suspended?))
  }

  predicate NobodyWaitsFor(procs: seq<Process>, pid: int) {
    forall i :: 0 <= i < |procs| && procs[i].status.Suspended? ==> procs[i].status.waitPid != pid
  }

  lemma ExitedKeeps(procs: seq<Process>, idGen: nat, c: nat, status: Word, r: seq<Process>)
    requires Lineage(procs, idGen) && 0 < c < |procs| && procs[c].status.Scheduled?
    requires ExitSkeleton(procs, c, status, r)
    ensures Lineage(r, idGen)
    ensures Waiting(procs) && NobodyWaitsFor(r, procs[c].id) ==> Waiting(r)
  {
    IdPositive(procs, idGen, c);
    forall i | 0 < i < |r| ensures ParentOk(r, i) {
      IdPositive(procs, idGen, i);
      if procs[i].parent == procs[c].id {
        assert r[0].id == INIT_PID && Live(r[0]);
      } else {
        assert ParentOk(procs, i);
        var j := ParentAt(procs, i);
        assert r[j].id == r[i].parent && Live(r[j]);
      }
    }
    if Waiting(procs) && NobodyWaitsFor(r, procs[c].id) {
      forall i | 0 <= i < |r| ensures WaitOk(r, i) {
        if r[i].status.Suspended? {
          assert WaitOk(procs, i);
          var j := ChildAt(procs, i);
          assert i != c && j != c && procs[j].parent != procs[c].id;
          assert r[j].id == r[i].status.waitPid && r[j].parent == r[i].id && Live(r[j]);
        }
      }
    }
  }

  /** The table that scheduler_cur_proc_exit leaves: the entry stays as a zombie, or goes at
      once when the parent was waiting for it. */
  function AfterExit(procs: seq<Process>, c: nat, status: Word, j: nat): seq<Process>
    requires c < |procs| && j < |procs|
  {
    var r := ExitedTable(procs, c, status);
    if r[j].status.Suspended? && r[j].status.waitPid == procs[c].id then
      Without(r[j := WithR0(r[j].(status := Scheduled), procs[c].id % ADDRESS_LIMIT)], c)
    else r
  }

  /** exit finds a live parent below the caller, and the table it leaves is sound. */
  lemma ExitKeeps(procs: seq<Process>, idGen: nat, c: nat, status: Word)
    requires Lineage(procs, idGen) && 0 < c < |procs| && procs[c].status.Scheduled?
    ensures var r := ExitedTable(procs, c, status);
            && |r| == |procs|
            && FindPid(r, r[c].parent).Some?
            && var j := FindPid(r, r[c].parent).value;
            && j < c && Live(procs[j]) && procs[j].id == procs[c].parent
            && Lineage(AfterExit(procs, c, status, j), idGen)
            && (Waiting(procs) ==> Waiting(AfterExit(procs, c, status, j)))
  {
    var r := ExitedTable(procs, c, status);
    assert ParentOk(procs, c);
    forall i | 0 <= i < |procs| ensures
      && r[i].id == procs[i].id
      && r[i].parent == (if procs[i].parent == procs[c].id then INIT_PID else procs[i].parent)
      && r[i].status == (if i == c then Exited(status) else procs[i].status)
    {
      ExitedTableAt(procs, c, status, i);
    }
    var j := ParentAt(procs, c);
    assert Ordered(r);
    FindIs(r, j);
    if r[j].status.Suspended? && r[j].status.waitPid == procs[c].id {
      var w := r[j := WithR0(r[j].(status := Scheduled), procs[c].id % ADDRESS_LIMIT)];
      assert ExitSkeleton(procs, c, status, w);
      if Waiting(procs) { OnlyParentWaited(procs, idGen, c, j, w); }
      ExitedKeeps(procs, idGen, c, status, w);
      RemoveKeeps(w, idGen, c);
    } else {
      assert ExitSkeleton(procs, c, status, r);
      if Waiting(procs) { OnlyParentWaited(procs, idGen, c, j, r); }
      ExitedKeeps(procs, idGen, c, status, r);
    }
  }

  /** When everybody waits for a live child, at most the parent waited for the process that exits. */
  lemma OnlyParentWaited(procs: seq<Process>, idGen: nat, c: nat, j: nat, r: seq<Process>)
    requires TableInv(procs, idGen) && c < |procs| && j < c && procs[j].id == procs[c].parent && |r| == |procs|
    requires forall i :: 0 <= i < |r| && i != j && r[i].status.Suspended? ==> r[i].status == procs[i].status
    requires r[j].status.Suspended? ==> r[j].status.waitPid != procs[c].id
    ensures NobodyWaitsFor(r, procs[c].id)
  {
    forall i | 0 <= i < |r| && r[i].status.Suspended? ensures r[i].status.waitPid != procs[c].id {
      if i != j && r[i].status.waitPid == procs[c].id { WaiterIsParent(procs, idGen, c, i); }
    }
  }

  // ---- some process can always run ----

  /** The chain of waits that starts at a live process ends at a scheduled one above it. */
  lemma {:induction false} WaitChainEnds(procs: seq<Process>, idGen: nat, i: nat) returns (j: nat)
    requires TableInv(procs, idGen) && i < |procs| && Live(procs[i])
    ensures i <= j < |procs| && procs[j].status.Scheduled?
    decreases |procs| - i
  {
    if procs[i].status.Scheduled? {
      j := i;
    } else {
      assert WaitOk(procs, i);
      var c := ChildAt(procs, i);
      WaiterIsParent(procs, idGen, c, i);
      j := WaitChainEnds(procs, idGen, c);
    }
  }

  /** Cyclic distance from index c to index q in a table of n entries, counting from 1. */
  function Distance(n: nat, c: nat, q: nat): (d: nat)
    requires c < n && q < n
    ensures 1 <= d <= n
  {
    if q > c then q - c else q + n - c
  }

  /** The selection loop reaches a scheduled process no further than any given one. */
  lemma {:induction false} SelectReaches(procs: seq<Process>, c: nat, q: nat, turns: nat)
    requires c < |procs| && q < |procs| && procs[q].status.Scheduled?
    requires Distance(|procs|, c, q) <= turns
    ensures var r := SelectLoop(procs, c, turns);
            && r.Ok? && r.value < |procs| && procs[r.value].status.Scheduled?
            && (r.value == q || Distance(|procs|, r.value, q) < Distance(|procs|, c, q))
    decreases turns
  {
    var n := NextIndex(|procs|, c);
    if !procs[n].status.Scheduled? {
      SelectReaches(procs, n, q, turns - 1);
    }
  }

  /** The failure "no more scheduled processes" is unreachable from a sound table. */
  lemma SelectSucceeds(procs: seq<Process>, idGen: nat, c: nat)
    requires TableInv(procs, idGen) && c < |procs|
    ensures var r := SelectLoop(procs, c, |procs|);
            r.Ok? && r.value < |procs| && procs[r.value].status.Scheduled?
  {
    var q := WaitChainEnds(procs, idGen, 0);
    SelectReaches(procs, c, q, |procs|);
  }

  predicate SomeScheduled(procs: seq<Process>) { exists i :: 0 <= i < |procs| && procs[i].status.Scheduled? }

  lemma {:induction false} SelectFails(procs: seq<Process>, c: nat, turns: nat)
    requires c < |procs| && !SomeScheduled(procs)
    ensures SelectLoop(procs, c, turns) == Halted(NoScheduled)
    decreases turns
  {
    if turns > 0 { SelectFails(procs, NextIndex(|procs|, c), turns - 1); }
  }

  /** Of any table the loop selects a scheduled process if and only if there is one. */
  lemma SelectIff(procs: seq<Process>, c: nat)
    requires c < |procs|
    ensures var r := SelectLoop(procs, c, |procs|);
            && (r.Halted? <==> !SomeScheduled(procs)) && (r.Halted? ==> r == Halted(NoScheduled))
            && (r.Ok? ==> r.value < |procs| && procs[r.value].status.Scheduled?)
  {
    if SomeScheduled(procs) {
      var q :| 0 <= q < |procs| && procs[q].status.Scheduled?;
      SelectReaches(procs, c, q, |procs|);
    } else {
      SelectFails(procs, c, |procs|);
    }
  }
}
