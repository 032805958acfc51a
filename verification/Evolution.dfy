/** Where the entries of the process table come from, trap after trap: every entry is an older one,
    perhaps handed to init, or a fresh child; nobody is suspended but who was, and the caller. */
module Evolution {
  import opened Bytes
  import opened Wrappers
  import opened Mmu
  import opened Kernel
  import opened TableInvariant
  import opened Steps
  import opened Others
  import opened Runs

  /** Entry p continues an entry of table a; `me` is the pid of the caller. */
  predicate Comes(a: seq<Process>, me: int, p: Process) {
    exists i :: 0 <= i < |a| && Continues(a[i], me, p)
  }

  predicate Continues(o: Process, me: int, p: Process) {
    && o.id == p.id
    && (p.parent == o.parent || p.parent == INIT_PID)
    && (Live(p) ==> Live(o))
    && (p.status.Suspended? ==> (p.status == o.status && p.section == o.section) || p.id == me)
  }

  predicate IsFresh(gen: nat, p: Process) { p.id > gen && !p.status.Suspended? }

  predicate Evolves(a: seq<Process>, gen: nat, me: int, b: seq<Process>) {
    forall i :: 0 <= i < |b| ==> Comes(a, me, b[i]) || IsFresh(gen, b[i])
  }

  lemma EvolvesThen(a: seq<Process>, gen: nat, me: int, b: seq<Process>, gen1: nat, c: seq<Process>)
    requires Evolves(a, gen, me, b) && Evolves(b, gen1, me, c) && me <= gen <= gen1
    ensures Evolves(a, gen, me, c)
  {
    forall i | 0 <= i < |c| ensures Comes(a, me, c[i]) || IsFresh(gen, c[i]) {
      if Comes(b, me, c[i]) {
        var j :| 0 <= j < |b| && Continues(b[j], me, c[i]);
        if Comes(a, me, b[j]) {
          var x :| 0 <= x < |a| && Continues(a[x], me, b[j]);
          assert Continues(a[x], me, c[i]);
        }
      }
    }
  }

  /** Entry by entry. */
  lemma EntryWise(a: seq<Process>, gen: nat, me: int, b: seq<Process>)
    requires |a| == |b| && forall i :: 0 <= i < |a| ==> Continues(a[i], me, b[i])
    ensures Evolves(a, gen, me, b)
  {
  }

  lemma OneChanged(a: seq<Process>, gen: nat, me: int, c: nat, p: Process)
    requires c < |a| && Continues(a[c], me, p)
    ensures Evolves(a, gen, me, a[c := p])
  {
    EntryWise(a, gen, me, a[c := p]);
  }

  lemma OneRemoved(a: seq<Process>, gen: nat, me: int, z: nat)
    requires z < |a|
    ensures Evolves(a, gen, me, Without(a, z))
  {
    forall i | 0 <= i < |a| - 1 ensures Comes(a, me, Without(a, z)[i]) {
      WithoutAt(a, z, i);
      assert Continues(a[if i < z then i else i + 1], me, Without(a, z)[i]);
    }
  }

  lemma OneAppended(a: seq<Process>, gen: nat, me: int, p: Process)
    requires IsFresh(gen, p)
    ensures Evolves(a, gen, me, a + [p])
  {
    forall i | 0 <= i < |a| ensures Comes(a, me, (a + [p])[i]) { assert Continues(a[i], me, a[i]); }
  }

  lemma AfterExitEvolves(procs: seq<Process>, gen: nat, c: nat, status: Word, j: nat)
    requires c < |procs| && j < |procs| && j != c && procs[c].id <= gen && Live(procs[c])
    ensures Evolves(procs, gen, procs[c].id, AfterExit(procs, c, status, j))
  {
    var me, r := procs[c].id, ExitedTable(procs, c, status);
    forall i | 0 <= i < |procs| ensures Continues(procs[i], me, r[i]) { ExitedEntry(procs, c, status, i); }
    EntryWise(procs, gen, me, r);
    if r[j].status.Suspended? && r[j].status.waitPid == me {
      var w := r[j := WithR0(r[j].(status := Scheduled), me % ADDRESS_LIMIT)];
      assert Continues(procs[j], me, w[j]);
      EntryWise(procs, gen, me, w);
      OneRemoved(w, gen, me, c);
      EvolvesThen(procs, gen, me, w, gen, Without(w, c));
    }
  }

  /** The table that exit leaves. */
  lemma ExitProcs(k: State, status: Word) returns (j: nat)
    requires Ready(k) && k.current != 0
    ensures j < k.current < |k.procs| && k.procs[j].id == k.procs[k.current].parent
    ensures Exit(k, status).Ok? && Exit(k, status).value.idGen == k.idGen
    ensures Exit(k, status).value.procs == AfterExit(k.procs, k.current, status, j)
  {
    j := ExitIs(k, status);
    ExitedEntry(k.procs, k.current, status, j);
    if ParentWaits(k, j) { ExitWakeSound(k, status, j); }
  }

  lemma ExitEvolves(k: State, status: Word)
    requires Ready(k) && k.current != 0
    ensures Exit(k, status).Ok?
    ensures Exit(k, status).value.idGen == k.idGen
    ensures Evolves(k.procs, k.idGen, k.procs[k.current].id, Exit(k, status).value.procs)
  {
    var j := ExitProcs(k, status);
    IdPositive(k.procs, k.idGen, k.current);
    AfterExitEvolves(k.procs, k.idGen, k.current, status, j);
  }

  /** The table that WAITPID leaves. */
  lemma WaitProcs(k: State, pid: int, slot: nat, va: Word)
    requires Ready(k) && !ReapsBelow(k, pid)
    requires k.procs[k.current].section == Some(slot) && (va == 0 || va / SECTION_SIZE == PROCESS_ENTRY)
    ensures var r, f := WaitId(k, pid, PointerTo(slot, va)), FindPid(k.procs, pid);
            && r.Ok? && r.value.0.idGen == k.idGen
            && r.value.0.procs ==
               if pid == -1 || f.None? then k.procs
               else if Live(k.procs[f.value]) then
                 k.procs[k.current := k.procs[k.current].(status := Suspended(pid, PointerTo(slot, va)))]
               else Without(k.procs, f.value)
  {
    WaitIdIs(k, pid, PointerTo(slot, va));
    var f := FindPid(k.procs, pid);
    if pid != -1 && f.Some? && !Live(k.procs[f.value]) {
      var bytes := WordBytes(k.procs[f.value].status.wstatus);
      ReapFacts(k, f.value, slot, va, bytes);
    }
  }

  lemma WaitEvolves(k: State, pid: int, va: Word)
    requires Ready(k) && !ReapsBelow(k, pid) && !BadPointer(va)
    ensures WaitPid(k, pid, va).Ok?
    ensures WaitPid(k, pid, va).value.0.idGen == k.idGen
    ensures Evolves(k.procs, k.idGen, k.procs[k.current].id, WaitPid(k, pid, va).value.0.procs)
  {
    PointerIs(k, va);
    var slot, c, me := k.procs[k.current].section.value, k.current, k.procs[k.current].id;
    WaitProcs(k, pid, slot, va);
    var f := FindPid(k.procs, pid);
    if pid == -1 || f.None? {
      EntryWise(k.procs, k.idGen, me, k.procs);
    } else if Live(k.procs[f.value]) {
      OneChanged(k.procs, k.idGen, me, c, k.procs[c].(status := Suspended(pid, PointerTo(slot, va))));
    } else {
      OneRemoved(k.procs, k.idGen, me, f.value);
    }
  }

  lemma ForkEvolves(k: State)
    requires Ready(k)
    ensures Fork(k).Ok? && Fork(k).value.0.idGen >= k.idGen
    ensures Evolves(k.procs, k.idGen, k.procs[k.current].id, Fork(k).value.0.procs)
  {
    var me := k.procs[k.current].id;
    if |k.procs| < MAX_PROCS {
      ForkIs(k);
      var child := Fork(k).value.0.procs[|k.procs|];
      OneAppended(k.procs, k.idGen, me, child);
    } else {
      EntryWise(k.procs, k.idGen, me, k.procs);
    }
  }

  /** The other calls change the caller's registers and descriptors only. */
  lemma PlainCall(k: State, call: Call)
    requires Ready(k) && Handle(k, call).Ok? && !call.ExitCall? && !call.ForkCall? && !call.WaitPidCall?
    ensures var k1 := Handle(k, call).value.0;
            && k1.idGen == k.idGen && |k1.procs| == |k.procs|
            && k1.procs[k.current] == k.procs[k.current].(context := k1.procs[k.current].context, files := k1.procs[k.current].files)
            && k1.procs == k.procs[k.current := k1.procs[k.current]]
  {
    assert k.procs == k.procs[k.current := k.procs[k.current]];
  }

  lemma HandleEvolves(k: State, call: Call)
    requires Ready(k) && Handle(k, call).Ok? && !call.ExitCall?
    requires call.WaitPidCall? ==> !ReapsBelow(k, call.pid)
    ensures Handle(k, call).value.0.idGen >= k.idGen
    ensures Evolves(k.procs, k.idGen, k.procs[k.current].id, Handle(k, call).value.0.procs)
  {
    if call.WaitPidCall? {
      PointerIs(k, call.va);
      WaitEvolves(k, call.pid, call.va);
    } else if call.ForkCall? {
      ForkEvolves(k);
    } else {
      PlainCall(k, call);
      OneChanged(k.procs, k.idGen, k.procs[k.current].id, k.current, Handle(k, call).value.0.procs[k.current]);
    }
  }

  // ---- one event ----

  lemma DispatchEvolves(k: State, call: Call)
    requires Ready(k) && Fresh(k, call) && Dispatch(k, call).Ok?
    ensures Dispatch(k, call).value.idGen >= k.idGen
    ensures Evolves(k.procs, k.idGen, k.procs[k.current].id, Dispatch(k, call).value.procs)
  {
    DispatchSound(k, call);
    var me := k.procs[k.current].id;
    IdPositive(k.procs, k.idGen, k.current);
    if call.ExitCall? {
      ExitSound(k, call.status);
      ExitEvolves(k, call.status);
      StatusEvolves(k, Exit(k, call.status).value, me, 0);
    } else {
      HandleEvolves(k, call);
      StatusEvolves(k, Handle(k, call).value.0, me, Handle(k, call).value.1);
    }
  }

  /** A status written after the handler. */
  lemma StatusEvolves(k: State, k1: State, me: int, status: Word)
    requires k1.current < |k1.procs| && me <= k.idGen <= k1.idGen && Evolves(k.procs, k.idGen, me, k1.procs)
    ensures Evolves(k.procs, k.idGen, me, SetStatus(k1, status).value.procs)
  {
    var p := k1.procs[k1.current];
    OneChanged(k1.procs, k1.idGen, me, k1.current, WithR0(p, status));
    EvolvesThen(k.procs, k.idGen, me, k1.procs, k1.idGen, SetStatus(k1, status).value.procs);
  }

  lemma ServeEvolves(k: State, trap: Trap)
    requires Ready(k) && TrapFresh(k, trap) && Serve(k, trap).Ok?
    ensures Serve(k, trap).value.idGen >= k.idGen
    ensures Evolves(k.procs, k.idGen, k.procs[k.current].id, Serve(k, trap).value.procs)
  {
    ServeSound(k, trap);
    var me := k.procs[k.current].id;
    match trap
    case Fault => ExitEvolves(k, 1);
    case Preempt(c) => OneChanged(k.procs, k.idGen, me, k.current, k.procs[k.current].(context := c));
    case Syscall(c, call) =>
      SaveKeeps(k, c, call);
      var k0 := SaveContext(k, c).value;
      IdPositive(k.procs, k.idGen, k.current);
      OneChanged(k.procs, k.idGen, me, k.current, k.procs[k.current].(context := c));
      DispatchEvolves(k0, call);
      EvolvesThen(k.procs, k.idGen, me, k0.procs, k0.idGen, Dispatch(k0, call).value.procs);
  }

  /** Where the entries after an event come from. */
  lemma NextEvolves(k: State, e: Event)
    requires Ready(k) && EventFresh(k, e) && Next(k, e).Ok?
    ensures Next(k, e).value.idGen >= k.idGen
    ensures Evolves(k.procs, k.idGen, k.procs[k.current].id, Next(k, e).value.procs)
  {
    NextIs(k, e);
    match TrapOf(e)
    case Some(trap) => ServeEvolves(k, trap);
    case None => EntryWise(k.procs, k.idGen, k.procs[k.current].id, k.procs);
  }
}
