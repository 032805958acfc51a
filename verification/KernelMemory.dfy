/** The sections that the kernel keeps for itself: its heap, the translation tables, the ramdisk and
    the dentries. No store of a user program and no copy of a system call reaches them. */
module KernelMemory {
  import opened Bytes
  import opened Wrappers
  import opened Mmu
  import opened Kernel
  import opened Steps
  import opened Runs

  /** The kernel's sections hold the same bytes. */
  predicate Spared(k: State, k1: State) {
    |k.memory| == |k1.memory| == SLOTS && k1.memory[..KERNEL_SECTIONS] == k.memory[..KERNEL_SECTIONS]
  }

  lemma {:induction false} StoreAtSpares(memory: seq<Section>, s: nat, o: nat, bytes: seq<Byte>)
    requires KERNEL_SECTIONS <= s && KERNEL_SECTIONS <= |memory| && o < SECTION_SIZE
    ensures StoreAt(memory, s, o, bytes)[..KERNEL_SECTIONS] == memory[..KERNEL_SECTIONS]
    decreases |bytes|
  {
    if s < |memory| && o + |bytes| > SECTION_SIZE {
      var n := SECTION_SIZE - o;
      StoreAtSpares(memory[s := Splice(memory[s], o, bytes[..n])], s + 1, 0, bytes[n..]);
    }
  }

  lemma StoreSpares(k: State, address: nat, bytes: seq<Byte>)
    requires Shape(k) && Store(k, address, bytes).Ok?
    ensures Spared(k, Store(k, address, bytes).value)
  {
    if InUser(address, |bytes|) && bytes != [] {
      assert SlotOf(address) >= KERNEL_SECTIONS;
      StoreAtSpares(k.memory, SlotOf(address), OffsetOf(address), bytes);
    }
  }

  lemma ExitSpares(k: State, status: Word)
    requires Shape(k) && Exit(k, status).Ok?
    ensures Spared(k, Exit(k, status).value)
  {
    var p := Current(k).value;
    var procs := ExitedTable(k.procs, k.current, status);
    var j := FindPid(procs, procs[k.current].parent).value;
    if procs[j].status.Suspended? && procs[j].status.waitPid == p.id {
      StoreSpares(k, procs[j].status.wstatusRef, WordBytes(status));
    }
  }

  lemma WaitSpares(k: State, pid: int, ref: nat)
    requires Shape(k) && WaitId(k, pid, ref).Ok?
    ensures Spared(k, WaitId(k, pid, ref).value.0)
  {
    var f := FindPid(k.procs, pid);
    if pid != -1 && f.Some? && k.procs[f.value].status.Exited? {
      StoreSpares(k, ref, WordBytes(k.procs[f.value].status.wstatus));
    }
  }

  lemma ForkSpares(k: State)
    requires Ready(k) && Fork(k).Ok?
    ensures Spared(k, Fork(k).value.0)
  {
    if |k.procs| < MAX_PROCS { ForkIs(k); }
  }

  lemma ReadSpares(k: State, fd: nat, va: Word, data: Outcome<(seq<Byte>, Word)>)
    requires Shape(k) && Read(k, fd, va, data).Ok?
    ensures Spared(k, Read(k, fd, va, data).value.0)
  {
    var p := Current(k).value;
    if HasFile(p, fd) { StoreSpares(k, UserPointer(k, va).value, data.value.0); }
  }

  lemma ExecSpares(k: State, image: Option<(Section, Context)>)
    requires Ready(k) && Exec(k, image).Ok?
    ensures Spared(k, Exec(k, image).value.0)
  {
    CurrentFacts(k);
  }

  lemma HandleSpares(k: State, call: Call)
    requires Ready(k) && Handle(k, call).Ok?
    ensures Spared(k, Handle(k, call).value.0)
  {
    match call
    case ExitCall(status) => ExitSpares(k, status);
    case ReadCall(fd, va, data) => ReadSpares(k, fd, va, data);
    case ForkCall => ForkSpares(k);
    case WaitPidCall(pid, va) => WaitSpares(k, pid, UserPointer(k, va).value);
    case ExecCall(path, argv, strings, image) => ExecSpares(k, image.value);
    case _ =>
  }

  lemma ServeSpares(k: State, trap: Trap)
    requires Ready(k) && Serve(k, trap).Ok?
    ensures Spared(k, Serve(k, trap).value)
  {
    match trap
    case Fault => ExitSpares(k, 1);
    case Preempt(c) =>
    case Exception =>
    case Syscall(c, call) =>
      SaveKeeps(k, c, call);
      HandleSpares(SaveContext(k, c).value, call);
  }

  lemma NextSpares(k: State, e: Event)
    requires Ready(k) && Next(k, e).Ok?
    ensures Spared(k, Next(k, e).value)
  {
    NextIs(k, e);
    if TrapOf(e).Some? { ServeSpares(k, TrapOf(e).value); } else { UserStoreIs(k, e.va, e.b); }
  }

  /** Over every run, whatever pointers the processes hand to the kernel, its own sections keep their
      bytes: the copies of the handlers land in the sections of processes or stop the machine. */
  lemma {:induction false} RunsSpareKernel(k: State, events: seq<Event>)
    requires Ready(k) && RunFresh(k, events) && Run(k, events).Ok?
    ensures Spared(k, Run(k, events).value)
    decreases |events|
  {
    if events != [] {
      NextSpares(k, events[0]);
      NextKeepsReady(k, events[0]);
      RunsSpareKernel(Next(k, events[0]).value, events[1..]);
    }
  }

  // ---- the translation tables in their section ----

  const TABLE_SECTION: nat := 1
  const TABLE_BYTES: nat := 0x4000

  /** translation_table_allocator_alloc: where entry i of table t stands. */
  function EntryAddress(t: nat, i: nat): nat { SectionAddress(TABLE_SECTION) + t * TABLE_BYTES + 4 * i }

  /** The 64 tables fill their section, and no two entries share a byte. */
  lemma TablesFillSection(t: nat, i: nat, u: nat, j: nat)
    requires t < SLOTS && i < ENTRY_COUNT && u < SLOTS && j < ENTRY_COUNT
    ensures InSection(EntryAddress(t, i), 4) && SlotOf(EntryAddress(t, i)) == TABLE_SECTION
    ensures EntryAddress(t, i) < EntryAddress(u, j) + 4 && EntryAddress(u, j) < EntryAddress(t, i) + 4 ==> t == u && i == j
  {
  }

  lemma EntryByte(t: nat, i: nat, b: nat)
    requires t < SLOTS && i < ENTRY_COUNT && b < 4
    ensures SlotOf(EntryAddress(t, i) + b) == TABLE_SECTION
  {
    var x := t * TABLE_BYTES + 4 * i + b;
    assert x < SECTION_SIZE;
  }

  /** So no run writes into a table but through the table functions. */
  lemma TablesOutOfReach(k: State, events: seq<Event>, t: nat, i: nat, b: nat)
    requires Ready(k) && RunFresh(k, events) && Run(k, events).Ok?
    requires t < SLOTS && i < ENTRY_COUNT && b < 4
    ensures |Run(k, events).value.memory| == SLOTS
    ensures var a := EntryAddress(t, i) + b;
            SlotOf(a) < SLOTS && Run(k, events).value.memory[SlotOf(a)][OffsetOf(a)] == k.memory[SlotOf(a)][OffsetOf(a)]
  {
    RunsSpareKernel(k, events);
    EntryByte(t, i, b);
    var r := Run(k, events).value;
    assert r.memory[..KERNEL_SECTIONS][TABLE_SECTION] == k.memory[..KERNEL_SECTIONS][TABLE_SECTION];
  }
}
