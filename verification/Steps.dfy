/** Every trap keeps every invariant, and the only ways to halt are named. */
module Steps {
  import opened Bytes
  import opened Wrappers
  import opened Mmu
  import opened Bitfield
  import opened FsUtils
  import opened Kernel
  import opened TableInvariant
  import opened MemoryInvariant
  import opened FileInvariant

  /** Where a suspended process will receive the status: from a byte of its own section on, or at
      address 0 for a null pointer. */
  predicate RefOk(p: Process) {
    p.status.Suspended? ==>
      && p.section.Some?
      && (p.status.wstatusRef == 0 ||
          SectionAddress(p.section.value) <= p.status.wstatusRef < SectionAddress(p.section.value + 1))
  }

  /** What every trap keeps, whoever waits for whom. */
  ghost predicate Loose(k: State) {
    && MemoryInv(k)
    && Lineage(k.procs, k.idGen)
    && FileInv(k.procs, k.fdCount)
    && (forall i :: 0 <= i < |k.procs| ==> RefOk(k.procs[i]))
    && k.current < |k.procs|
  }

  /** In addition every suspended process waits for a live child. */
  ghost predicate Sound(k: State) { Loose(k) && Waiting(k.procs) }

  /** The states in which user mode runs. */
  ghost predicate Ready(k: State) { Loose(k) && k.procs[k.current].status.Scheduled? }

  ghost predicate Good(k: State) { Sound(k) && k.procs[k.current].status.Scheduled? }

  /** A user buffer of `size` bytes inside the process section. */
  predicate BufferOk(va: Word, size: nat) {
    va / SECTION_SIZE == PROCESS_ENTRY && va % SECTION_SIZE + size <= SECTION_SIZE
  }

  /** A pointer that the translation rejects. */
  predicate BadPointer(va: Word) { va != 0 && va / SECTION_SIZE != PROCESS_ENTRY }

  /** WAITPID names a direct child, or an exited process above the caller, or nobody. */
  predicate WaitAllowed(k: State, pid: int)
    requires k.current < |k.procs|
  {
    forall j :: 0 <= j < |k.procs| && k.procs[j].id == pid ==>
      if Live(k.procs[j]) then k.procs[j].parent == k.procs[k.current].id
      else pid > k.procs[k.current].id
  }

  /** The VFS opens fresh file objects. */
  predicate Fresh(k: State, call: Call) {
    call.OpenCall? && call.file.Done? && call.file.value.Some? ==> call.file.value.value !in k.fdCount
  }

  predicate CallAllowed(k: State, call: Call)
    requires k.current < |k.procs|
  {
    Fresh(k, call) && (call.WaitPidCall? ==> WaitAllowed(k, call.pid))
  }

  predicate TrapFresh(k: State, trap: Trap) { trap.Syscall? ==> Fresh(k, trap.call) }

  predicate TrapAllowed(k: State, trap: Trap)
    requires k.current < |k.procs|
  {
    trap.Syscall? ==> CallAllowed(k, trap.call)
  }

  /** The processor stays with the caller, and whoever waited for a live child still does. */
  predicate Kept(k: State, k1: State)
    requires k.current < |k.procs|
  {
    && k1.current == k.current < |k1.procs|
    && k1.procs[k.current].id == k.procs[k.current].id
    && (Waiting(k.procs) ==> Waiting(k1.procs))
  }

  /** An entry changed but for its slots and whether it is live. */
  lemma SlotsOfEntry(k: State, i: nat, p: Process)
    requires MemoryInv(k) && i < |k.procs| && |p.files| == MAX_FDS
    requires p.section == k.procs[i].section && p.table == k.procs[i].table && Live(p) == Live(k.procs[i])
    ensures MemoryInv(SetProc(k, i, p))
  {
    assert forall j :: 0 <= j < |k.procs| ==> k.procs[j] in k.procs;
    SlotsKeep(k, k.procs[i := p]);
  }

  /** An entry changed in its registers only. */
  lemma RegistersKeep(k: State, i: nat, c: Context)
    requires Loose(k) && i < |k.procs|
    ensures var r := SetProc(k, i, k.procs[i].(context := c));
            Loose(r) && (Waiting(k.procs) ==> Waiting(r.procs))
  {
    var p := k.procs[i].(context := c);
    var procs := k.procs[i := p];
    assert k.procs[i] in k.procs;
    SlotsOfEntry(k, i, p);
    assert Lineage(procs, k.idGen) && (Waiting(k.procs) ==> Waiting(procs)) by { SkeletonKeeps(k.procs, procs, k.idGen); }
    assert FileInv(procs, k.fdCount) by { SameFilesKeep(k.procs, procs, k.fdCount); }
  }

  /** Ownership is a matter of the entries, the bits and the tables only. */
  lemma MemoryFrame(k: State, r: State)
    requires MemoryInv(k) && |r.memory| == SLOTS && |r.reset| == 4
    requires r.procs == k.procs && r.sectionBits == k.sectionBits && r.tableBits == k.tableBits && r.tables == k.tables
    ensures MemoryInv(r)
  {
    forall i | 0 <= i < |k.procs| ensures Owns(r, i) { assert Owns(k, i); }
  }

  /** Memory contents are not constrained. */
  lemma ContentsKeep(k: State, memory: seq<Section>)
    requires Loose(k) && |memory| == SLOTS
    ensures Loose(k.(memory := memory))
  {
    MemoryFrame(k, k.(memory := memory));
  }

  /** The running process: live, with its slots, init at index 0 only. */
  lemma CurrentFacts(k: State)
    requires Ready(k)
    ensures var p := k.procs[k.current];
            && p in k.procs && p.section.Some? && p.table.Some?
            && KERNEL_SECTIONS <= p.section.value < SLOT_BOUND && p.table.value < SLOTS
            && k.tables[p.table.value] == ProcTable(p.section.value)
            && (p.id == INIT_PID <==> k.current == 0)
  {
    assert Owns(k, k.current);
    IdPositive(k.procs, k.idGen, k.current);
  }

  /** What a user pointer is for the kernel. */
  function PointerTo(slot: nat, va: Word): nat { if va == 0 then 0 else SectionAddress(slot) + va % SECTION_SIZE }

  lemma PointerIs(k: State, va: Word)
    requires Ready(k)
    ensures k.procs[k.current].section.Some?
    ensures UserPointer(k, va) == if BadPointer(va) then Halted(BadTranslation)
                                  else Ok(PointerTo(k.procs[k.current].section.value, va))
  {
    CurrentFacts(k);
    ProcTableTranslate(k.procs[k.current].section.value, va);
    assert Translate(ProcTable(k.procs[k.current].section.value), 0) == Null;
  }

  lemma {:induction false} PointersAre(k: State, vas: seq<Word>)
    requires Ready(k)
    ensures UserPointers(k, vas) == if exists i :: 0 <= i < |vas| && BadPointer(vas[i]) then Halted(BadTranslation) else Ok(())
  {
    if vas != [] {
      PointerIs(k, vas[0]);
      PointersAre(k, vas[1..]);
      assert forall i :: 1 <= i < |vas| ==> vas[i] == vas[1..][i - 1];
      if exists i :: 0 <= i < |vas[1..]| && BadPointer(vas[1..][i]) {
        var i :| 0 <= i < |vas[1..]| && BadPointer(vas[1..][i]);
        assert BadPointer(vas[i + 1]);
      }
    }
  }

  /** A store from a user pointer on: it runs into unmapped memory behind the last section, or over
      the kernel from address 0. */
  predicate Overruns(slot: nat, va: Word, size: nat) {
    size > 0 && if va == 0 then size > 4 else SectionAddress(slot) + va % SECTION_SIZE + size > SectionAddress(SLOTS)
  }

  /** A store changes memory contents only, and those are not constrained. */
  lemma StoreKeeps(k: State, slot: nat, va: Word, bytes: seq<Byte>)
    requires Loose(k) && KERNEL_SECTIONS <= slot < SLOT_BOUND
    ensures var r := Store(k, PointerTo(slot, va), bytes);
            && (r.Halted? <==> Overruns(slot, va, |bytes|))
            && (r.Halted? ==> r.reason in {KernelFault, KernelOverwritten})
            && (r.Ok? ==> Loose(r.value) && r.value.procs == k.procs && Kept(k, r.value))
  {
    var r := Store(k, PointerTo(slot, va), bytes);
    if r.Ok? { MemoryFrame(k, r.value); }
  }

  /** Bytes put into one section. */
  function PutIn(memory: seq<Section>, address: nat, bytes: seq<Byte>): seq<Section>
    requires |memory| == SLOTS && InSection(address, |bytes|)
  {
    memory[SlotOf(address) := Splice(memory[SlotOf(address)], OffsetOf(address), bytes)]
  }

  /** A store inside one section of a process. */
  lemma StoreInside(k: State, address: nat, bytes: seq<Byte>)
    requires Shape(k) && InSection(address, |bytes|) && SlotOf(address) >= KERNEL_SECTIONS
    ensures Store(k, address, bytes) == Ok(k.(memory := PutIn(k.memory, address, bytes)))
  {
    if bytes == [] {
      var s, o := SlotOf(address), OffsetOf(address);
      assert Splice(k.memory[s], o, bytes) == k.memory[s];
      assert PutIn(k.memory, address, bytes) == k.memory;
    }
  }

  /** A status word always has somewhere to go. */
  lemma RefStores(k: State, i: nat, bytes: seq<Byte>)
    requires Loose(k) && i < |k.procs| && k.procs[i].status.Suspended? && |bytes| == 4
    ensures var r := Store(k, k.procs[i].status.wstatusRef, bytes);
            r.Ok? && Loose(r.value) && r.value.procs == k.procs
  {
    assert RefOk(k.procs[i]) && Owns(k, i);
    var r := Store(k, k.procs[i].status.wstatusRef, bytes);
    MemoryFrame(k, r.value);
  }

  lemma InOwnSection(slot: nat, va: Word, size: nat)
    requires slot < SLOTS && BufferOk(va, size)
    ensures InSection(SectionAddress(slot) + va % SECTION_SIZE, size)
    ensures SlotOf(SectionAddress(slot) + va % SECTION_SIZE) == slot
    ensures OffsetOf(SectionAddress(slot) + va % SECTION_SIZE) == va % SECTION_SIZE
  {
    var o := va % SECTION_SIZE;
    assert (slot * SECTION_SIZE + o) / SECTION_SIZE == slot;
  }

  // ---- exit ----

  /** The state once the caller is marked exited, its slots are free and its children are init's. */
  function MarkExited(k: State, status: Word): State
    requires Shape(k) && k.current < |k.procs|
    requires k.procs[k.current].section.Some? && k.procs[k.current].table.Some?
  {
    assert k.procs[k.current] in k.procs;
    k.(procs := ExitedTable(k.procs, k.current, status),
       sectionBits := k.sectionBits[k.procs[k.current].section.value := false],
       tableBits := k.tableBits[k.procs[k.current].table.value := false])
  }

  lemma ExitedEntry(procs: seq<Process>, c: nat, status: Word, i: nat)
    requires c < |procs| && i < |procs|
    ensures var r := ExitedTable(procs, c, status);
            && |r| == |procs|
            && r[i].id == procs[i].id && r[i].files == procs[i].files && r[i].context == procs[i].context
            && (i != c ==> r[i].status == procs[i].status && r[i].section == procs[i].section && r[i].table == procs[i].table)
            && (i == c ==> r[i].status == Exited(status) && r[i].section == None && r[i].table == None)
  {
  }

  lemma MarkExitedKeeps(k: State, status: Word)
    requires Ready(k) && k.procs[k.current].section.Some? && k.procs[k.current].table.Some?
    ensures var k1 := MarkExited(k, status);
            && |k1.procs| == |k.procs|
            && MemoryInv(k1) && FileInv(k1.procs, k1.fdCount)
            && forall i :: 0 <= i < |k1.procs| ==> RefOk(k1.procs[i])
  {
    var procs := ExitedTable(k.procs, k.current, status);
    forall i | 0 <= i < |procs| ensures
      && |procs[i].files| == MAX_FDS && procs[i].files == k.procs[i].files && RefOk(procs[i])
      && (i != k.current ==> procs[i].section == k.procs[i].section && procs[i].table == k.procs[i].table
                             && Live(procs[i]) == Live(k.procs[i]))
    {
      assert k.procs[i] in k.procs && RefOk(k.procs[i]);
      ExitedEntry(k.procs, k.current, status, i);
    }
    ExitedEntry(k.procs, k.current, status, k.current);
    ReleaseKeeps(k, k.current, procs);
    SameFilesKeep(k.procs, procs, k.fdCount);
  }

  /** Waking the parent at j and dropping the entry of the caller. */
  function Woken(k1: State, j: nat, pid: int): seq<Process>
    requires j < |k1.procs|
  {
    k1.procs[j := WithR0(k1.procs[j].(status := Scheduled), pid % ADDRESS_LIMIT)]
  }

  lemma WakeKeeps(k1: State, j: nat, pid: int, c: nat, memory: seq<Section>, reset: seq<Byte>)
    requires MemoryInv(k1) && FileInv(k1.procs, k1.fdCount) && |memory| == SLOTS && |reset| == 4
    requires j < c < |k1.procs| && Live(k1.procs[j]) && !Live(k1.procs[c])
    requires forall i :: 0 <= i < |k1.procs| ==> RefOk(k1.procs[i])
    ensures var r := k1.(procs := Without(Woken(k1, j, pid), c), memory := memory, reset := reset, current := c - 1);
            && MemoryInv(r) && FileInv(r.procs, r.fdCount)
            && forall i :: 0 <= i < |r.procs| ==> RefOk(r.procs[i])
  {
    var procs := Woken(k1, j, pid);
    assert forall i :: 0 <= i < |k1.procs| ==> k1.procs[i] in k1.procs;
    SlotsKeep(k1, procs);
    SameFilesKeep(k1.procs, procs, k1.fdCount);
    RemoveZombieKeeps(k1.(procs := procs), c);
    RemoveKeepsFiles(procs, c, k1.fdCount);
    forall i | 0 <= i < |procs| - 1 ensures RefOk(Without(procs, c)[i]) { WithoutAt(procs, c, i); }
    MemoryFrame(k1.(procs := Without(procs, c)),
                k1.(procs := Without(procs, c), memory := memory, reset := reset, current := c - 1));
  }

  /** Index of the parent that exit looks up. */
  function ParentOf(k: State, status: Word): Option<nat>
    requires k.current < |k.procs|
  {
    var procs := ExitedTable(k.procs, k.current, status);
    FindPid(procs, procs[k.current].parent)
  }

  predicate ParentWaits(k: State, j: nat)
    requires k.current < |k.procs| && j < |k.procs|
  {
    k.procs[j].status.Suspended? && k.procs[j].status.waitPid == k.procs[k.current].id
  }

  /** The state that exit leaves, given the parent at j. */
  function ExitResult(k: State, status: Word, j: nat): State
    requires Shape(k) && k.current < |k.procs| && j < |k.procs|
    requires k.procs[k.current].section.Some? && k.procs[k.current].table.Some?
    requires ParentWaits(k, j) ==> k.current > 0 && Store(k, k.procs[j].status.wstatusRef, WordBytes(status)).Ok?
  {
    var k1 := MarkExited(k, status);
    if ParentWaits(k, j) then
      var stored := Store(k, k.procs[j].status.wstatusRef, WordBytes(status)).value;
      k1.(procs := Without(Woken(k1, j, k.procs[k.current].id), k.current),
          memory := stored.memory, reset := stored.reset, current := k.current - 1)
    else k1
  }

  lemma ExitComputes(k: State, status: Word, j: nat)
    requires Shape(k) && k.current < |k.procs| && k.procs[k.current].id != INIT_PID
    requires k.procs[k.current].section.Some? && k.procs[k.current].table.Some?
    requires ParentOf(k, status) == Some(j) && j < k.current
    requires ParentWaits(k, j) ==> Store(k, k.procs[j].status.wstatusRef, WordBytes(status)).Ok?
    ensures Exit(k, status) == Ok(ExitResult(k, status, j))
  {
    ExitedEntry(k.procs, k.current, status, j);
    ExitedEntry(k.procs, k.current, status, k.current);
  }

  /** What exit computes for a process other than init. */
  lemma ExitIs(k: State, status: Word) returns (j: nat)
    requires Ready(k) && k.current != 0
    ensures j < k.current && Live(k.procs[j]) && k.procs[j].id == k.procs[k.current].parent
    ensures k.procs[k.current].section.Some? && k.procs[k.current].table.Some?
    ensures ParentWaits(k, j) ==> Store(k, k.procs[j].status.wstatusRef, WordBytes(status)).Ok?
    ensures Lineage(AfterExit(k.procs, k.current, status, j), k.idGen)
    ensures Waiting(k.procs) ==> Waiting(AfterExit(k.procs, k.current, status, j))
    ensures Exit(k, status) == Ok(ExitResult(k, status, j))
  {
    CurrentFacts(k);
    ExitKeeps(k.procs, k.idGen, k.current, status);
    j := ParentOf(k, status).value;
    if ParentWaits(k, j) { RefStores(k, j, WordBytes(status)); }
    ExitComputes(k, status, j);
  }

  lemma ExitWakeSound(k: State, status: Word, j: nat)
    requires Ready(k) && 0 < k.current && j < k.current && ParentWaits(k, j)
    requires k.procs[k.current].section.Some? && k.procs[k.current].table.Some?
    requires Store(k, k.procs[j].status.wstatusRef, WordBytes(status)).Ok?
    requires Lineage(AfterExit(k.procs, k.current, status, j), k.idGen)
    ensures var r := ExitResult(k, status, j);
            && Loose(r) && r.current == k.current - 1 && r.procs == AfterExit(k.procs, k.current, status, j)
            && r.procs[r.current].id < k.procs[k.current].id
  {
    var c := k.current;
    var k1 := MarkExited(k, status);
    MarkExitedKeeps(k, status);
    var stored := Store(k, k.procs[j].status.wstatusRef, WordBytes(status)).value;
    ExitedEntry(k.procs, c, status, j);
    ExitedEntry(k.procs, c, status, c);
    WakeKeeps(k1, j, k.procs[c].id, c, stored.memory, stored.reset);
    ExitedEntry(k.procs, c, status, c - 1);
    WithoutAt(Woken(k1, j, k.procs[c].id), c, c - 1);
    assert AfterExit(k.procs, c, status, j) == Without(Woken(k1, j, k.procs[c].id), c);
  }

  /** exit succeeds for every process but init. */
  lemma ExitSound(k: State, status: Word)
    requires Ready(k)
    ensures var r := Exit(k, status);
            if k.current == 0 then r == Halted(InitExited)
            else r.Ok? && Loose(r.value) && (Waiting(k.procs) ==> Waiting(r.value.procs))
                 && (r.value.current == k.current || r.value.procs[r.value.current].id < k.procs[k.current].id)
  {
    if k.current == 0 {
      CurrentFacts(k);
    } else {
      var j := ExitIs(k, status);
      if ParentWaits(k, j) {
        ExitWakeSound(k, status, j);
      } else {
        MarkExitedKeeps(k, status);
        ExitedEntry(k.procs, k.current, status, j);
      }
    }
  }

  // ---- waitpid ----

  lemma ReapKeeps(k: State, j: nat)
    requires Loose(k) && j < |k.procs| && k.procs[j].status.Exited? && k.current < j
    ensures var r := k.(procs := Without(k.procs, j));
            && Remove(k, j) == Ok(r) && Loose(r) && Kept(k, r) && r.procs[k.current] == k.procs[k.current]
  {
    assert Owns(k, j);
    RemoveZombieKeeps(k, j);
    RemoveKeeps(k.procs, k.idGen, j);
    RemoveKeepsFiles(k.procs, j, k.fdCount);
    forall i | 0 <= i < |k.procs| - 1 ensures RefOk(Without(k.procs, j)[i]) { WithoutAt(k.procs, j, i); }
    WithoutAt(k.procs, j, k.current);
  }

  lemma SuspendKeeps(k: State, pid: int, slot: nat, va: Word)
    requires Ready(k) && k.procs[k.current].section == Some(slot) && (va == 0 || va / SECTION_SIZE == PROCESS_ENTRY)
    ensures var r := SetProc(k, k.current, k.procs[k.current].(status := Suspended(pid, PointerTo(slot, va))));
            Loose(r) && (LiveChild(k.procs, pid, k.procs[k.current].id) ==> Kept(k, r))
  {
    var ref := PointerTo(slot, va);
    var p := k.procs[k.current].(status := Suspended(pid, ref));
    var procs := k.procs[k.current := p];
    assert k.procs[k.current] in k.procs;
    SlotsOfEntry(k, k.current, p);
    assert Lineage(procs, k.idGen) by { SuspendKeepsLineage(k.procs, k.idGen, k.current, pid, ref); }
    assert FileInv(procs, k.fdCount) by { SameFilesKeep(k.procs, procs, k.fdCount); }
    if Waiting(k.procs) && LiveChild(k.procs, pid, k.procs[k.current].id) {
      SuspendKeepsWaiting(k.procs, k.current, pid, ref);
    }
  }

  /** An exited process below the caller, which WAITPID takes out of the table under the caller. */
  predicate ReapsBelow(k: State, pid: int)
    requires k.current < |k.procs|
  {
    exists j :: 0 <= j < k.current && k.procs[j].id == pid && k.procs[j].status.Exited?
  }

  /** The wait for an exited process above the caller, and for a live process. */
  lemma WaitZombieSound(k: State, j: nat, slot: nat, va: Word)
    requires Ready(k) && k.current < j < |k.procs| && k.procs[j].status.Exited? && FindPid(k.procs, k.procs[j].id) == Some(j)
    requires k.procs[k.current].section == Some(slot) && k.procs[j].id != -1
    ensures var r := WaitId(k, k.procs[j].id, PointerTo(slot, va));
            && r.Ok? && Loose(r.value.0) && Kept(k, r.value.0)
  {
    CurrentFacts(k);
    StoreKeeps(k, slot, va, WordBytes(k.procs[j].status.wstatus));
    ReapKeeps(Store(k, PointerTo(slot, va), WordBytes(k.procs[j].status.wstatus)).value, j);
  }

  lemma WaitLiveSound(k: State, j: nat, slot: nat, va: Word)
    requires Ready(k) && j < |k.procs| && Live(k.procs[j]) && FindPid(k.procs, k.procs[j].id) == Some(j)
    requires k.procs[k.current].section == Some(slot) && (va == 0 || va / SECTION_SIZE == PROCESS_ENTRY)
    requires k.procs[j].id != -1
    ensures var r := WaitId(k, k.procs[j].id, PointerTo(slot, va));
            && r.Ok? && Loose(r.value.0)
            && r.value.0.current == k.current < |r.value.0.procs|
            && r.value.0.procs[k.current].id == k.procs[k.current].id
            && (WaitAllowed(k, k.procs[j].id) ==> Kept(k, r.value.0))
  {
    SuspendKeeps(k, k.procs[j].id, slot, va);
    if WaitAllowed(k, k.procs[j].id) {
      assert k.procs[j].parent == k.procs[k.current].id;
      assert LiveChild(k.procs, k.procs[j].id, k.procs[k.current].id);
    }
  }

  /** Waiting for anything but an exited process below the caller. */
  lemma WaitIdSound(k: State, pid: int, slot: nat, va: Word)
    requires Ready(k) && !ReapsBelow(k, pid)
    requires k.procs[k.current].section == Some(slot) && (va == 0 || va / SECTION_SIZE == PROCESS_ENTRY)
    ensures var r := WaitId(k, pid, PointerTo(slot, va));
            && r.Ok? && Loose(r.value.0)
            && r.value.0.current == k.current < |r.value.0.procs|
            && r.value.0.procs[k.current].id == k.procs[k.current].id
            && (WaitAllowed(k, pid) ==> Kept(k, r.value.0))
  {
    if pid != -1 && FindPid(k.procs, pid).Some? {
      var j := FindPid(k.procs, pid).value;
      if Live(k.procs[j]) { WaitLiveSound(k, j, slot, va); } else { WaitZombieSound(k, j, slot, va); }
    }
  }

  /** WAITPID with any pointer that is translated. */
  lemma WaitPidSound(k: State, pid: int, va: Word)
    requires Ready(k) && !ReapsBelow(k, pid) && !BadPointer(va)
    ensures var r := WaitPid(k, pid, va);
            && r.Ok? && Loose(r.value.0)
            && r.value.0.current == k.current < |r.value.0.procs|
            && r.value.0.procs[k.current].id == k.procs[k.current].id
            && (WaitAllowed(k, pid) ==> Kept(k, r.value.0))
  {
    PointerIs(k, va);
    WaitIdSound(k, pid, k.procs[k.current].section.value, va);
  }

  // ---- fork, files, memory ----

  /** The state after a successful fork, as the memory part and the rest. */
  lemma ForkIs(k: State)
    requires Ready(k) && |k.procs| < MAX_PROCS
    ensures var p, s, t := k.procs[k.current], FirstClear(k.sectionBits), FirstClear(k.tableBits);
            && p.section.Some? && 0 <= s < SLOTS && 0 <= t < SLOTS
            && Fork(k).Ok?
            && Fork(k).value.0 == ForkMemory(k, s, t).(idGen := k.idGen + 1, fdCount := AddRefs(k.fdCount, p.files))
  {
    CurrentFacts(k);
    ForkFindsSlots(k);
    ForkBuildsProcTable(k.procs[k.current].section.value, FirstClear(k.sectionBits));
  }

  /** What fork does to processes, allocators, tables and sections. */
  function ForkMemory(k: State, s: nat, t: nat): State
    requires Shape(k) && k.current < |k.procs| && k.procs[k.current].section.Some? && s < SLOTS && t < SLOTS
  {
    k.(procs := k.procs + [Child(k.procs[k.current], k.idGen + 1, s, t)], sectionBits := k.sectionBits[s := true],
       tableBits := k.tableBits[t := true], tables := k.tables[t := ProcTable(s)],
       memory := k.memory[s := k.memory[k.procs[k.current].section.value]])
  }

  lemma MemoryInvIgnores(k: State, idGen: nat, fdCount: map<nat, nat>)
    requires MemoryInv(k)
    ensures MemoryInv(k.(idGen := idGen, fdCount := fdCount))
  {
    forall i | 0 <= i < |k.procs| ensures Owns(k.(idGen := idGen, fdCount := fdCount), i) { assert Owns(k, i); }
  }

  /** A child on free slots keeps everything. */
  lemma ForkedSound(k: State, s: nat, t: nat)
    requires Ready(k) && |k.procs| < MAX_PROCS && k.procs[k.current].section.Some?
    requires KERNEL_SECTIONS <= s < SLOT_BOUND && !k.sectionBits[s] && KERNEL_TABLES <= t < SLOTS && !k.tableBits[t]
    ensures var r := ForkMemory(k, s, t).(idGen := k.idGen + 1, fdCount := AddRefs(k.fdCount, k.procs[k.current].files));
            Loose(r) && Kept(k, r)
  {
    var p := k.procs[k.current];
    var child := Child(p, k.idGen + 1, s, t);
    ForkedMemory(k, s, t);
    assert Lineage(k.procs + [child], k.idGen + 1) && (Waiting(k.procs) ==> Waiting(k.procs + [child])) by { AppendKeeps(k.procs, k.idGen, k.current, child); }
    assert FileInv(k.procs + [child], AddRefs(k.fdCount, p.files)) by { ForkKeepsFiles(k.procs, k.fdCount, k.current, child); }
  }

  lemma ForkedMemory(k: State, s: nat, t: nat)
    requires MemoryInv(k) && k.current < |k.procs| && k.procs[k.current].section.Some?
    requires KERNEL_SECTIONS <= s < SLOT_BOUND && !k.sectionBits[s] && KERNEL_TABLES <= t < SLOTS && !k.tableBits[t]
    ensures MemoryInv(ForkMemory(k, s, t).(idGen := k.idGen + 1, fdCount := AddRefs(k.fdCount, k.procs[k.current].files)))
  {
    var p := k.procs[k.current];
    assert p in k.procs;
    ForkKeepsMemory(k, Child(p, k.idGen + 1, s, t), s, t, k.memory[s := k.memory[p.section.value]]);
    MemoryInvIgnores(ForkMemory(k, s, t), k.idGen + 1, AddRefs(k.fdCount, p.files));
  }

  lemma ForkSound(k: State)
    requires Ready(k)
    ensures var r := Fork(k);
            r.Ok? && Loose(r.value.0) && Kept(k, r.value.0)
  {
    if |k.procs| < MAX_PROCS {
      ForkFindsSlots(k);
      ForkIs(k);
      ForkedSound(k, FirstClear(k.sectionBits), FirstClear(k.tableBits));
    }
  }

  lemma FilesChangeSound(k: State, files: seq<Option<nat>>, fdCount: map<nat, nat>)
    requires Ready(k) && |files| == MAX_FDS
    requires FileInv(k.procs[k.current := k.procs[k.current].(files := files)], fdCount)
    ensures var r := SetProc(k, k.current, k.procs[k.current].(files := files)).(fdCount := fdCount);
            Loose(r) && Kept(k, r)
  {
    var p := k.procs[k.current].(files := files);
    var procs := k.procs[k.current := p];
    SlotsOfEntry(k, k.current, p);
    assert Lineage(procs, k.idGen) && (Waiting(k.procs) ==> Waiting(procs)) by { SkeletonKeeps(k.procs, procs, k.idGen); }
    MemoryFrame(k.(procs := procs), k.(procs := procs, fdCount := fdCount));
  }

  lemma OpenSound(k: State, file: Option<nat>)
    requires Ready(k) && (file.Some? ==> file.value !in k.fdCount)
    ensures var r := Open(k, file);
            r.Ok? && Loose(r.value.0) && Kept(k, r.value.0)
  {
    var p := k.procs[k.current];
    assert p in k.procs;
    var fd := FreeFd(p.files);
    if file.Some? && fd >= 0 {
      assert p.files[fd] == None;
      OpenKeepsFiles(k.procs, k.fdCount, k.current, fd, file.value);
      FilesChangeSound(k, p.files[fd := file], k.fdCount[file.value := 1]);
    }
  }

  /** The file behind a descriptor of the running process is open and counted. */
  lemma NamedFileCounted(k: State, fd: nat)
    requires Ready(k) && fd < |k.procs[k.current].files| && k.procs[k.current].files[fd].Some?
    ensures var f := k.procs[k.current].files[fd].value; f in k.fdCount && k.fdCount[f] >= 1
  {
    var f := k.procs[k.current].files[fd].value;
    assert FileOk(k.procs, k.fdCount, f);
    FdUsesNamed(k.procs[k.current].files, fd, f);
    UsesNamed(k.procs, k.current, f);
  }

  /** close halts exactly when the file has another reference. */
  predicate CloseHalts(k: State, fd: nat)
    requires k.current < |k.procs|
  {
    var files := k.procs[k.current].files;
    && fd < |files| && files[fd].Some?
    && files[fd].value in k.fdCount && k.fdCount[files[fd].value] > 1
  }

  lemma CloseSound(k: State, fd: nat)
    requires Ready(k)
    ensures var r := Close(k, fd);
            if CloseHalts(k, fd) then r == Halted(ReleaseShared)
            else r.Ok? && Loose(r.value.0) && Kept(k, r.value.0)
  {
    var p := k.procs[k.current];
    assert p in k.procs;
    if fd < |p.files| && p.files[fd].Some? {
      var f := p.files[fd].value;
      NamedFileCounted(k, fd);
      if k.fdCount[f] == 1 {
        CloseReleasesLast(k.procs, k.fdCount, k.current, fd, f);
        FilesChangeSound(k, p.files[fd := None], k.fdCount - {f});
      }
    }
  }

  /** A read halts when the pointer is rejected, the file system halts or the bytes overrun. */
  predicate ReadHalts(k: State, fd: nat, va: Word, data: Outcome<(seq<Byte>, Word)>)
    requires k.current < |k.procs|
  {
    || BadPointer(va)
    || (HasFile(k.procs[k.current], fd) &&
        (data.Fatal? || (k.procs[k.current].section.Some? &&
                         Overruns(k.procs[k.current].section.value, va, |data.value.0|))))
  }

  lemma ReadSound(k: State, fd: nat, va: Word, data: Outcome<(seq<Byte>, Word)>)
    requires Ready(k)
    ensures var r := Read(k, fd, va, data);
            if ReadHalts(k, fd, va, data) then r.Halted? && r.reason in {BadTranslation, VfsHalted, KernelFault, KernelOverwritten}
            else r.Ok? && Loose(r.value.0) && Kept(k, r.value.0) && r.value.0.procs == k.procs
  {
    CurrentFacts(k);
    PointerIs(k, va);
    if !BadPointer(va) && HasFile(k.procs[k.current], fd) && data.Done? {
      StoreKeeps(k, k.procs[k.current].section.value, va, data.value.0);
    }
  }

  /** A write halts when the pointer is rejected, the file system halts or it takes bytes behind the
      memory that the kernel has mapped. */
  predicate WriteHalts(k: State, fd: nat, va: Word, answer: Outcome<(nat, Word)>)
    requires k.current < |k.procs|
  {
    || BadPointer(va)
    || (HasFile(k.procs[k.current], fd) &&
        (answer.Fatal? || (k.procs[k.current].section.Some? && answer.value.0 > 0 &&
                           PointerTo(k.procs[k.current].section.value, va) + answer.value.0 > SectionAddress(SLOTS))))
  }

  lemma WriteSound(k: State, fd: nat, va: Word, answer: Outcome<(nat, Word)>)
    requires Ready(k)
    ensures var r := Write(k, fd, va, answer);
            if WriteHalts(k, fd, va, answer) then r.Halted? && r.reason in {BadTranslation, VfsHalted, KernelFault}
            else r.Ok? && r.value.0 == k
  {
    CurrentFacts(k);
    PointerIs(k, va);
  }

  lemma ExecSound(k: State, image: Option<(Section, Context)>)
    requires Ready(k)
    ensures var r := Exec(k, image);
            r.Ok? && Loose(r.value.0) && Kept(k, r.value.0)
  {
    CurrentFacts(k);
    if image.Some? {
      RegistersKeep(k, k.current, image.value.1);
      var k1 := SetProc(k, k.current, k.procs[k.current].(context := image.value.1));
      ContentsKeep(k1, k.memory[k.procs[k.current].section.value := image.value.0]);
    }
  }

  /** A path that cannot be looked up: its pointer is rejected or a segment overruns. */
  predicate BadPath(path: Text) { BadPointer(path.va) || path.length > MAX_NAME }

  /** The i-th string is rejected, or its copy runs past the places for arguments. */
  predicate BadString(strings: seq<Text>, i: nat)
    requires i < |strings|
  {
    BadPointer(strings[i].va) || ARG_SLOT * i + strings[i].length >= ARG_BYTES
  }

  /** What a process must not hand to EXEC. */
  predicate BadArguments(path: Text, argv: Word, strings: seq<Text>) {
    BadPath(path) || BadPointer(argv) || (argv != 0 && exists i :: 0 <= i < |strings| && BadString(strings, i))
  }

  lemma {:induction false} StringsCopied(k: State, strings: seq<Text>, i: nat)
    requires Ready(k) && i <= |strings|
    ensures var r := CopyStrings(k, strings, i);
            && (r.Halted? <==> exists j :: i <= j < |strings| && BadString(strings, j))
            && (r.Halted? ==> r.reason in {BadTranslation, KernelOverwritten})
    decreases |strings| - i
  {
    if i < |strings| {
      PointerIs(k, strings[i].va);
      StringsCopied(k, strings, i + 1);
      if !BadString(strings, i) {
        assert CopyStrings(k, strings, i) == CopyStrings(k, strings, i + 1);
      }
    }
  }

  /** A ninth string, however short, runs past the places for arguments. */
  lemma NinthStringOverruns(k: State, path: Text, argv: Word, strings: seq<Text>, image: Outcome<Option<(Section, Context)>>)
    requires Ready(k) && |strings| > 8 && argv != 0 && !BadPointer(path.va) && !BadPointer(argv)
    requires forall i :: 0 <= i < 8 ==> !BadString(strings, i)
    requires !BadPointer(strings[8].va)
    ensures ExecPath(k, path, argv, strings, image) == Halted(KernelOverwritten)
  {
    PointerIs(k, path.va);
    PointerIs(k, argv);
    assert CopyStrings(k, strings, 8) == Halted(KernelOverwritten) by { PointerIs(k, strings[8].va); }
    StringsUpTo(k, strings, 0, 8);
  }

  /** Strings that fit are copied one after the other. */
  lemma {:induction false} StringsUpTo(k: State, strings: seq<Text>, i: nat, n: nat)
    requires Ready(k) && i <= n <= |strings| && forall j :: i <= j < n ==> !BadString(strings, j)
    ensures CopyStrings(k, strings, i) == CopyStrings(k, strings, n)
    decreases n - i
  {
    if i < n {
      assert !BadString(strings, i);
      PointerIs(k, strings[i].va);
      StringsUpTo(k, strings, i + 1, n);
    }
  }

  lemma ExecPathSound(k: State, path: Text, argv: Word, strings: seq<Text>, image: Outcome<Option<(Section, Context)>>)
    requires Ready(k)
    ensures var r := ExecPath(k, path, argv, strings, image);
            && (r.Halted? <==> BadArguments(path, argv, strings) || image.Fatal?)
            && (r.Halted? ==> r.reason in {BadTranslation, KernelOverwritten, VfsHalted})
            && (r.Ok? ==> Loose(r.value.0) && Kept(k, r.value.0))
  {
    PointerIs(k, path.va);
    PointerIs(k, argv);
    StringsCopied(k, strings, 0);
    if image.Done? { ExecSound(k, image.value); }
  }

  // ---- one trap ----

  /** The calls that stop the machine, each with its exact cause. */
  predicate CallHalts(k: State, call: Call)
    requires k.current < |k.procs|
  {
    match call
    case RebootCall => true
    case ExitCall(_) => k.current == 0
    case OpenCall(path, file) => BadPath(path) || file.Fatal?
    case CloseCall(fd) => CloseHalts(k, fd)
    case ReadCall(fd, va, data) => ReadHalts(k, fd, va, data)
    case WriteCall(fd, va, answer) => WriteHalts(k, fd, va, answer)
    case MountCall(_) => true
    case MakeCall(path, answer) => BadPath(path) || answer.Fatal?
    case SeekCall(fd, answer) => HasFile(k.procs[k.current], fd) && answer.Fatal?
    case WaitPidCall(pid, va) => BadPointer(va) || ReapsBelow(k, pid)
    case ExecCall(path, argv, strings, image) => BadArguments(path, argv, strings) || image.Fatal?
    case _ => false
  }

  /** The traps that do: init dies, an exception without a handler, or such a call. */
  predicate MustHalt(k: State, trap: Trap)
    requires k.current < |k.procs|
  {
    match trap
    case Fault => k.current == 0
    case Preempt(_) => false
    case Exception => true
    case Syscall(_, call) => CallHalts(k, call)
  }

  /** The halts that user programs can bring about within the rule for WAITPID. */
  predicate Reachable(reason: Halt) {
    reason in {InitExited, ReleaseShared, BadTranslation, VfsHalted, MountCalled, Rebooted, UnhandledException,
               KernelFault, KernelOverwritten}
  }

  lemma HandleSound(k: State, call: Call)
    requires Ready(k) && Fresh(k, call) && !call.ExitCall? && (call.WaitPidCall? ==> !ReapsBelow(k, call.pid))
    ensures var r := Handle(k, call);
            && (r.Halted? <==> CallHalts(k, call)) && (r.Halted? ==> Reachable(r.reason))
            && (r.Ok? ==> Loose(r.value.0) && r.value.0.current == k.current < |r.value.0.procs|
                          && r.value.0.procs[k.current].id == k.procs[k.current].id
                          && (CallAllowed(k, call) ==> Kept(k, r.value.0)))
  {
    match call
    case OpenCall(path, file) =>
      PointerIs(k, path.va);
      if file.Done? { OpenSound(k, file.value); }
    case CloseCall(fd) => CloseSound(k, fd);
    case ReadCall(fd, va, data) => ReadSound(k, fd, va, data);
    case WriteCall(fd, va, answer) => WriteSound(k, fd, va, answer);
    case MountCall(pointers) => PointersAre(k, pointers);
    case MakeCall(path, answer) => PointerIs(k, path.va);
    case ForkCall => ForkSound(k);
    case WaitPidCall(pid, va) =>
      PointerIs(k, va);
      if !BadPointer(va) { WaitPidSound(k, pid, va); }
    case ExecCall(path, argv, strings, image) => ExecPathSound(k, path, argv, strings, image);
    case _ =>
  }

  lemma StatusSound(k: State, status: Word)
    requires Loose(k)
    ensures var r := SetStatus(k, status);
            r.Ok? && Loose(r.value) && (Waiting(k.procs) ==> Waiting(r.value.procs))
  {
    RegistersKeep(k, k.current, k.procs[k.current].context.(r0 := status));
  }

  lemma DispatchExitSound(k: State, status: Word)
    requires Ready(k)
    ensures var r := Dispatch(k, ExitCall(status));
            if k.current == 0 then r == Halted(InitExited)
            else r.Ok? && Loose(r.value) && (Waiting(k.procs) ==> Waiting(r.value.procs))
  {
    ExitSound(k, status);
    if k.current != 0 { StatusSound(Exit(k, status).value, 0); }
  }

  /** Taking an exited process below the caller out of the table: the caller is not where the handler
      looks for it afterwards. */
  lemma ReapBelowHalts(k: State, j: nat, va: Word)
    requires Ready(k) && j < k.current && k.procs[j].status.Exited? && !BadPointer(va)
    ensures Dispatch(k, WaitPidCall(k.procs[j].id, va)) in {Halted(AssertFailed), Halted(BadCurrent)}
  {
    CurrentFacts(k);
    PointerIs(k, va);
    IdPositive(k.procs, k.idGen, j);
    ReapBelowIs(k, j, PointerTo(k.procs[k.current].section.value, va)) by {
      StoreKeeps(k, k.procs[k.current].section.value, va, WordBytes(k.procs[j].status.wstatus));
      assert Owns(k, j);
    }
    var r := Without(k.procs, j);
    if k.current < |r| {
      WithoutAt(k.procs, j, k.current);
      assert k.procs[k.current].id < k.procs[k.current + 1].id;
    }
  }

  lemma ReapBelowIs(k: State, j: nat, ref: nat)
    requires Shape(k) && Ordered(k.procs) && j < k.current < |k.procs| && k.procs[j].status.Exited? && k.procs[j].id != -1
    requires k.procs[j].section == None && k.procs[j].table == None
    requires var r := Store(k, ref, WordBytes(k.procs[j].status.wstatus)); r.Ok? && r.value.procs == k.procs
    ensures var r := WaitId(k, k.procs[j].id, ref);
            r.Ok? && r.value.0.procs == Without(k.procs, j) && r.value.0.current == k.current
  {
    FindIs(k.procs, j);
  }

  /** The assertion of kernel_syscall_handler fires for a WAITPID that reaps below the caller only. */
  lemma DispatchSound(k: State, call: Call)
    requires Ready(k) && Fresh(k, call)
    ensures var r := Dispatch(k, call);
            && (r.Halted? <==> CallHalts(k, call))
            && (r.Halted? ==> Reachable(r.reason) || (call.WaitPidCall? && ReapsBelow(k, call.pid) && r.reason in {AssertFailed, BadCurrent}))
            && (r.Ok? ==> Loose(r.value) && (Waiting(k.procs) && CallAllowed(k, call) ==> Waiting(r.value.procs)))
  {
    if call.ExitCall? {
      DispatchExitSound(k, call.status);
    } else if call.WaitPidCall? && ReapsBelow(k, call.pid) {
      PointerIs(k, call.va);
      var j :| 0 <= j < k.current && k.procs[j].id == call.pid && k.procs[j].status.Exited?;
      if !BadPointer(call.va) { ReapBelowHalts(k, j, call.va); }
    } else {
      HandleSound(k, call);
      DispatchAfter(k, call);
    }
  }

  /** Behind a handler that leaves the caller in place only the status is written. */
  lemma DispatchAfter(k: State, call: Call)
    requires Loose(k) && !call.ExitCall?
    requires var r := Handle(k, call);
             r.Ok? ==> Loose(r.value.0) && r.value.0.current == k.current < |r.value.0.procs|
                       && r.value.0.procs[k.current].id == k.procs[k.current].id
    ensures var r, h := Dispatch(k, call), Handle(k, call);
            && (r.Halted? <==> h.Halted?) && (r.Halted? ==> r.reason == h.reason)
            && (r.Ok? ==> Loose(r.value) && (Waiting(h.value.0.procs) ==> Waiting(r.value.procs)))
  {
    var r := Handle(k, call);
    if r.Ok? { StatusSound(r.value.0, r.value.1); }
  }

  /** Two tables that differ in registers only. */
  predicate SameButRegisters(a: seq<Process>, b: seq<Process>) {
    |a| == |b| && forall i :: 0 <= i < |a| ==> b[i] == a[i].(context := b[i].context)
  }

  /** A call is not judged by registers. */
  lemma JudgedAlike(k: State, k1: State, call: Call)
    requires k.current < |k.procs| && k1 == k.(procs := k1.procs) && SameButRegisters(k.procs, k1.procs)
    ensures CallAllowed(k1, call) == CallAllowed(k, call) && CallHalts(k1, call) == CallHalts(k, call)
    ensures call.WaitPidCall? ==> ReapsBelow(k1, call.pid) == ReapsBelow(k, call.pid)
  {
    if call.WaitPidCall? {
      assert forall j :: 0 <= j < |k.procs| ==>
        k1.procs[j].id == k.procs[j].id && k1.procs[j].status == k.procs[j].status && k1.procs[j].parent == k.procs[j].parent;
    }
  }

  /** Saving the registers changes nothing that a call is judged by. */
  lemma SaveKeeps(k: State, c: Context, call: Call)
    requires Ready(k)
    ensures var k1 := SaveContext(k, c);
            && k1.Ok? && Ready(k1.value) && k1.value.current == k.current
            && (Waiting(k.procs) ==> Waiting(k1.value.procs))
            && Fresh(k1.value, call) == Fresh(k, call) && CallAllowed(k1.value, call) == CallAllowed(k, call)
            && CallHalts(k1.value, call) == CallHalts(k, call)
            && (call.WaitPidCall? ==> ReapsBelow(k1.value, call.pid) == ReapsBelow(k, call.pid))
  {
    RegistersKeep(k, k.current, c);
    JudgedAlike(k, SaveContext(k, c).value, call);
  }

  /** The reap of an exited process below the caller. */
  predicate TrapReapsBelow(k: State, trap: Trap)
    requires k.current < |k.procs|
  {
    trap.Syscall? && trap.call.WaitPidCall? && ReapsBelow(k, trap.call.pid)
  }

  lemma ServeSound(k: State, trap: Trap)
    requires Ready(k) && TrapFresh(k, trap)
    ensures var r := Serve(k, trap);
            && (r.Halted? <==> MustHalt(k, trap))
            && (r.Halted? ==> Reachable(r.reason) || (TrapReapsBelow(k, trap) && r.reason in {AssertFailed, BadCurrent}))
            && (r.Ok? ==> Loose(r.value) && (Waiting(k.procs) && TrapAllowed(k, trap) ==> Waiting(r.value.procs)))
  {
    match trap
    case Fault => ExitSound(k, 1);
    case Preempt(c) => RegistersKeep(k, k.current, c);
    case Exception =>
    case Syscall(c, call) =>
      SaveKeeps(k, c, call);
      DispatchSound(SaveContext(k, c).value, call);
  }

  lemma SwitchSound(k: State)
    requires Loose(k)
    ensures var r := Switch(k);
            && (r.Halted? <==> !SomeScheduled(k.procs)) && (r.Halted? ==> r == Halted(NoScheduled))
            && (r.Ok? ==> Ready(r.value) && r.value.procs == k.procs)
            && (Waiting(k.procs) ==> r.Ok?)
  {
    SelectIff(k.procs, k.current);
    if Waiting(k.procs) { SelectSucceeds(k.procs, k.idGen, k.current); }
    if Switch(k).Ok? { MemoryFrame(k, Switch(k).value); }
  }

  /** Whatever WAITPID names, a trap halts if and only if it is one that must, or nobody is left to
      run; otherwise all but the rule about waiting is kept. */
  lemma StepKeepsReady(k: State, trap: Trap)
    requires Ready(k) && TrapFresh(k, trap)
    ensures Step(k, trap).Halted? <==> MustHalt(k, trap) || (Serve(k, trap).Ok? && !SomeScheduled(Serve(k, trap).value.procs))
    ensures Step(k, trap).Ok? ==> Ready(Step(k, trap).value)
    ensures Step(k, trap).Halted? ==>
      || Reachable(Step(k, trap).reason) || Step(k, trap).reason == NoScheduled
      || (TrapReapsBelow(k, trap) && Step(k, trap).reason in {AssertFailed, BadCurrent})
  {
    ServeSound(k, trap);
    if !MustHalt(k, trap) { SwitchSound(Serve(k, trap).value); }
  }

  /** A trap halts the machine exactly when it is one that must; otherwise it leads to a good state
      again. */
  lemma StepKeepsGood(k: State, trap: Trap)
    requires Good(k) && TrapAllowed(k, trap)
    ensures Step(k, trap).Halted? <==> MustHalt(k, trap)
    ensures Step(k, trap).Halted? ==> Reachable(Step(k, trap).reason)
    ensures Step(k, trap).Ok? ==> Good(Step(k, trap).value)
  {
    AllowedSparesBelow(k, trap);
    ServeSound(k, trap);
    if !MustHalt(k, trap) { SwitchSound(Serve(k, trap).value); }
  }

  lemma AllowedSparesBelow(k: State, trap: Trap)
    requires Good(k) && TrapAllowed(k, trap)
    ensures !TrapReapsBelow(k, trap)
  {
  }

  /** Within the rule for WAITPID these failures cannot happen: some process can run, parents exist,
      slots are free, current_proc is in the table, the assertion on the caller holds. */
  lemma UnreachableHalts(k: State, trap: Trap)
    requires Good(k) && TrapAllowed(k, trap)
    ensures Step(k, trap).Halted? ==>
      Step(k, trap).reason !in {NoScheduled, NoParent, BadCurrent, OutOfSections, OutOfTables, AssertFailed, WildAccess}
  {
    StepKeepsGood(k, trap);
  }
}
