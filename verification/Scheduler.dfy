/** The scheduler as the source keeps it: one global object whose fixed table is searched,
    compacted and rewritten in place (src/kernel/scheduler/scheduler.c). Every method is tied
    to the function on states that the invariants and the run theorems are about. */
module Scheduler {
  import opened Bytes
  import opened Wrappers
  import opened Mmu
  import opened Bitfield
  import opened FsUtils
  import opened Kernel
  import opened Runtime
  import MemoryInvariant
  import Runs

  lemma ZeroBits(i: nat)
    requires i < 8
    ensures !BitSet(0, i)
  {
  }

  /** Takes the first `n` slots of an empty field, as the boot sequence does one call at a time. */
  method AcquireMany(bytes: array<bv8>, n: nat)
    requires bytes.Length == 8 && n <= SLOTS
    requires forall i :: 0 <= i < 8 ==> bytes[i] == 0
    modifies bytes
    ensures Bits(bytes[..]) == seq(SLOTS, i => i < n)
  {
    forall x | 0 <= x < SLOTS ensures !Bits(bytes[..])[x] { ZeroBits(x % 8); }
    for i := 0 to n
      invariant Bits(bytes[..]) == seq(SLOTS, x => x < i)
    {
      FirstClearUnique(Bits(bytes[..]), i);
      var r := AcquireFirst(bytes);
      assert r == i;
    }
  }

  class Scheduler {
    const processes: array<Process>
    var procCount: nat
    var currentProc: nat
    var idGen: nat
    const sectionBits: array<bv8>
    const tableBits: array<bv8>
    var tables: seq<Table>
    var memory: seq<Section>
    var reset: seq<Byte>
    var fdCount: map<nat, nat>

    ghost predicate Valid()
      reads this, processes, sectionBits, tableBits
    {
      && processes.Length == MAX_PROCS && procCount <= MAX_PROCS
      && sectionBits.Length == tableBits.Length == 8 && sectionBits != tableBits
      && Shape(View())
    }

    ghost function View(): State
      reads this, processes, sectionBits, tableBits
      requires processes.Length == MAX_PROCS && procCount <= MAX_PROCS
    {
      State(processes[..procCount], currentProc, idGen, Bits(sectionBits[..]), Bits(tableBits[..]),
            tables, memory, reset, fdCount)
    }

    /** The boot sequence of kernel.c followed by scheduler_start: the kernel's own slots are taken,
        then the slots of init, whose table is built by the two mapping functions. */
    constructor (context: Context, tables: seq<Table>, memory: seq<Section>, reset: seq<Byte>, tty: nat)
      requires |tables| == |memory| == SLOTS && |reset| == 4
      ensures Valid() && View() == Runs.Boot(context, tables, memory, reset, tty)
      ensures fresh(processes) && fresh(sectionBits) && fresh(tableBits)
    {
      var files := seq(MAX_FDS, i => if i < 3 then Some(tty) else None);
      var init := Process(context, INIT_PID, 0, Scheduled, Some(KERNEL_TABLES), Some(KERNEL_SECTIONS), files);
      var procs := new Process[MAX_PROCS](_ => init);
      var sections := new bv8[8](_ => 0);
      var used := new bv8[8](_ => 0);
      AcquireMany(sections, KERNEL_SECTIONS + 1);
      AcquireMany(used, KERNEL_TABLES + 1);
      var table := new Word[ENTRY_COUNT](_ => 0);
      ghost var zero: Table := table[..];
      AddIdentityMapping(table, 0, DYN_BASE, KERNEL_RW_USER_NONE);
      AddSingleSection(table, SectionAddress(KERNEL_SECTIONS), PROCESS_VA, KERNEL_RW_USER_RW);
      MemoryInvariant.StartBuildsProcTable(zero, KERNEL_SECTIONS);
      this.processes, this.sectionBits, this.tableBits := procs, sections, used;
      procCount, currentProc, idGen := 1, 0, 1;
      this.tables := tables[KERNEL_TABLES := table[..]];
      this.memory, this.reset := memory, reset;
      fdCount := map[tty := 3];
      new;
      ghost var k := Runs.Boot(context, tables, memory, reset, tty);
      assert View().procs == k.procs;
      assert View().sectionBits == k.sectionBits && View().tableBits == k.tableBits;
    }

    /** _get_current_proc. */
    method GetCurrentProc() returns (r: Result<Process>)
      requires Valid()
      ensures r == Current(View())
    {
      if currentProc >= procCount { return Halted(BadCurrent); }
      return Ok(processes[currentProc]);
    }

    /** _find_proc_by_pid. */
    method FindProcByPid(pid: int) returns (r: Option<nat>)
      requires Valid()
      ensures r == FindPid(View().procs, pid)
    {
      for i := 0 to procCount
        invariant FindPid(View().procs, pid) == FindFrom(View().procs, pid, i)
      {
        if processes[i].id == pid { return Some(i); }
      }
      return None;
    }

    /** The memmove of _remove_process and the new count. */
    method Compact(index: nat)
      requires Valid() && index < procCount
      modifies this`procCount, processes
      ensures Valid() && View() == old(View()).(procs := Without(old(View()).procs, index))
    {
      ghost var was := processes[..procCount];
      MemMove(processes, index, index + 1, procCount - (index + 1));
      procCount := procCount - 1;
      assert processes[..procCount] == Without(was, index);
    }

    /** _remove_process: the entries beyond the removed one move down with memmove. */
    method RemoveProcess(index: nat) returns (r: Result<()>)
      requires Valid() && index < procCount
      modifies this`procCount, this`currentProc, processes
      ensures match Remove(old(View()), index)
              case Ok(k) => r.Ok? && Valid() && View() == k
              case Halted(h) => r == Halted(h)
    {
      if processes[index].section != None || processes[index].table != None { return Halted(AssertFailed); }
      Compact(index);
      if index == currentProc {
        if index == 0 {
          currentProc := if procCount == 0 then ADDRESS_LIMIT - 1 else procCount - 1;
        } else {
          currentProc := currentProc - 1;
        }
      }
      return Ok(());
    }

    /** The loop of _select_next_scheduled_proc. */
    method SelectIndex() returns (r: Result<()>)
      requires procCount <= processes.Length
      modifies this`currentProc
      ensures match SelectLoop(processes[..procCount], old(currentProc), procCount)
              case Ok(n) => r.Ok? && currentProc == n
              case Halted(h) => r == Halted(h)
    {
      ghost var procs, start := processes[..procCount], currentProc;
      for i := 0 to procCount
        invariant SelectLoop(procs, start, procCount) == SelectLoop(procs, currentProc, procCount - i)
      {
        currentProc := currentProc + 1;
        if currentProc == procCount { currentProc := 0; }
        if currentProc >= procCount { return Halted(BadCurrent); }
        assert processes[currentProc] == procs[currentProc];
        if processes[currentProc].status.Scheduled? { return Ok(()); }
      }
      return Halted(NoScheduled);
    }

    /** scheduler_switch_task. */
    method SelectNext() returns (r: Result<()>)
      requires Valid()
      modifies this`currentProc
      ensures match Switch(old(View()))
              case Ok(k) => r.Ok? && Valid() && View() == k
              case Halted(h) => r == Halted(h)
    {
      ghost var k := View();
      r := SelectIndex();
      assert View() == k.(current := currentProc);
    }

    /** scheduler_save_current_context. */
    method SaveCurrentContext(c: Context) returns (r: Result<()>)
      requires Valid()
      modifies processes
      ensures match SaveContext(old(View()), c)
              case Ok(k) => r.Ok? && Valid() && View() == k
              case Halted(h) => r == Halted(h)
    {
      var p := GetCurrentProc();
      if p.Halted? { return Halted(p.reason); }
      PutProc(currentProc, p.value.(context := c));
      return Ok(());
    }

    /** scheduler_cur_proc_set_syscall_status. */
    method SetSyscallStatus(w: Word) returns (r: Result<()>)
      requires Valid()
      modifies processes
      ensures match SetStatus(old(View()), w)
              case Ok(k) => r.Ok? && Valid() && View() == k
              case Halted(h) => r == Halted(h)
    {
      var p := GetCurrentProc();
      if p.Halted? { return Halted(p.reason); }
      PutProc(currentProc, WithR0(p.value, w));
      return Ok(());
    }

    /** An assignment to one entry of the table. */
    method PutProc(i: nat, p: Process)
      requires Valid() && i < procCount && |p.files| == MAX_FDS && SlotsInRange(p)
      modifies processes
      ensures Valid() && View() == SetProc(old(View()), i, p)
    {
      processes[i] := p;
      assert processes[..procCount] == old(processes[..procCount])[i := p];
    }

    /** The loop of exit that hands the children of `pid` to init. */
    method Reparent(pid: int)
      requires Valid()
      modifies processes
      ensures Valid() && View() == old(View()).(procs := Reparented(old(View()).procs, pid))
    {
      ghost var was := processes[..procCount];
      for i := 0 to procCount
        invariant forall x :: 0 <= x < i ==> processes[x] == Reparented(was, pid)[x]
        invariant forall x :: i <= x < procCount ==> processes[x] == was[x]
      {
        if processes[i].parent == pid { processes[i] := processes[i].(parent := INIT_PID); }
      }
      var now := Reparented(was, pid);
      assert processes[..procCount] == now;
      forall p | p in now ensures |p.files| == MAX_FDS && SlotsInRange(p) {
        var i :| 0 <= i < |was| && now[i] == p;
        assert was[i] in was;
      }
    }

    /** A copy that goes from one section into the next where it does not fit. */
    method StoreAcross(address: nat, bytes: seq<Byte>)
      requires |memory| == SLOTS && address >= DYN_BASE
      modifies this`memory
      ensures memory == Stored(old(memory), address, bytes)
    {
      ghost var target := Stored(memory, address, bytes);
      var s, o, rest := SlotOf(address), OffsetOf(address), bytes;
      while s < |memory| && o + |rest| > SECTION_SIZE
        invariant |memory| == SLOTS && 0 <= s && 0 <= o < SECTION_SIZE && target == StoreAt(memory, s, o, rest)
        decreases |rest|
      {
        var n := SECTION_SIZE - o;
        memory := memory[s := Splice(memory[s], o, rest[..n])];
        s, o, rest := s + 1, 0, rest[n..];
      }
      if s < |memory| { memory := memory[s := Splice(memory[s], o, rest)]; }
    }

    /** A kernel store to physical memory. */
    method StoreBytes(address: nat, bytes: seq<Byte>) returns (r: Result<()>)
      requires Valid()
      modifies this`memory, this`reset
      ensures match Store(old(View()), address, bytes)
              case Ok(k) => r.Ok? && Valid() && View() == k
              case Halted(h) => r == Halted(h)
    {
      if bytes == [] { return Ok(()); }
      if InUser(address, |bytes|) {
        StoreAcross(address, bytes);
      } else if address + |bytes| <= |reset| {
        reset := Spliced(reset, address, bytes);
      } else if address >= SectionAddress(KERNEL_SECTIONS) {
        return Halted(KernelFault);
      } else {
        return Halted(KernelOverwritten);
      }
      return Ok(());
    }

    /** The beginning of an exit: the entry becomes a zombie, its slots are freed, orphans go to init. */
    method MarkExited(p: Process, status: Word)
      requires Valid() && currentProc < procCount && p == processes[currentProc]
      requires p.table.Some? && p.table.value < SLOTS && p.section.Some? && p.section.value < SLOTS
      modifies processes, sectionBits, tableBits
      ensures Valid()
      ensures View() == old(View()).(
                procs := ExitedTable(old(View()).procs, old(currentProc), status),
                sectionBits := old(View()).sectionBits[p.section.value := false],
                tableBits := old(View()).tableBits[p.table.value := false])
    {
      ghost var k0 := View();
      assert p in View().procs;
      PutProc(currentProc, p.(status := Exited(status), table := None, section := None));
      Clear(tableBits, p.table.value);
      Clear(sectionBits, p.section.value);
      Reparent(p.id);
      assert View().procs == ExitedTable(k0.procs, k0.current, status);
    }

    /** The end of an exit that the parent waits for: status, wake-up, removal of the caller. */
    method WakeParent(index: nat, pid: int, status: Word) returns (r: Result<()>)
      requires Valid() && index < procCount && currentProc < procCount && processes[index].status.Suspended?
      modifies this, processes
      ensures match Store(old(View()), old(processes[index]).status.wstatusRef, WordBytes(status))
              case Halted(h) => r == Halted(h)
              case Ok(stored) =>
                var woken := WithR0(old(processes[index]).(status := Scheduled), pid % ADDRESS_LIMIT);
                match Remove(stored.(procs := stored.procs[index := woken]), stored.current)
                case Ok(k) => r.Ok? && Valid() && View() == k
                case Halted(h) => r == Halted(h)
    {
      var parent := processes[index];
      assert parent in View().procs;
      var stored := StoreBytes(parent.status.wstatusRef, WordBytes(status));
      if stored.Halted? { return Halted(stored.reason); }
      PutProc(index, WithR0(parent.(status := Scheduled), pid % ADDRESS_LIMIT));
      r := RemoveProcess(currentProc);
    }

    /** scheduler_cur_proc_exit. */
    method CurProcExit(status: Word) returns (r: Result<()>)
      requires Valid()
      modifies this, processes, sectionBits, tableBits
      ensures match Exit(old(View()), status)
              case Ok(k) => r.Ok? && Valid() && View() == k
              case Halted(h) => r == Halted(h)
    {
      var cur := GetCurrentProc();
      if cur.Halted? { return Halted(cur.reason); }
      var p := cur.value;
      assert p in View().procs;
      if p.id == INIT_PID { return Halted(InitExited); }
      if p.table.None? || p.section.None? { return Halted(WildAccess); }
      MarkExited(p, status);
      var found := FindProcByPid(processes[currentProc].parent);
      if found.None? { return Halted(NoParent); }
      var parent := processes[found.value];
      if parent.status.Suspended? && parent.status.waitPid == p.id {
        r := WakeParent(found.value, p.id, status);
        return;
      }
      return Ok(());
    }

    /** scheduler_cur_proc_wait_id. */
    method CurProcWaitId(pid: int, ref: nat) returns (r: Result<Word>)
      requires Valid()
      modifies this, processes
      ensures match WaitId(old(View()), pid, ref)
              case Ok((k, w)) => r == Ok(w) && Valid() && View() == k
              case Halted(h) => r == Halted(h)
    {
      var cur := GetCurrentProc();
      if cur.Halted? { return Halted(cur.reason); }
      if pid == -1 { return Ok(ERR); }
      var found := FindProcByPid(pid);
      if found.None? { return Ok(ERR); }
      var child := processes[found.value];
      if child.status.Exited? {
        var stored := StoreBytes(ref, WordBytes(child.status.wstatus));
        if stored.Halted? { return Halted(stored.reason); }
        var removed := RemoveProcess(found.value);
        if removed.Halted? { return Halted(removed.reason); }
        return Ok(pid % ADDRESS_LIMIT);
      }
      assert cur.value in View().procs;
      PutProc(currentProc, cur.value.(status := Suspended(pid, ref)));
      return Ok(0);
    }

    /** The descriptor loop of fork: one more reference per slot in use. */
    method AddReferences(files: seq<Option<nat>>)
      modifies this`fdCount
      ensures fdCount == AddRefs(old(fdCount), files)
    {
      for i := 0 to |files|
        invariant fdCount == AddRefs(old(fdCount), files[..i])
      {
        assert files[..i + 1][..i] == files[..i];
        if files[i].Some? && files[i].value in fdCount {
          fdCount := fdCount[files[i].value := fdCount[files[i].value] + 1];
        }
      }
      assert files[..|files|] == files;
    }

    /** A new entry at the end of the table. */
    method AppendProc(p: Process)
      requires Valid() && procCount < MAX_PROCS && |p.files| == MAX_FDS && SlotsInRange(p)
      modifies this`procCount, processes
      ensures Valid() && View() == old(View()).(procs := old(View()).procs + [p])
    {
      processes[procCount] := p;
      procCount := procCount + 1;
      assert processes[..procCount] == old(processes[..procCount]) + [p];
    }

    /** section_allocator_alloc: the index of the section taken, or -1. */
    method AllocSection() returns (s: int)
      requires Valid()
      modifies sectionBits
      ensures Valid() && s == FirstClear(old(View()).sectionBits) && s < SLOTS
      ensures View() == if s < 0 then old(View()) else old(View()).(sectionBits := old(View()).sectionBits[s := true])
    {
      s := AcquireFirst(sectionBits);
    }

    /** translation_table_allocator_alloc: the index of the table taken, or -1. */
    method AllocTable() returns (t: int)
      requires Valid()
      modifies tableBits
      ensures Valid() && t == FirstClear(old(View()).tableBits) && t < SLOTS
      ensures View() == if t < 0 then old(View()) else old(View()).(tableBits := old(View()).tableBits[t := true])
    {
      t := AcquireFirst(tableBits);
    }

    /** The part of fork after the allocations: entry, memory image, table, descriptors. */
    method BuildChild(p: Process, s: nat, t: nat) returns (id: nat)
      requires Valid() && procCount < MAX_PROCS && s < SLOTS && t < SLOTS && |p.files| == MAX_FDS
      requires p.section.Some? && p.section.value < SLOTS && p.table.Some? && p.table.value < SLOTS
      modifies this, processes
      ensures Valid() && id == old(idGen) + 1
      ensures View() == old(View()).(
                procs := old(View()).procs + [Child(p, id, s, t)],
                idGen := id,
                tables := old(tables)[t := SingleMapped(old(tables)[p.table.value], SectionAddress(s), PROCESS_VA, KERNEL_RW_USER_RW)],
                memory := old(memory)[s := old(memory)[p.section.value]],
                fdCount := AddRefs(old(fdCount), p.files))
    {
      idGen := idGen + 1;
      id := idGen;
      AppendProc(Child(p, id, s, t));
      memory := memory[s := memory[p.section.value]];
      tables := tables[t := SingleMapped(tables[p.table.value], SectionAddress(s), PROCESS_VA, KERNEL_RW_USER_RW)];
      AddReferences(p.files);
    }

    /** scheduler_cur_proc_fork. */
    method CurProcFork() returns (r: Result<Word>)
      requires Valid()
      modifies this, processes, sectionBits, tableBits
      ensures match Fork(old(View()))
              case Ok((k, w)) => r == Ok(w) && Valid() && View() == k
              case Halted(h) => r == Halted(h)
    {
      if procCount >= MAX_PROCS { return Ok(ERR); }
      var cur := GetCurrentProc();
      if cur.Halted? { return Halted(cur.reason); }
      var p := cur.value;
      assert p in View().procs;
      var s := AllocSection();
      if s < 0 { return Halted(OutOfSections); }
      var t := AllocTable();
      if t < 0 { return Halted(OutOfTables); }
      if p.section.None? || p.table.None? { return Halted(WildAccess); }
      var id := BuildChild(p, s, t);
      return Ok(id % ADDRESS_LIMIT);
    }

    /** The lowest clear bit of files_bitfield. */
    method AcquireFd(files: seq<Option<nat>>) returns (fd: int)
      ensures fd == FreeFd(files)
    {
      ghost var used := seq(|files|, i requires 0 <= i < |files| => files[i].Some?);
      for i := 0 to |files|
        invariant forall j :: 0 <= j < i ==> used[j]
      {
        if files[i].None? {
          FirstClearUnique(used, i);
          return i;
        }
      }
      return -1;
    }

    /** _proc_add_fd on the file that the VFS has opened. */
    method InstallFile(file: Option<nat>) returns (r: Result<Word>)
      requires Valid()
      modifies this, processes
      ensures match Open(old(View()), file)
              case Ok((k, w)) => r == Ok(w) && Valid() && View() == k
              case Halted(h) => r == Halted(h)
    {
      var cur := GetCurrentProc();
      if cur.Halted? { return Halted(cur.reason); }
      if file.None? { return Ok(ERR); }
      assert cur.value in View().procs;
      var fd := AcquireFd(cur.value.files);
      if fd < 0 { return Ok(ERR); }
      PutProc(currentProc, cur.value.(files := cur.value.files[fd := file]));
      fdCount := fdCount[file.value := 1];
      return Ok(fd);
    }

    /** scheduler_cur_proc_to_kernel_address. */
    method ToKernelAddress(va: Word) returns (r: Result<nat>)
      requires Valid()
      ensures r == UserPointer(View(), va)
    {
      var cur := GetCurrentProc();
      if cur.Halted? { return Halted(cur.reason); }
      assert cur.value in View().procs;
      if cur.value.table.None? { return Halted(WildAccess); }
      match Translate(tables[cur.value.table.value], va)
      case Physical(a) => r := Ok(a);
      case Null => r := Ok(0);
      case _ => r := Halted(BadTranslation);
    }

    /** The pointers of MOUNT in turn. */
    method ToKernelAddresses(vas: seq<Word>) returns (r: Result<()>)
      requires Valid()
      ensures r == UserPointers(View(), vas)
    {
      assert vas[0..] == vas;
      for i := 0 to |vas|
        invariant UserPointers(View(), vas) == UserPointers(View(), vas[i..])
      {
        assert vas[i..][1..] == vas[i + 1..];
        var a := ToKernelAddress(vas[i]);
        if a.Halted? { return Halted(a.reason); }
      }
      return Ok(());
    }

    /** scheduler_cur_proc_get_fd: whether the descriptor is in use. */
    method UsesFd(fd: nat) returns (r: Result<bool>)
      requires Valid()
      ensures r == match Current(View()) case Ok(p) => Ok(HasFile(p, fd)) case Halted(h) => Halted(h)
    {
      var cur := GetCurrentProc();
      if cur.Halted? { return Halted(cur.reason); }
      return Ok(fd < |cur.value.files| && cur.value.files[fd].Some?);
    }

    /** _syscall__OPEN. */
    method OpenFile(path: Text, file: Outcome<Option<nat>>) returns (r: Result<Word>)
      requires Valid()
      modifies this, processes
      ensures match OpenPath(old(View()), path, file)
              case Ok((k, w)) => r == Ok(w) && Valid() && View() == k
              case Halted(h) => r == Halted(h)
    {
      var a := ToKernelAddress(path.va);
      if a.Halted? { return Halted(a.reason); }
      if path.length > MAX_NAME { return Halted(KernelOverwritten); }
      if file.Fatal? { return Halted(VfsHalted); }
      r := InstallFile(file.value);
    }

    /** _syscall__CLOSE with _proc_rem_fd and default_file_release. */
    method CloseFile(fd: nat) returns (r: Result<Word>)
      requires Valid()
      modifies this, processes
      ensures match Close(old(View()), fd)
              case Ok((k, w)) => r == Ok(w) && Valid() && View() == k
              case Halted(h) => r == Halted(h)
    {
      var cur := GetCurrentProc();
      if cur.Halted? { return Halted(cur.reason); }
      var p := cur.value;
      assert p in View().procs;
      if fd >= |p.files| || p.files[fd].None? { return Ok(ERR); }
      var f := p.files[fd].value;
      if f !in fdCount || fdCount[f] == 0 { return Halted(AssertFailed); }
      fdCount := fdCount[f := fdCount[f] - 1];
      PutProc(currentProc, p.(files := p.files[fd := None]));
      if fdCount[f] != 0 { return Halted(ReleaseShared); }
      fdCount := fdCount - {f};
      assert fdCount == old(fdCount) - {f};
      return Ok(0);
    }

    /** _syscall__WAITPID. */
    method WaitPidCallHandler(pid: int, va: Word) returns (r: Result<Word>)
      requires Valid()
      modifies this, processes
      ensures match WaitPid(old(View()), pid, va)
              case Ok((k, w)) => r == Ok(w) && Valid() && View() == k
              case Halted(h) => r == Halted(h)
    {
      var a := ToKernelAddress(va);
      if a.Halted? { return Halted(a.reason); }
      r := CurProcWaitId(pid, a.value);
    }

    /** READ and READDIR with what the file system delivers. */
    method ReadFile(fd: nat, va: Word, data: Outcome<(seq<Byte>, Word)>) returns (r: Result<Word>)
      requires Valid()
      modifies this
      ensures match Read(old(View()), fd, va, data)
              case Ok((k, w)) => r == Ok(w) && Valid() && View() == k
              case Halted(h) => r == Halted(h)
    {
      var a := ToKernelAddress(va);
      var used := UsesFd(fd);
      if used.Halted? { return Halted(used.reason); }
      if a.Halted? { return Halted(a.reason); }
      if !used.value { return Ok(ERR); }
      if data.Fatal? { return Halted(VfsHalted); }
      var stored := StoreBytes(a.value, data.value.0);
      if stored.Halted? { return Halted(stored.reason); }
      return Ok(data.value.1);
    }

    /** What the file system reads from an address on, section after section. */
    method LoadAcross(address: nat, n: nat) returns (bytes: seq<Byte>)
      requires Valid() && InUser(address, n)
      ensures bytes == LoadAt(memory, SlotOf(address), OffsetOf(address), n)
    {
      bytes := [];
      var slot: nat, o: nat, left: nat := SlotOf(address), OffsetOf(address), n;
      ghost var all := LoadAt(memory, slot, o, n);
      while slot < |memory| && o + left > SECTION_SIZE
        invariant o < SECTION_SIZE && all == bytes + LoadAt(memory, slot, o, left)
        decreases left
      {
        bytes := bytes + memory[slot][o..];
        left := left - (SECTION_SIZE - o);
        slot, o := slot + 1, 0;
      }
      if slot < |memory| { bytes := bytes + memory[slot][o..o + left]; }
    }

    /** The bytes of a user buffer, or the abort of a read behind the mapped memory. */
    method FetchBytes(address: nat, n: nat) returns (r: Result<Option<seq<Byte>>>)
      requires Valid()
      ensures r == Fetch(View(), address, n)
    {
      if n == 0 { return Ok(Some([])); }
      if InUser(address, n) {
        var bytes := LoadAcross(address, n);
        return Ok(Some(bytes));
      }
      if address + n > SectionAddress(SLOTS) { return Halted(KernelFault); }
      return Ok(if address + n <= |reset| then Some(reset[address..address + n]) else None);
    }

    /** WRITE, with the bytes that reach the file. */
    method WriteFile(fd: nat, va: Word, answer: Outcome<(nat, Word)>) returns (r: Result<Word>, bytes: Option<seq<Byte>>)
      requires Valid()
      ensures match Write(View(), fd, va, answer)
              case Ok((k, w)) => r == Ok(w) && View() == k
              case Halted(h) => r == Halted(h)
      ensures r.Ok? && HasFile(Current(View()).value, fd) ==> bytes == Handed(View(), va, answer.value.0)
    {
      bytes := None;
      var a := ToKernelAddress(va);
      var used := UsesFd(fd);
      if used.Halted? { return Halted(used.reason), None; }
      if a.Halted? { return Halted(a.reason), None; }
      if !used.value { return Ok(ERR), None; }
      if answer.Fatal? { return Halted(VfsHalted), None; }
      var fetched := FetchBytes(a.value, answer.value.0);
      if fetched.Halted? { return Halted(fetched.reason), None; }
      return Ok(answer.value.1), fetched.value;
    }

    /** LSEEK. */
    method SeekFile(fd: nat, answer: Outcome<Word>) returns (r: Result<Word>)
      requires Valid()
      ensures match Seek(View(), fd, answer)
              case Ok((k, w)) => r == Ok(w) && View() == k
              case Halted(h) => r == Halted(h)
    {
      var used := UsesFd(fd);
      if used.Halted? { return Halted(used.reason); }
      if !used.value { return Ok(ERR); }
      return if answer.Fatal? then Halted(VfsHalted) else Ok(answer.value);
    }

    /** MKDIR and MKNOD. */
    method MakeNode(path: Text, answer: Outcome<Word>) returns (r: Result<Word>)
      requires Valid()
      ensures match Make(View(), path, answer)
              case Ok((k, w)) => r == Ok(w) && View() == k
              case Halted(h) => r == Halted(h)
    {
      var a := ToKernelAddress(path.va);
      if a.Halted? { return Halted(a.reason); }
      if path.length > MAX_NAME { return Halted(KernelOverwritten); }
      return if answer.Fatal? then Halted(VfsHalted) else Ok(answer.value);
    }

    /** scheduler_cur_proc_exec, once the image is built. */
    method CurProcExec(image: Option<(Section, Context)>) returns (r: Result<Word>)
      requires Valid()
      modifies this, processes
      ensures match Exec(old(View()), image)
              case Ok((k, w)) => r == Ok(w) && Valid() && View() == k
              case Halted(h) => r == Halted(h)
    {
      var cur := GetCurrentProc();
      if cur.Halted? { return Halted(cur.reason); }
      assert cur.value in View().procs;
      if image.None? { return Ok(ERR); }
      if cur.value.section.None? { return Halted(WildAccess); }
      memory := memory[cur.value.section.value := image.value.0];
      PutProc(currentProc, cur.value.(context := image.value.1));
      return Ok(0);
    }

    /** The loop of _syscall__EXEC over the vector. */
    method CopyArguments(strings: seq<Text>) returns (r: Result<()>)
      requires Valid()
      ensures r == CopyStrings(View(), strings, 0)
    {
      for i := 0 to |strings|
        invariant CopyStrings(View(), strings, 0) == CopyStrings(View(), strings, i)
      {
        var a := ToKernelAddress(strings[i].va);
        if a.Halted? { return Halted(a.reason); }
        if ARG_SLOT * i + strings[i].length >= ARG_BYTES { return Halted(KernelOverwritten); }
      }
      return Ok(());
    }

    /** _syscall__EXEC. */
    method ExecFile(path: Text, argv: Word, strings: seq<Text>, image: Outcome<Option<(Section, Context)>>) returns (r: Result<Word>)
      requires Valid()
      modifies this, processes
      ensures match ExecPath(old(View()), path, argv, strings, image)
              case Ok((k, w)) => r == Ok(w) && Valid() && View() == k
              case Halted(h) => r == Halted(h)
    {
      var a := ToKernelAddress(path.va);
      if a.Halted? { return Halted(a.reason); }
      var v := ToKernelAddress(argv);
      if v.Halted? { return Halted(v.reason); }
      if argv != 0 {
        var copied := CopyArguments(strings);
        if copied.Halted? { return Halted(copied.reason); }
      }
      if path.length > MAX_NAME { return Halted(KernelOverwritten); }
      if image.Fatal? { return Halted(VfsHalted); }
      r := CurProcExec(image.value);
    }

    method HandleCall(call: Call) returns (r: Result<Word>)
      requires Valid()
      modifies this, processes, sectionBits, tableBits
      ensures match Handle(old(View()), call)
              case Ok((k, w)) => r == Ok(w) && Valid() && View() == k
              case Halted(h) => r == Halted(h)
    {
      match call
      case ExitCall(status) =>
        var e := CurProcExit(status);
        r := if e.Ok? then Ok(0) else Halted(e.reason);
      case RebootCall => r := Halted(Rebooted);
      case OpenCall(path, file) => r := OpenFile(path, file);
      case CloseCall(fd) => r := CloseFile(fd);
      case ReadCall(fd, va, data) => r := ReadFile(fd, va, data);
      case WriteCall(fd, va, answer) =>
        var bytes: Option<seq<Byte>>;
        r, bytes := WriteFile(fd, va, answer);
      case MountCall(pointers) =>
        var a := ToKernelAddresses(pointers);
        r := if a.Halted? then Halted(a.reason) else Halted(MountCalled);
      case MakeCall(path, answer) => r := MakeNode(path, answer);
      case SeekCall(fd, answer) => r := SeekFile(fd, answer);
      case ForkCall => r := CurProcFork();
      case WaitPidCall(pid, va) => r := WaitPidCallHandler(pid, va);
      case ExecCall(path, argv, strings, image) => r := ExecFile(path, argv, strings, image);
      case GetPidCall =>
        var p := GetCurrentProc();
        r := if p.Ok? then Ok(p.value.id % ADDRESS_LIMIT) else Halted(p.reason);
      case GetPpidCall =>
        var p := GetCurrentProc();
        r := if p.Ok? then Ok(p.value.parent % ADDRESS_LIMIT) else Halted(p.reason);
      case YieldCall(status) => r := Ok(status);
      case InvalidCall => r := Ok(ERR);
    }

    /** kernel_syscall_handler. */
    method SyscallHandler(call: Call) returns (r: Result<()>)
      requires Valid()
      modifies this, processes, sectionBits, tableBits
      ensures match Dispatch(old(View()), call)
              case Ok(k) => r.Ok? && Valid() && View() == k
              case Halted(h) => r == Halted(h)
    {
      var caller := GetCurrentProc();
      if caller.Halted? { return Halted(caller.reason); }
      var status := HandleCall(call);
      if status.Halted? { return Halted(status.reason); }
      var now := GetCurrentProc();
      if now.Halted? { return Halted(now.reason); }
      if now.value.id != caller.value.id {
        if !call.ExitCall? { return Halted(AssertFailed); }
      } else if !(call.ExecCall? && status.value == 0) {
        r := SetSyscallStatus(status.value);
        return;
      }
      return Ok(());
    }

    /** A trap from user mode back to user mode. */
    method ServeTrap(trap: Trap) returns (r: Result<()>)
      requires Valid()
      modifies this, processes, sectionBits, tableBits
      ensures match Step(old(View()), trap)
              case Ok(k) => r.Ok? && Valid() && View() == k
              case Halted(h) => r == Halted(h)
    {
      match trap {
        case Syscall(c, call) =>
          r := SaveCurrentContext(c);
          if r.Halted? { return; }
          r := SyscallHandler(call);
        case Preempt(c) => r := SaveCurrentContext(c);
        case Fault => r := CurProcExit(1);
        case Exception => r := Halted(UnhandledException);
      }
      if r.Halted? { return; }
      r := SelectNext();
    }
  }
}
