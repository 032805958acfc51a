/** The state of the kernel as the scheduler and the system call handlers see it, and
    what each of them does to it (src/kernel/scheduler/scheduler.c, src/kernel/syscalls.c).

    One trap is one atomic step: interrupts are masked from the trap to the return to
    user mode. A handler that calls kernel_fatal_error halts the machine. */
module Kernel {
  import opened Bytes
  import opened Wrappers
  import opened Mmu
  import opened Bitfield
  import opened FsUtils

  const MAX_PROCS: nat := 32
  const MAX_FDS: nat := 16
  const INIT_PID: int := 1
  /** The two allocators manage 64 sections and 64 translation tables. */
  const SLOTS: nat := 64
  /** Sections taken at boot: memory allocator, translation tables, ramdisk, dentries. */
  const KERNEL_SECTIONS: nat := 4
  /** Tables taken at boot: the kernel's own. */
  const KERNEL_TABLES: nat := 1
  const DYN_BASE: nat := 0x80_0000
  const PROCESS_VA: nat := 0x80_0000
  const PROCESS_ENTRY: nat := 8
  const ERR: Word := 0xFFFF_FFFF
  /** The bytes for the arguments of exec, 8 times 32. */
  const ARG_SLOT: nat := 32
  const ARG_BYTES: nat := 256

  type Section = s: seq<Byte> | |s| == SECTION_SIZE witness seq(SECTION_SIZE, i => 0)

  /** Why the machine stops. WildAccess is a use of a null section or table. KernelFault is an access
      of the kernel beyond its own mapping. KernelOverwritten is no halt of the code: the kernel has
      written over its own code, stack or data, and the model follows it no further. */
  datatype Halt =
    | InitExited | NoScheduled | NoParent | BadCurrent | OutOfSections | OutOfTables
    | AssertFailed | ReleaseShared | BadTranslation | VfsHalted | MountCalled | Rebooted
    | UnhandledException | KernelFault | KernelOverwritten | WildAccess

  datatype Result<+T> = Ok(value: T) | Halted(reason: Halt) {
    predicate IsFailure() { Halted? }
    function PropagateFailure<U>(): Result<U> requires Halted? { Halted(reason) }
    function Extract(): T requires Ok? { value }
  }

  /** The saved registers: r0 carries the status of a system call. */
  datatype Context = Context(r0: Word, others: seq<Word>)

  datatype Status =
    | Scheduled
    | Suspended(waitPid: int, wstatusRef: nat)
    | Exited(wstatus: Word)

  /** `section` and `table` are slots of the allocators; None is a NULL pointer. A descriptor
      slot is None when its bit in files_bitfield is clear. */
  datatype Process = Process(
    context: Context, id: int, parent: int, status: Status,
    table: Option<nat>, section: Option<nat>, files: seq<Option<nat>>)

  /** `memory` is the 64 sections, `reset` the word at address 0: the reset vector, which is not used
      again once the kernel runs. */
  datatype State = State(
    procs: seq<Process>, current: nat, idGen: nat,
    sectionBits: seq<bool>, tableBits: seq<bool>,
    tables: seq<Table>, memory: seq<Section>, reset: seq<Byte>,
    fdCount: map<nat, nat>)

  predicate Live(p: Process) { !p.status.Exited? }

  /** Sizes of the fixed buffers. */
  predicate Shape(k: State) {
    && |k.sectionBits| == |k.tableBits| == |k.tables| == |k.memory| == SLOTS && |k.reset| == 4
    && (forall p :: p in k.procs ==> |p.files| == MAX_FDS && SlotsInRange(p))
  }

  predicate SlotsInRange(p: Process) {
    && (p.section.Some? ==> p.section.value < SLOTS)
    && (p.table.Some? ==> p.table.value < SLOTS)
  }

  function SectionAddress(slot: nat): nat { DYN_BASE + slot * SECTION_SIZE }

  // ---- physical memory ----

  /** A physical range that lies inside one of the 64 sections. */
  predicate InSection(address: nat, size: nat) {
    && address >= DYN_BASE
    && (address - DYN_BASE) / SECTION_SIZE < SLOTS
    && (address - DYN_BASE) % SECTION_SIZE + size <= SECTION_SIZE
  }

  function SlotOf(address: nat): nat
    requires address >= DYN_BASE
  {
    (address - DYN_BASE) / SECTION_SIZE
  }

  function OffsetOf(address: nat): nat
    requires address >= DYN_BASE
  {
    (address - DYN_BASE) % SECTION_SIZE
  }

  /** memcpy into one section. */
  function Splice(s: Section, offset: nat, bytes: seq<Byte>): Section
    requires offset + |bytes| <= SECTION_SIZE
  {
    Spliced(s, offset, bytes)
  }

  /** Bytes laid from an offset of section s on: what does not fit goes to the sections behind it. */
  function StoreAt(memory: seq<Section>, s: nat, o: nat, bytes: seq<Byte>): (r: seq<Section>)
    requires o < SECTION_SIZE
    ensures |r| == |memory|
    decreases |bytes|
  {
    if s >= |memory| then memory
    else if o + |bytes| <= SECTION_SIZE then memory[s := Splice(memory[s], o, bytes)]
    else
      var n := SECTION_SIZE - o;
      StoreAt(memory[s := Splice(memory[s], o, bytes[..n])], s + 1, 0, bytes[n..])
  }

  function Stored(memory: seq<Section>, address: nat, bytes: seq<Byte>): (r: seq<Section>)
    requires address >= DYN_BASE
    ensures |r| == |memory|
  {
    StoreAt(memory, SlotOf(address), OffsetOf(address), bytes)
  }

  /** The sections that are handed to processes. */
  predicate InUser(address: nat, size: nat) {
    SectionAddress(KERNEL_SECTIONS) <= address && address + size <= SectionAddress(SLOTS)
  }

  /** A kernel store to physical memory, which is mapped up to the end of the 64 sections. */
  function Store(k: State, address: nat, bytes: seq<Byte>): (r: Result<State>)
    requires Shape(k)
    ensures r.Ok? ==> Shape(r.value) && r.value == k.(memory := r.value.memory, reset := r.value.reset)
  {
    if bytes == [] then Ok(k)
    else if InUser(address, |bytes|) then Ok(k.(memory := Stored(k.memory, address, bytes)))
    else if address + |bytes| <= |k.reset| then Ok(k.(reset := Spliced(k.reset, address, bytes)))
    else if address >= SectionAddress(KERNEL_SECTIONS) then Halted(KernelFault)
    else Halted(KernelOverwritten)
  }

  /** Bytes from an offset of section s on. */
  function LoadAt(memory: seq<Section>, s: nat, o: nat, n: nat): seq<Byte>
    requires o < SECTION_SIZE
    decreases n
  {
    if s >= |memory| then []
    else if o + n <= SECTION_SIZE then memory[s][o..o + n]
    else memory[s][o..] + LoadAt(memory, s + 1, 0, n - (SECTION_SIZE - o))
  }

  /** A kernel load from physical memory; None stands for bytes of the kernel, which the state does not
      hold. */
  function Fetch(k: State, address: nat, n: nat): Result<Option<seq<Byte>>>
    requires Shape(k)
  {
    if n == 0 then Ok(Some([]))
    else if InUser(address, n) then Ok(Some(LoadAt(k.memory, SlotOf(address), OffsetOf(address), n)))
    else if address + n > SectionAddress(SLOTS) then Halted(KernelFault)
    else if address + n <= |k.reset| then Ok(Some(k.reset[address..address + n]))
    else Ok(None)
  }

  // ---- the process table ----

  function FindFrom(procs: seq<Process>, pid: int, from: nat): (r: Option<nat>)
    requires from <= |procs|
    ensures r.Some? ==> from <= r.value < |procs| && procs[r.value].id == pid
    ensures r.Some? ==> forall j :: from <= j < r.value ==> procs[j].id != pid
    ensures r.None? ==> forall j :: from <= j < |procs| ==> procs[j].id != pid
    decreases |procs| - from
  {
    if from == |procs| then None
    else if procs[from].id == pid then Some(from)
    else FindFrom(procs, pid, from + 1)
  }

  /** _find_proc_by_pid. */
  function FindPid(procs: seq<Process>, pid: int): (r: Option<nat>)
    ensures r.Some? ==> r.value < |procs| && procs[r.value].id == pid
    ensures r.Some? ==> forall j :: 0 <= j < r.value ==> procs[j].id != pid
    ensures r.None? ==> forall j :: 0 <= j < |procs| ==> procs[j].id != pid
  {
    FindFrom(procs, pid, 0)
  }

  function Without<T>(s: seq<T>, i: nat): seq<T>
    requires i < |s|
  {
    s[..i] + s[i + 1..]
  }

  /** _remove_process: compact the table; the current index moves only when it is the one removed. */
  function Remove(k: State, i: nat): Result<State>
    requires i < |k.procs|
  {
    if k.procs[i].section != None || k.procs[i].table != None then Halted(AssertFailed)
    else
      Ok(k.(procs := Without(k.procs, i),
            current := if i != k.current then k.current
                       else if i != 0 then k.current - 1
                       else if |k.procs| == 1 then ADDRESS_LIMIT - 1 else |k.procs| - 2))
  }

  function Current(k: State): Result<Process> {
    if k.current < |k.procs| then Ok(k.procs[k.current]) else Halted(BadCurrent)
  }

  function SetProc(k: State, i: nat, p: Process): State
    requires i < |k.procs|
  {
    k.(procs := k.procs[i := p])
  }

  /** scheduler_save_current_context. */
  function SaveContext(k: State, c: Context): Result<State> {
    var p :- Current(k);
    Ok(SetProc(k, k.current, p.(context := c)))
  }

  function WithR0(p: Process, w: Word): Process { p.(context := p.context.(r0 := w)) }

  /** scheduler_cur_proc_set_syscall_status. */
  function SetStatus(k: State, w: Word): Result<State> {
    var p :- Current(k);
    Ok(SetProc(k, k.current, WithR0(p, w)))
  }

  function NextIndex(n: nat, c: nat): nat { if c + 1 == n then 0 else c + 1 }

  /** The loop of _select_next_scheduled_proc with `turns` rounds left. */
  function SelectLoop(procs: seq<Process>, c: nat, turns: nat): Result<nat>
    decreases turns
  {
    if turns == 0 then Halted(NoScheduled)
    else
      var n := NextIndex(|procs|, c);
      if n >= |procs| then Halted(BadCurrent)
      else if procs[n].status.Scheduled? then Ok(n)
      else SelectLoop(procs, n, turns - 1)
  }

  /** scheduler_switch_task. */
  function Switch(k: State): Result<State> {
    var n :- SelectLoop(k.procs, k.current, |k.procs|);
    Ok(k.(current := n))
  }

  // ---- handlers of the current process ----

  /** Orphans of `pid` become children of init. */
  function Reparented(procs: seq<Process>, pid: int): seq<Process> {
    seq(|procs|, i requires 0 <= i < |procs| =>
      if procs[i].parent == pid then procs[i].(parent := INIT_PID) else procs[i])
  }

  /** The table after the current process is marked exited and its children are reparented. */
  function ExitedTable(procs: seq<Process>, c: nat, status: Word): seq<Process>
    requires c < |procs|
  {
    Reparented(procs[c := procs[c].(status := Exited(status), table := None, section := None)], procs[c].id)
  }

  /** scheduler_cur_proc_exit. */
  function Exit(k: State, status: Word): Result<State>
    requires Shape(k)
  {
    var p :- Current(k);
    if p.id == INIT_PID then Halted(InitExited)
    else if p.table.None? || p.section.None? then Halted(WildAccess)
    else
      var procs := ExitedTable(k.procs, k.current, status);
      var k1 := k.(procs := procs,
                   sectionBits := k.sectionBits[p.section.value := false],
                   tableBits := k.tableBits[p.table.value := false]);
      match FindPid(procs, procs[k.current].parent)
      case None => Halted(NoParent)
      case Some(j) =>
        var parent := procs[j];
        if parent.status.Suspended? && parent.status.waitPid == p.id then
          var stored :- Store(k, parent.status.wstatusRef, WordBytes(status));
          var woken := WithR0(parent.(status := Scheduled), p.id % ADDRESS_LIMIT);
          Remove(k1.(procs := procs[j := woken], memory := stored.memory, reset := stored.reset), k.current)
        else Ok(k1)
  }

  /** scheduler_cur_proc_wait_id. */
  function WaitId(k: State, pid: int, ref: nat): Result<(State, Word)>
    requires Shape(k)
  {
    var p :- Current(k);
    if pid == -1 then Ok((k, ERR))
    else
      match FindPid(k.procs, pid)
      case None => Ok((k, ERR))
      case Some(j) =>
        if k.procs[j].status.Exited? then
          var stored :- Store(k, ref, WordBytes(k.procs[j].status.wstatus));
          var k1 :- Remove(stored, j);
          Ok((k1, pid % ADDRESS_LIMIT))
        else
          Ok((SetProc(k, k.current, p.(status := Suspended(pid, ref))), 0))
  }

  /** One more reference for every descriptor slot in use. */
  function AddRefs(fdCount: map<nat, nat>, files: seq<Option<nat>>): map<nat, nat> {
    if files == [] then fdCount
    else
      var m := AddRefs(fdCount, files[..|files| - 1]);
      var f := files[|files| - 1];
      if f.Some? && f.value in m then m[f.value := m[f.value] + 1] else m
  }

  /** The child that fork builds: the parent's registers with r0 = 0, its own slots, the same files. */
  function Child(p: Process, id: int, section: nat, table: nat): Process {
    Process(p.context.(r0 := 0), id, p.id, Scheduled, Some(table), Some(section), p.files)
  }

  /** scheduler_cur_proc_fork. */
  function Fork(k: State): Result<(State, Word)>
    requires Shape(k)
  {
    if |k.procs| >= MAX_PROCS then Ok((k, ERR))
    else
      var p :- Current(k);
      var s := FirstClear(k.sectionBits);
      if s < 0 then Halted(OutOfSections)
      else
        var t := FirstClear(k.tableBits);
        if t < 0 then Halted(OutOfTables)
        else if p.section.None? || p.table.None? then Halted(WildAccess)
        else
          var id := k.idGen + 1;
          var table := SingleMapped(k.tables[p.table.value], SectionAddress(s), PROCESS_VA, KERNEL_RW_USER_RW);
          Ok((State(k.procs + [Child(p, id, s, t)], k.current, id,
                    k.sectionBits[s := true], k.tableBits[t := true],
                    k.tables[t := table],
                    k.memory[s := k.memory[p.section.value]],
                    k.reset, AddRefs(k.fdCount, p.files)),
              id % ADDRESS_LIMIT))
  }

  /** Lowest free descriptor, or -1. */
  function FreeFd(files: seq<Option<nat>>): (r: int)
    ensures -1 <= r < |files|
  {
    FirstClear(seq(|files|, i requires 0 <= i < |files| => files[i].Some?))
  }

  /** _syscall__OPEN once the VFS has answered: None when it found nothing to open. */
  function Open(k: State, file: Option<nat>): Result<(State, Word)>
    requires Shape(k)
  {
    var p :- Current(k);
    if file.None? then Ok((k, ERR))
    else
      var fd := FreeFd(p.files);
      if fd < 0 then Ok((k, ERR))
      else
        Ok((SetProc(k, k.current, p.(files := p.files[fd := file])).(fdCount := k.fdCount[file.value := 1]), fd))
  }

  /** _syscall__CLOSE. Releasing a file whose count is not zero fails the assertion of inode.c. */
  function Close(k: State, fd: nat): Result<(State, Word)>
    requires Shape(k)
  {
    var p :- Current(k);
    if fd >= |p.files| || p.files[fd].None? then Ok((k, ERR))
    else
      var f := p.files[fd].value;
      if f !in k.fdCount || k.fdCount[f] == 0 then Halted(AssertFailed)
      else if k.fdCount[f] != 1 then Halted(ReleaseShared)
      else Ok((SetProc(k, k.current, p.(files := p.files[fd := None])).(fdCount := k.fdCount - {f}), 0))
  }

  /** scheduler_cur_proc_to_kernel_address: only the first byte is translated, a null pointer stays
      null, and anything else outside the section of the process halts. */
  function UserPointer(k: State, va: Word): Result<nat>
    requires Shape(k)
  {
    var p :- Current(k);
    if p.table.None? then Halted(WildAccess)
    else
      match Translate(k.tables[p.table.value], va)
      case Physical(a) => Ok(a)
      case Null => Ok(0)
      case _ => Halted(BadTranslation)
  }

  /** The pointers of MOUNT, translated one after the other. */
  function UserPointers(k: State, vas: seq<Word>): Result<()>
    requires Shape(k)
  {
    if vas == [] then Ok(())
    else
      var _ :- UserPointer(k, vas[0]);
      UserPointers(k, vas[1..])
  }

  /** What the virtual filesystem answers, or that it halts. */
  function Answered<T>(answer: Outcome<T>): Result<T> {
    match answer
    case Done(value) => Ok(value)
    case Fatal => Halted(VfsHalted)
  }

  predicate HasFile(p: Process, fd: nat) { fd < |p.files| && p.files[fd].Some? }

  /** A string in the memory of a process: its pointer, and its length as far as the kernel copies it. Of
      a path that is the length of the longest segment that the lookup copies. */
  datatype Text = Text(va: Word, length: nat)

  /** A segment that is too long overwrites what stands behind the name in the kernel. */
  function LookedUp(path: Text): Result<()> { if path.length > MAX_NAME then Halted(KernelOverwritten) else Ok(()) }

  /** _syscall__OPEN. */
  function OpenPath(k: State, path: Text, file: Outcome<Option<nat>>): Result<(State, Word)>
    requires Shape(k)
  {
    var _ :- UserPointer(k, path.va);
    var _ :- LookedUp(path);
    var found :- Answered(file);
    Open(k, found)
  }

  /** READ and READDIR: the pointer is translated before the descriptor is looked at; the file system
      writes its bytes from the translated address on. */
  function Read(k: State, fd: nat, va: Word, data: Outcome<(seq<Byte>, Word)>): Result<(State, Word)>
    requires Shape(k)
  {
    var p :- Current(k);
    var a :- UserPointer(k, va);
    if !HasFile(p, fd) then Ok((k, ERR))
    else
      var (bytes, status) :- Answered(data);
      var k1 :- Store(k, a, bytes);
      Ok((k1, status))
  }

  /** WRITE: the file system takes some bytes from the translated address on. */
  function Write(k: State, fd: nat, va: Word, answer: Outcome<(nat, Word)>): Result<(State, Word)>
    requires Shape(k)
  {
    var p :- Current(k);
    var a :- UserPointer(k, va);
    if !HasFile(p, fd) then Ok((k, ERR))
    else
      var (taken, status) :- Answered(answer);
      var _ :- Fetch(k, a, taken);
      Ok((k, status))
  }

  /** The bytes that WRITE hands to the file. */
  function Handed(k: State, va: Word, n: nat): Option<seq<Byte>>
    requires Shape(k)
  {
    match UserPointer(k, va)
    case Halted(_) => None
    case Ok(a) => match Fetch(k, a, n) case Ok(bytes) => bytes case Halted(_) => None
  }

  /** LSEEK, which takes no pointer. */
  function Seek(k: State, fd: nat, status: Outcome<Word>): Result<(State, Word)>
    requires Shape(k)
  {
    var p :- Current(k);
    if !HasFile(p, fd) then Ok((k, ERR))
    else
      var moved :- Answered(status);
      Ok((k, moved))
  }

  /** MKDIR and MKNOD. */
  function Make(k: State, path: Text, status: Outcome<Word>): Result<(State, Word)>
    requires Shape(k)
  {
    var _ :- UserPointer(k, path.va);
    var _ :- LookedUp(path);
    var made :- Answered(status);
    Ok((k, made))
  }

  /** MOUNT translates its pointers and then always halts. */
  function Mount(k: State, pointers: seq<Word>): Result<(State, Word)>
    requires Shape(k)
  {
    var _ :- UserPointers(k, pointers);
    Halted(MountCalled)
  }

  /** scheduler_cur_proc_exec once the image is built: a new section content and fresh registers, or
      failure. */
  function Exec(k: State, image: Option<(Section, Context)>): Result<(State, Word)>
    requires Shape(k)
  {
    var p :- Current(k);
    if image.None? then Ok((k, ERR))
    else if p.section.None? then Halted(WildAccess)
    else
      var s := p.section.value;
      Ok((SetProc(k, k.current, p.(context := image.value.1)).(memory := k.memory[s := image.value.0]), 0))
  }

  /** The strings of the vector from the i-th on, copied to their places in the kernel. Neither their
      number nor their lengths are checked. */
  function CopyStrings(k: State, strings: seq<Text>, i: nat): Result<()>
    requires Shape(k)
    decreases |strings| - i
  {
    if i >= |strings| then Ok(())
    else
      var _ :- UserPointer(k, strings[i].va);
      if ARG_SLOT * i + strings[i].length >= ARG_BYTES then Halted(KernelOverwritten) else CopyStrings(k, strings, i + 1)
  }

  /** _syscall__EXEC: path and vector, then each string that the vector holds. */
  function ExecPath(k: State, path: Text, argv: Word, strings: seq<Text>, image: Outcome<Option<(Section, Context)>>): Result<(State, Word)>
    requires Shape(k)
  {
    var _ :- UserPointer(k, path.va);
    var _ :- UserPointer(k, argv);
    var _ :- if argv == 0 then Ok(()) else CopyStrings(k, strings, 0);
    var _ :- LookedUp(path);
    var built :- Answered(image);
    Exec(k, built)
  }

  /** WAITPID: the status pointer is translated before the scheduler is asked. */
  function WaitPid(k: State, pid: int, va: Word): Result<(State, Word)>
    requires Shape(k)
  {
    var a :- UserPointer(k, va);
    WaitId(k, pid, a)
  }

  /** A system call with its arguments. What the file systems answer is part of the call: the
      theorems are about every answer, halting ones included. */
  datatype Call =
    | YieldCall(status: Word)
    | RebootCall
    | ExitCall(status: Word)
    | OpenCall(path: Text, file: Outcome<Option<nat>>)
    | CloseCall(fd: nat)
    | ReadCall(fd: nat, va: Word, data: Outcome<(seq<Byte>, Word)>)
    | WriteCall(fd: nat, va: Word, written: Outcome<(nat, Word)>)
    | MountCall(pointers: seq<Word>)
    | MakeCall(path: Text, answer: Outcome<Word>)
    | SeekCall(fd: nat, answer: Outcome<Word>)
    | ForkCall
    | WaitPidCall(pid: int, va: Word)
    | ExecCall(path: Text, argv: Word, strings: seq<Text>, image: Outcome<Option<(Section, Context)>>)
    | GetPidCall
    | GetPpidCall
    | InvalidCall

  function Handle(k: State, call: Call): Result<(State, Word)>
    requires Shape(k)
  {
    match call
    case YieldCall(status) => Ok((k, status))
    case ExitCall(status) => var k1 :- Exit(k, status); Ok((k1, 0))
    case RebootCall => Halted(Rebooted)
    case OpenCall(path, file) => OpenPath(k, path, file)
    case CloseCall(fd) => Close(k, fd)
    case ReadCall(fd, va, data) => Read(k, fd, va, data)
    case WriteCall(fd, va, answer) => Write(k, fd, va, answer)
    case MountCall(pointers) => Mount(k, pointers)
    case MakeCall(path, answer) => Make(k, path, answer)
    case SeekCall(fd, answer) => Seek(k, fd, answer)
    case ForkCall => Fork(k)
    case WaitPidCall(pid, va) => WaitPid(k, pid, va)
    case ExecCall(path, argv, strings, image) => ExecPath(k, path, argv, strings, image)
    case GetPidCall => var p :- Current(k); Ok((k, p.id % ADDRESS_LIMIT))
    case GetPpidCall => var p :- Current(k); Ok((k, p.parent % ADDRESS_LIMIT))
    case InvalidCall => Ok((k, ERR))
  }

  /** kernel_syscall_handler: the status goes to the caller unless the caller was deleted or
      has just been replaced by a new image. */
  function Dispatch(k: State, call: Call): Result<State>
    requires Shape(k)
  {
    var caller :- Current(k);
    var (k1, status) :- Handle(k, call);
    var now :- Current(k1);
    if now.id != caller.id then
      if call.ExitCall? then Ok(k1) else Halted(AssertFailed)
    else if call.ExecCall? && status == 0 then Ok(k1)
    else SetStatus(k1, status)
  }

  /** Fault is a data abort of user mode, Exception an undefined instruction or a prefetch abort. */
  datatype Trap =
    | Syscall(context: Context, call: Call)
    | Preempt(context: Context)
    | Fault
    | Exception

  /** From the trap to the point where the next task is chosen. */
  function Serve(k: State, trap: Trap): Result<State>
    requires Shape(k)
  {
    match trap
    case Syscall(c, call) =>
      var k1 :- SaveContext(k, c);
      assert Shape(k1);
      Dispatch(k1, call)
    case Preempt(c) => SaveContext(k, c)
    case Fault => Exit(k, 1)
    case Exception => Halted(UnhandledException)
  }

  /** One trap, served and followed by the choice of the next task. */
  function Step(k: State, trap: Trap): Result<State>
    requires Shape(k)
  {
    var k1 :- Serve(k, trap);
    Switch(k1)
  }

  /** A user-mode byte store of the running process: None when the hardware aborts it. */
  function UserStore(k: State, va: Word, b: Byte): Result<State>
    requires Shape(k)
  {
    var p :- Current(k);
    if p.table.None? then Halted(WildAccess)
    else
      var e := k.tables[p.table.value][va / SECTION_SIZE];
      if TypeOf(e) == TYPE_SECTION && PermissionOf(e) == KERNEL_RW_USER_RW then
        Store(k, BaseOf(e) + va % SECTION_SIZE, [b])
      else Step(k, Fault)
  }

  datatype Event = UserWrite(va: Word, b: Byte) | TrapEvent(trap: Trap)

  function Next(k: State, e: Event): Result<State>
    requires Shape(k)
  {
    match e
    case UserWrite(va, b) => UserStore(k, va, b)
    case TrapEvent(trap) => Step(k, trap)
  }
}
