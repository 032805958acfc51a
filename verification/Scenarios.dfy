/** Short runs from boot that reach the failures: each shows an input on which the code does what its
    design does not intend (src/kernel/scheduler/scheduler.c, src/kernel/syscalls.c). */
module Scenarios {
  import opened Bytes
  import opened Wrappers
  import opened Mmu
  import opened Bitfield
  import opened Kernel
  import opened TableInvariant
  import opened MemoryInvariant
  import opened FileInvariant
  import opened Steps
  import opened Others
  import opened Runs
  import opened Isolation
  import opened Buffers

  // ---- single traps, computed ----

  /** The processor goes to the next entry when that one can run. */
  lemma SwitchTo(k: State)
    requires k.current < |k.procs| && k.procs[NextIndex(|k.procs|, k.current)].status.Scheduled?
    ensures NextIndex(|k.procs|, k.current) < |k.procs|
    ensures Switch(k) == Ok(k.(current := NextIndex(|k.procs|, k.current)))
  {
  }

  lemma StepIs(k: State, trap: Trap, k1: State)
    requires Good(k) && TrapAllowed(k, trap) && Serve(k, trap) == Ok(k1) && k1.current < |k1.procs|
    requires k1.procs[NextIndex(|k1.procs|, k1.current)].status.Scheduled?
    ensures Step(k, trap) == Ok(k1.(current := NextIndex(|k1.procs|, k1.current)))
    ensures Good(k1.(current := NextIndex(|k1.procs|, k1.current)))
  {
    SwitchTo(k1);
    StepKeepsGood(k, trap);
  }

  /** An entry that a trap of somebody else leaves alone. */
  predicate SameEntry(a: Process, b: Process) { b == a.(context := b.context) }

  lemma ForkServed(k: State, c: Context) returns (k1: State)
    requires Good(k) && |k.procs| < MAX_PROCS
    ensures Serve(k, Syscall(c, ForkCall)) == Ok(k1) && k1.current == k.current && |k1.procs| == |k.procs| + 1
    ensures forall i :: 0 <= i < |k.procs| ==> SameEntry(k.procs[i], k1.procs[i])
    ensures var child := k1.procs[|k.procs|];
            && child.id == k.idGen + 1 && child.parent == k.procs[k.current].id && child.status.Scheduled?
            && child.files == k.procs[k.current].files && child.section == Some(FirstClear(k.sectionBits))
    ensures k1.fdCount == AddRefs(k.fdCount, k.procs[k.current].files) && k1.idGen == k.idGen + 1
    ensures FirstClear(k.sectionBits) >= 0 && k1.sectionBits == k.sectionBits[FirstClear(k.sectionBits) := true]
  {
    RegistersKeep(k, k.current, c);
    var k0 := SaveContext(k, c).value;
    ForkIs(k0);
    ForkFindsSlots(k0);
    k1 := Dispatch(k0, ForkCall).value;
  }

  lemma PreemptServed(k: State, c: Context) returns (k1: State)
    requires Good(k)
    ensures Serve(k, Preempt(c)) == Ok(k1) && k1 == k.(procs := k1.procs) && |k1.procs| == |k.procs|
    ensures forall i :: 0 <= i < |k.procs| ==> SameEntry(k.procs[i], k1.procs[i])
  {
    k1 := SaveContext(k, c).value;
  }

  /** What exit leaves alone in the table. */
  lemma ExitMarks(k: State, status: Word)
    requires Ready(k) && k.current != 0 && k.procs[k.current].section.Some? && k.procs[k.current].table.Some?
    ensures var r := MarkExited(k, status);
            && |r.procs| == |k.procs| && r.procs[k.current].status == Exited(status)
            && forall i :: 0 <= i < |k.procs| ==>
                 && r.procs[i].id == k.procs[i].id && r.procs[i].files == k.procs[i].files
                 && (i != k.current ==> r.procs[i].status == k.procs[i].status)
  {
    var r := MarkExited(k, status);
    forall i | 0 <= i < |k.procs| ensures
      && r.procs[i].id == k.procs[i].id && r.procs[i].files == k.procs[i].files
      && (i != k.current ==> r.procs[i].status == k.procs[i].status) && (i == k.current ==> r.procs[i].status == Exited(status))
    {
      ExitedEntry(k.procs, k.current, status, i);
    }
  }

  /** The exit of a process whose parent does not wait leaves a zombie. */
  lemma ExitServed(k: State, c: Context, status: Word) returns (k1: State)
    requires Good(k) && k.current != 0 && forall j :: 0 <= j < |k.procs| ==> !k.procs[j].status.Suspended?
    ensures Serve(k, Syscall(c, ExitCall(status))) == Ok(k1) && k1.current == k.current && |k1.procs| == |k.procs|
    ensures k1.fdCount == k.fdCount && k1.idGen == k.idGen
    ensures k1.procs[k.current].status == Exited(status)
    ensures forall i :: 0 <= i < |k.procs| ==> k1.procs[i].id == k.procs[i].id && k1.procs[i].files == k.procs[i].files
    ensures forall i :: 0 <= i < |k.procs| && i != k.current ==> k1.procs[i].status == k.procs[i].status
  {
    RegistersKeep(k, k.current, c);
    var k0 := SaveContext(k, c).value;
    var j := ExitIs(k0, status);
    ExitMarks(k0, status);
    k1 := Dispatch(k0, ExitCall(status)).value;
  }

  // ---- descriptors ----

  /** Closing stdin right after boot stops the machine: the terminal is open three times. */
  lemma CloseStdinHalts(context: Context, tables: seq<Table>, memory: seq<Section>, reset: seq<Byte>, tty: nat, c: Context)
    requires |tables| == |memory| == SLOTS && |reset| == 4
    ensures Step(Boot(context, tables, memory, reset, tty), Syscall(c, CloseCall(0))) == Halted(ReleaseShared)
  {
    var k := Boot(context, tables, memory, reset, tty);
    BootGood(context, tables, memory, reset, tty);
    RegistersKeep(k, 0, c);
    CloseSound(SaveContext(k, c).value, 0);
  }

  /** Init opens a file, forks and the child exits. */
  lemma OpenForkExit(k: State, f: nat, c1: Context, c2: Context, c3: Context, path: Text, status: Word) returns (k3: State)
    requires Good(k) && k.idGen == 1 && |k.procs| == 1 && k.current == 0 && f !in k.fdCount && !BadPath(path)
    requires k.procs[0].id == 1 && k.procs[0].status.Scheduled? && k.procs[0].files[3] == None
    requires forall i :: 0 <= i < 3 ==> k.procs[0].files[i].Some?
    requires forall i :: 3 < i < MAX_FDS ==> k.procs[0].files[i] == None
    requires forall i :: 0 <= i < 3 ==> k.procs[0].files[i] != Some(f)
    ensures var events := [TrapEvent(Syscall(c1, OpenCall(path, Done(Some(f))))), TrapEvent(Syscall(c2, ForkCall)),
                           TrapEvent(Syscall(c3, ExitCall(status)))];
            RunAllowed(k, events) && Run(k, events) == Ok(k3)
    ensures Good(k3) && k3.current == 0 && |k3.procs| == 2 && k3.procs[1].id == 2 && k3.procs[1].status == Exited(status)
    ensures k3.procs[0].id == 1 && k3.procs[0].files == k.procs[0].files[3 := Some(f)] && f in k3.fdCount && k3.fdCount[f] == 2
  {
    var t1, t2, t3 := Syscall(c1, OpenCall(path, Done(Some(f)))), Syscall(c2, ForkCall), Syscall(c3, ExitCall(status));
    var k1 := OpenStep(k, f, c1, path);
    var f2 := ForkServed(k1, c2);
    StepIs(k1, t2, f2);
    var k2 := f2.(current := 1);
    AddRefsCounts(k1.fdCount, k1.procs[0].files, f);
    OneNamed(k1.procs[0].files, f);
    var f3 := ExitServed(k2, c3, status);
    StepIs(k2, t3, f3);
    k3 := f3.(current := 0);
    ThreeEvents(k, TrapEvent(t1), k1, TrapEvent(t2), k2, TrapEvent(t3), k3);
  }

  lemma OpenStep(k: State, f: nat, c: Context, path: Text) returns (k1: State)
    requires Good(k) && |k.procs| == 1 && k.current == 0 && f !in k.fdCount && !BadPath(path)
    requires k.procs[0].files[3] == None && forall i :: 0 <= i < 3 ==> k.procs[0].files[i].Some?
    ensures TrapAllowed(k, Syscall(c, OpenCall(path, Done(Some(f)))))
    ensures Step(k, Syscall(c, OpenCall(path, Done(Some(f))))) == Ok(k1) && Good(k1)
    ensures |k1.procs| == 1 && k1.current == 0 && k1.idGen == k.idGen && k1.fdCount == k.fdCount[f := 1]
    ensures k1.procs[0].id == k.procs[0].id && k1.procs[0].status == k.procs[0].status
    ensures k1.procs[0].files == k.procs[0].files[3 := Some(f)]
  {
    var trap := Syscall(c, OpenCall(path, Done(Some(f))));
    RegistersKeep(k, 0, c);
    var k0 := SaveContext(k, c).value;
    PointerIs(k0, path.va);
    var used := seq(MAX_FDS, i requires 0 <= i < MAX_FDS => k0.procs[0].files[i].Some?);
    assert k0.procs[0] in k0.procs;
    FirstClearUnique(used, 3);
    var s := Dispatch(k0, trap.call).value;
    StepIs(k, trap, s);
    k1 := s.(current := 0);
  }

  /** One descriptor of the table names the file. */
  lemma OneNamed(files: seq<Option<nat>>, f: nat)
    requires |files| == MAX_FDS && files[3] == Some(f) && forall i :: 0 <= i < MAX_FDS && i != 3 ==> files[i] != Some(f)
    ensures FdUses(files, f) == 1
  {
    assert files == files[..3] + [Some(f)] + files[4..];
    FdUsesConcat(files[..3] + [Some(f)], files[4..], f);
    FdUsesConcat(files[..3], [Some(f)], f);
    OneUse(Some(f), f);
    NotNamed(files[..3], f);
    NotNamed(files[4..], f);
  }

  lemma {:induction false} NotNamed(files: seq<Option<nat>>, f: nat)
    requires forall i :: 0 <= i < |files| ==> files[i] != Some(f)
    ensures FdUses(files, f) == 0
  {
    if files != [] { NotNamed(files[..|files| - 1], f); }
  }

  /** A run that begins with an event that is allowed. */
  lemma EventThen(k: State, e: Event, k1: State, events: seq<Event>)
    requires Good(k) && EventAllowed(k, e) && Next(k, e) == Ok(k1) && Good(k1) && RunAllowed(k1, events)
    ensures RunAllowed(k, [e] + events) && Run(k, [e] + events) == Run(k1, events)
  {
    assert ([e] + events)[0] == e && ([e] + events)[1..] == events;
  }

  lemma ThreeEvents(k: State, e1: Event, k1: State, e2: Event, k2: State, e3: Event, k3: State)
    requires Good(k) && EventAllowed(k, e1) && Next(k, e1) == Ok(k1) && Good(k1) && EventAllowed(k1, e2)
    requires Next(k1, e2) == Ok(k2) && Good(k2) && EventAllowed(k2, e3) && Next(k2, e3) == Ok(k3) && Good(k3)
    ensures RunAllowed(k, [e1, e2, e3]) && Run(k, [e1, e2, e3]) == Ok(k3)
  {
    EventThen(k2, e3, k3, []);
    EventThen(k1, e2, k2, [e3] + []);
    EventThen(k, e1, k1, [e2] + ([e3] + []));
    assert [e1] + ([e2] + ([e3] + [])) == [e1, e2, e3];
  }

  /** The reap of the only child: the descriptor of the parent is the last one that names the file, and
      its count is still two. */
  lemma ReapLeavesCount(k: State, f: nat, c: Context, va: Word) returns (k1: State)
    requires Good(k) && k.current == 0 && |k.procs| == 2 && k.procs[1].id == 2 && k.procs[1].status.Exited?
    requires k.procs[0].id == 1 && |k.procs[0].files| == MAX_FDS && k.procs[0].files[3] == Some(f)
    requires forall i :: 0 <= i < MAX_FDS && i != 3 ==> k.procs[0].files[i] != Some(f)
    requires f in k.fdCount && k.fdCount[f] == 2 && !BadPointer(va)
    ensures TrapAllowed(k, Syscall(c, WaitPidCall(2, va))) && Step(k, Syscall(c, WaitPidCall(2, va))) == Ok(k1) && Good(k1)
    ensures |k1.procs| == 1 && k1.current == 0 && k1.procs[0].files == k.procs[0].files
    ensures Uses(k1.procs, f) == 1 && f in k1.fdCount && k1.fdCount[f] == 2
  {
    var trap := Syscall(c, WaitPidCall(2, va));
    RegistersKeep(k, 0, c);
    var k0 := SaveContext(k, c).value;
    CurrentFacts(k0);
    PointerIs(k0, va);
    var slot := k0.procs[0].section.value;
    FindIs(k0.procs, 1);
    ReapFacts(k0, 1, slot, va, WordBytes(k0.procs[1].status.wstatus));
    StoreKeeps(k0, slot, va, WordBytes(k0.procs[1].status.wstatus));
    WaitIdIs(k0, 2, PointerTo(slot, va));
    var s := Dispatch(k0, trap.call).value;
    StepIs(k, trap, s);
    k1 := s.(current := 0);
    OneNamed(k1.procs[0].files, f);
    assert k1.procs[..0] == [];
  }

  /** From boot: init opens a file, forks, the child exits and is reaped, and init closes the file. No
      other descriptor names it, yet the close stops the machine: exit has dropped no count. */
  lemma LastCloseHalts(context: Context, tables: seq<Table>, memory: seq<Section>, reset: seq<Byte>, tty: nat, f: nat,
                       c: Context, path: Text, va: Word, status: Word) returns (k4: State)
    requires |tables| == |memory| == SLOTS && |reset| == 4 && f != tty && !BadPath(path) && !BadPointer(va)
    ensures var k := Boot(context, tables, memory, reset, tty);
            var events := [TrapEvent(Syscall(c, OpenCall(path, Done(Some(f))))), TrapEvent(Syscall(c, ForkCall)),
                           TrapEvent(Syscall(c, ExitCall(status)))] + [TrapEvent(Syscall(c, WaitPidCall(2, va)))];
            && Good(k) && RunAllowed(k, events) && Run(k, events) == Ok(k4)
    ensures Good(k4) && k4.procs[k4.current].files[3] == Some(f) && Uses(k4.procs, f) == 1
    ensures Step(k4, Syscall(c, CloseCall(3))) == Halted(ReleaseShared)
  {
    var k := Boot(context, tables, memory, reset, tty);
    BootGood(context, tables, memory, reset, tty);
    var k3 := OpenForkExit(k, f, c, c, c, path, status);
    k4 := ReapLeavesCount(k3, f, c, va);
    RunExtends(k, [TrapEvent(Syscall(c, OpenCall(path, Done(Some(f))))), TrapEvent(Syscall(c, ForkCall)),
                   TrapEvent(Syscall(c, ExitCall(status)))], TrapEvent(Syscall(c, WaitPidCall(2, va))));
    CloseHaltsHere(k4, c);
  }

  lemma CloseHaltsHere(k: State, c: Context)
    requires Good(k) && CloseHalts(k, 3)
    ensures Step(k, Syscall(c, CloseCall(3))) == Halted(ReleaseShared)
  {
    SaveKeeps(k, c, CloseCall(3));
    CloseSound(SaveContext(k, c).value, 3);
  }

  // ---- a zombie below the caller ----

  /** Init has two children and the first of them runs; from boot: fork, a preemption of the child, fork. */
  lemma TwoChildren(context: Context, tables: seq<Table>, memory: seq<Section>, reset: seq<Byte>, tty: nat, c: Context)
      returns (k3: State)
    requires |tables| == |memory| == SLOTS && |reset| == 4
    ensures var k := Boot(context, tables, memory, reset, tty);
            var events := [TrapEvent(Syscall(c, ForkCall)), TrapEvent(Preempt(c)), TrapEvent(Syscall(c, ForkCall))];
            Good(k) && RunAllowed(k, events) && Run(k, events) == Ok(k3)
    ensures Good(k3) && k3.current == 1 && |k3.procs| == 3
    ensures forall i :: 0 <= i < 3 ==> k3.procs[i].id == i + 1 && k3.procs[i].status.Scheduled?
    ensures k3.procs[1].parent == 1 && k3.procs[2].parent == 1
  {
    var k := Boot(context, tables, memory, reset, tty);
    BootGood(context, tables, memory, reset, tty);
    var f1 := ForkServed(k, c);
    StepIs(k, Syscall(c, ForkCall), f1);
    var k1 := f1.(current := 1);
    var f2 := PreemptServed(k1, c);
    StepIs(k1, Preempt(c), f2);
    var k2 := f2.(current := 0);
    var f3 := ForkServed(k2, c);
    StepIs(k2, Syscall(c, ForkCall), f3);
    k3 := f3.(current := 1);
    ThreeEvents(k, TrapEvent(Syscall(c, ForkCall)), k1, TrapEvent(Preempt(c)), k2, TrapEvent(Syscall(c, ForkCall)), k3);
  }

  /** From boot: init forks 2 and 3, 2 exits, and 3, which runs next, waits for 2. The machine stops. */
  lemma WaitForSiblingHalts(context: Context, tables: seq<Table>, memory: seq<Section>, reset: seq<Byte>, tty: nat,
                            c: Context, status: Word, va: Word) returns (k4: State)
    requires |tables| == |memory| == SLOTS && |reset| == 4 && !BadPointer(va)
    ensures var k := Boot(context, tables, memory, reset, tty);
            var events := [TrapEvent(Syscall(c, ForkCall)), TrapEvent(Preempt(c)), TrapEvent(Syscall(c, ForkCall))]
                          + [TrapEvent(Syscall(c, ExitCall(status)))];
            Good(k) && RunAllowed(k, events) && Run(k, events) == Ok(k4)
    ensures Good(k4) && k4.procs[k4.current].id == 3 && ReapsBelow(k4, 2)
    ensures Step(k4, Syscall(c, WaitPidCall(2, va))) in {Halted(AssertFailed), Halted(BadCurrent)}
  {
    var k3 := TwoChildren(context, tables, memory, reset, tty, c);
    var k := Boot(context, tables, memory, reset, tty);
    var events := [TrapEvent(Syscall(c, ForkCall)), TrapEvent(Preempt(c)), TrapEvent(Syscall(c, ForkCall))];
    var s := ExitServed(k3, c, status);
    var trap := Syscall(c, ExitCall(status));
    StepIs(k3, trap, s);
    k4 := s.(current := 2);
    RunExtends(k, events, TrapEvent(trap));
    assert k4.procs[1].id == 2 && k4.procs[1].status.Exited?;
    SaveKeeps(k4, c, WaitPidCall(2, va));
    ReapBelowHalts(SaveContext(k4, c).value, 1, va);
  }

  // ---- a buffer across sections ----

  /** From boot: init forks, runs again and reads two bytes to the last address of its section. The
      second one becomes the first byte that the child sees. */
  lemma ReadOverwritesChild(context: Context, tables: seq<Table>, memory: seq<Section>, reset: seq<Byte>, tty: nat,
                            c: Context, b0: Byte, b1: Byte) returns (k2: State)
    requires |tables| == |memory| == SLOTS && |reset| == 4
    ensures var k := Boot(context, tables, memory, reset, tty);
            Good(k) && Step(k, Syscall(c, ForkCall)).Ok? && Good(Step(k, Syscall(c, ForkCall)).value)
            && Step(Step(k, Syscall(c, ForkCall)).value, Preempt(c)) == Ok(k2)
    ensures Good(k2) && k2.current == 0 && |k2.procs| == 2 && HasFile(k2.procs[0], 0)
    ensures k2.procs[0].section == Some(4) && k2.procs[1].section == Some(5) && Live(k2.procs[1])
    ensures var r := Read(k2, 0, LAST_BYTE, Done(([b0, b1], 2)));
            r.Ok? && Sees(r.value.0, 1, 0) == Some(b1)
  {
    var k := Boot(context, tables, memory, reset, tty);
    BootGood(context, tables, memory, reset, tty);
    FirstClearUnique(k.sectionBits, 5);
    var f1 := ForkServed(k, c);
    StepIs(k, Syscall(c, ForkCall), f1);
    var k1 := f1.(current := 1);
    var f2 := PreemptServed(k1, c);
    StepIs(k1, Preempt(c), f2);
    k2 := f2.(current := 0);
    ReadHitsNeighbour(k2, 0, b0, b1, 2, 1);
  }

  // ---- too many arguments ----

  /** Right after boot init calls EXEC with nine empty strings: the copy of the last one runs past the
      places of the kernel. */
  lemma NineArgumentsOverwrite(context: Context, tables: seq<Table>, memory: seq<Section>, reset: seq<Byte>, tty: nat, c: Context,
                               image: Outcome<Option<(Section, Context)>>)
    requires |tables| == |memory| == SLOTS && |reset| == 4
    ensures var k, text := Boot(context, tables, memory, reset, tty), Text(PROCESS_VA, 0);
            Step(k, Syscall(c, ExecCall(text, PROCESS_VA, [text, text, text, text, text, text, text, text, text], image)))
              == Halted(KernelOverwritten)
  {
    var k, text := Boot(context, tables, memory, reset, tty), Text(PROCESS_VA, 0);
    BootGood(context, tables, memory, reset, tty);
    RegistersKeep(k, 0, c);
    var strings := [text, text, text, text, text, text, text, text, text];
    NinthStringOverruns(SaveContext(k, c).value, text, PROCESS_VA, strings, image);
  }
}
