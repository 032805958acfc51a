/** What a trap of the running process does to everybody else: nothing, save that exit may
    wake the parent and hands orphans to init. */
module Others {
  import opened Bytes
  import opened Wrappers
  import opened Mmu
  import opened Kernel
  import opened TableInvariant
  import opened MemoryInvariant
  import opened Steps

  /** Position of a process relative to the running one: no further away than before, unless
      the table has grown by one entry. */
  predicate NoFurther(k: State, q: nat, k1: State, q1: nat) {
    && k.current < |k.procs| && q < |k.procs| && k1.current < |k1.procs| && q1 < |k1.procs|
    && var d, d1 := Distance(|k.procs|, k.current, q), Distance(|k1.procs|, k1.current, q1);
    || (|k1.procs| <= |k.procs| && d1 <= d)
    || (|k1.procs| == |k.procs| + 1 && d1 <= d + 1)
  }

  /** The memory of process q at index q1 of the new state is what it was. */
  predicate SameMemory(k: State, q: nat, k1: State) {
    && |k.memory| == |k1.memory| == SLOTS && q < |k.procs|
    && (k.procs[q].section.Some? && k.procs[q].section.value < SLOTS ==>
      k1.memory[k.procs[q].section.value] == k.memory[k.procs[q].section.value])
  }

  lemma OwnSectionsApart(k: State, q: nat)
    requires Ready(k) && q < |k.procs| && q != k.current
    ensures k.procs[q].section != k.procs[k.current].section
    ensures k.procs[q].section.Some? ==> k.procs[q].section.value < SLOTS && k.sectionBits[k.procs[q].section.value]
    ensures k.procs[k.current].section.Some?
  {
    assert Owns(k, q) && Owns(k, k.current);
    if k.procs[q].section.Some? { assert SectionHeld(k.procs, k.procs[q].section.value); }
  }

  /** The status word of a suspended process lies inside its own section. */
  predicate RefInside(p: Process) {
    p.status.Suspended? ==>
      && p.section.Some? && InSection(p.status.wstatusRef, 4) && SlotOf(p.status.wstatusRef) == p.section.value
  }

  predicate Contained(k: State) { forall i :: 0 <= i < |k.procs| ==> RefInside(k.procs[i]) }

  /** The bytes that the call delivers lie inside the section of the caller. */
  predicate BufferFits(k: State, call: Call) {
    match call
    case ReadCall(_, va, Done((bytes, _))) => bytes == [] || BufferOk(va, |bytes|)
    case WaitPidCall(pid, va) => BufferOk(va, 4) || pid == -1 || FindPid(k.procs, pid) == None
    case _ => true
  }

  /** The entry that a WAITPID reaps, if any. */
  predicate Reaps(k: State, call: Call, q: nat)
    requires q < |k.procs|
  {
    call.WaitPidCall? && k.procs[q].status.Exited? && k.procs[q].id == call.pid
  }

  /** Removing an entry above the current one moves the entries beyond it down by one. */
  lemma WithoutMoves(k: State, k1: State, j: nat, q: nat) returns (q1: nat)
    requires k.current < j < |k.procs| && q < |k.procs| && q != k.current && q != j
    requires k1.procs == Without(k.procs, j) && k1.current == k.current
    ensures NoFurther(k, q, k1, q1) && k1.procs[q1] == k.procs[q]
  {
    q1 := if q < j then q else q - 1;
    WithoutAt(k.procs, j, q1);
  }

  /** The three outcomes of waiting. */
  lemma WaitIdIs(k: State, pid: int, ref: nat)
    requires Shape(k) && k.current < |k.procs|
    ensures var f := FindPid(k.procs, pid);
            if pid == -1 || f.None? then WaitId(k, pid, ref) == Ok((k, ERR))
            else if Live(k.procs[f.value]) then
              WaitId(k, pid, ref) == Ok((SetProc(k, k.current, k.procs[k.current].(status := Suspended(pid, ref))), 0))
            else
              var stored := Store(k, ref, WordBytes(k.procs[f.value].status.wstatus));
              stored.Ok? && k.procs[f.value].section == None && k.procs[f.value].table == None && f.value != k.current ==>
                WaitId(k, pid, ref) == Ok((stored.value.(procs := Without(k.procs, f.value)), pid % ADDRESS_LIMIT))
  {
  }

  lemma WaitIdOthers(k: State, pid: int, slot: nat, va: Word, q: nat) returns (q1: nat)
    requires Ready(k) && q < |k.procs| && q != k.current && !ReapsBelow(k, pid)
    requires k.procs[k.current].section == Some(slot) && (va == 0 || va / SECTION_SIZE == PROCESS_ENTRY)
    requires !(k.procs[q].status.Exited? && k.procs[q].id == pid && pid != -1)
    ensures WaitId(k, pid, PointerTo(slot, va)).Ok?
    ensures var k1 := WaitId(k, pid, PointerTo(slot, va)).value.0;
            && NoFurther(k, q, k1, q1) && k1.procs[q1] == k.procs[q]
            && (BufferFits(k, WaitPidCall(pid, va)) ==> SameMemory(k, q, k1))
  {
    q1 := q;
    var f := FindPid(k.procs, pid);
    if pid != -1 && f.Some? && !Live(k.procs[f.value]) {
      q1 := ReapOthers(k, f.value, slot, va, q);
    } else {
      WaitIdIs(k, pid, PointerTo(slot, va));
    }
  }

  /** The reap of an exited process above the caller. */
  lemma ReapOthers(k: State, j: nat, slot: nat, va: Word, q: nat) returns (q1: nat)
    requires Ready(k) && q < |k.procs| && q != k.current && q != j && k.current < j < |k.procs|
    requires k.procs[k.current].section == Some(slot) && (va == 0 || va / SECTION_SIZE == PROCESS_ENTRY)
    requires k.procs[j].status.Exited? && k.procs[j].id != -1 && FindPid(k.procs, k.procs[j].id) == Some(j)
    ensures var r := WaitId(k, k.procs[j].id, PointerTo(slot, va));
            && r.Ok? && NoFurther(k, q, r.value.0, q1) && r.value.0.procs[q1] == k.procs[q]
            && (BufferOk(va, 4) ==> SameMemory(k, q, r.value.0))
  {
    var ref, bytes := PointerTo(slot, va), WordBytes(k.procs[j].status.wstatus);
    ReapFacts(k, j, slot, va, bytes);
    WaitIdIs(k, k.procs[j].id, ref);
    var k1 := WaitId(k, k.procs[j].id, ref).value.0;
    q1 := WithoutMoves(k, k1, j, q);
    if BufferOk(va, 4) { StoreSpares(k, slot, va, bytes, q); }
  }

  lemma ReapFacts(k: State, j: nat, slot: nat, va: Word, bytes: seq<Byte>)
    requires Ready(k) && j < |k.procs| && k.procs[j].status.Exited? && k.procs[k.current].section == Some(slot) && |bytes| == 4
    ensures k.procs[j].section == None && k.procs[j].table == None
    ensures var r := Store(k, PointerTo(slot, va), bytes);
            r.Ok? && r.value.procs == k.procs && r.value.current == k.current
  {
    CurrentFacts(k);
    assert Owns(k, j);
    StoreKeeps(k, slot, va, bytes);
  }

  /** A store that fits leaves the section of every other process alone. */
  lemma StoreSpares(k: State, slot: nat, va: Word, bytes: seq<Byte>, q: nat)
    requires Ready(k) && q < |k.procs| && q != k.current && k.procs[k.current].section == Some(slot)
    requires BufferOk(va, |bytes|)
    ensures var r := Store(k, PointerTo(slot, va), bytes); r.Ok? && SameMemory(k, q, r.value)
  {
    CurrentFacts(k);
    OwnSectionsApart(k, q);
    InOwnSection(slot, va, |bytes|);
    StoreInside(k, PointerTo(slot, va), bytes);
  }

  lemma WaitPidOthers(k: State, pid: int, va: Word, q: nat) returns (q1: nat)
    requires Ready(k) && q < |k.procs| && q != k.current && !ReapsBelow(k, pid) && !BadPointer(va)
    requires !Reaps(k, WaitPidCall(pid, va), q)
    ensures WaitPid(k, pid, va).Ok?
    ensures var k1 := WaitPid(k, pid, va).value.0;
            && NoFurther(k, q, k1, q1) && k1.procs[q1] == k.procs[q]
            && (BufferFits(k, WaitPidCall(pid, va)) ==> SameMemory(k, q, k1))
  {
    PointerIs(k, va);
    q1 := WaitIdOthers(k, pid, k.procs[k.current].section.value, va, q);
  }

  lemma ForkOthers(k: State, q: nat)
    requires Ready(k) && q < |k.procs| && q != k.current
    ensures Fork(k).Ok?
    ensures var k1 := Fork(k).value.0;
            NoFurther(k, q, k1, q) && k1.procs[q] == k.procs[q] && SameMemory(k, q, k1)
  {
    ForkSound(k);
    OwnSectionsApart(k, q);
    if |k.procs| < MAX_PROCS {
      CurrentFacts(k);
      ForkFindsSlots(k);
    }
  }

  lemma ReadOthers(k: State, fd: nat, va: Word, data: Outcome<(seq<Byte>, Word)>, q: nat)
    requires Ready(k) && q < |k.procs| && q != k.current && Read(k, fd, va, data).Ok?
    ensures var k1 := Read(k, fd, va, data).value.0;
            && NoFurther(k, q, k1, q) && k1.procs[q] == k.procs[q]
            && (BufferFits(k, ReadCall(fd, va, data)) ==> SameMemory(k, q, k1))
  {
    PointerIs(k, va);
    if HasFile(k.procs[k.current], fd) && data.Done? {
      CurrentFacts(k);
      var s := k.procs[k.current].section.value;
      StoreKeeps(k, s, va, data.value.0);
      if data.value.0 != [] && BufferOk(va, |data.value.0|) { StoreSpares(k, s, va, data.value.0, q); }
    }
  }

  lemma ExecOthers(k: State, path: Text, argv: Word, strings: seq<Text>, image: Outcome<Option<(Section, Context)>>, q: nat)
    requires Ready(k) && q < |k.procs| && q != k.current && ExecPath(k, path, argv, strings, image).Ok?
    ensures var k1 := ExecPath(k, path, argv, strings, image).value.0;
            NoFurther(k, q, k1, q) && k1.procs[q] == k.procs[q] && SameMemory(k, q, k1)
  {
    CurrentFacts(k);
    OwnSectionsApart(k, q);
  }

  /** A completed call other than EXIT leaves every other entry alone, and its memory too when what
      the call delivers fits. */
  lemma HandleOthers(k: State, call: Call, q: nat) returns (q1: nat)
    requires Ready(k) && Fresh(k, call) && !call.ExitCall? && Handle(k, call).Ok?
    requires call.WaitPidCall? ==> !ReapsBelow(k, call.pid)
    requires q < |k.procs| && q != k.current && !Reaps(k, call, q)
    ensures var k1 := Handle(k, call).value.0;
            && NoFurther(k, q, k1, q1) && k1.procs[q1] == k.procs[q]
            && (BufferFits(k, call) ==> SameMemory(k, q, k1))
  {
    q1 := q;
    match call
    case ForkCall => ForkOthers(k, q);
    case WaitPidCall(pid, va) =>
      PointerIs(k, va);
      q1 := WaitPidOthers(k, pid, va, q);
    case ReadCall(fd, va, data) => ReadOthers(k, fd, va, data, q);
    case OpenCall(path, file) => PointerIs(k, path.va);
    case WriteCall(fd, va, answer) => WriteSound(k, fd, va, answer);
    case MakeCall(path, answer) => PointerIs(k, path.va);
    case ExecCall(path, argv, strings, image) => ExecOthers(k, path, argv, strings, image, q);
    case _ =>
  }

  /** The bytes of a section outside [offset, offset + size). */
  predicate SameOutside(a: Section, b: Section, offset: nat, size: nat) {
    forall i :: 0 <= i < SECTION_SIZE && !(offset <= i < offset + size) ==> a[i] == b[i]
  }

  /** What exit does to another entry: an orphan goes to init, a waiting parent is woken with
      the pid in r0 and the status in its own memory, anyone else keeps all it has. The part about
      memory presumes that status words lie inside the sections of their processes. */
  predicate ExitEffect(k: State, q: nat, status: Word, k1: State, q1: nat) {
    && k.current < |k.procs| && q < |k.procs| && q1 < |k1.procs| && |k.memory| == |k1.memory| == SLOTS
    && var p, me := k.procs[q], k.procs[k.current];
    var adopted := if p.parent == me.id then p.(parent := INIT_PID) else p;
    if ParentWakes(k, q) then
      && k1.procs[q1] == WithR0(adopted.(status := Scheduled), me.id % ADDRESS_LIMIT)
      && (RefInside(p) ==> StatusDelivered(k, q, status, k1))
    else k1.procs[q1] == adopted && (Contained(k) ==> SameMemory(k, q, k1))
  }

  /** Process q waits for the running one and is its parent. */
  predicate ParentWakes(k: State, q: nat)
    requires k.current < |k.procs| && q < |k.procs|
  {
    ParentWaits(k, q) && k.procs[q].id == k.procs[k.current].parent
  }

  /** The status stands in the memory of q where q asked for it, and nothing else of it changed. */
  predicate StatusDelivered(k: State, q: nat, status: Word, k1: State)
    requires q < |k.procs|
  {
    var p := k.procs[q];
    && |k.memory| == |k1.memory| == SLOTS
    && p.status.Suspended? && p.section.Some? && InSection(p.status.wstatusRef, 4) && SlotOf(p.status.wstatusRef) == p.section.value
    && var s, o := p.section.value, OffsetOf(p.status.wstatusRef);
    && k1.memory[s][o..o + 4] == WordBytes(status)
    && SameOutside(k.memory[s], k1.memory[s], o, 4)
  }

  lemma SpliceParts(s: Section, o: nat, bytes: seq<Byte>)
    requires o + |bytes| <= SECTION_SIZE
    ensures Splice(s, o, bytes)[o..o + |bytes|] == bytes
    ensures SameOutside(s, Splice(s, o, bytes), o, |bytes|)
  {
  }

  /** The entry of q after exit, computed. */
  lemma ExitResultAt(k: State, status: Word, j: nat, q: nat) returns (q1: nat)
    requires Shape(k) && 0 < k.current < |k.procs| && j < k.current && q < |k.procs| && q != k.current
    requires k.procs[k.current].section.Some? && k.procs[k.current].table.Some?
    requires ParentWaits(k, j) ==> Store(k, k.procs[j].status.wstatusRef, WordBytes(status)).Ok?
    ensures var k1 := ExitResult(k, status, j);
            && NoFurther(k, q, k1, q1)
            && var p, me := k.procs[q], k.procs[k.current];
            var adopted := if p.parent == me.id then p.(parent := INIT_PID) else p;
            k1.procs[q1] == if q == j && ParentWaits(k, j) then WithR0(adopted.(status := Scheduled), me.id % ADDRESS_LIMIT)
                            else adopted
  {
    var c := k.current;
    q1 := q;
    var k1 := MarkExited(k, status);
    if ParentWaits(k, j) {
      q1 := if q < c then q else q - 1;
      WithoutAt(Woken(k1, j, k.procs[c].id), c, q1);
    }
  }

  lemma ExitMemoryAt(k: State, status: Word, j: nat, q: nat)
    requires Ready(k) && j < k.current && RefInside(k.procs[j]) && q < |k.procs| && q != k.current
    requires k.procs[k.current].section.Some? && k.procs[k.current].table.Some?
    requires ParentWaits(k, j) ==> Store(k, k.procs[j].status.wstatusRef, WordBytes(status)).Ok?
    ensures var k1 := ExitResult(k, status, j);
            if q == j && ParentWaits(k, j) then StatusDelivered(k, q, status, k1) else SameMemory(k, q, k1)
  {
    if ParentWaits(k, j) {
      assert Owns(k, j) && Owns(k, q);
      StoreInside(k, k.procs[j].status.wstatusRef, WordBytes(status));
      if q == j {
        SpliceParts(k.memory[k.procs[j].section.value], OffsetOf(k.procs[j].status.wstatusRef), WordBytes(status));
      }
    }
  }

  lemma ExitOthers(k: State, status: Word, q: nat) returns (q1: nat)
    requires Ready(k) && k.current != 0 && q < |k.procs| && q != k.current
    ensures Exit(k, status).Ok?
    ensures var k1 := Exit(k, status).value;
            NoFurther(k, q, k1, q1) && ExitEffect(k, q, status, k1, q1)
  {
    var j := ExitIs(k, status);
    if ParentWakes(k, q) { assert q == j; }
    q1 := ExitResultAt(k, status, j, q);
    if RefInside(k.procs[j]) { ExitMemoryAt(k, status, j, q); }
  }
}
