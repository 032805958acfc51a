/** The meeting of waitpid and exit: the order does not matter, and what happens outside the
    rule "only a direct child can be awaited", which the code does not check. */
module WaitExit {
  import opened Bytes
  import opened Wrappers
  import opened Mmu
  import opened Kernel
  import opened TableInvariant
  import opened MemoryInvariant
  import opened Steps
  import opened Others

  /** The same state with process i on the processor. */
  function As(k: State, i: nat): State { k.(current := i) }

  lemma AsGood(k: State, i: nat)
    requires Sound(k) && i < |k.procs| && k.procs[i].status.Scheduled?
    ensures Good(As(k, i))
  {
    MemoryFrame(k, As(k, i));
  }

  /** A scheduled parent at i with a scheduled child at j. */
  predicate Family(k: State, i: nat, j: nat) {
    && i < |k.procs| && j < |k.procs|
    && k.procs[i].status.Scheduled? && k.procs[j].status.Scheduled?
    && k.procs[j].parent == k.procs[i].id
  }

  lemma FamilyOrder(k: State, i: nat, j: nat)
    requires Good(k) && Family(k, i, j)
    ensures i < j
  {
    if j == 0 {
      IdPositive(k.procs, k.idGen, i);
    } else {
      assert ParentOk(k.procs, j);
    }
  }

  /** Where the parent's status pointer leads. */
  function StatusAddress(k: State, i: nat, va: Word): nat
    requires i < |k.procs| && k.procs[i].section.Some?
  {
    SectionAddress(k.procs[i].section.value) + va % SECTION_SIZE
  }

  /** A wait of the running process, computed: pid is at index j, the pointer leads to a. */
  lemma ServeWaitLive(k: State, cp: Context, j: nat, va: Word, a: nat)
    requires Shape(k) && k.current < |k.procs| && j < |k.procs| && k.current != j
    requires k.procs[k.current].table.Some? && k.procs[k.current].table.value < SLOTS
    requires Translate(k.tables[k.procs[k.current].table.value], va) == Physical(a)
    requires Ordered(k.procs) && k.procs[j].id != -1 && Live(k.procs[j])
    ensures Serve(k, Syscall(cp, WaitPidCall(k.procs[j].id, va))) ==
            Ok(k.(procs := k.procs[k.current := k.procs[k.current].(context := cp.(r0 := 0),
                                    status := Suspended(k.procs[j].id, a))]))
  {
    var pid, i := k.procs[j].id, k.current;
    var k1 := SetProc(k, i, k.procs[i].(context := cp));
    FindIs(k1.procs, j);
    WaitIdIs(k1, pid, a);
    var k2 := SetProc(k1, i, k1.procs[i].(status := Suspended(pid, a)));
    assert Handle(k1, WaitPidCall(pid, va)) == Ok((k2, 0));
    var k3 := SetProc(k2, i, WithR0(k2.procs[i], 0));
    assert Dispatch(k1, WaitPidCall(pid, va)) == Ok(k3);
    assert k3.procs == k.procs[i := k.procs[i].(context := cp.(r0 := 0), status := Suspended(pid, a))];
  }

  lemma ServeWaitZombie(k: State, cp: Context, j: nat, va: Word, a: nat)
    requires Shape(k) && k.current < j < |k.procs|
    requires k.procs[k.current].table.Some? && k.procs[k.current].table.value < SLOTS
    requires Translate(k.tables[k.procs[k.current].table.value], va) == Physical(a)
    requires Ordered(k.procs) && k.procs[j].id != -1 && k.procs[j].status.Exited?
    requires k.procs[j].section == None && k.procs[j].table == None && InSection(a, 4) && SlotOf(a) >= KERNEL_SECTIONS
    ensures Serve(k, Syscall(cp, WaitPidCall(k.procs[j].id, va))) ==
            Ok(k.(procs := Without(k.procs[k.current := k.procs[k.current].(context := cp.(r0 := k.procs[j].id % ADDRESS_LIMIT))], j),
                  memory := PutIn(k.memory, a, WordBytes(k.procs[j].status.wstatus))))
  {
    var pid, i := k.procs[j].id, k.current;
    var k1 := SetProc(k, i, k.procs[i].(context := cp));
    FindIs(k1.procs, j);
    WaitIdIs(k1, pid, a);
    StoreInside(k1, a, WordBytes(k.procs[j].status.wstatus));
    var memory := PutIn(k.memory, a, WordBytes(k.procs[j].status.wstatus));
    var k2 := k1.(procs := Without(k1.procs, j), memory := memory);
    assert Handle(k1, WaitPidCall(pid, va)) == Ok((k2, pid % ADDRESS_LIMIT));
    WithoutAt(k1.procs, j, i);
    var k3 := SetProc(k2, i, WithR0(k2.procs[i], pid % ADDRESS_LIMIT));
    assert Dispatch(k1, WaitPidCall(pid, va)) == Ok(k3);
    var x := k.procs[i := k.procs[i].(context := cp.(r0 := pid % ADDRESS_LIMIT))];
    assert k3.procs == Without(x, j);
  }

  /** An exit of the running process through the system call, computed. */
  lemma ServeExit(k: State, cc: Context, status: Word, j: nat)
    requires Shape(k) && 0 < k.current < |k.procs| && k.procs[k.current].id != INIT_PID && Ordered(k.procs)
    requires k.procs[k.current].section.Some? && k.procs[k.current].table.Some?
    requires j < k.current && k.procs[j].id == k.procs[k.current].parent
    requires ParentWaits(k, j) ==> InSection(k.procs[j].status.wstatusRef, 4) && SlotOf(k.procs[j].status.wstatusRef) >= KERNEL_SECTIONS
    ensures var k1 := SetProc(k, k.current, k.procs[k.current].(context := cc));
            && Shape(k1)
            && (ParentWaits(k, j) ==>
                  Store(k1, k.procs[j].status.wstatusRef, WordBytes(status))
                  == Ok(k1.(memory := PutIn(k.memory, k.procs[j].status.wstatusRef, WordBytes(status)))))
            && var r := ExitResult(k1, status, j);
            Serve(k, Syscall(cc, ExitCall(status))) == if ParentWaits(k, j) then Ok(r) else SetStatus(r, 0)
  {
    var c := k.current;
    var k1 := SetProc(k, c, k.procs[c].(context := cc));
    assert Shape(k1);
    var t := ExitedTable(k1.procs, c, status);
    assert t[c].parent == k.procs[c].parent by {
      ExitedTableAt(k1.procs, c, status, c);
    }
    forall q | 0 <= q < |k.procs| ensures t[q].id == k.procs[q].id { ExitedEntry(k1.procs, c, status, q); }
    FindIs(t, j);
    if ParentWaits(k, j) { StoreInside(k1, k.procs[j].status.wstatusRef, WordBytes(status)); }
    ExitComputes(k1, status, j);
    if ParentWaits(k, j) {
      ExitedEntry(k1.procs, c, status, c - 1);
      WithoutAt(Woken(MarkExited(k1, status), j, k.procs[c].id), c, c - 1);
    } else {
      ExitedEntry(k1.procs, c, status, c);
    }
  }

  /** The wait of the parent while the child lives: it is suspended, nothing else changes. */
  lemma WaitFirst(k: State, i: nat, j: nat, cp: Context, va: Word)
    requires Good(k) && Family(k, i, j) && BufferOk(va, 4)
    ensures k.procs[i].section.Some?
    ensures Serve(As(k, i), Syscall(cp, WaitPidCall(k.procs[j].id, va))) ==
            Ok(As(k, i).(procs := k.procs[i := k.procs[i].(context := cp.(r0 := 0),
                                    status := Suspended(k.procs[j].id, StatusAddress(k, i, va)))]))
  {
    FamilyOrder(k, i, j);
    AsGood(k, i);
    CurrentFacts(As(k, i));
    ProcTableTranslate(k.procs[i].section.value, va);
    IdPositive(k.procs, k.idGen, j);
    ServeWaitLive(As(k, i), cp, j, va, StatusAddress(k, i, va));
  }

  /** The table that both orders lead to: the parent runs again with the pid in r0, the orphans
      belong to init, the child is gone. */
  function Settled(k: State, i: nat, j: nat, cp: Context): seq<Process>
    requires i < |k.procs| && j < |k.procs|
  {
    var pid := k.procs[j].id;
    Without(Reparented(k.procs[i := k.procs[i].(context := cp.(r0 := pid % ADDRESS_LIMIT))], pid), j)
  }

  /** The whole state that both orders lead to, but for the index of the running process. */
  function SettledState(k: State, i: nat, j: nat, cp: Context, va: Word, status: Word): State
    requires Shape(k) && i < |k.procs| && j < |k.procs| && k.procs[i].section.Some?
    requires k.procs[j].section.Some? && k.procs[j].section.value < SLOTS
    requires k.procs[j].table.Some? && k.procs[j].table.value < SLOTS
    requires InSection(StatusAddress(k, i, va), 4)
  {
    k.(procs := Settled(k, i, j, cp),
       current := 0,
       sectionBits := k.sectionBits[k.procs[j].section.value := false],
       tableBits := k.tableBits[k.procs[j].table.value := false],
       memory := PutIn(k.memory, StatusAddress(k, i, va), WordBytes(status)))
  }

  lemma ReparentedAt(procs: seq<Process>, pid: int, q: nat)
    requires q < |procs|
    ensures Reparented(procs, pid)[q] == if procs[q].parent == pid then procs[q].(parent := INIT_PID) else procs[q]
  {
  }

  /** Facts about the family that both orders use. */
  lemma FamilyFacts(k: State, i: nat, j: nat, va: Word)
    requires Good(k) && Family(k, i, j) && BufferOk(va, 4)
    ensures i < j
    ensures k.procs[i].section.Some? && k.procs[i].section.value < SLOTS
    ensures k.procs[j].section.Some? && k.procs[j].section.value < SLOTS
    ensures k.procs[j].table.Some? && k.procs[j].table.value < SLOTS
    ensures InSection(StatusAddress(k, i, va), 4) && SlotOf(StatusAddress(k, i, va)) == k.procs[i].section.value >= KERNEL_SECTIONS
    ensures k.procs[i].parent != k.procs[j].id && k.procs[j].parent != k.procs[j].id
    ensures k.procs[j].id != INIT_PID && k.procs[j].id > 0
  {
    FamilyOrder(k, i, j);
    assert Owns(k, i) && Owns(k, j);
    InOwnSection(k.procs[i].section.value, va, 4);
    IdPositive(k.procs, k.idGen, j);
    assert ParentOk(k.procs, j);
    if i > 0 { assert ParentOk(k.procs, i); }
  }

  /** The exit of the child while the parent waits, after WaitFirst. */
  lemma ExitSecond(k: State, i: nat, j: nat, cp: Context, cc: Context, va: Word, status: Word)
    requires Good(k) && Family(k, i, j) && BufferOk(va, 4)
    ensures var k1 := Serve(As(k, i), Syscall(cp, WaitPidCall(k.procs[j].id, va)));
            && k1.Ok? && Shape(k1.value)
            && var k2 := Serve(As(k1.value, j), Syscall(cc, ExitCall(status)));
            && k2.Ok? && k.procs[i].section.Some? && k.procs[j].section.Some? && k.procs[j].table.Some?
            && InSection(StatusAddress(k, i, va), 4)
            && k.procs[j].section.value < SLOTS && k.procs[j].table.value < SLOTS
            && As(k2.value, 0) == SettledState(k, i, j, cp, va, status)
            && k2.value.current == j - 1
  {
    FamilyFacts(k, i, j, va);
    WaitFirst(k, i, j, cp, va);
    WaitFirstSound(k, i, j, cp, va);
    var k1 := Serve(As(k, i), Syscall(cp, WaitPidCall(k.procs[j].id, va))).value;
    ExitSecondIs(k, i, j, cp, cc, va, status, As(k1, j));
  }

  lemma ExitSecondIs(k: State, i: nat, j: nat, cp: Context, cc: Context, va: Word, status: Word, k1: State)
    requires Shape(k) && Shape(k1) && i < j < |k.procs| && Ordered(k1.procs)
    requires k.procs[i].status.Scheduled? && k.procs[i].section.Some? && k.procs[j].parent == k.procs[i].id
    requires k.procs[j].section.Some? && k.procs[j].table.Some? && k.procs[j].section.value < SLOTS && k.procs[j].table.value < SLOTS
    requires InSection(StatusAddress(k, i, va), 4) && SlotOf(StatusAddress(k, i, va)) >= KERNEL_SECTIONS
    requires k.procs[i].parent != k.procs[j].id && k.procs[j].id != INIT_PID
    requires k1 == k.(current := j, procs := k.procs[i := k.procs[i].(context := cp.(r0 := 0),
                                    status := Suspended(k.procs[j].id, StatusAddress(k, i, va)))])
    ensures var k2 := Serve(k1, Syscall(cc, ExitCall(status)));
            && k2.Ok? && k2.value.current == j - 1
            && As(k2.value, 0) == SettledState(k, i, j, cp, va, status)
  {
    ServeExit(k1, cc, status, i);
    var k2 := SetProc(k1, j, k1.procs[j].(context := cc));
    SettledTable(k, i, j, cp, cc, va, status, k2);
  }

  lemma WaitFirstSound(k: State, i: nat, j: nat, cp: Context, va: Word)
    requires Good(k) && Family(k, i, j) && BufferOk(va, 4)
    ensures Serve(As(k, i), Syscall(cp, WaitPidCall(k.procs[j].id, va))).Ok?
    ensures Sound(Serve(As(k, i), Syscall(cp, WaitPidCall(k.procs[j].id, va))).value)
  {
    AsGood(k, i);
    assert WaitAllowed(As(k, i), k.procs[j].id);
    ServeSound(As(k, i), Syscall(cp, WaitPidCall(k.procs[j].id, va)));
  }

  /** The table after the exit of the child, entry by entry. */
  lemma SettledTable(k: State, i: nat, j: nat, cp: Context, cc: Context, va: Word, status: Word, k2: State)
    requires Shape(k) && i < j < |k.procs| && k.procs[i].status.Scheduled? && k.procs[i].section.Some?
    requires k.procs[i].parent != k.procs[j].id && Shape(k2) && k2.current == j
    requires k.procs[j].section.Some? && k.procs[j].table.Some?
    requires k2.procs == k.procs[i := k.procs[i].(context := cp.(r0 := 0),
                                    status := Suspended(k.procs[j].id, StatusAddress(k, i, va)))]
                                [j := k.procs[j].(context := cc)]
    ensures Without(Woken(MarkExited(k2, status), i, k.procs[j].id), j) == Settled(k, i, j, cp)
  {
    var a := Woken(MarkExited(k2, status), i, k.procs[j].id);
    var b := Reparented(k.procs[i := k.procs[i].(context := cp.(r0 := k.procs[j].id % ADDRESS_LIMIT))], k.procs[j].id);
    forall q | 0 <= q < |k.procs| && q != j ensures a[q] == b[q] {}
    assert Without(a, j) == Without(b, j);
  }

  /** The state after the child has exited while the parent runs: a zombie stays. */
  function ZombieState(k: State, j: nat, cc: Context, status: Word): State
    requires Shape(k) && j < |k.procs|
    requires k.procs[j].section.Some? && k.procs[j].section.value < SLOTS
    requires k.procs[j].table.Some? && k.procs[j].table.value < SLOTS
  {
    k.(procs := Reparented(k.procs, k.procs[j].id)[j := k.procs[j].(context := cc.(r0 := 0),
                  status := Exited(status), section := None, table := None)],
       current := j,
       sectionBits := k.sectionBits[k.procs[j].section.value := false],
       tableBits := k.tableBits[k.procs[j].table.value := false])
  }

  lemma ExitFirst(k: State, i: nat, j: nat, cc: Context, status: Word)
    requires Good(k) && Family(k, i, j)
    ensures k.procs[j].section.Some? && k.procs[j].table.Some? && k.procs[j].section.value < SLOTS && k.procs[j].table.value < SLOTS
    ensures Serve(As(k, j), Syscall(cc, ExitCall(status))) == Ok(ZombieState(k, j, cc, status))
    ensures Sound(ZombieState(k, j, cc, status))
  {
    FamilyOrder(k, i, j);
    AsGood(k, j);
    assert Owns(k, j);
    IdPositive(k.procs, k.idGen, j);
    assert ParentOk(k.procs, j);
    ExitFirstIs(As(k, j), i, cc, status);
    ServeSound(As(k, j), Syscall(cc, ExitCall(status)));
  }

  lemma ExitFirstIs(k: State, i: nat, cc: Context, status: Word)
    requires Shape(k) && i < k.current < |k.procs| && Ordered(k.procs)
    requires k.procs[i].status.Scheduled? && k.procs[k.current].parent == k.procs[i].id
    requires k.procs[k.current].section.Some? && k.procs[k.current].table.Some?
    requires k.procs[k.current].section.value < SLOTS && k.procs[k.current].table.value < SLOTS
    requires k.procs[k.current].id != INIT_PID && k.procs[k.current].parent != k.procs[k.current].id
    ensures Serve(k, Syscall(cc, ExitCall(status))) == Ok(ZombieState(k, k.current, cc, status))
  {
    var j := k.current;
    ServeExit(k, cc, status, i);
    var k1 := SetProc(k, j, k.procs[j].(context := cc));
    var m := MarkExited(k1, status);
    var r := SetProc(m, j, WithR0(m.procs[j], 0));
    assert SetStatus(m, 0) == Ok(r);
    var z := ZombieState(k, j, cc, status);
    forall q | 0 <= q < |k.procs| ensures r.procs[q] == z.procs[q] {}
    assert r.procs == z.procs;
    assert ExitResult(k1, status, i) == m;
    assert r == z;
  }

  /** The wait of the parent for the zombie, after ExitFirst. */
  lemma WaitSecond(k: State, i: nat, j: nat, cp: Context, cc: Context, va: Word, status: Word)
    requires Good(k) && Family(k, i, j) && BufferOk(va, 4)
    ensures var k1 := Serve(As(k, j), Syscall(cc, ExitCall(status)));
            && k1.Ok? && Shape(k1.value)
            && var k2 := Serve(As(k1.value, i), Syscall(cp, WaitPidCall(k.procs[j].id, va)));
            && k2.Ok? && k.procs[i].section.Some? && k.procs[j].section.Some? && k.procs[j].table.Some?
            && InSection(StatusAddress(k, i, va), 4)
            && k.procs[j].section.value < SLOTS && k.procs[j].table.value < SLOTS
            && As(k2.value, 0) == SettledState(k, i, j, cp, va, status)
            && k2.value.current == i
  {
    FamilyFacts(k, i, j, va);
    ExitFirst(k, i, j, cc, status);
    var z := ZombieState(k, j, cc, status);
    ReparentedAt(k.procs, k.procs[j].id, i);
    AsGood(z, i);
    CurrentFacts(As(z, i));
    ProcTableTranslate(k.procs[i].section.value, va);
    ServeWaitZombie(As(z, i), cp, j, va, StatusAddress(k, i, va));
    ReapedTable(k, i, j, cp, z.procs);
  }

  lemma ReapedTable(k: State, i: nat, j: nat, cp: Context, procs: seq<Process>)
    requires i < j < |k.procs| && |procs| == |k.procs| && k.procs[i].parent != k.procs[j].id
    requires forall q :: 0 <= q < |k.procs| && q != j ==> procs[q] == Reparented(k.procs, k.procs[j].id)[q]
    ensures Without(procs[i := procs[i].(context := cp.(r0 := k.procs[j].id % ADDRESS_LIMIT))], j) == Settled(k, i, j, cp)
  {
    var pid := k.procs[j].id;
    var a := procs[i := procs[i].(context := cp.(r0 := pid % ADDRESS_LIMIT))];
    var b := Reparented(k.procs[i := k.procs[i].(context := cp.(r0 := pid % ADDRESS_LIMIT))], pid);
    forall q | 0 <= q < |k.procs| && q != j ensures a[q] == b[q] {}
    assert Without(a, j) == Without(b, j);
  }

  /** Exit and wait commute: both orders end in the same table, the same memory, the same free
      slots and the same open files. */
  lemma ExitAndWaitCommute(k: State, i: nat, j: nat, cp: Context, cc: Context, va: Word, status: Word)
    requires Good(k) && Family(k, i, j) && BufferOk(va, 4)
    ensures var wait, exit := Syscall(cp, WaitPidCall(k.procs[j].id, va)), Syscall(cc, ExitCall(status));
            var waited, exited := Serve(As(k, i), wait), Serve(As(k, j), exit);
            && waited.Ok? && exited.Ok? && Shape(waited.value) && Shape(exited.value)
            && var r1, r2 := Serve(As(waited.value, j), exit), Serve(As(exited.value, i), wait);
            && r1.Ok? && r2.Ok? && As(r1.value, 0) == As(r2.value, 0)
  {
    ExitSecond(k, i, j, cp, cc, va, status);
    WaitSecond(k, i, j, cp, cc, va, status);
  }

  /** What the common outcome is: the parent is scheduled with the pid in r0 and the status in
      its memory, the child's entry and slots are gone, nobody else's registers changed. */
  lemma SettledMeans(k: State, i: nat, j: nat, cp: Context, va: Word, status: Word, q: nat)
    requires Good(k) && Family(k, i, j) && BufferOk(va, 4) && q < |k.procs| && q != j
    ensures i < j && k.procs[i].section.Some? && k.procs[j].section.Some? && k.procs[j].table.Some?
    ensures k.procs[j].section.value < SLOTS && k.procs[j].table.value < SLOTS && k.procs[i].section.value < SLOTS
    ensures InSection(StatusAddress(k, i, va), 4)
    ensures var r := SettledState(k, i, j, cp, va, status);
            && FindPid(r.procs, k.procs[j].id) == None
            && !r.sectionBits[k.procs[j].section.value] && !r.tableBits[k.procs[j].table.value]
            && r.procs[i].status.Scheduled? && r.procs[i].context.r0 == k.procs[j].id % ADDRESS_LIMIT
            && r.memory[k.procs[i].section.value][va % SECTION_SIZE..va % SECTION_SIZE + 4] == WordBytes(status)
            && var q1 := if q < j then q else q - 1;
            && r.procs[q1].id == k.procs[q].id && r.procs[q1].status == k.procs[q].status
            && (q != i ==> r.procs[q1].context == k.procs[q].context)
  {
    FamilyFacts(k, i, j, va);
    SettledEntries(k, i, j, cp, q);
    SettledEntries(k, i, j, cp, i);
    InOwnSection(k.procs[i].section.value, va, 4);
    SpliceParts(k.memory[k.procs[i].section.value], va % SECTION_SIZE, WordBytes(status));
  }

  lemma SettledEntries(k: State, i: nat, j: nat, cp: Context, q: nat)
    requires Ordered(k.procs) && i < j < |k.procs| && q < |k.procs| && q != j
    ensures var r := Settled(k, i, j, cp);
            && |r| == |k.procs| - 1 && FindPid(r, k.procs[j].id) == None
            && var q1 := if q < j then q else q - 1;
            && r[q1].id == k.procs[q].id && r[q1].status == k.procs[q].status
            && r[q1].context == if q == i then cp.(r0 := k.procs[j].id % ADDRESS_LIMIT) else k.procs[q].context
  {
    var pid := k.procs[j].id;
    var b := Reparented(k.procs[i := k.procs[i].(context := cp.(r0 := pid % ADDRESS_LIMIT))], pid);
    WithoutAt(b, j, if q < j then q else q - 1);
    forall x | 0 <= x < |k.procs| - 1 ensures Without(b, j)[x].id != pid { WithoutAt(b, j, x); }
  }

  // ---- outside the rule ----

  /** Reaping a zombie below the caller compacts the table under current_proc: the handler then
      takes the next process for the caller and its assertion stops the machine. It and a pointer
      that is rejected are the only ways for WAITPID to halt. */
  lemma WaitHaltsIff(k: State, cp: Context, pid: int, va: Word)
    requires Ready(k)
    ensures var r := Serve(k, Syscall(cp, WaitPidCall(pid, va)));
            && (r.Halted? <==> BadPointer(va) || ReapsBelow(k, pid))
            && (BadPointer(va) ==> r == Halted(BadTranslation))
            && (!BadPointer(va) && ReapsBelow(k, pid) ==> r in {Halted(AssertFailed), Halted(BadCurrent)})
  {
    ServeSound(k, Syscall(cp, WaitPidCall(pid, va)));
    SaveKeeps(k, cp, WaitPidCall(pid, va));
    var k1 := SaveContext(k, cp).value;
    PointerIs(k1, va);
    if !BadPointer(va) && ReapsBelow(k1, pid) {
      var j :| 0 <= j < k1.current && k1.procs[j].id == pid && k1.procs[j].status.Exited?;
      ReapBelowHalts(k1, j, va);
    }
  }

  lemma ServeWaitSelf(k: State, cp: Context, va: Word, a: nat)
    requires Shape(k) && k.current < |k.procs| && Live(k.procs[k.current])
    requires k.procs[k.current].table.Some? && k.procs[k.current].table.value < SLOTS
    requires Translate(k.tables[k.procs[k.current].table.value], va) == Physical(a)
    requires Ordered(k.procs) && k.procs[k.current].id != -1
    ensures Serve(k, Syscall(cp, WaitPidCall(k.procs[k.current].id, va))) ==
            Ok(k.(procs := k.procs[k.current := k.procs[k.current].(context := cp.(r0 := 0),
                                    status := Suspended(k.procs[k.current].id, a))]))
  {
    var pid, i := k.procs[k.current].id, k.current;
    var k1 := SetProc(k, i, k.procs[i].(context := cp));
    FindIs(k1.procs, i);
    WaitIdIs(k1, pid, a);
    var k2 := SetProc(k1, i, k1.procs[i].(status := Suspended(pid, a)));
    var k3 := SetProc(k2, i, WithR0(k2.procs[i], 0));
    assert Dispatch(k1, WaitPidCall(pid, va)) == Ok(k3);
    assert k3.procs == k.procs[i := k.procs[i].(context := cp.(r0 := 0), status := Suspended(pid, a))];
  }

  /** The failure is real: init alone, waiting for itself, stops the machine. */
  lemma InitWaitingForItselfDeadlocks(k: State, cp: Context, va: Word)
    requires Good(k) && |k.procs| == 1 && BufferOk(va, 4)
    ensures Step(k, Syscall(cp, WaitPidCall(INIT_PID, va))) == Halted(NoScheduled)
  {
    CurrentFacts(k);
    ProcTableTranslate(k.procs[0].section.value, va);
    ServeWaitSelf(k, cp, va, StatusAddress(k, 0, va));
    var k1 := Serve(k, Syscall(cp, WaitPidCall(INIT_PID, va))).value;
    assert SelectLoop(k1.procs, 0, 1) == Halted(NoScheduled);
  }
}
