/** Whole runs of the kernel from boot: what always holds, who always gets to run. */
module Runs {
  import opened Bytes
  import opened Wrappers
  import opened Mmu
  import opened Kernel
  import opened TableInvariant
  import opened MemoryInvariant
  import opened FileInvariant
  import opened Steps
  import opened Others

  // ---- boot ----

  /** scheduler_start: one process, the three standard descriptors on one terminal file. */
  function Boot(context: Context, tables: seq<Table>, memory: seq<Section>, reset: seq<Byte>, tty: nat): State
    requires |tables| == |memory| == SLOTS && |reset| == 4
  {
    var files := seq(MAX_FDS, i => if i < 3 then Some(tty) else None);
    State([Process(context, INIT_PID, 0, Scheduled, Some(KERNEL_TABLES), Some(KERNEL_SECTIONS), files)],
          0, 1,
          seq(SLOTS, i => i <= KERNEL_SECTIONS), seq(SLOTS, i => i <= KERNEL_TABLES),
          tables[KERNEL_TABLES := ProcTable(KERNEL_SECTIONS)], memory, reset, map[tty := 3])
  }

  lemma {:induction false} NoUse(files: seq<Option<nat>>, f: nat)
    requires forall i :: 0 <= i < |files| ==> files[i] == None
    ensures FdUses(files, f) == 0
  {
    if files != [] { NoUse(files[..|files| - 1], f); }
  }

  lemma {:induction false} FdUsesConcat(a: seq<Option<nat>>, b: seq<Option<nat>>, f: nat)
    ensures FdUses(a + b, f) == FdUses(a, f) + FdUses(b, f)
  {
    if b == [] {
      assert a + b == a;
    } else {
      assert (a + b)[..|a + b| - 1] == a + b[..|b| - 1];
      FdUsesConcat(a, b[..|b| - 1], f);
    }
  }

  lemma OneUse(x: Option<nat>, f: nat)
    ensures FdUses([x], f) == if x == Some(f) then 1 else 0
  {
    assert [x][..0] == [];
  }

  /** Three descriptors on the terminal, none on anything else. */
  lemma StandardUses(files: seq<Option<nat>>, tty: nat, f: nat)
    requires |files| == MAX_FDS
    requires forall i :: 0 <= i < MAX_FDS ==> files[i] == if i < 3 then Some(tty) else None
    ensures FdUses(files, f) == if f == tty then 3 else 0
  {
    var one: seq<Option<nat>> := [Some(tty)];
    assert files == one + one + one + files[3..];
    FdUsesConcat(one + one + one, files[3..], f);
    FdUsesConcat(one + one, one, f);
    FdUsesConcat(one, one, f);
    OneUse(Some(tty), f);
    NoUse(files[3..], f);
  }

  lemma BootGood(context: Context, tables: seq<Table>, memory: seq<Section>, reset: seq<Byte>, tty: nat)
    requires |tables| == |memory| == SLOTS && |reset| == 4
    ensures Good(Boot(context, tables, memory, reset, tty)) && Contained(Boot(context, tables, memory, reset, tty))
  {
    var k := Boot(context, tables, memory, reset, tty);
    var p := k.procs[0];
    assert k.procs == [p];
    assert Shape(k);
    assert Owns(k, 0);
    assert SectionHeld(k.procs, KERNEL_SECTIONS) && TableHeld(k.procs, KERNEL_TABLES);
    assert MemoryInv(k);
    assert WaitOk(k.procs, 0);
    assert TableInv(k.procs, k.idGen);
    forall f: nat ensures FileOk(k.procs, k.fdCount, f) {
      StandardUses(p.files, tty, f);
      UsesAppend([], p, f);
      assert k.procs == [] + [p];
    }
  }

  // ---- runs ----

  predicate EventFresh(k: State, e: Event) { e.TrapEvent? ==> TrapFresh(k, e.trap) }

  predicate EventAllowed(k: State, e: Event)
    requires k.current < |k.procs|
  {
    e.TrapEvent? ==> TrapAllowed(k, e.trap)
  }

  /** A user-mode store lands in the section of its process or becomes a fault. */
  lemma UserStoreIs(k: State, va: Word, b: Byte)
    requires Ready(k)
    ensures k.procs[k.current].section.Some? && KERNEL_SECTIONS <= k.procs[k.current].section.value < SLOTS
    ensures var s := k.procs[k.current].section.value;
            UserStore(k, va, b) ==
              if va / SECTION_SIZE == PROCESS_ENTRY then
                Ok(k.(memory := k.memory[s := Splice(k.memory[s], va % SECTION_SIZE, [b])]))
              else Step(k, Fault)
  {
    CurrentFacts(k);
    var s := k.procs[k.current].section.value;
    var i := va / SECTION_SIZE;
    if i < PROCESS_ENTRY {
      EntryFields(i, KERNEL_RW_USER_NONE);
    } else if i == PROCESS_ENTRY {
      EntryFields(PROCESS_ENTRY + s, KERNEL_RW_USER_RW);
      InOwnSection(s, va, 1);
      StoreInside(k, SectionAddress(s) + va % SECTION_SIZE, [b]);
    }
  }

  /** The trap that an event amounts to, None for a store that lands. */
  function TrapOf(e: Event): Option<Trap> {
    match e
    case TrapEvent(trap) => Some(trap)
    case UserWrite(va, _) => if va / SECTION_SIZE == PROCESS_ENTRY then None else Some(Fault)
  }

  lemma NextIs(k: State, e: Event)
    requires Ready(k)
    ensures TrapOf(e).Some? ==> Next(k, e) == Step(k, TrapOf(e).value)
    ensures TrapOf(e).None? ==>
      && Next(k, e).Ok? && Next(k, e).value == k.(memory := Next(k, e).value.memory) && |Next(k, e).value.memory| == SLOTS
  {
    if e.UserWrite? { UserStoreIs(k, e.va, e.b); }
  }

  /** An event stops the machine in a sound state exactly when it is a trap that must. */
  predicate EventHalts(k: State, e: Event)
    requires k.current < |k.procs|
  {
    TrapOf(e).Some? && MustHalt(k, TrapOf(e).value)
  }

  lemma NextKeepsReady(k: State, e: Event)
    requires Ready(k) && EventFresh(k, e)
    ensures Next(k, e).Ok? ==> Ready(Next(k, e).value)
  {
    NextIs(k, e);
    match TrapOf(e)
    case Some(trap) => StepKeepsReady(k, trap);
    case None => ContentsKeep(k, Next(k, e).value.memory);
  }

  /** Every event halts exactly for its named causes or leads to a good state. */
  lemma NextKeepsGood(k: State, e: Event)
    requires Good(k) && EventAllowed(k, e)
    ensures Next(k, e).Halted? <==> EventHalts(k, e)
    ensures Next(k, e).Halted? ==> Reachable(Next(k, e).reason)
    ensures Next(k, e).Ok? ==> Good(Next(k, e).value)
  {
    NextIs(k, e);
    match TrapOf(e)
    case Some(trap) => StepKeepsGood(k, trap);
    case None => ContentsKeep(k, Next(k, e).value.memory);
  }

  /** Files that the VFS opens on the way are fresh. */
  ghost predicate RunFresh(k: State, events: seq<Event>)
    requires Ready(k)
    decreases |events|
  {
    events == [] ||
    (EventFresh(k, events[0]) &&
     (NextKeepsReady(k, events[0]);
      Next(k, events[0]).Ok? ==> RunFresh(Next(k, events[0]).value, events[1..])))
  }

  ghost function Run(k: State, events: seq<Event>): Result<State>
    requires Ready(k) && RunFresh(k, events)
    decreases |events|
  {
    if events == [] then Ok(k)
    else
      NextKeepsReady(k, events[0]);
      match Next(k, events[0])
      case Ok(k1) => Run(k1, events[1..])
      case Halted(r) => Halted(r)
  }

  /** Every WAITPID of the run keeps to the rule in the state where it happens. */
  ghost predicate RunAllowed(k: State, events: seq<Event>)
    requires Good(k)
    ensures RunAllowed(k, events) ==> RunFresh(k, events)
    decreases |events|
  {
    events == [] ||
    (EventAllowed(k, events[0]) &&
     (NextKeepsGood(k, events[0]);
      Next(k, events[0]).Ok? ==> RunAllowed(Next(k, events[0]).value, events[1..])))
  }

  /** Whatever WAITPID names, all but the rule about waiting is kept over every run. */
  lemma {:induction false} RunsStayReady(k: State, events: seq<Event>)
    requires Ready(k) && RunFresh(k, events)
    ensures Run(k, events).Ok? ==> Ready(Run(k, events).value)
    decreases |events|
  {
    if events != [] {
      NextKeepsReady(k, events[0]);
      if Next(k, events[0]).Ok? { RunsStayReady(Next(k, events[0]).value, events[1..]); }
    }
  }

  /** Safety over whole runs: whatever user programs do, hand to the kernel and get from the file
      systems, and as long as WAITPID keeps to its rule, the state stays good. The machine stops for
      the reachable reasons only: "no more scheduled processes", "no parent", the allocation
      failures, the bad current index and the system call assertion never happen. */
  lemma {:induction false} RunsStayGood(k: State, events: seq<Event>)
    requires Good(k) && RunAllowed(k, events)
    ensures Run(k, events).Ok? ==> Good(Run(k, events).value)
    ensures Run(k, events).Halted? ==> Reachable(Run(k, events).reason)
    decreases |events|
  {
    if events != [] {
      NextKeepsGood(k, events[0]);
      if Next(k, events[0]).Ok? { RunsStayGood(Next(k, events[0]).value, events[1..]); }
    }
  }

  lemma BootRunsSafe(context: Context, tables: seq<Table>, memory: seq<Section>, reset: seq<Byte>, tty: nat, events: seq<Event>)
    requires |tables| == |memory| == SLOTS && |reset| == 4
    ensures Good(Boot(context, tables, memory, reset, tty))
    ensures RunAllowed(Boot(context, tables, memory, reset, tty), events) ==>
              var r := Run(Boot(context, tables, memory, reset, tty), events);
              if r.Ok? then Good(r.value)
              else r.reason !in {NoScheduled, NoParent, BadCurrent, OutOfSections, OutOfTables, AssertFailed, WildAccess}
  {
    BootGood(context, tables, memory, reset, tty);
    if RunAllowed(Boot(context, tables, memory, reset, tty), events) {
      RunsStayGood(Boot(context, tables, memory, reset, tty), events);
    }
  }

  /** A run that has not halted goes on with the next event unless that event must halt. */
  lemma {:induction false} RunExtends(k: State, events: seq<Event>, e: Event)
    requires Good(k) && RunAllowed(k, events) && Run(k, events).Ok?
    requires var r := Run(k, events).value; r.current < |r.procs| && EventAllowed(r, e)
    ensures Good(Run(k, events).value)
    ensures RunAllowed(k, events + [e]) && Run(k, events + [e]) == Next(Run(k, events).value, e)
    ensures Run(k, events + [e]).Halted? <==> EventHalts(Run(k, events).value, e)
    decreases |events|
  {
    RunsStayGood(k, events);
    if events == [] {
      assert events + [e] == [e] && [e][1..] == [];
      NextKeepsGood(k, e);
    } else {
      assert (events + [e])[0] == events[0] && (events + [e])[1..] == events[1..] + [e];
      NextKeepsGood(k, events[0]);
      RunExtends(Next(k, events[0]).value, events[1..], e);
    }
  }

  // ---- nobody starves ----

  /** The trap removes the entry of q: q is a zombie that the caller reaps. */
  predicate TrapReaps(k: State, trap: Trap, q: nat)
    requires q < |k.procs|
  {
    trap.Syscall? && Reaps(k, trap.call, q)
  }

  predicate Exits(trap: Trap) { trap.Fault? || (trap.Syscall? && trap.call.ExitCall?) }

  function ExitStatus(trap: Trap): Word
    requires Exits(trap)
  {
    if trap.Fault? then 1 else trap.call.status
  }

  /** Writing the status of a call touches the caller's entry only. */
  lemma DispatchOthers(k: State, call: Call, q: nat) returns (q1: nat)
    requires Ready(k) && Fresh(k, call) && q < |k.procs| && q != k.current && !Reaps(k, call, q)
    requires Dispatch(k, call).Ok?
    ensures var k1 := Dispatch(k, call).value;
            && NoFurther(k, q, k1, q1)
            && if call.ExitCall? then ExitEffect(k, q, call.status, k1, q1)
               else k1.procs[q1] == k.procs[q] && (BufferFits(k, call) ==> SameMemory(k, q, k1))
  {
    DispatchSound(k, call);
    if call.ExitCall? {
      q1 := ExitOthers(k, call.status, q);
      StatusSparesOthers(k, Exit(k, call.status).value, call, 0, q, q1);
    } else {
      q1 := HandleOthers(k, call, q);
      StatusSparesOthers(k, Handle(k, call).value.0, call, Handle(k, call).value.1, q, q1);
    }
  }

  /** The second half of kernel_syscall_handler never writes to the entry of another pid. */
  lemma StatusSparesOthers(k: State, k1: State, call: Call, status: Word, q: nat, q1: nat)
    requires Shape(k) && k.current < |k.procs| && q < |k.procs| && Handle(k, call) == Ok((k1, status))
    requires k1.current < |k1.procs| && q1 < |k1.procs| && Dispatch(k, call).Ok?
    requires Ordered(k.procs) && q != k.current && k1.procs[q1].id == k.procs[q].id
    ensures var k2 := Dispatch(k, call).value;
            && k2 == k1.(procs := k2.procs) && |k2.procs| == |k1.procs| && k2.procs[q1] == k1.procs[q1]
  {
    assert k.procs[q].id != k.procs[k.current].id;
  }

  /** The trap delivers nothing outside the section of the caller. */
  predicate TrapFits(k: State, trap: Trap) { trap.Syscall? ==> BufferFits(k, trap.call) }

  predicate EventFits(k: State, e: Event) { e.TrapEvent? ==> TrapFits(k, e.trap) }

  lemma ServeOthers(k: State, trap: Trap, q: nat) returns (q1: nat)
    requires Ready(k) && TrapFresh(k, trap) && !MustHalt(k, trap)
    requires q < |k.procs| && q != k.current && !TrapReaps(k, trap, q)
    ensures Serve(k, trap).Ok?
    ensures var k1 := Serve(k, trap).value;
            && NoFurther(k, q, k1, q1)
            && if Exits(trap) then ExitEffect(k, q, ExitStatus(trap), k1, q1)
               else k1.procs[q1] == k.procs[q] && (TrapFits(k, trap) ==> SameMemory(k, q, k1))
  {
    ServeSound(k, trap);
    match trap
    case Fault => q1 := ExitOthers(k, 1, q);
    case Preempt(c) => q1 := q;
    case Syscall(c, call) =>
      SaveKeeps(k, c, call);
      var k0 := SaveContext(k, c).value;
      SavedFits(k, c, call);
      q1 := DispatchOthers(k0, call, q);
      if call.ExitCall? { SavedEffect(k, c, q, call.status, Dispatch(k0, call).value, q1); }
  }

  lemma SavedFits(k: State, c: Context, call: Call)
    requires Ready(k) && SaveContext(k, c).Ok?
    ensures BufferFits(SaveContext(k, c).value, call) == BufferFits(k, call)
  {
    if call.WaitPidCall? {
      var k1 := SaveContext(k, c).value;
      assert forall j :: 0 <= j < |k.procs| ==> k1.procs[j].id == k.procs[j].id;
    }
  }

  lemma SavedEffect(k: State, c: Context, q: nat, status: Word, k1: State, q1: nat)
    requires Ready(k) && q < |k.procs| && q != k.current && SaveContext(k, c).Ok?
    requires ExitEffect(SaveContext(k, c).value, q, status, k1, q1)
    ensures ExitEffect(k, q, status, k1, q1)
  {
    var k0 := SaveContext(k, c).value;
    if Contained(k) {
      forall i | 0 <= i < |k0.procs| ensures RefInside(k0.procs[i]) { assert RefInside(k.procs[i]); }
    }
  }

  /** How far a process is from its turn: the cyclic distance first, then the room for forks. */
  function Rank(k: State, q: nat): nat
    requires k.current < |k.procs| <= MAX_PROCS && q < |k.procs|
  {
    MAX_PROCS * Distance(|k.procs|, k.current, q) + (MAX_PROCS - |k.procs|)
  }

  /** After a trap a waiting scheduled process has the processor or is strictly closer to it. */
  lemma StepApproaches(k: State, trap: Trap, q: nat) returns (q2: nat)
    requires Ready(k) && TrapFresh(k, trap) && !MustHalt(k, trap)
    requires q < |k.procs| && q != k.current && k.procs[q].status.Scheduled?
    ensures Step(k, trap).Ok?
    ensures var k2 := Step(k, trap).value;
            && Ready(k2) && q2 < |k2.procs|
            && k2.procs[q2].id == k.procs[q].id && k2.procs[q2].status.Scheduled?
            && (k2.current == q2 || Rank(k2, q2) < Rank(k, q))
  {
    StepKeepsReady(k, trap);
    ServeSound(k, trap);
    q2 := ServeOthers(k, trap, q);
    var k1 := Serve(k, trap).value;
    assert k1.procs[q2].status.Scheduled?;
    SelectReaches(k1.procs, k1.current, q2, |k1.procs|);
  }

  lemma EventApproaches(k: State, e: Event, q: nat, k1: State) returns (q1: nat)
    requires Ready(k) && EventFresh(k, e) && TrapOf(e).Some? && Next(k, e) == Ok(k1)
    requires q < |k.procs| && q != k.current && k.procs[q].status.Scheduled?
    ensures Ready(k1) && q1 < |k1.procs| && k1.procs[q1].id == k.procs[q].id && k1.procs[q1].status.Scheduled?
    ensures k1.current == q1 || Rank(k1, q1) < Rank(k, q)
  {
    NextIs(k, e);
    StepKeepsReady(k, TrapOf(e).value);
    q1 := StepApproaches(k, TrapOf(e).value, q);
  }

  function Traps(events: seq<Event>): nat {
    if events == [] then 0
    else (if events[0].TrapEvent? then 1 else 0) + Traps(events[1..])
  }

  /** Some prefix of the run ends with process `pid` on the processor. */
  ghost predicate GetsTurn(k: State, events: seq<Event>, pid: int)
    requires Ready(k) && RunFresh(k, events)
    decreases |events|
  {
    || k.procs[k.current].id == pid
    || (events != [] &&
        (NextKeepsReady(k, events[0]);
         Next(k, events[0]).Ok? && GetsTurn(Next(k, events[0]).value, events[1..], pid)))
  }

  /** Starvation freedom: whatever forks, exits, waits (allowed ones or not) and preemptions the
      others do, a scheduled process has the processor again after at most Rank traps, or the machine
      has halted. */
  lemma {:induction false} NobodyStarves(k: State, events: seq<Event>, q: nat)
    requires Ready(k) && RunFresh(k, events)
    requires q < |k.procs| && k.procs[q].status.Scheduled? && q != k.current
    requires Traps(events) >= Rank(k, q)
    ensures GetsTurn(k, events, k.procs[q].id) || Run(k, events).Halted?
    decreases |events|
  {
    if events != [] {
      var e := events[0];
      NextKeepsReady(k, e);
      NextIs(k, e);
      if Next(k, e).Ok? {
        var k1 := Next(k, e).value;
        if TrapOf(e).None? {
          NobodyStarves(k1, events[1..], q);
        } else {
          var q1 := EventApproaches(k, e, q, k1);
          if k1.current != q1 { NobodyStarves(k1, events[1..], q1); }
        }
      }
    }
  }

  /** The bound in numbers: 1023 traps are enough for anyone. */
  lemma RankBound(k: State, q: nat)
    requires Ready(k) && q < |k.procs| && q != k.current
    ensures Rank(k, q) <= 1023
  {
  }
}
