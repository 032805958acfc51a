/** Address spaces: what one process can reach, another cannot, and the kernel's own memory is
    out of reach of both, over every run with slots freed and reused. */
module Isolation {
  import opened Bytes
  import opened Wrappers
  import opened Mmu
  import opened Kernel
  import opened MemoryInvariant
  import opened Steps
  import opened Others
  import opened Runs

  /** Process i can reach physical byte `address` from user mode. */
  ghost predicate Reaches(k: State, i: nat, address: nat)
    requires Shape(k) && i < |k.procs|
  {
    && k.procs[i].table.Some? && k.procs[i].table.value < SLOTS
    && exists va: Word, write: bool :: UserReaches(k.tables[k.procs[i].table.value], va, write, address)
  }

  /** What a live process reaches is its own section, all of it and nothing more. */
  lemma ReachIsOwnSection(k: State, i: nat, address: nat)
    requires Ready(k) && i < |k.procs| && Live(k.procs[i])
    ensures k.procs[i].section.Some? && KERNEL_SECTIONS <= k.procs[i].section.value < SLOTS
    ensures Reaches(k, i, address) <==>
              InSection(address, 1) && SlotOf(address) == k.procs[i].section.value
  {
    assert Owns(k, i);
    var s := k.procs[i].section.value;
    var table := k.tables[k.procs[i].table.value];
    if Reaches(k, i, address) {
      var va: Word, write: bool :| UserReaches(table, va, write, address);
      ProcTableReach(s, va, write, address);
      InOwnSection(s, va, 1);
    }
    if InSection(address, 1) && SlotOf(address) == s {
      var va: Word := PROCESS_VA + OffsetOf(address);
      ProcTableReach(s, va, true, address);
      assert UserReaches(table, va, true, address);
    }
  }

  /** No two live processes share a user-reachable byte, and none is shared with the kernel:
      its code and stacks lie below the sections, its data in the first sections. */
  lemma AddressSpacesDisjoint(k: State, i: nat, j: nat, address: nat)
    requires Ready(k) && i < |k.procs| && j < |k.procs| && i != j
    requires Reaches(k, i, address)
    ensures !Reaches(k, j, address)
    ensures address >= SectionAddress(KERNEL_SECTIONS)
  {
    assert Owns(k, i) && Owns(k, j);
    ReachIsOwnSection(k, i, address);
    if Reaches(k, j, address) {
      ReachIsOwnSection(k, j, address);
    }
  }

  /** The same over every run from boot, whatever WAITPID names. */
  lemma IsolationOverRuns(context: Context, tables: seq<Table>, memory: seq<Section>, reset: seq<Byte>, tty: nat, events: seq<Event>, i: nat, j: nat, address: nat)
    requires |tables| == |memory| == SLOTS && |reset| == 4
    ensures Ready(Boot(context, tables, memory, reset, tty))
    ensures RunFresh(Boot(context, tables, memory, reset, tty), events) ==>
              var r := Run(Boot(context, tables, memory, reset, tty), events);
              r.Ok? && i < |r.value.procs| && j < |r.value.procs| && i != j && Shape(r.value) ==>
                !(Reaches(r.value, i, address) && Reaches(r.value, j, address))
  {
    BootGood(context, tables, memory, reset, tty);
    var k := Boot(context, tables, memory, reset, tty);
    if RunFresh(k, events) {
      RunsStayReady(k, events);
      var r := Run(k, events);
      if r.Ok? && i < |r.value.procs| && j < |r.value.procs| && i != j && Reaches(r.value, i, address) {
        AddressSpacesDisjoint(r.value, i, j, address);
      }
    }
  }

  /** The byte that process i sees at an offset of its section. */
  function Sees(k: State, i: nat, offset: nat): Option<Byte>
    requires i < |k.procs| && offset < SECTION_SIZE && |k.memory| == SLOTS
  {
    if k.procs[i].section.Some? && k.procs[i].section.value < SLOTS
    then Some(k.memory[k.procs[i].section.value][offset]) else None
  }

  /** Process q is at q1 in the new state and sees the same byte, or the byte belongs to the status
      word that q, waiting for the running process, asked for. */
  predicate SeesSame(k: State, q: nat, k1: State, q1: nat, offset: nat)
    requires k.current < |k.procs| && q < |k.procs| && offset < SECTION_SIZE && |k.memory| == SLOTS
  {
    && q1 < |k1.procs| && |k1.memory| == SLOTS
    && k1.procs[q1].id == k.procs[q].id && k1.procs[q1].section == k.procs[q].section
    && (|| Sees(k1, q1, offset) == Sees(k, q, offset)
        || (ParentWakes(k, q) && InSection(k.procs[q].status.wstatusRef, 4)
            && OffsetOf(k.procs[q].status.wstatusRef) <= offset < OffsetOf(k.procs[q].status.wstatusRef) + 4))
  }

  lemma EffectSeesSame(k: State, trap: Trap, q: nat, q1: nat, k1: State, offset: nat)
    requires Shape(k) && Contained(k) && k.current < |k.procs| && q < |k.procs| && offset < SECTION_SIZE
    requires q1 < |k1.procs| && |k1.memory| == SLOTS
    requires k.procs[q].section.Some? && k.procs[q].section.value < SLOTS
    requires if Exits(trap) then ExitEffect(k, q, ExitStatus(trap), k1, q1)
             else k1.procs[q1] == k.procs[q] && SameMemory(k, q, k1)
    ensures SeesSame(k, q, k1, q1, offset)
  {
  }

  lemma TrapSeesSame(k: State, trap: Trap, q: nat, offset: nat) returns (q1: nat)
    requires Ready(k) && Contained(k) && TrapFresh(k, trap) && TrapFits(k, trap) && Step(k, trap).Ok?
    requires q < |k.procs| && q != k.current && Live(k.procs[q]) && offset < SECTION_SIZE
    ensures SeesSame(k, q, Step(k, trap).value, q1, offset)
  {
    StepKeepsReady(k, trap);
    assert Owns(k, q);
    q1 := ServeOthers(k, trap, q);
    var k1 := Serve(k, trap).value;
    EffectSeesSame(k, trap, q, q1, k1, offset);
    assert Step(k, trap).value == k1.(current := Step(k, trap).value.current);
  }

  /** As long as buffers and status words fit: nothing the running process does, in user mode or
      through the kernel, changes what another live process sees, except that its exit delivers the
      status word that a waiting parent asked for, at the address the parent gave. */
  lemma OthersSeeNoChange(k: State, e: Event, q: nat, offset: nat) returns (q1: nat)
    requires Ready(k) && Contained(k) && EventFresh(k, e) && EventFits(k, e) && Next(k, e).Ok?
    requires q < |k.procs| && q != k.current && Live(k.procs[q]) && offset < SECTION_SIZE
    ensures SeesSame(k, q, Next(k, e).value, q1, offset)
  {
    NextIs(k, e);
    match TrapOf(e)
    case Some(trap) => q1 := TrapSeesSame(k, trap, q, offset);
    case None =>
      UserStoreIs(k, e.va, e.b);
      OwnSectionsApart(k, q);
      q1 := q;
  }

  /** fork: the child, through its own table, sees at every address what the parent sees through
      its table, and starts with the parent's registers except for r0 = 0. */
  lemma ForkCopiesImage(k: State, va: Word, a: nat)
    requires Ready(k) && |k.procs| < MAX_PROCS
    ensures Fork(k).Ok?
    ensures var k1, n := Fork(k).value.0, |k.procs|;
            && |k1.procs| == n + 1 && Fork(k).value.1 == k1.procs[n].id % ADDRESS_LIMIT
            && k1.procs[n].context == k.procs[k.current].context.(r0 := 0)
            && k1.procs[n].parent == k.procs[k.current].id && k1.procs[n].files == k.procs[k.current].files
            && k.procs[k.current].table.Some? && k.procs[k.current].table.value < SLOTS
            && k1.procs[n].table.Some? && k1.procs[n].table.value < SLOTS
            && var tp, tc := k1.tables[k.procs[k.current].table.value], k1.tables[k1.procs[n].table.value];
            && |k1.memory| == SLOTS
            && (UserReaches(tp, va, false, a) ==>
              && InSection(a, 1)
              && (exists b ::
                    && UserReaches(tc, va, false, b) && InSection(b, 1) && a != b
                    && k1.memory[SlotOf(a)][OffsetOf(a)] == k1.memory[SlotOf(b)][OffsetOf(b)]))
  {
    ForkSound(k);
    CurrentFacts(k);
    ForkFindsSlots(k);
    ForkIs(k);
    var k1, n := Fork(k).value.0, |k.procs|;
    assert Owns(k1, n) && Owns(k1, k.current) && Owns(k, k.current);
    assert SectionHeld(k.procs, k.procs[k.current].section.value);
    var s, t := k.procs[k.current].section.value, k1.procs[n].section.value;
    assert s != t && k1.memory[s] == k1.memory[t];
    if UserReaches(k1.tables[k.procs[k.current].table.value], va, false, a) { SameImage(k1.memory, s, t, va, a); }
  }

  /** Two processes with equal sections read equal bytes at one address. */
  lemma SameImage(memory: seq<Section>, s: nat, t: nat, va: Word, a: nat)
    requires |memory| == SLOTS && s < SLOTS && t < SLOTS && s != t && memory[s] == memory[t]
    requires UserReaches(ProcTable(s), va, false, a)
    ensures InSection(a, 1)
    ensures exists b :: UserReaches(ProcTable(t), va, false, b) && InSection(b, 1) && a != b
                        && memory[SlotOf(a)][OffsetOf(a)] == memory[SlotOf(b)][OffsetOf(b)]
  {
    ProcTableReach(s, va, false, a);
    InOwnSection(s, va, 1);
    var b := SectionAddress(t) + va % SECTION_SIZE;
    ProcTableReach(t, va, false, b);
    InOwnSection(t, va, 1);
    assert UserReaches(ProcTable(t), va, false, b);
  }

  // ---- conservation ----

  /** Live processes among the first n entries. */
  function LiveUpTo(procs: seq<Process>, n: nat): nat
    requires n <= |procs|
  {
    if n == 0 then 0 else LiveUpTo(procs, n - 1) + if Live(procs[n - 1]) then 1 else 0
  }

  function LiveCount(procs: seq<Process>): nat { LiveUpTo(procs, |procs|) }

  ghost function SetBits(bits: seq<bool>, n: nat): set<nat>
    requires n <= |bits|
  {
    if n == 0 then {} else SetBits(bits, n - 1) + (if bits[n - 1] then {n - 1} else {})
  }

  lemma {:induction false} SetBitsMember(bits: seq<bool>, n: nat, x: nat)
    requires n <= |bits|
    ensures x in SetBits(bits, n) <==> x < n && bits[x]
  {
    if n > 0 { SetBitsMember(bits, n - 1, x); }
  }

  /** Held slots, all distinct, number as many as the live processes. */
  lemma {:induction false} HeldExact(procs: seq<Process>, held: seq<Option<nat>>, n: nat)
    requires n <= |procs| == |held|
    requires forall i :: 0 <= i < |procs| ==> (Live(procs[i]) <==> held[i].Some?)
    requires forall i, j :: 0 <= i < j < |held| && held[i].Some? && held[j].Some? ==> held[i] != held[j]
    ensures |HeldUpTo(held, n)| == LiveUpTo(procs, n)
  {
    if n > 0 {
      HeldExact(procs, held, n - 1);
      if Live(procs[n - 1]) { NotHeld(held, n - 1, held[n - 1].value); }
    }
  }

  lemma {:induction false} NotHeld(held: seq<Option<nat>>, n: nat, x: nat)
    requires n <= |held| && forall i :: 0 <= i < n ==> held[i] != Some(x)
    ensures x !in HeldUpTo(held, n)
  {
    if n > 0 { NotHeld(held, n - 1, x); }
  }

  lemma {:induction false} HeldMember(held: seq<Option<nat>>, n: nat, x: nat)
    requires n <= |held|
    ensures x in HeldUpTo(held, n) <==> exists i :: 0 <= i < n && held[i] == Some(x)
  {
    if n > 0 { HeldMember(held, n - 1, x); }
  }

  /** The set bits are the kernel's own slots and the held ones, without overlap. */
  lemma BitsAre(bits: seq<bool>, held: seq<Option<nat>>, own: nat)
    requires |bits| == SLOTS && own <= SLOTS
    requires forall s: nat :: s < SLOTS ==> (bits[s] <==> s < own || Some(s) in held)
    requires forall s: nat :: Some(s) in held ==> own <= s < SLOTS
    ensures SetBits(bits, SLOTS) == Below(own) + HeldUpTo(held, |held|)
    ensures Below(own) !! HeldUpTo(held, |held|)
  {
    var mine, theirs := Below(own), HeldUpTo(held, |held|);
    BelowSize(own);
    forall x: nat ensures (x in SetBits(bits, SLOTS) <==> x in mine || x in theirs) && !(x in mine && x in theirs) {
      SetBitsMember(bits, SLOTS, x);
      HeldMember(held, |held|, x);
      assert Some(x) in held <==> x in theirs;
    }
  }

  function SectionsOf(procs: seq<Process>): seq<Option<nat>> {
    seq(|procs|, i requires 0 <= i < |procs| => procs[i].section)
  }

  function TablesOf(procs: seq<Process>): seq<Option<nat>> {
    seq(|procs|, i requires 0 <= i < |procs| => procs[i].table)
  }

  lemma SectionHeldIff(k: State, s: nat)
    requires Ready(k)
    ensures Some(s) in SectionsOf(k.procs) <==> SectionHeld(k.procs, s)
    ensures SectionHeld(k.procs, s) ==> KERNEL_SECTIONS <= s < SLOTS
  {
    if SectionHeld(k.procs, s) {
      var i :| 0 <= i < |k.procs| && k.procs[i].section == Some(s);
      assert SectionsOf(k.procs)[i] == Some(s) && Owns(k, i);
    }
  }

  lemma TableHeldIff(k: State, t: nat)
    requires Ready(k)
    ensures Some(t) in TablesOf(k.procs) <==> TableHeld(k.procs, t)
    ensures TableHeld(k.procs, t) ==> KERNEL_TABLES <= t < SLOTS
  {
    if TableHeld(k.procs, t) {
      var i :| 0 <= i < |k.procs| && k.procs[i].table == Some(t);
      assert TablesOf(k.procs)[i] == Some(t) && Owns(k, i);
    }
  }

  /** In every good state the number of sections in use is the kernel's four plus one per live
      process: nothing leaks and nothing is counted twice. */
  lemma SectionsConserved(k: State)
    requires Ready(k)
    ensures |SetBits(k.sectionBits, SLOTS)| == KERNEL_SECTIONS + LiveCount(k.procs)
  {
    forall i | 0 <= i < |k.procs| ensures Live(k.procs[i]) <==> k.procs[i].section.Some? { assert Owns(k, i); }
    HeldExact(k.procs, SectionsOf(k.procs), |k.procs|);
    BelowSize(KERNEL_SECTIONS);
    forall s: nat ensures (Some(s) in SectionsOf(k.procs) <==> SectionHeld(k.procs, s))
                          && (SectionHeld(k.procs, s) ==> KERNEL_SECTIONS <= s < SLOTS) { SectionHeldIff(k, s); }
    BitsAre(k.sectionBits, SectionsOf(k.procs), KERNEL_SECTIONS);
  }

  /** The same for translation tables, of which the kernel keeps one. */
  lemma TablesConserved(k: State)
    requires Ready(k)
    ensures |SetBits(k.tableBits, SLOTS)| == KERNEL_TABLES + LiveCount(k.procs)
  {
    forall i | 0 <= i < |k.procs| ensures Live(k.procs[i]) <==> k.procs[i].table.Some? { assert Owns(k, i); }
    HeldExact(k.procs, TablesOf(k.procs), |k.procs|);
    BelowSize(KERNEL_TABLES);
    forall t: nat ensures (Some(t) in TablesOf(k.procs) <==> TableHeld(k.procs, t))
                          && (TableHeld(k.procs, t) ==> KERNEL_TABLES <= t < SLOTS) { TableHeldIff(k, t); }
    BitsAre(k.tableBits, TablesOf(k.procs), KERNEL_TABLES);
  }
}
