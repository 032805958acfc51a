/** Who owns which section and which translation table, and what the tables map.

    Sections and tables are handed out by the two bit allocators, given back by exit and
    handed out again; each live process holds one of each and maps nothing else for user mode. */
module MemoryInvariant {
  import opened Wrappers
  import opened Mmu
  import opened Bitfield
  import opened Kernel
  import opened TableInvariant

  /** The table of a process: the kernel below 8 MiB for privileged mode only, the section of
      the process at 8 MiB, nothing else. */
  function ProcTable(slot: nat): Table
    requires slot < SLOTS
  {
    seq(ENTRY_COUNT, i requires 0 <= i < ENTRY_COUNT =>
      if i < PROCESS_ENTRY then Entry(i, KERNEL_RW_USER_NONE)
      else if i == PROCESS_ENTRY then Entry(PROCESS_ENTRY + slot, KERNEL_RW_USER_RW)
      else 0)
  }

  /** scheduler_start builds that table with the two mapping functions of mmu.c. */
  lemma StartBuildsProcTable(zero: Table, slot: nat)
    requires slot < SLOTS && forall i :: 0 <= i < ENTRY_COUNT ==> zero[i] == 0
    ensures SingleMapped(IdentityMapped(zero, 0, DYN_BASE, KERNEL_RW_USER_NONE),
                         SectionAddress(slot), PROCESS_VA, KERNEL_RW_USER_RW) == ProcTable(slot)
  {
  }

  /** fork's copy-and-patch of the parent's table gives the table of the child. */
  lemma ForkBuildsProcTable(from: nat, slot: nat)
    requires from < SLOTS && slot < SLOTS
    ensures SingleMapped(ProcTable(from), SectionAddress(slot), PROCESS_VA, KERNEL_RW_USER_RW) == ProcTable(slot)
  {
  }

  /** User mode reaches exactly the section of the process, byte for byte. */
  lemma ProcTableReach(slot: nat, va: Word, write: bool, address: nat)
    requires slot < SLOTS
    ensures UserReaches(ProcTable(slot), va, write, address)
            <==> va / SECTION_SIZE == PROCESS_ENTRY && address == SectionAddress(slot) + va % SECTION_SIZE
  {
    var i := va / SECTION_SIZE;
    if i < PROCESS_ENTRY {
      EntryFields(i, KERNEL_RW_USER_NONE);
    } else if i == PROCESS_ENTRY {
      EntryFields(PROCESS_ENTRY + slot, KERNEL_RW_USER_RW);
    }
  }

  /** The kernel's walk of such a table. */
  lemma ProcTableTranslate(slot: nat, va: Word)
    requires slot < SLOTS
    ensures Translate(ProcTable(slot), va).Physical? <==> va / SECTION_SIZE == PROCESS_ENTRY
    ensures va / SECTION_SIZE == PROCESS_ENTRY ==>
              Translate(ProcTable(slot), va) == Physical(SectionAddress(slot) + va % SECTION_SIZE)
  {
    ProcTableReach(slot, va, true, SectionAddress(slot) + va % SECTION_SIZE);
    var i := va / SECTION_SIZE;
    if i < PROCESS_ENTRY {
      EntryFields(i, KERNEL_RW_USER_NONE);
    } else if i == PROCESS_ENTRY {
      EntryFields(PROCESS_ENTRY + slot, KERNEL_RW_USER_RW);
    }
  }

  /** Processes never need more sections than these: the allocator hands out the lowest one. */
  const SLOT_BOUND: nat := KERNEL_SECTIONS + MAX_PROCS

  /** A live process holds a section and a table above the kernel's own; a zombie holds none. */
  predicate Owns(k: State, i: nat)
    requires Shape(k) && i < |k.procs|
  {
    var p := k.procs[i];
    if Live(p) then
      && p.section.Some? && p.table.Some?
      && assert p in k.procs; KERNEL_SECTIONS <= p.section.value < SLOT_BOUND
      && KERNEL_TABLES <= p.table.value < SLOTS
      && k.tables[p.table.value] == ProcTable(p.section.value)
    else p.section == None && p.table == None
  }

  /** Distinct live processes hold distinct slots. */
  predicate Apart(procs: seq<Process>) {
    forall i, j :: 0 <= i < j < |procs| && Live(procs[i]) && Live(procs[j]) ==>
      procs[i].section != procs[j].section && procs[i].table != procs[j].table
  }

  predicate SectionHeld(procs: seq<Process>, s: nat) {
    exists i :: 0 <= i < |procs| && procs[i].section == Some(s)
  }

  predicate TableHeld(procs: seq<Process>, t: nat) {
    exists i :: 0 <= i < |procs| && procs[i].table == Some(t)
  }

  /** The set bits are the kernel's own slots and one per holder, no more and no less. */
  predicate Accounted(k: State)
    requires Shape(k)
  {
    && (forall s: nat :: s < SLOTS ==> (k.sectionBits[s] <==> s < KERNEL_SECTIONS || SectionHeld(k.procs, s)))
    && (forall t: nat :: t < SLOTS ==> (k.tableBits[t] <==> t < KERNEL_TABLES || TableHeld(k.procs, t)))
  }

  predicate MemoryInv(k: State) {
    && Shape(k)
    && (forall i :: 0 <= i < |k.procs| ==> Owns(k, i))
    && Apart(k.procs)
    && Accounted(k)
  }

  /** Same slots and same liveness, entry by entry. */
  predicate SameSlots(a: seq<Process>, b: seq<Process>) {
    && |a| == |b|
    && forall i :: 0 <= i < |a| ==>
      a[i].section == b[i].section && a[i].table == b[i].table && Live(a[i]) == Live(b[i]) && |b[i].files| == MAX_FDS
  }

  /** Changes that touch neither slots nor liveness. */
  lemma SlotsKeep(k: State, procs: seq<Process>)
    requires MemoryInv(k) && SameSlots(k.procs, procs)
    ensures MemoryInv(k.(procs := procs))
  {
    var r := k.(procs := procs);
    forall p | p in procs ensures |p.files| == MAX_FDS && SlotsInRange(p) {
      var i :| 0 <= i < |procs| && procs[i] == p;
      assert k.procs[i] in k.procs;
    }
    assert Shape(r);
    forall i | 0 <= i < |procs| ensures Owns(r, i) { assert Owns(k, i); }
    forall s: nat | s < SLOTS ensures SectionHeld(k.procs, s) <==> SectionHeld(procs, s) {
      if SectionHeld(k.procs, s) { var i :| 0 <= i < |k.procs| && k.procs[i].section == Some(s); assert procs[i].section == Some(s); }
      if SectionHeld(procs, s) { var i :| 0 <= i < |procs| && procs[i].section == Some(s); assert k.procs[i].section == Some(s); }
    }
    forall t: nat | t < SLOTS ensures TableHeld(k.procs, t) <==> TableHeld(procs, t) {
      if TableHeld(k.procs, t) { var i :| 0 <= i < |k.procs| && k.procs[i].table == Some(t); assert procs[i].table == Some(t); }
      if TableHeld(procs, t) { var i :| 0 <= i < |procs| && procs[i].table == Some(t); assert k.procs[i].table == Some(t); }
    }
  }

  /** Removing an entry that holds nothing changes no holder. */
  lemma HeldWithout(procs: seq<Process>, z: nat, x: nat)
    requires z < |procs| && procs[z].section == None && procs[z].table == None
    ensures SectionHeld(Without(procs, z), x) <==> SectionHeld(procs, x)
    ensures TableHeld(Without(procs, z), x) <==> TableHeld(procs, x)
  {
    var r := Without(procs, z);
    forall i | 0 <= i < |procs| && i != z ensures r[if i < z then i else i - 1] == procs[i] {}
    if SectionHeld(procs, x) {
      var i :| 0 <= i < |procs| && procs[i].section == Some(x);
      assert r[if i < z then i else i - 1].section == Some(x);
    }
    if TableHeld(procs, x) {
      var i :| 0 <= i < |procs| && procs[i].table == Some(x);
      assert r[if i < z then i else i - 1].table == Some(x);
    }
  }

  /** A zombie's entry can go. */
  lemma RemoveZombieKeeps(k: State, z: nat)
    requires MemoryInv(k) && z < |k.procs| && !Live(k.procs[z])
    ensures MemoryInv(k.(procs := Without(k.procs, z)))
  {
    var procs := Without(k.procs, z);
    var r := k.(procs := procs);
    assert Owns(k, z);
    assert Shape(r);
    forall i | 0 <= i < |procs| ensures Owns(r, i) {
      WithoutAt(k.procs, z, i);
      assert Owns(k, if i < z then i else i + 1);
    }
    forall i, j | 0 <= i < j < |procs| && Live(procs[i]) && Live(procs[j])
      ensures procs[i].section != procs[j].section && procs[i].table != procs[j].table
    {
      WithoutAt(k.procs, z, i);
      WithoutAt(k.procs, z, j);
    }
    forall x: nat ensures (SectionHeld(k.procs, x) <==> SectionHeld(procs, x)) && (TableHeld(k.procs, x) <==> TableHeld(procs, x)) {
      HeldWithout(k.procs, z, x);
    }
  }

  /** exit gives both slots back. */
  lemma ReleaseKeeps(k: State, c: nat, procs: seq<Process>)
    requires MemoryInv(k) && c < |k.procs| && Live(k.procs[c])
    requires GivesBack(k, c, procs) && !Live(procs[c])
    requires forall i :: 0 <= i < |procs| ==> |procs[i].files| == MAX_FDS
    ensures Owns(k, c)
    ensures MemoryInv(k.(procs := procs,
                         sectionBits := k.sectionBits[k.procs[c].section.value := false],
                         tableBits := k.tableBits[k.procs[c].table.value := false]))
  {
    assert Owns(k, c);
    var sc, tc := k.procs[c].section.value, k.procs[c].table.value;
    var r := k.(procs := procs, sectionBits := k.sectionBits[sc := false], tableBits := k.tableBits[tc := false]);
    forall p | p in procs ensures |p.files| == MAX_FDS && SlotsInRange(p) {
      var i :| 0 <= i < |procs| && procs[i] == p;
      assert k.procs[i] in k.procs;
    }
    assert Shape(r);
    forall i | 0 <= i < |procs| ensures Owns(r, i) { assert Owns(k, i); }
    SectionsReleased(k, c, procs);
    TablesReleased(k, c, procs);
  }

  /** The entries but one keep their slots and that one gives its slots back. */
  predicate GivesBack(k: State, c: nat, procs: seq<Process>)
    requires c < |k.procs|
  {
    && |procs| == |k.procs| && procs[c].section == None && procs[c].table == None
    && forall i :: 0 <= i < |procs| && i != c ==>
      procs[i].section == k.procs[i].section && procs[i].table == k.procs[i].table && Live(procs[i]) == Live(k.procs[i])
  }

  lemma SectionsReleased(k: State, c: nat, procs: seq<Process>)
    requires MemoryInv(k) && c < |k.procs| && Live(k.procs[c]) && GivesBack(k, c, procs)
    ensures Owns(k, c)
    ensures forall s: nat :: s < SLOTS ==>
      (SectionHeld(procs, s) <==> s != k.procs[c].section.value && SectionHeld(k.procs, s))
  {
    assert Owns(k, c);
    forall s: nat | s < SLOTS ensures SectionHeld(procs, s) <==> s != k.procs[c].section.value && SectionHeld(k.procs, s) {
      if SectionHeld(procs, s) {
        var i :| 0 <= i < |procs| && procs[i].section == Some(s);
        assert Owns(k, i) && k.procs[i].section == Some(s);
      }
      if s != k.procs[c].section.value && SectionHeld(k.procs, s) {
        var i :| 0 <= i < |k.procs| && k.procs[i].section == Some(s);
        assert procs[i].section == Some(s);
      }
    }
  }

  lemma TablesReleased(k: State, c: nat, procs: seq<Process>)
    requires MemoryInv(k) && c < |k.procs| && Live(k.procs[c]) && GivesBack(k, c, procs)
    ensures Owns(k, c)
    ensures forall t: nat :: t < SLOTS ==>
      (TableHeld(procs, t) <==> t != k.procs[c].table.value && TableHeld(k.procs, t))
  {
    assert Owns(k, c);
    forall t: nat | t < SLOTS ensures TableHeld(procs, t) <==> t != k.procs[c].table.value && TableHeld(k.procs, t) {
      if TableHeld(procs, t) {
        var i :| 0 <= i < |procs| && procs[i].table == Some(t);
        assert Owns(k, i) && k.procs[i].table == Some(t);
      }
      if t != k.procs[c].table.value && TableHeld(k.procs, t) {
        var i :| 0 <= i < |k.procs| && k.procs[i].table == Some(t);
        assert procs[i].table == Some(t);
      }
    }
  }

  // ---- fork ----

  /** The values that the first n entries of a sequence can produce number at most n. */
  ghost function HeldUpTo(held: seq<Option<nat>>, n: nat): set<nat>
    requires n <= |held|
  {
    if n == 0 then {}
    else HeldUpTo(held, n - 1) + (if held[n - 1].Some? then {held[n - 1].value} else {})
  }

  lemma {:induction false} HeldBound(held: seq<Option<nat>>, n: nat)
    requires n <= |held|
    ensures |HeldUpTo(held, n)| <= n
    ensures forall i :: 0 <= i < n && held[i].Some? ==> held[i].value in HeldUpTo(held, n)
  {
    if n > 0 { HeldBound(held, n - 1); }
  }

  ghost function Below(n: nat): set<nat> { if n == 0 then {} else Below(n - 1) + {n - 1} }

  lemma {:induction false} BelowSize(n: nat)
    ensures |Below(n)| == n
    ensures forall i: nat :: i in Below(n) <==> i < n
  {
    if n > 0 { BelowSize(n - 1); }
  }

  /** With few holders one of the first slots is free. */
  lemma SlotFree(bits: seq<bool>, held: seq<Option<nat>>, own: nat)
    requires |bits| == SLOTS && own + |held| < SLOTS
    requires forall s: nat :: s < SLOTS && bits[s] ==> s < own || Some(s) in held
    ensures 0 <= FirstClear(bits) <= own + |held|
  {
    var n := own + |held| + 1;
    var r := FirstClear(bits);
    if r < 0 || r >= n {
      HeldBound(held, |held|);
      BelowSize(own);
      BelowSize(n);
      var all := Below(own) + HeldUpTo(held, |held|);
      forall s | s in Below(n) ensures s in all {
        assert bits[s];
        if s >= own {
          var i :| 0 <= i < |held| && held[i] == Some(s);
        }
      }
      SubsetSize(Below(n), all);
      assert false;
    }
  }

  lemma {:induction false} SubsetSize(a: set<nat>, b: set<nat>)
    requires a <= b
    ensures |a| <= |b|
    decreases a
  {
    if a != {} {
      var x :| x in a;
      SubsetSize(a - {x}, b - {x});
    }
  }

  /** With at most 32 processes the allocation failures of fork are unreachable. */
  lemma ForkFindsSlots(k: State)
    requires MemoryInv(k) && |k.procs| <= MAX_PROCS
    ensures KERNEL_SECTIONS <= FirstClear(k.sectionBits) <= KERNEL_SECTIONS + |k.procs|
    ensures KERNEL_TABLES <= FirstClear(k.tableBits) <= KERNEL_TABLES + |k.procs|
  {
    var sections := seq(|k.procs|, i requires 0 <= i < |k.procs| => k.procs[i].section);
    var tables := seq(|k.procs|, i requires 0 <= i < |k.procs| => k.procs[i].table);
    forall s: nat | s < SLOTS && k.sectionBits[s] ensures s < KERNEL_SECTIONS || Some(s) in sections {
      if s >= KERNEL_SECTIONS {
        assert SectionHeld(k.procs, s);
        var i :| 0 <= i < |k.procs| && k.procs[i].section == Some(s);
        assert sections[i] == Some(s);
      }
    }
    forall t: nat | t < SLOTS && k.tableBits[t] ensures t < KERNEL_TABLES || Some(t) in tables {
      if t >= KERNEL_TABLES {
        assert TableHeld(k.procs, t);
        var i :| 0 <= i < |k.procs| && k.procs[i].table == Some(t);
        assert tables[i] == Some(t);
      }
    }
    SlotFree(k.sectionBits, sections, KERNEL_SECTIONS);
    SlotFree(k.tableBits, tables, KERNEL_TABLES);
  }

  /** fork hands a free section and a free table to the child and maps the one in the other. */
  lemma ForkKeepsMemory(k: State, child: Process, s: nat, t: nat, memory: seq<Section>)
    requires MemoryInv(k) && |memory| == SLOTS
    requires KERNEL_SECTIONS <= s < SLOT_BOUND && !k.sectionBits[s]
    requires KERNEL_TABLES <= t < SLOTS && !k.tableBits[t]
    requires Live(child) && child.section == Some(s) && child.table == Some(t) && |child.files| == MAX_FDS
    ensures MemoryInv(k.(procs := k.procs + [child], sectionBits := k.sectionBits[s := true],
                         tableBits := k.tableBits[t := true], tables := k.tables[t := ProcTable(s)],
                         memory := memory))
  {
    var procs := k.procs + [child];
    var r := k.(procs := procs, sectionBits := k.sectionBits[s := true],
                tableBits := k.tableBits[t := true], tables := k.tables[t := ProcTable(s)], memory := memory);
    assert forall i :: 0 <= i < |k.procs| ==> procs[i] == k.procs[i];
    assert Shape(r);
    forall i | 0 <= i < |k.procs| ensures k.procs[i].section != Some(s) && k.procs[i].table != Some(t) {
      if k.procs[i].section == Some(s) { assert SectionHeld(k.procs, s); }
      if k.procs[i].table == Some(t) { assert TableHeld(k.procs, t); }
    }
    forall i | 0 <= i < |procs| ensures Owns(r, i) {
      if i < |k.procs| { assert Owns(k, i); }
    }
    forall x: nat | x < SLOTS ensures SectionHeld(procs, x) <==> x == s || SectionHeld(k.procs, x) {
      assert procs[|k.procs|] == child;
      if SectionHeld(k.procs, x) { var i :| 0 <= i < |k.procs| && k.procs[i].section == Some(x); assert procs[i].section == Some(x); }
    }
    forall x: nat | x < SLOTS ensures TableHeld(procs, x) <==> x == t || TableHeld(k.procs, x) {
      assert procs[|k.procs|] == child;
      if TableHeld(k.procs, x) { var i :| 0 <= i < |k.procs| && k.procs[i].table == Some(x); assert procs[i].table == Some(x); }
    }
  }
}
