/** Buffers and status words: the kernel translates the first byte of a user pointer and checks no
    length. When what it writes stays with the caller, when it does not, and where it goes then
    (src/kernel/syscalls.c, src/kernel/hardware/mmu.c). */
module Buffers {
  import opened Bytes
  import opened Wrappers
  import opened Mmu
  import opened Kernel
  import opened TableInvariant
  import opened MemoryInvariant
  import opened Steps
  import opened Others
  import opened Isolation

  // ---- the store ----

  lemma {:induction false} StoreAtBelow(memory: seq<Section>, s: nat, o: nat, bytes: seq<Byte>, x: nat)
    requires o < SECTION_SIZE && x < s && x < |memory|
    ensures StoreAt(memory, s, o, bytes)[x] == memory[x]
    decreases |bytes|
  {
    if s < |memory| && o + |bytes| > SECTION_SIZE {
      var n := SECTION_SIZE - o;
      StoreAtBelow(memory[s := Splice(memory[s], o, bytes[..n])], s + 1, 0, bytes[n..], x);
    }
  }

  /** What does not fit in section s begins at the first byte of the next one. */
  lemma StoreAtNext(memory: seq<Section>, s: nat, o: nat, bytes: seq<Byte>)
    requires o < SECTION_SIZE && s + 1 < |memory| && o + |bytes| > SECTION_SIZE
    ensures StoreAt(memory, s, o, bytes)[s + 1][0] == bytes[SECTION_SIZE - o]
  {
    var n := SECTION_SIZE - o;
    var m, rest := memory[s := Splice(memory[s], o, bytes[..n])], bytes[n..];
    assert rest[0] == bytes[n];
    if |rest| > SECTION_SIZE {
      var m2 := m[s + 1 := Splice(m[s + 1], 0, rest[..SECTION_SIZE])];
      StoreAtBelow(m2, s + 2, 0, rest[SECTION_SIZE..], s + 1);
      assert m2[s + 1][0] == rest[..SECTION_SIZE][0];
    }
  }

  /** All memory but one section is what it was, the reset vector included. */
  predicate RestSame(k: State, slot: nat, r: State) {
    && |k.memory| == |r.memory| == SLOTS && r.reset == k.reset
    && forall s :: 0 <= s < SLOTS && s != slot ==> r.memory[s] == k.memory[s]
  }

  predicate Spares(k: State, slot: nat, r: Result<State>) { r.Ok? && RestSame(k, slot, r.value) }

  function Repeat(b: Byte, n: nat): (r: seq<Byte>)
    ensures |r| == n
  {
    seq(n, i => b)
  }

  function Other(b: Byte): Byte { if b == 0 then 1 else 0 }

  /** A store that begins in a section, or at address 0, leaves all other memory alone for all
      contents if and only if it fits in that section. */
  lemma StoreSparesIff(k: State, slot: nat, va: Word, n: nat)
    requires Shape(k) && KERNEL_SECTIONS <= slot < SLOT_BOUND && !BadPointer(va)
    ensures (forall bytes: seq<Byte> :: |bytes| == n ==> Spares(k, slot, Store(k, PointerTo(slot, va), bytes)))
            <==> n == 0 || BufferOk(va, n)
  {
    if n == 0 || BufferOk(va, n) {
      forall bytes: seq<Byte> | |bytes| == n ensures Spares(k, slot, Store(k, PointerTo(slot, va), bytes)) {
        if n > 0 {
          InOwnSection(slot, va, n);
          StoreInside(k, PointerTo(slot, va), bytes);
        }
      }
    } else {
      StoreSpills(k, slot, va, n);
    }
  }

  /** Contents that show the damage of a store that does not fit. */
  function Telling(k: State, slot: nat, va: Word, n: nat): (r: seq<Byte>)
    requires Shape(k) && slot < SLOT_BOUND
    ensures |r| == n
  {
    if va == 0 then Repeat(Other(k.reset[0]), n) else Repeat(Other(k.memory[slot + 1][0]), n)
  }

  lemma StoreSpills(k: State, slot: nat, va: Word, n: nat)
    requires Shape(k) && KERNEL_SECTIONS <= slot < SLOT_BOUND && !BadPointer(va) && n > 0 && !BufferOk(va, n)
    ensures !Spares(k, slot, Store(k, PointerTo(slot, va), Telling(k, slot, va, n)))
  {
    var bytes := Telling(k, slot, va, n);
    var r := Store(k, PointerTo(slot, va), bytes);
    if r.Ok? {
      if va == 0 {
        assert r.value.reset[0] == bytes[0];
      } else {
        var o := va % SECTION_SIZE;
        InOwnSection(slot, va, 0);
        StoreAtNext(k.memory, slot, o, bytes);
        assert r.value.memory[slot + 1][0] != k.memory[slot + 1][0];
      }
    }
  }

  // ---- READ and READDIR ----

  function Left(r: Result<(State, Word)>): Result<State> { match r case Ok((k, _)) => Ok(k) case Halted(h) => Halted(h) }

  /** A read of n bytes leaves the memory of everybody else alone, whatever the bytes are, if and only
      if the buffer lies inside the section of the caller. The code checks only its first byte. */
  lemma ReadSparesIff(k: State, fd: nat, va: Word, n: nat, status: Word)
    requires Ready(k) && HasFile(k.procs[k.current], fd) && !BadPointer(va)
    ensures k.procs[k.current].section.Some?
    ensures (forall bytes: seq<Byte> :: |bytes| == n ==>
               Spares(k, k.procs[k.current].section.value, Left(Read(k, fd, va, Done((bytes, status))))))
            <==> n == 0 || BufferOk(va, n)
  {
    CurrentFacts(k);
    var s := k.procs[k.current].section.value;
    forall bytes: seq<Byte> | |bytes| == n
      ensures Left(Read(k, fd, va, Done((bytes, status)))) == Store(k, PointerTo(s, va), bytes)
    {
      ReadIsStore(k, fd, va, bytes, status);
    }
    StoreSparesIff(k, s, va, n);
    if n > 0 && !BufferOk(va, n) {
      StoreSpills(k, s, va, n);
      var bytes := Telling(k, s, va, n);
      ReadIsStore(k, fd, va, bytes, status);
      assert |bytes| == n && !Spares(k, s, Left(Read(k, fd, va, Done((bytes, status)))));
    }
  }

  lemma ReadIsStore(k: State, fd: nat, va: Word, bytes: seq<Byte>, status: Word)
    requires Ready(k) && HasFile(k.procs[k.current], fd) && !BadPointer(va)
    ensures k.procs[k.current].section.Some?
    ensures Left(Read(k, fd, va, Done((bytes, status)))) == Store(k, PointerTo(k.procs[k.current].section.value, va), bytes)
  {
    PointerIs(k, va);
  }

  const LAST_BYTE: Word := 0x8F_FFFF

  /** The input: two bytes read to the last address of the own section. The second one lands in the
      first byte of the process whose section is the next one. */
  lemma ReadHitsNeighbour(k: State, fd: nat, b0: Byte, b1: Byte, status: Word, q: nat)
    requires Ready(k) && HasFile(k.procs[k.current], fd) && q < |k.procs| && Live(k.procs[q])
    requires k.procs[k.current].section.Some? && k.procs[q].section == Some(k.procs[k.current].section.value + 1)
    ensures k.procs[k.current].section.value + 1 < SLOTS
    ensures var r := Read(k, fd, LAST_BYTE, Done(([b0, b1], status)));
            r.Ok? && Sees(r.value.0, q, 0) == Some(b1) && r.value.0.procs == k.procs
  {
    CurrentFacts(k);
    assert Owns(k, q);
    var s, bytes := k.procs[k.current].section.value, [b0, b1];
    ReadIsStore(k, fd, LAST_BYTE, bytes, status);
    StoreKeeps(k, s, LAST_BYTE, bytes);
    InOwnSection(s, LAST_BYTE, 0);
    StoreAtNext(k.memory, s, LAST_BYTE % SECTION_SIZE, bytes);
  }

  // ---- WRITE ----

  /** The states that agree with k on everything but memory outside one section. */
  predicate OwnSame(k: State, slot: nat, k1: State) {
    && |k.memory| == |k1.memory| == SLOTS && |k1.reset| == 4 && slot < SLOTS
    && k1 == k.(memory := k1.memory, reset := k1.reset) && k1.memory[slot] == k.memory[slot]
  }

  predicate HandsSame(k: State, k1: State, va: Word, n: nat)
    requires Shape(k)
  {
    Shape(k1) && Handed(k, va, n).Some? && Handed(k1, va, n) == Handed(k, va, n)
  }

  /** A state that differs in the first byte behind the section, or in the reset vector. */
  function Elsewhere(k: State, slot: nat, va: Word): State
    requires Shape(k) && slot + 1 < SLOTS
  {
    if va == 0 then k.(reset := k.reset[0 := Other(k.reset[0])])
    else k.(memory := k.memory[slot + 1 := k.memory[slot + 1][0 := Other(k.memory[slot + 1][0])]])
  }

  lemma LoadAtNext(memory: seq<Section>, s: nat, o: nat, n: nat)
    requires o < SECTION_SIZE && s + 1 < |memory| && o + n > SECTION_SIZE
    ensures |LoadAt(memory, s, o, n)| > SECTION_SIZE - o
    ensures LoadAt(memory, s, o, n)[SECTION_SIZE - o] == memory[s + 1][0]
  {
    var rest := n - (SECTION_SIZE - o);
    assert LoadAt(memory, s, o, n) == memory[s][o..] + LoadAt(memory, s + 1, 0, rest);
    assert LoadAt(memory, s + 1, 0, rest)[0] == memory[s + 1][0];
  }

  lemma HandedIs(k: State, k1: State, va: Word, n: nat)
    requires Ready(k) && !BadPointer(va) && k.procs[k.current].section.Some?
    requires OwnSame(k, k.procs[k.current].section.value, k1)
    ensures Shape(k1)
    ensures Handed(k1, va, n) == match Fetch(k1, PointerTo(k.procs[k.current].section.value, va), n)
                                 case Ok(bytes) => bytes case Halted(_) => None
  {
    PointerIs(k, va);
  }

  /** The bytes that WRITE hands to the file depend on the memory of the caller alone, in every state,
      if and only if the buffer lies inside its section. The code checks only its first byte. */
  lemma WriteReadsOwnIff(k: State, va: Word, n: nat)
    requires Ready(k) && !BadPointer(va)
    ensures k.procs[k.current].section.Some?
    ensures (forall k1: State :: OwnSame(k, k.procs[k.current].section.value, k1) ==> HandsSame(k, k1, va, n))
            <==> n == 0 || BufferOk(va, n)
  {
    CurrentFacts(k);
    var s := k.procs[k.current].section.value;
    HandedIs(k, k, va, n);
    if n == 0 || BufferOk(va, n) {
      forall k1: State | OwnSame(k, s, k1) ensures HandsSame(k, k1, va, n) {
        HandedIs(k, k1, va, n);
        if n > 0 { InOwnSection(s, va, n); }
      }
    } else {
      var k1 := Elsewhere(k, s, va);
      assert OwnSame(k, s, k1);
      HandedIs(k, k1, va, n);
      LoadsElsewhere(k, s, va, n);
      assert !HandsSame(k, k1, va, n);
    }
  }

  lemma LoadsElsewhere(k: State, slot: nat, va: Word, n: nat)
    requires Shape(k) && KERNEL_SECTIONS <= slot < SLOT_BOUND && !BadPointer(va) && n > 0 && !BufferOk(va, n)
    ensures Shape(Elsewhere(k, slot, va))
    ensures var a, b := Fetch(k, PointerTo(slot, va), n), Fetch(Elsewhere(k, slot, va), PointerTo(slot, va), n);
            a.Ok? && a.value.Some? ==> a != b
  {
    var k1, address := Elsewhere(k, slot, va), PointerTo(slot, va);
    if va == 0 {
      assert k1.reset[0] != k.reset[0];
      if n <= 4 { assert k.reset[0..n][0] != k1.reset[0..n][0]; }
    } else if InUser(address, n) {
      InOwnSection(slot, va, 0);
      LoadAtNext(k.memory, slot, va % SECTION_SIZE, n);
      LoadAtNext(k1.memory, slot, va % SECTION_SIZE, n);
    }
  }

  /** The input: two bytes written from the last address of the own section hand the first byte of the
      process in the next section to the file. */
  lemma WriteShowsNeighbour(k: State, q: nat)
    requires Ready(k) && q < |k.procs| && Live(k.procs[q])
    requires k.procs[k.current].section.Some? && k.procs[q].section == Some(k.procs[k.current].section.value + 1)
    ensures k.procs[k.current].section.value + 1 < SLOTS
    ensures var bytes := Handed(k, LAST_BYTE, 2);
            bytes.Some? && |bytes.value| == 2 && Sees(k, q, 0) == Some(bytes.value[1])
  {
    CurrentFacts(k);
    assert Owns(k, q);
    var s := k.procs[k.current].section.value;
    HandedIs(k, k, LAST_BYTE, 2);
    InOwnSection(s, LAST_BYTE, 0);
    LoadAtNext(k.memory, s, LAST_BYTE % SECTION_SIZE, 2);
  }

  // ---- the status word of WAITPID ----

  /** The caller's zombie with another status. */
  function WithStatus(k: State, j: nat, w: Word): State
    requires j < |k.procs|
  {
    SetProc(k, j, k.procs[j].(status := Exited(w)))
  }

  /** WAITPID for an exited process delivers its status inside the section of the caller, whatever the
      status is, if and only if all four bytes of the word lie there; a null pointer sends it to the
      reset vector. */
  lemma StatusSparesIff(k: State, j: nat, va: Word)
    requires Ready(k) && k.current < j < |k.procs| && k.procs[j].status.Exited? && !BadPointer(va)
    ensures k.procs[k.current].section.Some?
    ensures (forall w: Word :: Spares(k, k.procs[k.current].section.value, Left(WaitPid(WithStatus(k, j, w), k.procs[j].id, va))))
            <==> BufferOk(va, 4)
    ensures va == 0 ==> forall w: Word ::
      var r := WaitPid(WithStatus(k, j, w), k.procs[j].id, va); r.Ok? && r.value.0.reset == WordBytes(w) && r.value.0.memory == k.memory
  {
    CurrentFacts(k);
    var s := k.procs[k.current].section.value;
    forall w: Word
      ensures var r, st := Left(WaitPid(WithStatus(k, j, w), k.procs[j].id, va)), Store(k, PointerTo(s, va), WordBytes(w));
              r.Ok? && st.Ok? && r.value.memory == st.value.memory && r.value.reset == st.value.reset
    {
      ZombieWaitIs(k, j, va, w);
    }
    if BufferOk(va, 4) {
      StoreSparesIff(k, s, va, 4);
    } else {
      WordSpills(k, s, va);
      var w := TellingWord(k, s, va);
      ZombieWaitIs(k, j, va, w);
      assert !Spares(k, s, Left(WaitPid(WithStatus(k, j, w), k.procs[j].id, va)));
    }
  }

  /** A word all of whose bytes show the damage. */
  function TellingWord(k: State, slot: nat, va: Word): Word
    requires Shape(k) && slot < SLOT_BOUND
  {
    if Telling(k, slot, va, 4)[0] == 0 then 0 else 0x0101_0101
  }

  lemma WordSpills(k: State, slot: nat, va: Word)
    requires Shape(k) && KERNEL_SECTIONS <= slot < SLOT_BOUND && !BadPointer(va) && !BufferOk(va, 4)
    ensures !Spares(k, slot, Store(k, PointerTo(slot, va), WordBytes(TellingWord(k, slot, va))))
  {
    assert WordBytes(0) == [0, 0, 0, 0] && WordBytes(0x0101_0101) == [1, 1, 1, 1];
    assert WordBytes(TellingWord(k, slot, va)) == Telling(k, slot, va, 4);
    StoreSpills(k, slot, va, 4);
  }

  lemma ZombieWaitIs(k: State, j: nat, va: Word, w: Word)
    requires Ready(k) && k.current < j < |k.procs| && k.procs[j].status.Exited? && !BadPointer(va)
    requires k.procs[k.current].section.Some?
    ensures var r, st := WaitPid(WithStatus(k, j, w), k.procs[j].id, va),
                         Store(k, PointerTo(k.procs[k.current].section.value, va), WordBytes(w));
            r.Ok? && st.Ok? && r.value.0.memory == st.value.memory && r.value.0.reset == st.value.reset
  {
    var s := k.procs[k.current].section.value;
    CurrentFacts(k);
    IdPositive(k.procs, k.idGen, j);
    assert Owns(k, j) && k.procs[j] in k.procs;
    PointerIs(k, va);
    StoreKeeps(k, s, va, WordBytes(w));
    ZombieWaitComputes(k, j, PointerTo(s, va), va, w);
  }

  lemma ZombieWaitComputes(k: State, j: nat, ref: nat, va: Word, w: Word)
    requires Shape(k) && Ordered(k.procs) && k.current < j < |k.procs| && k.procs[j].id != -1
    requires k.procs[j].section == None && k.procs[j].table == None && UserPointer(k, va) == Ok(ref)
    requires Store(k, ref, WordBytes(w)).Ok?
    ensures var r, st := WaitPid(WithStatus(k, j, w), k.procs[j].id, va), Store(k, ref, WordBytes(w));
            r.Ok? && r.value.0.memory == st.value.memory && r.value.0.reset == st.value.reset
  {
    var k1 := WithStatus(k, j, w);
    FindIs(k1.procs, j);
    assert k.procs[j] in k.procs;
  }

  /** The same when the parent waited first: exit delivers the status inside the section of the
      parent, whatever the status is, if and only if the word lies there. */
  lemma ExitSparesIff(k: State, j: nat, slot: nat, va: Word)
    requires Ready(k) && k.current != 0 && j < |k.procs| && ParentWakes(k, j)
    requires k.procs[j].section == Some(slot) && k.procs[j].status.wstatusRef == PointerTo(slot, va) && !BadPointer(va)
    ensures (forall w: Word :: Spares(k, slot, Exit(k, w))) <==> BufferOk(va, 4)
  {
    assert Owns(k, j);
    forall w: Word
      ensures var r, st := Exit(k, w), Store(k, PointerTo(slot, va), WordBytes(w));
              r.Ok? && st.Ok? && r.value.memory == st.value.memory && r.value.reset == st.value.reset
    {
      ExitStoreIs(k, j, w);
    }
    if BufferOk(va, 4) {
      StoreSparesIff(k, slot, va, 4);
    } else {
      WordSpills(k, slot, va);
      var w := TellingWord(k, slot, va);
      ExitStoreIs(k, j, w);
      assert !Spares(k, slot, Exit(k, w));
    }
  }

  lemma ExitStoreIs(k: State, j: nat, w: Word)
    requires Ready(k) && k.current != 0 && j < |k.procs| && ParentWakes(k, j)
    ensures var r, st := Exit(k, w), Store(k, k.procs[j].status.wstatusRef, WordBytes(w));
            r.Ok? && st.Ok? && r.value.memory == st.value.memory && r.value.reset == st.value.reset
  {
    var p := ExitIs(k, w);
    assert p == j;
  }
}
