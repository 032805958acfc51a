/** What exec builds: the ELF segments, the argument strings and the argument vector in the cleared
    section of the process (src/kernel/scheduler/scheduler.c, src/kernel/elf_loader/elf_loader.c). */
module ExecImage {
  import opened Wrappers
  import opened Bytes
  import opened Mmu
  import opened Kernel
  import opened MemoryInvariant
  import opened Steps

  const STACK_VA: nat := 0x83_FFFC
  const PROGRAM_START: nat := 0x84_0000
  const PROGRAM_END: nat := 0x88_0000
  const MAX_ARGS: nat := 8
  const MAX_ARG: nat := 31

  // ---- the ELF file ----

  const EHDR_SIZE: nat := 52
  const PHDR_SIZE: nat := 32
  const SHDR_SIZE: nat := 40
  const ELF_MAGIC: nat := 0x464c_457f
  const ELFCLASS32: nat := 1
  const ELFDATA2LSB: nat := 1
  const EM_ARM: nat := 40
  const PT_LOAD: nat := 1

  datatype ElfHeader = ElfHeader(entry: nat, phoff: nat, phentsize: nat, phnum: nat)

  function Word32(file: seq<Byte>, at: nat): nat
    requires at + 4 <= |file|
  {
    WordOf(file[at..at + 4])
  }

  function Word16(file: seq<Byte>, at: nat): nat
    requires at + 2 <= |file|
  {
    var low: int, high: int := file[at], file[at + 1];
    low + 0x100 * high
  }

  /** elf32_open: the header of a compatible file. */
  function ParseHeader(file: seq<Byte>): Option<ElfHeader> {
    if |file| < EHDR_SIZE then None
    else if Word32(file, 0) == ELF_MAGIC && file[4] == ELFCLASS32 && file[5] == ELFDATA2LSB && Word16(file, 18) == EM_ARM
         && Word16(file, 42) >= PHDR_SIZE && Word16(file, 46) >= SHDR_SIZE
    then Some(ElfHeader(Word32(file, 24), Word32(file, 28), Word16(file, 42), Word16(file, 44)))
    else None
  }

  datatype Segment = Segment(va: nat, bytes: seq<Byte>)

  /** A program header at a place of the file: a segment to load, or None for one to pass over. Fatal when
      the file ends before the header or the segment does, or the address is none of the process. */
  function SegmentAt(file: seq<Byte>, at: nat): Outcome<Option<Segment>> {
    if at + PHDR_SIZE > |file| then Fatal
    else
      var offset, va, size := Word32(file, at + 4), Word32(file, at + 8), Word32(file, at + 16);
      if Word32(file, at) != PT_LOAD || va == 0 then Done(None)
      else if va / SECTION_SIZE != PROCESS_ENTRY || offset + size > |file| then Fatal
      else Done(Some(Segment(va, file[offset..offset + size])))
  }

  /** The i-th program header. */
  function ParseSegment(file: seq<Byte>, h: ElfHeader, i: nat): Outcome<Option<Segment>> {
    SegmentAt(file, (h.phoff + i * h.phentsize) % ADDRESS_LIMIT)
  }

  /** The segments that are loaded, from the i-th header on. */
  function SegmentsFrom(file: seq<Byte>, h: ElfHeader, i: nat): Outcome<seq<Segment>>
    decreases h.phnum - i
  {
    if i >= h.phnum then Done([])
    else
      var segment :- ParseSegment(file, h, i);
      var rest :- SegmentsFrom(file, h, i + 1);
      Done(if segment.None? then rest else [segment.value] + rest)
  }

  /** A segment inside the section of the process, and one in the part that is meant for programs. */
  predicate Placed(s: Segment) { PROCESS_VA <= s.va < PROCESS_VA + SECTION_SIZE && Offset(s.va) + |s.bytes| <= SECTION_SIZE }

  predicate InWindow(s: Segment) { PROGRAM_START <= s.va && s.va + |s.bytes| <= PROGRAM_END }

  predicate AllPlaced(segments: seq<Segment>) { forall k :: 0 <= k < |segments| ==> Placed(segments[k]) }

  /** The place of a virtual address in the section of the process. */
  function Offset(va: nat): nat { if va >= PROCESS_VA then va - PROCESS_VA else 0 }

  function Loaded(image: Section, segments: seq<Segment>): Section
    requires AllPlaced(segments)
    decreases |segments|
  {
    if segments == [] then image
    else Loaded(Splice(image, Offset(segments[0].va), segments[0].bytes), segments[1..])
  }

  predicate Covers(s: Segment, x: nat) { Offset(s.va) <= x < Offset(s.va) + |s.bytes| }

  predicate Apart(a: Segment, b: Segment) {
    a.bytes == [] || b.bytes == [] || a.va + |a.bytes| <= b.va || b.va + |b.bytes| <= a.va
  }

  predicate Disjoint(segments: seq<Segment>) {
    forall j, k :: 0 <= j < k < |segments| ==> Apart(segments[j], segments[k])
  }

  /** Every byte is the byte of the segment that covers it, or what was there before. */
  lemma {:induction false} LoadedBytes(image: Section, segments: seq<Segment>, x: nat)
    requires AllPlaced(segments) && Disjoint(segments) && x < SECTION_SIZE
    ensures (forall k :: 0 <= k < |segments| ==> !Covers(segments[k], x)) ==> Loaded(image, segments)[x] == image[x]
    ensures forall k :: 0 <= k < |segments| && Covers(segments[k], x) ==>
              Loaded(image, segments)[x] == segments[k].bytes[x - Offset(segments[k].va)]
    decreases |segments|
  {
    if segments != [] {
      var first, rest := segments[0], segments[1..];
      var next := Splice(image, Offset(first.va), first.bytes);
      assert forall k :: 1 <= k < |segments| ==> segments[k] == rest[k - 1];
      LoadedBytes(next, rest, x);
      if Covers(first, x) {
        forall k | 1 <= k < |segments| ensures !Covers(segments[k], x) { assert Apart(first, segments[k]); }
      }
    }
  }

  // ---- the arguments ----

  type Arg = seq<Byte>

  /** Strings that the kernel's own copy of the arguments can hold. */
  predicate Storable(args: seq<Arg>) {
    && |args| <= MAX_ARGS
    && forall i :: 0 <= i < |args| ==> |args[i]| <= MAX_ARG && forall c :: 0 <= c < |args[i]| ==> args[i][c] != 0
  }

  predicate Short(args: seq<Arg>) { |args| <= MAX_ARGS && forall i :: 0 <= i < |args| ==> |args[i]| <= MAX_ARG }

  /** The stack pointer after i arguments. */
  function StackAfter(args: seq<Arg>, i: nat): int
    requires i <= |args|
  {
    if i == 0 then STACK_VA else StackAfter(args, i - 1) - |args[i - 1]| - 1
  }

  lemma {:induction false} StackBounds(args: seq<Arg>, i: nat)
    requires i <= |args| && Short(args)
    ensures STACK_VA - 32 * i <= StackAfter(args, i) <= STACK_VA - i
  {
    if i > 0 { StackBounds(args, i - 1); }
  }

  /** The same places as offsets in the section. */
  function Place(args: seq<Arg>, i: nat): (o: nat)
    requires i <= |args| && Short(args)
    ensures 0x1000 <= o <= Offset(STACK_VA) - i && o == StackAfter(args, i) - PROCESS_VA
    ensures i > 0 ==> o + |args[i - 1]| + 1 == StackAfter(args, i - 1) - PROCESS_VA <= Offset(STACK_VA)
  {
    StackBounds(args, i);
    if i > 0 then StackBounds(args, i - 1); StackAfter(args, i) - PROCESS_VA else StackAfter(args, i) - PROCESS_VA
  }

  /** Where the argument vector is: below the strings, word-aligned. */
  function ArgvVa(args: seq<Arg>): (va: nat)
    requires Short(args)
    ensures va % 4 == 0 && va + 4 * (|args| + 1) <= PROCESS_VA + Place(args, |args|)
    ensures PROCESS_VA + 0x100 <= va
  {
    (PROCESS_VA + Place(args, |args|) - 4 * (|args| + 1)) / 4 * 4
  }

  /** The section after i arguments. */
  function WithArgs(image: Section, args: seq<Arg>, i: nat): Section
    requires i <= |args| && Short(args)
  {
    if i == 0 then image
    else Splice(WithArgs(image, args, i - 1), Place(args, i), args[i - 1] + [0])
  }

  function Words(ws: seq<Word>): (r: seq<Byte>)
    ensures |r| == 4 * |ws|
  {
    if ws == [] then [] else Words(ws[..|ws| - 1]) + WordBytes(ws[|ws| - 1])
  }

  /** The pointers to the first i strings. */
  function Pointers(args: seq<Arg>, i: nat): (r: seq<Word>)
    requires i <= |args| && Short(args)
    ensures |r| == i
  {
    if i == 0 then [] else Pointers(args, i - 1) + [PROCESS_VA + Place(args, i)]
  }

  /** The argument vector: pointers and a null one. */
  function Vector(args: seq<Arg>): (r: seq<Byte>)
    requires Short(args)
    ensures |r| == 4 * (|args| + 1)
  {
    Words(Pointers(args, |args|) + [0])
  }

  /** The image with all arguments and the vector. */
  function WithArgv(image: Section, args: seq<Arg>): Section
    requires Short(args)
  {
    Splice(WithArgs(image, args, |args|), Offset(ArgvVa(args)), Vector(args))
  }

  /** Strings lie one below the other. */
  lemma {:induction false} PlacesDescend(args: seq<Arg>, j: nat, i: nat)
    requires j < i <= |args| && Short(args)
    ensures Place(args, i) + |args[i - 1]| + 1 <= Place(args, j)
  {
    if j + 1 < i { PlacesDescend(args, j, i - 1); }
  }

  /** Nothing but the strings' own places is written. */
  lemma {:induction false} ArgsOutside(image: Section, args: seq<Arg>, i: nat, x: nat)
    requires i <= |args| && Short(args) && x < SECTION_SIZE
    requires x < Place(args, i) || Offset(STACK_VA) <= x
    ensures WithArgs(image, args, i)[x] == image[x]
  {
    if i > 0 {
      PlacesDescend(args, i - 1, i);
      ArgsOutside(image, args, i - 1, x);
    }
  }

  /** A string with its terminator stands at an offset. */
  predicate Stands(image: seq<Byte>, at: nat, arg: Arg) {
    at + |arg| + 1 <= |image| && image[at..at + |arg| + 1] == arg + [0]
  }

  /** Each string stands where its pointer says. */
  lemma {:induction false} ArgStands(image: Section, args: seq<Arg>, i: nat, j: nat)
    requires j < i <= |args| && Short(args)
    ensures Stands(WithArgs(image, args, i), Place(args, j + 1), args[j])
  {
    if i == j + 1 {
      SplicePut(WithArgs(image, args, j), Place(args, i), args[j] + [0]);
    } else {
      ArgStands(image, args, i - 1, j);
      PlacesDescend(args, j + 1, i);
      StandsAside(WithArgs(image, args, i - 1), Place(args, i), args[i - 1] + [0], Place(args, j + 1), args[j]);
    }
  }

  lemma StandsAside(s: Section, o: nat, bytes: seq<Byte>, at: nat, arg: Arg)
    requires o + |bytes| <= at && Stands(s, at, arg)
    ensures Stands(Splice(s, o, bytes), at, arg)
  {
    SpliceAside(s, o, bytes, at, |arg| + 1);
  }

  /** What a splice puts in place, and what it leaves. */
  lemma SplicePut(s: Section, o: nat, bytes: seq<Byte>)
    requires o + |bytes| <= SECTION_SIZE
    ensures Splice(s, o, bytes)[o..o + |bytes|] == bytes
  {
  }

  lemma SpliceAside(s: Section, o: nat, bytes: seq<Byte>, at: nat, n: nat)
    requires o + |bytes| <= SECTION_SIZE && at + n <= SECTION_SIZE
    requires o + |bytes| <= at || at + n <= o
    ensures Splice(s, o, bytes)[at..at + n] == s[at..at + n]
  {
  }

  // ---- reading arguments back ----

  /** The string at an offset: up to the first zero byte, None when there is none. */
  function StringAt(image: seq<Byte>, at: nat): Option<Arg>
    decreases |image| - at
  {
    if at >= |image| then None
    else if image[at] == 0 then Some([])
    else
      match StringAt(image, at + 1)
      case None => None
      case Some(rest) => Some([image[at]] + rest)
  }

  lemma {:induction false} StringReadsBack(image: seq<Byte>, at: nat, arg: Arg)
    requires Stands(image, at, arg)
    requires forall c :: 0 <= c < |arg| ==> arg[c] != 0
    ensures StringAt(image, at) == Some(arg)
    decreases |arg|
  {
    var stored := image[at..at + |arg| + 1];
    assert image[at] == stored[0];
    if arg != [] {
      assert image[at + 1..at + 1 + |arg[1..]| + 1] == stored[1..] == arg[1..] + [0];
      StringReadsBack(image, at + 1, arg[1..]);
      assert arg == [arg[0]] + arg[1..];
    }
  }

  /** The strings of the argument vector at an offset of a section, each pointer translated through
      the table of the process: None when something lies outside the section. */
  function ArgvAt(table: Table, slot: nat, image: Section, at: nat): Option<seq<Arg>>
    decreases SECTION_SIZE - at
  {
    if at + 4 > SECTION_SIZE then None
    else
      var va := WordOf(image[at..at + 4]);
      if va == 0 then Some([])
      else
        match OffsetOfPointer(table, slot, va)
        case None => None
        case Some(o) =>
          match StringAt(image, o)
          case None => None
          case Some(arg) =>
            match ArgvAt(table, slot, image, at + 4)
            case None => None
            case Some(rest) => Some([arg] + rest)
  }

  /** The offset in the section of the process that a virtual address is translated to. */
  function OffsetOfPointer(table: Table, slot: nat, va: Word): Option<nat> {
    match Translate(table, va)
    case Physical(a) => if SectionAddress(slot) <= a < SectionAddress(slot) + SECTION_SIZE then Some(a - SectionAddress(slot)) else None
    case _ => None
  }

  lemma WindowTranslates(slot: nat, va: Word)
    requires slot < SLOTS && PROCESS_VA <= va < PROCESS_VA + SECTION_SIZE
    ensures OffsetOfPointer(ProcTable(slot), slot, va) == Some(Offset(va))
  {
    ProcTableTranslate(slot, va);
  }

  lemma {:induction false} WordsAt(ws: seq<Word>, j: nat)
    requires j < |ws|
    ensures Words(ws)[4 * j..4 * j + 4] == WordBytes(ws[j])
  {
    var n := |ws| - 1;
    if j < n {
      WordsAt(ws[..n], j);
      assert Words(ws)[4 * j..4 * j + 4] == Words(ws[..n])[4 * j..4 * j + 4];
    }
  }

  lemma {:induction false} PointersAt(args: seq<Arg>, i: nat, j: nat)
    requires j < i <= |args| && Short(args)
    ensures Pointers(args, i)[j] == PROCESS_VA + Place(args, j + 1)
  {
    if j < i - 1 { PointersAt(args, i - 1, j); }
  }

  /** One entry of a vector: a pointer that leads to a string. */
  predicate EntryLeadsTo(table: Table, slot: nat, image: Section, at: nat, arg: Arg) {
    && at + 4 <= SECTION_SIZE
    && var va := WordOf(image[at..at + 4]);
       va != 0 && OffsetOfPointer(table, slot, va).Some? && StringAt(image, OffsetOfPointer(table, slot, va).value) == Some(arg)
  }

  predicate EndsAt(image: Section, at: nat) { at + 4 <= SECTION_SIZE && WordOf(image[at..at + 4]) == 0 }

  lemma EntryReads(table: Table, slot: nat, image: Section, at: nat, arg: Arg, rest: seq<Arg>)
    requires EntryLeadsTo(table, slot, image, at, arg) && ArgvAt(table, slot, image, at + 4) == Some(rest)
    ensures ArgvAt(table, slot, image, at) == Some([arg] + rest)
  {
  }

  predicate AllLead(table: Table, slot: nat, image: Section, args: seq<Arg>, at: nat) {
    forall j {:trigger args[j]} :: 0 <= j < |args| ==> EntryLeadsTo(table, slot, image, at + 4 * j, args[j])
  }

  lemma WholeRead(table: Table, slot: nat, image: Section, args: seq<Arg>, at: nat)
    requires EndsAt(image, at + 4 * |args|) && AllLead(table, slot, image, args, at)
    ensures ArgvAt(table, slot, image, at) == Some(args)
  {
    EntriesRead(table, slot, image, args, 0, at);
    assert at + 4 * 0 == at && args[0..] == args;
  }

  /** A vector whose entries lead to the arguments reads as the arguments. */
  lemma {:induction false} EntriesRead(table: Table, slot: nat, image: Section, args: seq<Arg>, i: nat, at: nat)
    requires i <= |args| && EndsAt(image, at + 4 * |args|)
    requires AllLead(table, slot, image, args, at)
    ensures ArgvAt(table, slot, image, at + 4 * i) == Some(args[i..])
    decreases |args| - i
  {
    if i < |args| {
      EntriesRead(table, slot, image, args, i + 1, at);
      EntryAndRest(table, slot, image, args, i, at + 4 * i);
    } else {
      EndReads(table, slot, image, at + 4 * i);
      assert args[i..] == [];
    }
  }

  lemma EndReads(table: Table, slot: nat, image: Section, at: nat)
    requires EndsAt(image, at)
    ensures ArgvAt(table, slot, image, at) == Some([])
  {
  }

  lemma EntryAndRest(table: Table, slot: nat, image: Section, args: seq<Arg>, i: nat, at: nat)
    requires i < |args| && EntryLeadsTo(table, slot, image, at, args[i])
    requires ArgvAt(table, slot, image, at + 4) == Some(args[i + 1..])
    ensures ArgvAt(table, slot, image, at) == Some(args[i..])
  {
    EntryReads(table, slot, image, at, args[i], args[i + 1..]);
    assert args[i..] == [args[i]] + args[i + 1..];
  }

  /** The words of the vector in the finished image. */
  lemma VectorWord(image: Section, args: seq<Arg>, j: nat)
    requires Short(args) && j <= |args|
    ensures var at := Offset(ArgvVa(args)) + 4 * j;
            && at + 4 <= SECTION_SIZE
            && WordOf(WithArgv(image, args)[at..at + 4]) == if j < |args| then PROCESS_VA + Place(args, j + 1) else 0
  {
    var start, strings, v := Offset(ArgvVa(args)), WithArgs(image, args, |args|), Vector(args);
    var ws := Pointers(args, |args|) + [0];
    SplicePut(strings, start, v);
    WordsAt(ws, j);
    WordReadsBack(ws[j]);
    if j < |args| { PointersAt(args, |args|, j); }
    SliceOfSlice(WithArgv(image, args), start, |v|, 4 * j);
  }

  lemma SliceOfSlice(s: Section, start: nat, n: nat, o: nat)
    requires o + 4 <= n && start + n <= SECTION_SIZE
    ensures s[start..start + n][o..o + 4] == s[start + o..start + o + 4]
  {
    var t := s[start..start + n];
    assert forall k :: o <= k < o + 4 ==> t[k] == s[start + k];
  }

  lemma EntryStands(slot: nat, image: Section, args: seq<Arg>, j: nat)
    requires slot < SLOTS && Storable(args) && j < |args|
    ensures EntryLeadsTo(ProcTable(slot), slot, WithArgv(image, args), Offset(ArgvVa(args)) + 4 * j, args[j])
  {
    VectorWord(image, args, j);
    WindowTranslates(slot, PROCESS_VA + Place(args, j + 1));
    StringStands(image, args, j);
    StringReadsBack(WithArgv(image, args), Place(args, j + 1), args[j]);
  }

  lemma StringStands(image: Section, args: seq<Arg>, j: nat)
    requires Short(args) && j < |args|
    ensures Stands(WithArgv(image, args), Place(args, j + 1), args[j])
  {
    ArgStands(image, args, |args|, j);
    if j + 1 < |args| { PlacesDescend(args, j + 1, |args|); }
    StandsAside(WithArgs(image, args, |args|), Offset(ArgvVa(args)), Vector(args), Place(args, j + 1), args[j]);
  }

  /** The arguments that exec lays down are the ones that a walk of the vector through the table of
      the process finds again. */
  lemma ArgumentsReadBack(slot: nat, image: Section, args: seq<Arg>)
    requires slot < SLOTS && Storable(args)
    ensures ArgvAt(ProcTable(slot), slot, WithArgv(image, args), Offset(ArgvVa(args))) == Some(args)
  {
    AllEntriesStand(slot, image, args);
    VectorWord(image, args, |args|);
    WholeRead(ProcTable(slot), slot, WithArgv(image, args), args, Offset(ArgvVa(args)));
  }

  lemma AllEntriesStand(slot: nat, image: Section, args: seq<Arg>)
    requires slot < SLOTS && Storable(args)
    ensures AllLead(ProcTable(slot), slot, WithArgv(image, args), args, Offset(ArgvVa(args)))
  {
    forall j {:trigger args[j]} | 0 <= j < |args|
      ensures EntryLeadsTo(ProcTable(slot), slot, WithArgv(image, args), Offset(ArgvVa(args)) + 4 * j, args[j])
    {
      EntryStands(slot, image, args, j);
    }
  }

  /** The places of the vector and of the strings. */
  predicate OfArguments(args: seq<Arg>, x: nat)
    requires Short(args)
  {
    || Offset(ArgvVa(args)) <= x < Offset(ArgvVa(args)) + 4 * (|args| + 1)
    || Place(args, |args|) <= x < Offset(STACK_VA)
  }

  /** Outside the arguments a byte that a segment covers is that segment's byte and any other byte is
      zero; a segment in the program window is not touched by the arguments. */
  predicate Intended(image: Section, segments: seq<Segment>, args: seq<Arg>, x: nat)
    requires Short(args) && x < SECTION_SIZE
  {
    && (forall k :: 0 <= k < |segments| && Covers(segments[k], x) && (InWindow(segments[k]) || !OfArguments(args, x)) ==>
          image[x] == segments[k].bytes[x - Offset(segments[k].va)])
    && ((forall k :: 0 <= k < |segments| ==> !Covers(segments[k], x)) && !OfArguments(args, x) ==> image[x] == 0)
  }

  lemma ImageBytes(segments: seq<Segment>, args: seq<Arg>, x: nat)
    requires AllPlaced(segments) && Disjoint(segments) && Short(args) && x < SECTION_SIZE
    ensures Intended(WithArgv(Loaded(seq(SECTION_SIZE, i => 0), segments), args), segments, args, x)
  {
    var zero: Section := seq(SECTION_SIZE, i => 0);
    LoadedBytes(zero, segments, x);
    forall k | 0 <= k < |segments| && Covers(segments[k], x) && InWindow(segments[k]) ensures !OfArguments(args, x) {
      assert Offset(segments[k].va) >= Offset(STACK_VA);
    }
    if !OfArguments(args, x) { ArgvOutside(Loaded(zero, segments), args, x); }
  }

  /** The arguments change nothing outside their places. */
  lemma ArgvOutside(image: Section, args: seq<Arg>, x: nat)
    requires Short(args) && x < SECTION_SIZE && !OfArguments(args, x)
    ensures WithArgv(image, args)[x] == image[x]
  {
    ArgsOutside(image, args, |args|, x);
  }

  // ---- exec itself ----

  /** How the process starts. */
  datatype Start = Start(sp: Word, argv: Word, entry: Word)

  /** _proc_context_init: the registers behind r0 in the order of task_context.h, lr_usr, sp, spsr, r1 to
      r12 and the address to return to. The status is user mode with fast interrupts off. */
  function StartContext(s: Start): Context {
    Context(s.argv, [0, s.sp, 0x10 + 0x40] + seq(12, i => 0) + [s.entry])
  }

  /** mmu_translate_virtual_address, as an offset in the section of the process. */
  method KernelOffset(slot: nat, va: Word) returns (offset: nat)
    requires slot < SLOTS && PROCESS_VA <= va < PROCESS_VA + SECTION_SIZE
    ensures offset == Offset(va)
  {
    WindowTranslates(slot, va);
    offset := Translate(ProcTable(slot), va).address - SectionAddress(slot);
  }

  lemma SplicedIs(a: seq<Byte>, b: seq<Byte>, at: nat, bytes: seq<Byte>)
    requires at + |bytes| <= |a| == |b|
    requires b[..at] == a[..at] && b[at..at + |bytes|] == bytes && b[at + |bytes|..] == a[at + |bytes|..]
    ensures b == Spliced(a, at, bytes)
  {
    assert b == b[..at] + b[at..at + |bytes|] + b[at + |bytes|..];
  }

  /** Bytes copied to a virtual address of the process. */
  method Put(slot: nat, image: array<Byte>, va: nat, bytes: seq<Byte>)
    requires slot < SLOTS && image.Length == SECTION_SIZE
    requires PROCESS_VA <= va < PROCESS_VA + SECTION_SIZE && Offset(va) + |bytes| <= SECTION_SIZE
    modifies image
    ensures image[..] == Splice(old(image[..]), Offset(va), bytes)
  {
    var offset := KernelOffset(slot, va);
    CopyInto(image, offset, bytes);
    SplicedIs(old(image[..]), image[..], offset, bytes);
  }

  /** No segment of the file runs past the end of the section. */
  predicate SegmentsFit(file: seq<Byte>, h: ElfHeader) {
    forall i :: 0 <= i < h.phnum ==> PlacedAt(file, h, i)
  }

  predicate PlacedAt(file: seq<Byte>, h: ElfHeader, i: nat) {
    var s := ParseSegment(file, h, i);
    s.Done? && s.value.Some? ==> Placed(s.value.value)
  }

  lemma {:induction false} SegmentsPlaced(file: seq<Byte>, h: ElfHeader, i: nat)
    requires SegmentsFit(file, h)
    ensures SegmentsFrom(file, h, i).Done? ==> AllPlaced(SegmentsFrom(file, h, i).value)
    decreases h.phnum - i
  {
    if i < h.phnum {
      assert PlacedAt(file, h, i);
      SegmentsPlaced(file, h, i + 1);
    }
  }

  /** What the program headers make of an image. */
  function LoadedFrom(image: Section, file: seq<Byte>, h: ElfHeader, i: nat): Outcome<Section>
    requires SegmentsFit(file, h)
  {
    SegmentsPlaced(file, h, i);
    var segments :- SegmentsFrom(file, h, i);
    Done(Loaded(image, segments))
  }

  /** One program header. */
  lemma LoadedStep(image: Section, file: seq<Byte>, h: ElfHeader, i: nat)
    requires SegmentsFit(file, h) && i < h.phnum
    ensures var s := ParseSegment(file, h, i);
            LoadedFrom(image, file, h, i) ==
              if s.Fatal? then Fatal
              else if s.value.None? then LoadedFrom(image, file, h, i + 1)
              else LoadedFrom(SplicedAt(image, s.value.value), file, h, i + 1)
  {
    SegmentsPlaced(file, h, i);
    SegmentsPlaced(file, h, i + 1);
    assert PlacedAt(file, h, i);
    var s := ParseSegment(file, h, i);
    if SegmentsFrom(file, h, i).Done? && s.value.Some? {
      assert SegmentsFrom(file, h, i).value[1..] == SegmentsFrom(file, h, i + 1).value;
    }
  }

  /** A segment put into the image; one that does not fit changes nothing here. */
  function SplicedAt(image: Section, s: Segment): Section {
    if Placed(s) then Splice(image, Offset(s.va), s.bytes) else image
  }

  /** The loop over the program headers. It halts exactly when the file ends too early or an address is
      none of the process. */
  method LoadSegments(slot: nat, image: array<Byte>, file: seq<Byte>, h: ElfHeader) returns (r: Outcome<()>)
    requires slot < SLOTS && image.Length == SECTION_SIZE && SegmentsFit(file, h)
    modifies image
    ensures match LoadedFrom(old(image[..]), file, h, 0)
            case Fatal => r.Fatal?
            case Done(loaded) => r.Done? && image[..] == loaded
  {
    ghost var target := LoadedFrom(image[..], file, h, 0);
    for i := 0 to h.phnum
      invariant target == LoadedFrom(image[..], file, h, i)
    {
      ghost var was: Section := image[..];
      LoadedStep(was, file, h, i);
      assert PlacedAt(file, h, i);
      var segment :- ParseSegment(file, h, i);
      if segment.Some? {
        Put(slot, image, segment.value.va, segment.value.bytes);
      }
    }
    return Done(());
  }

  /** The loops that copy the strings and the vector. */
  method PushArgs(slot: nat, image: array<Byte>, args: seq<Arg>) returns (sp: nat)
    requires slot < SLOTS && image.Length == SECTION_SIZE && Short(args)
    modifies image
    ensures sp == ArgvVa(args) && image[..] == WithArgv(old(image[..]), args)
  {
    sp := STACK_VA;
    var pointers: seq<Word> := [];
    for i := 0 to |args|
      invariant sp == PROCESS_VA + Place(args, i) && image[..] == WithArgs(old(image[..]), args, i)
      invariant pointers == Pointers(args, i)
    {
      sp := sp - (|args[i]| + 1);
      assert sp == PROCESS_VA + Place(args, i + 1);
      Put(slot, image, sp, args[i] + [0]);
      pointers := pointers + [sp];
    }
    pointers := pointers + [0];
    sp := (sp - 4 * |pointers|) / 4 * 4;
    assert sp == ArgvVa(args);
    Put(slot, image, sp, Words(pointers));
  }

  /** What exec builds from a file and arguments: None when the file is no program, Fatal when an
      assertion of the loader fails. */
  function Built(file: seq<Byte>, args: seq<Arg>): Outcome<Option<(Section, Start)>>
    requires Short(args) && (ParseHeader(file).Some? ==> SegmentsFit(file, ParseHeader(file).value))
  {
    match ParseHeader(file)
    case None => Done(None)
    case Some(h) =>
      var loaded :- LoadedFrom(seq(SECTION_SIZE, i => 0), file, h, 0);
      if h.entry < PROGRAM_START || h.entry > PROGRAM_END then Fatal
      else Done(Some((WithArgv(loaded, args), Start(ArgvVa(args), ArgvVa(args), h.entry))))
  }

  /** __load_proc_from_elf on the section of the process. A file that is no program leaves the
      section as it was. */
  method LoadProcFromElf(slot: nat, image: array<Byte>, file: seq<Byte>, args: seq<Arg>) returns (r: Outcome<Option<Start>>)
    requires slot < SLOTS && image.Length == SECTION_SIZE && Short(args)
    requires ParseHeader(file).Some? ==> SegmentsFit(file, ParseHeader(file).value)
    modifies image
    ensures match Built(file, args)
            case Fatal => r.Fatal?
            case Done(None) => r == Done(None) && image[..] == old(image[..])
            case Done(Some(built)) => r == Done(Some(built.1)) && image[..] == built.0
  {
    var header := ParseHeader(file);
    if header.None? { return Done(None); }
    var h := header.value;
    Zero(image, 0, SECTION_SIZE);
    assert image[..] == image[0..0 + SECTION_SIZE];
    var loaded :- LoadSegments(slot, image, file, h);
    var sp := PushArgs(slot, image, args);
    if h.entry < PROGRAM_START || h.entry > PROGRAM_END { return Fatal; }
    return Done(Some(Start(sp, sp, h.entry)));
  }

  lemma BuiltIs(file: seq<Byte>, args: seq<Arg>, image: Section, start: Start)
    requires Short(args) && ParseHeader(file).Some? && SegmentsFit(file, ParseHeader(file).value)
    requires Built(file, args) == Done(Some((image, start)))
    ensures var segments := SegmentsFrom(file, ParseHeader(file).value, 0);
            && segments.Done? && AllPlaced(segments.value)
            && image == WithArgv(Loaded(seq(SECTION_SIZE, i => 0), segments.value), args)
            && start.sp == start.argv == ArgvVa(args)
  {
    SegmentsPlaced(file, ParseHeader(file).value, 0);
  }

  predicate IntendedImage(image: Section, segments: seq<Segment>, args: seq<Arg>)
    requires Short(args)
  {
    forall x :: 0 <= x < SECTION_SIZE ==> Intended(image, segments, args, x)
  }

  /** For a program whose segments do not overlap the image is exactly the intended one: segment
      bytes in their places, the arguments found again from the register that points at them, an
      aligned stack pointer, zero elsewhere. */
  lemma ExecBuildsImage(slot: nat, file: seq<Byte>, args: seq<Arg>, image: Section, start: Start)
    requires slot < SLOTS && Storable(args) && ParseHeader(file).Some? && SegmentsFit(file, ParseHeader(file).value)
    requires Built(file, args) == Done(Some((image, start)))
    requires Disjoint(SegmentsFrom(file, ParseHeader(file).value, 0).value)
    ensures start.sp % 4 == 0
    ensures ArgvAt(ProcTable(slot), slot, image, Offset(start.argv)) == Some(args)
    ensures IntendedImage(image, SegmentsFrom(file, ParseHeader(file).value, 0).value, args)
  {
    BuiltIs(file, args, image, start);
    var segments := SegmentsFrom(file, ParseHeader(file).value, 0).value;
    ArgumentsReadBack(slot, Loaded(seq(SECTION_SIZE, i => 0), segments), args);
    forall x | 0 <= x < SECTION_SIZE ensures Intended(image, segments, args, x) { ImageBytes(segments, args, x); }
  }

  /** EXEC of an image that is built, as a system call. */
  lemma ExecServed(k: State, path: Text, argv: Word, strings: seq<Text>, image: Section, c: Context)
    requires Ready(k) && !BadArguments(path, argv, strings)
    ensures k.procs[k.current].section.Some? && k.procs[k.current].section.value < SLOTS
    ensures var s := k.procs[k.current].section.value;
            Dispatch(k, ExecCall(path, argv, strings, Done(Some((image, c))))) ==
              Ok(SetProc(k, k.current, k.procs[k.current].(context := c)).(memory := k.memory[s := image]))
  {
    CurrentFacts(k);
    ExecPathSound(k, path, argv, strings, Done(Some((image, c))));
  }

  /** EXEC as a system call of the running process: it goes on at the start of the new program, with
      r0, which no call status overwrites, leading through its own table to the arguments. */
  lemma ExecDeliversArguments(k: State, path: Text, argv: Word, strings: seq<Text>, file: seq<Byte>, args: seq<Arg>,
                              image: Section, start: Start, others: seq<Word>)
    requires Ready(k) && Storable(args) && ParseHeader(file).Some? && SegmentsFit(file, ParseHeader(file).value)
    requires Built(file, args) == Done(Some((image, start))) && !BadArguments(path, argv, strings)
    requires Disjoint(SegmentsFrom(file, ParseHeader(file).value, 0).value)
    ensures var r := Dispatch(k, ExecCall(path, argv, strings, Done(Some((image, Context(start.argv, others))))));
            && r.Ok? && r.value.current == k.current < |r.value.procs|
            && var p := r.value.procs[k.current];
               && p.id == k.procs[k.current].id && p.files == k.procs[k.current].files
               && p.context.others == others
               && p.section.Some? && p.section.value < |r.value.memory| && p.table.Some? && p.table.value < |r.value.tables|
               && ArgvAt(r.value.tables[p.table.value], p.section.value, r.value.memory[p.section.value], Offset(p.context.r0))
                  == Some(args)
  {
    CurrentFacts(k);
    BuiltIs(file, args, image, start);
    ExecBuildsImage(k.procs[k.current].section.value, file, args, image, start);
    ExecServed(k, path, argv, strings, image, Context(start.argv, others));
  }
}
