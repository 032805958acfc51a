/** Programs as they are written: an ELF file laid out byte by byte (Tool Interface Standard,
    Executable and Linking Format 1.2, "ELF Header" and "Program Header"), what exec makes of it, and
    which files it takes for programs (src/kernel/elf_loader/elf_loader.c, src/kernel/elf_loader/elf_format.h). */
module ElfFile {
  import opened Wrappers
  import opened Bytes
  import opened Sequences
  import opened Mmu
  import opened Kernel
  import opened MemoryInvariant
  import opened Steps
  import opened ExecImage
  import opened Returns

  /** A part of the file with its program header. */
  datatype Part = Part(kind: Word, va: Word, physical: Word, bytes: seq<Byte>, memorySize: Word, flags: Word, align: Word)

  /** `ident`, `others` and `tail` are fields that are not read, `gap` is what stands between the header and
      the program headers, `more` what each of them holds behind the fields that are known. */
  datatype Elf = Elf(
    entry: Word, parts: seq<Part>, ident: seq<Byte>, kind: Half, others: seq<Byte>, headerSize: Half, sectionEntry: Half,
    tail: seq<Byte>, gap: seq<Byte>, more: seq<Byte>)

  /** The contents of the parts, one after the other. */
  function Payload(parts: seq<Part>): seq<Byte> {
    if parts == [] then [] else parts[0].bytes + Payload(parts[1..])
  }

  /** Where the contents begin. */
  function PayloadStart(e: Elf): (r: nat)
    ensures r >= 52 + |e.gap|
  {
    52 + |e.gap| + |e.parts| * (32 + |e.more|)
  }

  predicate Proper(e: Elf) {
    && |e.ident| == 10 && |e.others| == 12 && |e.tail| == 4 && e.sectionEntry >= 40
    && |e.parts| < 0x1_0000 && 32 + |e.more| < 0x1_0000
    && PayloadStart(e) + |Payload(e.parts)| < 0x8000_0000
  }

  /** A program header: type, place in the file, virtual and physical address, sizes in the file and in
      memory, permissions, alignment. */
  function PartHeader(p: Part, offset: Word): (r: seq<Byte>)
    requires |p.bytes| < 0x1_0000_0000
    ensures |r| == 32
  {
    WordList([p.kind, offset, p.va, p.physical, |p.bytes|, p.memorySize, p.flags, p.align])
  }

  /** The program headers of parts whose contents begin at an offset. */
  function Rows(parts: seq<Part>, more: seq<Byte>, offset: nat): (r: seq<seq<Byte>>)
    requires offset + |Payload(parts)| < 0x8000_0000
    ensures |r| == |parts| && Even(r, 32 + |more|)
  {
    if parts == [] then []
    else [PartHeader(parts[0], offset) + more] + Rows(parts[1..], more, offset + |parts[0].bytes|)
  }

  function FileHeader(e: Elf): (r: seq<Byte>)
    requires Proper(e)
    ensures |r| == 52
  {
    [0x7F, 0x45, 0x4C, 0x46, 1, 1] + e.ident + HalfBytes(e.kind) + HalfBytes(40) + e.others[..4]
    + WordBytes(e.entry) + WordBytes(52 + |e.gap|) + e.others[4..]
    + HalfBytes(e.headerSize) + HalfBytes(32 + |e.more|) + HalfBytes(|e.parts|) + HalfBytes(e.sectionEntry) + e.tail
  }

  function File(e: Elf): seq<Byte>
    requires Proper(e)
  {
    FileHeader(e) + e.gap + Flat(Rows(e.parts, e.more, PayloadStart(e))) + Payload(e.parts)
  }

  // ---- reading it ----

  /** Parts that are loaded. */
  predicate IsLoaded(p: Part) { p.kind == 1 && p.va != 0 }

  function Loads(parts: seq<Part>): seq<Segment> {
    if parts == [] then []
    else (if IsLoaded(parts[0]) then [Segment(parts[0].va, parts[0].bytes)] else []) + Loads(parts[1..])
  }

  function OffsetOf(parts: seq<Part>, offset: nat, i: nat): nat
    requires i <= |parts|
  {
    if i == 0 then offset else OffsetOf(parts[1..], offset + |parts[0].bytes|, i - 1)
  }

  lemma {:induction false} OffsetInside(parts: seq<Part>, offset: nat, i: nat)
    requires i < |parts|
    ensures offset <= OffsetOf(parts, offset, i)
    ensures OffsetOf(parts, offset, i) - offset + |parts[i].bytes| <= |Payload(parts)|
  {
    if i > 0 { OffsetInside(parts[1..], offset + |parts[0].bytes|, i - 1); }
  }

  lemma {:induction false} RowAt(parts: seq<Part>, more: seq<Byte>, offset: nat, i: nat)
    requires offset + |Payload(parts)| < 0x8000_0000 && i < |parts|
    ensures offset <= OffsetOf(parts, offset, i) && OffsetOf(parts, offset, i) + |parts[i].bytes| <= offset + |Payload(parts)|
    ensures Rows(parts, more, offset)[i] == PartHeader(parts[i], OffsetOf(parts, offset, i)) + more
  {
    OffsetInside(parts, offset, i);
    if i > 0 { RowAt(parts[1..], more, offset + |parts[0].bytes|, i - 1); }
  }

  lemma {:induction false} ContentAt(parts: seq<Part>, offset: nat, i: nat, at: nat)
    requires i < |parts| && at + offset == OffsetOf(parts, offset, i)
    ensures at + |parts[i].bytes| <= |Payload(parts)| && Payload(parts)[at..at + |parts[i].bytes|] == parts[i].bytes
  {
    OffsetInside(parts, offset, i);
    var n, rest := |parts[0].bytes|, Payload(parts[1..]);
    if i == 0 {
      assert Payload(parts)[0..n] == parts[0].bytes;
    } else {
      OffsetInside(parts[1..], offset + n, i - 1);
      ContentAt(parts[1..], offset + n, i - 1, at - n);
      Behind(parts[0].bytes, rest, at - n, at - n + |parts[i].bytes|);
    }
  }

  /** The pieces of the file. */
  lemma Pieces(e: Elf)
    requires Proper(e)
    ensures var f, rows := File(e), Flat(Rows(e.parts, e.more, PayloadStart(e)));
            && |f| == PayloadStart(e) + |Payload(e.parts)| && |rows| == |e.parts| * (32 + |e.more|)
            && f[..52] == FileHeader(e) && f[52 + |e.gap|..PayloadStart(e)] == rows
            && f[PayloadStart(e)..] == Payload(e.parts)
  {
    FlatSize(Rows(e.parts, e.more, PayloadStart(e)), 32 + |e.more|);
  }

  /** The fields of the file header. */
  predicate HeaderIs(h: seq<Byte>, entry: Word, phoff: Word, rowSize: Half, rows: Half, sectionEntry: Half) {
    && |h| == 52 && h[..6] == [0x7F, 0x45, 0x4C, 0x46, 1, 1] && h[18] == 40 && h[19] == 0
    && h[24..28] == WordBytes(entry) && h[28..32] == WordBytes(phoff)
    && h[42..44] == HalfBytes(rowSize) && h[44..46] == HalfBytes(rows) && h[46..48] == HalfBytes(sectionEntry)
  }

  lemma HeaderFields(e: Elf)
    requires Proper(e)
    ensures HeaderIs(FileHeader(e), e.entry, 52 + |e.gap|, 32 + |e.more|, |e.parts|, e.sectionEntry)
  {
  }

  lemma HeaderReadsBack(e: Elf)
    requires Proper(e)
    ensures ParseHeader(File(e)) == Some(ElfHeader(e.entry, 52 + |e.gap|, 32 + |e.more|, |e.parts|))
  {
    Pieces(e);
    HeaderFields(e);
    ParsedHeader(File(e), FileHeader(e), e.entry, 52 + |e.gap|, 32 + |e.more|, |e.parts|, e.sectionEntry);
  }

  lemma ParsedHeader(f: seq<Byte>, h: seq<Byte>, entry: Word, phoff: Word, rowSize: Half, rows: Half, sectionEntry: Half)
    requires |f| >= 52 && f[..52] == h && rowSize >= 32 && sectionEntry >= 40
    requires HeaderIs(h, entry, phoff, rowSize, rows, sectionEntry)
    ensures ParseHeader(f) == Some(ElfHeader(entry, phoff, rowSize, rows))
  {
    WordReadsBack(entry);
    WordReadsBack(phoff);
    assert f[24..28] == h[24..28] && f[28..32] == h[28..32];
    assert f[0..4] == h[..6][0..4] && f[4] == h[..6][4] && f[5] == h[..6][5] && f[18] == h[18] && f[19] == h[19];
    HalfReadsBack(f, h, 42, rowSize);
    HalfReadsBack(f, h, 44, rows);
    HalfReadsBack(f, h, 46, sectionEntry);
  }

  lemma HalfReadsBack(f: seq<Byte>, h: seq<Byte>, at: nat, half: Half)
    requires at + 2 <= |h| <= |f| && f[..|h|] == h && h[at..at + 2] == HalfBytes(half)
    ensures Word16(f, at) == half
  {
    assert f[at] == h[at] == h[at..at + 2][0] && f[at + 1] == h[at + 1] == h[at..at + 2][1];
  }

  lemma PartWords(file: seq<Byte>, at: nat, p: Part, o: Word)
    requires |p.bytes| < 0x1_0000_0000 && at + 32 <= |file| && file[at..at + 32] == PartHeader(p, o)
    ensures Word32(file, at) == p.kind && Word32(file, at + 4) == o
    ensures Word32(file, at + 8) == p.va && Word32(file, at + 16) == |p.bytes|
  {
    HeaderWord(file, at, p, o, 0);
    HeaderWord(file, at, p, o, 1);
    HeaderWord(file, at, p, o, 2);
    HeaderWord(file, at, p, o, 4);
  }

  lemma HeaderWord(file: seq<Byte>, at: nat, p: Part, o: Word, k: nat)
    requires |p.bytes| < 0x1_0000_0000 && at + 32 <= |file| && file[at..at + 32] == PartHeader(p, o) && k < 8
    ensures WordOf(file[at + 4 * k..at + 4 * k + 4]) ==
            [p.kind, o, p.va, p.physical, |p.bytes|, p.memorySize, p.flags, p.align][k]
  {
    WordListAt([p.kind, o, p.va, p.physical, |p.bytes|, p.memorySize, p.flags, p.align], k);
    Inside(file, at, at + 32, 4 * k, 4 * k + 4);
  }

  lemma RowIn(f: seq<Byte>, table: seq<Byte>, first: nat, start: nat, x: nat, row: seq<Byte>)
    requires first <= start <= |f| && f[first..start] == table && x + 32 <= |table| && table[x..x + 32] == row
    ensures first + x + 32 <= start && f[first + x..first + x + 32] == row
  {
    Inside(f, first, start, x, x + 32);
  }

  /** The program header of a part stands where the file header says. */
  lemma HeaderStandsAt(e: Elf, i: nat)
    requires Proper(e) && i < |e.parts|
    ensures var at, o := 52 + |e.gap| + i * (32 + |e.more|), OffsetOf(e.parts, PayloadStart(e), i);
            && 0 <= i * (32 + |e.more|) && o + |e.parts[i].bytes| < 0x8000_0000 && at + 32 <= |File(e)| < 0x8000_0000
            && File(e)[at..at + 32] == PartHeader(e.parts[i], o)
  {
    var start, x := PayloadStart(e), i * (32 + |e.more|);
    var rows := Rows(e.parts, e.more, start);
    Pieces(e);
    RowAt(e.parts, e.more, start, i);
    FlatSlice(rows, 32 + |e.more|, i, x, 0, 32);
    assert rows[i][0..32] == PartHeader(e.parts[i], OffsetOf(e.parts, start, i));
    RowIn(File(e), Flat(rows), 52 + |e.gap|, start, x, PartHeader(e.parts[i], OffsetOf(e.parts, start, i)));
  }

  /** Its contents stand where that header says. */
  lemma ContentsStandAt(e: Elf, i: nat)
    requires Proper(e) && i < |e.parts|
    ensures var o, n := OffsetOf(e.parts, PayloadStart(e), i), |e.parts[i].bytes|;
            o + n <= |File(e)| && File(e)[o..o + n] == e.parts[i].bytes
  {
    var start := PayloadStart(e);
    Pieces(e);
    OffsetInside(e.parts, start, i);
    var o := OffsetOf(e.parts, start, i);
    ContentAt(e.parts, start, i, o - start);
    Inside(File(e), start, |File(e)|, o - start, o - start + |e.parts[i].bytes|);
  }

  lemma ParsedPart(file: seq<Byte>, at: nat, p: Part, o: Word)
    requires at + 32 <= |file| < 0x8000_0000
    requires |p.bytes| < 0x1_0000_0000 && file[at..at + 32] == PartHeader(p, o)
    requires o + |p.bytes| <= |file| && file[o..o + |p.bytes|] == p.bytes
    ensures SegmentAt(file, at) ==
            if !IsLoaded(p) then Done(None)
            else if !(0x80_0000 <= p.va < 0x90_0000) then Fatal
            else Done(Some(Segment(p.va, p.bytes)))
  {
    PartWords(file, at, p, o);
  }

  lemma ParseIs(file: seq<Byte>, h: ElfHeader, i: nat, at: nat)
    requires at == h.phoff + i * h.phentsize && at < 0x8000_0000
    ensures ParseSegment(file, h, i) == SegmentAt(file, at)
  {
    assert at % ADDRESS_LIMIT == at;
  }

  lemma SegmentReadsBack(e: Elf, i: nat)
    requires Proper(e) && i < |e.parts|
    ensures ParseSegment(File(e), ElfHeader(e.entry, 52 + |e.gap|, 32 + |e.more|, |e.parts|), i) ==
            var p := e.parts[i];
            if !IsLoaded(p) then Done(None)
            else if !(0x80_0000 <= p.va < 0x90_0000) then Fatal
            else Done(Some(Segment(p.va, p.bytes)))
  {
    HeaderStandsAt(e, i);
    ContentsStandAt(e, i);
    var at := 52 + |e.gap| + i * (32 + |e.more|);
    ParsedPart(File(e), at, e.parts[i], OffsetOf(e.parts, PayloadStart(e), i));
    ParseIs(File(e), ElfHeader(e.entry, 52 + |e.gap|, 32 + |e.more|, |e.parts|), i, at);
  }

  predicate InSection(p: Part) { 0x80_0000 <= p.va < 0x90_0000 }

  /** Every part that is loaded begins in the section of the process. */
  predicate AllInside(parts: seq<Part>) { forall i :: 0 <= i < |parts| && IsLoaded(parts[i]) ==> InSection(parts[i]) }

  /** No part that is loaded there runs past the end of the section. */
  predicate NoneRunsOver(parts: seq<Part>) {
    forall i :: 0 <= i < |parts| && IsLoaded(parts[i]) && InSection(parts[i]) ==> parts[i].va + |parts[i].bytes| <= 0x90_0000
  }

  /** What the file header says, in the terms of the loader. */
  function HeaderOf(e: Elf): ElfHeader { ElfHeader(e.entry, 52 + |e.gap|, 32 + |e.more|, |e.parts|) }

  lemma {:induction false} SegmentsReadBack(e: Elf, i: nat)
    requires Proper(e) && i <= |e.parts|
    ensures SegmentsFrom(File(e), HeaderOf(e), i) == if AllInside(e.parts[i..]) then Done(Loads(e.parts[i..])) else Fatal
    decreases |e.parts| - i
  {
    if i < |e.parts| {
      var parts, rest := e.parts[i..], e.parts[i + 1..];
      assert parts[1..] == rest && parts[0] == e.parts[i];
      SegmentReadsBack(e, i);
      SegmentsReadBack(e, i + 1);
      FirstInside(parts);
    }
  }

  lemma FirstInside(parts: seq<Part>)
    requires parts != []
    ensures AllInside(parts) <==> (IsLoaded(parts[0]) ==> InSection(parts[0])) && AllInside(parts[1..])
    ensures !IsLoaded(parts[0]) ==> Loads(parts) == Loads(parts[1..])
  {
    assert forall j :: 0 <= j < |parts| - 1 ==> parts[1..][j] == parts[j + 1];
  }

  /** The loader takes the file for a program that fits. */
  predicate Loadable(file: seq<Byte>) { ParseHeader(file).Some? ==> SegmentsFit(file, ParseHeader(file).value) }

  lemma FileFits(e: Elf)
    requires Proper(e) && NoneRunsOver(e.parts)
    ensures ParseHeader(File(e)) == Some(HeaderOf(e)) && Loadable(File(e))
  {
    HeaderReadsBack(e);
    forall i | 0 <= i < |e.parts| ensures PlacedAt(File(e), HeaderOf(e), i) { SegmentReadsBack(e, i); }
  }

  predicate EntryInside(e: Elf) { 0x84_0000 <= e.entry <= 0x88_0000 }

  /** A written program is loaded if and only if its parts begin in the section of the process and its entry
      lies in the program window; otherwise an assertion fails. */
  lemma WrittenLoads(e: Elf, args: seq<Arg>)
    requires Proper(e) && NoneRunsOver(e.parts) && Short(args)
    ensures Loadable(File(e))
    ensures Built(File(e), args).Fatal? <==> !(AllInside(e.parts) && EntryInside(e))
    ensures AllInside(e.parts) && EntryInside(e) ==>
      var built := Built(File(e), args).value;
      && built.Some? && built.value.1.entry == e.entry && built.value.1.argv == built.value.1.sp
      && SegmentsFrom(File(e), HeaderOf(e), 0) == Done(Loads(e.parts))
  {
    FileFits(e);
    SegmentsReadBack(e, 0);
    assert e.parts[0..] == e.parts;
    SegmentsPlaced(File(e), HeaderOf(e), 0);
  }

  // ---- the image ----

  /** Parts that are loaded do not overlap. */
  predicate Separate(parts: seq<Part>) {
    forall i, j :: 0 <= i < j < |parts| && IsLoaded(parts[i]) && IsLoaded(parts[j]) ==> DoNotOverlap(parts[i], parts[j])
  }

  predicate DoNotOverlap(p: Part, q: Part) {
    p.bytes == [] || q.bytes == [] || p.va + |p.bytes| <= q.va || q.va + |q.bytes| <= p.va
  }

  lemma {:induction false} LoadOf(parts: seq<Part>, i: nat) returns (k: nat)
    requires i < |parts| && IsLoaded(parts[i])
    ensures k < |Loads(parts)| && Loads(parts)[k] == Segment(parts[i].va, parts[i].bytes)
  {
    if i == 0 {
      k := 0;
    } else {
      k := LoadOf(parts[1..], i - 1);
      if IsLoaded(parts[0]) { k := k + 1; }
    }
  }

  lemma {:induction false} PartOf(parts: seq<Part>, k: nat) returns (i: nat)
    requires k < |Loads(parts)|
    ensures i < |parts| && IsLoaded(parts[i]) && Loads(parts)[k] == Segment(parts[i].va, parts[i].bytes)
  {
    if IsLoaded(parts[0]) && k == 0 {
      i := 0;
    } else {
      i := PartOf(parts[1..], if IsLoaded(parts[0]) then k - 1 else k);
      i := i + 1;
    }
  }

  lemma {:induction false} LoadsDisjoint(parts: seq<Part>)
    requires Separate(parts)
    ensures Disjoint(Loads(parts))
  {
    if parts != [] {
      var rest := parts[1..];
      assert forall i :: 0 <= i < |rest| ==> rest[i] == parts[i + 1];
      LoadsDisjoint(rest);
      if IsLoaded(parts[0]) {
        var first := Segment(parts[0].va, parts[0].bytes);
        forall k | 0 <= k < |Loads(rest)| ensures ExecImage.Apart(first, Loads(rest)[k]) {
          var i := PartOf(rest, k);
          assert rest[i] == parts[i + 1];
        }
        assert Loads(parts) == [first] + Loads(rest);
      } else {
        assert Loads(parts) == Loads(rest);
      }
    }
  }

  /** A part of the program window. */
  predicate InProgram(p: Part) { IsLoaded(p) && 0x84_0000 <= p.va && p.va + |p.bytes| <= 0x88_0000 }

  predicate Touches(p: Part, va: nat) { IsLoaded(p) && p.va <= va < p.va + |p.bytes| }

  /** The parts of the program window stand in their places, and where no part is the window is zero. */
  predicate ProgramStands(image: Section, parts: seq<Part>) {
    && (forall i, j :: 0 <= i < |parts| && InProgram(parts[i]) && 0 <= j < |parts[i].bytes| ==>
          image[parts[i].va - 0x80_0000 + j] == parts[i].bytes[j])
    && (forall va {:trigger image[va - 0x80_0000]} :: 0x84_0000 <= va < 0x88_0000 && (forall i :: 0 <= i < |parts| ==> !Touches(parts[i], va)) ==>
          image[va - 0x80_0000] == 0)
  }

  lemma PartByte(image: Section, parts: seq<Part>, args: seq<Arg>, i: nat, j: nat)
    requires Short(args) && IntendedImage(image, Loads(parts), args)
    requires i < |parts| && InProgram(parts[i]) && j < |parts[i].bytes|
    ensures image[parts[i].va - 0x80_0000 + j] == parts[i].bytes[j]
  {
    var k := LoadOf(parts, i);
    var x := parts[i].va - 0x80_0000 + j;
    assert Intended(image, Loads(parts), args, x);
    assert Covers(Loads(parts)[k], x) && InWindow(Loads(parts)[k]);
  }

  lemma GapByte(image: Section, parts: seq<Part>, args: seq<Arg>, va: nat)
    requires Short(args) && IntendedImage(image, Loads(parts), args) && AllInside(parts)
    requires 0x84_0000 <= va < 0x88_0000 && forall i :: 0 <= i < |parts| ==> !Touches(parts[i], va)
    ensures image[va - 0x80_0000] == 0
  {
    var x := va - 0x80_0000;
    forall k | 0 <= k < |Loads(parts)| ensures !Covers(Loads(parts)[k], x) { NotCovered(parts, va, k); }
    AboveArguments(args, x);
    assert Intended(image, Loads(parts), args, x);
  }

  lemma NotCovered(parts: seq<Part>, va: nat, k: nat)
    requires AllInside(parts) && 0x84_0000 <= va < 0x88_0000 && k < |Loads(parts)|
    requires forall i :: 0 <= i < |parts| ==> !Touches(parts[i], va)
    ensures !Covers(Loads(parts)[k], va - 0x80_0000)
  {
    var i := PartOf(parts, k);
    assert !Touches(parts[i], va);
  }

  lemma AboveArguments(args: seq<Arg>, x: nat)
    requires Short(args) && x >= 0x4_0000
    ensures !OfArguments(args, x)
  {
    assert ArgvVa(args) + 4 * (|args| + 1) <= PROCESS_VA + Place(args, |args|);
  }

  lemma IntendedStands(image: Section, parts: seq<Part>, args: seq<Arg>)
    requires Short(args) && IntendedImage(image, Loads(parts), args) && AllInside(parts)
    ensures ProgramStands(image, parts)
  {
    forall i, j | 0 <= i < |parts| && InProgram(parts[i]) && 0 <= j < |parts[i].bytes|
      ensures image[parts[i].va - 0x80_0000 + j] == parts[i].bytes[j]
    {
      PartByte(image, parts, args, i, j);
    }
    forall va {:trigger image[va - 0x80_0000]} | 0x84_0000 <= va < 0x88_0000 && forall i :: 0 <= i < |parts| ==> !Touches(parts[i], va)
      ensures image[va - 0x80_0000] == 0
    {
      GapByte(image, parts, args, va);
    }
  }

  /** A program as it is written, with parts that do not overlap, and arguments that the kernel can hold. */
  predicate Runnable(e: Elf, args: seq<Arg>) {
    && Proper(e) && NoneRunsOver(e.parts) && AllInside(e.parts) && EntryInside(e) && Separate(e.parts) && ExecImage.Storable(args)
  }

  /** A written program is loaded as it was written: it starts at its entry, its parts stand in their
      places, and the register that starts with the argument vector leads to the arguments. */
  lemma ProgramLoads(slot: nat, e: Elf, args: seq<Arg>, image: Section, start: Start)
    requires slot < SLOTS && Runnable(e, args)
    ensures Loadable(File(e))
    ensures Built(File(e), args) == Done(Some((image, start))) ==>
      && start.entry == e.entry && start.sp == start.argv && start.sp % 4 == 0
      && 0x80_0100 <= start.sp < 0x84_0000
      && ArgvAt(ProcTable(slot), slot, image, start.argv - 0x80_0000) == Some(args)
      && IntendedImage(image, Loads(e.parts), args) && ProgramStands(image, e.parts)
  {
    WrittenLoads(e, args);
    FileFits(e);
    LoadsDisjoint(e.parts);
    if Built(File(e), args) == Done(Some((image, start))) {
      ExecBuildsImage(slot, File(e), args, image, start);
      BuiltIs(File(e), args, image, start);
      IntendedStands(image, e.parts, args);
      assert ArgvVa(args) == PROCESS_VA + Offset(start.argv);
    }
  }

  /** Which files exec takes for programs, byte by byte: a header of 52 bytes that begins with the magic
      number, 32-bit, little-endian, for the ARM, with table entries that are large enough. */
  predicate IsProgram(file: seq<Byte>) {
    && |file| >= 52 && file[..6] == [0x7F, 0x45, 0x4C, 0x46, 1, 1] && file[18..20] == [40, 0]
    && (file[43] > 0 || file[42] >= 32) && (file[47] > 0 || file[46] >= 40)
  }

  lemma RefusedIff(file: seq<Byte>, args: seq<Arg>)
    requires Short(args) && Loadable(file)
    ensures Built(file, args) == Done(None) <==> !IsProgram(file)
  {
    if |file| >= 52 {
      MagicIs(file[0..4]);
      assert file[..6][..4] == file[0..4] && file[..6] == file[0..4] + [file[4], file[5]];
      assert file[18..20] == [file[18], file[19]];
      HalfIs(file[18], file[19], 40);
      HalfIs(file[42], file[43], 32);
      HalfIs(file[46], file[47], 40);
    }
  }

  lemma MagicIs(s: seq<Byte>)
    requires |s| == 4
    ensures WordOf(s) == 0x464C_457F <==> s == [0x7F, 0x45, 0x4C, 0x46]
  {
    if WordOf(s) == 0x464C_457F {
      assert s[0] == 0x7F && s[1] == 0x45 && s[2] == 0x4C && s[3] == 0x46;
    }
  }

  lemma HalfIs(low: int, high: int, n: int)
    requires 0 <= low < 256 && 0 <= high < 256 && 0 <= n < 256
    ensures low + 0x100 * high == n <==> low == n && high == 0
    ensures low + 0x100 * high >= n <==> high > 0 || low >= n
  {
  }

  // ---- exec of a written program ----

  /** What exec makes of a written program. */
  predicate Makes(e: Elf, args: seq<Arg>, image: Section, start: Start) {
    Proper(e) && Short(args) && Loadable(File(e)) && Built(File(e), args) == Done(Some((image, start)))
  }

  /** The registers of a program that has just started: of those behind r0 the stack pointer is the second,
      the status the third and the address to return to the last; the others are zero. */
  predicate FreshRegisters(c: Context, entry: Word) {
    && |c.others| == 16 && c.others[15] == entry && c.others[2] == 0x50 && c.others[1] == c.r0 && c.r0 % 4 == 0
    && c.others[0] == 0 && forall r :: 3 <= r < 15 ==> c.others[r] == 0
  }

  /** A process runs the program: registers, arguments and parts. */
  predicate Runs(k: State, i: nat, e: Elf, args: seq<Arg>) {
    && i < |k.procs|
    && var p := k.procs[i];
       && p.status.Scheduled? && FreshRegisters(p.context, e.entry) && 0x80_0000 <= p.context.r0
       && p.section.Some? && p.section.value < |k.memory| && p.table.Some? && p.table.value < |k.tables|
       && ArgvAt(k.tables[p.table.value], p.section.value, k.memory[p.section.value], p.context.r0 - 0x80_0000) == Some(args)
       && ProgramStands(k.memory[p.section.value], e.parts)
  }

  /** EXEC of a written program by the running process: it goes on with the registers of a new program, the
      address to return to being the entry that was written, its stack pointer aligned, r0 leading through
      its own table to the arguments, and the parts of the program in its section. */
  lemma ProgramStarts(k: State, c: Context, call: Call, e: Elf, args: seq<Arg>, image: Section, start: Start, k1: State)
    requires Ready(k) && Step(k, Syscall(c, call)) == Ok(k1)
    requires call.ExecCall? && call.image == Done(Some((image, StartContext(start))))
    requires Runnable(e, args) && Makes(e, args, image, start)
    ensures Runs(k1, k.current, e, args) && k.current < |k.procs| && CallerKeeps(k, call, k1, k1.procs[k.current])
  {
    CurrentFacts(k);
    ExecReplaces(k, c, call, k1);
    RunsIs(k1, k.current, k.procs[k.current].section.value, e, args, image, start);
  }

  lemma RunsIs(k: State, i: nat, slot: nat, e: Elf, args: seq<Arg>, image: Section, start: Start)
    requires i < |k.procs| && slot < SLOTS && slot < |k.memory| && k.memory[slot] == image
    requires var p := k.procs[i];
             && p.status.Scheduled? && p.context == StartContext(start) && p.section == Some(slot)
             && p.table.Some? && p.table.value < |k.tables| && k.tables[p.table.value] == ProcTable(slot)
    requires Runnable(e, args) && Makes(e, args, image, start)
    ensures Runs(k, i, e, args)
  {
    ProgramLoads(slot, e, args, image, start);
    StartsFresh(start);
  }

  lemma StartsFresh(start: Start)
    requires start.sp == start.argv && start.sp % 4 == 0
    ensures FreshRegisters(StartContext(start), start.entry) && StartContext(start).r0 == start.argv
  {
  }
}
