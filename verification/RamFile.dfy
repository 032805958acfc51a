/** ramfs regular files: a buffer on the heap that doubles when a write needs more room
    (src/kernel/vfs/filesystems/ramfs/ramfs.c). */
module RamFile {
  import opened Wrappers
  import opened Bytes
  import opened Mmu
  import opened Heap
  import opened FsUtils

  const INITIAL_ALLOC: nat := 512

  /** The sizes that doubling passes through. */
  function AllocOf(level: nat): (a: nat)
    ensures a >= INITIAL_ALLOC
  {
    if level == 0 then INITIAL_ALLOC else 2 * AllocOf(level - 1)
  }

  /** The level of the largest one of 32 bits; after it comes 0. */
  const TOP: nat := 22

  lemma TopIs()
    ensures AllocOf(TOP) == MAX_SIZE
  {
    assert AllocOf(4) == 0x2000;
    assert AllocOf(8) == 0x2_0000;
    assert AllocOf(12) == 0x20_0000;
    assert AllocOf(16) == 0x200_0000;
    assert AllocOf(20) == 0x2000_0000;
  }

  lemma {:induction false} LevelsGrow(k: nat, l: nat)
    requires k <= l
    ensures AllocOf(k) <= AllocOf(l)
  {
    if k < l { LevelsGrow(k, l - 1); }
  }

  /** A 32-bit word as an off_t. */
  function Signed(x: int): int {
    var u := x % 0x1_0000_0000;
    if u < 0x8000_0000 then u else u - 0x1_0000_0000
  }

  /** Doubling until a size fits. */
  function Doubled(alloc: nat, size: nat): (r: nat)
    requires 0 < alloc
    ensures size <= r && alloc <= r
    ensures r == alloc || (2 * alloc <= r < 2 * size)
    decreases size - alloc
  {
    if size <= alloc then alloc else Doubled(2 * alloc, size)
  }

  function Max(a: nat, b: nat): nat { if a >= b then a else b }

  /** The heap cursor after the buffer has moved, or has not. */
  function CursorAfter(cursor: nat, before: nat, alloc: nat): nat {
    if alloc > before then NextCursor(cursor, alloc) else cursor
  }

  /** Bytes written at a position inside a file or at its end. */
  function Written(content: seq<Byte>, at: nat, bytes: seq<Byte>): (r: seq<Byte>)
    requires at <= |content|
    ensures |r| == Max(at + |bytes|, |content|)
  {
    content[..at] + bytes + if at + |bytes| <= |content| then content[at + |bytes|..] else []
  }

  /** The loop of write. For more than 2^31 bytes 32 bits are too few: it reaches 0 and never ends. That
      is None. */
  method DoubleUntil(alloc: nat, needed: nat, ghost level: nat) returns (r: Option<nat>, ghost top: nat)
    requires alloc == AllocOf(level) && level <= TOP
    ensures r.None? <==> needed > MAX_SIZE
    ensures r.Some? ==> r.value == Doubled(alloc, needed) == AllocOf(top) && top <= TOP
  {
    top := level;
    if needed > MAX_SIZE { return None, level; }
    TopIs();
    var size := alloc;
    while size < needed
      invariant size == AllocOf(top) && top <= TOP && Doubled(alloc, needed) == Doubled(size, needed)
      decreases needed - size
    {
      size := size * 2;
      top := top + 1;
    }
    return Some(size), top;
  }

  /** A ramfs inode of a regular file. `consumed` adds up the sizes of the buffers it ever had. */
  class RamInode {
    const heap: Heap
    var data: nat
    var allocSize: nat
    var size: nat
    ghost var slot: nat
    ghost var level: nat
    ghost var consumed: nat

    ghost predicate Valid()
      reads this, heap, heap.memory
    {
      && heap.Valid() && slot < |heap.blocks| && heap.blocks[slot] == Block(data, allocSize)
      && size <= allocSize && allocSize == AllocOf(level) && level <= TOP && consumed < 2 * allocSize
    }

    ghost function Content(): (r: seq<Byte>)
      reads this, heap, heap.memory
      requires Valid()
      ensures |r| == size
    {
      InBounds(heap.memory[..], heap.cursor, heap.blocks, slot);
      Held(heap.memory[..], heap.blocks[slot])[..size]
    }

    /** The blocks of everything else on the heap hold what they held. */
    twostate predicate OthersKept()
      reads this, heap, heap.memory
    {
      KeptBut(old(heap.memory[..]), old(heap.blocks), old(slot), heap.memory[..], heap.blocks, slot)
    }

    constructor FromBlock(heap: Heap, data: nat, ghost slot: nat)
      requires heap.Valid() && slot < |heap.blocks| && heap.blocks[slot] == Block(data, INITIAL_ALLOC)
      ensures this.heap == heap && Valid() && Content() == [] && this.slot == slot && consumed == INITIAL_ALLOC
    {
      this.heap, this.data, allocSize, size := heap, data, INITIAL_ALLOC, 0;
      this.slot, level, consumed := slot, 0, INITIAL_ALLOC;
    }

    /** The buffer moves to a larger block. */
    method Move(alloc: nat, ghost top: nat) returns (r: Outcome<()>)
      requires Valid() && 2 * allocSize <= alloc <= MAX_SIZE && alloc == AllocOf(top) && top <= TOP
      modifies this, heap, heap.memory
      ensures r.Fatal? <==> old(heap.cursor) + HEADER + alloc > SECTION_SIZE
      ensures r.Done? ==>
        Valid() && allocSize == alloc && size == old(size) && Content() == old(Content()) && OthersKept()
      ensures r.Done? ==> heap.cursor == NextCursor(old(heap.cursor), alloc)
    {
      InBounds(heap.memory[..], heap.cursor, heap.blocks, slot);
      ghost var held := Held(heap.memory[..], heap.blocks[slot]);
      var moved := heap.Realloc(slot, data, alloc);
      if moved.Fatal? { return Fatal; }
      PrefixOfSum(held, seq(alloc - allocSize, x => 0), size);
      data, allocSize, consumed := moved.value, alloc, consumed + alloc;
      slot, level := |heap.blocks| - 1, top;
      return Done(());
    }

    /** The part of write that makes room. Fatal is also the loop that never ends. */
    method Grow(needed: nat) returns (r: Outcome<()>)
      requires Valid()
      modifies this, heap, heap.memory
      ensures var alloc := Doubled(old(allocSize), needed);
              && (r.Fatal? <==> alloc > old(allocSize) && old(heap.cursor) + HEADER + alloc > SECTION_SIZE)
              && (r.Done? ==>
                  && Valid() && allocSize == alloc && size == old(size) && Content() == old(Content()) && OthersKept()
                  && heap.cursor == CursorAfter(old(heap.cursor), old(allocSize), alloc))
    {
      InBounds(heap.memory[..], heap.cursor, heap.blocks, slot);
      ghost var top;
      var alloc: Option<nat>;
      alloc, top := DoubleUntil(allocSize, needed, level);
      if alloc.None? { return Fatal; }
      if alloc.value == allocSize { return Done(()); }
      TopIs();
      LevelsGrow(top, TOP);
      r := Move(alloc.value, top);
    }

    /** The part of write that stores. */
    method Put(at: nat, bytes: seq<Byte>)
      requires Valid() && at <= size && Max(at + |bytes|, size) <= allocSize
      modifies this`size, heap.memory
      ensures Valid() && Content() == Written(old(Content()), at, bytes) && OthersKept()
    {
      ghost var block := heap.blocks[slot];
      InBounds(heap.memory[..], heap.cursor, heap.blocks, slot);
      ghost var held := Held(heap.memory[..], block);
      heap.Store(slot, data + at, bytes);
      SplicedPrefix(held, at, bytes, size);
      size := if at + |bytes| >= size then at + |bytes| else size;
    }
  }

  /** All old blocks but one hold what they held; the excepted one stays or becomes a new one. */
  ghost predicate KeptBut(a: seq<Byte>, before: seq<Block>, i: nat, b: seq<Byte>, after: seq<Block>, j: nat) {
    && |before| <= |after| && after[..|before|] == before
    && (j == i || j >= |before|)
    && forall x {:trigger before[x]} :: 0 <= x < |before| && x != i ==> Held(b, before[x]) == Held(a, before[x])
  }

  lemma KeptTwice(a: seq<Byte>, before: seq<Block>, i: nat, b: seq<Byte>, middle: seq<Block>, j: nat, c: seq<Byte>, after: seq<Block>, k: nat)
    requires KeptBut(a, before, i, b, middle, j) && KeptBut(b, middle, j, c, after, k)
    ensures KeptBut(a, before, i, c, after, k)
  {
    forall x {:trigger before[x]} | 0 <= x < |before| && x != i ensures Held(c, before[x]) == Held(a, before[x]) {
      assert middle[x] == before[x];
    }
    assert after[..|before|] == middle[..|before|];
  }

  lemma InBounds(memory: seq<Byte>, cursor: nat, blocks: seq<Block>, i: nat)
    requires Laid(memory, cursor, blocks) && i < |blocks|
    ensures blocks[i].End() <= |memory| && |Held(memory, blocks[i])| == blocks[i].size
  {
  }

  lemma PrefixOfSum(a: seq<Byte>, b: seq<Byte>, n: nat)
    requires n <= |a|
    ensures (a + b)[..n] == a[..n]
  {
  }

  lemma SplicedPrefix(held: seq<Byte>, at: nat, bytes: seq<Byte>, size: nat)
    requires at <= size <= |held| && at + |bytes| <= |held|
    ensures Spliced(held, at, bytes)[..Max(at + |bytes|, size)] == Written(held[..size], at, bytes)
  {
  }

  /** Two files on one heap: what is done to the first leaves the second as it was. */
  twostate lemma OtherFileKept(f: RamInode, g: RamInode)
    requires old(f.Valid()) && f.Valid() && f.OthersKept()
    requires old(g.Valid()) && g.heap == f.heap && old(g.slot) != old(f.slot)
    requires g.data == old(g.data) && g.allocSize == old(g.allocSize) && g.size == old(g.size)
    requires g.slot == old(g.slot) && g.level == old(g.level) && g.consumed == old(g.consumed)
    ensures g.Valid() && g.Content() == old(g.Content()) && g.slot != f.slot
  {
    assert g.heap.blocks[g.slot] == old(g.heap.blocks[g.slot]);
  }

  /** sizeof(inode_t) and sizeof(ramfs_file_private_t). */
  const INODE_BYTES: nat := 40
  const PRIVATE_BYTES: nat := 8

  /** The cursor at which the data of a new file is allocated. */
  function DataCursor(cursor: nat): nat { NextCursor(NextCursor(cursor, INODE_BYTES), PRIVATE_BYTES) }

  lemma KeepsTwice(a: seq<Byte>, before: seq<Block>, b: seq<Byte>, middle: seq<Block>, c: seq<Byte>, after: seq<Block>)
    requires Keeps(a, before, b, middle) && Keeps(b, middle, c, after)
    ensures Keeps(a, before, c, after)
  {
    forall i | 0 <= i < |before| ensures Held(c, before[i]) == Held(a, before[i]) {
      assert middle[..|before|][i] == middle[i] && after[..|middle|][i] == after[i];
    }
    assert after[..|before|] == after[..|middle|][..|before|];
  }

  /** The allocating half of ramfs create: an inode, its private record and a zeroed buffer of 512
      bytes; it halts exactly when the last of them does not fit. */
  method CreateFile(heap: Heap) returns (r: Outcome<RamInode>)
    requires heap.Valid()
    modifies heap, heap.memory
    ensures r.Fatal? <==> DataCursor(old(heap.cursor)) + HEADER + INITIAL_ALLOC > SECTION_SIZE
    ensures r.Done? ==> heap.KeepsBlocks() && fresh(r.value) && r.value.heap == heap && r.value.Valid()
    ensures r.Done? ==> r.value.Content() == [] && r.value.slot == |old(heap.blocks)| + 2
    ensures r.Done? ==> heap.cursor == NextCursor(DataCursor(old(heap.cursor)), INITIAL_ALLOC)
  {
    ghost var m0, b0 := heap.memory[..], heap.blocks;
    var inode := heap.Calloc(INODE_BYTES);
    if inode.None? { return Fatal; }
    ghost var m1, b1 := heap.memory[..], heap.blocks;
    var record := heap.Calloc(PRIVATE_BYTES);
    if record.None? { return Fatal; }
    ghost var m2, b2 := heap.memory[..], heap.blocks;
    KeepsTwice(m0, b0, m1, b1, m2, b2);
    var data := heap.Calloc(INITIAL_ALLOC);
    if data.None? { return Fatal; }
    KeepsTwice(m0, b0, m2, b2, heap.memory[..], heap.blocks);
    var file := new RamInode.FromBlock(heap, data.value, |heap.blocks| - 1);
    return Done(file);
  }

  // ---- open files ----

  /** A file as its users see it: bytes and a position. */
  datatype Model = Model(content: seq<Byte>, pos: int)

  /** What read returns: the count, -1 at the end of the file, for an empty read and for one whose end is
      no positive off_t. */
  function ReadCount(m: Model, count: nat): (r: int)
    ensures r == -1 || (0 <= m.pos && 0 < r <= count && m.pos + r <= |m.content|)
  {
    var asked := Signed(m.pos + count);
    var end := if asked <= |m.content| then asked else |m.content|;
    if m.pos < 0 || m.pos >= end then -1 else end - m.pos
  }

  /** There are no sparse files. */
  predicate Writable(m: Model) { 0 <= m.pos <= |m.content| }

  function AfterWrite(m: Model, bytes: seq<Byte>): Model {
    if Writable(m) then Model(Written(m.content, m.pos, bytes), m.pos + |bytes|) else m
  }

  function SeekTarget(m: Model, delta: int, whence: Whence): int {
    Signed(Reference(whence, m.pos, |m.content|) + delta)
  }

  /** The three ways to name a position. */
  lemma SeekLands(m: Model, delta: int, whence: Whence)
    ensures whence.FromStart? && 0 <= delta < MAX_SIZE ==> SeekTarget(m, delta, whence) == delta
    ensures whence.FromEnd? && 0 <= |m.content| + delta < MAX_SIZE ==> SeekTarget(m, delta, whence) == |m.content| + delta
    ensures whence.FromHere? && 0 <= m.pos + delta < MAX_SIZE ==> SeekTarget(m, delta, whence) == m.pos + delta
  {
  }

  class OpenFile {
    const inode: RamInode
    var pos: int

    ghost predicate Valid()
      reads this, inode, inode.heap, inode.heap.memory
    {
      inode.Valid()
    }

    ghost function View(): Model
      reads this, inode, inode.heap, inode.heap.memory
      requires Valid()
    {
      Model(inode.Content(), pos)
    }

    /** default_file_open. */
    constructor (inode: RamInode)
      requires inode.Valid()
      ensures this.inode == inode && Valid() && View() == Model(inode.Content(), 0)
    {
      this.inode, pos := inode, 0;
    }

    /** The copy of read. */
    method CopyOut(dst: array<Byte>, start: nat, n: nat)
      requires Valid() && start + n <= inode.size && n <= dst.Length && dst != inode.heap.memory
      modifies dst
      ensures Valid() && View() == old(View())
      ensures dst[..n] == View().content[start..start + n] && dst[n..] == old(dst[n..])
    {
      var memory := inode.heap.memory;
      ghost var slot := inode.slot;
      InBounds(memory[..], inode.heap.cursor, inode.heap.blocks, slot);
      var from := inode.data + start;
      HeldSlice(memory[..], inode.heap.blocks[slot], inode.size, start, start + n);
      assert memory[from..from + n] == memory[..][from..from + n];
      CopyInto(dst, 0, memory[from..from + n]);
      assert dst[0..n] == dst[..n] && dst[0 + n..] == dst[n..];
    }

    method Read(dst: array<Byte>, count: nat) returns (r: int)
      requires Valid() && count <= dst.Length && dst != inode.heap.memory
      modifies this, dst
      ensures Valid() && r == ReadCount(old(View()), count)
      ensures r == -1 ==> View() == old(View()) && dst[..] == old(dst[..])
      ensures r != -1 ==>
                && View() == old(View()).(pos := old(pos) + r)
                && dst[..r] == View().content[old(pos)..pos] && dst[r..] == old(dst[r..])
    {
      var start := pos;
      if start < 0 { return -1; }
      var asked := Signed(start + count);
      var end := if asked <= inode.size then asked else inode.size;
      if start >= end { return -1; }
      r := end - start;
      CopyOut(dst, start, r);
      pos := end;
    }

    /** The part of write that makes room and stores. */
    method WriteInside(start: nat, bytes: seq<Byte>, needed: nat) returns (r: Outcome<int>)
      requires Valid() && start <= inode.size && needed == Max(start + |bytes|, inode.size)
      modifies inode, inode.heap, inode.heap.memory
      ensures var alloc := Doubled(old(inode.allocSize), needed);
              r.Fatal? <==> alloc > old(inode.allocSize) && old(inode.heap.cursor) + HEADER + alloc > SECTION_SIZE
      ensures r.Done? ==>
        && r.value == |bytes| && Valid() && inode.OthersKept()
        && inode.allocSize == Doubled(old(inode.allocSize), needed)
        && inode.heap.cursor == CursorAfter(old(inode.heap.cursor), old(inode.allocSize), inode.allocSize)
        && inode.Content() == Written(old(inode.Content()), start, bytes)
    {
      var grown := inode.Grow(needed);
      if grown.Fatal? { return Fatal; }
      var heap := inode.heap;
      ghost var memory, blocks, slot := heap.memory[..], heap.blocks, inode.slot;
      inode.Put(start, bytes);
      KeptTwice(old(heap.memory[..]), old(heap.blocks), old(inode.slot), memory, blocks, slot,
                heap.memory[..], heap.blocks, inode.slot);
      return Done(|bytes|);
    }

    /** It halts exactly when the file must grow and the heap has no room for the doubled buffer. */
    method Write(bytes: seq<Byte>) returns (r: Outcome<int>)
      requires Valid()
      modifies this, inode, inode.heap, inode.heap.memory
      ensures r.Fatal? <==>
                && Writable(old(View()))
                && var alloc := Doubled(old(inode.allocSize), Max(old(pos) + |bytes|, old(inode.size)));
                   alloc > old(inode.allocSize) && old(inode.heap.cursor) + HEADER + alloc > SECTION_SIZE
      ensures r.Done? ==> Valid() && View() == AfterWrite(old(View()), bytes) && inode.OthersKept()
      ensures r.Done? ==> r.value == if Writable(old(View())) then |bytes| else -1
      ensures r.Done? ==>
        if Writable(old(View())) then
          && inode.allocSize == Doubled(old(inode.allocSize), Max(old(pos) + |bytes|, old(inode.size)))
          && inode.heap.cursor == CursorAfter(old(inode.heap.cursor), old(inode.allocSize), inode.allocSize)
        else inode.allocSize == old(inode.allocSize) && inode.heap.cursor == old(inode.heap.cursor)
    {
      var start := pos;
      if start < 0 { return Done(-1); }
      if start > inode.size { return Done(-1); }
      assert Writable(View());
      var end := start + |bytes|;
      r := WriteInside(start, bytes, Max(end, inode.size));
      if r.Done? { pos := end; }
    }

    method Seek(delta: int, whence: Whence) returns (r: int)
      requires Valid()
      modifies this`pos
      ensures Valid() && var target := SeekTarget(old(View()), delta, whence);
              if target < 0 then r == -1 && View() == old(View()) else r == target && View() == old(View()).(pos := target)
      ensures whence.FromStart? && 0 <= delta < MAX_SIZE ==> r == pos == delta
      ensures whence.FromEnd? && 0 <= inode.size + delta < MAX_SIZE ==> r == pos == inode.size + delta
      ensures whence.FromHere? && 0 <= old(pos) + delta < MAX_SIZE ==> r == pos == old(pos) + delta
    {
      SeekLands(View(), delta, whence);
      var target := Signed(Reference(whence, pos, inode.size) + delta);
      if target < 0 { return -1; }
      pos := target;
      return pos;
    }
  }

  lemma HeldSlice(memory: seq<Byte>, b: Block, size: nat, from: nat, to: nat)
    requires b.End() <= |memory| && from <= to <= size <= b.size
    ensures memory[b.at + from..b.at + to] == Held(memory, b)[..size][from..to]
  {
    var held := Held(memory, b);
    assert held == memory[b.at..b.at + b.size];
    assert held[..size][from..to] == held[from..to];
    assert forall x :: from <= x < to ==> held[x] == memory[b.at + x];
  }

  // ---- what users rely on ----

  /** Bytes before and behind those written are kept. */
  lemma WrittenIs(content: seq<Byte>, at: nat, bytes: seq<Byte>)
    requires at <= |content|
    ensures var r := Written(content, at, bytes);
            && |r| == Max(at + |bytes|, |content|) && r[..at] == content[..at] && r[at..at + |bytes|] == bytes
            && (at + |bytes| <= |content| ==> r[at + |bytes|..] == content[at + |bytes|..])
  {
  }

  /** A read returns what was asked for or what is left, and -1 for nothing. */
  lemma ReadReturns(m: Model, count: nat)
    requires 0 <= m.pos && m.pos + count < MAX_SIZE
    ensures var n, left := ReadCount(m, count), |m.content| - m.pos;
            if count == 0 || left <= 0 then n == -1 else n == if count <= left then count else left
  {
  }

  /** A file is no larger than the section of the heap. */
  lemma SizeInMemory(file: OpenFile)
    requires file.Valid()
    ensures file.inode.size <= SECTION_SIZE
  {
    InBounds(file.inode.heap.memory[..], file.inode.heap.cursor, file.inode.heap.blocks, file.inode.slot);
  }

  /** The bytes that a read from inside a file gives: as many as were asked for, or all that are left. */
  method ReadBytes(file: OpenFile, count: nat) returns (got: seq<Byte>)
    requires file.Valid() && 0 <= file.pos <= file.inode.size && file.pos + count < MAX_SIZE
    modifies file
    ensures file.Valid() && file.inode.Content() == old(file.inode.Content())
    ensures file.pos == if count <= file.inode.size - old(file.pos) then old(file.pos) + count else file.inode.size
    ensures got == file.inode.Content()[old(file.pos)..file.pos]
  {
    ReadReturns(file.View(), count);
    var dst := new Byte[count](_ => 0);
    var n := file.Read(dst, count);
    got := if n == -1 then [] else dst[..n];
  }

  /** What is written is read back from where it was written, and the rest of the file is as before. */
  method WriteThenRead(file: OpenFile, bytes: seq<Byte>) returns (r: Outcome<seq<Byte>>)
    requires file.Valid() && 0 <= file.pos <= file.inode.size
    modifies file, file.inode, file.inode.heap, file.inode.heap.memory
    ensures r.Done? ==> file.Valid() && r.value == bytes && file.pos == old(file.pos) + |bytes|
    ensures r.Done? ==>
      var before, after, at := old(file.inode.Content()), file.inode.Content(), old(file.pos);
      && |after| == Max(at + |bytes|, |before|) && after[..at] == before[..at]
      && (at + |bytes| <= |before| ==> after[at + |bytes|..] == before[at + |bytes|..])
  {
    var at: nat := file.pos;
    WrittenIs(file.inode.Content(), at, bytes);
    var n :- file.Write(bytes);
    SizeInMemory(file);
    var p := file.Seek(at, FromStart);
    var got := ReadBytes(file, |bytes|);
    return Done(got);
  }

  /** Two writes in a row are one write of all their bytes. */
  lemma WritesAddUp(m: Model, a: seq<Byte>, b: seq<Byte>)
    requires Writable(m)
    ensures Writable(AfterWrite(m, a)) && AfterWrite(AfterWrite(m, a), b) == AfterWrite(m, a + b)
  {
    var once, twice := Written(m.content, m.pos, a + b), Written(Written(m.content, m.pos, a), m.pos + |a|, b);
    forall i | 0 <= i < |once| ensures once[i] == twice[i] {
      var middle := Written(m.content, m.pos, a);
      assert i < |middle| ==> middle[i] == if i < m.pos then m.content[i] else if i < m.pos + |a| then a[i - m.pos] else m.content[i];
    }
    assert once == twice;
  }

  function Sum(sizes: seq<nat>): nat { if sizes == [] then 0 else sizes[0] + Sum(sizes[1..]) }

  /** Where reading n bytes from a position ends. */
  function Reach(pos: nat, size: nat, n: nat): (r: nat)
    requires pos <= size
    ensures pos <= r <= size
  {
    if n <= size - pos then pos + n else size
  }

  /** Reading in calls of any sizes gives the file from the position on, one byte after the other, and all
      of it when enough is asked for. */
  method ReadOn(file: OpenFile, sizes: seq<nat>) returns (all: seq<Byte>)
    requires file.Valid() && 0 <= file.pos <= file.inode.size
    requires forall i :: 0 <= i < |sizes| ==> file.inode.size + sizes[i] < MAX_SIZE
    modifies file
    ensures file.Valid() && file.inode.Content() == old(file.inode.Content())
    ensures file.pos == Reach(old(file.pos), file.inode.size, Sum(sizes))
    ensures all == file.inode.Content()[old(file.pos)..file.pos]
    decreases |sizes|
  {
    if sizes == [] { return []; }
    ghost var content, from: nat := file.inode.Content(), file.pos;
    var got := ReadBytes(file, sizes[0]);
    ghost var here: nat := file.pos;
    var rest := ReadOn(file, sizes[1..]);
    SlicesMeet(content, from, here, file.pos);
    all := got + rest;
  }

  lemma SlicesMeet(s: seq<Byte>, a: nat, b: nat, c: nat)
    requires a <= b <= c <= |s|
    ensures s[a..b] + s[b..c] == s[a..c]
  {
  }

  // ---- runs ----

  datatype Op = ReadOp(count: nat) | WriteOp(bytes: seq<Byte>) | SeekOp(delta: int, whence: Whence)

  /** What each operation gives back: a status and, for a read, the bytes. */
  datatype Reply = Reply(status: int, bytes: seq<Byte>)

  function Perform(m: Model, op: Op): (Model, Reply) {
    match op
    case ReadOp(count) =>
      var n := ReadCount(m, count);
      if n == -1 then (m, Reply(-1, []))
      else (m.(pos := m.pos + n), Reply(n, m.content[m.pos..m.pos + n]))
    case WriteOp(bytes) => (AfterWrite(m, bytes), Reply(if Writable(m) then |bytes| else -1, []))
    case SeekOp(delta, whence) =>
      var target := SeekTarget(m, delta, whence);
      if target < 0 then (m, Reply(-1, [])) else (m.(pos := target), Reply(target, []))
  }

  function PerformAll(m: Model, ops: seq<Op>): (Model, seq<Reply>)
    decreases |ops|
  {
    if ops == [] then (m, [])
    else
      var (m1, reply) := Perform(m, ops[0]);
      var (m2, replies) := PerformAll(m1, ops[1..]);
      (m2, [reply] + replies)
  }

  /** What the heap has left for the file: its buffer size and the cursor. */
  datatype Budget = Budget(alloc: nat, cursor: nat)

  /** The budget after an operation, None when a write must grow the buffer and there is no room. */
  function Spent(m: Model, b: Budget, op: Op): (r: Option<Budget>)
    requires b.alloc > 0
    ensures r.Some? ==> r.value.alloc > 0
  {
    if op.WriteOp? && Writable(m) then
      var alloc := Doubled(b.alloc, Max(m.pos + |op.bytes|, |m.content|));
      if alloc > b.alloc && b.cursor + HEADER + alloc > SECTION_SIZE then None
      else Some(Budget(alloc, CursorAfter(b.cursor, b.alloc, alloc)))
    else Some(b)
  }

  /** The heap has room for every write of the run. */
  predicate Affordable(m: Model, b: Budget, ops: seq<Op>)
    requires b.alloc > 0
    decreases |ops|
  {
    ops == [] || (Spent(m, b, ops[0]).Some? && Affordable(Perform(m, ops[0]).0, Spent(m, b, ops[0]).value, ops[1..]))
  }

  ghost function BudgetOf(file: OpenFile): Budget
    reads file, file.inode, file.inode.heap
  {
    Budget(file.inode.allocSize, file.inode.heap.cursor)
  }

  method ExecuteRead(file: OpenFile, count: nat) returns (r: Reply)
    requires file.Valid()
    modifies file
    ensures file.Valid() && (file.View(), r) == Perform(old(file.View()), ReadOp(count))
  {
    ghost var m := file.View();
    var dst := new Byte[count](_ => 0);
    var n := file.Read(dst, count);
    if n == -1 { return Reply(-1, []); }
    assert dst[..n] == m.content[m.pos..m.pos + n];
    r := Reply(n, dst[..n]);
  }

  /** One operation does to the file what it does to a byte sequence with a position, and halts exactly
      when the budget does not allow it. */
  method Execute(file: OpenFile, op: Op) returns (r: Outcome<Reply>)
    requires file.Valid()
    modifies file, file.inode, file.inode.heap, file.inode.heap.memory
    ensures r.Done? <==> Spent(old(file.View()), old(BudgetOf(file)), op).Some?
    ensures r.Done? ==>
      && file.Valid() && (file.View(), r.value) == Perform(old(file.View()), op)
      && Some(BudgetOf(file)) == Spent(old(file.View()), old(BudgetOf(file)), op)
  {
    match op
    case ReadOp(count) =>
      var reply := ExecuteRead(file, count);
      return Done(reply);
    case WriteOp(bytes) =>
      var n :- file.Write(bytes);
      return Done(Reply(n, []));
    case SeekOp(delta, whence) =>
      var n := file.Seek(delta, whence);
      return Done(Reply(n, []));
  }

  /** Any run of reads, writes and seeks returns what it returns on a growable byte sequence and leaves
      the same bytes and position; it halts if and only if the heap has no room for one of its writes. */
  method Replay(file: OpenFile, ops: seq<Op>) returns (r: Outcome<seq<Reply>>)
    requires file.Valid()
    modifies file, file.inode, file.inode.heap, file.inode.heap.memory
    ensures r.Done? <==> Affordable(old(file.View()), old(BudgetOf(file)), ops)
    ensures r.Done? ==> file.Valid() && (file.View(), r.value) == PerformAll(old(file.View()), ops)
    decreases |ops|
  {
    if ops == [] { return Done([]); }
    var first :- Execute(file, ops[0]);
    var rest :- Replay(file, ops[1..]);
    return Done([first] + rest);
  }
}
