/** The kernel's bump allocator over one section: a size header before each block, nothing is ever
    given back (src/kernel/memory/memory_allocator.c). */
module Heap {
  import opened Wrappers
  import opened Bytes
  import opened Mmu

  const HEADER: nat := 4
  /** Sections below the one and sizes up to the other keep the 32-bit sum in memory_alloc from wrapping. */
  const LIMIT: nat := 0x4000_0000
  const MAX_SIZE: nat := 0x8000_0000

  /** The cursor after a block: the old one plus header and size, rounded up to a word, in 32 bits. */
  function Bumped(base: nat, cursor: nat, size: nat): nat {
    (base + cursor + HEADER + size + 3) % 0x1_0000_0000 / 4 * 4
  }

  /** The same as an offset in the section. */
  function NextCursor(cursor: nat, size: nat): nat { (cursor + HEADER + size + 3) / 4 * 4 }

  /** Offsets in the section are used for addresses. */
  datatype Block = Block(at: nat, size: nat) {
    function End(): nat { at + size }
  }

  /** A block: word-aligned, below the cursor, its size in the header before it. */
  predicate BlockOk(memory: seq<Byte>, cursor: nat, b: Block) {
    && HEADER <= b.at && b.at % 4 == 0 && b.End() <= cursor <= |memory|
    && WordOf(memory[b.at - HEADER..b.at]) == b.size
  }

  /** Blocks lie one after the other, headers included. */
  predicate Laid(memory: seq<Byte>, cursor: nat, blocks: seq<Block>) {
    && cursor <= |memory| && cursor % 4 == 0
    && (forall i :: 0 <= i < |blocks| ==> BlockOk(memory, cursor, blocks[i]))
    && (forall i, j :: 0 <= i < j < |blocks| ==> blocks[i].End() + HEADER <= blocks[j].at)
  }

  /** What a block inside the memory holds. */
  function Held(memory: seq<Byte>, b: Block): seq<Byte> {
    if b.End() <= |memory| then memory[b.at..b.End()] else []
  }

  /** Memory that differs outside the blocks and their headers only. */
  predicate Same(a: seq<Byte>, b: seq<Byte>, from: nat, to: nat) {
    |a| == |b| && forall x :: 0 <= x < |a| && !(from <= x < to) ==> a[x] == b[x]
  }

  lemma SlicesSame(a: seq<Byte>, b: seq<Byte>, from: nat, to: nat)
    requires from <= to <= |a| == |b| && a[..from] == b[..from] && a[to..] == b[to..]
    ensures Same(a, b, from, to)
  {
    assert forall x :: 0 <= x < from ==> a[x] == a[..from][x] == b[..from][x];
    assert forall x :: to <= x < |a| ==> a[x] == a[to..][x - to] == b[to..][x - to];
  }

  lemma SameKeepsBlock(a: seq<Byte>, b: seq<Byte>, from: nat, to: nat, cursor: nat, block: Block)
    requires Same(a, b, from, to) && BlockOk(a, cursor, block)
    requires block.End() <= from || to + HEADER <= block.at
    ensures BlockOk(b, cursor, block) && Held(b, block) == Held(a, block)
  {
    assert a[block.at - HEADER..block.at] == b[block.at - HEADER..block.at];
  }

  /** All old blocks are still there and hold what they held. */
  ghost predicate Keeps(a: seq<Byte>, before: seq<Block>, b: seq<Byte>, after: seq<Block>) {
    && |before| <= |after| && after[..|before|] == before && |a| == |b|
    && forall i {:trigger before[i]} :: 0 <= i < |before| ==> before[i].End() <= |a| && Held(b, before[i]) == Held(a, before[i])
  }

  lemma BumpedIs(base: nat, cursor: nat, size: nat)
    requires base % SECTION_SIZE == 0 && base + SECTION_SIZE <= LIMIT && cursor <= SECTION_SIZE && cursor % 4 == 0 && size <= MAX_SIZE
    ensures var next := Bumped(base, cursor, size);
            && base + cursor + HEADER + size <= next < base + cursor + HEADER + size + 4 && (next - base) % 4 == 0
            && (next > base + SECTION_SIZE <==> cursor + HEADER + size > SECTION_SIZE)
            && next == base + NextCursor(cursor, size)
  {
  }

  /** A block laid at the cursor, its header written there. */
  lemma LaidGrows(a: seq<Byte>, b: seq<Byte>, cursor: nat, next: nat, blocks: seq<Block>, size: nat)
    requires Laid(a, cursor, blocks) && Same(a, b, cursor, cursor + HEADER)
    requires cursor + HEADER + size <= next <= |a| && next % 4 == 0 && size < 0x1_0000_0000
    requires b[cursor..cursor + HEADER] == WordBytes(size)
    ensures Laid(b, next, blocks + [Block(cursor + HEADER, size)])
    ensures Keeps(a, blocks, b, blocks + [Block(cursor + HEADER, size)])
  {
    WordReadsBack(size);
    forall i | 0 <= i < |blocks| ensures BlockOk(b, next, blocks[i]) && Held(b, blocks[i]) == Held(a, blocks[i]) {
      assert BlockOk(a, cursor, blocks[i]);
      SameKeepsBlock(a, b, cursor, cursor + HEADER, cursor, blocks[i]);
    }
  }

  class Heap {
    const base: nat
    const memory: array<Byte>
    var cursor: nat
    ghost var blocks: seq<Block>

    ghost predicate Valid()
      reads this, memory
    {
      && base % SECTION_SIZE == 0 && base + SECTION_SIZE <= LIMIT
      && memory.Length == SECTION_SIZE
      && Laid(memory[..], cursor, blocks)
    }

    /** memory_allocator_init on the section at an address. */
    constructor (base: nat)
      requires base % SECTION_SIZE == 0 && base + SECTION_SIZE <= LIMIT
      ensures Valid() && blocks == [] && cursor == 0 && fresh(memory)
    {
      this.base, cursor, blocks := base, 0, [];
      memory := new Byte[SECTION_SIZE](_ => 0);
    }

    /** What an operation keeps of the blocks there were: all of them, with what they hold. */
    twostate predicate KeepsBlocks()
      reads this, memory
    {
      old(Valid()) && Valid() && Keeps(old(memory[..]), old(blocks), memory[..], blocks)
    }

    /** memory_alloc: a fresh block behind the others, or None when the section has no room. */
    method Alloc(size: nat) returns (r: Option<nat>)
      requires Valid() && size <= MAX_SIZE
      modifies this, memory
      ensures KeepsBlocks()
      ensures r.None? <==> old(cursor) + HEADER + size > SECTION_SIZE
      ensures r.None? ==> blocks == old(blocks) && cursor == old(cursor)
      ensures r.Some? ==> blocks == old(blocks) + [Block(r.value, size)] && r.value == old(cursor) + HEADER
      ensures r.Some? ==> cursor == NextCursor(old(cursor), size)
      ensures r.Some? ==> forall x :: r.value <= x < SECTION_SIZE ==> memory[x] == old(memory[x])
    {
      BumpedIs(base, cursor, size);
      var next := Bumped(base, cursor, size);
      if next > base + SECTION_SIZE { return None; }
      ghost var was := memory[..];
      var at := cursor + HEADER;
      CopyInto(memory, cursor, WordBytes(size));
      SlicesSame(was, memory[..], cursor, at);
      LaidGrows(was, memory[..], cursor, next - base, blocks, size);
      cursor := next - base;
      blocks := blocks + [Block(at, size)];
      return Some(at);
    }

    /** Bytes written inside block i change that block only. */
    method Store(ghost i: nat, at: nat, bytes: seq<Byte>)
      requires Valid() && i < |blocks| && blocks[i].at <= at && at + |bytes| <= blocks[i].End()
      modifies memory
      ensures Valid() && Others(old(memory[..]), memory[..], blocks, i)
      ensures Held(memory[..], blocks[i]) == Spliced(old(Held(memory[..], blocks[i])), at - blocks[i].at, bytes)
    {
      ghost var was := memory[..];
      CopyInto(memory, at, bytes);
      assert memory[..][at..at + |bytes|] == bytes;
      StoreKeeps(was, memory[..], cursor, blocks, i, at, bytes);
    }

    /** memory_calloc. */
    method Calloc(size: nat) returns (r: Option<nat>)
      requires Valid() && size <= MAX_SIZE
      modifies this, memory
      ensures KeepsBlocks()
      ensures r.None? <==> old(cursor) + HEADER + size > SECTION_SIZE
      ensures r.None? ==> blocks == old(blocks)
      ensures r.Some? ==> blocks == old(blocks) + [Block(r.value, size)] && cursor == NextCursor(old(cursor), size)
      ensures r.Some? ==> Held(memory[..], Block(r.value, size)) == seq(size, i => 0)
    {
      r := Alloc(size);
      if r.None? { return; }
      var at := r.value;
      ghost var was, i := memory[..], |blocks| - 1;
      Zero(memory, at, size);
      ghost var zeros: seq<Byte> := seq(size, i => 0);
      AfterClear(was, memory[..], at, zeros);
      StoreKeeps(was, memory[..], cursor, blocks, i, at, zeros);
      KeepsThen(old(memory[..]), old(blocks), was, memory[..], blocks, i);
    }

    /** memory_realloc of block i: the block itself when a smaller size is asked for, otherwise a new
        one with the old bytes followed by zeros. It halts when the section has no room. */
    method Realloc(ghost i: nat, ptr: nat, size: nat) returns (r: Outcome<nat>)
      requires Valid() && i < |blocks| && blocks[i].at == ptr && size <= MAX_SIZE
      modifies this, memory
      ensures r.Fatal? <==> size >= old(blocks[i].size) && old(cursor) + HEADER + size > SECTION_SIZE
      ensures r.Done? ==> KeepsBlocks()
      ensures r.Done? && size < old(blocks[i].size) ==> r.value == ptr && blocks == old(blocks) && cursor == old(cursor)
      ensures r.Done? && size >= old(blocks[i].size) ==> cursor == NextCursor(old(cursor), size)
      ensures r.Done? && size >= old(blocks[i].size) ==>
                && blocks == old(blocks) + [Block(r.value, size)]
                && Held(memory[..], Block(r.value, size)) ==
                   old(Held(memory[..], blocks[i])) + seq(size - old(blocks[i].size), x => 0)
    {
      assert BlockOk(memory[..], cursor, blocks[i]);
      var held := WordOf(memory[ptr - HEADER..ptr]);
      assert memory[ptr - HEADER..ptr] == memory[..][ptr - HEADER..ptr];
      if size < held { return Done(ptr); }
      SliceIs(memory[..], blocks[i]);
      assert memory[ptr..ptr + held] == memory[..][ptr..ptr + held];
      var bytes := memory[ptr..ptr + held];
      var fresh_block := Calloc(size);
      if fresh_block.None? { return Fatal; }
      ghost var first, middle, n := old(blocks), memory[..], |blocks| - 1;
      Store(n, fresh_block.value, bytes);
      KeepsThen(old(memory[..]), first, middle, memory[..], blocks, n);
      SplicedZeros(bytes, size);
      return Done(fresh_block.value);
    }
  }

  lemma AfterClear(a: seq<Byte>, b: seq<Byte>, at: nat, zeros: seq<Byte>)
    requires at + |zeros| <= |a| == |b|
    requires b[..at] == a[..at] && b[at + |zeros|..] == a[at + |zeros|..] && b[at..at + |zeros|] == zeros
    ensures Spliced(Held(a, Block(at, |zeros|)), 0, zeros) == zeros
  {
  }

  lemma SliceIs(memory: seq<Byte>, b: Block)
    requires b.End() <= |memory|
    ensures memory[b.at..b.End()] == Held(memory, b)
  {
  }

  lemma SplicedZeros(bytes: seq<Byte>, size: nat)
    requires |bytes| <= size
    ensures Spliced(seq(size, x => 0), 0, bytes) == bytes + seq(size - |bytes|, x => 0)
  {
  }

  /** Every block but the i-th holds what it held. */
  ghost predicate Others(a: seq<Byte>, b: seq<Byte>, blocks: seq<Block>, i: nat) {
    && |a| == |b|
    && forall j {:trigger blocks[j]} :: 0 <= j < |blocks| && j != i ==> blocks[j].End() <= |a| && Held(b, blocks[j]) == Held(a, blocks[j])
  }

  lemma StoreKeeps(a: seq<Byte>, b: seq<Byte>, cursor: nat, blocks: seq<Block>, i: nat, at: nat, bytes: seq<Byte>)
    requires Laid(a, cursor, blocks) && i < |blocks| && blocks[i].at <= at && at + |bytes| <= blocks[i].End() && |b| == |a|
    requires b[..at] == a[..at] && b[at + |bytes|..] == a[at + |bytes|..] && b[at..at + |bytes|] == bytes
    ensures Laid(b, cursor, blocks) && Others(a, b, blocks, i)
    ensures Held(b, blocks[i]) == Spliced(Held(a, blocks[i]), at - blocks[i].at, bytes)
  {
    SlicesSame(a, b, at, at + |bytes|);
    var block := blocks[i];
    assert BlockOk(a, cursor, block);
    forall j | 0 <= j < |blocks| && j != i ensures BlockOk(b, cursor, blocks[j]) && Held(b, blocks[j]) == Held(a, blocks[j]) {
      assert BlockOk(a, cursor, blocks[j]);
      SameKeepsBlock(a, b, at, at + |bytes|, cursor, blocks[j]);
    }
    assert b[block.at - HEADER..block.at] == a[block.at - HEADER..block.at];
    HeldSpliced(a, b, block, at, bytes);
  }

  lemma HeldSpliced(a: seq<Byte>, b: seq<Byte>, block: Block, at: nat, bytes: seq<Byte>)
    requires block.End() <= |a| == |b| && block.at <= at && at + |bytes| <= block.End()
    requires Same(a, b, at, at + |bytes|) && b[at..at + |bytes|] == bytes
    ensures Held(b, block) == Spliced(Held(a, block), at - block.at, bytes)
  {
    forall x | 0 <= x < block.size ensures Held(b, block)[x] == Spliced(Held(a, block), at - block.at, bytes)[x] {
      var y := block.at + x;
      if at <= y < at + |bytes| { assert b[y] == b[at..at + |bytes|][y - at]; }
    }
  }

  lemma KeepsThen(a: seq<Byte>, before: seq<Block>, b: seq<Byte>, c: seq<Byte>, after: seq<Block>, i: nat)
    requires Keeps(a, before, b, after) && Others(b, c, after, i) && |before| <= i
    ensures Keeps(a, before, c, after)
  {
    assert forall j {:trigger before[j]} :: 0 <= j < |before| ==> before[j] == after[j];
  }
}
