/** The sector cursor of FAT32 files and directories, and regular file read and seek on top of
    it (src/kernel/vfs/filesystems/fat32/fat32_fs.c). */
module FatFile {
  import opened Bytes
  import opened Wrappers
  import opened FatVolume

  /** A sector location that is moved along its chain in place. `n` is the sector it stands for. */
  class Cursor {
    const volume: Volume
    const start: nat
    var cluster: nat
    var index: nat
    ghost const chain: seq<nat>
    ghost var n: nat

    ghost predicate Valid()
      reads this
    {
      && IsChain(volume, chain)
      && n < SectorCount(volume, chain)
      && Location(start, cluster, index) == LocationOf(volume, chain, n)
    }

    constructor (volume: Volume, ghost chain: seq<nat>, start: nat)
      requires IsChain(volume, chain) && chain[0] == start
      ensures Valid() && this.volume == volume && this.chain == chain && n == 0
    {
      this.volume, this.chain, this.start := volume, chain, start;
      cluster, index, n := start, 0, 0;
      ProductGrows(1, |chain|, volume.sectorsPerCluster);
    }

    /** _fat_read_sector: the sector of the chain that the cursor stands for. */
    method ReadSector() returns (r: Sector)
      requires Valid()
      ensures r == ChainSector(volume, chain, n)
    {
      SectorSplit(volume, chain, n);
      r := volume.blocks[SectorIndex(volume, cluster, index)];
    }

    /** _fat_next_sector_location: one sector further along the chain; halts at its end. */
    method Next() returns (r: Outcome<()>)
      requires Valid()
      modifies this`cluster, this`index, this`n
      ensures r.Done? <==> old(n) + 1 < SectorCount(volume, chain)
      ensures r.Done? ==> Valid() && n == old(n) + 1
    {
      ghost var q := Quotient(n, volume.sectorsPerCluster);
      SectorSplit(volume, chain, n);
      Split(n, volume.sectorsPerCluster);
      NextSplit(volume, chain, n);
      ChainStep(volume, chain, q);
      index := index + 1;
      if index == volume.sectorsPerCluster {
        var entry := ReadTable(volume, cluster);
        if entry.Fatal? { return Fatal; }
        cluster, index := entry.value, 0;
      }
      n := n + 1;
      return Done(());
    }

    /** The search of _fat_prev_sector_location: from the start of the chain to the cluster that
        names the current one, the q-th. It ends at the predecessor and never reads the entry of
        the current cluster. */
    method Predecessor(ghost q: nat) returns (prev: nat)
      requires IsChain(volume, chain) && 0 < q < |chain| && start == chain[0] && cluster == chain[q]
      ensures prev == chain[q - 1]
    {
      prev := start;
      ghost var w := 0;
      while true
        invariant 0 <= w < q && prev == chain[w]
        decreases q - w
      {
        ChainStep(volume, chain, w);
        var entry := ReadTable(volume, prev).value;
        if entry == cluster { break; }
        prev := entry;
        w := w + 1;
      }
    }

    /** _fat_prev_sector_location: one sector back. Inside a cluster that is a decrement, at its
        beginning a search for the predecessor; halts at the beginning of the chain. */
    method Prev() returns (r: Outcome<()>)
      requires Valid()
      modifies this`cluster, this`index, this`n
      ensures r.Done? <==> old(n) > 0
      ensures r.Done? ==> Valid() && n == old(n) - 1
    {
      ghost var q := Quotient(n, volume.sectorsPerCluster);
      PrevSplit(volume, chain, n);
      if index == 0 {
        if cluster == start { return Fatal; }
        var prev := Predecessor(q);
        cluster, index := prev, volume.sectorsPerCluster - 1;
      } else {
        index := index - 1;
      }
      n := n - 1;
      return Done(());
    }
  }

  /** How the previous sector of a chain is reached from sector n. */
  lemma PrevSplit(v: Volume, chain: seq<nat>, n: nat)
    requires IsChain(v, chain) && n < SectorCount(v, chain)
    ensures var d := v.sectorsPerCluster;
            var q, r := Quotient(n, d), Remainder(n, d);
            && q < |chain|
            && (n == 0 <==> q == 0 && r == 0)
            && (r > 0 ==> Quotient(n - 1, d) == q && Remainder(n - 1, d) == r - 1)
            && (r == 0 && q > 0 ==> Quotient(n - 1, d) == q - 1 && Remainder(n - 1, d) == d - 1)
  {
    var d := v.sectorsPerCluster;
    SectorSplit(v, chain, n);
    Split(n, d);
    PrevIn(n, Quotient(n, d), Remainder(n, d), d);
  }

  lemma PrevIn(n: nat, q: nat, r: nat, d: nat)
    requires r < d && n == q * d + r
    ensures n == 0 <==> q == 0 && r == 0
    ensures r > 0 ==> Quotient(n - 1, d) == q && Remainder(n - 1, d) == r - 1
    ensures r == 0 && q > 0 ==> Quotient(n - 1, d) == q - 1 && Remainder(n - 1, d) == d - 1
  {
    if q > 0 { assert q * d == (q - 1) * d + d; }
    if r > 0 {
      Join(q, r - 1, d);
    } else if q > 0 {
      Join(q - 1, d - 1, d);
    }
  }

  lemma ChainStep(v: Volume, chain: seq<nat>, q: nat)
    requires IsChain(v, chain) && q < |chain|
    ensures ReadTable(v, chain[q]) == if q + 1 < |chain| then Done(chain[q + 1]) else Fatal
  {
  }

  /** How the next sector of a chain is reached from sector n. */
  lemma NextSplit(v: Volume, chain: seq<nat>, n: nat)
    requires IsChain(v, chain) && n < SectorCount(v, chain)
    ensures var d := v.sectorsPerCluster;
            var q, r := Quotient(n, d), Remainder(n, d);
            && q < |chain|
            && (r + 1 < d ==> n + 1 < SectorCount(v, chain) && Quotient(n + 1, d) == q && Remainder(n + 1, d) == r + 1)
            && (r + 1 == d && q + 1 < |chain| ==>
                  n + 1 < SectorCount(v, chain) && Quotient(n + 1, d) == q + 1 && Remainder(n + 1, d) == 0)
            && (r + 1 == d && q + 1 == |chain| ==> n + 1 == SectorCount(v, chain))
  {
    var d := v.sectorsPerCluster;
    var q, r := Quotient(n, d), Remainder(n, d);
    SectorSplit(v, chain, n);
    Split(n, d);
    NextIn(q, r, d, |chain|);
  }

  lemma NextIn(q: nat, r: nat, d: nat, c: nat)
    requires r < d && q < c
    ensures r + 1 < d ==> q * d + r + 1 < c * d && Quotient(q * d + r + 1, d) == q && Remainder(q * d + r + 1, d) == r + 1
    ensures r + 1 == d && q + 1 < c ==> q * d + r + 1 < c * d && Quotient(q * d + r + 1, d) == q + 1 && Remainder(q * d + r + 1, d) == 0
    ensures r + 1 == d && q + 1 == c ==> q * d + r + 1 == c * d
  {
    var p := q * d;
    assert (q + 1) * d == p + d;
    ProductGrows(q + 1, c, d);
    if r + 1 < d {
      Join(q, r + 1, d);
    } else if q + 1 < c {
      Join(q + 1, 0, d);
      assert (q + 2) * d == p + d + d;
      ProductGrows(q + 2, c, d);
    }
  }

  function Min(a: int, b: int): int { if a <= b then a else b }

  const WORD: nat := 0x1_0000_0000
  /** Positions are signed 32-bit numbers. */
  const OFF_T: nat := 0x8000_0000

  /** The bytes that are left, in 32-bit arithmetic: behind the end of the file that wraps around. */
  function Remain(size: nat, pos: nat): nat
    requires size < WORD && pos < WORD
  {
    if pos <= size then size - pos else WORD - (pos - size)
  }

  lemma RemainWraps(size: nat, pos: nat)
    requires size < WORD && pos < WORD
    ensures Remain(size, pos) == (size - pos) % WORD
  {
  }

  /** The first n bytes of a buffer are those of the file from a position on, the others as they were. */
  predicate Copied(now: seq<Byte>, was: seq<Byte>, bytes: seq<Byte>, from: nat, n: nat) {
    n <= |now| == |was| && from + n <= |bytes| && now[..n] == bytes[from..from + n] && now[n..] == was[n..]
  }

  /** How many bytes a read asks for and finds. */
  function Wanted(size: nat, pos: nat, count: nat): nat { if pos <= size then Min(count, size - pos) else count }

  lemma AllWanted(size: nat, from: nat, count: nat, total: nat)
    requires size < WORD && from + total < WORD && total <= count && (from <= size ==> from + total <= size)
    requires total == count || Remain(size, from + total) == 0
    ensures total == Wanted(size, from, count)
  {
  }

  lemma CopiedMore(next: seq<Byte>, now: seq<Byte>, was: seq<Byte>, bytes: seq<Byte>, from: nat, n: nat, got: nat)
    requires Copied(now, was, bytes, from, n) && n + got <= |now| == |next| && from + n + got <= |bytes|
    requires next[..n] == now[..n] && next[n + got..] == now[n + got..]
    requires next[n..n + got] == bytes[from + n..from + n + got]
    ensures Copied(next, was, bytes, from, n + got)
  {
    assert next[..n + got] == next[..n] + next[n..n + got];
    assert bytes[from..from + n + got] == bytes[from..from + n] + bytes[from + n..from + n + got];
    assert now[n + got..] == now[n..][got..] && was[n + got..] == was[n..][got..];
  }

  /** An open regular file: a cursor, an offset in its sector and the position they stand for. */
  class RegularFile {
    const cursor: Cursor
    const size: nat
    var offset: nat
    var pos: nat

    ghost predicate Valid()
      reads this, cursor
    {
      && cursor.Valid()
      && size <= SectorCount(cursor.volume, cursor.chain) * SECTOR_SIZE < OFF_T
      && pos == cursor.n * SECTOR_SIZE + offset
      && offset <= SECTOR_SIZE
      && (offset == SECTOR_SIZE ==> pos == size)
    }

    /** The bytes of the clusters; the first `size` of them are those of the file. */
    ghost function Bytes(): seq<Byte>
      requires IsChain(cursor.volume, cursor.chain)
    {
      Content(cursor.volume, cursor.chain)
    }

    /** _fat32_fs_reg_file_open. */
    constructor (volume: Volume, ghost chain: seq<nat>, start: nat, size: nat)
      requires IsChain(volume, chain) && chain[0] == start
      requires size <= SectorCount(volume, chain) * SECTOR_SIZE < OFF_T
      ensures Valid() && fresh(cursor) && pos == 0 && this.size == size
      ensures Bytes() == Content(volume, chain)
    {
      cursor := new Cursor(volume, chain, start);
      this.size, offset, pos := size, 0, 0;
    }

    /** The wanted bytes of the current sector are the bytes of the content at the position. */
    lemma SectorBytes(got: nat)
      requires Valid() && offset + got <= SECTOR_SIZE
      ensures pos + got <= |Bytes()|
      ensures ChainSector(cursor.volume, cursor.chain, cursor.n)[offset..offset + got] == Bytes()[pos..pos + got]
    {
      var sector := ChainSector(cursor.volume, cursor.chain, cursor.n);
      var a, c := sector[offset..offset + got], Bytes()[pos..pos + got];
      forall i | 0 <= i < got ensures a[i] == c[i] {
        var p := pos + i;
        assert p == cursor.n * SECTOR_SIZE + (offset + i);
        assert p / SECTOR_SIZE == cursor.n && p % SECTOR_SIZE == offset + i;
        assert c[i] == Content(cursor.volume, cursor.chain)[p];
      }
    }

    /** One round of the read loop: the part of the current sector that is wanted. */
    method ReadChunk(dst: array<Byte>, at: nat, want: nat, remain: nat) returns (got: nat)
      requires Valid() && 0 < remain && offset < SECTOR_SIZE && 0 < want && at + want <= dst.Length
      modifies dst, this`offset, this`pos
      ensures 0 < got <= want && got == Min(want, Min(SECTOR_SIZE - old(offset), remain))
      ensures offset == old(offset) + got && pos == old(pos) + got <= |Bytes()|
      ensures dst[..at] == old(dst[..at]) && dst[at + got..] == old(dst[at + got..])
      ensures dst[at..at + got] == Bytes()[old(pos)..old(pos) + got]
    {
      var sector := cursor.ReadSector();
      got := Min(want, Min(SECTOR_SIZE - offset, remain));
      SectorBytes(got);
      CopyInto(dst, at, sector[offset..offset + got]);
      offset := offset + got;
      pos := pos + got;
    }

    /** The end of a round: to the next sector when this one is used up and bytes are left. */
    method LeaveSector(remain: nat) returns (r: Outcome<()>)
      requires cursor.Valid() && size <= SectorCount(cursor.volume, cursor.chain) * SECTOR_SIZE < OFF_T
      requires pos == cursor.n * SECTOR_SIZE + offset && offset <= SECTOR_SIZE
      requires remain == Remain(size, pos)
      modifies this`offset, cursor
      ensures r.Done? <==> pos <= size || pos < SectorCount(cursor.volume, cursor.chain) * SECTOR_SIZE
      ensures r.Done? ==> Valid()
    {
      if offset == SECTOR_SIZE && remain > 0 {
        r := cursor.Next();
        if r.Fatal? { return; }
        offset := 0;
      }
      return Done(());
    }

    /** One round of the loop with the step to the next sector. */
    method Round(dst: array<Byte>, total: nat, count: nat, remain: nat, ghost from: nat, ghost was: seq<Byte>)
      returns (r: Outcome<nat>)
      requires Valid() && pos < WORD && 0 < remain == Remain(size, pos) && total < count <= dst.Length
      requires pos == from + total && Copied(dst[..], was, Bytes(), from, total)
      modifies dst, this`offset, this`pos, cursor
      ensures r.Done? ==>
                && Valid() && 0 < r.value <= count - total && r.value <= remain
                && pos == from + total + r.value && Remain(size, pos) == remain - r.value
                && (old(pos) > size ==> pos < |Bytes()|)
                && Copied(dst[..], was, Bytes(), from, total + r.value)
      ensures r.Fatal? ==> old(pos) > size && from + count >= |Bytes()|
    {
      ghost var before, bytes := dst[..], Bytes();
      var got := ReadChunk(dst, total, count - total, remain);
      CopiedMore(dst[..], before, was, bytes, from, total, got);
      var moved := LeaveSector(remain - got);
      return if moved.Fatal? then Fatal else Done(got);
    }

    /** The number of bytes left, as read computes it. */
    method Left() returns (remain: nat)
      requires Valid()
      ensures pos < WORD && remain == Remain(size, pos)
    {
      RemainWraps(size, pos);
      remain := (size - pos) % WORD;
    }

    /** The loop of read. */
    method ReadLoop(dst: array<Byte>, count: nat) returns (r: Outcome<nat>)
      requires Valid() && count <= dst.Length
      modifies this, cursor, dst
      ensures r.Fatal? ==> old(pos) > size && old(pos) + count >= |Bytes()|
      ensures r.Done? ==>
                && Valid() && pos == old(pos) + r.value && r.value == Wanted(size, old(pos), count)
                && (old(pos) > size && count > 0 ==> pos < |Bytes()|)
                && Copied(dst[..], old(dst[..]), Bytes(), old(pos), r.value)
    {
      var total := 0;
      var remain := Left();
      ghost var from, was := pos, dst[..];
      while total < count && remain > 0
        invariant Valid() && from + total == pos < WORD && total <= count
        invariant remain == Remain(size, pos)
        invariant if from <= size then pos <= size else total > 0 ==> pos < |Bytes()|
        invariant Copied(dst[..], was, Bytes(), from, total)
        decreases count - total
      {
        var got := Round(dst, total, count, remain, from, was);
        if got.Fatal? { return Fatal; }
        total := total + got.value;
        remain := remain - got.value;
      }
      AllWanted(size, from, count, total);
      return Done(total);
    }

    /** _fat32_fs_reg_file_read: the bytes from the position on, as many as asked for and left. Behind
        the end of the file the number left has wrapped around: then the bytes of the clusters are
        read, and the read halts when it uses up the last of them. */
    method Read(dst: array<Byte>, count: nat) returns (r: Outcome<nat>)
      requires Valid() && count <= dst.Length
      modifies this, cursor, dst
      ensures r.Done? <==> old(pos) <= size || count == 0 || old(pos) + count < |Bytes()|
      ensures r.Done? ==>
                && Valid() && pos == old(pos) + r.value <= |Bytes()|
                && r.value == Wanted(size, old(pos), count)
                && dst[..r.value] == Bytes()[old(pos)..pos]
                && dst[r.value..] == old(dst[r.value..])
    {
      r := ReadLoop(dst, count);
      if r.Done? { assert dst[..][..r.value] == dst[..r.value] && dst[..][r.value..] == dst[r.value..]; }
    }

    /** _fat32_fs_reg_file_seek. It halts exactly when the target position lies before the file or
        in a sector beyond the end of the chain; otherwise the cursor denotes the new position. */
    method Seek(reference: int, delta: int) returns (r: Outcome<nat>)
      requires Valid()
      modifies this, cursor
      ensures var target := reference + delta;
              r.Done? <==> target == old(pos) ||
                           (target >= 0 && target / SECTOR_SIZE < SectorCount(cursor.volume, cursor.chain))
      ensures r.Done? ==> Valid() && pos == r.value == reference + delta
    {
      var target := reference + delta;
      if pos == target { return Done(pos); }
      var total := offset + (target - pos);
      var sectors := total / SECTOR_SIZE;
      ghost var from := cursor.n;
      assert from + sectors == target / SECTOR_SIZE;
      if sectors >= 0 {
        for i := 0 to sectors
          invariant cursor.Valid() && cursor.n == from + i
        {
          var moved := cursor.Next();
          if moved.Fatal? { return Fatal; }
        }
      } else {
        for i := 0 to -sectors
          invariant cursor.Valid() && cursor.n == from - i
        {
          var moved := cursor.Prev();
          if moved.Fatal? { return Fatal; }
        }
      }
      offset := total % SECTOR_SIZE;
      pos := target;
      return Done(pos);
    }
  }
}
