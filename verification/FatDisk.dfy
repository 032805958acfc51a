/** Mounting a FAT32 volume, and disks as they are written: a boot sector, the allocation table and
    the clusters one after the other (src/kernel/vfs/filesystems/fat32/fat32_fs.c, Microsoft FAT32
    File System Specification 1.03, "Boot Sector and BPB Structure" and "FAT Data Structure"). */
module FatDisk {
  import opened Bytes
  import opened Sequences
  import opened Wrappers
  import opened FatVolume
  import opened FatFile
  import opened FatDirectory
  import opened FatLongNames
  import opened FatRuns

  // ---- mounting ----

  /** The private data of a mounted volume: where everything is, and the first cluster of the root. */
  datatype Super = Super(volume: Volume, root: nat)

  function HalfAt(s: Sector, at: nat): (r: nat)
    requires at + 2 <= SECTOR_SIZE
    ensures r < 0x1_0000
  {
    var low: int, high: int := s[at], s[at + 1];
    low + 0x100 * high
  }

  function WordAt(s: Sector, at: nat): nat
    requires at + 4 <= SECTOR_SIZE
  {
    WordOf(s[at..at + 4])
  }

  /** _fat32_init_fs_private: what the boot sector says. None for a volume that is not FAT32; sectors of
      another size fail an assertion. */
  function Mounted(blocks: seq<Sector>): Outcome<Option<Super>> {
    if blocks == [] || HalfAt(blocks[0], 11) != SECTOR_SIZE then Fatal
    else
      var boot := blocks[0];
      if HalfAt(boot, 22) != 0 then Done(None)
      else
        var copies: int, perCluster: int := boot[16], boot[13];
        var fatStart := HalfAt(boot, 14);
        var dataStart := (fatStart + copies * WordAt(boot, 36)) % 0x1_0000_0000;
        Done(Some(Super(Volume(blocks, fatStart, dataStart, perCluster), WordAt(boot, 44))))
  }

  /** The inode that _fat32_create_inode makes of an entry. */
  datatype Node = Node(cluster: nat, size: nat, directory: bool)

  function NodeOf(e: Entry): Node {
    var a: int, b: int, c: int, d: int := e[26], e[27], e[20], e[21];
    Node(a + 0x100 * b + 0x1_0000 * (c + 0x100 * d), WordOf(e[28..32]), IsDirectory(e))
  }

  // ---- a disk as it is written ----

  /** The 128 entries of a sector of the table. */
  type TableSector = t: seq<U32> | |t| == 128 witness seq(128, i => 0)

  /** `other` is whatever the boot sector holds besides the fields that are read, `reserved` and `mirrors`
      the sectors behind it and the further copies of the table. The first cluster is number 2. */
  datatype Disk = Disk(
    other: Sector, reserved: seq<Sector>, copies: Byte, perCluster: Byte, root: U32,
    table: seq<TableSector>, mirrors: seq<Sector>, clusters: seq<seq<Sector>>)

  predicate Proper(d: Disk) {
    && 1 + |d.reserved| < 0x1_0000 && d.perCluster > 0 && d.copies > 0
    && |d.table| + |d.mirrors| == Times(d.copies, |d.table|)
    && 1 + |d.reserved| + |d.table| + |d.mirrors| < 0x1_0000_0000
    && forall i :: 0 <= i < |d.clusters| ==> |d.clusters[i]| == d.perCluster
  }

  function Times(a: nat, b: nat): (r: nat)
    ensures r == a * b
  {
    if a == 0 then 0 else Times(a - 1, b) + b
  }

  function TableSectors(table: seq<TableSector>): (r: seq<Sector>)
    ensures |r| == |table|
  {
    if table == [] then [] else [WordList(table[0])] + TableSectors(table[1..])
  }

  function BootSector(d: Disk): (r: seq<Byte>)
    requires Proper(d) && |d.table| < 0x1_0000_0000
    ensures |r| == 512
  {
    d.other[..11] + HalfBytes(512) + [d.perCluster] + HalfBytes(1 + |d.reserved|) + [d.copies]
    + d.other[17..22] + HalfBytes(0) + d.other[24..36] + WordBytes(|d.table|)
    + d.other[40..44] + WordBytes(d.root) + d.other[48..]
  }

  function Written(d: Disk): seq<Sector>
    requires Proper(d)
  {
    [BootSector(d)] + d.reserved + TableSectors(d.table) + d.mirrors + Flat(d.clusters)
  }

  /** A chain is written in the table: the entry of each cluster holds the next one in its lower 28 bits,
      the last one no cluster number. */
  predicate Linked(d: Disk, chain: seq<nat>) {
    && |chain| > 0
    && (forall i, j :: 0 <= i < j < |chain| ==> chain[i] != chain[j])
    && (forall i :: 0 <= i < |chain| ==> 2 <= chain[i] < 2 + |d.clusters| && chain[i] < 0xFF_FFF0 && chain[i] < |Flat(d.table)|)
    && (forall i :: 0 <= i < |chain| - 1 ==> Flat(d.table)[chain[i]] % 0x1000_0000 == chain[i + 1])
    && !(2 <= Flat(d.table)[chain[|chain| - 1]] % 0x1000_0000 < 0xFF_FFF0)
  }

  /** The clusters of a chain. */
  function Picked(d: Disk, chain: seq<nat>): (r: seq<seq<Sector>>)
    requires forall i :: 0 <= i < |chain| ==> 2 <= chain[i] < 2 + |d.clusters|
    ensures |r| == |chain|
  {
    seq(|chain|, i requires 0 <= i < |chain| => d.clusters[chain[i] - 2])
  }

  /** The bytes of the clusters of a chain, one after the other. */
  function Stored(d: Disk, chain: seq<nat>): seq<Byte>
    requires Linked(d, chain)
  {
    Flat(Flat(Picked(d, chain)))
  }

  // ---- reading it back ----

  lemma {:induction false} TableSectorAt(table: seq<TableSector>, i: nat)
    requires i < |table|
    ensures TableSectors(table)[i] == WordList(table[i])
  {
    if i > 0 { TableSectorAt(table[1..], i - 1); }
  }

  /** Where the parts of the disk are. */
  lemma Places(d: Disk)
    requires Proper(d)
    ensures var w, fat := Written(d), 1 + |d.reserved|;
            var data := fat + |d.table| + |d.mirrors|;
            && |w| == data + |Flat(d.clusters)| && w[0] == BootSector(d)
            && (forall i :: 0 <= i < |d.table| ==> w[fat + i] == TableSectors(d.table)[i])
            && (forall i :: 0 <= i < |Flat(d.clusters)| ==> w[data + i] == Flat(d.clusters)[i])
  {
  }

  /** The fields of the boot sector. */
  lemma BootFields(d: Disk)
    requires Proper(d)
    ensures var b: Sector := BootSector(d);
            && HalfAt(b, 11) == 512 && b[13] == d.perCluster && HalfAt(b, 14) == 1 + |d.reserved| && b[16] == d.copies
            && HalfAt(b, 22) == 0 && WordAt(b, 36) == |d.table| && WordAt(b, 44) == d.root
  {
    var b: Sector := BootSector(d);
    WordReadsBack(|d.table|);
    WordReadsBack(d.root);
    assert b[36..40] == WordBytes(|d.table|);
    assert b[44..48] == WordBytes(d.root);
  }

  /** What mounting finds on a disk as it was written. */
  function VolumeOf(d: Disk): Volume
    requires Proper(d)
  {
    Volume(Written(d), 1 + |d.reserved|, 1 + |d.reserved| + |d.table| + |d.mirrors|, d.perCluster)
  }

  lemma MountsWritten(d: Disk)
    requires Proper(d)
    ensures Mounted(Written(d)) == Done(Some(Super(VolumeOf(d), d.root)))
  {
    Places(d);
    BootFields(d);
    var copies: int := d.copies;
    assert Times(copies, |d.table|) == copies * |d.table|;
  }

  lemma TableReadBack(d: Disk, cluster: nat)
    requires Proper(d) && cluster < |Flat(d.table)|
    ensures ReadTable(VolumeOf(d), cluster) ==
            var value := Flat(d.table)[cluster] % 0x1000_0000;
            if 2 <= value < 0xFF_FFF0 then Done(value) else Fatal
  {
    var q := cluster / 128;
    TableEntry(d.table, cluster);
    Places(d);
    assert Written(d)[1 + |d.reserved| + q] == TableSectors(d.table)[q];
  }

  lemma TableEntry(table: seq<TableSector>, cluster: nat)
    requires cluster < |Flat(table)|
    ensures cluster / 128 < |table|
    ensures WordOf(TableSectors(table)[cluster / 128][cluster % 128 * 4..cluster % 128 * 4 + 4]) == Flat(table)[cluster]
  {
    var q, r := cluster / 128, cluster % 128;
    FlatSize(table, 128);
    FlatAt(table, 128, q, r);
    TableSectorAt(table, q);
    SectorWord(table[q], r);
  }

  lemma SectorWord(entries: TableSector, r: nat)
    requires r < 128
    ensures WordOf(WordList(entries)[r * 4..r * 4 + 4]) == entries[r]
  {
    WordListAt(entries, r);
  }

  lemma SectorReadBack(d: Disk, cluster: nat, s: nat)
    requires Proper(d) && 2 <= cluster < 2 + |d.clusters| && s < d.perCluster
    ensures 0 <= SectorIndex(VolumeOf(d), cluster, s) < |Written(d)|
    ensures Written(d)[SectorIndex(VolumeOf(d), cluster, s)] == d.clusters[cluster - 2][s]
  {
    var at := (cluster - 2) * d.perCluster + s;
    FlatAt(d.clusters, d.perCluster, cluster - 2, s);
    ClustersAt(d, at);
  }

  lemma ClustersAt(d: Disk, at: nat)
    requires Proper(d) && at < |Flat(d.clusters)|
    ensures var data := 1 + |d.reserved| + |d.table| + |d.mirrors|;
            data + at < |Written(d)| && Written(d)[data + at] == Flat(d.clusters)[at]
  {
    Places(d);
  }

  lemma LinkedIsChain(d: Disk, chain: seq<nat>)
    requires Proper(d) && Linked(d, chain)
    ensures IsChain(VolumeOf(d), chain)
  {
    forall i | 0 <= i < |chain| - 1 ensures ReadTable(VolumeOf(d), chain[i]) == Done(chain[i + 1]) {
      TableReadBack(d, chain[i]);
    }
    TableReadBack(d, chain[|chain| - 1]);
    forall i, s: nat | 0 <= i < |chain| && s < d.perCluster
      ensures 0 <= SectorIndex(VolumeOf(d), chain[i], s) < |Written(d)|
    {
      SectorReadBack(d, chain[i], s);
    }
  }

  lemma ChainSectorReadBack(d: Disk, chain: seq<nat>, n: nat)
    requires Proper(d) && Linked(d, chain) && IsChain(VolumeOf(d), chain) && n < |chain| * d.perCluster
    ensures n < |Flat(Picked(d, chain))| && ChainSector(VolumeOf(d), chain, n) == Flat(Picked(d, chain))[n]
  {
    var q, r := Quotient(n, d.perCluster), Remainder(n, d.perCluster);
    SectorSplit(VolumeOf(d), chain, n);
    Split(n, d.perCluster);
    SectorReadBack(d, chain[q], r);
    FlatAt(Picked(d, chain), d.perCluster, q, r);
  }

  lemma ByteReadBack(d: Disk, chain: seq<nat>, p: nat)
    requires Proper(d) && Linked(d, chain) && IsChain(VolumeOf(d), chain) && p < |chain| * d.perCluster * 512
    ensures p < |Stored(d, chain)| && Content(VolumeOf(d), chain)[p] == Stored(d, chain)[p]
  {
    ChainSectorReadBack(d, chain, p / 512);
    FlatAt(Flat(Picked(d, chain)), 512, p / 512, p % 512);
  }

  /** A disk reads back as it was written: it mounts, a chain written in its table is one, and the content
      of that chain is the bytes of exactly its clusters, one after the other. */
  lemma DiskReadsBack(d: Disk, chain: seq<nat>)
    requires Proper(d) && Linked(d, chain)
    ensures Mounted(Written(d)).Done? && Mounted(Written(d)).value.Some?
    ensures var mounted := Mounted(Written(d)).value.value;
            mounted.root == d.root && IsChain(mounted.volume, chain) && Content(mounted.volume, chain) == Stored(d, chain)
  {
    MountsWritten(d);
    LinkedIsChain(d, chain);
    FlatSize(Picked(d, chain), d.perCluster);
    FlatSize(Flat(Picked(d, chain)), 512);
    forall p | 0 <= p < |Stored(d, chain)| ensures Content(VolumeOf(d), chain)[p] == Stored(d, chain)[p] {
      ByteReadBack(d, chain, p);
    }
  }

  // ---- directories and the files in them ----

  /** The entries of a directory are the bytes of its clusters, 32 at a time. */
  lemma EntriesAreContent(v: Volume, chain: seq<nat>)
    requires IsChain(v, chain)
    ensures Flat(Entries(v, chain)) == Content(v, chain)
  {
    FlatSize(Entries(v, chain), 32);
    forall p | 0 <= p < |Content(v, chain)| ensures Flat(Entries(v, chain))[p] == Content(v, chain)[p] {
      EntryByte(v, chain, p);
    }
  }

  lemma EntryByte(v: Volume, chain: seq<nat>, p: nat)
    requires IsChain(v, chain) && p < SectorCount(v, chain) * 512
    ensures p < |Flat(Entries(v, chain))| && Flat(Entries(v, chain))[p] == Content(v, chain)[p]
  {
    var k := p / 32;
    assert k / 16 == p / 512 && k % 16 * 32 + p % 32 == p % 512;
    FlatAt(Entries(v, chain), 32, k, p % 32);
    assert Entries(v, chain)[k] == EntryIn(ChainSector(v, chain, k / 16), k % 16);
  }

  /** On a volume of at most 2^23 sectors the inode number of an entry is where its 32 bytes are on the disk. */
  lemma InodeNumberIsPlace(v: Volume, chain: seq<nat>, k: nat)
    requires IsChain(v, chain) && k < |Entries(v, chain)| && |v.blocks| <= 0x80_0000
    ensures var ino := InoAt(v, chain, k);
            ino + 32 <= |Flat(v.blocks)| && Flat(v.blocks)[ino..ino + 32] == Entries(v, chain)[k]
  {
    SectorSplit(v, chain, k / 16);
    var at := LocationOf(v, chain, k / 16);
    EntryPlace(v.blocks, SectorIndex(v, at.cluster, at.index), k % 16);
    assert Entries(v, chain)[k] == EntryIn(ChainSector(v, chain, k / 16), k % 16);
  }

  lemma EntryPlace(blocks: seq<Sector>, x: nat, e: nat)
    requires x < |blocks| <= 0x80_0000 && e < 16
    ensures var ino := (x * 512 + e * 32) % 0x1_0000_0000;
            ino + 32 <= |Flat(blocks)| && Flat(blocks)[ino..ino + 32] == blocks[x][e * 32..e * 32 + 32]
  {
    FlatSlice(blocks, 512, x, x * 512, e * 32, 32);
  }

  /** The fields of an entry as they are written: the first cluster in two halves and the size. */
  predicate Describes(e: Entry, cluster: U32, size: U32) {
    && e[20..22] == HalfBytes(cluster / 0x1_0000) && e[26..28] == HalfBytes(cluster % 0x1_0000)
    && e[28..32] == WordBytes(size)
  }

  lemma NodeReadsBack(e: Entry, cluster: U32, size: U32, directory: bool)
    requires Describes(e, cluster, size) && IsFileEntry(e, directory)
    ensures NodeOf(e) == Node(cluster, size, directory)
  {
    WordReadsBack(size);
    var low, high := e[26..28], e[20..22];
    assert low[0] == e[26] && low[1] == e[27] && high[0] == e[20] && high[1] == e[21];
  }

  predicate IsNamed(item: Item, name: Name) { (item.ShortFile? || item.LongFile?) && item.name == name }

  /** The first item of a name. */
  predicate IsFirst(items: seq<Item>, x: nat, name: Name) {
    x < |items| && IsNamed(items[x], name) && forall y :: 0 <= y < x ==> !IsNamed(items[y], name)
  }

  lemma LastOfItem(entries: seq<Entry>, i: nat, item: Item)
    requires ItemAt(entries, i, item)
    ensures i + |Raw(item)| > 0 && entries[i + |Raw(item)| - 1] == item.entry
  {
    assert entries[i + |Raw(item)| - 1] == Raw(item)[|Raw(item)| - 1];
  }

  lemma {:induction false} FirstNamedIs(entries: seq<Entry>, i: nat, items: seq<Item>, x: nat, name: Name)
    requires Laid(entries, i, items) && IsFirst(items, x, name)
    ensures var k := FirstNamed(i, items, name);
            k.Some? && k.value < |entries| && entries[k.value] == items[x].entry && WellFormed(items[x])
    decreases |items|
  {
    if x == 0 {
      LastOfItem(entries, i, items[0]);
    } else {
      RestFirst(items, x, name);
      FirstNamedIs(entries, i + |Raw(items[0])|, items[1..], x - 1, name);
    }
  }

  lemma RestFirst(items: seq<Item>, x: nat, name: Name)
    requires IsFirst(items, x, name) && x > 0
    ensures IsFirst(items[1..], x - 1, name) && items[1..][x - 1] == items[x] && !IsNamed(items[0], name)
  {
    assert forall y :: 0 <= y < x - 1 ==> items[1..][y] == items[y + 1];
  }

  /** A file in the root directory as it is written: the directory holds the items, the first item of the
      name describes a chain and a size. */
  ghost predicate HoldsFile(d: Disk, root: seq<nat>, entries: seq<Entry>, items: seq<Item>, x: nat, name: Name,
                            chain: seq<nat>, size: U32)
  {
    && Proper(d) && Linked(d, root) && root[0] == d.root && Stored(d, root) == Flat(entries)
    && Laid(entries, 0, items) && IsFirst(items, x, name) && !items[x].directory
    && Linked(d, chain) && chain[0] < 0x1_0000_0000 && Describes(items[x].entry, chain[0], size)
    && size <= |Stored(d, chain)| < 0x8000_0000
  }

  /** What mounting and looking up a name come to. */
  lemma HeldIsFound(d: Disk, root: seq<nat>, entries: seq<Entry>, items: seq<Item>, x: nat, name: Name,
                    chain: seq<nat>, size: U32)
    requires HoldsFile(d, root, entries, items, x, name, chain, size)
    ensures IsChain(VolumeOf(d), root) && Entries(VolumeOf(d), root) == entries
    ensures var k := Find(entries, 0, name);
            k.Done? && k.value.Some? && k.value.value < |entries| && NodeOf(entries[k.value.value]) == Node(chain[0], size, false)
  {
    MountsWritten(d);
    DiskReadsBack(d, root);
    EntriesAreContent(VolumeOf(d), root);
    FlatInjective(Entries(VolumeOf(d), root), entries, 32);
    LookupFindsNamed(entries, items, name);
    FirstNamedIs(entries, 0, items, x, name);
    NodeReadsBack(items[x].entry, chain[0], size, false);
  }

  /** Mount, look a name up in the root directory, open what it names and read: any run of reads and seeks
      returns what it returns on the bytes that were written. */
  method ReadNamed(blocks: seq<Sector>, name: Name, ops: seq<Op>, ghost d: Disk, ghost root: seq<nat>, ghost entries: seq<Entry>,
                   ghost items: seq<Item>, ghost x: nat, ghost chain: seq<nat>, ghost size: U32) returns (r: Outcome<seq<Byte>>)
    requires HoldsFile(d, root, entries, items, x, name, chain, size) && blocks == Written(d)
    ensures r == Replayed(ops, Stored(d, chain), 0, size)
  {
    HeldIsFound(d, root, entries, items, x, name, chain, size);
    MountsWritten(d);
    var mounted := Mounted(blocks).value.value;
    var cursor := new Cursor(mounted.volume, root, mounted.root);
    var it := new Iterator(cursor, 0);
    var found := Lookup(it, name);
    var node := NodeOf(found.value.value.entry);
    DiskReadsBack(d, chain);
    var file := new RegularFile(mounted.volume, chain, node.cluster, node.size);
    r := Replay(file, ops);
  }
}
