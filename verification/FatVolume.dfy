/** FAT32 volumes: the allocation table, cluster chains and the sectors they name
    (src/kernel/vfs/filesystems/fat32/fat32_fs.c). */
module FatVolume {
  import opened Bytes
  import opened Wrappers

  const SECTOR_SIZE: nat := 512
  const FAT_ENTRY_BEGIN: nat := 0x2
  /** The bound the code uses; larger values, end-of-chain marks included, fail its assertion. */
  const FAT_ENTRY_END: nat := 0xFF_FFF0
  const FAT_ENTRY_MASK: nat := 0x1000_0000

  type Sector = s: seq<Byte> | |s| == SECTOR_SIZE witness seq(SECTOR_SIZE, i => 0)

  datatype Volume = Volume(blocks: seq<Sector>, fatStart: nat, dataStart: nat, sectorsPerCluster: nat)

  function ReadBlock(v: Volume, i: nat): Outcome<Sector> {
    if i < |v.blocks| then Done(v.blocks[i]) else Fatal
  }

  /** _fat_read_table: the successor of a cluster. */
  function ReadTable(v: Volume, cluster: nat): (r: Outcome<nat>)
    ensures r.Done? ==> FAT_ENTRY_BEGIN <= r.value < FAT_ENTRY_END
  {
    // 128 four-byte entries to a sector
    var sector :- ReadBlock(v, v.fatStart + cluster / 128);
    var value := WordOf(sector[cluster % 128 * 4..cluster % 128 * 4 + 4]) % FAT_ENTRY_MASK;
    if FAT_ENTRY_BEGIN <= value < FAT_ENTRY_END then Done(value) else Fatal
  }

  /** _fat32_cluster_sector_index plus the index in the cluster. For cluster 0, where an empty file
      starts, that is a sector before the data. */
  function SectorIndex(v: Volume, cluster: nat, index: nat): int {
    v.dataStart + (cluster - 2) * v.sectorsPerCluster + index
  }

  /** An acyclic chain: each cluster names the next one and the last one names none. The chain of an
      empty file is [0]: entry 0 of the table holds the media type, which is no cluster. */
  predicate IsChain(v: Volume, chain: seq<nat>) {
    && v.sectorsPerCluster > 0 && |chain| > 0
    && (forall i, j :: 0 <= i < j < |chain| ==> chain[i] != chain[j])
    && (forall i :: 0 <= i < |chain| - 1 ==> ReadTable(v, chain[i]) == Done(chain[i + 1]))
    && ReadTable(v, chain[|chain| - 1]) == Fatal
    && (forall i, s: nat :: 0 <= i < |chain| && s < v.sectorsPerCluster ==> 0 <= SectorIndex(v, chain[i], s) < |v.blocks|)
  }

  function SectorCount(v: Volume, chain: seq<nat>): nat { |chain| * v.sectorsPerCluster }

  // Division by the (variable) number of sectors per cluster, as repeated subtraction.

  function Quotient(n: nat, d: nat): nat
    requires d > 0
  {
    if n < d then 0 else 1 + Quotient(n - d, d)
  }

  function Remainder(n: nat, d: nat): (r: nat)
    requires d > 0
    ensures r < d
  {
    if n < d then n else Remainder(n - d, d)
  }

  lemma {:induction false} Split(n: nat, d: nat)
    requires d > 0
    ensures n == Quotient(n, d) * d + Remainder(n, d)
  {
    if n >= d {
      Split(n - d, d);
      var q := Quotient(n - d, d);
      assert (q + 1) * d == q * d + d;
    }
  }

  lemma {:induction false} Join(q: nat, r: nat, d: nat)
    requires r < d
    ensures q * d + r >= 0
    ensures Quotient(q * d + r, d) == q && Remainder(q * d + r, d) == r
  {
    if q > 0 {
      assert q * d == (q - 1) * d + d;
      Join(q - 1, r, d);
    }
  }

  lemma {:induction false} ProductGrows(a: nat, b: nat, d: nat)
    requires a <= b
    ensures a * d <= b * d
  {
    if a < b {
      assert b * d == (b - 1) * d + d;
      ProductGrows(a, b - 1, d);
    }
  }

  /** Cluster and index in the cluster of the n-th sector of a chain. */
  lemma SectorSplit(v: Volume, chain: seq<nat>, n: nat)
    requires v.sectorsPerCluster > 0 && n < SectorCount(v, chain)
    ensures Quotient(n, v.sectorsPerCluster) < |chain|
  {
    var q, d := Quotient(n, v.sectorsPerCluster), v.sectorsPerCluster;
    Split(n, d);
    if q >= |chain| { ProductGrows(|chain|, q, d); }
  }

  /** The n-th sector of the chain. */
  function ChainSector(v: Volume, chain: seq<nat>, n: nat): Sector
    requires IsChain(v, chain) && n < SectorCount(v, chain)
  {
    SectorSplit(v, chain, n);
    v.blocks[SectorIndex(v, chain[Quotient(n, v.sectorsPerCluster)], Remainder(n, v.sectorsPerCluster))]
  }

  /** The bytes of the chain, sector after sector: what a file's content is. */
  function Content(v: Volume, chain: seq<nat>): (r: seq<Byte>)
    requires IsChain(v, chain)
    ensures |r| == SectorCount(v, chain) * SECTOR_SIZE
  {
    seq(SectorCount(v, chain) * SECTOR_SIZE, p requires 0 <= p < SectorCount(v, chain) * SECTOR_SIZE =>
      ChainSector(v, chain, p / SECTOR_SIZE)[p % SECTOR_SIZE])
  }

  /** Where a sector of a chain is: fat32_sector_loc_t. */
  datatype Location = Location(start: nat, cluster: nat, index: nat)

  /** The location of the n-th sector. */
  function LocationOf(v: Volume, chain: seq<nat>, n: nat): Location
    requires IsChain(v, chain) && n < SectorCount(v, chain)
  {
    SectorSplit(v, chain, n);
    Location(chain[0], chain[Quotient(n, v.sectorsPerCluster)], Remainder(n, v.sectorsPerCluster))
  }

  /** Distinct sectors of a chain have distinct locations. */
  lemma LocationInjective(v: Volume, chain: seq<nat>, m: nat, n: nat)
    requires IsChain(v, chain) && m < SectorCount(v, chain) && n < SectorCount(v, chain)
    requires LocationOf(v, chain, m) == LocationOf(v, chain, n)
    ensures m == n
  {
    SectorSplit(v, chain, m);
    SectorSplit(v, chain, n);
    Split(m, v.sectorsPerCluster);
    Split(n, v.sectorsPerCluster);
    assert Quotient(m, v.sectorsPerCluster) == Quotient(n, v.sectorsPerCluster);
  }

  // ---- inode numbers ----

  /** _fat32_entry_loc_offset in 32-bit arithmetic: the number of the inode behind an entry. */
  function InodeNumber(v: Volume, cluster: nat, index: nat, entry: nat): nat {
    (SectorIndex(v, cluster, index) * SECTOR_SIZE + entry * 32) % 0x1_0000_0000
  }

  /** On a volume of fewer than 2^23 sectors inode numbers tell entries apart and none of them is
      the number 2 of the root directory. */
  lemma InodeNumbersDistinct(v: Volume, c1: nat, s1: nat, e1: nat, c2: nat, s2: nat, e2: nat)
    requires c1 >= 2 && c2 >= 2 && s1 < v.sectorsPerCluster && s2 < v.sectorsPerCluster && e1 < 16 && e2 < 16
    requires 0 <= SectorIndex(v, c1, s1) < 0x80_0000 && 0 <= SectorIndex(v, c2, s2) < 0x80_0000
    ensures InodeNumber(v, c1, s1, e1) == InodeNumber(v, c2, s2, e2) ==> c1 == c2 && s1 == s2 && e1 == e2
    ensures InodeNumber(v, c1, s1, e1) != 2
  {
    var x1, x2 := SectorIndex(v, c1, s1), SectorIndex(v, c2, s2);
    EntryOffset(x1, e1, x2, e2);
    if InodeNumber(v, c1, s1, e1) == InodeNumber(v, c2, s2, e2) {
      Join(c1 - 2, s1, v.sectorsPerCluster);
      Join(c2 - 2, s2, v.sectorsPerCluster);
    }
  }

  /** Byte offsets of entries on a volume of fewer than 2^23 sectors. */
  lemma EntryOffset(x1: nat, e1: nat, x2: nat, e2: nat)
    requires x1 < 0x80_0000 && x2 < 0x80_0000 && e1 < 16 && e2 < 16
    ensures var a, b := (x1 * SECTOR_SIZE + e1 * 32) % 0x1_0000_0000, (x2 * SECTOR_SIZE + e2 * 32) % 0x1_0000_0000;
            a != 2 && (a == b ==> x1 == x2 && e1 == e2)
  {
    assert x1 * SECTOR_SIZE + e1 * 32 == 32 * (16 * x1 + e1) < 0x1_0000_0000;
    assert x2 * SECTOR_SIZE + e2 * 32 == 32 * (16 * x2 + e2) < 0x1_0000_0000;
  }
}
