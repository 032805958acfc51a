/** Level 1 translation tables made of 1 MiB sections (src/kernel/hardware/mmu.c).

    Entries and addresses are natural numbers below 2^32. A mask of high bits is
    written as a division, a mask of low bits as a remainder, and the OR of the
    disjoint fields of an entry as a sum. */
module Mmu {
  const SECTION_SIZE: nat := 0x10_0000
  const ENTRY_COUNT: nat := 0x1000
  const ADDRESS_LIMIT: nat := 0x1_0000_0000

  const TYPE_SECTION: nat := 2
  const KERNEL_RW_USER_NONE: nat := 0x400
  const KERNEL_RW_USER_RO: nat := 0x800
  const KERNEL_RW_USER_RW: nat := 0xC00

  type Word = x: int | 0 <= x < ADDRESS_LIMIT
  type Table = t: seq<Word> | |t| == ENTRY_COUNT witness seq(ENTRY_COUNT, i => 0)

  predicate Protection(ap: nat) { ap in {0, KERNEL_RW_USER_NONE, KERNEL_RW_USER_RO, KERNEL_RW_USER_RW} }

  /** A section entry: base address, access permission, section type. */
  function Entry(section: nat, ap: nat): Word
    requires section < ENTRY_COUNT && Protection(ap)
  {
    section * SECTION_SIZE + ap + TYPE_SECTION
  }

  function TypeOf(e: Word): nat { e % 4 }
  function PermissionOf(e: Word): nat { e / 0x400 % 4 * 0x400 }
  function BaseOf(e: Word): nat { e / SECTION_SIZE * SECTION_SIZE }

  lemma LowBits(high: nat)
    ensures (0x400 * high + 2) / 0x400 == high && (0x400 * high + 2) % 4 == 2
  {
  }

  lemma HighBits(section: nat, k: nat)
    requires k < 4
    ensures (0x400 * section + k) % 4 == k
    ensures (section * SECTION_SIZE + 0x400 * k + 2) / SECTION_SIZE == section
  {
  }

  /** The three fields of an entry are read back as they were written. */
  lemma EntryFields(section: nat, ap: nat)
    requires section < ENTRY_COUNT && Protection(ap)
    ensures TypeOf(Entry(section, ap)) == TYPE_SECTION
    ensures PermissionOf(Entry(section, ap)) == ap
    ensures BaseOf(Entry(section, ap)) == section * SECTION_SIZE
  {
    var k := if ap == 0 then 0 else if ap == 0x400 then 1 else if ap == 0x800 then 2 else 3;
    var high := 0x400 * section + k;
    assert Entry(section, ap) == 0x400 * high + 2;
    LowBits(high);
    HighBits(section, k);
  }

  datatype Translation = Null | InvalidType | Unauthorized | Physical(address: nat)

  /** mmu_translate_virtual_address: the kernel's own walk of a process table. */
  function Translate(table: Table, va: Word): Translation {
    if va == 0 then Null
    else
      var e := table[va / SECTION_SIZE];
      if TypeOf(e) != TYPE_SECTION then InvalidType
      else if PermissionOf(e) != KERNEL_RW_USER_RW then Unauthorized
      else Physical(BaseOf(e) + va % SECTION_SIZE)
  }

  /** What the hardware lets user mode reach: section entries whose permission
      admits unprivileged reads (or writes). */
  predicate UserReaches(table: Table, va: Word, write: bool, address: nat) {
    var e := table[va / SECTION_SIZE];
    && TypeOf(e) == TYPE_SECTION
    && (PermissionOf(e) == KERNEL_RW_USER_RW || (!write && PermissionOf(e) == KERNEL_RW_USER_RO))
    && address == BaseOf(e) + va % SECTION_SIZE
  }

  /** Whatever the kernel's walk accepts, user mode could have written itself. */
  lemma TranslateAgreesWithHardware(table: Table, va: Word, write: bool)
    requires va != 0
    ensures Translate(table, va).Physical? <==>
            exists a :: UserReaches(table, va, true, a)
    ensures forall a :: UserReaches(table, va, true, a) <==> Translate(table, va) == Physical(a)
  {
    var e := table[va / SECTION_SIZE];
    if TypeOf(e) == TYPE_SECTION && PermissionOf(e) == KERNEL_RW_USER_RW {
      assert UserReaches(table, va, true, BaseOf(e) + va % SECTION_SIZE);
    }
  }

  /** The table after mapping [start, end) onto itself. */
  function IdentityMapped(table: Table, start: nat, end: nat, ap: nat): Table
    requires Protection(ap)
  {
    seq(ENTRY_COUNT, i requires 0 <= i < ENTRY_COUNT =>
      if start <= i * SECTION_SIZE < end then Entry(i, ap) else table[i])
  }

  /** translation_table_add_identity_mapping. The bound on `end` is the one under
      which the 32-bit loop counter does not wrap. */
  method AddIdentityMapping(table: array<Word>, start: nat, end: nat, ap: nat)
    requires table.Length == ENTRY_COUNT && Protection(ap)
    requires start % SECTION_SIZE == 0 && end <= ADDRESS_LIMIT - SECTION_SIZE
    modifies table
    ensures table[..] == IdentityMapped(old(table[..]), start, end, ap)
  {
    var address := start;
    while address < end
      invariant start <= address && address % SECTION_SIZE == 0
      invariant start <= end ==> address < end + SECTION_SIZE
      invariant start > end ==> address == start
      invariant forall i :: 0 <= i < ENTRY_COUNT ==>
        table[i] == if start <= i * SECTION_SIZE < address && i * SECTION_SIZE < end then Entry(i, ap) else old(table[i])
    {
      var index := address / SECTION_SIZE;
      table[index] := address + ap + TYPE_SECTION;
      address := address + SECTION_SIZE;
    }
  }

  /** The table after mapping one section at a virtual section address. */
  function SingleMapped(table: Table, section: Word, va: Word, ap: nat): Table
    requires Protection(ap)
  {
    table[va / SECTION_SIZE := Entry(section / SECTION_SIZE, ap)]
  }

  /** translation_table_add_single_section. */
  method AddSingleSection(table: array<Word>, section: Word, va: Word, ap: nat)
    requires table.Length == ENTRY_COUNT && Protection(ap)
    modifies table
    ensures table[..] == SingleMapped(old(table[..]), section, va, ap)
  {
    table[va / SECTION_SIZE] := section / SECTION_SIZE * SECTION_SIZE + ap + TYPE_SECTION;
  }
}
