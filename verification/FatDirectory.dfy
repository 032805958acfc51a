/** FAT32 directories: 32-byte entries read sector by sector, long names reassembled from the
    entries that precede a short one (src/kernel/vfs/filesystems/fat32/fat32_fs.c). */
module FatDirectory {
  import opened Bytes
  import opened Wrappers
  import opened Strings
  import opened FatVolume
  import opened FatFile

  const ENTRY_SIZE: nat := 32
  const ENTRIES_PER_SECTOR: nat := 16
  const NAME_BUFFER: nat := 256
  const LFN_CHARS: nat := 13

  type Entry = e: seq<Byte> | |e| == ENTRY_SIZE witness seq(ENTRY_SIZE, i => 0)
  type Name = seq<Byte>
  type Buffer = b: seq<Byte> | |b| == NAME_BUFFER witness seq(NAME_BUFFER, i => 0)

  // ---- fields of an entry ----

  function Attributes(e: Entry): Byte { e[11] }
  predicate IsEnd(e: Entry) { e[0] == 0 }
  predicate IsDeleted(e: Entry) { e[0] == 0xE5 }
  /** The code tests any of the four bits of the long-name mask. */
  predicate IsLfn(e: Entry) { Attributes(e) % 16 != 0 }
  predicate IsDirectory(e: Entry) { Attributes(e) / 16 % 2 == 1 }
  predicate IsDot(e: Entry) { IsDirectory(e) && e[0] == '.' as int }

  function LfnNumber(e: Entry): nat { e[0] % 32 }
  predicate LfnIsLast(e: Entry) { e[0] / 64 % 2 == 1 }

  /** Where the j-th character of a long-name entry is: name1, name2, name3. */
  function CharOffset(j: nat): nat
    requires j < LFN_CHARS
  {
    if j < 5 then 1 + 2 * j else if j < 11 then 14 + 2 * (j - 5) else 28 + 2 * (j - 11)
  }

  /** The low byte of the j-th character: the code drops the high one. */
  function LfnChar(e: Entry, j: nat): Byte
    requires j < LFN_CHARS
  {
    e[CharOffset(j)]
  }

  // ---- names ----

  function ToLower(c: Byte): Byte { if 'A' as int <= c <= 'Z' as int then c + 32 else c }

  function LowerIf(lower: bool, c: Byte): Byte { if lower then ToLower(c) else c }

  /** The characters of a field up to the first space or the limit; `test` is the field that the
      loop tests for the space. */
  function FieldChars(e: Entry, field: nat, test: nat, lower: bool, i: nat, limit: nat): Name
    requires field + limit <= ENTRY_SIZE && test + limit <= ENTRY_SIZE && i <= limit
    decreases limit - i
  {
    if i == limit || e[test + i] == ' ' as int then []
    else [LowerIf(lower, e[field + i])] + FieldChars(e, field, test, lower, i + 1, limit)
  }

  /** _fat32_read_entry_filename. The extension loop tests the name field, as the code does. */
  function ShortName(e: Entry): Name {
    var name := FieldChars(e, 0, 0, e[12] / 8 % 2 == 1, 0, 8);
    CString(if e[8] == ' ' as int then name
            else name + ['.' as int] + FieldChars(e, 8, 0, e[12] / 16 % 2 == 1, 0, 3))
  }

  /** _copy_lfn_chars from character j on. */
  function CopyChars(b: Buffer, at: nat, e: Entry, j: nat): Buffer
    requires j <= LFN_CHARS && at + LFN_CHARS <= NAME_BUFFER
    decreases LFN_CHARS - j
  {
    if j == LFN_CHARS then b
    else if LfnChar(e, j) == 0 then b[at + j := 0]
    else CopyChars(b[at + j := LfnChar(e, j)], at, e, j + 1)
  }

  // ---- the iterator on a flat list of entries ----

  /** Long-name entries whose number keeps the characters inside the buffer. */
  predicate LfnInRange(e: Entry) { 1 <= LfnNumber(e) <= 19 }

  function LfnStep(b: Buffer, e: Entry): Buffer
    requires LfnInRange(e)
  {
    var n := LfnNumber(e);
    CopyChars(if LfnIsLast(e) then b[LFN_CHARS * n := 0] else b, LFN_CHARS * (n - 1), e, 0)
  }

  /** EndAt: the end marker. Found: a live entry, its name, the index to go on from. Runaway: the
      walk leaves the chain or a long-name entry is out of range. */
  datatype ScanResult = EndAt(index: nat) | Found(index: nat, name: Name) | Runaway

  predicate TakesLfn(e: Entry) { !IsDeleted(e) && IsLfn(e) }

  /** Entries after which the loop goes on: deleted ones, long-name ones, "." and "..". */
  predicate Skipped(e: Entry) { IsDeleted(e) || IsLfn(e) || IsDot(e) }

  /** The long name under construction: the buffer and whether a last-marked entry was seen. */
  datatype Pending = Pending(buffer: Buffer, reading: bool)

  function Fresh(): Pending { Pending(seq(NAME_BUFFER, i => 0), false) }

  function Absorb(p: Pending, e: Entry): Pending {
    if TakesLfn(e) && LfnInRange(e) then Pending(LfnStep(p.buffer, e), p.reading || LfnIsLast(e)) else p
  }

  /** The name reported for a live entry. */
  function NameOf(p: Pending, e: Entry): Name { if p.reading then CString(p.buffer) else ShortName(e) }

  function Scan(entries: seq<Entry>, i: nat, p: Pending): (r: ScanResult)
    ensures r.Found? ==> i <= r.index < |entries| - 1
    ensures r.EndAt? ==> i <= r.index < |entries| && IsEnd(entries[r.index])
    decreases |entries| - i
  {
    if i >= |entries| then Runaway
    else
      var e := entries[i];
      if IsEnd(e) then EndAt(i)
      else if i + 1 == |entries| || (TakesLfn(e) && !LfnInRange(e)) then Runaway
      else if Skipped(e) then Scan(entries, i + 1, Absorb(p, e))
      else Found(i, NameOf(p, e))
  }

  /** fat_32_directory_entry_iterator_next from entry i on. */
  function NextEntry(entries: seq<Entry>, i: nat): (r: ScanResult)
    ensures r.Found? ==> i <= r.index < |entries| - 1
    ensures r.EndAt? ==> i <= r.index < |entries| && IsEnd(entries[r.index])
  {
    Scan(entries, i, Fresh())
  }

  /** What readdir reports of an entry. */
  datatype Dirent = Dirent(name: Name, directory: bool)

  datatype Listing = Listing(dirents: seq<Dirent>, next: nat) | Broken

  function Prepend(d: Dirent, l: Listing): Listing {
    match l
    case Broken => Broken
    case Listing(rest, next) => Listing([d] + rest, next)
  }

  /** The list of one call followed by the list of a second call. */
  function Followed(l: Listing, m: Listing): Listing {
    if l.Broken? || m.Broken? then Broken else Listing(l.dirents + m.dirents, m.next)
  }

  /** The loop of readdir over any iterator: at most `count` entries from index i on. */
  function List(next: nat -> ScanResult, directory: nat -> bool, i: nat, count: nat): Listing
    decreases count
  {
    if count == 0 then Listing([], i)
    else
      match next(i)
      case Runaway => Broken
      case EndAt(k) => Listing([], k)
      case Found(k, name) => Prepend(Dirent(name, directory(k)), List(next, directory, k + 1, count - 1))
  }

  lemma PrependFollowed(d: Dirent, l: Listing, m: Listing)
    ensures Prepend(d, Followed(l, m)) == Followed(Prepend(d, l), m)
  {
    if l.Listing? && m.Listing? {
      assert [d] + (l.dirents + m.dirents) == ([d] + l.dirents) + m.dirents;
    }
  }

  /** An iterator that has met the end marker meets it again. */
  ghost predicate EndStays(next: nat -> ScanResult) {
    forall i, k :: next(i) == EndAt(k) ==> next(k) == EndAt(k)
  }

  lemma {:induction false} ListSplits(next: nat -> ScanResult, directory: nat -> bool, i: nat, a: nat, c: nat)
    requires EndStays(next)
    ensures var first := List(next, directory, i, a);
            List(next, directory, i, a + c) ==
              if first.Broken? then Broken else Followed(first, List(next, directory, first.next, c))
    decreases a
  {
    if a == 0 {
      var m := List(next, directory, i, c);
      if m.Listing? { assert [] + m.dirents == m.dirents; }
    } else if next(i).Found? {
      var k := next(i).index;
      ListSplits(next, directory, k + 1, a - 1, c);
      var d, rest := Dirent(next(i).name, directory(k)), List(next, directory, k + 1, a - 1);
      if rest.Listing? { PrependFollowed(d, rest, List(next, directory, rest.next, c)); }
    }
  }

  function Iteration(entries: seq<Entry>): nat -> ScanResult { (j: nat) => NextEntry(entries, j) }

  function Directories(entries: seq<Entry>): nat -> bool { (k: nat) => k < |entries| && IsDirectory(entries[k]) }

  /** _fat32_fs_dir_readdir on a directory. */
  function ReadDir(entries: seq<Entry>, i: nat, count: nat): Listing {
    List(Iteration(entries), Directories(entries), i, count)
  }

  /** Splitting a readdir into two calls of any sizes gives the same list and the same position. */
  lemma ReadDirSplits(entries: seq<Entry>, i: nat, a: nat, c: nat)
    ensures var first := ReadDir(entries, i, a);
            ReadDir(entries, i, a + c) ==
              if first.Broken? then Broken else Followed(first, ReadDir(entries, first.next, c))
  {
    var next := Iteration(entries);
    forall j: nat, k: nat | next(j) == EndAt(k) ensures next(k) == EndAt(k) {
      assert IsEnd(entries[k]);
    }
    ListSplits(next, Directories(entries), i, a, c);
  }

  // ---- the iterator on disk ----

  /** The entries of a directory, sector after sector. */
  function Entries(v: Volume, chain: seq<nat>): (r: seq<Entry>)
    requires IsChain(v, chain)
    ensures |r| == SectorCount(v, chain) * ENTRIES_PER_SECTOR
  {
    seq(SectorCount(v, chain) * ENTRIES_PER_SECTOR, k requires 0 <= k < SectorCount(v, chain) * ENTRIES_PER_SECTOR =>
      EntryIn(ChainSector(v, chain, k / ENTRIES_PER_SECTOR), k % ENTRIES_PER_SECTOR))
  }

  function EntryIn(s: Sector, i: nat): Entry
    requires i < ENTRIES_PER_SECTOR
  {
    s[ENTRY_SIZE * i..ENTRY_SIZE * i + ENTRY_SIZE]
  }

  /** _copy_lfn_chars on the buffer itself. */
  method CopyLfnChars(b: array<Byte>, at: nat, e: Entry)
    requires b.Length == NAME_BUFFER && at + LFN_CHARS <= NAME_BUFFER
    modifies b
    ensures b[..] == CopyChars(old(b[..]), at, e, 0)
  {
    for j := 0 to LFN_CHARS
      invariant CopyChars(old(b[..]), at, e, 0) == CopyChars(b[..], at, e, j)
    {
      ghost var was := b[..];
      b[at + j] := LfnChar(e, j);
      assert b[..] == was[at + j := LfnChar(e, j)];
      if LfnChar(e, j) == 0 { return; }
    }
  }

  /** A live entry as the iterator hands it out. */
  datatype Live = Live(entry: Entry, ino: nat, name: Name)

  /** The inode number of the place of entry k on disk. */
  function InoAt(v: Volume, chain: seq<nat>, k: nat): nat
    requires IsChain(v, chain) && k < |Entries(v, chain)|
  {
    var at := LocationOf(v, chain, k / ENTRIES_PER_SECTOR);
    SectorSplit(v, chain, k / ENTRIES_PER_SECTOR);
    InodeNumber(v, at.cluster, at.index, k % ENTRIES_PER_SECTOR)
  }

  /** fat_directory_entry_iterator_t: a location, an entry index and a one-sector cache. */
  class Iterator {
    const cursor: Cursor
    var entryIndex: nat
    var dirty: bool
    var cache: Sector

    ghost predicate Valid()
      reads this, cursor
    {
      && cursor.Valid()
      && entryIndex < ENTRIES_PER_SECTOR
      && (!dirty ==> cache == ChainSector(cursor.volume, cursor.chain, cursor.n))
    }

    /** The index of the next entry in the flat list. */
    ghost function Index(): nat
      reads this, cursor
    {
      cursor.n * ENTRIES_PER_SECTOR + entryIndex
    }

    /** fat_32_directory_entry_iterator_init: the cache starts dirty. */
    constructor (cursor: Cursor, entryIndex: nat)
      requires cursor.Valid() && entryIndex < ENTRIES_PER_SECTOR
      ensures Valid() && this.cursor == cursor && this.entryIndex == entryIndex
    {
      this.cursor, this.entryIndex, dirty := cursor, entryIndex, true;
      cache := seq(SECTOR_SIZE, i => 0);
    }

    /** The entry at the current index, through the cache. */
    method Fetch() returns (e: Entry)
      requires Valid()
      modifies this`dirty, this`cache
      ensures Valid() && !dirty
      ensures Index() < |Entries(cursor.volume, cursor.chain)| && e == Entries(cursor.volume, cursor.chain)[Index()]
    {
      if dirty {
        cache := cursor.ReadSector();
        dirty := false;
      }
      e := EntryIn(cache, entryIndex);
      ghost var k := Index();
      assert k / ENTRIES_PER_SECTOR == cursor.n && k % ENTRIES_PER_SECTOR == entryIndex;
    }

    /** To the next entry, across sectors and clusters; halts at the end of the chain. */
    method Advance() returns (r: Outcome<()>)
      requires Valid()
      modifies this`entryIndex, this`dirty, cursor
      ensures r.Done? <==> old(Index()) + 1 < |Entries(cursor.volume, cursor.chain)|
      ensures r.Done? ==> Valid() && Index() == old(Index()) + 1
    {
      entryIndex := entryIndex + 1;
      if entryIndex >= ENTRIES_PER_SECTOR {
        r := cursor.Next();
        if r.Fatal? { return; }
        entryIndex, dirty := 0, true;
      }
      return Done(());
    }

    /** The inode number of the entry at the current index. */
    method InodeHere() returns (ino: nat)
      requires Valid()
      ensures Index() < |Entries(cursor.volume, cursor.chain)| && ino == InoAt(cursor.volume, cursor.chain, Index())
    {
      SectorSplit(cursor.volume, cursor.chain, cursor.n);
      ino := InodeNumber(cursor.volume, cursor.cluster, cursor.index, entryIndex);
      ghost var k := Index();
      assert k / ENTRIES_PER_SECTOR == cursor.n && k % ENTRIES_PER_SECTOR == entryIndex;
    }

    /** The top of the loop: fetch the entry and, unless it is the end marker, move on. */
    method Take() returns (e: Entry, ino: nat, moved: Outcome<()>)
      requires Valid()
      modifies this, cursor
      ensures old(Index()) < |Entries(cursor.volume, cursor.chain)| && e == Entries(cursor.volume, cursor.chain)[old(Index())]
      ensures ino == InoAt(cursor.volume, cursor.chain, old(Index()))
      ensures IsEnd(e) ==> moved.Done? && Valid() && Index() == old(Index())
      ensures !IsEnd(e) ==> (moved.Done? <==> old(Index()) + 1 < |Entries(cursor.volume, cursor.chain)|)
      ensures !IsEnd(e) && moved.Done? ==> Valid() && Index() == old(Index()) + 1
    {
      e := Fetch();
      ino := InodeHere();
      moved := Done(());
      if !IsEnd(e) { moved := Advance(); }
    }

    /** The loop of the iterator, with the scan of the flat list given by its single turns. */
    method NextBy(ghost scan: (nat, Pending) -> ScanResult) returns (r: Outcome<Option<Live>>)
      requires Valid() && Scans(scan, Entries(cursor.volume, cursor.chain))
      modifies this, cursor
      ensures var all := Entries(cursor.volume, cursor.chain);
              match scan(old(Index()), Fresh())
              case Runaway => r == Fatal
              case EndAt(k) => r == Done(None) && Valid() && Index() == k
              case Found(k, name) =>
                && k < |all| && r == Done(Some(Live(all[k], InoAt(cursor.volume, cursor.chain, k), name)))
                && Valid() && Index() == k + 1
    {
      var b := new Byte[NAME_BUFFER](_ => 0);
      var reading := false;
      ghost var all, k, p := Entries(cursor.volume, cursor.chain), Index(), Fresh();
      assert b[..] == p.buffer;
      ghost var target := scan(k, p);
      while true
        invariant Valid() && fresh(b) && p == Pending(b[..], reading) && k == Index()
        invariant target == scan(k, p)
        decreases |all| - k
      {
        var e, ino, moved := Take();
        assert e == all[k] && ScanTurn(scan, all, k, p);
        if IsEnd(e) { return Done(None); }
        if moved.Fatal? || (TakesLfn(e) && !LfnInRange(e)) { return Fatal; }
        if !Skipped(e) {
          return Done(Some(Live(e, ino, NameOf(Pending(b[..], reading), e))));
        }
        reading := TakeEntry(b, reading, e);
        k, p := k + 1, Absorb(p, e);
      }
    }

    /** fat_32_directory_entry_iterator_next: the next live entry of the flat list with its name and
        its inode number, None at the end marker, Fatal when the walk leaves the chain or meets a
        long-name entry whose number points outside the buffer. */
    method Next() returns (r: Outcome<Option<Live>>)
      requires Valid()
      modifies this, cursor
      ensures match NextEntry(Entries(cursor.volume, cursor.chain), old(Index()))
              case Runaway => r == Fatal
              case EndAt(k) => r == Done(None) && Valid() && Index() == k
              case Found(k, name) =>
                && r == Done(Some(Live(Entries(cursor.volume, cursor.chain)[k], InoAt(cursor.volume, cursor.chain, k), name)))
                && Valid() && Index() == k + 1
    {
      ghost var all := Entries(cursor.volume, cursor.chain);
      ScanScans(all);
      r := NextBy(Scanner(all));
    }
  }

  /** One turn of the scan. */
  predicate ScanTurn(scan: (nat, Pending) -> ScanResult, entries: seq<Entry>, i: nat, p: Pending)
    requires i < |entries|
  {
    var e := entries[i];
    scan(i, p) ==
      if IsEnd(e) then EndAt(i)
      else if i + 1 == |entries| || (TakesLfn(e) && !LfnInRange(e)) then Runaway
      else if Skipped(e) then scan(i + 1, Absorb(p, e))
      else Found(i, NameOf(p, e))
  }

  ghost predicate Scans(scan: (nat, Pending) -> ScanResult, entries: seq<Entry>) {
    forall i: nat, p {:trigger ScanTurn(scan, entries, i, p)} :: i < |entries| ==> ScanTurn(scan, entries, i, p)
  }

  function Scanner(entries: seq<Entry>): (nat, Pending) -> ScanResult {
    (i: nat, p: Pending) => Scan(entries, i, p)
  }

  lemma ScanScans(entries: seq<Entry>)
    ensures Scans(Scanner(entries), entries)
  {
  }

  /** The long-name branch of the loop: terminate the name at the last entry, then copy. */
  method TakeLfn(b: array<Byte>, e: Entry)
    requires b.Length == NAME_BUFFER && LfnInRange(e)
    modifies b
    ensures b[..] == LfnStep(old(b[..]), e)
  {
    var n := LfnNumber(e);
    if LfnIsLast(e) { b[LFN_CHARS * n] := 0; }
    assert b[..] == if LfnIsLast(e) then old(b[..])[LFN_CHARS * n := 0] else old(b[..]);
    CopyLfnChars(b, LFN_CHARS * (n - 1), e);
  }

  /** What an entry that is passed over leaves in the name under construction. */
  method TakeEntry(b: array<Byte>, reading: bool, e: Entry) returns (still: bool)
    requires b.Length == NAME_BUFFER && (TakesLfn(e) ==> LfnInRange(e))
    modifies b
    ensures Pending(b[..], still) == Absorb(Pending(old(b[..]), reading), e)
  {
    still := reading;
    if TakesLfn(e) {
      TakeLfn(b, e);
      still := reading || LfnIsLast(e);
    }
  }

  /** What one round of readdir makes of what the iterator finds. */
  predicate Round(list: (nat, nat) -> Listing, entries: seq<Entry>, i: nat, count: nat)
    requires count > 0
  {
    match NextEntry(entries, i)
    case Runaway => list(i, count) == Broken
    case EndAt(k) => list(i, count) == Listing([], k)
    case Found(k, name) => list(i, count) == Prepend(Dirent(name, IsDirectory(entries[k])), list(k + 1, count - 1))
  }

  ghost predicate Rounds(list: (nat, nat) -> Listing, entries: seq<Entry>) {
    && (forall i: nat, count: nat {:trigger Round(list, entries, i, count)} :: count > 0 ==> Round(list, entries, i, count))
    && (forall i: nat :: list(i, 0) == Listing([], i))
  }

  function Lists(entries: seq<Entry>): (nat, nat) -> Listing { (i: nat, count: nat) => ReadDir(entries, i, count) }

  lemma ReadDirRound(entries: seq<Entry>, i: nat, count: nat)
    requires count > 0
    ensures Round(Lists(entries), entries, i, count)
  {
  }

  lemma ReadDirRounds(entries: seq<Entry>)
    ensures Rounds(Lists(entries), entries)
  {
    forall i: nat, count: nat {:trigger Round(Lists(entries), entries, i, count)} | count > 0
      ensures Round(Lists(entries), entries, i, count)
    {
      ReadDirRound(entries, i, count);
    }
  }

  /** The entries listed so far followed by the listing of the rest. */
  function After(out: seq<Dirent>, rest: Listing): Listing { Followed(Listing(out, 0), rest) }

  lemma AfterMoves(out: seq<Dirent>, d: Dirent, rest: Listing)
    ensures After(out, Prepend(d, rest)) == After(out + [d], rest)
    ensures After([], rest) == rest
  {
    if rest.Listing? {
      assert out + ([d] + rest.dirents) == (out + [d]) + rest.dirents;
      assert [] + rest.dirents == rest.dirents;
    }
  }

  /** One turn of the readdir loop: None when it stops. */
  method ReadOne(it: Iterator, ghost list: (nat, nat) -> Listing, ghost out: seq<Dirent>, ghost left: nat) returns (r: Outcome<Option<Dirent>>)
    requires it.Valid() && left > 0 && Rounds(list, Entries(it.cursor.volume, it.cursor.chain))
    modifies it, it.cursor
    ensures var target := After(out, list(old(it.Index()), left));
            match r
            case Fatal => target == Broken
            case Done(None) => it.Valid() && target == Listing(out, it.Index())
            case Done(Some(d)) => it.Valid() && target == After(out + [d], list(it.Index(), left - 1))
  {
    ghost var all := Entries(it.cursor.volume, it.cursor.chain);
    assert Round(list, all, it.Index(), left);
    var e := it.Next();
    match e {
      case Fatal => return Fatal;
      case Done(None) =>
        assert out + [] == out;
        return Done(None);
      case Done(Some(live)) =>
        var d := Dirent(live.name, IsDirectory(live.entry));
        AfterMoves(out, d, list(it.Index(), left - 1));
        return Done(Some(d));
    }
  }

  /** The loop of readdir. */
  method ReadEntries(it: Iterator, ghost list: (nat, nat) -> Listing, count: nat) returns (r: Outcome<seq<Dirent>>)
    requires it.Valid() && Rounds(list, Entries(it.cursor.volume, it.cursor.chain))
    modifies it, it.cursor
    ensures match list(old(it.Index()), count)
            case Broken => r == Fatal
            case Listing(dirents, next) => r == Done(dirents) && it.Valid() && it.Index() == next
  {
    ghost var target := list(it.Index(), count);
    var out: seq<Dirent> := [];
    if target.Listing? { assert [] + target.dirents == target.dirents; }
    while |out| < count
      invariant it.Valid() && |out| <= count
      invariant target == After(out, list(it.Index(), count - |out|))
      decreases count - |out|
    {
      var d := ReadOne(it, list, out, count - |out|);
      if d.Fatal? { return Fatal; }
      if d.value.None? { return Done(out); }
      out := out + [d.value.value];
    }
    assert out + [] == out;
    return Done(out);
  }

  /** _fat32_fs_dir_readdir on disk: the list that ReadDir describes, and the position to resume at. */
  method ReadDirectory(it: Iterator, count: nat) returns (r: Outcome<seq<Dirent>>)
    requires it.Valid()
    modifies it, it.cursor
    ensures match ReadDir(Entries(it.cursor.volume, it.cursor.chain), old(it.Index()), count)
            case Broken => r == Fatal
            case Listing(dirents, next) => r == Done(dirents) && it.Valid() && it.Index() == next
  {
    ghost var all := Entries(it.cursor.volume, it.cursor.chain);
    ReadDirRounds(all);
    r := ReadEntries(it, Lists(all), count);
  }
}
