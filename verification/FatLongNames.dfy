/** Directories as they are written, and the proof that the iterator reads back what was written:
    long names of up to 247 characters spread over up to 19 entries, deleted entries and the dot
    entries in between (FAT32 File System Specification 1.03, "FAT Long Directory Entries"). */
module FatLongNames {
  import opened Bytes
  import opened Strings
  import opened FatDirectory

  const MAX_LFN: nat := 19

  /** A name that can be stored: 1 to 247 non-zero characters whose high byte is zero. */
  predicate Storable(name: Name) {
    1 <= |name| <= 13 * MAX_LFN && forall i :: 0 <= i < |name| ==> name[i] != 0
  }

  /** Entries needed for a name. */
  function LfnCount(name: Name): nat { (|name| + 12) / 13 }

  /** Where a long-name entry has its 13 characters: five, six and two of them. */
  const LFN_PLACES: seq<nat> := [1, 3, 5, 7, 9, 14, 16, 18, 20, 22, 24, 28, 30]

  /** Entry number `num` of a name: its characters, a terminating zero after the last one, then
      padding; the last entry (written first) is marked. Checksum and padding are not read. */
  predicate IsLfnOf(e: Entry, name: Name, num: nat) {
    && 1 <= num <= LfnCount(name)
    && e[0] == num + (if num == LfnCount(name) then 0x40 else 0)
    && e[11] == 0x0F
    && forall j :: 0 <= j < 13 ==>
      var p := 13 * (num - 1) + j;
      && (p < |name| ==> e[LFN_PLACES[j]] == name[p])
      && (p == |name| ==> e[LFN_PLACES[j]] == 0)
  }

  /** The long-name entries of a name in disk order: the highest number first. */
  predicate IsLfnRun(lfns: seq<Entry>, name: Name) {
    && |lfns| == LfnCount(name)
    && forall t :: 0 <= t < |lfns| ==> IsLfnOf(lfns[t], name, |lfns| - t)
  }

  /** An entry that the iterator reports. */
  predicate IsLive(e: Entry) { !IsEnd(e) && !Skipped(e) }

  /** The first zero character at or after j, 13 when there is none. */
  function Stop(e: Entry, j: nat): (z: nat)
    requires j <= LFN_CHARS
    ensures j <= z <= LFN_CHARS
    ensures forall i :: j <= i < z ==> LfnChar(e, i) != 0
    ensures z < LFN_CHARS ==> LfnChar(e, z) == 0
    decreases LFN_CHARS - j
  {
    if j == LFN_CHARS || LfnChar(e, j) == 0 then j else Stop(e, j + 1)
  }

  /** What the copy of an entry's characters does to each byte of the buffer. */
  lemma {:induction false} CopyCharsAt(b: Buffer, at: nat, e: Entry, j: nat, x: nat)
    requires j <= LFN_CHARS && at + LFN_CHARS <= NAME_BUFFER && x < NAME_BUFFER
    ensures CopyChars(b, at, e, j)[x] ==
            var z := Stop(e, j);
            if at + j <= x < at + z then LfnChar(e, x - at)
            else if x == at + z && z < LFN_CHARS then 0
            else b[x]
    decreases LFN_CHARS - j
  {
    if j < LFN_CHARS && LfnChar(e, j) != 0 {
      CopyCharsAt(b[at + j := LfnChar(e, j)], at, e, j + 1, x);
    }
  }

  /** The buffer holds the characters of the name from position 13 * m on and its terminator. */
  predicate Holds(b: Buffer, name: Name, m: nat) {
    && |name| < NAME_BUFFER
    && (forall x :: LFN_CHARS * m <= x < |name| ==> b[x] == name[x])
    && b[|name|] == 0
  }

  /** What the entry's own fields say. */
  lemma LfnFields(name: Name, e: Entry, num: nat)
    requires Storable(name) && IsLfnOf(e, name, num)
    ensures LfnInRange(e) && LfnNumber(e) == num && (LfnIsLast(e) <==> num == LfnCount(name))
    ensures !IsEnd(e) && TakesLfn(e)
  {
  }

  /** One more entry extends what the buffer holds by 13 characters to the left. */
  lemma LfnStepHolds(b: Buffer, name: Name, e: Entry, num: nat)
    requires Storable(name) && IsLfnOf(e, name, num)
    requires num < LfnCount(name) ==> Holds(b, name, num)
    ensures LfnInRange(e) && Holds(LfnStep(b, e), name, num - 1)
  {
    LfnFields(name, e, num);
    var at := LFN_CHARS * (num - 1);
    var b1: Buffer := if LfnIsLast(e) then b[LFN_CHARS * num := 0] else b;
    forall x | at <= x <= |name| ensures CopyChars(b1, at, e, 0)[x] == if x < |name| then name[x] else 0 {
      LfnCharsAt(b1, name, e, num, x);
    }
  }

  /** The code reads the characters where they were written. */
  lemma LfnCharIs(e: Entry, j: nat)
    requires j < 13
    ensures LfnChar(e, j) == e[LFN_PLACES[j]]
  {
    assert LFN_PLACES[0..5] == [1, 3, 5, 7, 9] && LFN_PLACES[5..11] == [14, 16, 18, 20, 22, 24];
  }

  lemma LfnCharsAt(b: Buffer, name: Name, e: Entry, num: nat, x: nat)
    requires Storable(name) && IsLfnOf(e, name, num)
    requires LFN_CHARS * (num - 1) <= x <= |name|
    requires LFN_CHARS * num <= x ==> b[x] == if x < |name| then name[x] else 0
    ensures CopyChars(b, LFN_CHARS * (num - 1), e, 0)[x] == if x < |name| then name[x] else 0
  {
    var at := LFN_CHARS * (num - 1);
    CopyCharsAt(b, at, e, 0, x);
    StopIs(name, e, num);
    if x < at + LFN_CHARS {
      var j := x - at;
      assert at + j == x && 0 <= j < LFN_CHARS;
      LfnCharIs(e, j);
      assert x < |name| ==> LfnChar(e, j) == name[x];
    }
  }

  /** The copy stops at the end of the name or of the entry. */
  lemma StopIs(name: Name, e: Entry, num: nat)
    requires Storable(name) && IsLfnOf(e, name, num)
    ensures var at := LFN_CHARS * (num - 1);
            Stop(e, 0) == if |name| - at < LFN_CHARS then |name| - at else LFN_CHARS
  {
    var at, z := LFN_CHARS * (num - 1), Stop(e, 0);
    forall j | 0 <= j < LFN_CHARS && at + j <= |name| ensures LfnChar(e, j) == if at + j < |name| then name[at + j] else 0 {
      LfnCharIs(e, j);
    }
    assert 0 <= |name| - at < LFN_CHARS ==> LfnChar(e, |name| - at) == 0;
  }

  /** A terminated buffer reads back as the name. */
  lemma {:induction false} CStringIs(s: seq<Byte>, name: Name)
    requires |name| < |s| && s[..|name|] == name && s[|name|] == 0
    requires forall i :: 0 <= i < |name| ==> name[i] != 0
    ensures CString(s) == name
  {
    if name != [] {
      assert s[0] == name[0];
      assert s[1..][..|name| - 1] == name[1..];
      CStringIs(s[1..], name[1..]);
      assert name == [name[0]] + name[1..];
    }
  }

  /** The entries num, num - 1, ..., 1 of a name stand at index i and after. */
  predicate LfnRunAt(entries: seq<Entry>, i: nat, name: Name, num: nat) {
    i + num <= |entries| && forall x :: i <= x < i + num ==> IsLfnOf(entries[x], name, num - (x - i))
  }

  /** From entry number `num` down to 1, the scan collects the whole name whatever the buffer
      held before, and reports it for the short entry that follows. */
  lemma {:induction false} ScanLfnRun(entries: seq<Entry>, i: nat, p: Pending, name: Name, num: nat)
    requires Storable(name) && num <= LfnCount(name) && i + num + 1 < |entries|
    requires LfnRunAt(entries, i, name, num) && IsLive(entries[i + num])
    requires num < LfnCount(name) ==> p.reading && Holds(p.buffer, name, num)
    ensures Scan(entries, i, p) == Found(i + num, name)
    decreases num
  {
    if num == 0 {
      CStringIs(p.buffer, name);
      ScanLive(entries, i, p);
    } else {
      var e := entries[i];
      assert IsLfnOf(e, name, num);
      LfnFields(name, e, num);
      LfnStepHolds(p.buffer, name, e, num);
      ScanPasses(entries, i, p);
      ScanLfnRun(entries, i + 1, Absorb(p, e), name, num - 1);
    }
  }

  /** The scan at a live entry, and at a long-name entry. */
  lemma ScanLive(entries: seq<Entry>, i: nat, p: Pending)
    requires i + 1 < |entries| && IsLive(entries[i])
    ensures Scan(entries, i, p) == Found(i, NameOf(p, entries[i]))
  {
  }

  lemma ScanPasses(entries: seq<Entry>, i: nat, p: Pending)
    requires i + 1 < |entries| && !IsEnd(entries[i]) && TakesLfn(entries[i]) && LfnInRange(entries[i])
    ensures Scan(entries, i, p) == Scan(entries, i + 1, Absorb(p, entries[i]))
  {
  }

  // ---- whole directories ----

  /** What a directory is made of, in disk order. */
  datatype Item =
    | Deleted(entry: Entry)
    | Dot(entry: Entry)
    | ShortFile(name: Name, directory: bool, stem: Name, entry: Entry)
    | LongFile(name: Name, directory: bool, lfns: seq<Entry>, entry: Entry)

  /** The entry of a file or of a directory other than the dot entries. */
  predicate IsFileEntry(e: Entry, directory: bool) {
    && e[0] != 0 && e[0] != 0xE5 && e[11] % 16 == 0
    && (directory <==> e[11] / 16 % 2 == 1) && (directory ==> e[0] != 0x2E)
  }

  /** The name field holds these bytes, followed by a space when there is room. */
  predicate HasStem(e: Entry, stem: Name) {
    |stem| <= 8 && e[..|stem|] == stem && 0x20 !in stem && (|stem| < 8 ==> e[|stem|] == 0x20)
  }

  /** Letters in lower case, when that is asked for. */
  function Lowered(lower: bool, s: seq<Byte>): (r: seq<Byte>)
    ensures |r| == |s|
  {
    seq(|s|, i requires 0 <= i < |s| => if lower && 0x41 <= s[i] <= 0x5A then s[i] + 0x20 else s[i])
  }

  /** What becomes of a short name: of the extension only as many bytes are seen as the stem has. */
  function Seen(stem: Name, extension: seq<Byte>, lowerStem: bool, lowerExtension: bool): Name
    requires |extension| == 3
  {
    Lowered(lowerStem, stem) +
    if extension[0] == 0x20 then []
    else [0x2E] + Lowered(lowerExtension, extension[..if |stem| < 3 then |stem| else 3])
  }

  predicate WellFormed(item: Item) {
    match item
    case Deleted(e) => e[0] == 0xE5
    case Dot(e) => e[0] == 0x2E && e[11] % 16 == 0 && e[11] / 16 % 2 == 1
    case ShortFile(name, directory, stem, e) =>
      && IsFileEntry(e, directory) && HasStem(e, stem)
      && name == CString(Seen(stem, e[8..11], e[12] / 8 % 2 == 1, e[12] / 16 % 2 == 1))
    case LongFile(name, directory, lfns, e) => Storable(name) && IsLfnRun(lfns, name) && IsFileEntry(e, directory)
  }

  /** The loops over the two fields of a short name. */
  lemma {:induction false} FieldCharsAre(e: Entry, field: nat, stem: Name, lower: bool, i: nat, limit: nat)
    requires HasStem(e, stem) && limit <= 8 && field + limit <= ENTRY_SIZE && i <= limit
    ensures var n := if |stem| < limit then |stem| else limit;
            i <= n ==> FieldChars(e, field, 0, lower, i, limit) == Lowered(lower, e[field + i..field + n])
    decreases limit - i
  {
    var n := if |stem| < limit then |stem| else limit;
    if i < n {
      assert e[..|stem|][i] == stem[i];
      FieldCharsAre(e, field, stem, lower, i + 1, limit);
      assert e[field + i..field + n] == [e[field + i]] + e[field + i + 1..field + n];
    }
  }

  lemma ShortNameIs(e: Entry, stem: Name)
    requires HasStem(e, stem)
    ensures ShortName(e) == CString(Seen(stem, e[8..11], e[12] / 8 % 2 == 1, e[12] / 16 % 2 == 1))
  {
    var lower, lowerToo := e[12] / 8 % 2 == 1, e[12] / 16 % 2 == 1;
    FieldCharsAre(e, 0, stem, lower, 0, 8);
    FieldCharsAre(e, 8, stem, lowerToo, 0, 3);
    var n := if |stem| < 3 then |stem| else 3;
    assert e[8..11][..n] == e[8..8 + n] && e[0..0 + |stem|] == stem;
    var first, second := Lowered(lower, stem), Lowered(lowerToo, e[8..11][..n]);
    assert first + [0x2E] + second == first + ([0x2E] + second);
    assert e[8..11][0] == e[8] && first + [] == first;
  }

  /** A field of three bytes, padded with spaces. */
  function Padded(extension: Name): (r: seq<Byte>)
    requires |extension| <= 3
    ensures |r| == 3
  {
    extension + seq(3 - |extension|, i => 0x20)
  }

  /** An extension comes out as it was written if and only if it is as long as the stem, up to three
      bytes: longer ones are cut, shorter ones padded. */
  lemma ExtensionSeenIff(stem: Name, extension: Name, lowerStem: bool, lower: bool)
    requires 1 <= |extension| <= 3 && 0x20 !in extension
    ensures Seen(stem, Padded(extension), lowerStem, lower) == Lowered(lowerStem, stem) + [0x2E] + Lowered(lower, extension)
            <==> |extension| == if |stem| < 3 then |stem| else 3
    ensures Seen(stem, Padded([]), lowerStem, lower) == Lowered(lowerStem, stem)
  {
    var n := if |stem| < 3 then |stem| else 3;
    var first, seen := Lowered(lowerStem, stem), Padded(extension)[..n];
    assert Seen(stem, Padded(extension), lowerStem, lower) == first + [0x2E] + Lowered(lower, seen);
    if |extension| == n {
      assert seen == extension;
    } else {
      assert |first + [0x2E] + Lowered(lower, seen)| != |first + [0x2E] + Lowered(lower, extension)|;
    }
  }

  function Raw(item: Item): seq<Entry> {
    match item
    case LongFile(_, _, lfns, e) => lfns + [e]
    case _ => [item.entry]
  }

  /** The entries that one item contributes. */
  function Shown(item: Item): seq<Dirent> {
    if item.ShortFile? || item.LongFile? then [Dirent(item.name, item.directory)] else []
  }

  /** What the directory should list: live entries in disk order, each under its own name. */
  function Listed(items: seq<Item>): seq<Dirent> {
    if items == [] then [] else Shown(items[0]) + Listed(items[1..])
  }

  /** The entries of an item stand at index i and after, and are not the last of the directory. */
  predicate ItemAt(entries: seq<Entry>, i: nat, item: Item) {
    && i + |Raw(item)| < |entries|
    && forall x :: i <= x < i + |Raw(item)| ==> entries[x] == Raw(item)[x - i]
  }

  lemma FileEntryIsLive(e: Entry, directory: bool)
    requires IsFileEntry(e, directory)
    ensures IsLive(e) && IsDirectory(e) == directory
  {
  }

  lemma NextOfLong(entries: seq<Entry>, i: nat, item: Item)
    requires WellFormed(item) && item.LongFile? && ItemAt(entries, i, item)
    ensures NextEntry(entries, i) == Found(i + |item.lfns|, item.name) && entries[i + |item.lfns|] == item.entry
  {
    var n := |item.lfns|;
    forall x | i <= x < i + n ensures IsLfnOf(entries[x], item.name, n - (x - i)) {
      assert entries[x] == Raw(item)[x - i] == item.lfns[x - i];
    }
    assert entries[i + n] == Raw(item)[n];
    FileEntryIsLive(item.entry, item.directory);
    ScanLfnRun(entries, i, Fresh(), item.name, n);
  }

  /** An entry is reported under its short name, or passed over. */
  lemma NextOfOther(entries: seq<Entry>, i: nat, item: Item)
    requires WellFormed(item) && !item.LongFile? && ItemAt(entries, i, item)
    ensures entries[i] == item.entry
    ensures NextEntry(entries, i) == if item.ShortFile? then Found(i, item.name) else NextEntry(entries, i + 1)
  {
    assert entries[i] == Raw(item)[0];
    if item.ShortFile? { ShortNameIs(item.entry, item.stem); }
    assert !item.ShortFile? ==> Absorb(Fresh(), entries[i]) == Fresh();
  }

  /** The iterator reports an item at index i, or passes over it. */
  predicate Reports(next: nat -> ScanResult, directory: nat -> bool, i: nat, item: Item) {
    var after := i + |Raw(item)|;
    if Shown(item) == [] then next(i) == next(after)
    else next(i) == Found(after - 1, Shown(item)[0].name) && directory(after - 1) == Shown(item)[0].directory
  }

  /** It reports all items from index i on and then stops. */
  predicate ReportsAll(next: nat -> ScanResult, directory: nat -> bool, i: nat, items: seq<Item>)
    decreases |items|
  {
    if items == [] then next(i) == EndAt(i)
    else Reports(next, directory, i, items[0]) && ReportsAll(next, directory, i + |Raw(items[0])|, items[1..])
  }

  lemma {:induction false} ListsReported(next: nat -> ScanResult, directory: nat -> bool, i: nat, items: seq<Item>, count: nat)
    requires ReportsAll(next, directory, i, items) && count > |Listed(items)|
    ensures List(next, directory, i, count) == Listing(Listed(items), EndIndex(i, items))
    decreases |items|
  {
    if items != [] {
      ListsReported(next, directory, i + |Raw(items[0])|, items[1..], count - |Shown(items[0])|);
    }
  }

  /** The items stand one after the other from index i on, followed by the end marker. */
  predicate Laid(entries: seq<Entry>, i: nat, items: seq<Item>)
    decreases |items|
  {
    if items == [] then i < |entries| && entries[i][0] == 0
    else WellFormed(items[0]) && ItemAt(entries, i, items[0]) && Laid(entries, i + |Raw(items[0])|, items[1..])
  }

  /** The index of the end marker. */
  function EndIndex(i: nat, items: seq<Item>): nat
    decreases |items|
  {
    if items == [] then i else EndIndex(i + |Raw(items[0])|, items[1..])
  }

  /** Over a directory the iterator reports each well-formed item and stops at an end marker. */
  ghost predicate Iterates(next: nat -> ScanResult, directory: nat -> bool, entries: seq<Entry>) {
    && (forall i: nat, item {:trigger Reports(next, directory, i, item)} :: WellFormed(item) && ItemAt(entries, i, item) ==> Reports(next, directory, i, item))
    && (forall i: nat :: i < |entries| && IsEnd(entries[i]) ==> next(i) == EndAt(i))
  }

  lemma {:induction false} LaidReports(entries: seq<Entry>, next: nat -> ScanResult, directory: nat -> bool, i: nat, items: seq<Item>)
    requires Iterates(next, directory, entries) && Laid(entries, i, items)
    ensures ReportsAll(next, directory, i, items)
    decreases |items|
  {
    if items != [] {
      LaidReports(entries, next, directory, i + |Raw(items[0])|, items[1..]);
      assert Reports(next, directory, i, items[0]);
    }
  }

  lemma EntriesIterate(entries: seq<Entry>)
    ensures Iterates(Iteration(entries), Directories(entries), entries)
  {
    forall i: nat, item | WellFormed(item) && ItemAt(entries, i, item)
      ensures Reports(Iteration(entries), Directories(entries), i, item)
    {
      if item.LongFile? { NextOfLong(entries, i, item); } else { NextOfOther(entries, i, item); }
    }
  }

  /** A well-formed directory with an end marker lists exactly its live entries, in order, each long
      name as it was encoded, and leaves the position at the end marker. */
  lemma DirectoryListsItems(entries: seq<Entry>, i: nat, items: seq<Item>, count: nat)
    requires Laid(entries, i, items) && count > |Listed(items)|
    ensures ReadDir(entries, i, count) == Listing(Listed(items), EndIndex(i, items))
  {
    EntriesIterate(entries);
    LaidReports(entries, Iteration(entries), Directories(entries), i, items);
    ListsReported(Iteration(entries), Directories(entries), i, items, count);
  }

  /** The same list whatever the sizes of the calls it is read with. */
  function ReadInCalls(entries: seq<Entry>, i: nat, sizes: seq<nat>): Listing
    decreases |sizes|
  {
    if sizes == [] then Listing([], i)
    else
      var first := ReadDir(entries, i, sizes[0]);
      if first.Broken? then Broken else Followed(first, ReadInCalls(entries, first.next, sizes[1..]))
  }

  function Sum(sizes: seq<nat>): nat { if sizes == [] then 0 else sizes[0] + Sum(sizes[1..]) }

  lemma {:induction false} CallsAgree(entries: seq<Entry>, i: nat, sizes: seq<nat>)
    ensures ReadInCalls(entries, i, sizes) == ReadDir(entries, i, Sum(sizes))
    decreases |sizes|
  {
    if sizes != [] {
      ReadDirSplits(entries, i, sizes[0], Sum(sizes[1..]));
      var first := ReadDir(entries, i, sizes[0]);
      if first.Listing? { CallsAgree(entries, first.next, sizes[1..]); }
    }
  }

  /** A directory read with calls of any sizes that add up to enough yields its items. */
  lemma DirectoryListsItemsInCalls(entries: seq<Entry>, items: seq<Item>, sizes: seq<nat>)
    requires Laid(entries, 0, items) && Sum(sizes) > |Listed(items)|
    ensures ReadInCalls(entries, 0, sizes) == Listing(Listed(items), EndIndex(0, items))
  {
    CallsAgree(entries, 0, sizes);
    DirectoryListsItems(entries, 0, items, Sum(sizes));
  }
}
