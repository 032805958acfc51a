/** Runs of reads and seeks on an open FAT32 file against plain byte-sequence semantics, and name
    lookup in a directory (src/kernel/vfs/filesystems/fat32/fat32_fs.c). */
module FatRuns {
  import opened Bytes
  import opened Wrappers
  import opened FsUtils
  import opened FatVolume
  import opened FatFile
  import opened FatDirectory
  import opened FatLongNames

  // ---- files ----

  datatype Op = ReadOp(count: nat) | SeekOp(delta: int, whence: Whence)

  function Target(op: Op, pos: nat, size: nat): int
    requires op.SeekOp?
  {
    Reference(op.whence, pos, size) + op.delta
  }

  /** What an operation does to a plain position, `capacity` being the bytes the clusters hold. A read
      stops at the end of the file; one that starts behind it goes on over the clusters. */
  function NewPos(op: Op, pos: nat, size: nat, capacity: nat): Outcome<nat> {
    match op
    case ReadOp(count) =>
      if pos <= size then Done(if pos + count <= size then pos + count else size)
      else if count == 0 || pos + count < capacity then Done(pos + count) else Fatal
    case SeekOp(_, _) =>
      var target := Target(op, pos, size);
      if target == pos || 0 <= target < capacity then Done(target) else Fatal
  }

  /** The bytes that the reads of a run return, from the bytes of the clusters alone. */
  function Replayed(ops: seq<Op>, bytes: seq<Byte>, pos: nat, size: nat): Outcome<seq<Byte>> {
    if ops == [] then Done([])
    else
      var next :- NewPos(ops[0], pos, size, |bytes|);
      var rest :- Replayed(ops[1..], bytes, next, size);
      Done((if ops[0].ReadOp? && pos <= next <= |bytes| then bytes[pos..next] else []) + rest)
  }

  function Then(out: seq<Byte>, r: Outcome<seq<Byte>>): Outcome<seq<Byte>> {
    if r.Fatal? then Fatal else Done(out + r.value)
  }

  lemma ThenReplayed(out: seq<Byte>, ops: seq<Op>, bytes: seq<Byte>, pos: nat, size: nat)
    requires ops != [] && pos <= |bytes| && size <= |bytes|
    ensures Then(out, Replayed(ops, bytes, pos, size)) ==
            var next := NewPos(ops[0], pos, size, |bytes|);
            if next.Fatal? then Fatal
            else Then(out + (if ops[0].ReadOp? then bytes[pos..next.value] else []), Replayed(ops[1..], bytes, next.value, size))
  {
    var next := NewPos(ops[0], pos, size, |bytes|);
    if next.Done? {
      var got := if ops[0].ReadOp? then bytes[pos..next.value] else [];
      var rest := Replayed(ops[1..], bytes, next.value, size);
      if rest.Done? { assert out + (got + rest.value) == (out + got) + rest.value; }
    }
  }

  /** One operation on the open file. */
  method Perform(f: RegularFile, op: Op) returns (r: Outcome<seq<Byte>>)
    requires f.Valid()
    modifies f, f.cursor
    ensures var next := NewPos(op, old(f.pos), f.size, |f.Bytes()|);
            && (r.Done? <==> next.Done?)
            && (r.Done? ==>
                && f.Valid() && f.pos == next.value && old(f.pos) <= |f.Bytes()|
                && (op.ReadOp? ==> old(f.pos) <= f.pos <= |f.Bytes()|)
                && r.value == if op.ReadOp? then f.Bytes()[old(f.pos)..f.pos] else [])
  {
    match op
    case ReadOp(count) =>
      var dst := new Byte[count](_ => 0);
      var got := f.Read(dst, count);
      return if got.Fatal? then Fatal else Done(dst[..got.value]);
    case SeekOp(delta, whence) =>
      var moved := f.Seek(Reference(whence, f.pos, f.size), delta);
      return if moved.Fatal? then Fatal else Done([]);
  }

  /** Any interleaving of reads and seeks returns what the bytes of the clusters say, and halts exactly
      when the semantics on plain positions halts. */
  method Replay(f: RegularFile, ops: seq<Op>) returns (r: Outcome<seq<Byte>>)
    requires f.Valid()
    modifies f, f.cursor
    ensures r == Replayed(ops, f.Bytes(), old(f.pos), f.size)
  {
    ghost var bytes := f.Bytes();
    ghost var target := Replayed(ops, bytes, f.pos, f.size);
    var out: seq<Byte> := [];
    assert ops[0..] == ops;
    if target.Done? { assert [] + target.value == target.value; }
    for i := 0 to |ops|
      invariant f.Valid()
      invariant target == Then(out, Replayed(ops[i..], bytes, f.pos, f.size))
    {
      assert ops[i..][1..] == ops[i + 1..];
      ThenReplayed(out, ops[i..], bytes, f.pos, f.size);
      var got := Perform(f, ops[i]);
      if got.Fatal? { return Fatal; }
      out := out + got.value;
    }
    assert out + [] == out;
    return Done(out);
  }

  /** As long as no seek goes past the end, what the reads return does not depend on the bytes of the
      clusters behind the end of the file. */
  predicate SeeksInside(ops: seq<Op>, pos: nat, size: nat, capacity: nat) {
    ops == [] ||
    (var next := NewPos(ops[0], pos, size, capacity);
     && (ops[0].SeekOp? ==> Target(ops[0], pos, size) <= size)
     && (next.Done? ==> SeeksInside(ops[1..], next.value, size, capacity)))
  }

  lemma {:induction false} SlackUnseen(ops: seq<Op>, bytes: seq<Byte>, others: seq<Byte>, pos: nat, size: nat)
    requires |bytes| == |others| && pos <= size <= |bytes| && bytes[..size] == others[..size]
    requires SeeksInside(ops, pos, size, |bytes|)
    ensures Replayed(ops, bytes, pos, size) == Replayed(ops, others, pos, size)
    decreases |ops|
  {
    if ops != [] {
      var next := NewPos(ops[0], pos, size, |bytes|);
      if next.Done? {
        SlackUnseen(ops[1..], bytes, others, next.value, size);
        if ops[0].ReadOp? {
          assert bytes[pos..next.value] == bytes[..size][pos..next.value];
          assert others[pos..next.value] == others[..size][pos..next.value];
        }
      }
    }
  }

  /** And a run that seeks past it shows them: from one byte behind the end a read returns the second byte
      that follows the file in its last cluster. A seek to the end itself leaves nothing to read. */
  lemma SlackShown(bytes: seq<Byte>, size: nat)
    requires size + 2 < |bytes|
    ensures Replayed([SeekOp(1, FromEnd), ReadOp(1)], bytes, 0, size) == Done([bytes[size + 1]])
  {
    var ops: seq<Op> := [SeekOp(1, FromEnd), ReadOp(1)];
    assert ops[1..] == [ReadOp(1)] && ops[1..][1..] == [];
    var shown := bytes[size + 1..size + 2];
    assert shown == [bytes[size + 1]] && shown + [] == shown && [] + shown == shown;
    assert NewPos(ReadOp(1), size + 1, size, |bytes|) == Done(size + 2);
    assert Replayed(ops[1..][1..], bytes, size + 2, size) == Done([]);
    assert Replayed(ops[1..], bytes, size + 1, size) == Done(shown);
  }

  function Reads(sizes: seq<nat>): (r: seq<Op>)
    ensures |r| == |sizes|
  {
    if sizes == [] then [] else [ReadOp(sizes[0])] + Reads(sizes[1..])
  }

  function Least(a: nat, b: nat): nat { if a <= b then a else b }

  /** Reads of any sizes give the file from the position on, one byte after the other, up to its end. */
  lemma {:induction false} ReadsAddUp(sizes: seq<nat>, bytes: seq<Byte>, pos: nat, size: nat)
    requires pos <= size <= |bytes|
    ensures Replayed(Reads(sizes), bytes, pos, size) == Done(bytes[pos..Least(pos + Sum(sizes), size)])
    decreases |sizes|
  {
    if sizes != [] {
      var ops, next := Reads(sizes), Least(pos + sizes[0], size);
      assert ops[0] == ReadOp(sizes[0]) && ops[1..] == Reads(sizes[1..]);
      ReadsAddUp(sizes[1..], bytes, next, size);
      var end := Least(pos + Sum(sizes), size);
      assert NewPos(ops[0], pos, size, |bytes|) == Done(next);
      assert Least(next + Sum(sizes[1..]), size) == end;
      assert bytes[pos..next] + bytes[next..end] == bytes[pos..end];
    } else {
      assert bytes[pos..pos] == [];
    }
  }

  /** A seek inside the file and a read give the bytes at the place that the seek names. */
  lemma SeekThenRead(whence: Whence, delta: int, count: nat, bytes: seq<Byte>, pos: nat, size: nat)
    requires pos <= size <= |bytes|
    requires 0 <= Named(whence, delta, pos, size) <= size && Named(whence, delta, pos, size) < |bytes|
    ensures var at := Named(whence, delta, pos, size);
            Replayed([SeekOp(delta, whence), ReadOp(count)], bytes, pos, size) == Done(bytes[at..Least(at + count, size)])
  {
    var at, ops := Named(whence, delta, pos, size), [SeekOp(delta, whence), ReadOp(count)];
    assert ops[1..] == [ReadOp(count)] && ops[1..][1..] == [];
    assert NewPos(ops[0], pos, size, |bytes|) == Done(at);
    var got := bytes[at..Least(at + count, size)];
    assert got + [] == got && [] + got == got;
    assert Replayed(ops[1..][1..], bytes, Least(at + count, size), size) == Done([]);
    assert Replayed(ops[1..], bytes, at, size) == Done(got);
  }

  /** From the start, from the position, from the end. */
  function Named(whence: Whence, delta: int, pos: nat, size: nat): int {
    match whence
    case FromStart => delta
    case FromHere => pos + delta
    case FromEnd => size + delta
  }

  /** Stepping back undoes stepping forward, across cluster boundaries too. */
  method ForwardAndBack(c: Cursor) returns (r: Outcome<()>)
    requires c.Valid()
    modifies c
    ensures r.Done? <==> old(c.n) + 1 < SectorCount(c.volume, c.chain)
    ensures r.Done? ==> c.Valid() && c.cluster == old(c.cluster) && c.index == old(c.index)
  {
    r := c.Next();
    if r.Done? { r := c.Prev(); }
  }

  // ---- lookup ----

  /** The loop of lookup over any iterator that moves forward up to a limit. */
  function Search(next: nat -> ScanResult, i: nat, limit: nat, name: Name): Outcome<Option<nat>>
    decreases limit - i
  {
    match next(i)
    case Runaway => Fatal
    case EndAt(_) => Done(None)
    case Found(k, found) =>
      if found == name then Done(Some(k)) else if i <= k < limit then Search(next, k + 1, limit, name) else Fatal
  }

  /** The entry that _fat32fs_inode_lookup stops at, from entry i on. */
  function Find(entries: seq<Entry>, i: nat, name: Name): Outcome<Option<nat>> {
    Search(Iteration(entries), i, |entries|, name)
  }

  /** The short entry of the first item shown under a name. */
  function FirstNamed(i: nat, items: seq<Item>, name: Name): Option<nat>
    decreases |items|
  {
    if items == [] then None
    else
      var shown, after := Shown(items[0]), i + |Raw(items[0])|;
      if shown != [] && shown[0].name == name then Some(after - 1) else FirstNamed(after, items[1..], name)
  }

  predicate Names(dirents: seq<Dirent>, name: Name) { exists x :: 0 <= x < |dirents| && dirents[x].name == name }

  lemma {:induction false} FirstNamedExists(i: nat, items: seq<Item>, name: Name)
    ensures FirstNamed(i, items, name).Some? <==> Names(Listed(items), name)
    decreases |items|
  {
    if items != [] {
      var shown, rest := Shown(items[0]), Listed(items[1..]);
      FirstNamedExists(i + |Raw(items[0])|, items[1..], name);
      assert Listed(items) == shown + rest;
      if Names(rest, name) {
        var x :| 0 <= x < |rest| && rest[x].name == name;
        assert (shown + rest)[|shown| + x].name == name;
      }
      if shown != [] { assert (shown + rest)[0] == shown[0]; }
    }
  }

  lemma {:induction false} SearchIsFirstNamed(next: nat -> ScanResult, directory: nat -> bool, i: nat, limit: nat, items: seq<Item>, name: Name)
    requires ReportsAll(next, directory, i, items) && EndIndex(i, items) <= limit
    ensures Search(next, i, limit, name) == Done(FirstNamed(i, items, name))
    decreases |items|
  {
    if items != [] {
      var after := i + |Raw(items[0])|;
      EndAfter(after, items[1..]);
      SearchIsFirstNamed(next, directory, after, limit, items[1..], name);
    }
  }

  lemma {:induction false} EndAfter(i: nat, items: seq<Item>)
    ensures i <= EndIndex(i, items)
    decreases |items|
  {
    if items != [] { EndAfter(i + |Raw(items[0])|, items[1..]); }
  }

  lemma {:induction false} LaidInside(entries: seq<Entry>, i: nat, items: seq<Item>)
    requires Laid(entries, i, items)
    ensures EndIndex(i, items) < |entries|
    decreases |items|
  {
    if items != [] { LaidInside(entries, i + |Raw(items[0])|, items[1..]); }
  }

  /** In a well-formed directory a name is found iff the directory lists it, and the first item
      shown under it is the one found. */
  lemma LookupFindsNamed(entries: seq<Entry>, items: seq<Item>, name: Name)
    requires Laid(entries, 0, items)
    ensures Find(entries, 0, name) == Done(FirstNamed(0, items, name))
    ensures Find(entries, 0, name) == Done(None) <==> !Names(Listed(items), name)
  {
    EntriesIterate(entries);
    LaidReports(entries, Iteration(entries), Directories(entries), 0, items);
    LaidInside(entries, 0, items);
    SearchIsFirstNamed(Iteration(entries), Directories(entries), 0, |entries|, items, name);
    FirstNamedExists(0, items, name);
  }

  /** _fat32fs_inode_lookup from the first entry on. */
  method Lookup(it: Iterator, name: Name) returns (r: Outcome<Option<Live>>)
    requires it.Valid() && it.Index() == 0
    modifies it, it.cursor
    ensures var all := Entries(it.cursor.volume, it.cursor.chain);
            match Find(all, 0, name)
            case Fatal => r == Fatal
            case Done(None) => r == Done(None)
            case Done(Some(k)) => k < |all| && r == Done(Some(Live(all[k], InoAt(it.cursor.volume, it.cursor.chain, k), name)))
  {
    ghost var all := Entries(it.cursor.volume, it.cursor.chain);
    while true
      invariant it.Valid() && Find(all, 0, name) == Find(all, it.Index(), name)
      decreases |all| - it.Index()
    {
      ghost var k := it.Index();
      var e := it.Next();
      match e {
        case Fatal => return Fatal;
        case Done(None) => return Done(None);
        case Done(Some(live)) => if live.name == name { return Done(Some(live)); }
      }
    }
  }
}
