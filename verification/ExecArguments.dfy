/** The EXEC handler: the strings of the argument vector go into 8 places of 32 bytes each in the
    kernel, one after the other and without a check (src/kernel/syscalls.c,
    src/kernel/scheduler/scheduler.h). */
module ExecArguments {
  import opened Wrappers
  import opened Bytes
  import opened Mmu
  import opened Kernel
  import opened ExecImage

  /** The vector that a user pointer leads to; the null pointer leads to none. */
  function ArgvOf(table: Table, slot: nat, image: Section, argv: Word): Option<seq<Arg>> {
    if argv == 0 then Some([])
    else match OffsetOfPointer(table, slot, argv)
      case None => None
      case Some(at) => ArgvAt(table, slot, image, at)
  }

  // ---- the places of the arguments ----

  /** Every copy ends inside the places, its terminator included. */
  predicate ArgsFit(args: seq<Arg>) { forall i :: 0 <= i < |args| ==> ARG_SLOT * i + |args[i]| < ARG_BYTES }

  predicate NoZeros(args: seq<Arg>) { forall i, c :: 0 <= i < |args| && 0 <= c < |args[i]| ==> args[i][c] != 0 }

  /** The places after n copies. */
  function Copied(b: seq<Byte>, args: seq<Arg>, n: nat): (r: seq<Byte>)
    requires |b| == ARG_BYTES && n <= |args| && ArgsFit(args)
    ensures |r| == ARG_BYTES
  {
    if n == 0 then b else Spliced(Copied(b, args, n - 1), ARG_SLOT * (n - 1), args[n - 1] + [0])
  }

  /** What the loader finds in place i: a string of 32 characters or more runs on into what the next
      place holds. */
  function Seen(args: seq<Arg>, n: nat, i: nat): Arg
    requires i < n <= |args|
    decreases n - i
  {
    if i + 1 == n || |args[i]| < ARG_SLOT then args[i] else args[i][..ARG_SLOT] + Seen(args, n, i + 1)
  }

  /** Later copies begin at their own places. */
  lemma {:induction false} CopiedBelow(b: seq<Byte>, args: seq<Arg>, i: nat, n: nat, x: nat)
    requires |b| == ARG_BYTES && i <= n <= |args| && ArgsFit(args) && x < ARG_SLOT * i && x < ARG_BYTES
    ensures Copied(b, args, n)[x] == Copied(b, args, i)[x]
    decreases n
  {
    if i < n { CopiedBelow(b, args, i, n - 1, x); }
  }

  lemma {:induction false} PrefixOfString(s: seq<Byte>, at: nat, p: Arg)
    requires at + |p| <= |s| && s[at..at + |p|] == p && forall c :: 0 <= c < |p| ==> p[c] != 0
    ensures StringAt(s, at) == match StringAt(s, at + |p|) case None => None case Some(rest) => Some(p + rest)
    decreases |p|
  {
    if p == [] {
      var rest := StringAt(s, at);
      if rest.Some? { assert [] + rest.value == rest.value; }
    } else {
      assert s[at] == s[at..at + |p|][0] == p[0];
      assert s[at + 1..at + 1 + |p[1..]|] == s[at..at + |p|][1..] == p[1..];
      PrefixOfString(s, at + 1, p[1..]);
      var rest := StringAt(s, at + |p|);
      if rest.Some? { assert p + rest.value == [p[0]] + (p[1..] + rest.value); }
    }
  }

  /** The string in place i once all are copied. */
  lemma {:induction false} PlaceHolds(b: seq<Byte>, args: seq<Arg>, n: nat, i: nat)
    requires |b| == ARG_BYTES && i < n <= |args| && ArgsFit(args) && NoZeros(args)
    ensures StringAt(Copied(b, args, n), ARG_SLOT * i) == Some(Seen(args, n, i))
    decreases n - i
  {
    var r, at, arg := Copied(b, args, n), ARG_SLOT * i, args[i];
    var own := Copied(b, args, i + 1);
    assert own[at..at + |arg| + 1] == arg + [0];
    if i + 1 == n {
      StringReadsBack(r, at, arg);
    } else {
      forall x | at <= x < at + ARG_SLOT ensures r[x] == own[x] { CopiedBelow(b, args, i + 1, n, x); }
      if |arg| < ARG_SLOT {
        assert r[at..at + |arg| + 1] == own[at..at + |arg| + 1];
        StringReadsBack(r, at, arg);
      } else {
        assert r[at..at + ARG_SLOT] == own[at..at + |arg| + 1][..ARG_SLOT] == arg[..ARG_SLOT];
        PrefixOfString(r, at, arg[..ARG_SLOT]);
        PlaceHolds(b, args, n, i + 1);
      }
    }
  }

  /** Strings of at most 31 characters reach the loader as they are; the last one may be longer. */
  lemma ShortSeen(b: seq<Byte>, args: seq<Arg>)
    requires |b| == ARG_BYTES && ArgsFit(args) && NoZeros(args)
    requires forall i :: 0 <= i < |args| - 1 ==> |args[i]| < ARG_SLOT
    ensures forall i :: 0 <= i < |args| ==> StringAt(Copied(b, args, |args|), ARG_SLOT * i) == Some(args[i])
  {
    forall i | 0 <= i < |args| ensures StringAt(Copied(b, args, |args|), ARG_SLOT * i) == Some(args[i]) {
      PlaceHolds(b, args, |args|, i);
    }
  }

  /** Two strings of which the first is too long for its place: the loader sees its first 32 characters
      followed by the second string. */
  lemma LongRunsOn(b: seq<Byte>, first: Arg, second: Arg)
    requires |b| == ARG_BYTES && ArgsFit([first, second]) && NoZeros([first, second]) && |first| >= ARG_SLOT
    ensures StringAt(Copied(b, [first, second], 2), 0) == Some(first[..ARG_SLOT] + second)
  {
    PlaceHolds(b, [first, second], 2, 0);
  }

  /** The strings of a section hold no zero. */
  lemma {:induction false} StringHasNoZero(s: seq<Byte>, at: nat)
    requires StringAt(s, at).Some?
    ensures forall c :: 0 <= c < |StringAt(s, at).value| ==> StringAt(s, at).value[c] != 0
    decreases |s| - at
  {
    if s[at] != 0 { StringHasNoZero(s, at + 1); }
  }

  // ---- the loop ----

  /** The loop of _syscall__EXEC: the strings are copied out of the section of the caller before it is
      cleared. It returns their number; Fatal is the first copy that runs past the places, where the
      model stops. */
  method CopyArgv(table: Table, slot: nat, image: array<Byte>, argv: Word, places: array<Byte>) returns (r: Outcome<nat>)
    requires image.Length == SECTION_SIZE && ArgvOf(table, slot, image[..], argv).Some?
    requires places.Length == ARG_BYTES && places != image
    modifies places
    ensures var args := ArgvOf(table, slot, old(image[..]), argv).value;
            && (r.Done? <==> ArgsFit(args))
            && (r.Done? ==> r.value == |args| && places[..] == Copied(old(places[..]), args, |args|))
  {
    if argv == 0 { return Done(0); }
    var at := OffsetOfPointer(table, slot, argv).value;
    ghost var img: Section, was := image[..], places[..];
    ghost var all := ArgvAt(table, slot, img, at).value;
    var n := 0;
    while true
      invariant image[..] == img && n <= |all| && ArgvAt(table, slot, img, at) == Some(all[n..])
      invariant ArgsFit(all[..n]) && places[..] == Copied(was, all[..n], n)
      decreases SECTION_SIZE - at
    {
      ArgvSteps(table, slot, img, at);
      var va := ReadPointer(image, at);
      if va == 0 {
        assert all[..n] == all;
        return Done(n);
      }
      var offset := OffsetOfPointer(table, slot, va).value;
      var arg := CopyString(image, offset);
      assert all[n..][0] == all[n] == arg;
      if ARG_SLOT * n + |arg| >= ARG_BYTES { return Fatal; }
      ghost var before := places[..];
      CopyInto(places, ARG_SLOT * n, arg + [0]);
      SplicedIs(before, places[..], ARG_SLOT * n, arg + [0]);
      CopiedPrefix(was, all[..n + 1], all[..n], n);
      assert all[n..][1..] == all[n + 1..];
      n, at := n + 1, at + 4;
    }
  }

  lemma {:induction false} CopiedPrefix(b: seq<Byte>, args: seq<Arg>, less: seq<Arg>, n: nat)
    requires |b| == ARG_BYTES && n <= |less| && less <= args && ArgsFit(args) && ArgsFit(less)
    ensures Copied(b, args, n) == Copied(b, less, n)
  {
    if n > 0 { CopiedPrefix(b, args, less, n - 1); }
  }

  method ReadPointer(image: array<Byte>, at: nat) returns (va: nat)
    requires image.Length == SECTION_SIZE && at + 4 <= SECTION_SIZE
    ensures va == WordOf(image[..][at..at + 4])
  {
    assert image[at..at + 4] == image[..][at..at + 4];
    va := WordOf(image[at..at + 4]);
  }

  /** What one pointer of a readable vector leads to. */
  lemma ArgvSteps(table: Table, slot: nat, image: Section, at: nat)
    requires ArgvAt(table, slot, image, at).Some?
    ensures at + 4 <= SECTION_SIZE
    ensures var va, all := WordOf(image[at..at + 4]), ArgvAt(table, slot, image, at).value;
            if va == 0 then all == []
            else
              && OffsetOfPointer(table, slot, va).Some?
              && var o := OffsetOfPointer(table, slot, va).value;
                 && StringAt(image, o).Some? && ArgvAt(table, slot, image, at + 4).Some?
                 && all == [StringAt(image, o).value] + ArgvAt(table, slot, image, at + 4).value
  {
  }

  /** _strcpy from the section. */
  method CopyString(image: array<Byte>, at: nat) returns (s: Arg)
    requires image.Length == SECTION_SIZE && StringAt(image[..], at).Some?
    ensures Some(s) == StringAt(image[..], at)
  {
    ghost var all := StringAt(image[..], at).value;
    s := [];
    var i := at;
    while image[i] != 0
      invariant at <= i < SECTION_SIZE && StringAt(image[..], i).Some?
      invariant all == s + StringAt(image[..], i).value
      decreases SECTION_SIZE - i
    {
      ghost var rest := StringAt(image[..], i).value;
      assert s + rest == (s + [image[i]]) + rest[1..];
      s := s + [image[i]];
      i := i + 1;
    }
    assert s + [] == s;
  }
}
