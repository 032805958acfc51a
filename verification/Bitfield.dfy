/** The bit arrays behind the section allocator, the translation table allocator
    and the per-process descriptor table (src/kernel/memory/bitfield.c). */
module Bitfield {
  /** Bit `i` of a byte, least significant first. */
  predicate BitSet(b: bv8, i: nat)
    requires i < 8
  {
    b & ((1 as bv8) << i) != 0
  }

  /** The flat sequence of bits that an array of bytes stands for. */
  function Bits(bytes: seq<bv8>): (r: seq<bool>)
    ensures |r| == 8 * |bytes|
  {
    seq(8 * |bytes|, i requires 0 <= i < 8 * |bytes| => BitSet(bytes[i / 8], i % 8))
  }

  /** The first clear bit at or after `from`, or -1. */
  function ClearFrom(bits: seq<bool>, from: nat): (r: int)
    requires from <= |bits|
    ensures r == -1 || from <= r < |bits|
    ensures r >= 0 ==> !bits[r] && forall j :: from <= j < r ==> bits[j]
    ensures r == -1 ==> forall j :: from <= j < |bits| ==> bits[j]
    decreases |bits| - from
  {
    if from == |bits| then -1
    else if !bits[from] then from
    else ClearFrom(bits, from + 1)
  }

  function FirstClear(bits: seq<bool>): (r: int)
    ensures -1 <= r < |bits|
    ensures r >= 0 ==> !bits[r] && forall j :: 0 <= j < r ==> bits[j]
    ensures r == -1 ==> forall j :: 0 <= j < |bits| ==> bits[j]
  {
    ClearFrom(bits, 0)
  }

  lemma FirstClearUnique(bits: seq<bool>, r: nat)
    requires r < |bits| && !bits[r] && forall j :: 0 <= j < r ==> bits[j]
    ensures FirstClear(bits) == r
  {
    assert !bits[r];
  }

  lemma SetOneBit(b: bv8, k: nat, j: nat)
    requires k < 8 && j < 8
    ensures BitSet(b | ((1 as bv8) << k), j) == (j == k || BitSet(b, j))
  {
  }

  lemma ClearOneBit(b: bv8, k: nat, j: nat)
    requires k < 8 && j < 8
    ensures BitSet(b & !((1 as bv8) << k), j) == (j != k && BitSet(b, j))
  {
  }

  lemma FullByte(j: nat)
    requires j < 8
    ensures BitSet(0xFF, j)
  {
  }

  /** A byte other than 0xFF has a clear bit, so the inner loop of the search always returns. */
  lemma NotFull(b: bv8)
    requires forall j :: 0 <= j < 8 ==> BitSet(b, j)
    ensures b == 0xFF
  {
    assert BitSet(b, 0) && BitSet(b, 1) && BitSet(b, 2) && BitSet(b, 3);
    assert BitSet(b, 4) && BitSet(b, 5) && BitSet(b, 6) && BitSet(b, 7);
  }

  /** Replacing one byte changes exactly the bits of that byte. */
  lemma {:induction false} BitsUpdate(bytes: seq<bv8>, i: nat, k: nat, v: bv8, value: bool)
    requires i < |bytes| && k < 8
    requires forall j :: 0 <= j < 8 ==> BitSet(v, j) == (if j == k then value else BitSet(bytes[i], j))
    ensures Bits(bytes[i := v]) == Bits(bytes)[8 * i + k := value]
  {
    var l, r := Bits(bytes[i := v]), Bits(bytes)[8 * i + k := value];
    forall x | 0 <= x < 8 * |bytes| ensures l[x] == r[x] {
      if x / 8 == i { assert x == 8 * i + x % 8; }
    }
  }

  /** Taking bit `k` of byte `i` is right when every earlier bit is set. */
  lemma AcquireAt(bytes: seq<bv8>, i: nat, k: nat)
    requires i < |bytes| && k < 8 && !BitSet(bytes[i], k)
    requires forall x :: 0 <= x < 8 * i ==> Bits(bytes)[x]
    requires forall j :: 0 <= j < k ==> BitSet(bytes[i], j)
    ensures FirstClear(Bits(bytes)) == 8 * i + k
    ensures Bits(bytes[i := bytes[i] | ((1 as bv8) << k)]) == Bits(bytes)[8 * i + k := true]
  {
    var v := bytes[i] | ((1 as bv8) << k);
    forall j | 0 <= j < 8 ensures BitSet(v, j) == (if j == k then true else BitSet(bytes[i], j)) {
      SetOneBit(bytes[i], k, j);
    }
    BitsUpdate(bytes, i, k, v, true);
    forall x | 0 <= x < 8 * i + k ensures Bits(bytes)[x] {
      if x >= 8 * i { assert x / 8 == i && BitSet(bytes[i], x % 8); }
    }
    FirstClearUnique(Bits(bytes), 8 * i + k);
  }

  /** The inner loop of the search: the first clear bit of a byte, 8 when there is none. */
  method ScanByte(b: bv8) returns (k: nat)
    ensures k <= 8 && forall j :: 0 <= j < k ==> BitSet(b, j)
    ensures k < 8 ==> !BitSet(b, k)
    ensures k == 8 <==> b == 0xFF
  {
    k := 0;
    while k < 8
      invariant 0 <= k <= 8
      invariant forall j :: 0 <= j < k ==> BitSet(b, j)
    {
      if b & ((1 as bv8) << k) == 0 {
        FullByte(k);
        return;
      }
      k := k + 1;
    }
    NotFull(b);
  }

  /** bitfield_acquire_first: take the first clear bit, or report -1 and change nothing. */
  method AcquireFirst(bytes: array<bv8>) returns (r: int)
    modifies bytes
    ensures r == FirstClear(Bits(old(bytes[..])))
    ensures r == -1 ==> bytes[..] == old(bytes[..])
    ensures r >= 0 ==> Bits(bytes[..]) == Bits(old(bytes[..]))[r := true]
  {
    ghost var was := bytes[..];
    for i := 0 to bytes.Length
      invariant bytes[..] == was
      invariant forall x :: 0 <= x < 8 * i ==> Bits(was)[x]
    {
      var k := ScanByte(bytes[i]);
      if k < 8 {
        AcquireAt(was, i, k);
        bytes[i] := bytes[i] | ((1 as bv8) << k);
        assert bytes[..] == was[i := was[i] | ((1 as bv8) << k)];
        return k + 8 * i;
      }
      forall x | 8 * i <= x < 8 * (i + 1) ensures Bits(was)[x] {
        assert x / 8 == i && BitSet(was[i], x % 8);
      }
    }
    return -1;
  }

  /** bitfield_clear for an index inside the field. */
  method Clear(bytes: array<bv8>, bit: nat)
    requires bit < 8 * bytes.Length
    modifies bytes
    ensures Bits(bytes[..]) == Bits(old(bytes[..]))[bit := false]
  {
    var i, k := bit / 8, bit % 8;
    var b := bytes[i];
    bytes[i] := b & !((1 as bv8) << k);
    forall j | 0 <= j < 8 ensures BitSet(bytes[i], j) == (if j == k then false else BitSet(b, j)) {
      ClearOneBit(b, k, j);
    }
    assert bytes[..] == old(bytes[..])[i := bytes[i]];
    BitsUpdate(old(bytes[..]), i, k, bytes[i], false);
  }

  /** bitfield_bit for an index inside the field. */
  method Test(bytes: array<bv8>, bit: nat) returns (r: bool)
    requires bit < 8 * bytes.Length
    ensures r == Bits(bytes[..])[bit]
  {
    r := bytes[bit / 8] & ((1 as bv8) << (bit % 8)) != 0;
  }
}
