/** Bytes, and the copy loops over them (src/arm_runtime/eabi_rt.c). */
module Bytes {
  type Byte = x: int | 0 <= x < 256

  /** The little-endian word of four bytes. */
  function WordOf(s: seq<Byte>): nat
    requires |s| == 4
  {
    var a: int, b: int, c: int, d: int := s[0], s[1], s[2], s[3];
    a + 0x100 * b + 0x1_0000 * c + 0x100_0000 * d
  }

  /** The four little-endian bytes of a word. */
  function WordBytes(w: nat): seq<Byte>
    requires w < 0x1_0000_0000
  {
    [w % 0x100, w / 0x100 % 0x100, w / 0x1_0000 % 0x100, w / 0x100_0000]
  }

  type Half = x: int | 0 <= x < 0x1_0000

  function HalfBytes(h: Half): seq<Byte> { [h % 0x100, h / 0x100] }

  lemma WordReadsBack(w: nat)
    requires w < 0x1_0000_0000
    ensures WordOf(WordBytes(w)) == w
  {
    assert w / 0x1_0000 == w / 0x100 / 0x100;
    assert w / 0x100_0000 == w / 0x1_0000 / 0x100;
  }

  type U32 = x: int | 0 <= x < 0x1_0000_0000

  /** Words one after the other. */
  function WordList(words: seq<U32>): (r: seq<Byte>)
    ensures |r| == 4 * |words|
  {
    if words == [] then [] else WordBytes(words[0]) + WordList(words[1..])
  }

  lemma {:induction false} WordListAt(words: seq<U32>, i: nat)
    requires i < |words|
    ensures WordOf(WordList(words)[4 * i..4 * i + 4]) == words[i]
  {
    var rest := WordList(words[1..]);
    if i == 0 {
      WordReadsBack(words[0]);
      assert WordList(words)[0..4] == WordBytes(words[0]);
    } else {
      WordListAt(words[1..], i - 1);
      assert WordList(words)[4 * i..4 * i + 4] == rest[4 * (i - 1)..4 * (i - 1) + 4];
    }
  }

  /** A byte sequence with some bytes replaced. */
  function Spliced(s: seq<Byte>, at: nat, bytes: seq<Byte>): seq<Byte>
    requires at + |bytes| <= |s|
  {
    s[..at] + bytes + s[at + |bytes|..]
  }

  /** memcpy of bytes into a buffer. */
  method CopyInto(dst: array<Byte>, at: nat, bytes: seq<Byte>)
    requires at + |bytes| <= dst.Length
    modifies dst
    ensures dst[..at] == old(dst[..at]) && dst[at + |bytes|..] == old(dst[at + |bytes|..])
    ensures dst[at..at + |bytes|] == bytes
  {
    for i := 0 to |bytes|
      invariant dst[..at] == old(dst[..at])
      invariant dst[at..at + i] == bytes[..i]
      invariant dst[at + i..] == old(dst[at + i..])
    {
      dst[at + i] := bytes[i];
    }
  }

  /** memset to zero. */
  method Zero(dst: array<Byte>, at: nat, n: nat)
    requires at + n <= dst.Length
    modifies dst
    ensures dst[..at] == old(dst[..at]) && dst[at + n..] == old(dst[at + n..])
    ensures dst[at..at + n] == seq(n, i => 0)
  {
    for i := 0 to n
      invariant dst[..at] == old(dst[..at]) && dst[at + i..] == old(dst[at + i..])
      invariant forall x :: at <= x < at + i ==> dst[x] == 0
    {
      dst[at + i] := 0;
    }
  }
}
