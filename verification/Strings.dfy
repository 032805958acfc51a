/** The comparison loops that lookups rely on (src/kernel/lib/str.c). */
module Strings {
  import opened Bytes

  /** A C string: the bytes before the first zero. */
  function CString(s: seq<Byte>): seq<Byte> {
    if s == [] || s[0] == 0 then [] else [s[0]] + CString(s[1..])
  }

  /** _memcmp: the difference of the first bytes that differ, or of the last ones. */
  method MemCmp(a: seq<Byte>, b: seq<Byte>, n: nat) returns (r: int)
    requires 0 < n <= |a| && n <= |b|
    ensures r == 0 <==> a[..n] == b[..n]
  {
    var index, p := 0, 0;
    while true
      invariant index == p < n && a[..p] == b[..p]
      decreases n - p
    {
      index := index + 1;
      if !(index < n && a[p] == b[p]) { break; }
      p := p + 1;
    }
    var last_a: int, last_b: int := a[p], b[p];
    r := last_a - last_b;
    assert r != 0 ==> a[..n][p] != b[..n][p];
    if r == 0 { assert p == n - 1 && a[..n] == a[..p] + [a[p]] && b[..n] == b[..p] + [b[p]]; }
  }

  /** The bytes before a zero are a prefix of the string. */
  lemma {:induction false} CStringSplits(s: seq<Byte>, n: nat)
    requires n <= |s| && forall i :: 0 <= i < n ==> s[i] != 0
    ensures CString(s) == s[..n] + CString(s[n..])
  {
    if n > 0 {
      CStringSplits(s[1..], n - 1);
      assert s[..n] == [s[0]] + s[1..][..n - 1] && s[1..][n - 1..] == s[n..];
    } else {
      assert s[0..] == s;
    }
  }

  /** _strcmp: the difference at the first place where the strings differ or the first one ends. */
  method StrCmp(a: seq<Byte>, b: seq<Byte>) returns (r: int)
    requires 0 in a && 0 in b
    ensures r == 0 <==> CString(a) == CString(b)
  {
    var i := 0;
    while a[i] != 0 && a[i] == b[i]
      invariant i < |a| && i < |b| && a[..i] == b[..i]
      invariant forall x :: 0 <= x < i ==> a[x] != 0
      decreases |a| - i
    {
      assert b[..i + 1] == b[..i] + [b[i]] && a[..i + 1] == a[..i] + [a[i]];
      TerminatedLater(a, i + 1);
      TerminatedLater(b, i + 1);
      i := i + 1;
    }
    var last_a: int, last_b: int := a[i], b[i];
    r := last_a - last_b;
    CStringSplits(a, i);
    CStringSplits(b, i);
    HeadsDecide(a[..i], a[i..], b[i..]);
  }

  /** A terminated string goes on behind bytes that are not zero. */
  lemma TerminatedLater(s: seq<Byte>, n: nat)
    requires 0 in s && n <= |s| && forall i :: 0 <= i < n ==> s[i] != 0
    ensures n < |s|
  {
    var z :| 0 <= z < |s| && s[z] == 0;
  }

  /** Behind a common prefix strings that differ at once, or of which the first ends, are equal iff
      their next bytes are. */
  lemma HeadsDecide(p: seq<Byte>, a: seq<Byte>, b: seq<Byte>)
    requires a != [] && b != [] && (a[0] == 0 || a[0] != b[0])
    ensures p + CString(a) == p + CString(b) <==> a[0] == b[0]
  {
    var ca, cb := CString(a), CString(b);
    assert (p + ca)[|p|..] == ca && (p + cb)[|p|..] == cb;
    assert if a[0] == 0 then ca == [] else ca[0] == a[0];
    assert if b[0] == 0 then cb == [] else cb[0] == b[0];
  }
}
