/** The overlapping copy behind table compaction, and division (src/arm_runtime/eabi_rt.c). */
module Runtime {
  /** What an overlapping copy must produce: the block at src as it was, placed at dst. */
  function Moved<T>(s: seq<T>, dst: nat, src: nat, n: nat): seq<T>
    requires dst + n <= |s| && src + n <= |s|
  {
    s[..dst] + s[src..src + n] + s[dst + n..]
  }

  method CopyForward<T>(a: array<T>, dst: nat, src: nat, n: nat)
    requires dst < src && src + n <= a.Length
    modifies a
    ensures a[..] == Moved(old(a[..]), dst, src, n)
  {
    for i := 0 to n
      invariant forall x :: 0 <= x < a.Length && !(dst <= x < dst + i) ==> a[x] == old(a[x])
      invariant forall x :: dst <= x < dst + i ==> a[x] == old(a[x - dst + src])
    {
      a[dst + i] := a[src + i];
    }
  }

  method CopyBackward<T>(a: array<T>, dst: nat, src: nat, n: nat)
    requires src <= dst && dst + n <= a.Length
    modifies a
    ensures a[..] == Moved(old(a[..]), dst, src, n)
  {
    for i := n downto 0
      invariant forall x :: 0 <= x < a.Length && !(dst + i <= x < dst + n) ==> a[x] == old(a[x])
      invariant forall x :: dst + i <= x < dst + n ==> a[x] == old(a[x - dst + src])
    {
      a[dst + i] := a[src + i];
    }
  }

  /** __aeabi_memmove: forward when the destination is below the source, backward otherwise;
      the block arrives intact whatever the overlap. */
  method MemMove<T>(a: array<T>, dst: nat, src: nat, n: nat)
    requires dst + n <= a.Length && src + n <= a.Length
    modifies a
    ensures a[..] == Moved(old(a[..]), dst, src, n)
  {
    if dst < src { CopyForward(a, dst, src, n); } else { CopyBackward(a, dst, src, n); }
  }

  /** __aeabi_uidiv, by repeated subtraction: 0 for a zero denominator. */
  method UnsignedDivide(numerator: nat, denominator: nat) returns (quotient: nat)
    ensures denominator == 0 ==> quotient == 0
    ensures denominator > 0 ==> quotient * denominator <= numerator < quotient * denominator + denominator
  {
    quotient := 0;
    if denominator == 0 { return; }
    var rest := numerator;
    ghost var taken := 0;
    while rest >= denominator
      invariant 0 <= rest && numerator == taken + rest && taken == quotient * denominator
    {
      assert (quotient + 1) * denominator == quotient * denominator + denominator;
      rest, taken := rest - denominator, taken + denominator;
      quotient := quotient + 1;
    }
  }
}
