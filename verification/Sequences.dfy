/** Sequences laid one after the other, as tables and files on a disk are. */
module Sequences {
  /** One thing after the other. */
  function Flat<T>(parts: seq<seq<T>>): seq<T> {
    if parts == [] then [] else parts[0] + Flat(parts[1..])
  }

  /** Parts of one size. */
  predicate Even<T>(parts: seq<seq<T>>, d: nat) { forall i :: 0 <= i < |parts| ==> |parts[i]| == d }

  lemma {:induction false} FlatSize<T>(parts: seq<seq<T>>, d: nat)
    requires Even(parts, d)
    ensures |Flat(parts)| == |parts| * d
  {
    if parts != [] {
      FlatSize(parts[1..], d);
      assert |parts| * d == (|parts| - 1) * d + d;
    }
  }

  lemma {:induction false} FlatAt<T>(parts: seq<seq<T>>, d: nat, q: nat, r: nat)
    requires Even(parts, d) && q < |parts| && r < d
    ensures 0 <= q * d + r < |Flat(parts)| && Flat(parts)[q * d + r] == parts[q][r]
  {
    FlatSize(parts, d);
    Grows(q + 1, |parts|, d);
    assert (q + 1) * d == q * d + d;
    if q > 0 {
      FlatAt(parts[1..], d, q - 1, r);
      assert q * d == (q - 1) * d + d;
    }
  }

  lemma {:induction false} FlatSlice<T>(parts: seq<seq<T>>, d: nat, q: nat, at: nat, a: nat, n: nat)
    requires Even(parts, d) && q < |parts| && at == q * d && a + n <= d
    ensures at + a + n <= |Flat(parts)| && Flat(parts)[at + a..at + a + n] == parts[q][a..a + n]
  {
    var rest := Flat(parts[1..]);
    assert Flat(parts) == parts[0] + rest;
    if q == 0 {
      Before(parts[0], rest, a, a + n);
    } else {
      assert at - d == (q - 1) * d;
      FlatSlice(parts[1..], d, q - 1, at - d, a, n);
      Behind(parts[0], rest, at - d + a, at - d + a + n);
    }
  }

  lemma {:induction false} FlatInjective<T>(a: seq<seq<T>>, b: seq<seq<T>>, d: nat)
    requires Even(a, d) && Even(b, d) && d > 0 && Flat(a) == Flat(b)
    ensures a == b
  {
    FlatSize(a, d);
    FlatSize(b, d);
    if |a| < |b| { Grows(|a| + 1, |b|, d); }
    if |b| < |a| { Grows(|b| + 1, |a|, d); }
    if a != [] {
      assert Flat(a)[..d] == a[0] && Flat(b)[..d] == b[0];
      assert Flat(a)[d..] == Flat(a[1..]) && Flat(b)[d..] == Flat(b[1..]);
      FlatInjective(a[1..], b[1..], d);
      assert a == [a[0]] + a[1..] && b == [b[0]] + b[1..];
    }
  }

  lemma {:induction false} Grows(a: nat, b: nat, d: nat)
    requires a <= b
    ensures a * d <= b * d
  {
    if a < b {
      assert b * d == (b - 1) * d + d;
      Grows(a, b - 1, d);
    }
  }

  lemma Inside<T>(s: seq<T>, a: nat, b: nat, x: nat, y: nat)
    requires a <= b <= |s| && x <= y <= b - a
    ensures s[a..b][x..y] == s[a + x..a + y]
  {
    var u, v := s[a..b][x..y], s[a + x..a + y];
    forall i | 0 <= i < y - x ensures u[i] == v[i] { assert u[i] == s[a..b][x + i] == s[a + x + i]; }
    assert u == v;
  }

  lemma Before<T>(a: seq<T>, b: seq<T>, x: nat, y: nat)
    requires x <= y <= |a|
    ensures (a + b)[x..y] == a[x..y]
  {
    var s, t := (a + b)[x..y], a[x..y];
    forall i | 0 <= i < y - x ensures s[i] == t[i] { assert s[i] == (a + b)[x + i] == a[x + i]; }
    assert s == t;
  }

  lemma Behind<T>(a: seq<T>, b: seq<T>, x: nat, y: nat)
    requires x <= y <= |b|
    ensures (a + b)[|a| + x..|a| + y] == b[x..y]
  {
    var s, t := (a + b)[|a| + x..|a| + y], b[x..y];
    forall i | 0 <= i < y - x ensures s[i] == t[i] { assert s[i] == (a + b)[|a| + x + i] == b[x + i]; }
    assert s == t;
  }
}
