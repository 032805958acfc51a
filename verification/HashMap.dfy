/** The open-addressing hash map: linear probing from the home slot to the end of the table,
    without wrapping around (src/kernel/lib/hashmap.c). */
module HashMap {
  import opened Bytes
  import opened Strings
  import opened Wrappers

  const MAX_KEY: nat := 16

  type KeyBuffer = s: seq<Byte> | |s| == MAX_KEY witness seq(MAX_KEY, i => 0)
  /** Keys have at least one byte. */
  type Key = s: seq<Byte> | 0 < |s| witness [0]

  /** A slot. The value 0 is the null pointer: the slot is free. */
  datatype Pair = Pair(key: KeyBuffer, keySize: nat, keyHash: nat, value: nat)

  predicate Used(p: Pair) { p.value != 0 }

  predicate WellSized(p: Pair) { 0 < p.keySize <= MAX_KEY }

  function KeyOf(p: Pair): Key
    requires WellSized(p)
  {
    p.key[..p.keySize]
  }

  predicate Holds(p: Pair, key: Key) { Used(p) && WellSized(p) && KeyOf(p) == key }

  function Home(hash: Key -> nat, capacity: nat, key: Key): nat
    requires capacity > 0
  {
    hash(key) % capacity
  }

  /** A used slot: its hash is right, its home is not after it, and no slot in between is free. */
  predicate SlotOk(hash: Key -> nat, pairs: seq<Pair>, i: nat)
    requires i < |pairs|
  {
    Used(pairs[i]) ==>
      && WellSized(pairs[i])
      && pairs[i].keyHash == hash(KeyOf(pairs[i]))
      && Home(hash, |pairs|, KeyOf(pairs[i])) <= i
      && forall j :: Home(hash, |pairs|, KeyOf(pairs[i])) <= j < i ==> Used(pairs[j])
  }

  /** The table stands for a partial map: each used slot for one key, each key in one slot. */
  ghost predicate Stands(hash: Key -> nat, pairs: seq<Pair>, contents: map<Key, nat>) {
    && 0 < |pairs|
    && (forall i :: 0 <= i < |pairs| ==> SlotOk(hash, pairs, i))
    && (forall i, key :: 0 <= i < |pairs| && Holds(pairs[i], key) ==> key in contents && contents[key] == pairs[i].value)
    && (forall key :: key in contents ==> exists i :: 0 <= i < |pairs| && Holds(pairs[i], key))
    && (forall i, j, key :: 0 <= i < |pairs| && 0 <= j < |pairs| && Holds(pairs[i], key) && Holds(pairs[j], key) ==> i == j)
  }

  /** Whether a probe for the key stops at a slot. */
  predicate Stops(p: Pair, key: Key) { !Used(p) || Holds(p, key) }

  /** The slot where the probe for a key stops, the capacity when it runs off the end. */
  predicate ProbeEnds(hash: Key -> nat, pairs: seq<Pair>, key: Key, at: nat)
    requires 0 < |pairs|
  {
    && Home(hash, |pairs|, key) <= at <= |pairs|
    && (forall j :: Home(hash, |pairs|, key) <= j < at ==> !Stops(pairs[j], key))
    && (at < |pairs| ==> Stops(pairs[at], key))
  }

  /** Where the probe stops decides membership. */
  lemma ProbeDecides(hash: Key -> nat, pairs: seq<Pair>, contents: map<Key, nat>, key: Key, at: nat)
    requires Stands(hash, pairs, contents) && ProbeEnds(hash, pairs, key, at)
    ensures key in contents <==> at < |pairs| && Used(pairs[at])
    ensures key in contents ==> contents[key] == pairs[at].value
  {
    if key in contents {
      var i :| 0 <= i < |pairs| && Holds(pairs[i], key);
      assert SlotOk(hash, pairs, i);
      assert forall j :: Home(hash, |pairs|, key) <= j < i ==> Used(pairs[j]);
    }
  }

  /** Writing the key where its probe stopped. */
  lemma SetKeeps(hash: Key -> nat, pairs: seq<Pair>, contents: map<Key, nat>, key: Key, at: nat, p: Pair)
    requires Stands(hash, pairs, contents) && ProbeEnds(hash, pairs, key, at) && at < |pairs|
    requires Holds(p, key) && p.keyHash == hash(key)
    ensures Stands(hash, pairs[at := p], contents[key := p.value])
  {
    var after, now := pairs[at := p], contents[key := p.value];
    forall i | 0 <= i < |after| ensures SlotOk(hash, after, i) {
      assert SlotOk(hash, pairs, i);
    }
    ProbeDecides(hash, pairs, contents, key, at);
    forall k | k in now ensures exists i :: 0 <= i < |after| && Holds(after[i], k) {
      if k == key {
        assert Holds(after[at], k);
      } else {
        var i :| 0 <= i < |pairs| && Holds(pairs[i], k);
        assert Holds(after[i], k);
      }
    }
  }

  class HashMap {
    const pairs: array<Pair>
    const hash: Key -> nat
    ghost var contents: map<Key, nat>

    ghost predicate Valid()
      reads this, pairs
    {
      Stands(hash, pairs[..], contents)
    }

    /** An empty table. */
    constructor (hash: Key -> nat, capacity: nat)
      requires capacity > 0
      ensures Valid() && contents == map[] && fresh(pairs) && pairs.Length == capacity && this.hash == hash
    {
      this.hash, contents := hash, map[];
      pairs := new Pair[capacity](_ => Pair(seq(MAX_KEY, i => 0), 0, 0, 0));
    }

    /** The probing loop of get and set. */
    method Probe(key: Key) returns (at: nat)
      requires Valid()
      ensures ProbeEnds(hash, pairs[..], key, at)
    {
      var h := hash(key);
      at := h % pairs.Length;
      while at < pairs.Length
        invariant Home(hash, pairs.Length, key) <= at <= pairs.Length
        invariant forall j :: Home(hash, pairs.Length, key) <= j < at ==> !Stops(pairs[j], key)
      {
        var p := pairs[at];
        assert SlotOk(hash, pairs[..], at);
        if !Used(p) { break; }
        if p.keyHash == h && p.keySize == |key| {
          var order := MemCmp(p.key, key, |key|);
          assert key[..|key|] == key;
          if order == 0 { break; }
        }
        at := at + 1;
      }
    }

    /** hash_map_get: the value of the key, 0 when there is none. */
    method Get(key: Key) returns (value: nat)
      requires Valid()
      ensures value == if key in contents then contents[key] else 0
    {
      var at := Probe(key);
      ProbeDecides(hash, pairs[..], contents, key, at);
      value := if at < pairs.Length then pairs[at].value else 0;
    }

    /** hash_map_set: it halts on a null value or a key of more than 16 bytes; otherwise it stores
        the value, or fails and changes nothing exactly when every slot from the home slot to the
        end holds another key. */
    method Set(key: Key, value: nat) returns (r: Outcome<int>)
      requires Valid()
      modifies this, pairs
      ensures r.Fatal? <==> value == 0 || |key| > MAX_KEY
      ensures Valid()
      ensures r == Done(-1) || r.Fatal? ==> contents == old(contents) && pairs[..] == old(pairs[..])
      ensures r.Done? && r != Done(-1) ==> r == Done(0) && contents == old(contents)[key := value]
      ensures r.Done? ==> (r == Done(-1) <==>
        forall i :: Home(hash, pairs.Length, key) <= i < pairs.Length ==> old(Used(pairs[i]) && !Holds(pairs[i], key)))
    {
      if value == 0 || |key| > MAX_KEY { return Fatal; }
      var at := Probe(key);
      if at == pairs.Length { return Done(-1); }
      var p := pairs[at];
      var stored: KeyBuffer := key + p.key[|key|..];
      var q := Pair(stored, |key|, hash(key), value);
      assert KeyOf(q) == key;
      SetKeeps(hash, pairs[..], contents, key, at, q);
      pairs[at] := q;
      contents := contents[key := value];
      assert pairs[..] == old(pairs[..])[at := q];
      return Done(0);
    }
  }

  // ---- what a table that stands for a map tells about it ----

  /** The tables that stand for a map determine it. */
  lemma MapDetermined(hash: Key -> nat, pairs: seq<Pair>, a: map<Key, nat>, b: map<Key, nat>)
    requires Stands(hash, pairs, a) && Stands(hash, pairs, b)
    ensures a == b
  {
    forall key | key in a ensures key in b && a[key] == b[key] {
      var i :| 0 <= i < |pairs| && Holds(pairs[i], key);
    }
    forall key | key in b ensures key in a {
      var i :| 0 <= i < |pairs| && Holds(pairs[i], key);
    }
  }
}
