/** The serial boot protocol with the loop around serial_load: after a failure the loader waits for the
    next INIT (src/serial_loader/loader.c, tools/serial_boot.py). Reads of the handshake may time out at
    any moment. */
module SerialRetry {
  import opened Wrappers
  import opened Bytes
  import opened SerialBoot
  import opened SerialTimeouts

  // ---- the loader ----

  /** loader_main: a session that returns 0 is followed by the next one. */
  function Again(d: Device): Device { if d.Returned? && d.size == 0 then Waiting else d }

  /** What a byte makes of the loader and of all that it has sent. */
  function Next(st: (Device, seq<Byte>), b: Byte): (Device, seq<Byte>) {
    if st.0.Returned? then st
    else
      var (d, out) := Receive(st.0, KERNEL_MAX_SIZE, b);
      (Again(d), st.1 + out)
  }

  function Go(st: (Device, seq<Byte>), input: seq<Byte>): (Device, seq<Byte>)
    decreases |input|
  {
    if input == [] then st else Go(Next(st, input[0]), input[1..])
  }

  /** The loader after some bytes. */
  function Fed(input: seq<Byte>): (Device, seq<Byte>) { Go((Waiting, []), input) }

  lemma {:induction false} GoThen(st: (Device, seq<Byte>), a: seq<Byte>, b: seq<Byte>)
    ensures Go(st, a + b) == Go(Go(st, a), b)
    decreases |a|
  {
    if a == [] {
      assert a + b == b;
    } else {
      assert (a + b)[0] == a[0] && (a + b)[1..] == a[1..] + b;
      GoThen(Next(st, a[0]), a[1..], b);
    }
  }

  lemma GoByte(st: (Device, seq<Byte>), a: seq<Byte>, b: Byte)
    ensures Go(st, a + [b]) == Next(Go(st, a), b)
  {
    GoThen(st, a, [b]);
    assert [b][1..] == [];
  }

  lemma {:induction false} GoGrows(st: (Device, seq<Byte>), a: seq<Byte>)
    ensures st.1 <= Go(st, a).1
    ensures st.0.Returned? ==> Go(st, a) == st
    decreases |a|
  {
    if a != [] { GoGrows(Next(st, a[0]), a[1..]); }
  }

  /** More input, more output, and a loader that has started the kernel stays as it is. */
  lemma FedGrows(a: seq<Byte>, b: seq<Byte>)
    requires a <= b
    ensures Fed(a).1 <= Fed(b).1
    ensures Fed(a).0.Returned? ==> Fed(b) == Fed(a)
  {
    assert b == a + b[|a|..];
    GoThen((Waiting, []), a, b[|a|..]);
    GoGrows(Fed(a), b[|a|..]);
  }

  // ---- both sides ----

  /** The state of the two sides with all that the host has written, and how much of it the loader has
      taken and how much of what the loader has sent the host has heard. */
  datatype Link = Link(host: Host, device: Device, toDevice: seq<Byte>, toHost: seq<Byte>,
                       wrote: seq<Byte>, taken: nat, heard: nat)

  function Begin(): Link { Link(Handshake, Waiting, [], [], [], 0, 0) }

  predicate Can(s: Link, a: Action) {
    match a
    case DeviceTakes => s.toDevice != [] && !s.device.Returned?
    case HostReads => s.toHost != [] && Reading(s.host)
    case HostTimesOut => Reading(s.host)
  }

  function Do(s: Link, a: Action, image: seq<Byte>): Link
    requires Can(s, a) && |image| < 0x1_0000_0000
  {
    match a
    case DeviceTakes =>
      var (d, out) := Next((s.device, []), s.toDevice[0]);
      s.(device := d, toDevice := s.toDevice[1..], toHost := s.toHost + out, taken := s.taken + 1)
    case HostReads =>
      var (h, out) := Answer(s.host, image, Some(s.toHost[0]));
      s.(host := h, toHost := s.toHost[1..], toDevice := s.toDevice + out, wrote := s.wrote + out, heard := s.heard + 1)
    case HostTimesOut =>
      var (h, out) := Answer(s.host, image, None);
      s.(host := h, toDevice := s.toDevice + out, wrote := s.wrote + out)
  }

  function DoAll(s: Link, actions: seq<Action>, image: seq<Byte>): Option<Link>
    requires |image| < 0x1_0000_0000
    decreases |actions|
  {
    if actions == [] then Some(s)
    else if Can(s, actions[0]) then DoAll(Do(s, actions[0], image), actions[1..], image)
    else None
  }

  lemma {:induction false} DoThen(s: Link, a: seq<Action>, b: seq<Action>, image: seq<Byte>)
    requires |image| < 0x1_0000_0000 && DoAll(s, a, image).Some?
    ensures DoAll(s, a + b, image) == DoAll(DoAll(s, a, image).value, b, image)
    decreases |a|
  {
    if a == [] {
      assert a + b == b;
    } else {
      assert (a + b)[0] == a[0] && (a + b)[1..] == a[1..] + b;
      DoThen(Do(s, a[0], image), a[1..], b, image);
    }
  }

  /** The loader starts the kernel without holding the image. */
  predicate WrongKernel(d: Device, image: seq<Byte>) {
    d.Returned? && d.size != 0 && !(d.size == |image| && d.buffer == image)
  }

  predicate BootsWrong(actions: seq<Action>, image: seq<Byte>)
    requires |image| < 0x1_0000_0000
  {
    var r := DoAll(Begin(), actions, image);
    r.Some? && WrongKernel(r.value.device, image)
  }

  // ---- what a run can be ----

  /** Both lines hold what one side has written and the other has not taken. */
  predicate Joint(s: Link) {
    && s.taken <= |s.wrote| && s.toDevice == s.wrote[s.taken..]
    && s.device == Fed(s.wrote[..s.taken]).0
    && s.heard <= |Fed(s.wrote[..s.taken]).1| && s.toHost == Fed(s.wrote[..s.taken]).1[s.heard..]
  }

  /** What the host has written after k INITs and m bytes of the image. */
  function Sent(k: nat, image: seq<Byte>, m: nat): seq<Byte>
    requires |image| < 0x1_0000_0000 && m <= |image|
  {
    Inits(k) + WordBytes(|image|) + image[..m]
  }

  /** By then the loader has made the host believe that it echoes: it has sent INIT_ACK and those m bytes. */
  predicate Led(k: nat, image: seq<Byte>, m: nat)
    requires |image| < 0x1_0000_0000 && m <= |image|
  {
    [INIT_ACK] + image[..m] <= Fed(Sent(k, image, m)).1
  }

  predicate LedUpTo(k: nat, image: seq<Byte>, m: nat)
    requires |image| < 0x1_0000_0000 && m <= |image|
  {
    forall j :: 0 <= j < m ==> Led(k, image, j)
  }

  /** The host has also been sent the end signal. */
  predicate LedToEnd(k: nat, image: seq<Byte>)
    requires |image| < 0x1_0000_0000
  {
    [INIT_ACK] + image + [END] <= Fed(Sent(k, image, |image|)).1
  }

  function Ack(h: Host): seq<Byte> { if h.Success? then [END_ACK] else [] }

  /** The host has heard this. */
  predicate Heard(s: Link, said: seq<Byte>) {
    s.taken <= |s.wrote| && s.heard == |said| && said <= Fed(s.wrote[..s.taken]).1
  }

  /** The host after the handshake. */
  predicate Hosted(s: Link, k: nat, image: seq<Byte>, m: nat)
    requires |image| < 0x1_0000_0000 && m <= |image|
  {
    && !s.host.Handshake? && k > 0 && (image != [] ==> m > 0)
    && s.wrote == Sent(k, image, m) + Ack(s.host) && LedUpTo(k, image, m)
    && (s.host.Awaiting? ==> m == s.host.i + 1 && Heard(s, [INIT_ACK] + image[..s.host.i]))
    && (s.host.Final? ==> m == |image| && Led(k, image, m) && Heard(s, [INIT_ACK] + image))
    && (s.host.Success? ==> m == |image| && LedToEnd(k, image))
  }

  predicate Reached(s: Link, k: nat, image: seq<Byte>, m: nat)
    requires |image| < 0x1_0000_0000
  {
    && Joint(s)
    && if s.host.Handshake? then s.wrote == Inits(k) && s.heard == 0 else m <= |image| && Hosted(s, k, image, m)
  }

  // ---- every step keeps it ----

  lemma NextAdds(d: Device, out: seq<Byte>, b: Byte)
    requires !d.Returned?
    ensures Next((d, out), b) == (Next((d, []), b).0, out + Next((d, []), b).1)
  {
    assert [] + Receive(d, KERNEL_MAX_SIZE, b).1 == Receive(d, KERNEL_MAX_SIZE, b).1;
  }

  lemma TakeKeepsJoint(s: Link, image: seq<Byte>)
    requires |image| < 0x1_0000_0000 && Joint(s) && Can(s, DeviceTakes)
    ensures var t := Do(s, DeviceTakes, image);
            && Joint(t) && t.wrote == s.wrote && t.taken == s.taken + 1 <= |t.wrote|
            && Fed(s.wrote[..s.taken]).1 <= Fed(t.wrote[..t.taken]).1
  {
    var w, n := s.wrote, s.taken;
    Taken(w, n);
    assert w[..n] + [w[n]] == w[..n + 1];
    GoByte((Waiting, []), w[..n], w[n]);
    NextAdds(s.device, Fed(w[..n]).1, w[n]);
    Appended(Fed(w[..n]).1, s.heard, Next((s.device, []), w[n]).1);
    FedGrows(w[..n], w[..n + 1]);
  }

  lemma TakeKeeps(s: Link, k: nat, image: seq<Byte>, m: nat)
    requires |image| < 0x1_0000_0000 && Reached(s, k, image, m) && Can(s, DeviceTakes)
    ensures Reached(Do(s, DeviceTakes, image), k, image, m)
  {
    TakeKeepsJoint(s, image);
  }

  predicate AllAck(out: seq<Byte>) { forall i :: 0 <= i < |out| ==> out[i] == INIT_ACK }

  /** The loader on nothing but INITs: every five of them are a session with a size that is too large. */
  function OnInits(k: nat): Device { if k % 5 == 0 then Waiting else Sizing(Inits(k % 5 - 1)) }

  lemma InitStep(k: nat, out: seq<Byte>)
    ensures Next((OnInits(k), out), INIT) == (OnInits(k + 1), out + if k % 5 == 0 then [INIT_ACK] else [])
  {
    var r := k % 5;
    if r > 0 {
      assert (k + 1) % 5 == if r == 4 then 0 else r + 1;
      assert Inits(r - 1) + [INIT] == Inits(r);
      if r == 4 { FourInits(); }
    } else {
      assert (k + 1) % 5 == 1;
    }
  }

  lemma FourInits()
    ensures |Inits(4)| == 4 && WordOf(Inits(4)) > KERNEL_MAX_SIZE
  {
  }

  lemma {:induction false} InitsFed(k: nat)
    ensures Fed(Inits(k)).0 == OnInits(k) && AllAck(Fed(Inits(k)).1) && |Fed(Inits(k)).1| == (k + 4) / 5
  {
    if k > 0 {
      InitsFed(k - 1);
      GoByte((Waiting, []), Inits(k - 1), INIT);
      InitStep(k - 1, Fed(Inits(k - 1)).1);
    }
  }

  /** The host reads a byte; what it writes goes behind what is there. */
  lemma ReadKeepsJoint(s: Link, image: seq<Byte>)
    requires |image| < 0x1_0000_0000 && Joint(s) && Can(s, HostReads)
    ensures var t, out := Do(s, HostReads, image), Fed(s.wrote[..s.taken]).1;
            && Joint(t) && t.taken == s.taken <= |s.wrote| <= |t.wrote| && t.wrote[..t.taken] == s.wrote[..s.taken]
            && s.heard < |out| && s.toHost[0] == out[s.heard]
  {
    var h := Answer(s.host, image, Some(s.toHost[0])).1;
    Taken(Fed(s.wrote[..s.taken]).1, s.heard);
    Appended(s.wrote, s.taken, h);
    assert (s.wrote + h)[..s.taken] == s.wrote[..s.taken];
  }

  lemma HandshakeEnds(s: Link, k: nat, image: seq<Byte>)
    requires |image| < 0x1_0000_0000 && Reached(s, k, image, 0) && s.host.Handshake? && Can(s, HostReads)
    ensures Reached(Do(s, HostReads, image), k, image, if image == [] then 0 else 1)
  {
    ReadKeepsJoint(s, image);
    var said := Fed(s.wrote[..s.taken]).1;
    FedGrows(s.wrote[..s.taken], Inits(k));
    InitsFed(k);
    assert said[0] == Fed(Inits(k)).1[0] == INIT_ACK;
    var m := if image == [] then 0 else 1;
    assert image[..m] == Send(image, 0).1;
    FedGrows(s.wrote[..s.taken], Sent(k, image, 0));
    assert Led(k, image, 0);
    var t := Do(s, HostReads, image);
    assert t.wrote == Sent(k, image, m);
    if image != [] { assert image[..0] == []; } else { assert image[..0] == image; }
  }

  /** The echo that the host waits for. */
  lemma EchoKeeps(s: Link, k: nat, image: seq<Byte>, m: nat)
    requires |image| < 0x1_0000_0000 && Reached(s, k, image, m) && s.host.Awaiting? && Can(s, HostReads)
    ensures Reached(Do(s, HostReads, image), k, image,
                    if m < |image| && s.toHost[0] == image[s.host.i] then m + 1 else m)
  {
    ReadKeepsJoint(s, image);
    var i, said := s.host.i, Fed(s.wrote[..s.taken]).1;
    if s.toHost[0] == image[i] {
      var heard := [INIT_ACK] + image[..i];
      assert said[..i + 1] == heard && said[i + 1] == image[i];
      assert image[..m] == image[..i] + [image[i]];
      assert [INIT_ACK] + image[..m] == heard + [image[i]] == said[..m + 1];
      assert s.wrote == Sent(k, image, m);
      FedGrows(s.wrote[..s.taken], s.wrote);
      assert Led(k, image, m);
      if m < |image| {
        assert image[..m + 1] == image[..m] + [image[m]];
        assert Do(s, HostReads, image).wrote == Sent(k, image, m + 1);
      } else {
        assert image[..m] == image;
      }
    }
  }

  lemma EndKeeps(s: Link, k: nat, image: seq<Byte>, m: nat)
    requires |image| < 0x1_0000_0000 && Reached(s, k, image, m) && s.host.Final? && Can(s, HostReads)
    ensures Reached(Do(s, HostReads, image), k, image, m)
  {
    ReadKeepsJoint(s, image);
    var said := Fed(s.wrote[..s.taken]).1;
    if s.toHost[0] == END {
      var heard := [INIT_ACK] + image;
      assert said[..|heard|] == heard && said[|heard|] == END;
      assert heard + [END] == said[..|heard| + 1];
      assert s.wrote == Sent(k, image, m);
      FedGrows(s.wrote[..s.taken], s.wrote);
    }
  }

  lemma TimeoutKeeps(s: Link, k: nat, image: seq<Byte>, m: nat)
    requires |image| < 0x1_0000_0000 && Reached(s, k, image, m) && Can(s, HostTimesOut)
    ensures Reached(Do(s, HostTimesOut, image), if s.host.Handshake? then k + 1 else k, image, m)
  {
    if s.host.Handshake? {
      var t := Do(s, HostTimesOut, image);
      Appended(s.wrote, s.taken, [INIT]);
      assert t.wrote[..s.taken] == s.wrote[..s.taken];
    } else {
      assert s.wrote + [] == s.wrote && s.toDevice + [] == s.toDevice;
    }
  }

  /** Every run: how many INITs and how much of the image the host has written. */
  lemma {:induction false} RunsReach(s: Link, k: nat, m: nat, actions: seq<Action>, image: seq<Byte>) returns (k1: nat, m1: nat)
    requires |image| < 0x1_0000_0000 && Reached(s, k, image, m) && DoAll(s, actions, image).Some?
    requires s.host.Handshake? ==> m == 0
    ensures Reached(DoAll(s, actions, image).value, k1, image, m1)
    decreases |actions|
  {
    k1, m1 := k, m;
    if actions != [] {
      match actions[0] {
        case DeviceTakes => TakeKeeps(s, k, image, m);
        case HostTimesOut =>
          TimeoutKeeps(s, k, image, m);
          if s.host.Handshake? { k1 := k + 1; }
        case HostReads =>
          match s.host {
            case Handshake =>
              HandshakeEnds(s, k, image);
              m1 := if image == [] then 0 else 1;
            case Awaiting(i) =>
              EchoKeeps(s, k, image, m);
              m1 := if m < |image| && s.toHost[0] == image[i] then m + 1 else m;
            case Final => EndKeeps(s, k, image, m);
          }
      }
      k1, m1 := RunsReach(Do(s, actions[0], image), k1, m1, actions[1..], image);
    }
  }

  // ---- the images that can be mistaken ----

  /** After k INITs and m bytes of the image, all of them sent because the answers of the loader looked
      like echoes, and perhaps the END_ACK, the loader starts something else. */
  predicate Mistaken(k: nat, image: seq<Byte>, m: nat, ack: bool)
    requires |image| < 0x1_0000_0000
  {
    && k > 0 && m <= |image| && (image != [] ==> m > 0) && LedUpTo(k, image, m) && (ack ==> m == |image| && LedToEnd(k, image))
    && WrongKernel(Fed(Sent(k, image, m) + if ack then [END_ACK] else []).0, image)
  }

  lemma WrongIsMistaken(s: Link, k: nat, image: seq<Byte>, m: nat)
    requires |image| < 0x1_0000_0000 && Reached(s, k, image, m) && WrongKernel(s.device, image)
    ensures m <= |image| && Mistaken(k, image, m, s.host.Success?)
  {
    FedGrows(s.wrote[..s.taken], s.wrote);
    if s.host.Handshake? { InitsFed(k); }
  }

  // ---- and a run that mistakes them ----

  /** The loader has taken all that it will take. */
  predicate Settled(s: Link) {
    s.device == Fed(s.wrote).0 && s.heard <= |Fed(s.wrote).1| && s.toHost == Fed(s.wrote).1[s.heard..]
  }

  lemma {:induction false} Drained(s: Link, k: nat, image: seq<Byte>, m: nat) returns (a: seq<Action>, t: Link)
    requires |image| < 0x1_0000_0000 && Reached(s, k, image, m)
    ensures DoAll(s, a, image) == Some(t) && Reached(t, k, image, m) && Settled(t)
    ensures t.host == s.host && t.wrote == s.wrote && t.heard == s.heard
    decreases |s.toDevice|
  {
    a, t := [], s;
    if Can(s, DeviceTakes) {
      TakeKeeps(s, k, image, m);
      TakeKeepsJoint(s, image);
      var b;
      b, t := Drained(Do(s, DeviceTakes, image), k, image, m);
      a := [DeviceTakes] + b;
      assert a[1..] == b;
    } else {
      FedGrows(s.wrote[..s.taken], s.wrote);
      if s.toDevice == [] { assert s.wrote[..s.taken] == s.wrote; }
    }
  }

  /** One more action behind a run. */
  lemma DoMore(s: Link, a: seq<Action>, t: Link, x: Action, image: seq<Byte>)
    requires |image| < 0x1_0000_0000 && DoAll(s, a, image) == Some(t) && Can(t, x)
    ensures DoAll(s, a + [x], image) == Some(Do(t, x, image))
  {
    DoThen(s, a, [x], image);
    assert [x][1..] == [];
  }

  /** The whole input of a mistaken image. */
  function Input(k: nat, image: seq<Byte>, m: nat, ack: bool): seq<Byte>
    requires |image| < 0x1_0000_0000 && m <= |image|
  {
    Sent(k, image, m) + if ack then [END_ACK] else []
  }

  lemma SentGrows(k: nat, image: seq<Byte>, m0: nat, m: nat, ack: bool)
    requires |image| < 0x1_0000_0000 && m0 <= m <= |image|
    ensures Sent(k, image, m0) <= Input(k, image, m, ack)
    ensures Sent(k, image, m) == Input(k, image, m, false)
  {
    assert image[..m0] <= image[..m];
  }

  /** The host waits for an echo or for the end signal, and will get it. */
  predicate Waits(s: Link, image: seq<Byte>, m0: nat, m: nat, ack: bool) {
    && m0 <= m
    && (s.host.Awaiting? || (s.host.Final? && m0 == m == |image|))
  }

  lemma {:induction false} Plays(s: Link, k: nat, image: seq<Byte>, m0: nat, m: nat, ack: bool) returns (a: seq<Action>)
    requires |image| < 0x1_0000_0000 && Mistaken(k, image, m, ack) && Reached(s, k, image, m0) && Waits(s, image, m0, m, ack)
    ensures DoAll(s, a, image).Some? && WrongKernel(DoAll(s, a, image).value.device, image)
    decreases m - m0, if s.host.Awaiting? then 1 else 0
  {
    var t;
    a, t := Drained(s, k, image, m0);
    var x := Input(k, image, m, ack);
    SentGrows(k, image, m0, m, ack);
    assert t.wrote == Sent(k, image, m0);
    FedGrows(t.wrote, x);
    if !t.device.Returned? {
      assert m0 < m || ack;
      Answered(t, k, image, m0, m, ack);
      assert [HostReads][1..] == [];
      var u := Do(t, HostReads, image);
      DoMore(s, a, t, HostReads, image);
      a := a + [HostReads];
      var b;
      if s.host.Awaiting? {
        EchoKeeps(t, k, image, m0);
        b := Plays(u, k, image, if m0 < |image| then m0 + 1 else m0, m, ack);
      } else {
        EndKeeps(t, k, image, m0);
        var v;
        b, v := Drained(u, k, image, m0);
        assert v.wrote == x;
      }
      DoThen(s, a, b, image);
      a := a + b;
    }
  }

  /** What the host reads next is what it waits for. */
  lemma Answered(t: Link, k: nat, image: seq<Byte>, m0: nat, m: nat, ack: bool)
    requires |image| < 0x1_0000_0000 && Mistaken(k, image, m, ack) && Reached(t, k, image, m0) && Settled(t)
    requires Waits(t, image, m0, m, ack) && (m0 < m || ack)
    ensures Can(t, HostReads)
    ensures t.host.Awaiting? ==> t.toHost[0] == image[t.host.i]
    ensures t.host.Final? ==> ack && t.toHost[0] == END
  {
    var out := Fed(t.wrote).1;
    assert t.wrote == Sent(k, image, m0);
    if t.host.Awaiting? {
      if m0 == m { LedEndIsLed(k, image); }
      assert Led(k, image, m0);
      var led := [INIT_ACK] + image[..m0];
      assert led <= out && led[m0] == image[m0 - 1];
      assert out[m0] == led[m0];
    } else {
      var led := [INIT_ACK] + image + [END];
      assert image[..|image|] == image;
      assert led <= out && led[|image| + 1] == END;
      assert out[|image| + 1] == led[|image| + 1];
    }
  }

  lemma LedEndIsLed(k: nat, image: seq<Byte>)
    requires |image| < 0x1_0000_0000 && LedToEnd(k, image)
    ensures Led(k, image, |image|)
  {
    assert image[..|image|] == image;
    assert [INIT_ACK] + image <= [INIT_ACK] + image + [END];
  }

  /** Timeouts before the loader takes anything. */
  lemma {:induction false} Calls(k: nat, image: seq<Byte>) returns (a: seq<Action>)
    requires |image| < 0x1_0000_0000
    ensures DoAll(Begin(), a, image) == Some(Link(Handshake, Waiting, Inits(k), [], Inits(k), 0, 0))
  {
    a := [];
    if k > 0 {
      var b := Calls(k - 1, image);
      DoMore(Begin(), b, Link(Handshake, Waiting, Inits(k - 1), [], Inits(k - 1), 0, 0), HostTimesOut, image);
      a := b + [HostTimesOut];
    }
  }

  lemma RunsWrong(k: nat, image: seq<Byte>, m: nat, ack: bool) returns (a: seq<Action>)
    requires |image| < 0x1_0000_0000 && Mistaken(k, image, m, ack)
    ensures BootsWrong(a, image)
  {
    a := Calls(k, image);
    var s := Link(Handshake, Waiting, Inits(k), [], Inits(k), 0, 0);
    var b, t := Drained(s, k, image, 0);
    DoThen(Begin(), a, b, image);
    a := a + b;
    InitsFed(k);
    HandshakeEnds(t, k, image);
    DoMore(Begin(), a, t, HostReads, image);
    a := a + [HostReads];
    var u := Do(t, HostReads, image);
    var c := Plays(u, k, image, if image == [] then 0 else 1, m, ack);
    DoThen(Begin(), a, c, image);
    a := a + c;
  }

  /** With timeouts at any moment and failed sessions repeated, some run makes the loader start something
      else than the image if and only if the image can be mistaken after some number of INITs. */
  lemma BootsWrongIff(image: seq<Byte>)
    requires |image| < 0x1_0000_0000
    ensures (exists actions :: BootsWrong(actions, image)) <==> (exists k, m, ack :: Mistaken(k, image, m, ack))
  {
    forall actions | BootsWrong(actions, image) ensures exists k, m, ack :: Mistaken(k, image, m, ack) {
      var k, m := RunsReach(Begin(), 0, 0, actions, image);
      WrongIsMistaken(DoAll(Begin(), actions, image).value, k, image, m);
    }
    if k, m, ack :| Mistaken(k, image, m, ack) { var a := RunsWrong(k, image, m, ack); }
  }

  // ---- small images ----

  const SMALL: nat := 0xFAF9

  function Next4(st: (Device, seq<Byte>), a: Byte, b: Byte, c: Byte, d: Byte): (Device, seq<Byte>) {
    Next(Next(Next(Next(st, a), b), c), d)
  }

  lemma GoFour(st: (Device, seq<Byte>), w: seq<Byte>)
    requires |w| == 4
    ensures Go(st, w) == Next4(st, w[0], w[1], w[2], w[3])
  {
    assert w[1..][1..] == w[2..] && w[2..][1..] == w[3..] && w[3..][1..] == [];
    assert w[1..][0] == w[1] && w[2..][0] == w[2] && w[3..][0] == w[3];
    var st1 := Next(st, w[0]);
    var st2 := Next(st1, w[1]);
    var st3 := Next(st2, w[2]);
    assert Go(st1, w[1..]) == Go(st2, w[2..]);
    assert Go(st2, w[2..]) == Go(st3, w[3..]);
    assert Go(st3, w[3..]) == Next(st3, w[3]);
  }

  /** Nothing but INIT_ACKs sent, and the loader waits. */
  predicate Idle(st: (Device, seq<Byte>)) { st.0 == Waiting && AllAck(st.1) }

  /** Nothing but two or more INIT_ACKs sent, and the loader has read the beginning of a size. */
  predicate Misread(st: (Device, seq<Byte>), got: seq<Byte>) { st.0 == Sizing(got) && AllAck(st.1) && |st.1| >= 2 }

  /** The loader wants more bytes than there are. */
  predicate Starved(st: (Device, seq<Byte>), left: nat) {
    st.0.Loading? && |st.0.buffer| + left <= st.0.size
  }

  /** The size bytes of a small image when all INITs have been used up by sessions. */
  lemma AfterSessions(out: seq<Byte>, n: nat)
    requires n < SMALL && AllAck(out) && |out| > 0
    ensures var b, st := WordBytes(n), Go((Waiting, out), WordBytes(n));
            Idle(st) || (Misread(st, [b[1], 0, 0]) && n >= 250) || (Misread(st, [0, 0]) && n >= 0xFA00)
  {
    var b := WordBytes(n);
    GoFour((Waiting, out), b);
    assert b[2] == 0 && b[3] == 0;
    if b[0] == INIT {
      assert [b[1]] + [0] == [b[1], 0] && [b[1], 0] + [0] == [b[1], 0, 0];
    } else if b[1] == INIT {
      assert [0] + [0] == [0, 0];
    }
  }

  /** When one INIT is left the true size is read. */
  lemma AfterOne(out: seq<Byte>, n: nat)
    requires n < SMALL
    ensures Go((Sizing([]), out), WordBytes(n)).0 == Load(n, [], []).0
  {
    var b := WordBytes(n);
    GoFour((Sizing([]), out), b);
    WordReadsBack(n);
    assert [b[0]] + [b[1]] == b[..2] && b[..2] + [b[2]] == b[..3] && b[..3] + [b[3]] == b;
  }

  lemma TooLarge(got: seq<Byte>, out: seq<Byte>, b: Byte)
    requires |got| == 3 && WordOf(got + [b]) > KERNEL_MAX_SIZE
    ensures Next((Sizing(got), out), b) == (Waiting, out)
  {
    assert out + [] == out;
  }

  lemma Passed(out: seq<Byte>, b: Byte)
    requires b != INIT
    ensures Next((Waiting, out), b) == (Waiting, out)
  {
    assert out + [] == out;
  }

  lemma SizesOn(got: seq<Byte>, out: seq<Byte>, b: Byte)
    requires |got| < 3
    ensures Next((Sizing(got), out), b) == (Sizing(got + [b]), out)
  {
    assert out + [] == out;
  }

  /** Two INITs: the size is 256 times the true one and more. */
  lemma AfterTwo(out: seq<Byte>, n: nat)
    requires n < SMALL && AllAck(out)
    ensures var st := Go((Sizing([INIT]), out), WordBytes(n)); Idle(st) || Starved(st, n + 1)
  {
    var b := WordBytes(n);
    GoFour((Sizing([INIT]), out), b);
    assert b[2] == 0 && b[3] == 0;
    SizesOn([INIT], out, b[0]);
    SizesOn([INIT, b[0]], out, b[1]);
    assert [INIT] + [b[0]] == [INIT, b[0]] && [INIT, b[0]] + [b[1]] == [INIT, b[0], b[1]];
    assert [INIT, b[0], b[1]] + [0] == [INIT, b[0], b[1], 0];
    var size := WordOf([INIT, b[0], b[1], 0]);
    assert size == 0xFA + 0x100 * n;
    if size > KERNEL_MAX_SIZE {
      TooLarge([INIT, b[0], b[1]], out, 0);
      Passed(out, 0);
    }
  }

  /** Three INITs: more than 64000 bytes, or too many. */
  lemma AfterThree(out: seq<Byte>, n: nat)
    requires n < SMALL && AllAck(out)
    ensures var st := Go((Sizing([INIT, INIT]), out), WordBytes(n)); Idle(st) || Starved(st, n + 1)
  {
    var b := WordBytes(n);
    GoFour((Sizing([INIT, INIT]), out), b);
    assert b[2] == 0 && b[3] == 0;
    SizesOn([INIT, INIT], out, b[0]);
    assert [INIT, INIT] + [b[0]] == [INIT, INIT, b[0]] && [INIT, INIT, b[0]] + [b[1]] == [INIT, INIT, b[0], b[1]];
    var size := WordOf([INIT, INIT, b[0], b[1]]);
    if size > KERNEL_MAX_SIZE {
      TooLarge([INIT, INIT, b[0]], out, b[1]);
      Passed(out, 0);
    } else {
      assert b[1] == 0 && n < 0x100;
      assert [] + [b[2]] == [b[2]] && [b[2]] + [b[3]] == [b[2], b[3]];
    }
  }

  /** Four INITs: too many, and the last bytes of the size may begin a session. */
  lemma AfterFour(out: seq<Byte>, n: nat)
    requires n < SMALL && AllAck(out) && |out| > 0
    ensures var st := Go((Sizing([INIT, INIT, INIT]), out), WordBytes(n));
            Idle(st) || (Misread(st, [0, 0]) && n >= 0xFA00)
  {
    var b := WordBytes(n);
    GoFour((Sizing([INIT, INIT, INIT]), out), b);
    assert b[2] == 0 && b[3] == 0;
    assert [INIT, INIT, INIT] + [b[0]] == [INIT, INIT, INIT, b[0]];
    TooLarge([INIT, INIT, INIT], out, b[0]);
    if b[1] == INIT {
      assert [0] + [0] == [0, 0];
    } else {
      Passed(out, b[1]);
      Passed(out, 0);
    }
  }

  /** The loader once the size of a small image is on the line, whatever the number of INITs. */
  lemma BaseFed(k: nat, image: seq<Byte>)
    requires |image| < SMALL && k > 0
    ensures var st, n := Fed(Sent(k, image, 0)), |image|;
            || Idle(st) || (Misread(st, [WordBytes(n)[1], 0, 0]) && n >= 250) || (Misread(st, [0, 0]) && n >= 0xFA00)
            || st.0 == Load(n, [], []).0 || Starved(st, n + 1)
  {
    var n, out := |image|, Fed(Inits(k)).1;
    assert Sent(k, image, 0) == Inits(k) + WordBytes(n);
    GoThen((Waiting, []), Inits(k), WordBytes(n));
    InitsFed(k);
    var r := k % 5;
    if r == 0 { AfterSessions(out, n); }
    else if r == 1 { AfterOne(out, n); }
    else if r == 2 { assert Inits(1) == [INIT]; AfterTwo(out, n); }
    else if r == 3 { assert Inits(2) == [INIT, INIT]; AfterThree(out, n); }
    else { assert Inits(3) == [INIT, INIT, INIT]; AfterFour(out, n); }
  }

  lemma SentByte(k: nat, image: seq<Byte>, j: nat)
    requires |image| < 0x1_0000_0000 && j < |image|
    ensures Fed(Sent(k, image, j + 1)) == Next(Fed(Sent(k, image, j)), image[j])
  {
    assert image[..j + 1] == image[..j] + [image[j]];
    assert Sent(k, image, j + 1) == Sent(k, image, j) + [image[j]];
    GoByte((Waiting, []), Sent(k, image, j), image[j]);
  }

  /** As long as only INIT_ACKs have come the host has sent only their likes, but for the last byte. */
  lemma LikeAcks(k: nat, image: seq<Byte>, j: nat)
    requires |image| < 0x1_0000_0000 && j < |image| && Led(k, image, j + 1)
    requires var out := Fed(Sent(k, image, j + 1)).1; j + 1 < |out| ==> out[j + 1] == INIT_ACK
    ensures image[j] == INIT_ACK
  {
    var led := [INIT_ACK] + image[..j + 1];
    assert led[j + 1] == image[j];
    assert led <= Fed(Sent(k, image, j + 1)).1;
  }

  lemma {:induction false} StaysIdle(k: nat, image: seq<Byte>, m: nat, j0: nat, j: nat)
    requires |image| < 0x1_0000_0000 && j0 <= j < m <= |image| && LedUpTo(k, image, m) && Idle(Fed(Sent(k, image, j0)))
    ensures Idle(Fed(Sent(k, image, j)))
    decreases j
  {
    if j0 < j {
      StaysIdle(k, image, m, j0, j - 1);
      SentByte(k, image, j - 1);
      assert Led(k, image, j);
      LikeAcks(k, image, j - 1);
      Passed(Fed(Sent(k, image, j - 1)).1, image[j - 1]);
    }
  }

  /** An END never came. */
  lemma NoEnd(k: nat, image: seq<Byte>)
    requires |image| < 0x1_0000_0000 && AllAck(Fed(Sent(k, image, |image|)).1)
    ensures !LedToEnd(k, image)
  {
    assert ([INIT_ACK] + image + [END])[|image| + 1] == END;
  }

  /** From then on nothing is loaded. */
  lemma IdleSafe(k: nat, image: seq<Byte>, m: nat, ack: bool, j0: nat)
    requires |image| < 0x1_0000_0000 && j0 <= m <= |image| && Idle(Fed(Sent(k, image, j0)))
    ensures !Mistaken(k, image, m, ack)
  {
    if LedUpTo(k, image, m) {
      if j0 < m {
        StaysIdle(k, image, m, j0, m - 1);
        SentByte(k, image, m - 1);
      }
      assert AllAck(Fed(Sent(k, image, m)).1) && !Fed(Sent(k, image, m)).0.Returned?;
      assert Sent(k, image, m) + [] == Sent(k, image, m);
      if m == |image| { NoEnd(k, image); }
    }
  }

  /** A second INIT_ACK is taken for the echo of the first byte. */
  lemma SecondAck(k: nat, image: seq<Byte>, m: nat)
    requires |image| < 0x1_0000_0000 && 2 <= m <= |image| && LedUpTo(k, image, m)
    requires var out := Fed(Sent(k, image, 0)).1; |out| >= 2 && AllAck(out)
    ensures image[0] == INIT_ACK
  {
    var a, b := Sent(k, image, 0), Sent(k, image, 1);
    assert image[..0] == [];
    assert a <= b;
    FedGrows(a, b);
    assert Led(k, image, 1);
    LikeAcks(k, image, 0);
  }

  lemma MisreadSafe(k: nat, image: seq<Byte>, m: nat, ack: bool)
    requires 250 <= |image| < SMALL && Misread(Fed(Sent(k, image, 0)), [WordBytes(|image|)[1], 0, 0])
    ensures !Mistaken(k, image, m, ack)
  {
    var b1, out := WordBytes(|image|)[1], Fed(Sent(k, image, 0)).1;
    SentByte(k, image, 0);
    assert [b1, 0, 0] + [image[0]] == [b1, 0, 0, image[0]];
    if m <= |image| && LedUpTo(k, image, m) {
      if m == 1 {
        assert Sent(k, image, m) + [] == Sent(k, image, m);
      } else if m > 1 {
        SecondAck(k, image, m);
        TooLarge([b1, 0, 0], out, image[0]);
        IdleSafe(k, image, m, ack, 1);
      }
    }
  }

  lemma MisreadLaterSafe(k: nat, image: seq<Byte>, m: nat, ack: bool)
    requires 0xFA00 <= |image| < SMALL && Misread(Fed(Sent(k, image, 0)), [0, 0])
    ensures !Mistaken(k, image, m, ack)
  {
    var out := Fed(Sent(k, image, 0)).1;
    SentByte(k, image, 0);
    SizesOn([0, 0], out, image[0]);
    if m <= |image| && LedUpTo(k, image, m) {
      if m == 1 {
        assert Sent(k, image, m) + [] == Sent(k, image, m);
      } else if m > 1 {
        SecondAck(k, image, m);
        SentByte(k, image, 1);
        assert [0, 0] + [image[0]] == [0, 0, INIT_ACK] && [0, 0, INIT_ACK] + [image[1]] == [0, 0, INIT_ACK, image[1]];
        TooLarge([0, 0, INIT_ACK], out, image[1]);
        IdleSafe(k, image, m, ack, 2);
      }
    }
  }

  /** A loader that wants more than is left does not return. */
  lemma {:induction false} StarvedStays(st: (Device, seq<Byte>), rest: seq<Byte>)
    requires Starved(st, |rest|)
    ensures !Go(st, rest).0.Returned?
    decreases |rest|
  {
    if |rest| > 1 {
      StarvedStays(Next(st, rest[0]), rest[1..]);
    } else if |rest| == 1 {
      assert rest[1..] == [];
    }
  }

  /** With the true size the loader gets the image. */
  lemma {:induction false} LoadsTrue(k: nat, image: seq<Byte>, j: nat)
    requires 0 < |image| < 0x1_0000_0000 && j <= |image| && Fed(Sent(k, image, 0)).0 == Loading(|image|, [])
    ensures Fed(Sent(k, image, j)).0 == if j < |image| then Loading(|image|, image[..j]) else Ending(|image|, image)
  {
    if j == 0 {
      assert image[..0] == [];
    } else {
      LoadsTrue(k, image, j - 1);
      SentByte(k, image, j - 1);
      assert image[..j] == image[..j - 1] + [image[j - 1]];
      assert image[..|image|] == image;
    }
  }

  lemma TrueSafe(k: nat, image: seq<Byte>, m: nat, ack: bool)
    requires |image| < 0x1_0000_0000 && Fed(Sent(k, image, 0)).0 == Load(|image|, [], []).0
    ensures !Mistaken(k, image, m, ack)
  {
    if Mistaken(k, image, m, ack) {
      if image != [] { LoadsTrue(k, image, m); }
      assert Sent(k, image, m) + [] == Sent(k, image, m);
      if ack { GoByte((Waiting, []), Sent(k, image, m), END_ACK); }
    }
  }

  lemma StarvedSafe(k: nat, image: seq<Byte>, m: nat, ack: bool)
    requires |image| < 0x1_0000_0000 && Starved(Fed(Sent(k, image, 0)), |image| + 1)
    ensures !Mistaken(k, image, m, ack)
  {
    if Mistaken(k, image, m, ack) {
      var rest := image[..m] + if ack then [END_ACK] else [];
      assert image[..0] == [];
      assert Sent(k, image, m) + (if ack then [END_ACK] else []) == Sent(k, image, 0) + rest;
      GoThen((Waiting, []), Sent(k, image, 0), rest);
      StarvedStays(Fed(Sent(k, image, 0)), rest);
    }
  }

  /** No image of less than 64249 bytes can be mistaken, over any number of failed sessions. */
  lemma SmallImagesBoot(image: seq<Byte>, actions: seq<Action>)
    requires |image| < SMALL
    ensures !BootsWrong(actions, image)
  {
    BootsWrongIff(image);
    forall k: nat, m: nat, ack ensures !Mistaken(k, image, m, ack) { SmallSafe(k, image, m, ack); }
  }

  lemma SmallSafe(k: nat, image: seq<Byte>, m: nat, ack: bool)
    requires |image| < SMALL
    ensures !Mistaken(k, image, m, ack)
  {
    if Mistaken(k, image, m, ack) {
      BaseFed(k, image);
      var st, n := Fed(Sent(k, image, 0)), |image|;
      if Idle(st) { IdleSafe(k, image, m, ack, 0); }
      else if Misread(st, [WordBytes(n)[1], 0, 0]) && n >= 250 { MisreadSafe(k, image, m, ack); }
      else if Misread(st, [0, 0]) && n >= 0xFA00 { MisreadLaterSafe(k, image, m, ack); }
      else if st.0 == Load(n, [], []).0 { TrueSafe(k, image, m, ack); }
      else { StarvedSafe(k, image, m, ack); }
    }
  }

  // ---- an image that only the repetition mistakes ----

  const SIZE_READ: nat := 0xFAFA

  /** 65536 bytes INIT_ACK, 1, 0 and so on, with an END_ACK in place 64248. */
  predicate Threefold(image: seq<Byte>) {
    && |image| == 0x1_0000 && image[SIZE_READ - 2] == END_ACK
    && forall i :: 0 <= i < SIZE_READ - 2 ==> image[i] == if i % 3 == 0 then INIT_ACK else if i % 3 == 1 then 1 else 0
  }

  lemma LoadsOn(size: nat, buffer: seq<Byte>, out: seq<Byte>, b: Byte)
    requires |buffer| + 1 < size
    ensures Next((Loading(size, buffer), out), b) == (Loading(size, buffer + [b]), out + [b])
  {
  }

  lemma ReadsWrongSize(out: seq<Byte>)
    ensures Go((Sizing([INIT, INIT]), out), [0, 0, 1, 0]) == (Loading(SIZE_READ, [1, 0]), out + [1] + [0])
  {
    GoFour((Sizing([INIT, INIT]), out), [0, 0, 1, 0]);
    SizesOn([INIT, INIT], out, 0);
    assert [INIT, INIT] + [0] == [INIT, INIT, 0] && [INIT, INIT, 0] + [0] == [INIT, INIT, 0, 0];
    assert WordOf([INIT, INIT, 0, 0]) == SIZE_READ;
    assert out + [] == out && [] + [1] == [1] && [1] + [0] == [1, 0];
    LoadsOn(SIZE_READ, [], out, 1);
    LoadsOn(SIZE_READ, [1], out + [1], 0);
  }

  lemma SentNone(k: nat, image: seq<Byte>, st: (Device, seq<Byte>), w: seq<Byte>)
    requires |image| < 0x1_0000_0000 && w == WordBytes(|image|) && st == Fed(Inits(k))
    ensures Fed(Sent(k, image, 0)) == Go(st, w)
  {
    assert Sent(k, image, 0) == Inits(k) + w;
    GoThen((Waiting, []), Inits(k), w);
  }

  lemma EightFed()
    ensures Fed(Inits(8)) == (Sizing([INIT, INIT]), [INIT_ACK, INIT_ACK])
  {
    InitsFed(8);
    assert Inits(2) == [INIT, INIT];
    assert Fed(Inits(8)).1 == [INIT_ACK, INIT_ACK];
  }

  /** After eight INITs one session has failed and the next one reads 64250 as the size. */
  lemma EightInits(image: seq<Byte>)
    requires Threefold(image)
    ensures Fed(Sent(8, image, 0)) == (Loading(SIZE_READ, [1, 0]), [INIT_ACK, INIT_ACK, 1, 0])
  {
    var out := [INIT_ACK, INIT_ACK];
    EightFed();
    assert WordBytes(0x1_0000) == [0, 0, 1, 0];
    SentNone(8, image, (Sizing([INIT, INIT]), out), [0, 0, 1, 0]);
    ReadsWrongSize(out);
    assert out + [1] + [0] == [INIT_ACK, INIT_ACK, 1, 0];
  }

  lemma {:induction false} EightThen(image: seq<Byte>, j: nat)
    requires Threefold(image) && j < SIZE_READ - 2
    ensures Fed(Sent(8, image, j)) == (Loading(SIZE_READ, [1, 0] + image[..j]), [INIT_ACK, INIT_ACK, 1, 0] + image[..j])
  {
    if j == 0 {
      EightInits(image);
      assert [1, 0] + image[..0] == [1, 0] && [INIT_ACK, INIT_ACK, 1, 0] + image[..0] == [INIT_ACK, INIT_ACK, 1, 0];
    } else {
      EightThen(image, j - 1);
      SentByte(8, image, j - 1);
      assert image[..j] == image[..j - 1] + [image[j - 1]];
      assert [1, 0] + image[..j] == ([1, 0] + image[..j - 1]) + [image[j - 1]];
      assert [INIT_ACK, INIT_ACK, 1, 0] + image[..j] == ([INIT_ACK, INIT_ACK, 1, 0] + image[..j - 1]) + [image[j - 1]];
      LoadsOn(SIZE_READ, [1, 0] + image[..j - 1], [INIT_ACK, INIT_ACK, 1, 0] + image[..j - 1], image[j - 1]);
    }
  }

  /** The image looks like what the loader sends. */
  lemma LooksLike(image: seq<Byte>, j: nat)
    requires Threefold(image) && j <= SIZE_READ - 2
    ensures [INIT_ACK] + image[..j] <= [INIT_ACK, INIT_ACK, 1, 0] + image[..j]
  {
    var a, b := [INIT_ACK] + image[..j], [INIT_ACK, INIT_ACK, 1, 0] + image[..j];
    forall x | 0 <= x < |a| ensures a[x] == b[x] {
      if x >= 4 { assert (x - 1) % 3 == (x - 4) % 3; }
    }
  }

  lemma EightLast(image: seq<Byte>)
    requires Threefold(image)
    ensures Fed(Sent(8, image, SIZE_READ - 2)).0.Ending? && Fed(Sent(8, image, SIZE_READ - 2)).0.size == SIZE_READ
    ensures [INIT_ACK, INIT_ACK, 1, 0] + image[..SIZE_READ - 2] <= Fed(Sent(8, image, SIZE_READ - 2)).1
  {
    var j := SIZE_READ - 3;
    EightThen(image, j);
    SentByte(8, image, j);
    assert image[..j + 1] == image[..j] + [image[j]];
    assert [INIT_ACK, INIT_ACK, 1, 0] + image[..j + 1] == ([INIT_ACK, INIT_ACK, 1, 0] + image[..j]) + [image[j]];
  }

  lemma ThreefoldMistaken(image: seq<Byte>)
    requires Threefold(image)
    ensures Mistaken(8, image, SIZE_READ - 1, false)
  {
    forall j | 0 <= j < SIZE_READ - 1 ensures Led(8, image, j) {
      LooksLike(image, j);
      if j < SIZE_READ - 2 { EightThen(image, j); } else { EightLast(image); }
    }
    EightLast(image);
    SentByte(8, image, SIZE_READ - 2);
    var x := Sent(8, image, SIZE_READ - 1);
    assert x + [] == x;
  }

  /** No single session takes this image for another one, but with eight INITs at once the second session
      does: the condition on single sessions is not enough. */
  lemma RetryMistakesMore()
    ensures exists image: seq<Byte>, actions ::
              && |image| <= KERNEL_MAX_SIZE && !Confusable(image, 1) && !Confusable(image, 2)
              && BootsWrong(actions, image)
  {
    var image: seq<Byte> := seq(0x1_0000, i =>
      if i == SIZE_READ - 2 then END_ACK else if i % 3 == 0 then INIT_ACK else if i % 3 == 1 then 1 else 0);
    assert Threefold(image);
    NotConfusable(image);
    ThreefoldMistaken(image);
    var actions := RunsWrong(8, image, SIZE_READ - 1, false);
  }

  lemma NotConfusable(image: seq<Byte>)
    requires Threefold(image)
    ensures !Confusable(image, 1) && !Confusable(image, 2)
  {
    SizesRead(1, image);
    SizesRead(2, image);
    assert WordBytes(0x1_0000) == [0, 0, 1, 0];
    assert Stream(2, image, |image|)[4 + 0] == 1 && image[0] == INIT_ACK;
  }
}
