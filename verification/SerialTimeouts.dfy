/** The serial boot protocol when a read of the handshake may time out at any moment, also while an
    INIT is outstanding (src/serial_loader/loader.c, tools/serial_boot.py): which images the loader
    can then take for other ones. */
module SerialTimeouts {
  import opened Wrappers
  import opened Bytes
  import opened SerialBoot

  const KERNEL_MAX_SIZE: nat := 0x7F_8000

  /** A run without an assumption on the timeouts. */
  function FreeRun(s: Session, actions: seq<Action>, image: seq<Byte>, max: nat): Option<Session>
    requires |image| < 0x1_0000_0000
    decreases |actions|
  {
    if actions == [] then Some(s)
    else if Enabled(s, actions[0]) then FreeRun(Step(s, actions[0], image, max), actions[1..], image, max)
    else None
  }

  /** The loader has returned a size other than zero without holding the image. */
  predicate Wrong(s: Session, image: seq<Byte>) {
    s.device.Returned? && s.device.size != 0 && !(s.device.size == |image| && s.device.buffer == image)
  }

  predicate Misloads(actions: seq<Action>, image: seq<Byte>)
    requires |image| < 0x1_0000_0000
  {
    var r := FreeRun(Start(), actions, image, KERNEL_MAX_SIZE);
    r.Some? && Wrong(r.value, image)
  }

  // ---- what the device makes of the bytes after its INIT ----

  /** That many INITs that the device takes for the beginning of the size. */
  function Inits(n: nat): (s: seq<Byte>)
    ensures |s| == n && forall i :: 0 <= i < n ==> s[i] == INIT
  {
    if n == 0 then [] else Inits(n - 1) + [INIT]
  }

  /** The device after those bytes. */
  function After(c: seq<Byte>, max: nat): Device {
    if |c| < 4 then Sizing(c)
    else
      var size := WordOf(c[..4]);
      if size > max then Returned(0, [])
      else if |c| - 4 < size then Loading(size, c[4..])
      else if |c| - 4 == size then Ending(size, c[4..])
      else Returned(if c[4 + size] == END_ACK then size else 0, c[4..4 + size])
  }

  /** What it has sent since its INIT_ACK. */
  function Said(c: seq<Byte>, max: nat): seq<Byte> {
    if |c| < 4 || WordOf(c[..4]) > max then []
    else if |c| - 4 < WordOf(c[..4]) then c[4..]
    else c[4..4 + WordOf(c[..4])] + [END]
  }

  lemma AfterByte(c: seq<Byte>, b: Byte, max: nat)
    requires !After(c, max).Returned?
    ensures Receive(After(c, max), max, b).0 == After(c + [b], max)
    ensures Said(c + [b], max) == Said(c, max) + Receive(After(c, max), max, b).1
  {
    if |c| < 3 {
    } else if |c| == 3 {
      assert (c + [b])[..4] == c + [b];
    } else {
      var size := WordOf(c[..4]);
      assert (c + [b])[..4] == c[..4] && (c + [b])[4..] == c[4..] + [b];
      if |c| - 4 == size { assert (c + [b])[4..4 + size] == c[4..]; }
      if |c| - 3 == size { assert (c + [b])[4..4 + size] == (c + [b])[4..]; }
    }
  }

  // ---- the invariant of free runs ----

  /** What the host writes after the first INIT when e more INITs precede the size. */
  function Stream(e: nat, image: seq<Byte>, sent: nat): (x: seq<Byte>)
    requires |image| < 0x1_0000_0000 && sent <= |image|
    ensures |x| == e + 4 + sent
  {
    Inits(e) + WordBytes(|image|) + image[..sent]
  }

  function Finish(h: Host): seq<Byte> { if h.Success? then [END_ACK] else [] }

  /** Both lines hold what one side has written of the stream and the other has not consumed. */
  predicate Lined(s: Session, x: seq<Byte>, max: nat) {
    && s.taken <= |x| && s.toDevice == x[s.taken..] && s.device == After(x[..s.taken], max)
    && s.read <= |Said(x[..s.taken], max)| && s.toHost == Said(x[..s.taken], max)[s.read..]
  }

  /** The first bytes that the device has sent are those of the image. */
  predicate Matched(said: seq<Byte>, image: seq<Byte>, n: nat) {
    n <= |said| && n <= |image| && said[..n] == image[..n]
  }

  /** How far the host is, and what it has read. */
  predicate HostKnows(s: Session, image: seq<Byte>, said: seq<Byte>) {
    && (s.host.Awaiting? ==> s.read == s.host.i && s.sent == s.read + 1)
    && (s.host.Final? ==> s.read == s.sent == |image|)
    && (s.host.Success? ==> s.sent == |image|)
    && s.sent <= |image| && (s.sent > 0 ==> Matched(said, image, s.sent - 1))
    && !s.host.Handshake?
  }

  predicate FreeStreaming(s: Session, e: nat, image: seq<Byte>, max: nat)
    requires |image| < 0x1_0000_0000
  {
    && s.sent <= |image|
    && var x := Stream(e, image, s.sent) + Finish(s.host);
       Lined(s, x, max) && HostKnows(s, image, Said(x[..s.taken], max))
  }

  /** During the handshake only INITs travel to the device. */
  predicate FreeShaking(s: Session, m: nat, max: nat) {
    && s.host.Handshake? && s.sent == s.read == 0
    && if s.device.Waiting? then s.toDevice == Inits(m) && s.toHost == [] && s.taken == 0
       else Lined(s.(toHost := []), Inits(m), max) && s.toHost == [INIT_ACK] && Said(Inits(m)[..s.taken], max) == []
  }

  lemma InitsPart(n: nat, k: nat)
    requires k <= n
    ensures Inits(n)[k..] == Inits(n - k) && Inits(n)[..k] == Inits(k)
  {
  }

  /** A size of four INITs is too large. */
  lemma InitsAreTooMany(m: nat, max: nat)
    requires max < 0xFA_FAFA
    ensures Said(Inits(m), max) == []
  {
    if m >= 4 { assert Inits(m)[..4] == [INIT, INIT, INIT, INIT]; }
  }

  lemma ShakingTakes(s: Session, m: nat, image: seq<Byte>, max: nat)
    requires |image| < 0x1_0000_0000 && max < 0xFA_FAFA && FreeShaking(s, m, max) && Enabled(s, DeviceTakes)
    ensures FreeShaking(Step(s, DeviceTakes, image, max), if s.device.Waiting? then m - 1 else m, max)
  {
    if s.device.Waiting? {
      InitsPart(m, 1);
    } else {
      var x, t := Inits(m), s.taken;
      Taken(x, t);
      assert x[..t] + [x[t]] == x[..t + 1];
      AfterByte(x[..t], x[t], max);
      InitsPart(m, t + 1);
      InitsAreTooMany(t + 1, max);
    }
  }

  lemma ShakingTimesOut(s: Session, m: nat, image: seq<Byte>, max: nat)
    requires |image| < 0x1_0000_0000 && FreeShaking(s, m, max)
    ensures FreeShaking(Step(s, HostTimesOut, image, max), m + 1, max)
  {
    if !s.device.Waiting? {
      assert Inits(m + 1)[..s.taken] == Inits(m)[..s.taken];
      assert Inits(m + 1)[s.taken..] == Inits(m)[s.taken..] + [INIT];
    }
  }

  /** The answer arrives: the INITs sent by then but the first precede the size. */
  lemma ShakingEnds(s: Session, m: nat, image: seq<Byte>, max: nat)
    requires |image| < 0x1_0000_0000 && FreeShaking(s, m, max) && Enabled(s, HostReads)
    ensures FreeStreaming(Step(s, HostReads, image, max), m, image, max)
  {
    var t := Step(s, HostReads, image, max);
    var x, y := Stream(m, image, t.sent), Inits(m);
    assert t.toHost == [];
    if image != [] { assert image[..1] == [image[0]]; }
    assert x[..s.taken] == y[..s.taken];
    assert x[s.taken..] == y[s.taken..] + (WordBytes(|image|) + image[..t.sent]);
    assert x + Finish(t.host) == x;
  }

  lemma StreamTakes(s: Session, e: nat, image: seq<Byte>, max: nat)
    requires |image| < 0x1_0000_0000 && FreeStreaming(s, e, image, max) && Enabled(s, DeviceTakes)
    ensures FreeStreaming(Step(s, DeviceTakes, image, max), e, image, max)
  {
    var x, t := Stream(e, image, s.sent) + Finish(s.host), s.taken;
    LinedTakes(s, x, image, max);
  }

  /** The device consumes a byte of any stream. */
  lemma LinedTakes(s: Session, x: seq<Byte>, image: seq<Byte>, max: nat)
    requires |image| < 0x1_0000_0000 && Lined(s, x, max) && Enabled(s, DeviceTakes)
    ensures var t := Step(s, DeviceTakes, image, max);
            && Lined(t, x, max) && t.taken == s.taken + 1 && t.read == s.read && t.sent == s.sent && t.host == s.host
            && Said(x[..s.taken], max) <= Said(x[..t.taken], max)
  {
    var t := s.taken;
    Taken(x, t);
    assert x[..t] + [x[t]] == x[..t + 1];
    AfterByte(x[..t], x[t], max);
    Appended(Said(x[..t], max), s.read, Receive(s.device, max, x[t]).1);
  }

  /** What the host writes goes on with its answer. */
  lemma HostWrites(h: Host, e: nat, image: seq<Byte>, sent: nat, b: Byte)
    requires |image| < 0x1_0000_0000 && !h.Handshake? && sent <= |image|
    requires (h.Awaiting? ==> sent == h.i + 1) && (h.Final? || h.Success? ==> sent == |image|)
    ensures var (h1, out) := Answer(h, image, Some(b));
            && sent + DataBytes(h1) <= |image|
            && Stream(e, image, sent + DataBytes(h1)) + Finish(h1) == Stream(e, image, sent) + Finish(h) + out
  {
    if h.Awaiting? && sent < |image| { assert image[..sent + 1] == image[..sent] + [image[sent]]; }
  }

  lemma MatchedGrows(said: seq<Byte>, image: seq<Byte>, n: nat)
    requires Matched(said, image, n) && n < |said| && n < |image| && said[n] == image[n]
    ensures Matched(said, image, n + 1)
  {
    assert said[..n + 1] == said[..n] + [said[n]] && image[..n + 1] == image[..n] + [image[n]];
  }

  /** The host reads a byte and writes its answer, on any stream. */
  lemma LinedReads(s: Session, x: seq<Byte>, image: seq<Byte>, max: nat)
    requires |image| < 0x1_0000_0000 && Lined(s, x, max) && Enabled(s, HostReads) && !s.host.Handshake?
    ensures s.read < |Said(x[..s.taken], max)| && s.toHost[0] == Said(x[..s.taken], max)[s.read]
    ensures var y := x + Answer(s.host, image, Some(s.toHost[0])).1;
            y[..s.taken] == x[..s.taken] && Lined(Step(s, HostReads, image, max), y, max)
  {
    var out := Answer(s.host, image, Some(s.toHost[0])).1;
    Taken(Said(x[..s.taken], max), s.read);
    Appended(x, s.taken, out);
    assert (x + out)[..s.taken] == x[..s.taken];
  }

  lemma HostLearns(s: Session, said: seq<Byte>, image: seq<Byte>, max: nat)
    requires |image| < 0x1_0000_0000 && HostKnows(s, image, said) && Enabled(s, HostReads)
    requires s.read < |said| && s.toHost[0] == said[s.read]
    ensures HostKnows(Step(s, HostReads, image, max), image, said)
  {
    if s.host.Awaiting? && s.host.i < |image| && said[s.read] == image[s.read] { MatchedGrows(said, image, s.read); }
  }

  lemma StreamReads(s: Session, e: nat, image: seq<Byte>, max: nat)
    requires |image| < 0x1_0000_0000 && FreeStreaming(s, e, image, max) && Enabled(s, HostReads)
    ensures FreeStreaming(Step(s, HostReads, image, max), e, image, max)
  {
    var x := Stream(e, image, s.sent) + Finish(s.host);
    LinedReads(s, x, image, max);
    HostLearns(s, Said(x[..s.taken], max), image, max);
    HostWrites(s.host, e, image, s.sent, s.toHost[0]);
    var t := Step(s, HostReads, image, max);
    assert Stream(e, image, t.sent) + Finish(t.host) == x + Answer(s.host, image, Some(s.toHost[0])).1;
  }

  lemma StreamTimesOut(s: Session, e: nat, image: seq<Byte>, max: nat)
    requires |image| < 0x1_0000_0000 && FreeStreaming(s, e, image, max) && Enabled(s, HostTimesOut)
    ensures FreeStreaming(Step(s, HostTimesOut, image, max), e, image, max)
  {
  }

  /** Every state after the handshake is one of those with some number of early INITs. */
  lemma {:induction false} StreamRuns(s: Session, e: nat, actions: seq<Action>, image: seq<Byte>, max: nat)
    requires |image| < 0x1_0000_0000 && FreeStreaming(s, e, image, max) && FreeRun(s, actions, image, max).Some?
    ensures FreeStreaming(FreeRun(s, actions, image, max).value, e, image, max)
    decreases |actions|
  {
    if actions != [] {
      match actions[0] {
        case DeviceTakes => StreamTakes(s, e, image, max);
        case HostReads => StreamReads(s, e, image, max);
        case HostTimesOut => StreamTimesOut(s, e, image, max);
      }
      StreamRuns(Step(s, actions[0], image, max), e, actions[1..], image, max);
    }
  }

  lemma {:induction false} FreeRunsKeep(s: Session, m: nat, actions: seq<Action>, image: seq<Byte>, max: nat) returns (e: nat)
    requires |image| < 0x1_0000_0000 && max < 0xFA_FAFA
    requires FreeShaking(s, m, max) && FreeRun(s, actions, image, max).Some?
    ensures var t := FreeRun(s, actions, image, max).value;
            FreeShaking(t, e, max) || FreeStreaming(t, e, image, max)
    decreases |actions|
  {
    if actions == [] {
      e := m;
    } else {
      var t := Step(s, actions[0], image, max);
      match actions[0] {
        case DeviceTakes =>
          ShakingTakes(s, m, image, max);
          e := FreeRunsKeep(t, if s.device.Waiting? then m - 1 else m, actions[1..], image, max);
        case HostTimesOut =>
          ShakingTimesOut(s, m, image, max);
          e := FreeRunsKeep(t, m + 1, actions[1..], image, max);
        case HostReads =>
          ShakingEnds(s, m, image, max);
          StreamRuns(t, m, actions[1..], image, max);
          e := m;
      }
    }
  }

  // ---- the images that can be mistaken ----

  /** The size that the device reads when e INITs precede the true one. */
  function SizeRead(e: nat, image: seq<Byte>): nat
    requires |image| < 0x1_0000_0000
  {
    WordOf(Stream(e, image, |image|)[..4])
  }

  /** The image imitates itself e bytes later: that wrong size fits, every echo up to it is the byte the
      host has just sent, and the byte that the device takes for the answer to its END is an END_ACK. */
  predicate Confusable(image: seq<Byte>, e: nat)
    requires |image| < 0x1_0000_0000
  {
    var x, size := Stream(e, image, |image|), SizeRead(e, image);
    && size <= KERNEL_MAX_SIZE && size - e < |image|
    && x[4 + size] == END_ACK
    && forall j :: 0 <= j < size - e ==> x[4 + j] == image[j]
  }

  /** The sizes that INITs in front of the true size make. */
  lemma SizesRead(e: nat, image: seq<Byte>)
    requires |image| < 0x1_0000_0000
    ensures var n, size := |image|, SizeRead(e, image);
            && (e == 0 ==> size == n)
            && (e == 1 ==> size == 0xFA + 0x100 * (n % 0x100_0000))
            && (e == 2 ==> size == 0xFAFA + 0x1_0000 * (n % 0x1_0000))
            && (e >= 3 ==> size > KERNEL_MAX_SIZE)
  {
    var b, x := WordBytes(|image|), Stream(e, image, |image|)[..4];
    WordReadsBack(|image|);
    if e == 0 { assert x == b; }
    else if e == 1 { assert x == [INIT, b[0], b[1], b[2]]; SplitsLow(|image|); }
    else if e == 2 { assert x == [INIT, INIT, b[0], b[1]]; SplitsLow(|image|); }
    else { assert x[0] == INIT && x[1] == INIT && x[2] == INIT; }
  }

  lemma SplitsLow(n: nat)
    requires n < 0x1_0000_0000
    ensures n % 0x1_0000 == n % 0x100 + 0x100 * (n / 0x100 % 0x100)
    ensures n % 0x100_0000 == n % 0x1_0000 + 0x1_0000 * (n / 0x1_0000 % 0x100)
  {
  }

  /** A wrong size that fits is not the true one, nor exceeds it by the INITs in front. */
  lemma SizeNeverFits(e: nat, image: seq<Byte>)
    requires |image| < 0x1_0000_0000 && 0 < e && SizeRead(e, image) <= KERNEL_MAX_SIZE
    ensures e <= 2 && SizeRead(e, image) > 2 && SizeRead(e, image) != |image| && SizeRead(e, image) != |image| + e
  {
    SizesRead(e, image);
  }

  /** The loader returns a size other than zero when an END_ACK follows that many bytes. */
  lemma ReturnsAt(c: seq<Byte>, max: nat)
    requires After(c, max).Returned? && After(c, max).size != 0
    ensures var size := After(c, max).size;
            && |c| > 4 + size && size == WordOf(c[..4]) <= max && c[4 + size] == END_ACK
            && After(c, max).buffer == c[4..4 + size] && Said(c, max) == c[4..4 + size] + [END]
  {
  }

  /** Without early INITs what the loader returns is the image. */
  lemma OneInitLoads(image: seq<Byte>, sent: nat, h: Host, c: seq<Byte>)
    requires |image| < 0x1_0000_0000 && sent <= |image|
    requires c <= Stream(0, image, sent) + Finish(h) && |c| > 4 + |image|
    ensures c[4..4 + |image|] == image
  {
    var x := Stream(0, image, sent) + Finish(h);
    assert sent == |image| && x[4..4 + |image|] == image;
    assert c == x[..|c|];
  }

  /** Before an early INIT has done its work the host has sent all that the device takes for an image. */
  lemma EnoughSent(e: nat, image: seq<Byte>, sent: nat, h: Host, c: seq<Byte>)
    requires |image| < 0x1_0000_0000 && sent <= |image| && (h.Success? ==> sent == |image|) && 0 < e
    requires c <= Stream(e, image, sent) + Finish(h) && SizeRead(e, image) <= KERNEL_MAX_SIZE
    requires |c| > 4 + SizeRead(e, image) && c[4 + SizeRead(e, image)] == END_ACK
    ensures SizeRead(e, image) < e + sent && Stream(e, image, |image|)[4 + SizeRead(e, image)] == END_ACK
    ensures c[4..4 + SizeRead(e, image)] == Stream(e, image, |image|)[4..4 + SizeRead(e, image)]
  {
    var y, z, size := Stream(e, image, sent), Stream(e, image, |image|), SizeRead(e, image);
    SizeNeverFits(e, image);
    assert |c| <= |y| + |Finish(h)|;
    assert 4 + size < |y|;
    assert y == z[..|y|];
    assert c[..4 + size] == y[..4 + size];
  }

  lemma HeadsAgree(e: nat, image: seq<Byte>, sent: nat, h: Host, c: seq<Byte>)
    requires |image| < 0x1_0000_0000 && sent <= |image| && |c| >= 4
    requires c <= Stream(e, image, sent) + Finish(h)
    ensures c[..4] == Stream(e, image, |image|)[..4]
  {
    var y, z := Stream(e, image, sent), Stream(e, image, |image|);
    assert y == z[..|y|];
    assert c[..4] == y[..4];
  }

  /** The loader was misled by early INITs. */
  lemma EarlyInits(e: nat, image: seq<Byte>, sent: nat, h: Host, c: seq<Byte>)
    requires |image| < 0x1_0000_0000 && sent <= |image| && (h.Success? ==> sent == |image|) && 0 < e
    requires c <= Stream(e, image, sent) + Finish(h) && SizeRead(e, image) <= KERNEL_MAX_SIZE
    requires |c| > 4 + SizeRead(e, image) && c[4 + SizeRead(e, image)] == END_ACK
    requires sent > 0 ==> Matched(c[4..4 + SizeRead(e, image)] + [END], image, sent - 1)
    ensures Confusable(image, e)
  {
    var data, size := c[4..4 + SizeRead(e, image)], SizeRead(e, image);
    EnoughSent(e, image, sent, h, c);
    if size >= e { EchoesImitate(data + [END], data, image, sent - 1, size - e); }
  }

  /** A wrong load means that the image is confusable by the number of INITs before the size. */
  lemma WrongMeansConfusable(s: Session, e: nat, image: seq<Byte>)
    requires |image| < 0x1_0000_0000 && FreeStreaming(s, e, image, KERNEL_MAX_SIZE) && Wrong(s, image)
    ensures 1 <= e <= 2 && Confusable(image, e)
  {
    var c := (Stream(e, image, s.sent) + Finish(s.host))[..s.taken];
    ReturnsAt(c, KERNEL_MAX_SIZE);
    HeadsAgree(e, image, s.sent, s.host, c);
    if e == 0 {
      SizesRead(e, image);
      OneInitLoads(image, s.sent, s.host, c);
    } else {
      SizeNeverFits(e, image);
      EarlyInits(e, image, s.sent, s.host, c);
    }
  }

  lemma EchoesImitate(said: seq<Byte>, data: seq<Byte>, image: seq<Byte>, n: nat, k: nat)
    requires Matched(said, image, n) && said == data + [END] && k <= n && k <= |data|
    ensures forall j :: 0 <= j < k ==> data[j] == image[j]
  {
    forall j | 0 <= j < k ensures data[j] == image[j] {
      assert said[..n][j] == image[..n][j];
    }
  }

  // ---- and a run that mistakes them ----

  lemma {:induction false} FreeRunThen(s: Session, a: seq<Action>, b: seq<Action>, image: seq<Byte>, max: nat)
    requires |image| < 0x1_0000_0000 && FreeRun(s, a, image, max).Some?
    ensures FreeRun(s, a + b, image, max) == FreeRun(FreeRun(s, a, image, max).value, b, image, max)
    decreases |a|
  {
    if a == [] {
      assert a + b == b;
    } else {
      assert (a + b)[0] == a[0] && (a + b)[1..] == a[1..] + b;
      FreeRunThen(Step(s, a[0], image, max), a[1..], b, image, max);
    }
  }

  /** The device takes that many bytes in a row. */
  lemma {:induction false} Drain(s: Session, x: seq<Byte>, k: nat, image: seq<Byte>, max: nat) returns (a: seq<Action>)
    requires |image| < 0x1_0000_0000 && Lined(s, x, max) && s.taken + k <= |x|
    requires forall t :: s.taken <= t < s.taken + k ==> !After(x[..t], max).Returned?
    ensures FreeRun(s, a, image, max).Some?
    ensures var t := FreeRun(s, a, image, max).value;
            Lined(t, x, max) && t.taken == s.taken + k && t.host == s.host && t.read == s.read && t.sent == s.sent
    decreases k
  {
    a := [];
    if k > 0 {
      LinedTakes(s, x, image, max);
      var b := Drain(Step(s, DeviceTakes, image, max), x, k - 1, image, max);
      a := [DeviceTakes] + b;
      assert a[1..] == b;
    }
  }

  function Calling(m: nat): Session { Session(Handshake, Waiting, Inits(m), [], 0, 0, 0) }

  /** Timeouts before the device answers. */
  lemma {:induction false} CallsPileUp(m: nat, image: seq<Byte>, max: nat) returns (a: seq<Action>)
    requires |image| < 0x1_0000_0000
    ensures FreeRun(Start(), a, image, max) == Some(Calling(m))
  {
    a := [];
    if m > 0 {
      var b := CallsPileUp(m - 1, image, max);
      FreeRunThen(Start(), b, [HostTimesOut], image, max);
      a := b + [HostTimesOut];
    }
  }

  /** The host waits for the echo of byte i, and the device has not taken it yet. */
  predicate BehindAt(s: Session, i: nat, e: nat, image: seq<Byte>, max: nat)
    requires |image| < 0x1_0000_0000
  {
    FreeStreaming(s, e, image, max) && s.host == Awaiting(i) && i < |image| && s.taken == 4 + i
  }

  lemma Opening(e: nat, image: seq<Byte>, max: nat) returns (a: seq<Action>)
    requires |image| < 0x1_0000_0000 && max < 0xFA_FAFA && image != [] && 0 < e
    ensures FreeRun(Start(), a, image, max).Some? && BehindAt(FreeRun(Start(), a, image, max).value, 0, e, image, max)
  {
    a := CallsPileUp(e + 1, image, max);
    var s := Calling(e + 1);
    InitsPart(e + 1, 1);
    var s1 := Step(s, DeviceTakes, image, max);
    assert FreeShaking(s1, e, max);
    ShakingEnds(s1, e, image, max);
    var s2 := Step(s1, HostReads, image, max);
    assert FreeRun(s1, [HostReads], image, max) == Some(s2);
    assert [DeviceTakes, HostReads][1..] == [HostReads];
    assert FreeRun(s, [DeviceTakes, HostReads], image, max) == Some(s2);
    FreeRunThen(Start(), a, [DeviceTakes, HostReads], image, max);
    a := a + [DeviceTakes, HostReads];
    var x := Stream(e, image, 1);
    assert x + Finish(s2.host) == x;
    var b := Drain(s2, x, 4, image, max);
    var s3 := FreeRun(s2, b, image, max).value;
    assert HostKnows(s3, image, Said(x[..4], max));
    FreeRunThen(Start(), a, b, image, max);
    a := a + b;
  }

  /** The device takes a data byte and echoes it. */
  lemma DataEchoed(s: Session, x: seq<Byte>, i: nat, image: seq<Byte>, max: nat)
    requires |image| < 0x1_0000_0000 && Lined(s, x, max) && s.taken == 4 + i < |x| && s.read == i
    requires WordOf(x[..4]) <= max && i + 1 < WordOf(x[..4])
    ensures Enabled(s, DeviceTakes) && Step(s, DeviceTakes, image, max).toHost == [x[4 + i]]
  {
    assert x[..s.taken][..4] == x[..4] == x[..s.taken + 1][..4];
    assert x[..s.taken + 1][4..][i] == x[4 + i];
    LinedTakes(s, x, image, max);
  }

  /** The device echoes a byte, and the host takes the echo for the one it waits for. */
  lemma Echo(s: Session, i: nat, e: nat, image: seq<Byte>) returns (t: Session)
    requires |image| < 0x1_0000_0000 && BehindAt(s, i, e, image, KERNEL_MAX_SIZE)
    requires 0 < e && Confusable(image, e) && i < SizeRead(e, image) - e
    ensures FreeRun(s, [DeviceTakes, HostReads], image, KERNEL_MAX_SIZE) == Some(t)
    ensures BehindAt(t, i + 1, e, image, KERNEL_MAX_SIZE)
  {
    var max, x, z := KERNEL_MAX_SIZE, Stream(e, image, s.sent), Stream(e, image, |image|);
    assert x + Finish(s.host) == x;
    assert x == z[..|x|];
    assert x[..4] == z[..4];
    DataEchoed(s, x, i, image, max);
    StreamTakes(s, e, image, max);
    var s1 := Step(s, DeviceTakes, image, max);
    assert x[4 + i] == z[4 + i] == image[i];
    StreamReads(s1, e, image, max);
    t := Step(s1, HostReads, image, max);
    assert FreeRun(s1, [HostReads], image, max) == Some(t);
    assert [DeviceTakes, HostReads][1..] == [HostReads];
  }

  lemma {:induction false} Echoes(s: Session, i: nat, e: nat, image: seq<Byte>) returns (a: seq<Action>)
    requires |image| < 0x1_0000_0000 && BehindAt(s, i, e, image, KERNEL_MAX_SIZE)
    requires 0 < e && Confusable(image, e) && i <= SizeRead(e, image) - e
    ensures FreeRun(s, a, image, KERNEL_MAX_SIZE).Some?
    ensures BehindAt(FreeRun(s, a, image, KERNEL_MAX_SIZE).value, SizeRead(e, image) - e, e, image, KERNEL_MAX_SIZE)
    decreases SizeRead(e, image) - i
  {
    a := [];
    if i < SizeRead(e, image) - e {
      var t := Echo(s, i, e, image);
      var b := Echoes(t, i + 1, e, image);
      FreeRunThen(s, [DeviceTakes, HostReads], b, image, KERNEL_MAX_SIZE);
      a := [DeviceTakes, HostReads] + b;
    }
  }

  /** The device reads on as long as its END_ACK is missing. */
  lemma StillReading(c: seq<Byte>, max: nat)
    requires |c| >= 4 && WordOf(c[..4]) <= max && |c| <= 4 + WordOf(c[..4])
    ensures !After(c, max).Returned?
  {
  }

  /** The device takes the rest of a line that ends with an END_ACK in the right place, and returns. */
  lemma DrainAll(s: Session, x: seq<Byte>, image: seq<Byte>, max: nat) returns (a: seq<Action>)
    requires |image| < 0x1_0000_0000 && Lined(s, x, max) && 4 <= s.taken <= |x|
    requires WordOf(x[..4]) <= max && |x| == 5 + WordOf(x[..4]) && x[|x| - 1] == END_ACK
    ensures FreeRun(s, a, image, max).Some?
    ensures var d := FreeRun(s, a, image, max).value.device; d.Returned? && d.size == WordOf(x[..4])
  {
    forall t | s.taken <= t < |x| ensures !After(x[..t], max).Returned? {
      assert x[..t][..4] == x[..4];
      StillReading(x[..t], max);
    }
    a := Drain(s, x, |x| - s.taken, image, max);
    assert x[..|x|] == x;
  }

  /** The last bytes. */
  lemma Closing(s: Session, e: nat, image: seq<Byte>) returns (a: seq<Action>)
    requires |image| < 0x1_0000_0000 && 0 < e && Confusable(image, e) && e <= SizeRead(e, image)
    requires BehindAt(s, SizeRead(e, image) - e, e, image, KERNEL_MAX_SIZE)
    ensures FreeRun(s, a, image, KERNEL_MAX_SIZE).Some? && Wrong(FreeRun(s, a, image, KERNEL_MAX_SIZE).value, image)
  {
    var x, z := Stream(e, image, s.sent), Stream(e, image, |image|);
    SizeNeverFits(e, image);
    assert x + Finish(s.host) == x;
    assert x == z[..|x|];
    assert x[..4] == z[..4];
    a := DrainAll(s, x, image, KERNEL_MAX_SIZE);
  }

  lemma Mislead(e: nat, image: seq<Byte>) returns (a: seq<Action>)
    requires |image| < 0x1_0000_0000 && 0 < e && Confusable(image, e)
    ensures Misloads(a, image)
  {
    SizeNeverFits(e, image);
    a := Opening(e, image, KERNEL_MAX_SIZE);
    var s := FreeRun(Start(), a, image, KERNEL_MAX_SIZE).value;
    var b := Echoes(s, 0, e, image);
    var t := FreeRun(s, b, image, KERNEL_MAX_SIZE).value;
    var c := Closing(t, e, image);
    FreeRunThen(s, b, c, image, KERNEL_MAX_SIZE);
    FreeRunThen(Start(), a, b + c, image, KERNEL_MAX_SIZE);
    a := a + (b + c);
  }

  /** With timeouts at any moment some run makes the loader return a size other than zero without the
      image in its buffer if and only if the image imitates itself one or two bytes later. */
  lemma MisloadsIff(image: seq<Byte>)
    requires |image| < 0x1_0000_0000
    ensures (exists actions :: Misloads(actions, image)) <==> Confusable(image, 1) || Confusable(image, 2)
  {
    forall actions | Misloads(actions, image) ensures Confusable(image, 1) || Confusable(image, 2) {
      var s := FreeRun(Start(), actions, image, KERNEL_MAX_SIZE).value;
      assert FreeShaking(Start(), 0, KERNEL_MAX_SIZE);
      var e := FreeRunsKeep(Start(), 0, actions, image, KERNEL_MAX_SIZE);
      WrongMeansConfusable(s, e, image);
    }
    if Confusable(image, 1) { var a := Mislead(1, image); }
    if Confusable(image, 2) { var a := Mislead(2, image); }
  }

  /** No image of less than 64249 bytes can be mistaken. */
  lemma SmallImagesSafe(image: seq<Byte>, actions: seq<Action>)
    requires |image| < 0xFAF9
    ensures !Misloads(actions, image)
  {
    MisloadsIff(image);
    SizesRead(1, image);
    SizesRead(2, image);
  }

  /** But some images that fit can: 65536 bytes 1, 0, 1, 0, and so on, with an END_ACK in place 64248. */
  lemma SomeImageIsMistaken()
    ensures exists image: seq<Byte>, actions ::
              |image| <= KERNEL_MAX_SIZE && Misloads(actions, image)
  {
    var image: seq<Byte> := seq(0x1_0000, i => if i == 0xFAF8 then END_ACK else if i % 2 == 0 then 1 else 0);
    assert WordBytes(0x1_0000) == [0, 0, 1, 0];
    SizesRead(2, image);
    var x := Stream(2, image, |image|);
    assert x[4] == 1 && x[5] == 0;
    forall j | 0 <= j < 0xFAF8 ensures x[4 + j] == image[j] {
      if j >= 2 { assert x[4 + j] == image[j - 2]; }
    }
    assert x[4 + 0xFAFA] == image[0xFAF8];
    assert Confusable(image, 2);
    var actions := Mislead(2, image);
  }
}
