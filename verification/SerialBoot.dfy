/** The serial boot protocol: the loader on the device (src/serial_loader/loader.c), the sending
    script on the host (tools/serial_boot.py) and two reliable first-in first-out lines. */
module SerialBoot {
  import opened Wrappers
  import opened Bytes

  const INIT: Byte := 0xFA
  const INIT_ACK: Byte := 0xFB
  const END: Byte := 0xFC
  const END_ACK: Byte := 0xFD

  // ---- the device ----

  /** Where serial_load is. Returned(0, _) is a failure. */
  datatype Device =
    | Waiting
    | Sizing(got: seq<Byte>)
    | Loading(size: nat, buffer: seq<Byte>)
    | Ending(size: nat, buffer: seq<Byte>)
    | Returned(size: nat, buffer: seq<Byte>)

  /** Ready for the next data byte, or at the end when all are there: END goes out. */
  function Load(size: nat, buffer: seq<Byte>, out: seq<Byte>): (Device, seq<Byte>) {
    if |buffer| >= size then (Ending(size, buffer), out + [END]) else (Loading(size, buffer), out)
  }

  /** What the device does with a byte: its next state and the bytes it sends. */
  function Receive(d: Device, max: nat, b: Byte): (Device, seq<Byte>) {
    match d
    case Waiting => if b == INIT then (Sizing([]), [INIT_ACK]) else (Waiting, [])
    case Sizing(got) =>
      var bytes := got + [b];
      if |bytes| != 4 then (Sizing(bytes), [])
      else if WordOf(bytes) > max then (Returned(0, []), [])
      else Load(WordOf(bytes), [], [])
    case Loading(size, buffer) => Load(size, buffer + [b], [b])
    case Ending(size, buffer) => (Returned(if b == END_ACK then size else 0, buffer), [])
    case Returned(_, _) => (d, [])
  }

  /** What the device does with a stream of bytes, as long as it reads. */
  function Feed(d: Device, max: nat, input: seq<Byte>): (Device, seq<Byte>)
    decreases |input|
  {
    if input == [] || d.Returned? then (d, [])
    else
      var (d1, out) := Receive(d, max, input[0]);
      var (d2, more) := Feed(d1, max, input[1..]);
      (d2, out + more)
  }

  lemma FeedStep(d: Device, max: nat, input: seq<Byte>, i: nat, sent: seq<Byte>)
    requires i < |input| && !d.Returned?
    ensures var (d1, out) := Receive(d, max, input[i]);
            var (d2, more) := Feed(d1, max, input[i + 1..]);
            var (d3, all) := Feed(d, max, input[i..]);
            d2 == d3 && sent + all == (sent + out) + more
  {
    assert input[i..][1..] == input[i + 1..];
  }

  /** The bytes sent so far followed by what the rest of the input makes the device send. */
  predicate Joined(target: (Device, seq<Byte>), sent: seq<Byte>, rest: (Device, seq<Byte>)) {
    target.0 == rest.0 && target.1 == sent + rest.1
  }

  /** The loop that waits for the start signal. */
  method AwaitInit(max: nat, input: seq<Byte>) returns (i: nat)
    ensures i <= |input|
    ensures i == |input| ==> Feed(Waiting, max, input) == (Waiting, [])
    ensures i < |input| ==> Joined(Feed(Waiting, max, input), [INIT_ACK], Feed(Sizing([]), max, input[i + 1..]))
  {
    i := 0;
    assert input[0..] == input;
    while i < |input| && input[i] != INIT
      invariant i <= |input| && Joined(Feed(Waiting, max, input), [], Feed(Waiting, max, input[i..]))
    {
      FeedStep(Waiting, max, input, i, []);
      i := i + 1;
    }
    if i < |input| { FeedStep(Waiting, max, input, i, []); }
  }

  /** The read of the size, four bytes or as many as there are. */
  method ReceiveSize(max: nat, input: seq<Byte>) returns (got: seq<Byte>)
    ensures |got| <= 4 && |got| <= |input|
    ensures |got| < 4 ==> Feed(Sizing([]), max, input) == (Sizing(got), [])
    ensures |got| == 4 ==>
      var (d, out) := if WordOf(got) > max then (Returned(0, []), []) else Load(WordOf(got), [], []);
      Joined(Feed(Sizing([]), max, input), out, Feed(d, max, input[4..]))
  {
    got := [];
    assert input[0..] == input;
    while |got| < |input| && |got| < 3
      invariant |got| <= 3 && |got| <= |input|
      invariant Joined(Feed(Sizing([]), max, input), [], Feed(Sizing(got), max, input[|got|..]))
    {
      FeedStep(Sizing(got), max, input, |got|, []);
      got := got + [input[|got|]];
    }
    if |got| < |input| {
      FeedStep(Sizing(got), max, input, |got|, []);
      got := got + [input[|got|]];
    }
  }

  /** The loop that receives the data and echoes it. */
  method ReceiveData(buffer: array<Byte>, size: nat, max: nat, input: seq<Byte>) returns (n: nat)
    requires size <= buffer.Length
    modifies buffer
    ensures n <= size && n <= |input| && (n < size ==> n == |input|) && buffer[..n] == input[..n]
    ensures var (d, out) := Load(size, [], []);
            var (d1, out1) := Load(size, input[..n], input[..n]);
            Joined((Feed(d, max, input).0, out + Feed(d, max, input).1), out1, Feed(d1, max, input[n..]))
  {
    ghost var target := (Feed(Load(size, [], []).0, max, input).0, Load(size, [], []).1 + Feed(Load(size, [], []).0, max, input).1);
    n := 0;
    assert input[0..] == input;
    while n < size && n < |input|
      invariant n <= size && n <= |input| && buffer[..n] == input[..n]
      invariant Joined(target, Load(size, input[..n], input[..n]).1, Feed(Load(size, input[..n], []).0, max, input[n..]))
    {
      ghost var was := buffer[..n];
      FeedStep(Loading(size, input[..n]), max, input, n, input[..n]);
      assert input[..n] + [input[n]] == input[..n + 1];
      buffer[n] := input[n];
      assert buffer[..n + 1] == was + [input[n]];
      n := n + 1;
    }
  }

  /** serial_load on a stream of incoming bytes: what it returns (None while it still waits for a
      byte), what it has sent, and the start of the buffer. */
  method SerialLoad(buffer: array<Byte>, max: nat, input: seq<Byte>) returns (r: Option<nat>, out: seq<Byte>)
    requires max <= buffer.Length
    modifies buffer
    ensures var (d, sent) := Feed(Waiting, max, input);
            && out == sent
            && r == (if d.Returned? then Some(d.size) else None)
            && (d.Loading? || d.Ending? || d.Returned? ==> |d.buffer| <= buffer.Length && buffer[..|d.buffer|] == d.buffer)
  {
    var i := AwaitInit(max, input);
    if i == |input| { return None, []; }
    var rest := input[i + 1..];
    var got := ReceiveSize(max, rest);
    if |got| < 4 { return None, [INIT_ACK]; }
    var size := WordOf(got);
    if size > max { return Some(0), [INIT_ACK]; }
    var data := rest[4..];
    var n := ReceiveData(buffer, size, max, data);
    out := [INIT_ACK] + data[..n];
    if n == size {
      out := out + [END];
      assert out == [INIT_ACK] + (data[..n] + [END]);
    }
    r := None;
    if n == size && n < |data| {
      FeedStep(Ending(size, data[..n]), max, data, n, []);
      r := Some(if data[n] == END_ACK then size else 0);
    }
  }

  // ---- the host ----

  /** Where serial_send is: in the handshake, waiting for the echo of byte i, waiting for the end
      signal, done, or given up. */
  datatype Host = Handshake | Awaiting(i: nat) | Final | Success | Failed

  /** The next data byte goes out, or the script waits for the end signal. */
  function Send(image: seq<Byte>, i: nat): (Host, seq<Byte>) {
    if i < |image| then (Awaiting(i), [image[i]]) else (Final, [])
  }

  /** What the host does with the answer to a read: a byte, or None when the read times out. */
  function Answer(h: Host, image: seq<Byte>, r: Option<Byte>): (Host, seq<Byte>)
    requires |image| < 0x1_0000_0000
  {
    match h
    case Handshake =>
      if r == None || r == Some(INIT) then (Handshake, [INIT])
      else if r == Some(INIT_ACK) then
        var (h1, out) := Send(image, 0);
        (h1, WordBytes(|image|) + out)
      else (Handshake, [])
    case Awaiting(i) => if i < |image| && r == Some(image[i]) then Send(image, i + 1) else (Failed, [])
    case Final => if r == Some(END) then (Success, [END_ACK]) else (Failed, [])
    case Success => (h, [])
    case Failed => (h, [])
  }

  predicate Reading(h: Host) { !h.Success? && !h.Failed? }

  // ---- both of them and the lines ----

  /** The state of a session. The counters are bookkeeping: data bytes written by the host, bytes
      consumed by the device and by the host since the handshake. */
  datatype Session = Session(
    host: Host, device: Device, toDevice: seq<Byte>, toHost: seq<Byte>,
    sent: nat, taken: nat, read: nat)

  datatype Action = DeviceTakes | HostReads | HostTimesOut

  function Start(): Session { Session(Handshake, Waiting, [], [], 0, 0, 0) }

  /** No INIT is outstanding: none on the line and none being answered. */
  predicate Quiet(s: Session) { s.device.Waiting? && s.toDevice == [] && s.toHost == [] }

  /** What can happen. A read of the host may time out at any moment after the handshake. */
  predicate Enabled(s: Session, a: Action) {
    match a
    case DeviceTakes => s.toDevice != [] && !s.device.Returned?
    case HostReads => s.toHost != [] && Reading(s.host)
    case HostTimesOut => Reading(s.host)
  }

  /** The assumption on the handshake: a read times out only when no INIT is outstanding. */
  predicate OneInit(s: Session, a: Action) { a.HostTimesOut? && s.host.Handshake? ==> Quiet(s) }

  function DataBytes(h: Host): nat { if h.Awaiting? then 1 else 0 }

  function Step(s: Session, a: Action, image: seq<Byte>, max: nat): Session
    requires Enabled(s, a) && |image| < 0x1_0000_0000
  {
    match a
    case DeviceTakes =>
      var (d, out) := Receive(s.device, max, s.toDevice[0]);
      s.(device := d, toDevice := s.toDevice[1..], toHost := s.toHost + out,
         taken := if s.device.Waiting? then 0 else s.taken + 1)
    case HostReads =>
      var (h, out) := Answer(s.host, image, Some(s.toHost[0]));
      s.(host := h, toHost := s.toHost[1..], toDevice := s.toDevice + out,
         sent := s.sent + DataBytes(h), read := if s.host.Handshake? then 0 else s.read + 1)
    case HostTimesOut =>
      var (h, out) := Answer(s.host, image, None);
      s.(host := h, toDevice := s.toDevice + out)
  }

  // ---- the invariant ----

  /** Everything that the host writes after the handshake when it has sent some of the data. */
  function Written(s: Session, image: seq<Byte>): seq<Byte>
    requires |image| < 0x1_0000_0000 && s.sent <= |image|
  {
    WordBytes(|image|) + image[..s.sent] + if s.host.Success? then [END_ACK] else []
  }

  /** The device after that many of those bytes. */
  function DeviceAt(image: seq<Byte>, max: nat, taken: nat): Device
    requires |image| < 0x1_0000_0000
  {
    if taken < 4 then Sizing(WordBytes(|image|)[..taken])
    else if |image| > max then Returned(0, [])
    else if taken - 4 < |image| then Loading(|image|, image[..taken - 4])
    else if taken - 4 == |image| then Ending(|image|, image)
    else Returned(|image|, image)
  }

  /** What it has sent by then: the echoes, and the end signal after the last one. */
  function Echoed(image: seq<Byte>, max: nat, taken: nat): seq<Byte>
    requires |image| < 0x1_0000_0000
  {
    if taken < 4 || |image| > max then []
    else if taken - 4 < |image| then image[..taken - 4]
    else image + [END]
  }

  /** How far the host is. */
  predicate HostAt(s: Session, image: seq<Byte>) {
    match s.host
    case Handshake => false
    case Awaiting(i) => i < |image| && s.read == i && s.sent == i + 1
    case Final => s.read == |image| && s.sent == |image|
    case Success => s.read == |image| + 1 && s.sent == |image|
    case Failed => s.read <= s.sent <= s.read + 1
  }

  /** The lines hold what one side has sent and the other has not consumed. */
  predicate Streaming(s: Session, image: seq<Byte>, max: nat)
    requires |image| < 0x1_0000_0000
  {
    && s.sent <= |image| && HostAt(s, image)
    && s.taken <= |Written(s, image)| && s.toDevice == Written(s, image)[s.taken..]
    && s.device == DeviceAt(image, max, s.taken)
    && s.read <= |Echoed(image, max, s.taken)| && s.toHost == Echoed(image, max, s.taken)[s.read..]
    && (|image| > max ==> s.taken <= 4)
  }

  predicate Shaking(s: Session) {
    && s.host.Handshake? && s.sent == 0 && s.read == 0 && s.taken == 0
    && (Quiet(s) || (s.device.Waiting? && s.toDevice == [INIT] && s.toHost == [])
        || (s.device == Sizing([]) && s.toDevice == [] && s.toHost == [INIT_ACK]))
  }

  predicate Inv(s: Session, image: seq<Byte>, max: nat)
    requires |image| < 0x1_0000_0000
  {
    Shaking(s) || Streaming(s, image, max)
  }

  /** The byte number k of what the host writes. */
  function ByteAt(image: seq<Byte>, k: nat): Byte
    requires |image| < 0x1_0000_0000
  {
    if k < 4 then WordBytes(|image|)[k] else if k - 4 < |image| then image[k - 4] else END_ACK
  }

  /** What the device does with byte k. */
  lemma DeviceMoves(image: seq<Byte>, max: nat, k: nat)
    requires |image| < 0x1_0000_0000 && k <= |image| + 4 && (|image| > max ==> k < 4)
    ensures var (d, out) := Receive(DeviceAt(image, max, k), max, ByteAt(image, k));
            d == DeviceAt(image, max, k + 1) && Echoed(image, max, k + 1) == Echoed(image, max, k) + out
  {
    if k < 4 {
      var size := WordBytes(|image|);
      WordReadsBack(|image|);
      assert size[..k] + [size[k]] == size[..k + 1];
      assert size[..4] == size;
      assert k < 3 ==> |size[..k + 1]| != 4;
    } else if k - 4 < |image| {
      assert image[..k - 4] + [image[k - 4]] == image[..k - 3];
      assert image[..|image|] == image;
    }
  }

  lemma WrittenAt(s: Session, image: seq<Byte>, k: nat)
    requires |image| < 0x1_0000_0000 && s.sent <= |image| && k < |Written(s, image)|
    requires s.host.Success? ==> s.sent == |image|
    ensures Written(s, image)[k] == ByteAt(image, k)
  {
  }

  lemma DeviceKeeps(s: Session, image: seq<Byte>, max: nat)
    requires |image| < 0x1_0000_0000 && Streaming(s, image, max) && Enabled(s, DeviceTakes)
    ensures Streaming(Step(s, DeviceTakes, image, max), image, max)
  {
    var w, k, e := Written(s, image), s.taken, Echoed(image, max, s.taken);
    Taken(w, k);
    WrittenAt(s, image, k);
    DeviceMoves(image, max, k);
    var (d, out) := Receive(s.device, max, s.toDevice[0]);
    Appended(e, s.read, out);
    var t := Step(s, DeviceTakes, image, max);
    assert t == s.(device := d, toDevice := s.toDevice[1..], toHost := s.toHost + out, taken := k + 1);
    assert Written(t, image) == w;
  }

  /** The first byte on a line, and a line with more bytes. */
  lemma Taken(w: seq<Byte>, k: nat)
    requires k < |w|
    ensures w[k..][0] == w[k] && w[k..][1..] == w[k + 1..]
  {
  }

  lemma Appended(w: seq<Byte>, k: nat, out: seq<Byte>)
    requires k <= |w|
    ensures w[k..] + out == (w + out)[k..]
  {
  }

  /** What the host reads is what it expects: the echo of the byte it sent last, or the end signal. */
  lemma HostReadsExpected(s: Session, image: seq<Byte>, max: nat)
    requires |image| < 0x1_0000_0000 && Streaming(s, image, max) && Enabled(s, HostReads)
    ensures s.host.Awaiting? ==> s.toHost[0] == image[s.host.i]
    ensures s.host.Final? ==> s.toHost[0] == END
  {
    var e := Echoed(image, max, s.taken);
    assert s.toHost[0] == e[s.read];
  }

  lemma HostKeeps(s: Session, image: seq<Byte>, max: nat)
    requires |image| < 0x1_0000_0000 && Streaming(s, image, max) && Enabled(s, HostReads)
    ensures Streaming(Step(s, HostReads, image, max), image, max)
  {
    var t, w := Step(s, HostReads, image, max), Written(s, image);
    HostReadsExpected(s, image, max);
    var out := Answer(s.host, image, Some(s.toHost[0])).1;
    if s.host.Awaiting? && s.sent < |image| { assert image[..s.sent] + [image[s.sent]] == image[..s.sent + 1]; }
    assert Written(t, image) == w + out;
    Appended(w, s.taken, out);
    Taken(Echoed(image, max, s.taken), s.read);
  }

  /** The handshake: one INIT, one answer, then the size and the first data byte go out. */
  lemma ShakingKeeps(s: Session, a: Action, image: seq<Byte>, max: nat)
    requires |image| < 0x1_0000_0000 && Shaking(s) && Enabled(s, a) && OneInit(s, a)
    ensures Inv(Step(s, a, image, max), image, max)
  {
    var t := Step(s, a, image, max);
    if a.HostReads? {
      var size := WordBytes(|image|);
      assert size[..0] == [];
      if image != [] { assert image[..0] + [image[0]] == image[..1]; }
      assert Written(t, image) == t.toDevice;
    }
  }

  lemma StepKeeps(s: Session, a: Action, image: seq<Byte>, max: nat)
    requires |image| < 0x1_0000_0000 && Inv(s, image, max) && Enabled(s, a) && OneInit(s, a)
    ensures Inv(Step(s, a, image, max), image, max)
  {
    if s.host.Handshake? {
      ShakingKeeps(s, a, image, max);
    } else {
      match a
      case DeviceTakes => DeviceKeeps(s, image, max);
      case HostReads => HostKeeps(s, image, max);
      case HostTimesOut => assert Written(Step(s, a, image, max), image) == Written(s, image);
    }
  }

  // ---- runs ----

  /** The state after a sequence of actions, None when one of them cannot happen. */
  function Run(s: Session, actions: seq<Action>, image: seq<Byte>, max: nat): Option<Session>
    requires |image| < 0x1_0000_0000
    decreases |actions|
  {
    if actions == [] then Some(s)
    else if Enabled(s, actions[0]) && OneInit(s, actions[0]) then Run(Step(s, actions[0], image, max), actions[1..], image, max)
    else None
  }

  lemma {:induction false} RunsKeepInv(s: Session, actions: seq<Action>, image: seq<Byte>, max: nat)
    requires |image| < 0x1_0000_0000 && Inv(s, image, max)
    ensures Run(s, actions, image, max).Some? ==> Inv(Run(s, actions, image, max).value, image, max)
    decreases |actions|
  {
    if actions != [] && Enabled(s, actions[0]) && OneInit(s, actions[0]) {
      StepKeeps(s, actions[0], image, max);
      RunsKeepInv(Step(s, actions[0], image, max), actions[1..], image, max);
    }
  }

  /** The data that the device holds. */
  function Received(d: Device): seq<Byte> {
    if d.Loading? || d.Ending? || d.Returned? then d.buffer else []
  }

  /** Serial boot agreement, for every interleaving: what the device has received is the beginning of
      the image and of what was sent, at most one data byte is not yet echoed back, and the loader
      returns a size other than zero only when its buffer is the whole image; it does so only after
      the host has seen the end signal, and once the host has, the device holds the whole image. */
  lemma Agreement(actions: seq<Action>, image: seq<Byte>, max: nat)
    requires |image| < 0x1_0000_0000 && Run(Start(), actions, image, max).Some?
    ensures var s := Run(Start(), actions, image, max).value;
            && |Received(s.device)| <= s.sent <= |image| && Received(s.device) == image[..|Received(s.device)|]
            && (!s.host.Handshake? ==> s.sent <= s.read + 1)
            && (s.device.Returned? && s.device.size != 0 ==>
                  s.device.size == |image| && s.device.buffer == image && s.host.Success?)
            && (s.host.Success? ==> Received(s.device) == image)
  {
    RunsKeepInv(Start(), actions, image, max);
  }

  /** The host gives up only when a read times out: an answer it does read is the expected one. */
  lemma OnlyTimeoutsFail(actions: seq<Action>, a: Action, image: seq<Byte>, max: nat)
    requires |image| < 0x1_0000_0000 && Run(Start(), actions, image, max).Some?
    requires var s := Run(Start(), actions, image, max).value;
             Enabled(s, a) && OneInit(s, a) && !s.host.Failed? && Step(s, a, image, max).host.Failed?
    ensures a.HostTimesOut?
  {
    RunsKeepInv(Start(), actions, image, max);
    var s := Run(Start(), actions, image, max).value;
    if a.HostReads? && !s.host.Handshake? { HostReadsExpected(s, image, max); }
  }

  predicate Finished(s: Session, image: seq<Byte>) {
    s.host.Success? && s.device == Returned(|image|, image)
  }

  /** An image that fits never gets stuck: as long as the host has not given up and the session is
      not over, one side has a byte to take, or the host is about to send its INIT. */
  lemma NeverStuck(s: Session, image: seq<Byte>, max: nat)
    requires |image| < 0x1_0000_0000 && Inv(s, image, max) && |image| <= max && !s.host.Failed? && !Finished(s, image)
    ensures if Quiet(s) && s.host.Handshake? then OneInit(s, HostTimesOut) && Enabled(s, HostTimesOut)
            else Enabled(s, DeviceTakes) || Enabled(s, HostReads)
  {
    if !s.host.Handshake? && s.toDevice == [] && s.taken >= 4 {
      assert s.taken == |Written(s, image)|;
    }
  }

  /** How many actions are left at most. */
  function Left(s: Session, image: seq<Byte>): int {
    var host := match s.host
                case Handshake => |image| + if Quiet(s) then 3 else 2
                case Awaiting(i) => |image| - i + 1
                case Final => 1
                case _ => 0;
    host + if s.device.Waiting? then |image| + 6 else |image| + 5 - s.taken
  }

  lemma LeftNotNegative(s: Session, image: seq<Byte>, max: nat)
    requires |image| < 0x1_0000_0000 && Inv(s, image, max)
    ensures 0 <= Left(s, image)
  {
    if !s.host.Handshake? { assert |Written(s, image)| <= |image| + 5; }
  }

  lemma HostDecreases(s: Session, image: seq<Byte>, max: nat)
    requires |image| < 0x1_0000_0000 && Streaming(s, image, max) && Enabled(s, HostReads)
    ensures Left(Step(s, HostReads, image, max), image) < Left(s, image)
  {
    HostReadsExpected(s, image, max);
  }

  lemma DeviceDecreases(s: Session, image: seq<Byte>, max: nat)
    requires |image| < 0x1_0000_0000 && Streaming(s, image, max) && Enabled(s, DeviceTakes)
    ensures Left(Step(s, DeviceTakes, image, max), image) < Left(s, image)
  {
    DeviceKeeps(s, image, max);
  }

  lemma ShakingDecreases(s: Session, a: Action, image: seq<Byte>, max: nat)
    requires |image| < 0x1_0000_0000 && Shaking(s) && Enabled(s, a) && OneInit(s, a)
    ensures Left(Step(s, a, image, max), image) < Left(s, image)
  {
  }

  /** Every action but a timeout that makes the host give up brings the session nearer to its end. */
  lemma StepsDecrease(s: Session, a: Action, image: seq<Byte>, max: nat)
    requires |image| < 0x1_0000_0000 && Inv(s, image, max) && Enabled(s, a) && OneInit(s, a)
    requires a.HostTimesOut? ==> s.host.Handshake?
    ensures 0 <= Left(Step(s, a, image, max), image) < Left(s, image)
  {
    StepKeeps(s, a, image, max);
    LeftNotNegative(Step(s, a, image, max), image, max);
    if s.host.Handshake? {
      ShakingDecreases(s, a, image, max);
    } else {
      match a
      case DeviceTakes => DeviceDecreases(s, image, max);
      case HostReads => HostDecreases(s, image, max);
    }
  }

  predicate Calm(actions: seq<Action>, s: Session, image: seq<Byte>, max: nat)
    requires |image| < 0x1_0000_0000
    decreases |actions|
  {
    actions == [] ||
    (&& (actions[0].HostTimesOut? ==> s.host.Handshake?)
     && (Enabled(s, actions[0]) ==> Calm(actions[1..], Step(s, actions[0], image, max), image, max)))
  }

  lemma {:induction false} CalmRunsEnd(s: Session, actions: seq<Action>, image: seq<Byte>, max: nat)
    requires |image| < 0x1_0000_0000 && Inv(s, image, max) && 0 <= Left(s, image)
    requires Run(s, actions, image, max).Some? && Calm(actions, s, image, max) && !s.host.Failed?
    ensures |actions| <= Left(s, image) && !Run(s, actions, image, max).value.host.Failed?
    decreases |actions|
  {
    if actions != [] {
      StepsDecrease(s, actions[0], image, max);
      StepKeeps(s, actions[0], image, max);
      if actions[0].HostReads? && !s.host.Handshake? { HostReadsExpected(s, image, max); }
      CalmRunsEnd(Step(s, actions[0], image, max), actions[1..], image, max);
    }
  }

  /** A run without failing timeouts that cannot go on has booted: the loader has returned the size
      of the image and holds it. */
  lemma CompleteRunsBoot(actions: seq<Action>, image: seq<Byte>, max: nat)
    requires |image| < 0x1_0000_0000 && |image| <= max
    requires Run(Start(), actions, image, max).Some? && Calm(actions, Start(), image, max)
    ensures |actions| <= 2 * |image| + 9
    ensures var s := Run(Start(), actions, image, max).value;
            || Finished(s, image)
            || (if Quiet(s) && s.host.Handshake? then Enabled(s, HostTimesOut)
                else Enabled(s, DeviceTakes) || Enabled(s, HostReads))
  {
    RunsKeepInv(Start(), actions, image, max);
    CalmRunsEnd(Start(), actions, image, max);
    var s := Run(Start(), actions, image, max).value;
    if !Finished(s, image) { NeverStuck(s, image, max); }
  }

  // ---- why one INIT ----

  /** With a second INIT on the line the device takes it for the first byte of the size: the state
      after two timeouts, one answer and a complete size field. */
  lemma TwoInitsBreakTheSize(image: seq<Byte>, max: nat)
    requires |image| < 0x1_0000_0000 && image != []
    ensures var s1 := Step(Start(), HostTimesOut, image, max);
            var s2 := Step(s1, HostTimesOut, image, max);
            var s3 := Step(s2, DeviceTakes, image, max);
            var s4 := Step(s3, HostReads, image, max);
            && !OneInit(s1, HostTimesOut)
            && s4.host == Awaiting(0)
            && s4.toDevice == [INIT] + WordBytes(|image|) + [image[0]]
            && s4.device == Sizing([])
  {
  }

  lemma LowByte(a: int, x: int, b: int, y: int)
    requires 0 <= a < 0x100 && 0 <= b < 0x100 && a + 0x100 * x == b + 0x100 * y
    ensures a == b && x == y
  {
  }

  /** Two words are equal iff their bytes are. */
  lemma WordsEqual(s: seq<Byte>, t: seq<Byte>)
    requires |s| == 4 && |t| == 4 && WordOf(s) == WordOf(t)
    ensures s == t
  {
    var a0: int, a1: int, a2: int, a3: int := s[0], s[1], s[2], s[3];
    var b0: int, b1: int, b2: int, b3: int := t[0], t[1], t[2], t[3];
    LowByte(a0, a1 + 0x100 * (a2 + 0x100 * a3), b0, b1 + 0x100 * (b2 + 0x100 * b3));
    LowByte(a1, a2 + 0x100 * a3, b1, b2 + 0x100 * b3);
    LowByte(a2, a3, b2, b3);
  }

  /** The size that the device then reads is that of the image only when all four bytes of the size
      are INIT themselves. */
  lemma ShiftedSizeIsWrong(n: nat)
    requires n < 0x1_0000_0000
    ensures WordOf(([INIT] + WordBytes(n))[..4]) == n <==> n == 0xFAFA_FAFA
  {
    var b := WordBytes(n);
    var shifted := ([INIT] + b)[..4];
    WordReadsBack(n);
    assert shifted == [INIT, b[0], b[1], b[2]];
    if WordOf(shifted) == n { WordsEqual(shifted, b); }
  }
}
