/** The sequence-numbered AES-GCM channel of apps/native-host/crypto.

    AES-GCM itself is a parameter (`Aead`); what is proved about a run of the channel rests on two
    stated properties of it: opening inverts sealing (`Gcm`), and no ciphertext opens under an IV
    unless an honest end put it on the wire under that IV (`NotForged`). */
module SecureChannel {
  import opened Bytes

  const SESSION_KEY_SIZE := 32
  const AUTH_TAG_SIZE := 16
  const SEQUENCE_SIZE := 8
  const IV_SIZE := 12

  datatype Aead = Aead(seal: (Bits, Bits, Bits) -> Bits, open: (Bits, Bits, Bits) -> Option<Bits>)

  ghost predicate Gcm(a: Aead) {
    forall key, iv, p ::
      |a.seal(key, iv, p)| == |p| + AUTH_TAG_SIZE && a.open(key, iv, a.seal(key, iv, p)) == Some(p)
  }

  // ---------------------------------------------------------------- initialisation vectors

  function BuildIV(direction: byte, seqNum: nat): (iv: Bits)
    ensures |iv| == IV_SIZE
  {
    [direction, 0, 0, 0] + BigEndian(seqNum, 8)
  }

  /** Four bytes of fixed field, the direction first, then the number, most significant byte first. */
  lemma IVLayout(direction: byte, seqNum: nat)
    requires seqNum < TWO64
    ensures var iv := BuildIV(direction, seqNum);
            && iv[0] == direction && iv[1] == iv[2] == iv[3] == 0
            && FromBigEndian(iv[4..]) == seqNum && iv[11] == seqNum % 256
  {
    assert BuildIV(direction, seqNum)[4..] == BigEndian(seqNum, 8);
    SequenceFieldRoundTrip(seqNum);
    ByteOrder(seqNum, 7);
  }

  /** Two frames share an IV only if they share both direction and sequence number. */
  lemma BuildIVInjective(d: byte, m: nat, e: byte, n: nat)
    requires m < TWO64 && n < TWO64
    ensures BuildIV(d, m) == BuildIV(e, n) <==> d == e && m == n
  {
    if BuildIV(d, m) == BuildIV(e, n) {
      assert BuildIV(d, m)[0] == BuildIV(e, n)[0];
      assert BuildIV(d, m)[4..] == BigEndian(m, 8) && BuildIV(e, n)[4..] == BigEndian(n, 8);
      SequenceFieldRoundTrip(m);
      SequenceFieldRoundTrip(n);
    }
  }

  lemma SequenceFieldRoundTrip(n: nat)
    requires n < TWO64
    ensures FromBigEndian(BigEndian(n, 8)) == n
  {
    Pow256Values();
    BigEndianRoundTrip(n, 8);
  }

  /** binary.BigEndian.PutUint64 into a slice of a buffer. */
  method PutUint64(buf: array<byte>, offset: nat, v: nat)
    requires offset + 8 <= buf.Length
    modifies buf
    ensures buf[..] == old(buf[..offset]) + BigEndian(v, 8) + old(buf[offset + 8..])
  {
    var i, rest := 8, v;
    ghost var before := buf[..];
    while i > 0
      invariant 0 <= i <= 8
      invariant buf[..offset + i] == before[..offset + i]
      invariant buf[offset + 8..] == before[offset + 8..]
      invariant BigEndian(v, 8) == BigEndian(rest, i) + buf[offset + i..offset + 8]
    {
      ghost var tail := buf[offset + i..offset + 8];
      assert BigEndian(rest, i) == BigEndian(rest / 256, i - 1) + [rest % 256];
      buf[offset + i - 1] := rest % 256;
      assert buf[offset + i - 1..offset + 8] == [rest % 256] + tail;
      i, rest := i - 1, rest / 256;
    }
    assert buf[offset..offset + 8] == BigEndian(v, 8);
    assert buf[..] == buf[..offset] + buf[offset..offset + 8] + buf[offset + 8..];
  }

  /** buildIV: fills a zeroed 12-byte buffer in place. */
  method FillIV(direction: byte, seqNum: nat) returns (iv: array<byte>)
    ensures fresh(iv) && iv[..] == BuildIV(direction, seqNum)
  {
    iv := new byte[IV_SIZE](_ => 0);
    iv[0] := direction;
    assert iv[..4] == [direction, 0, 0, 0] && iv[12..] == [];
    PutUint64(iv, 4, seqNum);
    assert iv[..] == [direction, 0, 0, 0] + BigEndian(seqNum, 8) + [];
  }

  // ---------------------------------------------------------------- frames

  datatype DecryptResult =
    | Plain(text: Bits, seqNum: nat)
    | BadKeySize
    | BadFormat
    | Replay
    | SequenceGap
    | AuthFailed

  function EncryptWithDirection(a: Aead, key: Bits, plaintext: Bits, seqNum: nat, direction: byte): (wire: Option<Bits>)
    ensures wire.None? <==> |key| != SESSION_KEY_SIZE
  {
    if |key| != SESSION_KEY_SIZE then None
    else Some(BigEndian(seqNum, 8) + a.seal(key, BuildIV(direction, seqNum), plaintext))
  }

  function DecryptWithDirection(a: Aead, key: Bits, wire: Bits, expected: nat, direction: byte): (r: DecryptResult)
    ensures r.Plain? ==> r.seqNum == expected
  {
    if |key| != SESSION_KEY_SIZE then BadKeySize
    else if |wire| < SEQUENCE_SIZE + AUTH_TAG_SIZE then BadFormat
    else
      var seqNum := FromBigEndian(wire[..SEQUENCE_SIZE]);
      if seqNum < expected then Replay
      else if seqNum > expected then SequenceGap
      else
        match a.open(key, BuildIV(direction, seqNum), wire[SEQUENCE_SIZE..])
        case Some(p) => Plain(p, seqNum)
        case None => AuthFailed
  }

  /** A genuine frame: delivered exactly when its number is the expected one, and otherwise
      classified as a replay or a gap by that number alone. */
  lemma FrameRoundTrip(a: Aead, key: Bits, p: Bits, n: nat, d: byte, expected: nat)
    requires Gcm(a) && |key| == SESSION_KEY_SIZE && n < TWO64
    ensures var r := DecryptWithDirection(a, key, EncryptWithDirection(a, key, p, n, d).value, expected, d);
            r == if n == expected then Plain(p, n) else if n < expected then Replay else SequenceGap
  {
    var sealed := a.seal(key, BuildIV(d, n), p);
    var wire := BigEndian(n, 8) + sealed;
    assert |sealed| == |p| + AUTH_TAG_SIZE;
    assert wire[..SEQUENCE_SIZE] == BigEndian(n, 8) && wire[SEQUENCE_SIZE..] == sealed;
    SequenceFieldRoundTrip(n);
  }

  /** Any other frame of sufficient length, under a key of the right size: its number alone makes it
      a replay or a gap; with the expected number it is delivered as what it opens to, and one that
      does not open is a failed authentication, not a gap. */
  lemma ForeignFrame(a: Aead, key: Bits, n: nat, sealed: Bits, expected: nat, d: byte)
    requires |key| == 32 && n < TWO64 && |sealed| >= 16
    ensures var r := DecryptWithDirection(a, key, BigEndian(n, 8) + sealed, expected, d);
            && (n < expected ==> r == Replay)
            && (n > expected ==> r == SequenceGap)
            && (n == expected ==>
                  match a.open(key, BuildIV(d, n), sealed)
                  case Some(p) => r == Plain(p, n)
                  case None => r == AuthFailed)
  {
    var wire := BigEndian(n, 8) + sealed;
    assert wire[..8] == BigEndian(n, 8) && wire[8..] == sealed;
    SequenceFieldRoundTrip(n);
  }

  /** A key of the wrong size or a frame shorter than number and tag is refused before anything else. */
  lemma MalformedFrame(a: Aead, key: Bits, wire: Bits, expected: nat, d: byte)
    ensures |key| != 32 ==> DecryptWithDirection(a, key, wire, expected, d) == BadKeySize
    ensures |key| == 32 && |wire| < 24 ==> DecryptWithDirection(a, key, wire, expected, d) == BadFormat
  {}

  // ---------------------------------------------------------------- sequence counters

  datatype Counters = Counters(outbound: nat, inbound: nat)
  {
    function Next(): (c: Counters) { Counters((outbound + 1) % TWO64, inbound) }

    function Advanced(): (c: Counters) { Counters(outbound, (inbound + 1) % TWO64) }

    function Reverted(n: nat): (c: Counters) { if n < outbound then Counters(n, inbound) else this }
  }

  /** A failed write gives its sequence number back, except at the wrap of the 64-bit counter,
      where the comparison in RevertOutbound no longer sees the increment. */
  lemma RevertUndoesNext(c: Counters)
    requires c.outbound < TWO64
    ensures c.Next().Reverted(c.outbound) == c <==> c.outbound + 1 < TWO64
  {}

  class SequenceTracker {
    var outbound: nat
    var inbound: nat

    ghost function State(): (r: Counters) reads this { Counters(outbound, inbound) }

    constructor ()
      ensures State() == Counters(0, 0)
    {
      outbound, inbound := 0, 0;
    }

    method NextOutbound() returns (n: nat)
      modifies this
      ensures n == old(outbound) && State() == old(State()).Next()
    {
      n := outbound;
      outbound := (outbound + 1) % TWO64;
    }

    method RevertOutbound(n: nat)
      modifies this
      ensures State() == old(State()).Reverted(n)
    {
      if n < outbound {
        outbound := n;
      }
    }

    method AdvanceInbound()
      modifies this
      ensures State() == old(State()).Advanced()
    {
      inbound := (inbound + 1) % TWO64;
    }

    method Reset()
      modifies this
      ensures State() == Counters(0, 0)
    {
      outbound, inbound := 0, 0;
    }

    method Clone() returns (copy: SequenceTracker)
      ensures fresh(copy) && copy.State() == State()
    {
      copy := new SequenceTracker();
      copy.outbound, copy.inbound := outbound, inbound;
    }
  }

  // ---------------------------------------------------------------- runs on one key

  datatype Side = Host | Device
  {
    function Other(): (r: Side) { if Host? then Device else Host }
    function Direction(): (r: byte) { if Host? then 0 else 1 }
  }

  /** A frame put on the wire: the number it was given, its payload and its bytes. */
  datatype Frame = Frame(seqNum: nat, payload: Bits, wire: Bits)

  /** One end of the channel: its counters, the frames it wrote successfully, what it delivered
      upwards. */
  datatype Peer = Peer(counters: Counters, log: seq<Frame>, delivered: seq<Bits>)
  {
    function Sent(): (r: seq<Bits>)
      ensures |r| == |log| && forall i :: 0 <= i < |r| ==> r[i] == log[i].payload
    {
      seq(|log|, i requires 0 <= i < |log| => log[i].payload)
    }
  }

  datatype Link = Link(host: Peer, device: Peer)
  {
    function At(s: Side): (r: Peer) { if s.Host? then host else device }
    function With(s: Side, p: Peer): (r: Link) { if s.Host? then Link(p, device) else Link(host, p) }
  }

  /** A side writes a payload (the write may fail and then leaves nothing on the wire), or the
      network hands a side an arbitrary byte string. */
  datatype Event = Write(from: Side, payload: Bits, ok: bool) | Arrive(to: Side, wire: Bits)

  const NEW_PEER := Peer(Counters(0, 0), [], [])

  /** Take a number, seal under it, write; a failed write gives the number back, a failed sealing
      does not. */
  function WriteStep(a: Aead, key: Bits, p: Peer, payload: Bits, ok: bool, direction: byte): (r: Peer) {
    var n, taken := p.counters.outbound, p.counters.Next();
    match EncryptWithDirection(a, key, payload, n, direction)
    case None => p.(counters := taken)
    case Some(wire) =>
      if ok then p.(counters := taken, log := p.log + [Frame(n, payload, wire)])
      else p.(counters := taken.Reverted(n))
  }

  function ArriveStep(a: Aead, key: Bits, p: Peer, wire: Bits, direction: byte): (r: Peer) {
    match DecryptWithDirection(a, key, wire, p.counters.inbound, direction)
    case Plain(text, _) => p.(counters := p.counters.Advanced(), delivered := p.delivered + [text])
    case _ => p
  }

  function Step(a: Aead, key: Bits, l: Link, e: Event): (r: Link) {
    match e
    case Write(from, payload, ok) => l.With(from, WriteStep(a, key, l.At(from), payload, ok, from.Direction()))
    case Arrive(to, wire) => l.With(to, ArriveStep(a, key, l.At(to), wire, to.Other().Direction()))
  }

  function After(a: Aead, key: Bits, events: seq<Event>): (r: Link) {
    if events == [] then Link(NEW_PEER, NEW_PEER)
    else Step(a, key, After(a, key, events[..|events| - 1]), events[|events| - 1])
  }

  /** Some side put a frame on the wire that seals p under this IV. */
  ghost predicate OnWire(l: Link, iv: Bits, p: Bits) {
    exists s: Side, i: nat :: i < |l.At(s).log| && l.At(s).log[i].payload == p &&
      iv == BuildIV(s.Direction(), l.At(s).log[i].seqNum)
  }

  /** Ciphertext integrity: whatever the bytes after the header open to, under whatever IV, was
      put on the wire by an honest end under that IV. Loss, duplication, reordering, reflection,
      truncation and a rewritten header are all allowed. */
  ghost predicate NotForged(a: Aead, key: Bits, l: Link, wire: Bits) {
    |wire| >= SEQUENCE_SIZE ==>
      forall iv, p :: a.open(key, iv, wire[SEQUENCE_SIZE..]) == Some(p) ==> OnWire(l, iv, p)
  }

  ghost predicate Unforged(a: Aead, key: Bits, events: seq<Event>) {
    forall i :: 0 <= i < |events| && events[i].Arrive? ==>
      NotForged(a, key, After(a, key, events[..i]), events[i].wire)
  }

  /** The frames of a side carry the numbers 0, 1, 2, ... in the order they were written, each the
      encryption of its payload under its number, and the counter stands at the next number. */
  ghost predicate Contiguous(a: Aead, key: Bits, p: Peer, direction: byte) {
    && p.counters.outbound == |p.log|
    && forall i :: 0 <= i < |p.log| ==>
         p.log[i].seqNum == i && EncryptWithDirection(a, key, p.log[i].payload, i, direction) == Some(p.log[i].wire)
  }

  /** What every step keeps for the traffic out of side s: contiguous numbers on the way out, and
      on the way in exactly the delivered prefix counted. */
  ghost predicate Ordered(a: Aead, key: Bits, l: Link, s: Side) {
    && Contiguous(a, key, l.At(s), s.Direction())
    && l.At(s.Other()).counters.inbound == |l.At(s.Other()).delivered|
    && l.At(s.Other()).delivered <= l.At(s).Sent()
  }

  /** The IV names the write: at most one payload of an unwrapped run is sealed under it. */
  lemma WireEntryOf(a: Aead, key: Bits, l: Link, from: Side, n: nat, p: Bits)
    requires OnWire(l, BuildIV(from.Direction(), n), p)
    requires Ordered(a, key, l, Host) && Ordered(a, key, l, Device)
    requires n < TWO64 && |l.host.log| < TWO64 && |l.device.log| < TWO64
    ensures n < |l.At(from).log| && p == l.At(from).log[n].payload
  {
    var s: Side, i: nat :|
      i < |l.At(s).log| && l.At(s).log[i].payload == p
      && BuildIV(from.Direction(), n) == BuildIV(s.Direction(), l.At(s).log[i].seqNum);
    assert Ordered(a, key, l, s);
    BuildIVInjective(from.Direction(), n, s.Direction(), i);
  }

  /** The crux: a frame that opens at the expected number carries the payload of the frame that
      was written with that number. */
  lemma OpenedFrameIsNextPayload(a: Aead, key: Bits, l: Link, to: Side, wire: Bits)
    requires NotForged(a, key, l, wire) && l.At(to).counters.inbound < TWO64
    requires Ordered(a, key, l, Host) && Ordered(a, key, l, Device)
    requires |l.host.log| < TWO64 && |l.device.log| < TWO64
    ensures var n := l.At(to).counters.inbound;
            var r := DecryptWithDirection(a, key, wire, n, to.Other().Direction());
            r.Plain? ==> n < |l.At(to.Other()).log| && r.text == l.At(to.Other()).log[n].payload
  {
    var n := l.At(to).counters.inbound;
    var r := DecryptWithDirection(a, key, wire, n, to.Other().Direction());
    if r.Plain? {
      WireEntryOf(a, key, l, to.Other(), n, r.text);
    }
  }

  lemma ArrivalKeepsOrder(a: Aead, key: Bits, l: Link, to: Side, wire: Bits)
    requires Ordered(a, key, l, Host) && Ordered(a, key, l, Device) && NotForged(a, key, l, wire)
    requires |l.host.log| < TWO64 && |l.device.log| < TWO64
    ensures var l' := Step(a, key, l, Arrive(to, wire));
            && Ordered(a, key, l', Host) && Ordered(a, key, l', Device)
            && l'.host.log == l.host.log && l'.device.log == l.device.log
  {
    assert Ordered(a, key, l, to.Other());
    OpenedFrameIsNextPayload(a, key, l, to, wire);
    DeliveryKeepsPrefix(a, key, l, to, wire);
    assert Step(a, key, l, Arrive(to, wire)).At(to.Other()) == l.At(to.Other());
  }

  lemma DeliveryKeepsPrefix(a: Aead, key: Bits, l: Link, to: Side, wire: Bits)
    requires |l.At(to.Other()).log| < TWO64 && Ordered(a, key, l, to.Other())
    requires var n := l.At(to).counters.inbound;
             var r := DecryptWithDirection(a, key, wire, n, to.Other().Direction());
             r.Plain? ==> n < |l.At(to.Other()).log| && r.text == l.At(to.Other()).log[n].payload
    ensures var p := ArriveStep(a, key, l.At(to), wire, to.Other().Direction());
            && p.counters.inbound == |p.delivered| && p.delivered <= l.At(to.Other()).Sent()
            && p.counters.outbound == l.At(to).counters.outbound && p.log == l.At(to).log
  {}

  lemma WriteKeepsOrder(a: Aead, key: Bits, l: Link, from: Side, payload: Bits, ok: bool)
    requires |key| == SESSION_KEY_SIZE
    requires Ordered(a, key, l, Host) && Ordered(a, key, l, Device) && |l.At(from).log| + 1 < TWO64
    ensures var l' := Step(a, key, l, Write(from, payload, ok));
            && Ordered(a, key, l', Host) && Ordered(a, key, l', Device)
            && |l'.At(from).log| <= |l.At(from).log| + 1
            && l'.At(from.Other()).log == l.At(from.Other()).log
  {
    assert Ordered(a, key, l, from);
    RevertUndoesNext(l.At(from).counters);
    var l' := Step(a, key, l, Write(from, payload, ok));
    assert Contiguous(a, key, l'.At(from), from.Direction());
    assert l.At(from).Sent() <= l'.At(from).Sent();
  }

  lemma UnforgedPrefix(a: Aead, key: Bits, events: seq<Event>, n: nat)
    requires Unforged(a, key, events) && n <= |events|
    ensures Unforged(a, key, events[..n])
  {
    forall i | 0 <= i < n && events[..n][i].Arrive?
      ensures NotForged(a, key, After(a, key, events[..n][..i]), events[..n][i].wire)
    {
      assert events[..n][..i] == events[..i];
    }
  }

  lemma {:induction false} RunOrdered(a: Aead, key: Bits, events: seq<Event>)
    requires |key| == SESSION_KEY_SIZE && Unforged(a, key, events) && |events| < TWO64
    ensures var l := After(a, key, events);
            && Ordered(a, key, l, Host) && Ordered(a, key, l, Device)
            && |l.host.log| <= |events| && |l.device.log| <= |events|
  {
    if events != [] {
      var n := |events| - 1;
      var l := After(a, key, events[..n]);
      UnforgedPrefix(a, key, events, n);
      RunOrdered(a, key, events[..n]);
      match events[n]
      case Arrive(to, wire) => ArrivalKeepsOrder(a, key, l, to, wire);
      case Write(from, payload, ok) => WriteKeepsOrder(a, key, l, from, payload, ok);
    }
  }

  /** A key of any other size neither seals nor opens. */
  lemma {:induction false} BadKeyIsSilent(a: Aead, key: Bits, events: seq<Event>)
    requires |key| != SESSION_KEY_SIZE
    ensures var l := After(a, key, events);
            l.host.log == l.device.log == [] && l.host.delivered == l.device.delivered == []
  {
    if events != [] {
      BadKeyIsSilent(a, key, events[..|events| - 1]);
    }
  }

  /** Contiguous numbers: in every such run the i-th frame a side put on the wire carries number i,
      however many writes failed in between. */
  lemma NumbersAreContiguous(a: Aead, key: Bits, events: seq<Event>, s: Side, i: nat)
    requires Unforged(a, key, events) && |events| < TWO64
    requires i < |After(a, key, events).At(s).log|
    ensures var f := After(a, key, events).At(s).log[i];
            f.seqNum == i && EncryptWithDirection(a, key, f.payload, i, s.Direction()) == Some(f.wire)
  {
    if |key| == SESSION_KEY_SIZE {
      RunOrdered(a, key, events);
      assert Ordered(a, key, After(a, key, events), s);
    } else {
      BadKeyIsSilent(a, key, events);
    }
  }

  /** In-order, at-most-once delivery. In every run of fewer than 2^64 events in which nothing is
      forged, what each end delivered is a prefix of what the other end wrote successfully. */
  lemma DeliveredIsPrefixOfSent(a: Aead, key: Bits, events: seq<Event>)
    requires Unforged(a, key, events) && |events| < TWO64
    ensures After(a, key, events).host.delivered <= After(a, key, events).device.Sent()
    ensures After(a, key, events).device.delivered <= After(a, key, events).host.Sent()
  {
    if |key| == SESSION_KEY_SIZE {
      RunOrdered(a, key, events);
      assert Ordered(a, key, After(a, key, events), Host) && Ordered(a, key, After(a, key, events), Device);
    } else {
      BadKeyIsSilent(a, key, events);
    }
  }

  /** No stall: after any such run, the bytes the other side wrote as its i-th frame extend the
      delivered prefix by exactly their payload when that frame is the next one, and change nothing
      otherwise. */
  lemma GenuineFrameArrives(a: Aead, key: Bits, events: seq<Event>, to: Side, i: nat)
    requires Gcm(a) && Unforged(a, key, events) && |events| < TWO64
    requires i < |After(a, key, events).At(to.Other()).log|
    ensures var l := After(a, key, events);
            var sender := l.At(to.Other());
            var l' := Step(a, key, l, Arrive(to, sender.log[i].wire));
            if i == |l.At(to).delivered| then l'.At(to).delivered == sender.Sent()[..i + 1] else l' == l
  {
    if |key| == SESSION_KEY_SIZE {
      RunOrdered(a, key, events);
      GenuineStep(a, key, After(a, key, events), to, i);
    } else {
      BadKeyIsSilent(a, key, events);
    }
  }

  lemma GenuineStep(a: Aead, key: Bits, l: Link, to: Side, i: nat)
    requires Gcm(a) && |key| == SESSION_KEY_SIZE
    requires Ordered(a, key, l, to.Other()) && i < |l.At(to.Other()).log| && i < TWO64
    ensures var sender := l.At(to.Other());
            var l' := Step(a, key, l, Arrive(to, sender.log[i].wire));
            if i == |l.At(to).delivered| then l'.At(to).delivered == sender.Sent()[..i + 1] else l' == l
  {
    FrameRoundTrip(a, key, l.At(to.Other()).log[i].payload, i, to.Other().Direction(), l.At(to).counters.inbound);
  }

  // ---------------------------------------------------------------- the assumptions can be met

  /** A tag that names the IV. */
  function TagOf(iv: Bits): (tag: Bits)
    ensures |tag| == AUTH_TAG_SIZE
  {
    if |iv| == IV_SIZE then iv + [0, 0, 0, 0] else seq(AUTH_TAG_SIZE, _ => 255)
  }

  const TOY := Aead((key: Bits, iv: Bits, p: Bits) => p + TagOf(iv),
                    (key: Bits, iv: Bits, c: Bits) =>
                      if |c| >= AUTH_TAG_SIZE && c[|c| - AUTH_TAG_SIZE..] == TagOf(iv)
                      then Some(c[..|c| - AUTH_TAG_SIZE]) else None)

  lemma ToyIsGcm()
    ensures Gcm(TOY)
  {
    forall key, iv, p
      ensures |TOY.seal(key, iv, p)| == |p| + AUTH_TAG_SIZE && TOY.open(key, iv, TOY.seal(key, iv, p)) == Some(p)
    {
      var c := p + TagOf(iv);
      assert c[..|p|] == p && c[|p|..] == TagOf(iv);
    }
  }

  /** Under that cipher the bytes of every logged frame are unforged. */
  lemma ToyFramesAreUnforged(key: Bits, l: Link, s: Side, i: nat)
    requires i < |l.At(s).log|
    requires EncryptWithDirection(TOY, key, l.At(s).log[i].payload, l.At(s).log[i].seqNum, s.Direction())
             == Some(l.At(s).log[i].wire)
    ensures NotForged(TOY, key, l, l.At(s).log[i].wire)
  {
    var f := l.At(s).log[i];
    var sealed := f.payload + TagOf(BuildIV(s.Direction(), f.seqNum));
    assert f.wire[SEQUENCE_SIZE..] == sealed;
    assert sealed[|f.payload|..] == TagOf(BuildIV(s.Direction(), f.seqNum)) && sealed[..|f.payload|] == f.payload;
    forall iv, p | TOY.open(key, iv, sealed) == Some(p) ensures OnWire(l, iv, p) {
      var tag := TagOf(iv);
      assert tag[0] == s.Direction();
      assert tag[..IV_SIZE] == iv;
      assert TagOf(BuildIV(s.Direction(), f.seqNum))[..IV_SIZE] == BuildIV(s.Direction(), f.seqNum);
    }
  }

  function Delivery(key: Bits, p: Bits): (events: seq<Event>)
    requires |key| == SESSION_KEY_SIZE
  {
    [Write(Host, p, false), Write(Host, p, true), Arrive(Device, EncryptWithDirection(TOY, key, p, 0, 0).value)]
  }

  lemma AfterAppend(a: Aead, key: Bits, events: seq<Event>, e: Event)
    ensures After(a, key, events + [e]) == Step(a, key, After(a, key, events), e)
  {
    assert (events + [e])[..|events|] == events;
  }

  lemma WriteSteps(key: Bits, p: Bits)
    requires |key| == SESSION_KEY_SIZE
    ensures WriteStep(TOY, key, NEW_PEER, p, false, 0) == NEW_PEER
    ensures WriteStep(TOY, key, NEW_PEER, p, true, 0) ==
            Peer(Counters(1, 0), [Frame(0, p, EncryptWithDirection(TOY, key, p, 0, 0).value)], [])
  {}

  lemma ToyWrites(key: Bits, p: Bits)
    requires |key| == SESSION_KEY_SIZE
    ensures After(TOY, key, Delivery(key, p)[..2]) ==
            Link(Peer(Counters(1, 0), [Frame(0, p, EncryptWithDirection(TOY, key, p, 0, 0).value)], []), NEW_PEER)
  {
    var e0, e1 := Write(Host, p, false), Write(Host, p, true);
    WriteSteps(key, p);
    assert Delivery(key, p)[..2] == [e0, e1] && [e0, e1][..1] == [e0] && [e0][..0] == [];
    assert After(TOY, key, [e0]) == Step(TOY, key, After(TOY, key, []), e0);
    assert After(TOY, key, [e0, e1]) == Step(TOY, key, After(TOY, key, [e0]), e1);
  }

  lemma ToyArrival(key: Bits, p: Bits, l: Link)
    requires |key| == SESSION_KEY_SIZE && l.device == NEW_PEER
    ensures Step(TOY, key, l, Arrive(Device, EncryptWithDirection(TOY, key, p, 0, 0).value)).device.delivered == [p]
  {
    ToyIsGcm();
    FrameRoundTrip(TOY, key, p, 0, 0, 0);
  }

  lemma ToyUnforged(key: Bits, p: Bits)
    requires |key| == SESSION_KEY_SIZE
    ensures Unforged(TOY, key, Delivery(key, p))
  {
    ToyWrites(key, p);
    ToyFramesAreUnforged(key, After(TOY, key, Delivery(key, p)[..2]), Host, 0);
  }

  /** Both assumptions hold together of a run that delivers something: a write fails, the next one
      succeeds, and its frame arrives. */
  lemma AssumptionsAreMet(key: Bits, p: Bits)
    requires |key| == SESSION_KEY_SIZE
    ensures Gcm(TOY) && Unforged(TOY, key, Delivery(key, p))
    ensures After(TOY, key, Delivery(key, p)).device.delivered == [p]
  {
    var events := Delivery(key, p);
    ToyIsGcm();
    ToyUnforged(key, p);
    ToyWrites(key, p);
    AfterAppend(TOY, key, events[..2], events[2]);
    assert events[..2] + [events[2]] == events;
    ToyArrival(key, p, After(TOY, key, events[..2]));
  }
}
