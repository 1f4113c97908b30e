/** The native host's USB session: apps/native-host/main.go and readloop.go.

    Every method of `Session` is one critical section of the source's mutex (or the one unlocked
    step of the read loop), so a schedule of method calls is an interleaving of the handlers, the
    hotplug monitor and the read loop. What the outside world answers (discovery, key exchange,
    USB writes) is a parameter of the step. */
module HostSession {
  import opened Bytes
  import opened SecureChannel

  class AoaDevice {
    constructor () {}
  }

  class UsbReadWriter {
    const device: AoaDevice

    constructor (device: AoaDevice)
      ensures this.device == device
    {
      this.device := device;
    }
  }

  /** ZeroSessionKey: overwrites the array that every alias of the slice still points to. */
  method ZeroKey(key: array<byte>)
    modifies key
    ensures forall i :: 0 <= i < key.Length ==> key[i] == 0
  {
    for i := 0 to key.Length
      invariant forall j :: 0 <= j < i ==> key[j] == 0
    {
      key[i] := 0;
    }
  }

  /** crypto.Session, with the agreed bytes and the endpoints of the exchange remembered. */
  class CryptoSession {
    var key: array?<byte>
    const tracker: SequenceTracker
    ghost const material: Bits
    ghost const over: UsbReadWriter

    /** The result of a successful PerformHostKeyExchange over rw. */
    constructor Negotiated(rw: UsbReadWriter, agreed: Bits)
      requires |agreed| == SESSION_KEY_SIZE
      ensures over == rw && material == agreed
      ensures key != null && fresh(key) && key[..] == agreed
      ensures fresh(tracker) && tracker.State() == Counters(0, 0)
    {
      var k := new byte[SESSION_KEY_SIZE](i requires 0 <= i < SESSION_KEY_SIZE => agreed[i]);
      key := k;
      tracker := new SequenceTracker();
      over, material := rw, agreed;
      new;
      assert key[..] == agreed;
    }

    method Zero()
      modifies this`key, tracker, if key != null then {key} else {}
      ensures key == null && tracker.State() == Counters(0, 0)
      ensures old(key) != null ==> forall i :: 0 <= i < old(key).Length ==> old(key)[i] == 0
    {
      if key != null {
        ZeroKey(key);
        key := null;
      }
      tracker.Reset();
    }
  }

  /** A frame put on the wire: to which device, under which session, with which number. */
  datatype Packet = Packet(device: AoaDevice, session: CryptoSession, seqNum: nat, payload: Bits, wire: Bits)

  ghost function CountUnder(log: seq<Packet>, cs: CryptoSession): (r: nat) {
    if log == [] then 0
    else CountUnder(log[..|log| - 1], cs) + if log[|log| - 1].session == cs then 1 else 0
  }

  /** Frame i went to the device its key was agreed with, is the genuine encryption of its payload
      under that key, and (for the first 2^64 - 1 frames) carries the number of frames written
      before it under the same key. */
  ghost predicate PacketOk(a: Aead, log: seq<Packet>, i: nat)
    requires i < |log|
  {
    var p := log[i];
    && p.session.over.device == p.device
    && EncryptWithDirection(a, p.session.material, p.payload, p.seqNum, 0) == Some(p.wire)
    && (i + 1 < TWO64 ==> p.seqNum == CountUnder(log[..i], p.session))
  }

  ghost predicate WireOk(a: Aead, log: seq<Packet>) {
    forall i :: 0 <= i < |log| ==> PacketOk(a, log, i)
  }

  lemma {:induction false} CountUnderGrows(log: seq<Packet>, i: nat, j: nat, cs: CryptoSession)
    requires i <= j <= |log|
    ensures CountUnder(log[..i], cs) <= CountUnder(log[..j], cs) <= CountUnder(log[..i], cs) + j - i
    decreases j - i
  {
    if i < j {
      CountUnderGrows(log, i, j - 1, cs);
      assert log[..j][..j - 1] == log[..j - 1];
    }
  }

  /** No IV is used twice under one session, below 2^64 frames in all. */
  lemma SessionIVsDiffer(a: Aead, log: seq<Packet>, i: nat, j: nat)
    requires WireOk(a, log) && |log| < TWO64
    requires i < j < |log| && log[i].session == log[j].session
    ensures BuildIV(0, log[i].seqNum) != BuildIV(0, log[j].seqNum)
  {
    var cs := log[i].session;
    assert PacketOk(a, log, i) && PacketOk(a, log, j);
    assert log[..i + 1][..i] == log[..i];
    CountUnderGrows(log, i + 1, j, cs);
    CountUnderGrows(log, 0, j, cs);
    BuildIVInjective(0, log[i].seqNum, 0, log[j].seqNum);
  }

  /** Each session that wrote anything wrote a frame numbered zero. */
  lemma {:induction false} FirstFrame(a: Aead, log: seq<Packet>, i: nat) returns (k: nat)
    requires WireOk(a, log) && |log| < TWO64 && i < |log|
    ensures k <= i && log[k].session == log[i].session && log[k].seqNum == 0
  {
    assert PacketOk(a, log, i);
    if log[i].seqNum == 0 {
      return i;
    }
    if forall m :: 0 <= m < i ==> log[m].session != log[i].session {
      CountUnderAbsent(log[..i], log[i].session);
      assert false;
    }
    var m :| 0 <= m < i && log[m].session == log[i].session;
    k := FirstFrame(a, log, m);
  }

  /** Every key exchange that was used agreed bytes of its own. */
  ghost predicate KeysDiffer(log: seq<Packet>) {
    forall i, j :: 0 <= i < j < |log| && log[i].session.material == log[j].session.material ==>
      log[i].session == log[j].session
  }

  ghost predicate SameKeyAndIV(p: Packet, q: Packet) {
    p.session.material == q.session.material && BuildIV(0, p.seqNum) == BuildIV(0, q.seqNum)
  }

  /** No AES-GCM IV is used twice with the same key bytes on the wire exactly when no two key
      exchanges agreed the same bytes: every session starts again from number zero. */
  lemma IVsNeverRepeat(a: Aead, log: seq<Packet>)
    requires WireOk(a, log) && |log| < TWO64
    ensures (forall i, j :: 0 <= i < j < |log| ==> !SameKeyAndIV(log[i], log[j])) <==> KeysDiffer(log)
  {
    if KeysDiffer(log) {
      forall i, j | 0 <= i < j < |log| ensures !SameKeyAndIV(log[i], log[j]) {
        FreshKeyFreshIV(a, log, i, j);
      }
    } else {
      var m, n := SharedKeySharedIV(a, log);
    }
  }

  lemma FreshKeyFreshIV(a: Aead, log: seq<Packet>, i: nat, j: nat)
    requires WireOk(a, log) && |log| < TWO64 && i < j < |log| && KeysDiffer(log)
    ensures !SameKeyAndIV(log[i], log[j])
  {
    if log[i].session == log[j].session {
      SessionIVsDiffer(a, log, i, j);
    }
  }

  lemma SharedKeySharedIV(a: Aead, log: seq<Packet>) returns (m: nat, n: nat)
    requires WireOk(a, log) && |log| < TWO64 && !KeysDiffer(log)
    ensures m < n < |log| && SameKeyAndIV(log[m], log[n])
  {
    var i, j :| 0 <= i < j < |log| && log[i].session.material == log[j].session.material
                && log[i].session != log[j].session;
    m := FirstFrame(a, log, i);
    n := FirstFrame(a, log, j);
    if n < m {
      m, n := n, m;
    }
  }

  ghost function Under(log: seq<Packet>, cs: CryptoSession): (r: seq<Packet>)
    ensures |r| == CountUnder(log, cs)
  {
    if log == [] then []
    else Under(log[..|log| - 1], cs) + if log[|log| - 1].session == cs then [log[|log| - 1]] else []
  }

  /** The frames written under one key are numbered 0, 1, 2, ... without gap or repetition whatever
      failed in between, all go to the device the key was agreed with, and a peer that holds the
      key and expects the k-th frame recovers the k-th payload from it. */
  lemma {:induction false} FramesAreContiguous(a: Aead, log: seq<Packet>, cs: CryptoSession, k: nat)
    requires WireOk(a, log) && |log| < TWO64 && Gcm(a) && |cs.material| == SESSION_KEY_SIZE
    requires k < |Under(log, cs)|
    ensures var p := Under(log, cs)[k];
            && p.seqNum == k && p.session == cs && p.device == cs.over.device
            && DecryptWithDirection(a, cs.material, p.wire, k, 0) == Plain(p.payload, k)
  {
    var n := |log| - 1;
    var before := log[..n];
    forall i | 0 <= i < n ensures PacketOk(a, before, i) {
      assert PacketOk(a, log, i) && before[..i] == log[..i];
    }
    if k < |Under(before, cs)| {
      FramesAreContiguous(a, before, cs, k);
    } else {
      CountUnderGrows(log, 0, n, cs);
      assert PacketOk(a, log, n);
      FrameRoundTrip(a, cs.material, log[n].payload, k, 0, k);
    }
  }

  lemma PacketAppended(a: Aead, log: seq<Packet>, p: Packet)
    requires WireOk(a, log)
    requires p.session.over.device == p.device
    requires EncryptWithDirection(a, p.session.material, p.payload, p.seqNum, 0) == Some(p.wire)
    requires |log| + 1 < TWO64 ==> p.seqNum == CountUnder(log, p.session)
    ensures WireOk(a, log + [p])
    ensures CountUnder(log + [p], p.session) == CountUnder(log, p.session) + 1
  {
    var log' := log + [p];
    assert log'[..|log|] == log;
    forall i | 0 <= i < |log'| ensures PacketOk(a, log', i) {
      assert i < |log| ==> PacketOk(a, log, i);
      assert log'[..i] == log[..i];
    }
  }

  lemma {:induction false} CountUnderAbsent(log: seq<Packet>, cs: CryptoSession)
    requires forall i :: 0 <= i < |log| ==> log[i].session != cs
    ensures CountUnder(log, cs) == 0
  {
    if log != [] {
      CountUnderAbsent(log[..|log| - 1], cs);
    }
  }

  datatype Discovery = NoDevice | OpenFailed | ExchangeFailed | Agreed(material: Bits)

  datatype SendResult = SendOk | NotConnected | NoSessionKey | InvalidBase64 | EncryptFailed | WriteFailed

  datatype RekeyResult = Rekeyed | RekeyFailed | DeviceChanged

  /** What a rekey captured before it released the lock. */
  datatype Ticket = Ticket(usb: UsbReadWriter, oldKey: array<byte>, oldTracker: SequenceTracker)

  /** What one turn of the read loop copied under the lock. */
  datatype Snapshot = Snapshot(key: array<byte>, expected: nat, session: CryptoSession)

  class Session {
    var device: AoaDevice?
    var usbRW: UsbReadWriter?
    var connected: bool
    var cryptoSession: CryptoSession?
    const aead: Aead
    ghost var wire: seq<Packet>
    ghost var Repr: set<object>

    /** What holds whenever the lock is free. */
    ghost predicate Valid()
      reads this, Repr
    {
      && this in Repr
      && (connected <==> device != null)
      && (connected ==> usbRW != null && usbRW.device == device && cryptoSession != null && cryptoSession.over == usbRW)
      && (cryptoSession != null ==> Installed(cryptoSession))
      && WireOk(aead, wire)
    }

    /** An installed session still holds exactly the agreed key, and (below 2^64 - 1 frames) its
        outbound counter is the number of frames written under it. */
    ghost predicate Installed(cs: CryptoSession)
      reads this, Repr
    {
      && cs in Repr && cs.tracker in Repr
      && cs.key != null && cs.key in Repr
      && |cs.material| == SESSION_KEY_SIZE && cs.key[..] == cs.material
      && (|wire| + 1 < TWO64 ==> cs.tracker.outbound == CountUnder(wire, cs))
    }

    ghost predicate Owns(t: Ticket)
      reads this
    {
      t.oldKey in Repr && t.oldTracker in Repr
    }

    /** The snapshot shares no array with the session and holds its session's own key. */
    ghost predicate Isolated(sn: Snapshot)
      reads this, sn.key
    {
      && sn.key !in Repr && sn.key[..] == sn.session.material && |sn.session.material| == SESSION_KEY_SIZE
      && sn.session.tracker in Repr
    }

    constructor (aead: Aead)
      ensures Valid() && fresh(Repr) && !connected && wire == [] && this.aead == aead
    {
      device, usbRW, connected, cryptoSession := null, null, false, null;
      this.aead := aead;
      wire := [];
      Repr := {this};
    }

    method Connect(found: Discovery) returns (success: bool)
      requires Valid()
      requires found.Agreed? ==> |found.material| == SESSION_KEY_SIZE
      modifies this
      ensures Valid() && old(Repr) <= Repr && fresh(Repr - old(Repr)) && wire == old(wire)
      ensures success <==> connected
      ensures success <==> old(connected) || found.Agreed?
      ensures old(connected) ==> unchanged(this)
      ensures success && !old(connected) ==>
        && fresh(cryptoSession) && fresh(usbRW) && cryptoSession.material == found.material
        && fresh(cryptoSession.tracker) && cryptoSession.tracker.State() == Counters(0, 0)
      ensures !success ==> cryptoSession == old(cryptoSession) && device == null
      ensures !success ==> usbRW == if found.ExchangeFailed? then null else old(usbRW)
    {
      if connected {
        return true;
      }
      if found.NoDevice? || found.OpenFailed? {
        return false;
      }
      var dev := new AoaDevice();
      var rw := new UsbReadWriter(dev);
      usbRW, device, connected := rw, dev, true;
      if found.ExchangeFailed? {
        device, connected, usbRW := null, false, null;
        return false;
      }
      var cs := new CryptoSession.Negotiated(rw, found.material);
      CountUnderAbsent(wire, cs);
      cryptoSession := cs;
      Repr := Repr + {cs, cs.tracker, cs.key};
      return true;
    }

    /** A payload leaves only under the key agreed with the device it is written to; a failed write
        leaves the counters as they were, and encryption never fails once connected, so the branch
        that would consume a number without writing is never taken. */
    method SendPayload(payload: Option<Bits>, writeOk: bool) returns (r: SendResult)
      requires Valid()
      modifies Repr
      ensures Valid() && Repr == old(Repr)
      ensures r == if !old(connected) then NotConnected
                   else if payload.None? then InvalidBase64
                   else if writeOk then SendOk else WriteFailed
      ensures r.SendOk? ==>
        && |wire| == |old(wire)| + 1 && wire[..|old(wire)|] == old(wire)
        && wire[|old(wire)|].payload == payload.value
        && wire[|old(wire)|].device == device && wire[|old(wire)|].session == cryptoSession
        && cryptoSession.over == usbRW && usbRW.device == device
      ensures !r.SendOk? ==> wire == old(wire)
      ensures unchanged(this`device, this`usbRW, this`connected, this`cryptoSession)
      ensures r.WriteFailed? && |wire| + 1 < TWO64 ==>
        cryptoSession.tracker.State() == old(cryptoSession.tracker.State())
      ensures cryptoSession != null ==> cryptoSession.tracker.inbound == old(cryptoSession.tracker.inbound)
    {
      if !connected || device == null {
        return NotConnected;
      }
      if cryptoSession == null || cryptoSession.key == null {
        return NoSessionKey;
      }
      if payload.None? {
        return InvalidBase64;
      }
      var cs := cryptoSession;
      CountUnderGrows(wire, 0, |wire|, cs);
      assert wire[..|wire|] == wire;
      var n := cs.tracker.NextOutbound();
      var frame := EncryptWithDirection(aead, cs.key[..], payload.value, n, 0);
      if frame.None? {
        return EncryptFailed;
      }
      if !writeOk {
        cs.tracker.RevertOutbound(n);
        return WriteFailed;
      }
      ghost var p := Packet(device, cs, n, payload.value, frame.value);
      PacketAppended(aead, wire, p);
      wire := wire + [p];
      return SendOk;
    }

    method Close()
      requires Valid()
      modifies Repr
      ensures Valid() && Repr == old(Repr) && wire == old(wire)
      ensures !connected && device == null && usbRW == null && cryptoSession == null
      ensures old(cryptoSession) != null ==>
        && (forall i :: 0 <= i < old(cryptoSession.key).Length ==> old(cryptoSession.key)[i] == 0)
        && old(cryptoSession).key == null && old(cryptoSession).tracker.State() == Counters(0, 0)
    {
      if cryptoSession != null {
        cryptoSession.Zero();
        cryptoSession := null;
      }
      device, usbRW, connected := null, null, false;
    }

    /** First critical section of a rekey; None is a refusal. */
    method RekeyBegin() returns (t: Option<Ticket>)
      requires Valid()
      ensures t.Some? <==> connected
      ensures t.Some? ==> Owns(t.value) && t.value.usb == usbRW
      ensures t.Some? ==> t.value.oldKey == cryptoSession.key && t.value.oldTracker == cryptoSession.tracker
    {
      if cryptoSession == null || device == null || usbRW == null {
        return None;
      }
      return Some(Ticket(usbRW, cryptoSession.key, cryptoSession.tracker));
    }

    /** Second critical section, after the exchange over the captured endpoints gave `agreed`.
        The new key is installed exactly when those endpoints are still the session's own. */
    method RekeyFinish(t: Ticket, agreed: Option<Bits>) returns (r: RekeyResult)
      requires Valid() && Owns(t)
      requires agreed.Some? ==> |agreed.value| == SESSION_KEY_SIZE
      modifies Repr
      ensures Valid() && old(Repr) <= Repr && fresh(Repr - old(Repr)) && wire == old(wire)
      ensures r == if agreed.None? then RekeyFailed else if old(usbRW) != t.usb then DeviceChanged else Rekeyed
      ensures unchanged(this`device, this`usbRW, this`connected)
      ensures r.Rekeyed? ==>
        && fresh(cryptoSession) && cryptoSession.over == t.usb && cryptoSession.material == agreed.value
        && fresh(cryptoSession.tracker) && cryptoSession.tracker.State() == Counters(0, 0)
        && t.oldTracker.State() == Counters(0, 0) && forall i :: 0 <= i < t.oldKey.Length ==> t.oldKey[i] == 0
      ensures !r.Rekeyed? ==> cryptoSession == old(cryptoSession)
      ensures !r.Rekeyed? && cryptoSession != null ==>
        cryptoSession.tracker.State() == old(cryptoSession.tracker.State())
    {
      if agreed.None? {
        return RekeyFailed;
      }
      var cs := new CryptoSession.Negotiated(t.usb, agreed.value);
      if usbRW != t.usb {
        cs.Zero();
        return DeviceChanged;
      }
      cryptoSession := cs;
      ZeroKey(t.oldKey);
      t.oldTracker.Reset();
      CountUnderAbsent(wire, cs);
      Repr := Repr + {cs, cs.tracker, cs.key};
      return Rekeyed;
    }

    /** The read loop's copy under the lock. */
    method TakeSnapshot() returns (sn: Option<Snapshot>)
      requires Valid()
      ensures sn.Some? <==> cryptoSession != null
      ensures sn.Some? ==> fresh(sn.value.key) && Isolated(sn.value) && sn.value.session == cryptoSession
                           && sn.value.expected == cryptoSession.tracker.inbound
    {
      if cryptoSession == null || cryptoSession.key == null {
        return None;
      }
      var source := cryptoSession.key;
      var copy := new byte[source.Length](i requires 0 <= i < source.Length reads source => source[i]);
      assert copy[..] == source[..];
      return Some(Snapshot(copy, cryptoSession.tracker.inbound, cryptoSession));
    }

    /** The read loop outside the lock: decrypt with the copied key, then advance the counter of
        the session the copy came from, whatever is installed by now. */
    method Deliver(sn: Snapshot, frame: Bits) returns (text: Option<Bits>)
      requires Valid() && Isolated(sn)
      modifies sn.session.tracker
      ensures Valid() && Isolated(sn)
      ensures text.Some? <==> DecryptWithDirection(aead, sn.session.material, frame, sn.expected, 1).Plain?
      ensures text.Some? ==> text.value == DecryptWithDirection(aead, sn.session.material, frame, sn.expected, 1).text
      ensures sn.session.tracker.State() ==
              if text.Some? then old(sn.session.tracker.State()).Advanced() else old(sn.session.tracker.State())
    {
      match DecryptWithDirection(aead, sn.key[..], frame, sn.expected, 1)
      case Plain(p, _) =>
        sn.session.tracker.AdvanceInbound();
        return Some(p);
      case _ =>
        return None;
    }

    /** A read loop, current or stale, reports that its device went away. */
    method ReadLoopDisconnect()
      requires Valid()
      modifies this`connected, this`device
      ensures Valid() && !connected && device == null
    {
      connected, device := false, null;
    }
  }

  datatype Action =
    | DoConnect(found: Discovery)
    | DoSend(payload: Option<Bits>, writeOk: bool)
    | DoClose
    | DoRekeyBegin
    | DoRekeyFinish(ticket: nat, agreed: Option<Bits>)
    | DoSnapshot
    | DoDeliver(snapshot: nat, frame: Bits)
    | DoDisconnect
  {
    /** A key exchange that succeeds yields a key of the derived length. */
    ghost predicate WellKeyed() {
      && (DoConnect? && found.Agreed? ==> |found.material| == SESSION_KEY_SIZE)
      && (DoRekeyFinish? && agreed.Some? ==> |agreed.value| == SESSION_KEY_SIZE)
    }
  }

  /** One critical section of a handler; the read loop's steps are the callers' affair. Either the
      crypto session stays, with its inbound counter, or it is dropped or replaced by a new one. */
  method Handle(s: Session, a: Action, tickets: seq<Ticket>) returns (open: seq<Ticket>)
    requires s.Valid() && a.WellKeyed() && forall t :: t in tickets ==> s.Owns(t)
    modifies s.Repr
    ensures s.Valid() && old(s.Repr) <= s.Repr && fresh(s.Repr - old(s.Repr)) && old(s.wire) <= s.wire
    ensures forall t :: t in open ==> s.Owns(t)
    ensures s.cryptoSession != null && s.cryptoSession == old(s.cryptoSession) ==>
      s.cryptoSession.tracker.inbound == old(s.cryptoSession.tracker.inbound)
    ensures s.cryptoSession != null && s.cryptoSession != old(s.cryptoSession) ==>
      fresh(s.cryptoSession) && fresh(s.cryptoSession.tracker) && s.cryptoSession.tracker.inbound == 0
  {
    open := tickets;
    match a
    case DoConnect(found) =>
      var _ := s.Connect(found);
    case DoSend(payload, writeOk) =>
      var _ := s.SendPayload(payload, writeOk);
    case DoClose =>
      s.Close();
    case DoRekeyBegin =>
      var t := s.RekeyBegin();
      if t.Some? {
        open := tickets + [t.value];
      }
    case DoRekeyFinish(i, agreed) =>
      if i < |tickets| {
        var _ := s.RekeyFinish(tickets[i], agreed);
      }
    case DoDisconnect =>
      s.ReadLoopDisconnect();
    case _ =>
  }

  /** Every interleaving: any number of rekeys may be between their two critical sections, any
      number of read-loop copies may be outstanding, and each may resume at any later point. The
      session stays valid, the wire log only grows, and no outstanding key copy is ever altered. */
  method Interleave(s: Session, schedule: seq<Action>) returns (copies: seq<Snapshot>)
    requires s.Valid() && forall a :: a in schedule ==> a.WellKeyed()
    modifies s.Repr
    ensures s.Valid() && old(s.wire) <= s.wire
    ensures forall sn :: sn in copies ==> s.Isolated(sn)
  {
    var tickets: seq<Ticket> := [];
    copies := [];
    for k := 0 to |schedule|
      invariant s.Valid() && old(s.wire) <= s.wire
      invariant old(s.Repr) <= s.Repr && fresh(s.Repr - old(s.Repr))
      invariant forall t :: t in tickets ==> s.Owns(t)
      invariant forall sn :: sn in copies ==> s.Isolated(sn)
    {
      assert schedule[k].WellKeyed();
      match schedule[k]
      case DoSnapshot =>
        var sn := s.TakeSnapshot();
        if sn.Some? {
          copies := copies + [sn.value];
        }
      case DoDeliver(i, frame) =>
        if i < |copies| {
          assert s.Isolated(copies[i]);
          var _ := s.Deliver(copies[i], frame);
        }
      case a =>
        tickets := Handle(s, a, tickets);
    }
  }

  // ---------------------------------------------------------------- what the read loops deliver

  datatype Delivery = Delivery(session: CryptoSession, text: Bits)

  ghost function Texts(log: seq<Delivery>, cs: CryptoSession): (r: seq<Bits>) {
    if log == [] then []
    else Texts(log[..|log| - 1], cs) + if log[|log| - 1].session == cs then [log[|log| - 1].text] else []
  }

  /** Ciphertext integrity for what arrives: whatever the bytes open to under a key and the device's
      IV number n is the n-th payload that the device wrote under that key. */
  ghost predicate FromDevice(a: Aead, sent: Bits -> seq<Bits>, frame: Bits) {
    |frame| >= SEQUENCE_SIZE ==>
      forall key, n: nat, p :: n < TWO64 && a.open(key, BuildIV(1, n), frame[SEQUENCE_SIZE..]) == Some(p) ==>
        n < |sent(key)| && p == sent(key)[n]
  }

  /** The assumption can be met together with `Gcm`, by a genuine frame. */
  lemma FromDeviceIsMet(key: Bits, p: Bits)
    requires |key| == SESSION_KEY_SIZE
    ensures Gcm(TOY) && FromDevice(TOY, _ => [p], EncryptWithDirection(TOY, key, p, 0, 1).value)
  {
    ToyIsGcm();
    var sealed := p + TagOf(BuildIV(1, 0));
    assert EncryptWithDirection(TOY, key, p, 0, 1).value[SEQUENCE_SIZE..] == sealed;
    assert sealed[|p|..] == TagOf(BuildIV(1, 0)) && sealed[..|p|] == p;
    forall k, n: nat, q | n < TWO64 && TOY.open(k, BuildIV(1, n), sealed) == Some(q) ensures n == 0 && q == p {
      assert TagOf(BuildIV(1, n))[..IV_SIZE] == BuildIV(1, n) && TagOf(BuildIV(1, 0))[..IV_SIZE] == BuildIV(1, 0);
      BuildIVInjective(1, n, 1, 0);
    }
  }

  /** Each delivery is the next payload of its session's key. */
  ghost predicate InSequence(sent: Bits -> seq<Bits>, log: seq<Delivery>) {
    forall i :: 0 <= i < |log| ==> NextOf(sent, log[..i], log[i])
  }

  ghost predicate NextOf(sent: Bits -> seq<Bits>, before: seq<Delivery>, d: Delivery) {
    var n, payloads := |Texts(before, d.session)|, sent(d.session.material);
    n < |payloads| && d.text == payloads[n]
  }

  /** So what was delivered under a session is a prefix of what the device wrote under its key. */
  lemma {:induction false} TextsArePrefix(sent: Bits -> seq<Bits>, log: seq<Delivery>, cs: CryptoSession)
    requires InSequence(sent, log)
    ensures Texts(log, cs) <= sent(cs.material)
  {
    if log != [] {
      var n := |log| - 1;
      assert NextOf(sent, log[..n], log[n]);
      forall i | 0 <= i < n ensures NextOf(sent, log[..n][..i], log[..n][i]) {
        assert NextOf(sent, log[..i], log[i]) && log[..n][..i] == log[..i];
      }
      TextsArePrefix(sent, log[..n], cs);
    }
  }

  lemma OneMore(sent: Bits -> seq<Bits>, log: seq<Delivery>, d: Delivery)
    requires InSequence(sent, log) && NextOf(sent, log, d)
    ensures InSequence(sent, log + [d])
  {
    var all := log + [d];
    assert all[..|log|] == log;
    forall i | 0 <= i < |all| ensures NextOf(sent, all[..i], all[i]) {
      assert i < |log| ==> NextOf(sent, log[..i], log[i]);
      assert all[..i] == log[..i];
    }
  }

  lemma {:induction false} NoTexts(log: seq<Delivery>, cs: CryptoSession)
    requires forall i :: 0 <= i < |log| ==> log[i].session != cs
    ensures Texts(log, cs) == []
  {
    if log != [] {
      NoTexts(log[..|log| - 1], cs);
    }
  }

  /** Each unused copy expects the next payload of its session, and no session has two. */
  ghost predicate Turns(copies: seq<Snapshot>, log: seq<Delivery>) {
    && (forall i :: 0 <= i < |copies| ==> copies[i].expected == |Texts(log, copies[i].session)|)
    && (forall i, j :: 0 <= i < j < |copies| ==> copies[i].session != copies[j].session)
  }

  function Without<T>(s: seq<T>, i: nat): (r: seq<T>)
    requires i < |s|
    ensures |r| == |s| - 1 && forall j :: 0 <= j < |r| ==> r[j] == s[if j < i then j else j + 1]
  {
    s[..i] + s[i + 1..]
  }

  function Extended(log: seq<Delivery>, cs: CryptoSession, text: Option<Bits>): (r: seq<Delivery>) {
    if text.Some? then log + [Delivery(cs, text.value)] else log
  }

  lemma TextsExtended(log: seq<Delivery>, cs: CryptoSession, text: Option<Bits>, other: CryptoSession)
    ensures Texts(Extended(log, cs, text), other) ==
            Texts(log, other) + if cs == other && text.Some? then [text.value] else []
  {
    if text.Some? {
      assert (log + [Delivery(cs, text.value)])[..|log|] == log;
    }
  }

  lemma TurnUsed(copies: seq<Snapshot>, log: seq<Delivery>, i: nat, text: Option<Bits>)
    requires Turns(copies, log) && i < |copies|
    ensures Turns(Without(copies, i), Extended(log, copies[i].session, text))
  {
    var rest := Without(copies, i);
    forall j | 0 <= j < |rest|
      ensures rest[j].expected == |Texts(Extended(log, copies[i].session, text), rest[j].session)|
    {
      assert rest[j].session != copies[i].session;
      TextsExtended(log, copies[i].session, text, rest[j].session);
    }
  }

  /** Between the steps of the read loops: the copies in turn, and the installed session has counted
      what it delivered, in a tracker of its own. */
  ghost predicate Reading(s: Session, copies: seq<Snapshot>, log: seq<Delivery>)
    reads s, s.Repr
    requires s.Valid()
  {
    && Turns(copies, log)
    && (s.cryptoSession != null ==>
          && s.cryptoSession.tracker.inbound == |Texts(log, s.cryptoSession)|
          && forall i :: 0 <= i < |copies| && copies[i].session != s.cryptoSession ==>
               copies[i].session.tracker != s.cryptoSession.tracker)
  }

  lemma TextsFit(log: seq<Delivery>, cs: CryptoSession)
    ensures |Texts(log, cs)| <= |log|
  {}

  /** What a copy that expects the next payload accepts is that payload. */
  lemma AcceptedIsNext(a: Aead, sent: Bits -> seq<Bits>, log: seq<Delivery>, sn: Snapshot, frame: Bits)
    requires FromDevice(a, sent, frame)
    requires sn.expected == |Texts(log, sn.session)| && sn.expected < TWO64
    ensures var r := DecryptWithDirection(a, sn.session.material, frame, sn.expected, 1);
            r.Plain? ==> NextOf(sent, log, Delivery(sn.session, r.text))
  {}

  lemma StaysInSequence(a: Aead, sent: Bits -> seq<Bits>, log: seq<Delivery>, sn: Snapshot, frame: Bits,
                        text: Option<Bits>)
    requires FromDevice(a, sent, frame) && InSequence(sent, log)
    requires sn.expected == |Texts(log, sn.session)| && sn.expected < TWO64
    requires var r := DecryptWithDirection(a, sn.session.material, frame, sn.expected, 1);
             text == if r.Plain? then Some(r.text) else None
    ensures InSequence(sent, Extended(log, sn.session, text))
  {
    AcceptedIsNext(a, sent, log, sn, frame);
    if text.Some? {
      OneMore(sent, log, Delivery(sn.session, text.value));
    }
  }

  /** The installed session's counter moves with what is delivered under it. */
  lemma InstalledCounts(before: Counters, after: Counters, log: seq<Delivery>, cs: CryptoSession, text: Option<Bits>,
                        installed: CryptoSession)
    requires before.inbound == |Texts(log, installed)| && |log| + 1 < TWO64
    requires after == if cs == installed && text.Some? then before.Advanced() else before
    ensures after.inbound == |Texts(Extended(log, cs, text), installed)|
  {
    TextsFit(log, installed);
    TextsExtended(log, cs, text, installed);
  }

  /** A read loop takes a copy, unless the session's last one is still unused. */
  method StartTurn(s: Session, copies: seq<Snapshot>, ghost log: seq<Delivery>) returns (held: seq<Snapshot>)
    requires s.Valid() && (forall sn :: sn in copies ==> s.Isolated(sn)) && Reading(s, copies, log)
    ensures (forall sn :: sn in held ==> s.Isolated(sn)) && Reading(s, held, log)
    ensures copies <= held && |held| <= |copies| + 1
    ensures s.cryptoSession != null ==> exists i :: 0 <= i < |held| && held[i].session == s.cryptoSession
  {
    held := copies;
    if s.cryptoSession != null && forall i :: 0 <= i < |copies| ==> copies[i].session != s.cryptoSession {
      var sn := s.TakeSnapshot();
      held := copies + [sn.value];
      assert held[|copies|].session == s.cryptoSession;
    }
  }

  /** It uses its copy on a frame. */
  method EndTurn(s: Session, copies: seq<Snapshot>, i: nat, frame: Bits, log: seq<Delivery>,
                 ghost sent: Bits -> seq<Bits>)
    returns (held: seq<Snapshot>, delivered: seq<Delivery>)
    requires s.Valid() && (forall sn :: sn in copies ==> s.Isolated(sn)) && Reading(s, copies, log)
    requires i < |copies| && InSequence(sent, log) && |log| + 1 < TWO64 && FromDevice(s.aead, sent, frame)
    modifies copies[i].session.tracker
    ensures s.Valid() && (forall sn :: sn in held ==> s.Isolated(sn)) && Reading(s, held, delivered)
    ensures InSequence(sent, delivered) && held == Without(copies, i)
    ensures var r := DecryptWithDirection(s.aead, copies[i].session.material, frame, copies[i].expected, 1);
            delivered == if r.Plain? then log + [Delivery(copies[i].session, r.text)] else log
  {
    var sn := copies[i];
    assert sn in copies;
    TextsFit(log, sn.session);
    ghost var before := if s.cryptoSession != null then s.cryptoSession.tracker.State() else Counters(0, 0);
    var text := s.Deliver(sn, frame);
    held, delivered := Without(copies, i), Extended(log, sn.session, text);
    TurnUsed(copies, log, i, text);
    StaysInSequence(s.aead, sent, log, sn, frame, text);
    if s.cryptoSession != null {
      InstalledCounts(before, s.cryptoSession.tracker.State(), log, sn.session, text, s.cryptoSession);
      forall j | 0 <= j < |held| && held[j].session != s.cryptoSession
        ensures held[j].session.tracker != s.cryptoSession.tracker
      {
        assert held[j] in copies;
      }
    }
  }

  /** A handler leaves the read loops' books in order. */
  method HandleMeanwhile(s: Session, a: Action, tickets: seq<Ticket>, ghost copies: seq<Snapshot>,
                         ghost log: seq<Delivery>)
    returns (open: seq<Ticket>)
    requires s.Valid() && a.WellKeyed() && forall t :: t in tickets ==> s.Owns(t)
    requires (forall sn :: sn in copies ==> s.Isolated(sn)) && Reading(s, copies, log)
    modifies s.Repr
    ensures s.Valid() && old(s.Repr) <= s.Repr && fresh(s.Repr - old(s.Repr)) && old(s.wire) <= s.wire
    ensures forall t :: t in open ==> s.Owns(t)
    ensures (forall sn :: sn in copies ==> s.Isolated(sn)) && Reading(s, copies, log)
  {
    ghost var before := s.cryptoSession;
    open := Handle(s, a, tickets);
    if s.cryptoSession != null && s.cryptoSession != before {
      NoTexts(log, s.cryptoSession);
    }
  }

  /** In-order delivery across sessions. In every interleaving of the handlers with read loops that
      use each copy before they take the next of the same session (a loop left over from an earlier
      session may use its last copy at any later point), the texts delivered under each session are,
      in order and once each, a prefix of what the device wrote under its key. */
  method ReadInOrder(s: Session, schedule: seq<Action>, ghost sent: Bits -> seq<Bits>) returns (log: seq<Delivery>)
    requires s.Valid() && s.cryptoSession == null && |schedule| + 1 < TWO64
    requires forall a :: a in schedule ==> a.WellKeyed()
    requires forall a :: a in schedule && a.DoDeliver? ==> FromDevice(s.aead, sent, a.frame)
    modifies s.Repr
    ensures s.Valid() && old(s.wire) <= s.wire && InSequence(sent, log)
    ensures forall d :: d in log ==> Texts(log, d.session) <= sent(d.session.material)
  {
    var tickets: seq<Ticket>, copies: seq<Snapshot> := [], [];
    log := [];
    for k := 0 to |schedule|
      invariant s.Valid() && old(s.wire) <= s.wire && |log| <= k
      invariant old(s.Repr) <= s.Repr && fresh(s.Repr - old(s.Repr))
      invariant forall t :: t in tickets ==> s.Owns(t)
      invariant (forall sn :: sn in copies ==> s.Isolated(sn)) && Reading(s, copies, log)
      invariant InSequence(sent, log)
    {
      assert schedule[k] in schedule;
      match schedule[k]
      case DoSnapshot =>
        copies := StartTurn(s, copies, log);
      case DoDeliver(i, frame) =>
        if i < |copies| {
          assert s.Isolated(copies[i]);
          copies, log := EndTurn(s, copies, i, frame, log, sent);
        }
      case a =>
        tickets := HandleMeanwhile(s, a, tickets, copies, log);
    }
    forall d | d in log ensures Texts(log, d.session) <= sent(d.session.material) {
      TextsArePrefix(sent, log, d.session);
    }
  }
}
