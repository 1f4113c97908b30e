/** The two framings of the native host: key-exchange messages on the USB stream
    (apps/native-host/crypto/handshake.go) and native messages on stdin and stdout
    (apps/native-host/native_messaging/message.go). A native message is its JSON text as bytes. */
module Framing {
  import opened Bytes

  const MAX_MESSAGE_SIZE := 1048576

  datatype KexMessage = KexMessage(kind: byte, payload: Bits)

  /** What a reader returns: the message and the rest of the stream. */
  datatype Read<M> = Read(message: M, rest: Bits)

  // ---------------------------------------------------------------- key-exchange messages

  function KexFrame(m: KexMessage): (r: Bits) {
    [m.kind] + BigEndian(|m.payload|, 2) + m.payload
  }

  function KexRead(s: Bits): (r: Option<Read<KexMessage>>) {
    if |s| < 3 then None
    else
      var n := FromBigEndian(s[1..3]);
      if |s| < 3 + n then None else Some(Read(KexMessage(s[0], s[3..3 + n]), s[3 + n..]))
  }

  /** Type, length with the high byte first, payload. */
  lemma KexLayout(m: KexMessage)
    requires |m.payload| < 65536
    ensures var f := KexFrame(m);
            && |f| == 3 + |m.payload| && f[0] == m.kind && f[3..] == m.payload
            && f[1] == |m.payload| / 256 && f[2] == |m.payload| % 256
  {
    ByteOrder(|m.payload|, 1);
    ByteOrder(|m.payload| / 256, 0);
    var len := BigEndian(|m.payload|, 2);
    assert len[..1][0] == BigEndian(|m.payload| / 256, 1)[0];
  }

  /** One message survives, with the stream behind it untouched, exactly when its payload fits the
      two-byte length, which the writer does not check. */
  lemma KexRoundTrip(m: KexMessage, rest: Bits)
    ensures KexRead(KexFrame(m) + rest) == Some(Read(m, rest)) <==> |m.payload| < 65536
  {
    var s := KexFrame(m) + rest;
    assert s[1..3] == BigEndian(|m.payload|, 2);
    Pow256Values();
    BigEndianRoundTrip(|m.payload|, 2);
    var n := FromBigEndian(s[1..3]);
    if n == |m.payload| {
      assert s[3..3 + n] == m.payload && s[3 + n..] == rest;
    }
  }

  // ---------------------------------------------------------------- native messages

  function NativeFrame(body: Bits): (r: Bits) {
    LittleEndian(|body|, 4) + body
  }

  function NativeRead(s: Bits): (r: Option<Read<Bits>>) {
    if |s| < 4 then None
    else
      var n := FromLittleEndian(s[..4]);
      if n > MAX_MESSAGE_SIZE || n == 0 || |s| < 4 + n then None else Some(Read(s[4..4 + n], s[4 + n..]))
  }

  /** Length with the low byte first, body. */
  lemma NativeLayout(body: Bits)
    ensures var f := NativeFrame(body);
            && |f| == 4 + |body| && f[4..] == body
            && f[0] == |body| % 256 && f[1] == |body| / 256 % 256
  {
    ByteOrder(|body|, 3);
    ByteOrder(|body| / 256, 2);
    assert LittleEndian(|body|, 4)[1..][0] == LittleEndian(|body| / 256, 3)[0];
  }

  lemma NativeRoundTrip(body: Bits, rest: Bits)
    ensures NativeRead(NativeFrame(body) + rest) == Some(Read(body, rest)) <==> 1 <= |body| <= MAX_MESSAGE_SIZE
  {
    var s := NativeFrame(body) + rest;
    assert s[..4] == LittleEndian(|body|, 4);
    Pow256Values();
    LittleEndianRoundTrip(|body|, 4);
    if FromLittleEndian(s[..4]) == |body| {
      assert s[4..4 + |body|] == body && s[4 + |body|..] == rest;
    }
  }

  // ---------------------------------------------------------------- streams of messages

  function FrameAll<M>(frame: M -> Bits, ms: seq<M>): (r: Bits) {
    if ms == [] then [] else frame(ms[0]) + FrameAll(frame, ms[1..])
  }

  function ReadMany<M>(read: Bits -> Option<Read<M>>, s: Bits, n: nat): (r: Option<Read<seq<M>>>)
    decreases n
  {
    if n == 0 then Some(Read([], s))
    else
      match read(s)
      case None => None
      case Some(Read(m, rest)) =>
        match ReadMany(read, rest, n - 1)
        case None => None
        case Some(Read(ms, end)) => Some(Read([m] + ms, end))
  }

  /** A framing that is right for one message with anything behind it is right for any list. */
  lemma {:induction false} ListRoundTrip<M>(frame: M -> Bits, read: Bits -> Option<Read<M>>, ms: seq<M>, rest: Bits)
    requires forall m, tail :: m in ms ==> read(frame(m) + tail) == Some(Read(m, tail))
    ensures ReadMany(read, FrameAll(frame, ms) + rest, |ms|) == Some(Read(ms, rest))
  {
    if ms == [] {
      assert FrameAll(frame, ms) + rest == rest;
    } else {
      var tail := FrameAll(frame, ms[1..]) + rest;
      assert FrameAll(frame, ms) + rest == frame(ms[0]) + tail;
      assert ms[0] in ms;
      ListRoundTrip(frame, read, ms[1..], rest);
      assert ms == [ms[0]] + ms[1..];
    }
  }

  lemma KexListRoundTrip(ms: seq<KexMessage>, rest: Bits)
    requires forall m :: m in ms ==> |m.payload| < 65536
    ensures ReadMany(KexRead, FrameAll(KexFrame, ms) + rest, |ms|) == Some(Read(ms, rest))
  {
    forall m, tail | m in ms ensures KexRead(KexFrame(m) + tail) == Some(Read(m, tail)) {
      KexRoundTrip(m, tail);
    }
    ListRoundTrip(KexFrame, KexRead, ms, rest);
  }

  lemma NativeListRoundTrip(bodies: seq<Bits>, rest: Bits)
    requires forall b :: b in bodies ==> 1 <= |b| <= MAX_MESSAGE_SIZE
    ensures ReadMany(NativeRead, FrameAll(NativeFrame, bodies) + rest, |bodies|) == Some(Read(bodies, rest))
  {
    forall b, tail | b in bodies ensures NativeRead(NativeFrame(b) + tail) == Some(Read(b, tail)) {
      NativeRoundTrip(b, tail);
    }
    ListRoundTrip(NativeFrame, NativeRead, bodies, rest);
  }

  // ---------------------------------------------------------------- the stream objects

  /** A byte stream between a writer and a reader; a write may be short or fail. `troubles` counts
      the calls that failed or, with something to write, wrote nothing or less than the caller can
      make up for. */
  class Stream {
    var data: Bits
    ghost var troubles: nat

    constructor ()
      ensures data == [] && troubles == 0
    {
      data, troubles := [], 0;
    }

    /** Some beginning of the buffer is written, and the call may report a failure. */
    method Accept(buf: Bits) returns (n: nat, failed: bool)
      modifies this`data
      ensures n <= |buf| && data == old(data) + buf[..n]
    {
      n :| 0 <= n <= |buf|;
      failed := *;
      data := data + buf[..n];
    }

    /** A write whose short result the caller makes up for. */
    method Write(buf: Bits) returns (n: nat, failed: bool)
      modifies this
      ensures n <= |buf| && data == old(data) + buf[..n]
      ensures troubles == old(troubles) + if failed || n == 0 then 1 else 0
    {
      n, failed := Accept(buf);
      troubles := troubles + if failed || n == 0 then 1 else 0;
    }

    /** A write through a writer that reports every short write as an error. */
    method WriteWhole(buf: Bits) returns (failed: bool)
      modifies this
      ensures WrotePart(old(data), data, buf)
      ensures !failed ==> data == old(data) + buf
      ensures troubles == old(troubles) + if failed then 1 else 0
    {
      var n;
      n, failed := Accept(buf);
      failed := failed || n < |buf|;
      troubles := troubles + if failed then 1 else 0;
    }

    /** Flushing changes nothing that was written; it may fail. */
    method Flush() returns (failed: bool)
      modifies this`troubles
      ensures troubles == old(troubles) + if failed then 1 else 0
    {
      failed := *;
      troubles := troubles + if failed then 1 else 0;
    }

    /** io.ReadFull */
    method ReadFull(n: nat) returns (buf: Option<Bits>)
      modifies this
      ensures buf.Some? <==> n <= |old(data)|
      ensures buf.Some? ==> buf.value == old(data)[..n] && data == old(data)[n..]
    {
      if |data| < n {
        data := [];
        return None;
      }
      var got := data[..n];
      data := data[n..];
      return Some(got);
    }
  }

  /** The stream grew by a prefix of what was to be written. */
  ghost predicate WrotePart(before: Bits, after: Bits, whole: Bits) {
    before <= after && after[|before|..] <= whole
  }

  /** writeFull: it succeeds exactly when no write failed or wrote nothing, however short they were;
      success means all of the buffer, failure a prefix. */
  method WriteFull(w: Stream, buf: Bits) returns (ok: bool)
    modifies w
    ensures ok <==> w.troubles == old(w.troubles)
    ensures w.troubles >= old(w.troubles)
    ensures ok ==> w.data == old(w.data) + buf
    ensures WrotePart(old(w.data), w.data, buf)
  {
    var rest := buf;
    while |rest| > 0
      invariant |rest| <= |buf| && rest == buf[|buf| - |rest|..]
      invariant w.data == old(w.data) + buf[..|buf| - |rest|] && w.troubles == old(w.troubles)
      decreases |rest|
    {
      ghost var done := |buf| - |rest|;
      var n, failed := w.Write(rest);
      assert buf[..done + n] == buf[..done] + rest[..n];
      if failed || n == 0 {
        return false;
      }
      rest := rest[n..];
    }
    return true;
  }

  method WriteKeyExchangeMsg(w: Stream, m: KexMessage) returns (ok: bool)
    modifies w
    ensures ok <==> w.troubles == old(w.troubles)
    ensures ok ==> w.data == old(w.data) + KexFrame(m)
    ensures WrotePart(old(w.data), w.data, KexFrame(m))
  {
    ok := WriteFull(w, [m.kind] + BigEndian(|m.payload|, 2));
    if ok && |m.payload| > 0 {
      ok := WriteFull(w, m.payload);
    }
  }

  method ReadKeyExchangeMsg(r: Stream) returns (m: Option<KexMessage>)
    modifies r
    ensures m.Some? <==> KexRead(old(r.data)).Some?
    ensures m.Some? ==> Some(Read(m.value, r.data)) == KexRead(old(r.data))
  {
    ghost var s := r.data;
    var header := r.ReadFull(3);
    if header.None? {
      return None;
    }
    var n := FromBigEndian(header.value[1..3]);
    assert header.value[1..3] == s[1..3];
    var payload: Bits := [];
    if n > 0 {
      var body := r.ReadFull(n);
      if body.None? {
        return None;
      }
      payload := body.value;
    }
    assert payload == s[3..3 + n] && r.data == s[3 + n..];
    return Some(KexMessage(header.value[0], payload));
  }

  /** MessageWriter.Write after marshalling: an oversized message writes nothing; any other succeeds
      exactly when none of the three calls failed. Success means the whole frame was written, and a
      failure leaves a prefix of it. */
  method WriteNative(w: Stream, body: Bits) returns (ok: bool)
    modifies w
    ensures ok <==> |body| <= 1048576 && w.troubles == old(w.troubles)
    ensures |body| > 1048576 ==> w.data == old(w.data)
    ensures ok ==> w.data == old(w.data) + NativeFrame(body)
    ensures WrotePart(old(w.data), w.data, NativeFrame(body))
  {
    if |body| > MAX_MESSAGE_SIZE {
      return false;
    }
    var failed := w.WriteWhole(LittleEndian(|body|, 4));
    if failed {
      return false;
    }
    failed := w.WriteWhole(body);
    if failed {
      return false;
    }
    failed := w.Flush();
    return !failed;
  }

  method ReadNative(r: Stream) returns (body: Option<Bits>)
    modifies r
    ensures body.Some? <==> NativeRead(old(r.data)).Some?
    ensures body.Some? ==> Some(Read(body.value, r.data)) == NativeRead(old(r.data))
  {
    ghost var s := r.data;
    var header := r.ReadFull(4);
    if header.None? {
      return None;
    }
    var n := FromLittleEndian(header.value);
    if n > MAX_MESSAGE_SIZE || n == 0 {
      return None;
    }
    body := r.ReadFull(n);
    assert body.Some? ==> body.value == s[4..4 + n] && r.data == s[4 + n..];
  }
}
