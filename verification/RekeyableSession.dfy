/** The self-contained session wrapper: apps/native-host/crypto/rekey.go.

    Each method holds the lock for its whole length, the key exchange included, so a schedule of
    calls is an interleaving. What the exchange answers is a parameter. */
module RekeyableSession {
  import opened Bytes
  import opened SecureChannel
  import opened HostSession

  datatype KeyCopy = KeyCopy(key: array<byte>, tracker: SequenceTracker)

  class Rekeyable {
    var session: CryptoSession
    const rw: UsbReadWriter
    ghost var Repr: set<object>

    /** The installed key is the agreed one, or dropped; it is never a wiped array. */
    ghost predicate Valid()
      reads this, Repr
    {
      && this in Repr && session in Repr && session.tracker in Repr
      && |session.material| == SESSION_KEY_SIZE
      && (session.key != null ==> session.key in Repr && session.key[..] == session.material)
    }

    /** A copy handed out earlier: it shares nothing with the session and still holds what it held. */
    ghost predicate Isolated(c: KeyCopy, key: Bits, counters: Counters)
      reads this, c.key, c.tracker
    {
      c.key !in Repr && c.tracker !in Repr && c.key[..] == key && c.tracker.State() == counters
    }

    constructor (session: CryptoSession, rw: UsbReadWriter)
      requires session.key != null && session.key[..] == session.material && |session.material| == SESSION_KEY_SIZE
      ensures Valid() && this.session == session && this.rw == rw
      ensures fresh(Repr - {session, session.tracker, session.key})
    {
      this.session, this.rw := session, rw;
      var key: array<byte> := session.key;
      Repr := {this, session, session.tracker, key};
    }

    method GetSession() returns (c: KeyCopy)
      requires Valid()
      ensures fresh(c.key) && fresh(c.tracker)
      ensures Isolated(c, if session.key == null then [] else session.material, session.tracker.State())
    {
      var tracker := session.tracker.Clone();
      var source := session.key;
      if source == null {
        var none := new byte[0];
        return KeyCopy(none, tracker);
      }
      var key := new byte[source.Length](i requires 0 <= i < source.Length reads source => source[i]);
      assert key[..] == source[..];
      return KeyCopy(key, tracker);
    }

    method Rekey(agreed: Option<Bits>) returns (ok: bool)
      requires Valid() && (agreed.Some? ==> |agreed.value| == SESSION_KEY_SIZE)
      modifies Repr
      ensures Valid() && old(Repr) <= Repr && fresh(Repr - old(Repr))
      ensures ok <==> agreed.Some?
      ensures ok ==> fresh(session) && session.key != null && fresh(session.key)
      ensures ok ==> session.material == agreed.value && session.over == rw
      ensures ok ==> session.tracker.State() == Counters(0, 0) && old(session).tracker.State() == Counters(0, 0)
      ensures ok && old(session.key) != null ==>
                forall i :: 0 <= i < old(session.key).Length ==> old(session.key)[i] == 0
      ensures !ok ==> forall o :: o in old(Repr) ==> unchanged(o)
    {
      var oldKey, oldTracker := session.key, session.tracker;
      if agreed.None? {
        return false;
      }
      session := new CryptoSession.Negotiated(rw, agreed.value);
      Repr := Repr + {session, session.tracker, session.key};
      if oldKey != null {
        ZeroKey(oldKey);
      }
      oldTracker.Reset();
      return true;
    }

    method Zero()
      requires Valid()
      modifies Repr
      ensures Valid() && Repr == old(Repr) && session == old(session)
      ensures session.key == null && session.tracker.State() == Counters(0, 0)
      ensures old(session.key) != null ==>
                forall i :: 0 <= i < old(session.key).Length ==> old(session.key)[i] == 0
    {
      session.Zero();
    }
  }

  datatype Call = CallGet | CallRekey(agreed: Option<Bits>) | CallZero

  /** The first key or the outcome of some exchange. */
  ghost predicate Agreed(key: Bits, first: Bits, calls: seq<Call>) {
    key == first || CallRekey(Some(key)) in calls
  }

  /** Over every schedule of calls the wrapper stays valid, and each copy handed out keeps the key
      and counters it was taken with, whatever was wiped since; its key is one that was agreed
      (or empty, once Zero dropped it), never a wiped array. */
  method Schedule(s: Rekeyable, calls: seq<Call>)
    returns (copies: seq<KeyCopy>, keys: seq<Bits>, counters: seq<Counters>)
    requires s.Valid()
    requires forall c :: c in calls && c.CallRekey? && c.agreed.Some? ==> |c.agreed.value| == SESSION_KEY_SIZE
    modifies s.Repr
    ensures s.Valid() && |copies| == |keys| == |counters|
    ensures forall i :: 0 <= i < |copies| ==> s.Isolated(copies[i], keys[i], counters[i])
    ensures forall i :: 0 <= i < |keys| ==> keys[i] == [] || Agreed(keys[i], old(s.session.material), calls)
  {
    copies, keys, counters := [], [], [];
    for k := 0 to |calls|
      invariant s.Valid() && old(s.Repr) <= s.Repr && fresh(s.Repr - old(s.Repr))
      invariant |copies| == |keys| == |counters|
      invariant forall i :: 0 <= i < |copies| ==> s.Isolated(copies[i], keys[i], counters[i])
      invariant Agreed(s.session.material, old(s.session.material), calls)
      invariant forall i :: 0 <= i < |keys| ==> keys[i] == [] || Agreed(keys[i], old(s.session.material), calls)
    {
      assert calls[k] in calls;
      match calls[k]
      case CallGet =>
        var c := s.GetSession();
        copies, keys, counters := copies + [c], keys + [c.key[..]],
          counters + [Counters(c.tracker.outbound, c.tracker.inbound)];
      case CallRekey(agreed) =>
        var _ := s.Rekey(agreed);
      case CallZero =>
        s.Zero();
    }
  }
}
