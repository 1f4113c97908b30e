/** Revocations waiting to be broadcast: cacheRevocationForLater and flushPendingRevocations of
    entrypoints/background/deviceRegistry.ts.

    A flush reads the stored list, awaits one broadcast per id until one fails, and stores the rest
    back when anything was sent. Ids may be cached at each of its awaits. Caching an id is one
    step, and a flush runs only when none is under way. */
module PendingRevocations {
  import opened Bytes

  ghost predicate Unique(ids: seq<string>) {
    forall i, j :: 0 <= i < j < |ids| ==> ids[i] != ids[j]
  }

  /** cacheRevocationForLater */
  function CacheForLater(pending: seq<string>, id: string): (r: seq<string>)
    ensures Unique(pending) ==> Unique(r)
    ensures id in r && forall x :: x in pending ==> x in r
  {
    if id in pending then pending else pending + [id]
  }

  function Without(ids: seq<string>, gone: seq<string>): (r: seq<string>)
    ensures forall x :: x in r <==> x in ids && x !in gone
  {
    if ids == [] then [] else (if ids[0] in gone then [] else [ids[0]]) + Without(ids[1..], gone)
  }

  lemma {:induction false} WithoutAll(a: seq<string>, b: seq<string>, gone: seq<string>)
    requires forall x :: x in a ==> x in gone
    ensures Without(a + b, gone) == Without(b, gone)
  {
    if a == [] {
      assert a + b == b;
    } else {
      assert a[0] in gone && (a + b)[1..] == a[1..] + b;
      WithoutAll(a[1..], b, gone);
    }
  }

  lemma {:induction false} WithoutNone(b: seq<string>, gone: seq<string>)
    ensures |Without(b, gone)| <= |b|
    ensures Without(b, gone) == b <==> forall x :: x in b ==> x !in gone
  {
    if b != [] {
      WithoutNone(b[1..], gone);
      assert b == [b[0]] + b[1..];
      assert b[0] in b && forall x :: x in b[1..] ==> x in b;
    }
  }

  /** A flush that sent the first n ids leaves exactly the rest when no sent id recurs among them,
      which holds of every list that cacheRevocationForLater builds. */
  lemma FlushSplits(pending: seq<string>, n: nat)
    requires n <= |pending|
    ensures Without(pending, pending[..n]) == pending[n..] <==> forall x :: x in pending[n..] ==> x !in pending[..n]
    ensures Unique(pending) ==> Without(pending, pending[..n]) == pending[n..]
  {
    assert pending == pending[..n] + pending[n..];
    WithoutAll(pending[..n], pending[n..], pending[..n]);
    WithoutNone(pending[n..], pending[..n]);
  }

  // ---------------------------------------------------------------- flushes, await by await

  /** A flush under way: the list it read, the ids it sent, whether a broadcast failed. */
  datatype Flush = Flush(read: seq<string>, sent: seq<string>, failed: bool)

  datatype State = State(stored: seq<string>, flush: Option<Flush>)

  const INITIAL := State([], None)

  datatype Event = Cache(id: string) | Read | Broadcast(ok: bool) | Finish

  predicate Finished(f: Flush) { f.failed || |f.sent| >= |f.read| }

  function Step(s: State, e: Event): (t: State) {
    match e
    case Cache(id) => s.(stored := CacheForLater(s.stored, id))
    case Read => if s.flush.Some? || s.stored == [] then s else s.(flush := Some(Flush(s.stored, [], false)))
    case Broadcast(ok) =>
      if s.flush.None? || Finished(s.flush.value) then s
      else
        var f := s.flush.value;
        s.(flush := Some(if ok then f.(sent := f.sent + [f.read[|f.sent|]]) else f.(failed := true)))
    case Finish =>
      if s.flush.None? || !Finished(s.flush.value) then s
      else
        var f := s.flush.value;
        State(if f.sent == [] then s.stored else Without(f.read, f.sent), None)
  }

  function Run(events: seq<Event>): (s: State) {
    if events == [] then INITIAL else Step(Run(events[..|events| - 1]), events[|events| - 1])
  }

  /** No id is stored twice, what a flush read is still the beginning of the stored list, and what
      it sent is the beginning of what it read. */
  ghost predicate Inv(s: State) {
    && Unique(s.stored)
    && (s.flush.Some? ==> s.flush.value.read <= s.stored && s.flush.value.sent <= s.flush.value.read)
  }

  lemma StepKeepsInv(s: State, e: Event)
    requires Inv(s)
    ensures Inv(Step(s, e))
  {
    if e.Finish? && s.flush.Some? {
      var f := s.flush.value;
      FlushSplits(f.read, |f.sent|);
      assert f.sent == f.read[..|f.sent|];
    }
  }

  lemma {:induction false} RunKeepsInv(events: seq<Event>)
    ensures Inv(Run(events))
  {
    if events != [] {
      RunKeepsInv(events[..|events| - 1]);
      StepKeepsInv(Run(events[..|events| - 1]), events[|events| - 1]);
    }
  }

  /** Event r is the read of the flush that is under way at the end of the run. */
  ghost predicate StartedAt(events: seq<Event>, r: nat) {
    && r < |events| && events[r] == Read && Run(events).flush.Some?
    && Run(events[..r]).flush == None && Run(events[..r]).stored != []
    && forall m :: r < m <= |events| ==> Run(events[..m]).flush.Some?
  }

  ghost predicate CachedSince(events: seq<Event>, r: nat, x: string) {
    exists k :: r < k < |events| && events[k] == Cache(x)
  }

  lemma SinceOneMore(before: seq<Event>, e: Event, r: nat, x: string)
    requires r < |before|
    ensures CachedSince(before + [e], r, x) <==> CachedSince(before, r, x) || e == Cache(x)
  {
    var events := before + [e];
    if CachedSince(before, r, x) {
      var k :| r < k < |before| && before[k] == Cache(x);
      assert events[k] == Cache(x);
    }
    if e == Cache(x) {
      assert events[|before|] == Cache(x);
    }
  }

  lemma StartedPrefix(before: seq<Event>, e: Event, r: nat)
    requires StartedAt(before + [e], r) && r < |before|
    ensures StartedAt(before, r) && Run(before + [e]).flush.Some? && (before + [e])[..r] == before[..r]
  {
    var events := before + [e];
    assert events[..r] == before[..r] && events[..|events|] == events;
    forall m | r < m <= |before| ensures Run(before[..m]).flush.Some? {
      assert events[..m] == before[..m];
    }
  }

  lemma StepContents(s: State, e: Event, x: string)
    requires s.flush.Some? && Step(s, e).flush.Some?
    ensures Step(s, e).flush.value.read == s.flush.value.read
    ensures x in Step(s, e).stored <==> x in s.stored || e == Cache(x)
  {}

  /** While a flush is under way its list is what it read, and the ids stored besides are those
      cached since. */
  lemma {:induction false} LateArrivals(events: seq<Event>, r: nat, x: string)
    requires StartedAt(events, r)
    ensures var s, read := Run(events), Run(events[..r]).stored;
            && s.flush.Some? && s.flush.value.read == read
            && (x in s.stored <==> x in read || CachedSince(events, r, x))
    decreases |events|
  {
    var before, e := events[..|events| - 1], events[|events| - 1];
    if r < |before| {
      assert events == before + [e];
      StartedPrefix(before, e, r);
      LateArrivals(before, r, x);
      StepContents(Run(before), e, x);
      SinceOneMore(before, e, r, x);
    }
  }

  /** What finishing does to the stored list, by the list alone. */
  lemma FinishSplits(s: State)
    requires Inv(s) && s.flush.Some? && Finished(s.flush.value)
    ensures var t, f := Step(s, Finish), s.flush.value;
            && t == State(if f.sent == [] then s.stored else f.read[|f.sent|..], None)
            && ((forall x :: x in s.stored ==> x in t.stored || x in f.sent) <==>
                f.sent == [] || forall x :: x in s.stored ==> x in f.read)
  {
    var f := s.flush.value;
    FlushSplits(f.read, |f.sent|);
    assert f.sent == f.read[..|f.sent|];
    assert f.read == f.sent + f.read[|f.sent|..];
    assert forall x :: x in f.read <==> x in f.sent || x in f.read[|f.sent|..];
  }

  lemma PrefixOfUnique(ids: seq<string>, n: nat)
    requires n <= |ids| && Unique(ids)
    ensures forall x :: x in ids[n..] <==> x in ids && x !in ids[..n]
  {
    assert ids == ids[..n] + ids[n..];
  }

  /** In every run, a flush that read the list at event r and now finishes stores back the ids it
      did not send; every other id of the list survives it exactly when it sent nothing or nothing
      new was cached since it read. One by one: an id cached since is still stored exactly when the
      flush sent nothing, or had read that id and not sent it. */
  lemma FlushLosesLateArrivals(events: seq<Event>, r: nat)
    requires StartedAt(events, r) && Finished(Run(events).flush.value)
    ensures var s, t, read := Run(events), Step(Run(events), Finish), Run(events[..r]).stored;
            var sent := s.flush.value.sent;
            && sent <= read
            && t == State(if sent == [] then s.stored else read[|sent|..], None)
            && ((forall x :: x in s.stored ==> x in t.stored || x in sent) <==>
                sent == [] || forall x :: CachedSince(events, r, x) ==> x in read)
            && forall x :: CachedSince(events, r, x) ==>
                 (x in t.stored <==> sent == [] || (x in read && x !in sent))
  {
    RunKeepsInv(events);
    LateArrivals(events, r, "");
    FinishSplits(Run(events));
    var f := Run(events).flush.value;
    PrefixOfUnique(f.read, |f.sent|);
    forall x ensures x in Run(events).stored <==> x in Run(events[..r]).stored || CachedSince(events, r, x) {
      LateArrivals(events, r, x);
    }
  }

  const LOSING_RUN := [Cache("a"), Read, Broadcast(true), Cache("b"), Finish]

  /** Such a run: b is cached while the broadcast of a is awaited, and is gone afterwards unsent. */
  lemma LateArrivalLost()
    ensures Run(LOSING_RUN[..4]).stored == ["a", "b"] && Run(LOSING_RUN).stored == []
  {
    var e := LOSING_RUN;
    assert e[..4][..3] == e[..3] && e[..3][..2] == e[..2] && e[..2][..1] == e[..1] && e[..1][..0] == [];
    var f := Flush(["a"], [], false);
    assert Run(e[..1]) == State(["a"], None);
    assert Run(e[..2]) == State(["a"], Some(f));
    assert [] + ["a"] == ["a"];
    assert Run(e[..3]) == State(["a"], Some(f.(sent := ["a"])));
    assert Run(e[..4]) == State(["a", "b"], Some(f.(sent := ["a"])));
    assert e[..5] == e && ["a"][..1] == ["a"];
  }

  const REPEATED_RUN := [Cache("a"), Read, Broadcast(true), Cache("a"), Finish]

  /** The same for an id cached again after the flush has sent it. */
  lemma RepeatedArrivalLost()
    ensures Run(REPEATED_RUN[..4]).stored == ["a"] && Run(REPEATED_RUN).stored == []
  {
    var e := REPEATED_RUN;
    assert e[..4][..3] == e[..3] && e[..3][..2] == e[..2] && e[..2][..1] == e[..1] && e[..1][..0] == [];
    var f := Flush(["a"], [], false);
    assert Run(e[..1]) == State(["a"], None);
    assert Run(e[..2]) == State(["a"], Some(f));
    assert [] + ["a"] == ["a"];
    assert Run(e[..3]) == State(["a"], Some(f.(sent := ["a"])));
    assert e[..5] == e;
  }

  const FAILING_RUN := [Cache("a"), Cache("b"), Read, Broadcast(true), Broadcast(false), Finish]

  lemma RunAppend(events: seq<Event>, e: Event)
    ensures Run(events + [e]) == Step(Run(events), e)
  {
    assert (events + [e])[..|events|] == events;
  }

  lemma FailingSteps()
    ensures var s := Step(Step(INITIAL, Cache("a")), Cache("b"));
            && s == State(["a", "b"], None)
            && Step(Step(Step(s, Read), Broadcast(true)), Broadcast(false)) ==
               State(["a", "b"], Some(Flush(["a", "b"], ["a"], true)))
  {
    assert [] + ["a"] == ["a"] && ["a"] + ["b"] == ["a", "b"];
  }

  lemma FailingEnd()
    ensures Step(State(["a", "b"], Some(Flush(["a", "b"], ["a"], true))), Finish) == State(["b"], None)
  {
    assert ["a", "b"][1..] == ["b"] && ["b"][1..] == [];
    assert Without(["b"], ["a"]) == ["b"];
  }

  /** A flush whose second broadcast fails keeps the second id. */
  lemma FailureKeepsTheRest()
    ensures Run(FAILING_RUN) == State(["b"], None)
  {
    var e := FAILING_RUN;
    RunAppend([], e[0]);
    RunAppend([] + [e[0]], e[1]);
    RunAppend([] + [e[0]] + [e[1]], e[2]);
    RunAppend([] + [e[0]] + [e[1]] + [e[2]], e[3]);
    RunAppend([] + [e[0]] + [e[1]] + [e[2]] + [e[3]], e[4]);
    RunAppend([] + [e[0]] + [e[1]] + [e[2]] + [e[3]] + [e[4]], e[5]);
    assert e == [] + [e[0]] + [e[1]] + [e[2]] + [e[3]] + [e[4]] + [e[5]];
    FailingSteps();
    FailingEnd();
  }

  /** In every run a broadcast of a running flush sends the next id it read, or ends the flush. */
  lemma BroadcastSendsNext(events: seq<Event>, ok: bool)
    requires Run(events).flush.Some? && !Finished(Run(events).flush.value)
    ensures var f, t := Run(events).flush.value, Step(Run(events), Broadcast(ok));
            && t.stored == Run(events).stored && t.flush.Some? && t.flush.value.read == f.read
            && (ok ==> |t.flush.value.sent| == |f.sent| + 1 && t.flush.value.sent <= f.read)
            && (!ok ==> t.flush.value.sent == f.sent && Finished(t.flush.value))
  {
    RunKeepsInv(events);
  }

  // ---------------------------------------------------------------- a flush on its own

  /** flushPendingRevocations: `delivers` tells whether the i-th broadcast gets through. The list
      is stored back only when something was sent. */
  method FlushPending(pending: seq<string>, delivers: nat -> bool)
    returns (sent: seq<string>, store: Option<seq<string>>)
    ensures |sent| <= |pending| && sent == pending[..|sent|]
    ensures forall i :: 0 <= i < |sent| ==> delivers(i)
    ensures |sent| < |pending| ==> !delivers(|sent|)
    ensures store == if sent == [] then None else Some(Without(pending, sent))
    ensures Unique(pending) && store.Some? ==> store.value == pending[|sent|..]
    ensures Finished(Flush(pending, sent, |sent| < |pending|))
    ensures Step(State(pending, Some(Flush(pending, sent, |sent| < |pending|))), Finish).stored ==
            if store.Some? then store.value else pending
  {
    sent := [];
    var i := 0;
    while i < |pending| && delivers(i)
      invariant i <= |pending| && sent == pending[..i] && forall j :: 0 <= j < i ==> delivers(j)
    {
      sent := sent + [pending[i]];
      i := i + 1;
    }
    FlushSplits(pending, |sent|);
    if |sent| > 0 {
      return sent, Some(Without(pending, sent));
    }
    return sent, None;
  }
}
