/** The assertion replay cache of lib/replayProtection.ts against the full history of acceptances.

    The JavaScript Map is the sequence of its entries in insertion order. A call is two steps, the
    cleanup before its await and the check after it, and other calls may run in between. Keys stand
    for the derived hashes; the clock is positive and never runs backwards. */
module ReplayCache {

  const REPLAY_WINDOW_MS := 300000
  const MAX_CACHE_SIZE := 1000

  datatype Slot = Slot(key: string, ts: int)

  /** The cache, the clock, and the history: every acceptance, those of them that put a new entry at
      the end of the Map, and whether trimming ever fired. */
  datatype State = State(cache: seq<Slot>, clock: int, accepted: seq<Slot>, inserted: seq<Slot>, trimmed: bool)

  const INITIAL := State([], 0, [], [], false)

  datatype Event = Cleanup(now: int) | Check(key: string, now: int)

  // ---------------------------------------------------------------- the steps

  /** The position of a key, or the size when it is absent. */
  function IndexOf(cache: seq<Slot>, key: string): (i: nat)
    ensures i <= |cache|
    ensures i < |cache| ==> cache[i].key == key
    ensures forall j :: 0 <= j < i ==> cache[j].key != key
  {
    if cache == [] then 0
    else
      var i := IndexOf(cache[..|cache| - 1], key);
      if i < |cache| - 1 then i else if cache[|cache| - 1].key == key then |cache| - 1 else |cache|
  }

  function Unexpired(cache: seq<Slot>, cutoff: int): (r: seq<Slot>) {
    if cache == [] then []
    else Unexpired(cache[..|cache| - 1], cutoff) + if cache[|cache| - 1].ts < cutoff then [] else [cache[|cache| - 1]]
  }

  predicate IsReplay(cache: seq<Slot>, key: string, now: int) {
    var i := IndexOf(cache, key);
    i < |cache| && cache[i].ts != 0 && now - cache[i].ts < REPLAY_WINDOW_MS
  }

  /** Map.set: an existing key keeps its place. */
  function Put(cache: seq<Slot>, key: string, now: int): (r: seq<Slot>) {
    var i := IndexOf(cache, key);
    if i < |cache| then cache[i := Slot(key, now)] else cache + [Slot(key, now)]
  }

  function Inserted(cache: seq<Slot>, inserted: seq<Slot>, key: string, now: int): (r: seq<Slot>) {
    if IndexOf(cache, key) < |cache| then inserted else inserted + [Slot(key, now)]
  }

  function Trim(cache: seq<Slot>): (r: seq<Slot>) {
    if |cache| > MAX_CACHE_SIZE then cache[|cache| - MAX_CACHE_SIZE..] else cache
  }

  function Step(s: State, e: Event): (r: State) {
    match e
    case Cleanup(now) => s.(clock := now, cache := Unexpired(s.cache, now - REPLAY_WINDOW_MS))
    case Check(key, now) =>
      if IsReplay(s.cache, key, now) then s.(clock := now)
      else
        var put := Put(s.cache, key, now);
        State(Trim(put), now, s.accepted + [Slot(key, now)], Inserted(s.cache, s.inserted, key, now),
              s.trimmed || |put| > MAX_CACHE_SIZE)
  }

  function Run(events: seq<Event>): (r: State) {
    if events == [] then INITIAL else Step(Run(events[..|events| - 1]), events[|events| - 1])
  }

  ghost predicate Monotone(events: seq<Event>) {
    && (events != [] ==> events[0].now > 0)
    && forall i, j :: 0 <= i < j < |events| ==> events[i].now <= events[j].now
  }

  // ---------------------------------------------------------------- the invariant

  /** Accepted within the last five minutes, by the full history. */
  ghost predicate RecentlyAccepted(accepted: seq<Slot>, key: string, now: int) {
    exists i :: 0 <= i < |accepted| && accepted[i].key == key && now - accepted[i].ts < 300000
  }

  ghost predicate Distinct(cache: seq<Slot>) {
    forall i, j :: 0 <= i < j < |cache| ==> cache[i].key != cache[j].key
  }

  /** Every cached entry is the latest acceptance of its key. */
  ghost predicate Latest(cache: seq<Slot>, accepted: seq<Slot>) {
    forall i :: 0 <= i < |cache| ==> IsLatest(cache[i], accepted)
  }

  ghost predicate IsLatest(slot: Slot, accepted: seq<Slot>) {
    slot in accepted && forall j :: 0 <= j < |accepted| && accepted[j].key == slot.key ==> accepted[j].ts <= slot.ts
  }

  ghost predicate Cached(cache: seq<Slot>, key: string) {
    exists i :: 0 <= i < |cache| && cache[i].key == key
  }

  /** What is no longer cached was accepted more than the window ago. */
  ghost predicate Complete(s: State) {
    forall j :: 0 <= j < |s.accepted| && !Cached(s.cache, s.accepted[j].key) ==>
      s.accepted[j].ts < s.clock - REPLAY_WINDOW_MS
  }

  ghost predicate Inv(s: State) {
    && (forall j :: 0 <= j < |s.accepted| ==> 0 < s.accepted[j].ts <= s.clock)
    && Distinct(s.cache) && Latest(s.cache, s.accepted)
    && |s.cache| <= MAX_CACHE_SIZE
    && (!s.trimmed ==> Complete(s))
  }

  /** The positions that a cleanup keeps. */
  ghost function KeptAt(cache: seq<Slot>, cutoff: int): (ks: seq<nat>) {
    if cache == [] then []
    else KeptAt(cache[..|cache| - 1], cutoff) + if cache[|cache| - 1].ts < cutoff then [] else [|cache| - 1]
  }

  /** They are exactly those of the unexpired entries, in the same order. */
  ghost predicate Keeps(cache: seq<Slot>, cutoff: int, kept: seq<Slot>, ks: seq<nat>) {
    && |kept| == |ks|
    && (forall i :: 0 <= i < |ks| ==> ks[i] < |cache| && kept[i] == cache[ks[i]] && kept[i].ts >= cutoff)
    && (forall i, j :: 0 <= i < j < |ks| ==> ks[i] < ks[j])
    && (forall k :: 0 <= k < |cache| && cache[k].ts >= cutoff ==> k in ks)
  }

  lemma {:induction false} KeptFacts(cache: seq<Slot>, cutoff: int)
    ensures Keeps(cache, cutoff, Unexpired(cache, cutoff), KeptAt(cache, cutoff))
  {
    if cache != [] {
      var before, last := cache[..|cache| - 1], cache[|cache| - 1];
      KeptFacts(before, cutoff);
      assert cache == before + [last];
      KeptOneMore(before, last, cutoff, Unexpired(before, cutoff), KeptAt(before, cutoff));
    }
  }

  lemma KeptOneMore(cache: seq<Slot>, slot: Slot, cutoff: int, kept: seq<Slot>, ks: seq<nat>)
    requires Keeps(cache, cutoff, kept, ks)
    ensures slot.ts < cutoff ==> Keeps(cache + [slot], cutoff, kept, ks)
    ensures slot.ts >= cutoff ==> Keeps(cache + [slot], cutoff, kept + [slot], ks + [|cache|])
  {
    assert forall k :: 0 <= k < |cache| ==> (cache + [slot])[k] == cache[k];
    assert (ks + [|cache|])[|ks|] == |cache|;
    assert forall k :: k in ks ==> k in ks + [|cache|];
  }

  lemma UnexpiredDistinct(cache: seq<Slot>, cutoff: int)
    requires Distinct(cache)
    ensures Distinct(Unexpired(cache, cutoff)) && |Unexpired(cache, cutoff)| <= |cache|
  {
    KeptFacts(cache, cutoff);
    IncreasingFits(KeptAt(cache, cutoff), |cache|);
  }

  lemma {:induction false} IncreasingFits(ks: seq<nat>, n: nat)
    requires forall i :: 0 <= i < |ks| ==> ks[i] < n
    requires forall i, j :: 0 <= i < j < |ks| ==> ks[i] < ks[j]
    ensures |ks| <= n
  {
    if ks != [] {
      IncreasingFits(ks[..|ks| - 1], ks[|ks| - 1]);
    }
  }

  lemma UnexpiredCached(cache: seq<Slot>, accepted: seq<Slot>, cutoff: int, j: nat)
    requires Latest(cache, accepted) && j < |accepted|
    requires Cached(cache, accepted[j].key) && !Cached(Unexpired(cache, cutoff), accepted[j].key)
    ensures accepted[j].ts < cutoff
  {
    KeptFacts(cache, cutoff);
    var i :| 0 <= i < |cache| && cache[i].key == accepted[j].key;
    assert IsLatest(cache[i], accepted);
  }

  lemma UnexpiredLatest(cache: seq<Slot>, accepted: seq<Slot>, cutoff: int)
    requires Latest(cache, accepted)
    ensures Latest(Unexpired(cache, cutoff), accepted)
  {
    KeptFacts(cache, cutoff);
    var kept := Unexpired(cache, cutoff);
    forall i | 0 <= i < |kept| ensures IsLatest(kept[i], accepted) {
      assert IsLatest(cache[KeptAt(cache, cutoff)[i]], accepted);
    }
  }

  lemma CleanupComplete(s: State, now: int)
    requires Latest(s.cache, s.accepted) && Complete(s) && s.clock <= now
    ensures Complete(Step(s, Cleanup(now)))
  {
    var t := Step(s, Cleanup(now));
    forall j | 0 <= j < |t.accepted| && !Cached(t.cache, t.accepted[j].key)
      ensures t.accepted[j].ts < now - REPLAY_WINDOW_MS
    {
      if Cached(s.cache, s.accepted[j].key) {
        UnexpiredCached(s.cache, s.accepted, now - REPLAY_WINDOW_MS, j);
      }
    }
  }

  lemma CleanupKeepsInv(s: State, now: int)
    requires Inv(s) && s.clock <= now
    ensures Inv(Step(s, Cleanup(now)))
  {
    UnexpiredDistinct(s.cache, now - REPLAY_WINDOW_MS);
    UnexpiredLatest(s.cache, s.accepted, now - REPLAY_WINDOW_MS);
    if !s.trimmed {
      CleanupComplete(s, now);
    }
  }

  lemma PutKeepsShape(cache: seq<Slot>, accepted: seq<Slot>, key: string, now: int)
    requires Distinct(cache) && Latest(cache, accepted)
    requires forall j :: 0 <= j < |accepted| ==> accepted[j].ts <= now
    ensures var put := Put(cache, key, now);
            Distinct(put) && Latest(put, accepted + [Slot(key, now)]) && |put| <= |cache| + 1
  {
    var put, acc := Put(cache, key, now), accepted + [Slot(key, now)];
    assert acc[|accepted|] == Slot(key, now);
    forall i | 0 <= i < |put| ensures IsLatest(put[i], acc) {
      if put[i] != Slot(key, now) {
        assert put[i] == cache[i] && IsLatest(cache[i], accepted);
      }
    }
  }

  lemma CachedAfterPut(cache: seq<Slot>, key: string, now: int, k: string)
    ensures Cached(Put(cache, key, now), k) <==> k == key || Cached(cache, k)
  {
    var put := Put(cache, key, now);
    var n := IndexOf(cache, key);
    assert put[n].key == key;
    if Cached(cache, k) {
      var i :| 0 <= i < |cache| && cache[i].key == k;
      assert put[i].key == k;
    }
    if Cached(put, k) && k != key {
      var i :| 0 <= i < |put| && put[i].key == k;
      assert cache[i].key == k;
    }
  }

  lemma CheckKeepsInv(s: State, key: string, now: int)
    requires Inv(s) && s.clock <= now && 0 < now
    ensures Inv(Step(s, Check(key, now)))
  {
    var t := Step(s, Check(key, now));
    if !IsReplay(s.cache, key, now) {
      PutKeepsShape(s.cache, s.accepted, key, now);
      if !t.trimmed {
        forall j | 0 <= j < |t.accepted| && !Cached(t.cache, t.accepted[j].key)
          ensures t.accepted[j].ts < now - REPLAY_WINDOW_MS
        {
          CachedAfterPut(s.cache, key, now, t.accepted[j].key);
        }
      }
    }
  }

  lemma {:induction false} RunKeepsInv(events: seq<Event>)
    requires Monotone(events)
    ensures Inv(Run(events))
    ensures Run(events).clock == if events == [] then 0 else events[|events| - 1].now
  {
    if events != [] {
      var s := Run(events[..|events| - 1]);
      RunKeepsInv(events[..|events| - 1]);
      match events[|events| - 1]
      case Cleanup(now) => CleanupKeepsInv(s, now);
      case Check(key, now) => CheckKeepsInv(s, key, now);
    }
  }

  // ---------------------------------------------------------------- answers against history

  /** In every run a replay is reported exactly when the key was accepted less than five minutes
      ago and has not been pushed out; in runs that never trimmed, exactly when it was accepted
      less than five minutes ago. The cache never exceeds a thousand entries. */
  lemma AnswersAgreeWithHistory(events: seq<Event>, key: string, now: int)
    requires Monotone(events) && Run(events).clock <= now
    ensures var s := Run(events);
            && (IsReplay(s.cache, key, now) <==> RecentlyAccepted(s.accepted, key, now) && Cached(s.cache, key))
            && (!s.trimmed ==> (IsReplay(s.cache, key, now) <==> RecentlyAccepted(s.accepted, key, now)))
            && |s.cache| <= 1000
  {
    RunKeepsInv(events);
    var s := Run(events);
    var i := IndexOf(s.cache, key);
    if i < |s.cache| {
      assert IsLatest(s.cache[i], s.accepted);
    }
  }

  /** An accepted key is remembered: shown again it is refused until five minutes have passed, and
      accepted once they have. */
  lemma AcceptedIsRemembered(events: seq<Event>, key: string, now: int, later: int)
    requires Monotone(events) && 0 < now && Run(events).clock <= now <= later
    requires !IsReplay(Run(events).cache, key, now)
    ensures var t := Step(Run(events), Check(key, now));
            && t.accepted == Run(events).accepted + [Slot(key, now)]
            && (IsReplay(t.cache, key, later) <==> later - now < 300000)
  {
    RunKeepsInv(events);
    var s := Run(events);
    var put, n := Put(s.cache, key, now), IndexOf(s.cache, key);
    var t := Step(s, Check(key, now));
    PutKeepsShape(s.cache, s.accepted, key, now);
    assert put[n] == Slot(key, now);
    StillThere(put, n);
    assert Distinct(t.cache) by { CheckKeepsInv(s, key, now); }
    var i :| 0 <= i < |t.cache| && t.cache[i] == Slot(key, now);
    assert IndexOf(t.cache, key) <= i;
  }

  /** Trimming one entry too many spares what was put last. */
  lemma StillThere(put: seq<Slot>, n: nat)
    requires n < |put| <= MAX_CACHE_SIZE + 1 && (|put| > MAX_CACHE_SIZE ==> n == |put| - 1)
    ensures put[n] in Trim(put)
  {
    if |put| > MAX_CACHE_SIZE {
      assert Trim(put)[n - 1] == put[n];
    }
  }

  lemma NewKeyEvictsFirst(s: State, novel: string, now: int)
    requires Distinct(s.cache) && |s.cache| == MAX_CACHE_SIZE && !Cached(s.cache, novel)
    ensures var t := Step(s, Check(novel, now));
            t.accepted == s.accepted + [Slot(novel, now)] && !IsReplay(t.cache, s.cache[0].key, now)
  {
    var put := s.cache + [Slot(novel, now)];
    assert IndexOf(s.cache, novel) == |s.cache|;
    assert s.cache[0].key != novel;
    assert Step(s, Check(novel, now)).cache == put[1..];
    assert forall i :: 0 <= i < |put| - 1 ==> put[1..][i] == put[i + 1];
  }

  /** What trimming costs: in a full cache a new key pushes out the first one, which is then
      accepted again however recent it is. */
  lemma EvictedKeyIsAcceptedAgain(events: seq<Event>, novel: string, now: int)
    requires Monotone(events) && 0 < now && Run(events).clock <= now
    requires var s := Run(events); |s.cache| == MAX_CACHE_SIZE && !Cached(s.cache, novel)
    ensures var s := Run(events);
            !IsReplay(Step(s, Check(novel, now)).cache, s.cache[0].key, now)
  {
    RunKeepsInv(events);
    NewKeyEvictsFirst(Run(events), novel, now);
  }

  // ---------------------------------------------------------------- who is pushed out

  /** The number of the latest insertion of a key, or their count when it was never inserted. */
  function PlaceOf(inserted: seq<Slot>, key: string): (p: nat)
    ensures p <= |inserted|
    ensures p < |inserted| ==> inserted[p].key == key
  {
    if inserted == [] then 0
    else
      var n := |inserted| - 1;
      if inserted[n].key == key then n
      else
        var p := PlaceOf(inserted[..n], key);
        if p < n then p else n + 1
  }

  lemma PlaceAfter(inserted: seq<Slot>, slot: Slot, key: string)
    ensures PlaceOf(inserted + [slot], key) ==
            if slot.key == key then |inserted|
            else if PlaceOf(inserted, key) < |inserted| then PlaceOf(inserted, key)
            else |inserted| + 1
  {
    assert (inserted + [slot])[..|inserted|] == inserted;
  }

  /** The Map's entries stand in the order of their insertions, and none is dated before its own. */
  ghost predicate InOrder(cache: seq<Slot>, ins: seq<Slot>) {
    && (forall i :: 0 <= i < |cache| ==> PlaceOf(ins, cache[i].key) < |ins|)
    && (forall i :: 0 <= i < |cache| ==> ins[PlaceOf(ins, cache[i].key)].ts <= cache[i].ts)
    && (forall i, j :: 0 <= i < j < |cache| ==> PlaceOf(ins, cache[i].key) < PlaceOf(ins, cache[j].key))
  }

  ghost predicate TimesGrow(ins: seq<Slot>, clock: int) {
    && (forall i :: 0 <= i < |ins| ==> ins[i].ts <= clock)
    && forall i, j :: 0 <= i < j < |ins| ==> ins[i].ts <= ins[j].ts
  }

  /** Behind an entry inserted within the window, nothing inserted since is missing. */
  ghost predicate Dense(cache: seq<Slot>, ins: seq<Slot>, clock: int) {
    forall i :: 0 <= i < |cache| && PlaceOf(ins, cache[i].key) < |ins|
                && ins[PlaceOf(ins, cache[i].key)].ts >= clock - REPLAY_WINDOW_MS ==>
      |cache| - i == |ins| - PlaceOf(ins, cache[i].key)
  }

  /** A key not cached any more has expired or was followed by a thousand insertions. */
  ghost predicate ExplainedAt(s: State, j: nat)
    requires j < |s.accepted|
  {
    var p := PlaceOf(s.inserted, s.accepted[j].key);
    && p < |s.inserted|
    && (Cached(s.cache, s.accepted[j].key)
        || s.accepted[j].ts < s.clock - REPLAY_WINDOW_MS
        || |s.inserted| - p > MAX_CACHE_SIZE)
  }

  ghost predicate Explained(s: State) {
    forall j :: 0 <= j < |s.accepted| ==> ExplainedAt(s, j)
  }

  ghost predicate Places(s: State) {
    && InOrder(s.cache, s.inserted) && TimesGrow(s.inserted, s.clock)
    && Dense(s.cache, s.inserted, s.clock) && Explained(s)
  }

  /** An entry has at most as many behind it as were inserted after it. */
  lemma {:induction false} RoomBehind(cache: seq<Slot>, ins: seq<Slot>, i: nat)
    requires InOrder(cache, ins) && i < |cache|
    ensures |cache| - i <= |ins| - PlaceOf(ins, cache[i].key)
    decreases |cache| - i
  {
    if i + 1 < |cache| {
      RoomBehind(cache, ins, i + 1);
    }
  }

  lemma UnexpiredKeepsOrder(cache: seq<Slot>, ins: seq<Slot>, cutoff: int)
    requires InOrder(cache, ins)
    ensures InOrder(Unexpired(cache, cutoff), ins)
  {
    KeptFacts(cache, cutoff);
  }

  /** When everything from position k on is kept, so are the distances to the end. */
  lemma {:induction false} TailKept(cache: seq<Slot>, cutoff: int, kept: seq<Slot>, ks: seq<nat>, i: nat)
    requires Keeps(cache, cutoff, kept, ks) && i < |ks|
    requires forall m :: ks[i] <= m < |cache| ==> cache[m].ts >= cutoff
    ensures |kept| - i == |cache| - ks[i]
    decreases |ks| - i
  {
    assert i + 1 < |ks| ==> ks[i] < ks[i + 1] < |cache|;
    if ks[i] + 1 < |cache| {
      assert ks[i] + 1 in ks;
      var m :| 0 <= m < |ks| && ks[m] == ks[i] + 1;
      TailKept(cache, cutoff, kept, ks, i + 1);
    }
  }

  lemma CleanupKeepsDense(cache: seq<Slot>, ins: seq<Slot>, clock: int, now: int)
    requires InOrder(cache, ins) && TimesGrow(ins, clock) && Dense(cache, ins, clock) && clock <= now
    ensures Dense(Unexpired(cache, now - REPLAY_WINDOW_MS), ins, now)
  {
    var cutoff := now - REPLAY_WINDOW_MS;
    var kept, ks := Unexpired(cache, cutoff), KeptAt(cache, cutoff);
    KeptFacts(cache, cutoff);
    forall i | 0 <= i < |kept| && PlaceOf(ins, kept[i].key) < |ins| && ins[PlaceOf(ins, kept[i].key)].ts >= cutoff
      ensures |kept| - i == |ins| - PlaceOf(ins, kept[i].key)
    {
      forall m | ks[i] <= m < |cache| ensures cache[m].ts >= cutoff {
        if m > ks[i] {
          assert PlaceOf(ins, cache[ks[i]].key) < PlaceOf(ins, cache[m].key);
        }
      }
      TailKept(cache, cutoff, kept, ks, i);
    }
  }

  lemma CleanupExplains(s: State, now: int, j: nat)
    requires Latest(s.cache, s.accepted) && Explained(s) && s.clock <= now && j < |s.accepted|
    ensures ExplainedAt(Step(s, Cleanup(now)), j)
  {
    assert ExplainedAt(s, j);
    if Cached(s.cache, s.accepted[j].key) && !Cached(Unexpired(s.cache, now - REPLAY_WINDOW_MS), s.accepted[j].key) {
      UnexpiredCached(s.cache, s.accepted, now - REPLAY_WINDOW_MS, j);
    }
  }

  lemma CleanupKeepsPlaces(s: State, now: int)
    requires Latest(s.cache, s.accepted) && Places(s) && s.clock <= now
    ensures Places(Step(s, Cleanup(now)))
  {
    var kept := Unexpired(s.cache, now - REPLAY_WINDOW_MS);
    UnexpiredKeepsOrder(s.cache, s.inserted, now - REPLAY_WINDOW_MS);
    CleanupKeepsDense(s.cache, s.inserted, s.clock, now);
    var t := Step(s, Cleanup(now));
    assert t == s.(clock := now, cache := kept);
    assert Explained(t) by {
      forall j | 0 <= j < |t.accepted| ensures ExplainedAt(t, j) {
        CleanupExplains(s, now, j);
      }
    }
  }

  /** Put at the end: the new entry is the last insertion and every other place is as it was. */
  lemma AppendKeepsPlaces(cache: seq<Slot>, ins: seq<Slot>, clock: int, slot: Slot)
    requires InOrder(cache, ins) && TimesGrow(ins, clock) && Dense(cache, ins, clock) && clock <= slot.ts
    requires !Cached(cache, slot.key)
    ensures InOrder(cache + [slot], ins + [slot]) && TimesGrow(ins + [slot], slot.ts)
    ensures Dense(cache + [slot], ins + [slot], slot.ts)
  {
    var c := cache + [slot];
    forall i | 0 <= i < |c|
      ensures PlaceOf(ins + [slot], c[i].key) == if i < |cache| then PlaceOf(ins, c[i].key) else |ins|
    {
      PlaceAfter(ins, slot, c[i].key);
      assert i < |cache| ==> c[i] == cache[i];
    }
  }

  lemma RefreshKeepsPlaces(cache: seq<Slot>, ins: seq<Slot>, clock: int, i: nat, now: int)
    requires InOrder(cache, ins) && TimesGrow(ins, clock) && Dense(cache, ins, clock) && clock <= now
    requires i < |cache|
    ensures var c := cache[i := Slot(cache[i].key, now)];
            InOrder(c, ins) && TimesGrow(ins, now) && Dense(c, ins, now)
  {
    var c := cache[i := Slot(cache[i].key, now)];
    assert forall j :: 0 <= j < |c| ==> c[j].key == cache[j].key;
  }

  lemma TrimDrops(cache: seq<Slot>) returns (d: nat)
    ensures d <= |cache| && Trim(cache) == cache[d..] && (d > 0 ==> |cache| - d == MAX_CACHE_SIZE)
  {
    d := if |cache| > MAX_CACHE_SIZE then |cache| - MAX_CACHE_SIZE else 0;
  }

  lemma DropKeepsPlaces(cache: seq<Slot>, ins: seq<Slot>, clock: int, d: nat)
    requires d <= |cache| && InOrder(cache, ins) && Dense(cache, ins, clock)
    ensures InOrder(cache[d..], ins) && Dense(cache[d..], ins, clock)
  {
    var r := cache[d..];
    forall i | 0 <= i < |r| && ins[PlaceOf(ins, r[i].key)].ts >= clock - REPLAY_WINDOW_MS
      ensures |r| - i == |ins| - PlaceOf(ins, r[i].key)
    {
      assert r[i] == cache[i + d];
    }
  }

  lemma CachedBehind(cache: seq<Slot>, d: nat, i: nat)
    requires d <= i < |cache|
    ensures Cached(cache[d..], cache[i].key)
  {
    assert cache[d..][i - d] == cache[i];
  }

  /** Trimming pushes out only keys that a thousand insertions have followed. */
  lemma TrimExplains(cache: seq<Slot>, ins: seq<Slot>, i: nat)
    requires InOrder(cache, ins) && i < |cache| && !Cached(Trim(cache), cache[i].key)
    ensures |ins| - PlaceOf(ins, cache[i].key) > MAX_CACHE_SIZE
  {
    var d := TrimDrops(cache);
    if i < d {
      RoomBehind(cache, ins, i);
    } else {
      CachedBehind(cache, d, i);
    }
  }

  lemma CheckKeepsPlaces(s: State, key: string, now: int)
    requires Inv(s) && Places(s) && s.clock <= now && 0 < now && !IsReplay(s.cache, key, now)
    ensures Places(Step(s, Check(key, now)))
  {
    var t, put := Step(s, Check(key, now)), Put(s.cache, key, now);
    var i := IndexOf(s.cache, key);
    if i < |s.cache| {
      RefreshKeepsPlaces(s.cache, s.inserted, s.clock, i, now);
    } else {
      assert !Cached(s.cache, key);
      AppendKeepsPlaces(s.cache, s.inserted, s.clock, Slot(key, now));
    }
    var d := TrimDrops(put);
    DropKeepsPlaces(put, t.inserted, now, d);
    forall j | 0 <= j < |t.accepted| ensures ExplainedAt(t, j) {
      CheckExplains(s, key, now, j);
    }
  }

  lemma CheckExplains(s: State, key: string, now: int, j: nat)
    requires Inv(s) && Places(s) && s.clock <= now && !IsReplay(s.cache, key, now)
    requires var t := Step(s, Check(key, now)); j < |t.accepted| && InOrder(Put(s.cache, key, now), t.inserted)
    ensures ExplainedAt(Step(s, Check(key, now)), j)
  {
    var t, put := Step(s, Check(key, now)), Put(s.cache, key, now);
    var k := t.accepted[j].key;
    CachedAfterPut(s.cache, key, now, k);
    if j < |s.accepted| {
      assert ExplainedAt(s, j);
    }
    PlaceAfter(s.inserted, Slot(key, now), k);
    if Cached(put, k) {
      var i :| 0 <= i < |put| && put[i].key == k;
      if !Cached(t.cache, k) {
        TrimExplains(put, t.inserted, i);
      }
    }
  }

  lemma ReplayKeepsPlaces(s: State, now: int)
    requires Places(s) && s.clock <= now
    ensures Places(s.(clock := now))
  {
    forall j | 0 <= j < |s.accepted| ensures ExplainedAt(s.(clock := now), j) {
      assert ExplainedAt(s, j);
    }
  }

  lemma StepKeepsPlaces(s: State, e: Event)
    requires Inv(s) && Places(s) && s.clock <= e.now && 0 < e.now
    ensures Places(Step(s, e))
  {
    match e
    case Cleanup(now) => CleanupKeepsPlaces(s, now);
    case Check(key, now) =>
      if IsReplay(s.cache, key, now) {
        ReplayKeepsPlaces(s, now);
      } else {
        CheckKeepsPlaces(s, key, now);
      }
  }

  lemma {:induction false} RunKeepsPlaces(events: seq<Event>)
    requires Monotone(events)
    ensures Places(Run(events))
  {
    if events != [] {
      var s := Run(events[..|events| - 1]);
      RunKeepsInv(events[..|events| - 1]);
      RunKeepsPlaces(events[..|events| - 1]);
      StepKeepsPlaces(s, events[|events| - 1]);
    }
  }

  /** In every run, a key accepted less than five minutes ago is still refused if fewer than a
      thousand insertions followed its own; and exactly then, when its own insertion lies within the
      five minutes too, that is, unless it was accepted again in its old place. */
  lemma ThousandInsertionsDecide(events: seq<Event>, key: string, now: int)
    requires Monotone(events) && Run(events).clock <= now
    requires RecentlyAccepted(Run(events).accepted, key, now)
    ensures var s := Run(events);
            var p := PlaceOf(s.inserted, key);
            && p < |s.inserted|
            && (|s.inserted| - 1 - p < 1000 ==> IsReplay(s.cache, key, now))
            && (now - s.inserted[p].ts < 300000 ==>
                  (IsReplay(s.cache, key, now) <==> |s.inserted| - 1 - p < 1000))
  {
    var s := Run(events);
    RunKeepsInv(events);
    RunKeepsPlaces(events);
    AnswersAgreeWithHistory(events, key, now);
    var j :| 0 <= j < |s.accepted| && s.accepted[j].key == key && now - s.accepted[j].ts < REPLAY_WINDOW_MS;
    assert ExplainedAt(s, j);
  }

  lemma RefreshThenEvict(s: State, novel: string, now: int)
    requires Distinct(s.cache) && |s.cache| == MAX_CACHE_SIZE && !Cached(s.cache, novel)
    requires now - s.cache[0].ts >= REPLAY_WINDOW_MS
    ensures var first := s.cache[0].key;
            var t := Step(Step(s, Check(first, now)), Check(novel, now));
            RecentlyAccepted(t.accepted, first, now) && !IsReplay(t.cache, first, now)
  {
    var first := s.cache[0].key;
    assert IndexOf(s.cache, first) == 0;
    var s1 := Step(s, Check(first, now));
    assert s1.cache == s.cache[0 := Slot(first, now)];
    assert forall i :: 0 <= i < |s1.cache| ==> s1.cache[i].key == s.cache[i].key;
    NewKeyEvictsFirst(s1, novel, now);
    assert Step(s1, Check(novel, now)).accepted[|s.accepted|] == Slot(first, now);
  }

  /** An entry as old as the window or older that no cleanup has removed is accepted again in its
      old place; when that is the first place of a full cache, the next new key pushes it out, and
      it is accepted once more at the very same moment. */
  lemma RefreshedKeyIsNextOut(events: seq<Event>, novel: string, now: int)
    requires Monotone(events) && 0 < now && Run(events).clock <= now
    requires var s := Run(events);
             && |s.cache| == MAX_CACHE_SIZE && !Cached(s.cache, novel)
             && now - s.cache[0].ts >= REPLAY_WINDOW_MS
    ensures var first := Run(events).cache[0].key;
            var t := Step(Step(Run(events), Check(first, now)), Check(novel, now));
            RecentlyAccepted(t.accepted, first, now) && !IsReplay(t.cache, first, now)
  {
    RunKeepsInv(events);
    RefreshThenEvict(Run(events), novel, now);
  }

  // ---------------------------------------------------------------- runs that fill the cache

  /** The n-th of a sequence of different keys. */
  function Key(n: nat): (k: string)
    ensures |k| == n
  {
    seq(n, _ => 'k')
  }

  function Filled(n: nat): (cache: seq<Slot>)
    ensures |cache| == n && forall i :: 0 <= i < n ==> cache[i] == Slot(Key(i), 1)
  {
    seq(n, i requires 0 <= i < n => Slot(Key(i), 1))
  }

  /** n calls with different keys, all at time 1. */
  function Filling(n: nat): (events: seq<Event>)
    ensures Monotone(events) && forall i :: 0 <= i < |events| ==> events[i].now == 1
  {
    if n == 0 then [] else Filling(n - 1) + [Cleanup(1), Check(Key(n - 1), 1)]
  }

  lemma NothingExpires(n: nat, cutoff: int)
    requires cutoff <= 1
    ensures Unexpired(Filled(n), cutoff) == Filled(n)
  {
    if n > 0 {
      NothingExpires(n - 1, cutoff);
      assert Filled(n)[..n - 1] == Filled(n - 1);
    }
  }

  lemma KeyMissing(n: nat)
    ensures !Cached(Filled(n), Key(n)) && IndexOf(Filled(n), Key(n)) == n
  {
    forall i | 0 <= i < n ensures Filled(n)[i].key != Key(n) {
      assert |Key(i)| != |Key(n)|;
    }
  }

  lemma FilledOneMore(n: nat)
    ensures Filled(n) + [Slot(Key(n), 1)] == Filled(n + 1)
  {}

  lemma FillPut(n: nat)
    ensures Put(Filled(n), Key(n), 1) == Filled(n + 1) && !IsReplay(Filled(n), Key(n), 1)
    ensures Inserted(Filled(n), Filled(n), Key(n), 1) == Filled(n + 1)
  {
    KeyMissing(n);
    FilledOneMore(n);
  }

  ghost predicate FilledWith(s: State, n: nat) {
    s.cache == Filled(n) && s.accepted == Filled(n) && s.inserted == Filled(n)
  }

  lemma FillOne(s: State, n: nat)
    requires n < MAX_CACHE_SIZE && FilledWith(s, n)
    ensures var t := Step(Step(s, Cleanup(1)), Check(Key(n), 1));
            FilledWith(t, n + 1) && t.clock == 1
  {
    NothingExpires(n, 1 - REPLAY_WINDOW_MS);
    FillPut(n);
    FilledOneMore(n);
    assert Step(s, Cleanup(1)) == s.(clock := 1);
  }

  lemma RunCall(events: seq<Event>, d: Event, e: Event)
    ensures Run(events + [d, e]) == Step(Step(Run(events), d), e)
  {
    var all := events + [d, e];
    assert all[..|events| + 1] == events + [d] && (events + [d])[..|events|] == events;
  }

  lemma {:induction false} FillingFills(n: nat)
    requires n <= MAX_CACHE_SIZE
    ensures FilledWith(Run(Filling(n)), n) && Run(Filling(n)).clock <= 1
  {
    if n > 0 {
      FillingFills(n - 1);
      FillOne(Run(Filling(n - 1)), n - 1);
      RunCall(Filling(n - 1), Cleanup(1), Check(Key(n - 1), 1));
    }
  }

  /** The full cache, with any number of cleanups on top that have nothing to remove. */
  lemma StaysFull(s: State, now: int)
    requires s.cache == Filled(MAX_CACHE_SIZE) && now <= 1 + REPLAY_WINDOW_MS
    ensures Step(s, Cleanup(now)) == s.(clock := now)
    ensures Distinct(s.cache) && !Cached(s.cache, Key(MAX_CACHE_SIZE))
  {
    NothingExpires(MAX_CACHE_SIZE, now - REPLAY_WINDOW_MS);
    KeyMissing(MAX_CACHE_SIZE);
    forall i, j | 0 <= i < j < MAX_CACHE_SIZE ensures s.cache[i].key != s.cache[j].key {
      assert |Key(i)| != |Key(j)|;
    }
  }

  /** After 1001 calls at one moment the first key would be accepted again at that moment, although
      it was accepted then. */
  lemma EvictionHappens()
    ensures var t := Run(Filling(MAX_CACHE_SIZE + 1));
            RecentlyAccepted(t.accepted, Key(0), 1) && !IsReplay(t.cache, Key(0), 1)
  {
    var n := MAX_CACHE_SIZE;
    var s := Run(Filling(n));
    FillingFills(n);
    StaysFull(s, 1);
    NewKeyEvictsFirst(s.(clock := 1), Key(n), 1);
    RunCall(Filling(n), Cleanup(1), Check(Key(n), 1));
    assert Run(Filling(n + 1)).accepted[0] == Slot(Key(0), 1);
  }

  /** Exactly five minutes after a thousand calls two more come at once: the first key again, which
      is accepted in its old place, and a new one, which pushes it out. The first key would then be
      accepted yet again at that moment. */
  lemma RefreshedEvictionHappens()
    ensures var now := 1 + REPLAY_WINDOW_MS;
            var events := Filling(MAX_CACHE_SIZE) + [Cleanup(now), Cleanup(now)];
            var t := Step(Step(Run(events), Check(Key(0), now)), Check(Key(MAX_CACHE_SIZE), now));
            RecentlyAccepted(t.accepted, Key(0), now) && !IsReplay(t.cache, Key(0), now)
  {
    var n, now := MAX_CACHE_SIZE, 1 + REPLAY_WINDOW_MS;
    var s := Run(Filling(n));
    FillingFills(n);
    StaysFull(s, now);
    StaysFull(s.(clock := now), now);
    RunCall(Filling(n), Cleanup(now), Cleanup(now));
    RefreshThenEvict(s.(clock := now), Key(n), now);
  }

  lemma {:induction false} PlaceFound(inserted: seq<Slot>, i: nat)
    requires i < |inserted|
    ensures PlaceOf(inserted, inserted[i].key) < |inserted|
  {
    if i < |inserted| - 1 {
      PlaceFound(inserted[..|inserted| - 1], i);
    }
  }

  /** With the first key of a full cache refreshed, everything else expires. */
  lemma {:induction false} OnlyFirstKept(n: nat, ts: int)
    requires n > 0 && ts >= 2
    ensures Unexpired(Filled(n)[0 := Slot(Key(0), ts)], 2) == [Slot(Key(0), ts)]
  {
    var cache := Filled(n)[0 := Slot(Key(0), ts)];
    if n == 1 {
      assert cache == [Slot(Key(0), ts)] && cache[..0] == [];
    } else {
      OnlyFirstKept(n - 1, ts);
      assert cache[..n - 1] == Filled(n - 1)[0 := Slot(Key(0), ts)];
      assert cache[n - 1] == Slot(Key(n - 1), 1);
    }
  }

  /** The first key refreshed in its place, the others cleaned up a moment later, and one new key. */
  lemma RefreshThenClean(s: State)
    requires FilledWith(s, MAX_CACHE_SIZE)
    ensures var now := 1 + REPLAY_WINDOW_MS;
            var t := Step(Step(Step(s, Check(Key(0), now)), Cleanup(now + 1)), Check(Key(MAX_CACHE_SIZE), now + 1));
            && t.cache == [Slot(Key(0), now), Slot(Key(MAX_CACHE_SIZE), now + 1)]
            && t.inserted == Filled(MAX_CACHE_SIZE) + [Slot(Key(MAX_CACHE_SIZE), now + 1)]
            && Slot(Key(0), now) in t.accepted
  {
    var n, now := MAX_CACHE_SIZE, 1 + REPLAY_WINDOW_MS;
    assert IndexOf(s.cache, Key(0)) == 0;
    var s1 := Step(s, Check(Key(0), now));
    assert s1.cache == Filled(n)[0 := Slot(Key(0), now)] && s1.accepted[n] == Slot(Key(0), now);
    OnlyFirstKept(n, now);
    var s2 := Step(s1, Cleanup(now + 1));
    assert s2.cache == [Slot(Key(0), now)];
    assert |Key(0)| != |Key(n)|;
    assert IndexOf(s2.cache, Key(n)) == 1;
    var t := Step(s2, Check(Key(n), now + 1));
    assert t.accepted == s1.accepted + [Slot(Key(n), now + 1)] && t.accepted[n] == Slot(Key(0), now);
  }

  lemma PlaceOfFirst(n: nat, slot: Slot)
    requires n > 0 && slot.key != Key(0)
    ensures PlaceOf(Filled(n) + [slot], Key(0)) == 0
  {
    PlaceFound(Filled(n), 0);
    PlaceAfter(Filled(n), slot, Key(0));
    var p := PlaceOf(Filled(n), Key(0));
    assert |Key(p)| == p;
  }

  function Calls(key: string, now: int): (events: seq<Event>) { [Cleanup(now), Check(key, now)] }

  /** A thousand calls at one moment, the first key again five minutes later, and a new key a
      millisecond after that. */
  function RefreshedRun(): (events: seq<Event>) {
    var now := 1 + REPLAY_WINDOW_MS;
    Filling(MAX_CACHE_SIZE) + Calls(Key(0), now) + Calls(Key(MAX_CACHE_SIZE), now + 1)
  }

  lemma RefreshedRunEnds()
    ensures var now, t := 1 + REPLAY_WINDOW_MS, Run(RefreshedRun());
            && t.cache == [Slot(Key(0), now), Slot(Key(MAX_CACHE_SIZE), now + 1)]
            && t.inserted == Filled(MAX_CACHE_SIZE) + [Slot(Key(MAX_CACHE_SIZE), now + 1)]
            && Slot(Key(0), now) in t.accepted
  {
    var n, now := MAX_CACHE_SIZE, 1 + REPLAY_WINDOW_MS;
    FillingFills(n);
    StaysFull(Run(Filling(n)), now);
    RefreshThenClean(Run(Filling(n)).(clock := now));
    RunCall(Filling(n), Cleanup(now), Check(Key(0), now));
    RunCall(Filling(n) + Calls(Key(0), now), Cleanup(now + 1), Check(Key(n), now + 1));
  }

  /** A key refreshed in its place can outlive a thousand insertions, because a cleanup removes what
      stood behind it: it is refused, though a thousand insertions have followed its own. */
  lemma RefreshedKeyOutlivesInsertions()
    ensures var s, now := Run(RefreshedRun()), 2 + REPLAY_WINDOW_MS;
            && RecentlyAccepted(s.accepted, Key(0), now) && IsReplay(s.cache, Key(0), now)
            && |s.inserted| - 1 - PlaceOf(s.inserted, Key(0)) == MAX_CACHE_SIZE
  {
    var s, now := Run(RefreshedRun()), 1 + REPLAY_WINDOW_MS;
    RefreshedRunEnds();
    assert |Key(0)| != |Key(MAX_CACHE_SIZE)|;
    PlaceOfFirst(MAX_CACHE_SIZE, Slot(Key(MAX_CACHE_SIZE), now + 1));
    assert IndexOf(s.cache, Key(0)) == 0;
    var j :| 0 <= j < |s.accepted| && s.accepted[j] == Slot(Key(0), now);
  }

  // ---------------------------------------------------------------- the module's own variable

  class Cache {
    var replayCache: seq<Slot>
    ghost var clock: int
    ghost var accepted: seq<Slot>
    ghost var inserted: seq<Slot>
    ghost var trimmed: bool

    ghost function Model(): (r: State) reads this { State(replayCache, clock, accepted, inserted, trimmed) }

    constructor ()
      ensures Model() == INITIAL
    {
      replayCache, clock, accepted, inserted, trimmed := [], 0, [], [], false;
    }

    method CleanupExpired(now: int)
      modifies this
      ensures Model() == Step(old(Model()), Cleanup(now))
    {
      var cutoff := now - REPLAY_WINDOW_MS;
      var kept: seq<Slot> := [];
      for i := 0 to |replayCache|
        invariant unchanged(this) && kept == Unexpired(replayCache[..i], cutoff)
      {
        assert replayCache[..i + 1][..i] == replayCache[..i];
        if !(replayCache[i].ts < cutoff) {
          kept := kept + [replayCache[i]];
        }
      }
      assert replayCache[..|replayCache|] == replayCache;
      replayCache, clock := kept, now;
    }

    method TrimCache()
      modifies this`replayCache
      ensures replayCache == Trim(old(replayCache))
    {
      while |replayCache| > MAX_CACHE_SIZE
        invariant |replayCache| <= |old(replayCache)|
        invariant replayCache == old(replayCache)[|old(replayCache)| - |replayCache|..]
        invariant |old(replayCache)| >= MAX_CACHE_SIZE ==> |replayCache| >= MAX_CACHE_SIZE
        invariant |old(replayCache)| < MAX_CACHE_SIZE ==> replayCache == old(replayCache)
        decreases |replayCache|
      {
        replayCache := replayCache[1..];
      }
    }

    /** The part after the await; true reports a replay. */
    method CheckAndReserve(key: string, now: int) returns (replay: bool)
      modifies this
      ensures replay <==> IsReplay(old(replayCache), key, now)
      ensures Model() == Step(old(Model()), Check(key, now))
    {
      var i := IndexOf(replayCache, key);
      clock := now;
      if i < |replayCache| && replayCache[i].ts != 0 && now - replayCache[i].ts < REPLAY_WINDOW_MS {
        return true;
      }
      inserted := Inserted(replayCache, inserted, key, now);
      replayCache := Put(replayCache, key, now);
      accepted := accepted + [Slot(key, now)];
      trimmed := trimmed || |replayCache| > MAX_CACHE_SIZE;
      if |replayCache| > MAX_CACHE_SIZE {
        TrimCache();
      }
      return false;
    }
  }
}
