/** The limiters of lib/rateLimit/slidingWindow.ts against specifications over the whole history.
    Time is milliseconds of a clock that never runs backwards. */
module SlidingWindow {

  // ---------------------------------------------------------------- one window

  /** How many of the first k times lie in (lo, hi]. */
  function CountFirst(times: seq<int>, k: nat, lo: int, hi: int): (r: nat)
    requires k <= |times|
  {
    if k == 0 then 0
    else CountFirst(times, k - 1, lo, hi) + if lo < times[k - 1] <= hi then 1 else 0
  }

  function CountIn(times: seq<int>, lo: int, hi: int): (r: nat) { CountFirst(times, |times|, lo, hi) }

  lemma {:induction false} CountAppend(times: seq<int>, x: int, k: nat, lo: int, hi: int)
    requires k <= |times|
    ensures CountFirst(times + [x], k, lo, hi) == CountFirst(times, k, lo, hi)
  {
    if k > 0 {
      CountAppend(times, x, k - 1, lo, hi);
    }
  }

  ghost predicate Sorted(times: seq<int>) {
    forall i, j :: 0 <= i < j < |times| ==> times[i] <= times[j]
  }

  /** The rule over the full history: a call at `now` is admitted exactly when fewer than maxHits
      admissions lie in (now - window, now]. */
  ghost function Decide(admitted: seq<int>, now: int, window: nat, maxHits: nat): (r: seq<int>) {
    if CountIn(admitted, now - window, now) < maxHits then admitted + [now] else admitted
  }

  ghost function Admitted(calls: seq<int>, window: nat, maxHits: nat): (r: seq<int>) {
    if calls == [] then []
    else Decide(Admitted(calls[..|calls| - 1], window, maxHits), calls[|calls| - 1], window, maxHits)
  }

  lemma {:induction false} CountShrinks(times: seq<int>, k: nat, lo: int, hi: int, lo': int, hi': int)
    requires k <= |times| && lo <= lo' && UpTo(times, hi)
    ensures CountFirst(times, k, lo', hi') <= CountFirst(times, k, lo, hi)
  {
    if k > 0 {
      CountShrinks(times, k - 1, lo, hi, lo', hi');
    }
  }

  ghost predicate UpTo(times: seq<int>, t: int) {
    forall i :: 0 <= i < |times| ==> times[i] <= t
  }

  lemma DecideUpTo(admitted: seq<int>, now: int, window: nat, maxHits: nat, t: int)
    requires UpTo(admitted, t) && now <= t
    ensures UpTo(Decide(admitted, now, window, maxHits), t)
  {}

  lemma {:induction false} AdmittedUpTo(calls: seq<int>, window: nat, maxHits: nat, t: int)
    requires UpTo(calls, t)
    ensures UpTo(Admitted(calls, window, maxHits), t)
  {
    if calls != [] {
      var p, now := calls[..|calls| - 1], calls[|calls| - 1];
      AdmittedUpTo(p, window, maxHits, t);
      DecideUpTo(Admitted(p, window, maxHits), now, window, maxHits, t);
    }
  }

  lemma DecideKeepsBound(admitted: seq<int>, now: int, window: nat, maxHits: nat, t: int)
    requires UpTo(admitted, now) && CountIn(admitted, t - window, t) <= maxHits
    ensures CountIn(Decide(admitted, now, window, maxHits), t - window, t) <= maxHits
  {
    CountAppend(admitted, now, |admitted|, t - window, t);
    if t - window < now <= t {
      CountShrinks(admitted, |admitted|, now - window, now, t - window, t);
    }
  }

  /** No half-open window, wherever it is placed, holds more than maxHits admissions. */
  lemma {:induction false} NoWindowOverflows(calls: seq<int>, window: nat, maxHits: nat, t: int)
    requires Sorted(calls)
    ensures CountIn(Admitted(calls, window, maxHits), t - window, t) <= maxHits
  {
    if calls != [] {
      var p, now := calls[..|calls| - 1], calls[|calls| - 1];
      NoWindowOverflows(p, window, maxHits, t);
      AdmittedUpTo(p, window, maxHits, now);
      DecideKeepsBound(Admitted(p, window, maxHits), now, window, maxHits, t);
    }
  }

  lemma {:induction false} OldEntriesDoNotCount(times: seq<int>, k: nat, j: nat, lo: int, hi: int)
    requires k <= |times| && j <= |times|
    requires forall i :: 0 <= i < k ==> times[i] <= lo
    requires forall i :: k <= i < |times| ==> lo < times[i] <= hi
    ensures CountFirst(times, j, lo, hi) == if j <= k then 0 else j - k
  {
    if j > 0 {
      OldEntriesDoNotCount(times, k, j - 1, lo, hi);
    }
  }

  ghost predicate Gone(times: seq<int>, k: nat, t: int)
    requires k <= |times|
  {
    forall i :: 0 <= i < k ==> times[i] <= t
  }

  class SlidingWindowLimiter {
    const windowMs: nat
    const maxHits: nat
    var entries: seq<int>
    ghost var admitted: seq<int>
    ghost var clock: int

    /** The kept entries are the last of all admissions; what was dropped has left the window. */
    ghost predicate Valid()
      reads this
    {
      && Sorted(admitted) && UpTo(admitted, clock)
      && |entries| <= |admitted| && entries == admitted[|admitted| - |entries|..]
      && Gone(admitted, |admitted| - |entries|, clock - windowMs)
    }

    constructor (windowMs: nat, maxHits: nat)
      ensures Valid() && admitted == [] && clock == 0
      ensures this.windowMs == windowMs && this.maxHits == maxHits
    {
      this.windowMs, this.maxHits := windowMs, maxHits;
      entries, admitted, clock := [], [], 0;
    }

    method DropExpired(now: int)
      requires Valid() && clock == now
      modifies this`entries
      ensures Valid() && (entries != [] ==> now - entries[0] < windowMs)
    {
      while |entries| > 0 && now - entries[0] >= windowMs
        invariant Valid()
        decreases |entries|
      {
        entries := entries[1..];
      }
    }

    /** Denied exactly when maxHits admissions of the full history lie in (now - window, now]. */
    method Allow(now: int) returns (ok: bool)
      requires Valid() && clock <= now
      modifies this
      ensures Valid() && clock == now
      ensures ok <==> CountIn(old(admitted), now - windowMs, now) < maxHits
      ensures admitted == Decide(old(admitted), now, windowMs, maxHits)
    {
      clock := now;
      DropExpired(now);
      EntriesDecide(admitted, |entries|, now, windowMs, maxHits);
      if |entries| >= maxHits {
        return false;
      }
      Push(now);
      return true;
    }

    method Push(now: int)
      requires Valid() && clock == now
      modifies this`entries, this`admitted
      ensures Valid() && admitted == old(admitted) + [now]
    {
      AppendKeepsShape(admitted, entries, now, now - windowMs);
      entries := entries + [now];
      admitted := admitted + [now];
    }
  }

  lemma AppendKeepsShape(admitted: seq<int>, entries: seq<int>, now: int, t: int)
    requires Sorted(admitted) && UpTo(admitted, now)
    requires |entries| <= |admitted| && entries == admitted[|admitted| - |entries|..]
    requires Gone(admitted, |admitted| - |entries|, t)
    ensures var a, e := admitted + [now], entries + [now];
            && Sorted(a) && UpTo(a, now) && e == a[|a| - |e|..]
            && Gone(a, |a| - |e|, t)
  {}

  lemma EntriesDecide(admitted: seq<int>, n: nat, now: int, window: nat, maxHits: nat)
    requires n <= |admitted| && Sorted(admitted) && UpTo(admitted, now)
    requires Gone(admitted, |admitted| - n, now - window)
    requires n > 0 ==> now - admitted[|admitted| - n] < window
    ensures CountIn(admitted, now - window, now) < maxHits <==> n < maxHits
    ensures Decide(admitted, now, window, maxHits) == if n < maxHits then admitted + [now] else admitted
  {
    EntriesAreTheWindow(admitted, n, now, window);
  }

  lemma EntriesAreTheWindow(admitted: seq<int>, n: nat, now: int, window: nat)
    requires n <= |admitted| && Sorted(admitted) && UpTo(admitted, now)
    requires Gone(admitted, |admitted| - n, now - window)
    requires n > 0 ==> now - admitted[|admitted| - n] < window
    ensures CountIn(admitted, now - window, now) == n
  {
    OldEntriesDoNotCount(admitted, |admitted| - n, |admitted|, now - window, now);
  }

  // ---------------------------------------------------------------- one admission per domain

  datatype Call = Call(domain: string, now: int)

  ghost predicate Free(admitted: seq<Call>, c: Call, window: nat) {
    forall i :: 0 <= i < |admitted| && admitted[i].domain == c.domain ==> c.now - admitted[i].now >= window
  }

  /** The rule over the full history: admitted when no admission of the domain is younger than
      the window. */
  ghost function DomainAdmitted(calls: seq<Call>, window: nat): (r: seq<Call>) {
    if calls == [] then []
    else
      var before := DomainAdmitted(calls[..|calls| - 1], window);
      var c := calls[|calls| - 1];
      if Free(before, c, window) then before + [c] else before
  }

  lemma {:induction false} DomainSpacing(calls: seq<Call>, window: nat, i: nat, j: nat)
    requires i < j < |DomainAdmitted(calls, window)|
    requires DomainAdmitted(calls, window)[i].domain == DomainAdmitted(calls, window)[j].domain
    ensures DomainAdmitted(calls, window)[j].now - DomainAdmitted(calls, window)[i].now >= window
  {
    if j < |DomainAdmitted(calls[..|calls| - 1], window)| {
      DomainSpacing(calls[..|calls| - 1], window, i, j);
    }
  }

  ghost predicate IsLatest(all: seq<Call>, d: string, t: int) {
    Call(d, t) in all && forall i :: 0 <= i < |all| && all[i].domain == d ==> all[i].now <= t
  }

  ghost predicate AllLatest(all: seq<Call>, entries: map<string, int>) {
    forall d :: d in entries ==> IsLatest(all, d, entries[d])
  }

  ghost predicate Expired(all: seq<Call>, entries: map<string, int>, now: int, window: nat) {
    forall i :: 0 <= i < |all| && all[i].domain !in entries ==> now - all[i].now >= window
  }

  /** An entry older than two windows may go. */
  lemma PruningIsSafe(all: seq<Call>, entries: map<string, int>, key: string, now: int, window: nat)
    requires AllLatest(all, entries) && Expired(all, entries, now, window)
    requires key in entries && now - entries[key] > window * 2
    ensures AllLatest(all, entries - {key}) && Expired(all, entries - {key}, now, window)
  {
    assert IsLatest(all, key, entries[key]);
  }

  function Pruned(entries: map<string, int>, now: int, window: nat): (r: map<string, int>) {
    map d | d in entries && now - entries[d] <= window * 2 :: entries[d]
  }

  lemma PruningOne(entries: map<string, int>, key: string, now: int, window: nat)
    requires key in entries && now - entries[key] > window * 2
    ensures Pruned(entries - {key}, now, window) == Pruned(entries, now, window)
  {}

  lemma PrunedAll(entries: map<string, int>, now: int, window: nat)
    requires forall d :: d in entries ==> now - entries[d] <= window * 2
    ensures Pruned(entries, now, window) == entries
  {}

  lemma LatestAfter(all: seq<Call>, entries: map<string, int>, domain: string, now: int)
    requires AllLatest(all, entries) && forall i :: 0 <= i < |all| ==> all[i].now <= now
    ensures AllLatest(all + [Call(domain, now)], entries[domain := now])
  {
    var all', entries' := all + [Call(domain, now)], entries[domain := now];
    assert all'[|all|] == Call(domain, now);
    forall d | d in entries' ensures IsLatest(all', d, entries'[d]) {
      if d != domain {
        assert IsLatest(all, d, entries[d]);
      }
    }
  }

  class DomainRateLimiter {
    const windowMs: nat
    var entries: map<string, int>
    ghost var admitted: seq<Call>
    ghost var clock: int

    /** A kept entry is the domain's latest admission; a domain without an entry was last admitted
        at least a window ago. */
    ghost predicate Valid()
      reads this
    {
      && (forall i :: 0 <= i < |admitted| ==> 0 < admitted[i].now <= clock)
      && AllLatest(admitted, entries)
      && Expired(admitted, entries, clock, windowMs)
    }

    constructor (windowMs: nat)
      ensures Valid() && admitted == [] && clock == 0 && this.windowMs == windowMs
    {
      this.windowMs := windowMs;
      entries, admitted, clock := map[], [], 0;
    }

    method Prune(now: int)
      requires Valid() && clock == now
      modifies this`entries
      ensures Valid() && entries == Pruned(old(entries), now, windowMs)
    {
      var keys := entries.Keys;
      while keys != {}
        invariant keys <= entries.Keys && Valid()
        invariant Pruned(entries, now, windowMs) == Pruned(old(entries), now, windowMs)
        invariant forall d :: d in entries && d !in keys ==> now - entries[d] <= windowMs * 2
        decreases keys
      {
        var key :| key in keys;
        keys := keys - {key};
        if now - entries[key] > windowMs * 2 {
          PruningIsSafe(admitted, entries, key, now, windowMs);
          PruningOne(entries, key, now, windowMs);
          entries := entries - {key};
        }
      }
      PrunedAll(entries, now, windowMs);
    }

    /** Pruning never changes an answer: each is the one the full history gives. */
    method Allow(domain: string, now: int) returns (ok: bool)
      requires Valid() && clock <= now && 0 < now
      modifies this
      ensures Valid() && clock == now
      ensures ok <==> Free(old(admitted), Call(domain, now), windowMs)
      ensures admitted == old(admitted) + if ok then [Call(domain, now)] else []
    {
      clock := now;
      assert domain in entries ==> IsLatest(admitted, domain, entries[domain]);
      if domain in entries && entries[domain] != 0 && now - entries[domain] < windowMs {
        return false;
      }
      LatestAfter(admitted, entries, domain, now);
      entries := entries[domain := now];
      admitted := admitted + [Call(domain, now)];
      Prune(now);
      return true;
    }
  }
}
