/** The content script's rate limiter, entrypoints/content/rateLimiter.ts: ten requests a minute
    with exponential backoff, and a periodic cleanup of stale entries. */
module ContentLimiter {
  import opened Bytes

  const MAX_REQUESTS := 10
  const WINDOW_MS := 60000
  const BACKOFF_BASE_MS := 30000
  const BACKOFF_MAX_MS := 300000

  datatype Entry = Entry(count: nat, first: int, backoffUntil: int)

  datatype Result = Allowed | RateLimited | Backoff

  /** The one record, and the history: the last time seen, the times of all Allowed results, and
      the positions in that list at which a new window was opened. */
  datatype State = State(entry: Option<Entry>, clock: int, allowed: seq<int>, starts: seq<nat>)

  const INITIAL := State(None, 0, [], [])

  datatype Event = Check(now: int) | Cleanup(now: int)

  function Pow2(n: nat): (r: nat) { if n == 0 then 1 else 2 * Pow2(n - 1) }

  function BackoffMs(count: nat): (r: int)
    requires count > MAX_REQUESTS
  {
    var ms := BACKOFF_BASE_MS * Pow2(count - MAX_REQUESTS);
    if ms < BACKOFF_MAX_MS then ms else BACKOFF_MAX_MS
  }

  function Open(s: State, now: int): (r: State) {
    s.(entry := Some(Entry(1, now, 0)), allowed := s.allowed + [now], starts := s.starts + [|s.allowed|])
  }

  function CheckStep(s: State, now: int): (r: State) {
    if s.entry.None? then Open(s, now)
    else
      var e := s.entry.value;
      if e.backoffUntil > now then s
      else if now - e.first > WINDOW_MS then Open(s, now)
      else if e.count + 1 > MAX_REQUESTS then
        s.(entry := Some(Entry(e.count + 1, e.first, now + BackoffMs(e.count + 1))))
      else s.(entry := Some(e.(count := e.count + 1)), allowed := s.allowed + [now])
  }

  function Step(s: State, e: Event): (r: State) {
    match e
    case Check(now) => CheckStep(s.(clock := now), now)
    case Cleanup(now) =>
      var s1 := s.(clock := now);
      if s.entry.Some? && now - s.entry.value.first > WINDOW_MS * 2 then s1.(entry := None) else s1
  }

  function Run(events: seq<Event>): (r: State) {
    if events == [] then INITIAL else Step(Run(events[..|events| - 1]), events[|events| - 1])
  }

  ghost predicate Monotone(events: seq<Event>) {
    && (events != [] ==> events[0].now >= 0)
    && forall i, j :: 0 <= i < j < |events| ==> events[i].now <= events[j].now
  }

  // ---------------------------------------------------------------- the invariant

  /** The counter stops at 12: a backoff outlasts the window, unless all of its requests came in
      the window's first millisecond, and then the second one does. */
  ghost predicate EntryOk(e: Entry, clock: int) {
    && 1 <= e.count <= 12 && e.first <= clock
    && (e.count <= 10 ==> e.backoffUntil == 0)
    && (e.count == 11 ==> e.first + WINDOW_MS <= e.backoffUntil <= e.first + 2 * WINDOW_MS)
    && (e.count == 12 ==> e.backoffUntil == e.first + 3 * WINDOW_MS)
  }

  ghost predicate GapOk(starts: seq<nat>, allowed: seq<int>, k: nat)
    requires k + 1 < |starts|
  {
    var i, j := starts[k], starts[k + 1];
    i < j <= i + MAX_REQUESTS && j < |allowed| && allowed[j] > allowed[i] + WINDOW_MS
  }

  /** Windows open more than a minute apart and hold at most ten Allowed results each. */
  ghost predicate WindowsOk(s: State) {
    var n := |s.starts|;
    && (n == 0 <==> s.allowed == [])
    && (n > 0 ==> s.starts[0] == 0)
    && (forall k :: 0 <= k < n - 1 ==> GapOk(s.starts, s.allowed, k))
    && (n > 0 ==> s.starts[n - 1] < |s.allowed| <= s.starts[n - 1] + MAX_REQUESTS)
  }

  /** The current window is the last one, and a dropped entry's window is over. */
  ghost predicate CurrentOk(s: State) {
    var n := |s.starts|;
    && (s.entry.Some? ==>
          && n > 0 && s.starts[n - 1] < |s.allowed|
          && s.allowed[s.starts[n - 1]] == s.entry.value.first
          && |s.allowed| - s.starts[n - 1] == if s.entry.value.count < 10 then s.entry.value.count else 10)
    && (s.entry.None? && n > 0 && s.starts[n - 1] < |s.allowed| ==>
          s.clock > s.allowed[s.starts[n - 1]] + WINDOW_MS)
  }

  ghost predicate Sorted(times: seq<int>, clock: int) {
    && (forall i, j :: 0 <= i < j < |times| ==> times[i] <= times[j])
    && forall i :: 0 <= i < |times| ==> times[i] <= clock
  }

  ghost predicate Inv(s: State) {
    && (s.entry.Some? ==> EntryOk(s.entry.value, s.clock))
    && WindowsOk(s) && CurrentOk(s) && Sorted(s.allowed, s.clock)
  }

  lemma OpenKeepsWindows(s: State)
    requires WindowsOk(s)
    requires |s.starts| > 0 ==> s.clock > s.allowed[s.starts[|s.starts| - 1]] + WINDOW_MS
    ensures WindowsOk(Open(s, s.clock))
  {
    var t := Open(s, s.clock);
    var n := |s.starts|;
    forall k: nat | k < n ensures GapOk(t.starts, t.allowed, k) {
      if k < n - 1 {
        assert GapOk(s.starts, s.allowed, k);
      }
    }
  }

  lemma OpenKeepsInv(s: State)
    requires WindowsOk(s) && Sorted(s.allowed, s.clock)
    requires |s.starts| > 0 ==> s.clock > s.allowed[s.starts[|s.starts| - 1]] + WINDOW_MS
    ensures Inv(Open(s, s.clock))
  {
    OpenKeepsWindows(s);
    var t := Open(s, s.clock);
    assert t.starts[|s.starts|] == |s.allowed| && t.allowed[|s.allowed|] == s.clock;
  }

  lemma TimePasses(s: State, now: int)
    requires Inv(s) && s.clock <= now
    ensures Inv(s.(clock := now))
  {}

  lemma CheckKeepsInv(s: State)
    requires Inv(s)
    ensures Inv(CheckStep(s, s.clock))
  {
    var t := CheckStep(s, s.clock);
    if s.entry.None? || (s.entry.value.backoffUntil <= s.clock && s.clock - s.entry.value.first > WINDOW_MS) {
      OpenKeepsInv(s);
    } else if s.entry.value.backoffUntil <= s.clock {
      var e := s.entry.value;
      assert Pow2(1) == 2 && Pow2(2) == 4;
      forall k: nat | k + 1 < |s.starts| ensures GapOk(t.starts, t.allowed, k) {
        assert GapOk(s.starts, s.allowed, k);
      }
    }
  }

  lemma StepKeepsInv(s: State, e: Event)
    requires Inv(s) && s.clock <= e.now
    ensures Inv(Step(s, e)) && Step(s, e).clock == e.now
  {
    TimePasses(s, e.now);
    match e
    case Check(now) => CheckKeepsInv(s.(clock := now));
    case Cleanup(_) =>
  }

  lemma {:induction false} RunKeepsInv(events: seq<Event>)
    requires Monotone(events)
    ensures Inv(Run(events))
    ensures Run(events).clock == if events == [] then 0 else events[|events| - 1].now
  {
    if events != [] {
      RunKeepsInv(events[..|events| - 1]);
      StepKeepsInv(Run(events[..|events| - 1]), events[|events| - 1]);
    }
  }

  // ---------------------------------------------------------------- answers by the history

  ghost predicate BackingOff(s: State, now: int) { s.entry.Some? && now < s.entry.value.backoffUntil }

  /** No window is open at time now, by the Allowed results so far. */
  ghost predicate WindowOver(s: State, now: int)
    requires WindowsOk(s)
  {
    s.starts == [] || now - s.allowed[s.starts[|s.starts| - 1]] > 60000
  }

  /** In every run a request is allowed exactly when no backoff is running and the last window is over
      or has allowed fewer than ten; it is allowed at its own time, and opens a window exactly when
      the last one is over. */
  lemma AllowedExactly(events: seq<Event>, now: int)
    requires Monotone(events) && 0 <= now && Run(events).clock <= now
    ensures WindowsOk(Run(events))
    ensures var s, t := Run(events), Step(Run(events), Check(now));
            var open := !BackingOff(s, now) && WindowOver(s, now);
            && t.starts == s.starts + (if open then [|s.allowed|] else [])
            && t.allowed == s.allowed +
                 if open || (!BackingOff(s, now) && |s.allowed| - s.starts[|s.starts| - 1] < 10) then [now] else []
  {
    RunKeepsInv(events);
    var s := Run(events);
    assert s.starts + [] == s.starts && s.allowed + [] == s.allowed;
  }

  /** A refused request that was not backing off starts a backoff: a minute for the first of a
      window, two for the second. */
  lemma RefusalBacksOff(events: seq<Event>, now: int)
    requires Monotone(events) && 0 <= now && Run(events).clock <= now
    requires !BackingOff(Run(events), now) && Step(Run(events), Check(now)).allowed == Run(events).allowed
    ensures var s, t := Run(events), Step(Run(events), Check(now));
            && s.entry.Some? && t.entry.Some? && t.entry.value.count == s.entry.value.count + 1
            && t.entry.value.backoffUntil == now + if s.entry.value.count == 10 then 60000 else 120000
  {
    RunKeepsInv(events);
    assert Pow2(1) == 2 && Pow2(2) == 4;
  }

  /** Cleanup forgets the entry exactly when the last window opened more than two minutes ago, and
      changes nothing else. */
  lemma CleanupForgets(events: seq<Event>, now: int)
    requires Monotone(events) && 0 <= now && Run(events).clock <= now && Run(events).entry.Some?
    ensures var s, t := Run(events), Step(Run(events), Cleanup(now));
            && s.starts != [] && s.starts[|s.starts| - 1] < |s.allowed|
            && t.entry == (if now - s.allowed[s.starts[|s.starts| - 1]] > 120000 then None else s.entry)
            && t.allowed == s.allowed && t.starts == s.starts
  {
    RunKeepsInv(events);
  }

  // ---------------------------------------------------------------- what follows for every run

  /** The count never passes 12, so no backoff exceeds two minutes and the five-minute cap is
      never what decides. */
  lemma CapNeverReached(events: seq<Event>)
    requires Monotone(events) && Run(events).entry.Some?
    ensures var e := Run(events).entry.value;
            e.count <= 12 && (e.count > MAX_REQUESTS ==> BackoffMs(e.count) <= 120000 < BACKOFF_MAX_MS)
  {
    RunKeepsInv(events);
    assert Pow2(1) == 2 && Pow2(2) == 4;
  }

  /** The last window start at or before position i. */
  lemma WindowOf(s: State, i: nat) returns (k: nat)
    requires WindowsOk(s) && i < |s.allowed|
    ensures k < |s.starts| && s.starts[k] <= i && (k + 1 < |s.starts| ==> i < s.starts[k + 1])
  {
    k := |s.starts| - 1;
    while s.starts[k] > i
      invariant k < |s.starts| && (k + 1 < |s.starts| ==> i < s.starts[k + 1])
      decreases k
    {
      k := k - 1;
    }
  }

  /** Any twenty Allowed results in a row span more than a minute. */
  lemma TwentySpanAMinute(s: State, i: nat)
    requires WindowsOk(s) && Sorted(s.allowed, s.clock) && i + 19 < |s.allowed|
    ensures s.allowed[i + 19] > s.allowed[i] + WINDOW_MS
  {
    var k := WindowOf(s, i);
    assert GapOk(s.starts, s.allowed, k);
    var next := s.starts[k + 1];
    if s.starts[k] < i {
      assert GapOk(s.starts, s.allowed, k + 1);
      assert s.allowed[s.starts[k + 2]] <= s.allowed[i + 19];
      assert s.allowed[i] <= s.allowed[next];
    } else {
      assert s.allowed[next] <= s.allowed[i + 19];
    }
  }

  ghost function InSpan(times: seq<int>, a: int): (r: set<nat>) {
    set i: nat | i < |times| && a <= times[i] <= a + WINDOW_MS
  }

  ghost function Interval(lo: nat, n: nat): (r: set<nat>) {
    if n == 0 then {} else Interval(lo, n - 1) + {lo + n - 1}
  }

  lemma {:induction false} IntervalSize(lo: nat, n: nat)
    ensures |Interval(lo, n)| == n && forall i: nat :: i in Interval(lo, n) <==> lo <= i < lo + n
  {
    if n > 0 {
      IntervalSize(lo, n - 1);
    }
  }

  lemma SubsetSize<T>(a: set<T>, b: set<T>)
    requires a <= b
    ensures |a| <= |b|
  {
    assert b == a + (b - a);
  }

  /** In every run, any closed span of one minute holds at most nineteen Allowed results. */
  lemma AtMostNineteenPerMinute(events: seq<Event>, a: int)
    requires Monotone(events)
    ensures |InSpan(Run(events).allowed, a)| <= 19
  {
    RunKeepsInv(events);
    var s := Run(events);
    var hits := InSpan(s.allowed, a);
    if hits != {} {
      var m: nat := Least(hits);
      forall i | i in hits ensures i < m + 19 {
        if m + 19 < |s.allowed| {
          TwentySpanAMinute(s, m);
        }
      }
      IntervalSize(m, 19);
      SubsetSize(hits, Interval(m, 19));
    }
  }

  lemma Least(hits: set<nat>) returns (m: nat)
    requires hits != {}
    ensures m in hits && forall i :: i in hits ==> m <= i
    decreases |hits|
  {
    m :| m in hits;
    var rest := hits - {m};
    if rest != {} {
      assert |rest| < |hits| by { assert hits == rest + {m}; }
      var r := Least(rest);
      if r < m {
        m := r;
      }
    }
  }

  // ---------------------------------------------------------------- the bound is reached

  function Repeat(e: Event, n: nat): (r: seq<Event>) { seq(n, _ => e) }

  lemma {:induction false} AllAllowed(events: seq<Event>, now: int, n: nat)
    requires Run(events).entry.Some?
    requires var e := Run(events).entry.value; e.backoffUntil <= now && now - e.first <= WINDOW_MS && e.count + n <= 10
    ensures var s, t := Run(events), Run(events + Repeat(Check(now), n));
            && t.allowed == s.allowed + seq(n, _ => now)
            && t.entry == Some(s.entry.value.(count := s.entry.value.count + n))
  {
    var all := events + Repeat(Check(now), n);
    if n == 0 {
      assert all == events;
    } else {
      AllAllowed(events, now, n - 1);
      assert all[..|all| - 1] == events + Repeat(Check(now), n - 1);
    }
  }

  lemma BusyRun() returns (events: seq<Event>)
    ensures Monotone(events)
    ensures Run(events).allowed == ([1] + seq(9, _ => 60001)) + [60002] + seq(9, _ => 60002)
  {
    var first := [Check(1)];
    assert first[..0] == [];
    assert Run(first).entry == Some(Entry(1, 1, 0)) && Run(first).allowed == [1];
    AllAllowed(first, 60001, 9);
    var second := first + Repeat(Check(60001), 9);
    var third := second + [Check(60002)];
    assert third[..|third| - 1] == second;
    assert Run(third) == Open(Run(second).(clock := 60002), 60002);
    AllAllowed(third, 60002, 9);
    events := third + Repeat(Check(60002), 9);
  }

  lemma BusyTimes(times: seq<int>)
    requires times == ([1] + seq(9, _ => 60001)) + [60002] + seq(9, _ => 60002)
    ensures |times| == 20 && times[0] == 1 && forall i :: 1 <= i < 20 ==> 60001 <= times[i] <= 60002
  {}

  lemma BusySpan(times: seq<int>)
    requires times == ([1] + seq(9, _ => 60001)) + [60002] + seq(9, _ => 60002)
    ensures |InSpan(times, 60001)| == 19
  {
    IntervalSize(1, 19);
    BusyTimes(times);
    assert InSpan(times, 60001) == Interval(1, 19);
  }

  /** One request, nine more 60 s later and ten more a millisecond after those: nineteen Allowed
      results within two milliseconds of one another. */
  lemma NineteenHappens()
    ensures exists events :: Monotone(events) && |InSpan(Run(events).allowed, 60001)| == 19
  {
    var events := BusyRun();
    BusySpan(Run(events).allowed);
  }

  // ---------------------------------------------------------------- the cleanup and the backoff

  /** Cleanup drops an entry that is still backing off exactly when its count has reached 12 and
      two windows have passed: the only way a backoff ends early. */
  lemma CleanupCutsBackoff(events: seq<Event>, now: int)
    requires Monotone(events) && Run(events).clock <= now
    requires Run(events).entry.Some? && now < Run(events).entry.value.backoffUntil
    ensures var e := Run(events).entry.value;
            Step(Run(events), Cleanup(now)).entry.None? <==> e.count == 12 && now > e.first + 2 * WINDOW_MS
  {
    RunKeepsInv(events);
  }

  lemma RunAppend(events: seq<Event>, e: Event)
    ensures Run(events + [e]) == Step(Run(events), e)
  {
    assert (events + [e])[..|events|] == events;
  }

  /** Eleven checks at one moment and one exactly a minute later. */
  lemma TwelfthRequest() returns (events: seq<Event>)
    ensures Monotone(events) && Run(events).clock == 60001
    ensures Run(events).entry == Some(Entry(12, 1, 180001))
  {
    var first := [Check(1)];
    assert first[..0] == [];
    AllAllowed(first, 1, 9);
    var ten := first + Repeat(Check(1), 9);
    RunAppend(ten, Check(1));
    RunAppend(ten + [Check(1)], Check(60001));
    assert Pow2(1) == 2 && Pow2(2) == 4;
    events := ten + [Check(1)] + [Check(60001)];
  }

  /** Such a run: a minute before its backoff ends the entry is cleaned up, and the next request is
      allowed. */
  lemma BackoffCutHappens() returns (events: seq<Event>)
    ensures Monotone(events) && Run(events).entry == Some(Entry(12, 1, 180001))
    ensures var s := Step(Run(events), Cleanup(120002));
            s.entry == None && Step(s, Check(120003)).allowed == s.allowed + [120003]
  {
    events := TwelfthRequest();
    CleanupCutsBackoff(events, 120002);
  }

  // ---------------------------------------------------------------- the module's own variable

  class RateLimiter {
    var requestEntry: Option<Entry>
    ghost var clock: int
    ghost var allowed: seq<int>
    ghost var starts: seq<nat>

    ghost function Model(): (r: State) reads this { State(requestEntry, clock, allowed, starts) }

    constructor ()
      ensures Model() == INITIAL
    {
      requestEntry, clock, allowed, starts := None, 0, [], [];
    }

    method CheckRateLimit(now: int) returns (r: Result)
      modifies this
      ensures Model() == Step(old(Model()), Check(now))
      ensures r.Allowed? <==> allowed == old(allowed) + [now]
      ensures !r.Allowed? ==> allowed == old(allowed)
      ensures r.Backoff? <==> old(requestEntry).Some? && now < old(requestEntry).value.backoffUntil
    {
      clock := now;
      if requestEntry.None? {
        requestEntry := Some(Entry(1, now, 0));
        starts, allowed := starts + [|allowed|], allowed + [now];
        return Allowed;
      }
      var e := requestEntry.value;
      if e.backoffUntil > now {
        return Backoff;
      }
      if now - e.first > WINDOW_MS {
        requestEntry := Some(Entry(1, now, 0));
        starts, allowed := starts + [|allowed|], allowed + [now];
        return Allowed;
      }
      var count := e.count + 1;
      if count > MAX_REQUESTS {
        requestEntry := Some(Entry(count, e.first, now + BackoffMs(count)));
        return RateLimited;
      }
      requestEntry := Some(Entry(count, e.first, e.backoffUntil));
      allowed := allowed + [now];
      return Allowed;
    }

    method CleanupStale(now: int)
      modifies this
      ensures Model() == Step(old(Model()), Cleanup(now))
    {
      clock := now;
      if requestEntry.Some? && now - requestEntry.value.first > WINDOW_MS * 2 {
        requestEntry := None;
      }
    }
  }
}
