/** The retransmitting request/response client of lib/channel/commandClient.ts and its round-trip
    estimator, lib/channel/rttEstimator.ts (section 2 of RFC 6298), over the real numbers.

    A step is one synchronous stretch of JavaScript: the submission of a command, a timer callback,
    an incoming response, or one of the two stretches of a heartbeat ping. */
module CommandClient {
  import opened Bytes

  const MAX_RETRIES := 3
  const MAX_MISSED_PINGS := 3

  // ---------------------------------------------------------------- round-trip estimator

  function Abs(x: real): (r: real) { if x < 0.0 then -x else x }

  datatype Rtt = Rtt(avg: real, dev: real)
  {
    function Update(sample: real): (r: Rtt) {
      if sample < 0.0 then this
      else Rtt(0.875 * avg + 0.125 * sample, 0.75 * dev + 0.25 * Abs(sample - avg))
    }

    function Rto(): (r: real) {
      var t := avg + 4.0 * dev;
      if t > 1000.0 then t else 1000.0
    }

    ghost predicate InRange() { 0.0 < avg < 30000.0 && 0.0 <= dev < 30000.0 }
  }

  const FRESH_RTT := Rtt(200.0, 100.0)

  ghost function Estimate(samples: seq<real>): (r: Rtt) {
    if samples == [] then FRESH_RTT else Estimate(samples[..|samples| - 1]).Update(samples[|samples| - 1])
  }

  /** The samples the client accepts keep every timeout between 1 s and 150 s. */
  lemma {:induction false} RtoBounded(samples: seq<real>)
    requires forall i :: 0 <= i < |samples| ==> 0.0 < samples[i] < 30000.0
    ensures Estimate(samples).InRange() && 1000.0 <= Estimate(samples).Rto() < 150000.0
  {
    if samples != [] {
      RtoBounded(samples[..|samples| - 1]);
    }
  }

  function Pow(x: real, n: nat): (r: real) { if n == 0 then 1.0 else x * Pow(x, n - 1) }

  /** On a steady link the estimate converges geometrically: after n samples of x the average is
      off by (7/8)^n of its first error, and the deviation is what this closed form says. */
  lemma {:induction false} SteadyLinkConverges(n: nat, x: real)
    requires x >= 0.0
    ensures OnTrack(Estimate(seq(n, _ => x)), x, 200.0 - x, Pow(0.875, n), Pow(0.75, n))
  {
    if n > 0 {
      SteadyLinkConverges(n - 1, x);
      EstimateSteady(n, x);
      PowPositive(0.875, n - 1);
      SteadyStep(Estimate(seq(n - 1, _ => x)), x, 200.0 - x, Pow(0.875, n - 1), Pow(0.75, n - 1));
    }
  }

  lemma EstimateSteady(n: nat, x: real)
    requires n > 0
    ensures Estimate(seq(n, _ => x)) == Estimate(seq(n - 1, _ => x)).Update(x)
  {
    assert seq(n, _ => x)[..n - 1] == seq(n - 1, _ => x);
  }

  ghost predicate OnTrack(r: Rtt, x: real, e: real, a: real, b: real) {
    r.avg - x == e * a && r.dev == 100.0 * b + 2.0 * Abs(e) * (a - b)
  }

  lemma SteadyStep(r: Rtt, x: real, e: real, a: real, b: real)
    requires x >= 0.0 && a > 0.0 && OnTrack(r, x, e, a, b)
    ensures OnTrack(r.Update(x), x, e, 0.875 * a, 0.75 * b)
  {
    var p, q := Abs(e) * a, Abs(e) * b;
    AbsOfProduct(e, a);
    assert Abs(x - r.avg) == p;
    assert Abs(e) * (a - b) == p - q;
    assert Abs(e) * (0.875 * a - 0.75 * b) == 0.875 * p - 0.75 * q;
    assert e * (0.875 * a) == 0.875 * (e * a);
  }

  lemma {:induction false} PowPositive(x: real, n: nat)
    requires x > 0.0
    ensures Pow(x, n) > 0.0
  {
    if n > 0 {
      PowPositive(x, n - 1);
    }
  }

  lemma AbsOfProduct(e: real, a: real)
    requires a > 0.0
    ensures Abs(e * a) == Abs(e) * a && Abs(-(e * a)) == Abs(e) * a
  {}

  class RttEstimator {
    var rttAvg: real
    var rttVar: real

    ghost function Model(): (r: Rtt) reads this { Rtt(rttAvg, rttVar) }

    constructor ()
      ensures Model() == FRESH_RTT
    {
      rttAvg, rttVar := 200.0, 100.0;
    }

    method UpdateRtt(sample: real)
      modifies this
      ensures Model() == old(Model()).Update(sample)
    {
      if sample < 0.0 {
        return;
      }
      rttVar := (1.0 - 0.25) * rttVar + 0.25 * Abs(sample - rttAvg);
      rttAvg := (1.0 - 0.125) * rttAvg + 0.125 * sample;
    }

    method GetRto() returns (t: real)
      ensures t == Model().Rto()
    {
      t := rttAvg + 4.0 * rttVar;
      if t < 1000.0 {
        t := 1000.0;
      }
    }
  }

  // ---------------------------------------------------------------- the client

  datatype Entry = Entry(attempts: nat, sentAt: real)

  datatype Status = Pong | Error | Ok

  datatype Outcome = Resolved | Rejected | GaveUp

  datatype Settled = Settled(sequence: nat, outcome: Outcome)

  /** What the run has done so far: commands submitted, pings started, how often each command was
      transmitted and how long it was made to wait, promises settled, and the miss counts at which
      onTransportDead fired. */
  datatype History = History(
    commands: set<nat>,
    pings: set<nat>,
    transmissions: map<nat, nat>,
    waited: map<nat, real>,
    settled: seq<Settled>,
    deaths: seq<nat>)

  /** `controllers` are the keys of pendingTimeouts; a sequence number owns at most one abort
      controller, and `aborted` are those that were aborted. `timers` and `pingTimers` are the
      armed setTimeout callbacks. */
  datatype State = State(
    pending: map<nat, Entry>,
    controllers: set<nat>,
    aborted: set<nat>,
    timers: set<nat>,
    pingTimers: set<nat>,
    rtt: Rtt,
    missedPings: nat,
    pendingPing: Option<nat>,
    heartbeat: bool,
    past: History)

  const NO_HISTORY := History({}, {}, map[], map[], [], [])
  const INITIAL := State(map[], {}, {}, {}, {}, FRESH_RTT, 0, None, false, NO_HISTORY)

  datatype Event =
    | Submit(sequence: nat, isPing: bool, now: real)
    | TimerFires(sequence: nat, now: real)
    | Response(sequence: nat, status: Status, now: real)
    | PingStart(sequence: nat)
    | PingArm(sequence: nat)
    | PingTimeout(sequence: nat)

  function AttemptSend(s: State, q: nat, now: real): (r: State)
    requires q in s.pending
  {
    var e := s.pending[q];
    var h := s.past;
    if q in s.aborted then s
    else if e.attempts >= MAX_RETRIES then
      s.(controllers := s.controllers - {q}, pending := s.pending - {q},
         past := h.(settled := h.settled + [Settled(q, GaveUp)]))
    else
      s.(pending := s.pending[q := Entry(e.attempts + 1, now)],
         timers := s.timers + {q},
         past := h.(transmissions := h.transmissions[q := Times(h, q) + 1],
                    waited := h.waited[q := Wait(h, q) + s.rtt.Rto()]))
  }

  /** sendCommandWithRetry: a pending entry, its controller, and the first attempt. */
  function Registered(s: State, q: nat, now: real): (r: State) {
    AttemptSend(s.(pending := s.pending[q := Entry(0, now)], controllers := s.controllers + {q},
                   past := s.past.(commands := s.past.commands + {q})), q, now)
  }

  function Times(h: History, q: nat): (r: nat) { if q in h.transmissions then h.transmissions[q] else 0 }
  function Wait(h: History, q: nat): (r: real) { if q in h.waited then h.waited[q] else 0.0 }

  function PongStep(s: State, q: nat): (r: State) {
    if s.pendingPing != Some(q) then s
    else
      s.(pendingPing := None, missedPings := 0,
         aborted := if q in s.controllers then s.aborted + {q} else s.aborted,
         controllers := s.controllers - {q})
  }

  function ReplyStep(s: State, q: nat, status: Status, now: real): (r: State) {
    if q !in s.pending then s
    else
      var sample := now - s.pending[q].sentAt;
      s.(rtt := if 0.0 < sample < 30000.0 then s.rtt.Update(sample) else s.rtt,
         timers := if q in s.controllers then s.timers - {q} else s.timers,
         aborted := if q in s.controllers then s.aborted + {q} else s.aborted,
         controllers := s.controllers - {q},
         pending := s.pending - {q},
         past := s.past.(settled := s.past.settled + [Settled(q, if status.Error? then Rejected else Resolved)]))
  }

  function Step(s: State, e: Event): (r: State) {
    match e
    case Submit(q, isPing, now) =>
      Registered(s.(heartbeat := s.heartbeat || !isPing), q, now)
    case TimerFires(q, now) =>
      if q !in s.timers then s
      else
        var s1 := s.(timers := s.timers - {q});
        if q in s.aborted || q !in s.pending then s1 else AttemptSend(s1, q, now)
    case Response(q, status, now) =>
      ReplyStep(if status.Pong? then PongStep(s, q) else s, q, status, now)
    case PingStart(q) =>
      s.(pendingPing := Some(q), past := s.past.(pings := s.past.pings + {q}))
    case PingArm(q) =>
      s.(controllers := s.controllers + {q}, pingTimers := s.pingTimers + {q})
    case PingTimeout(q) =>
      if q !in s.pingTimers then s
      else
        var s1 := s.(pingTimers := s.pingTimers - {q});
        if q in s.aborted || s.pendingPing != Some(q) then s1
        else
          var missed := s.missedPings + 1;
          var s2 := s1.(pendingPing := None, controllers := s.controllers - {q}, missedPings := missed);
          if missed >= MAX_MISSED_PINGS
          then s2.(heartbeat := false, past := s.past.(deaths := s.past.deaths + [missed]))
          else s2
  }

  /** Sequence numbers are handed out once; a ping is armed after it was started. */
  ghost predicate Legal(s: State, e: Event) {
    match e
    case Submit(q, _, _) => q !in s.past.commands + s.past.pings
    case PingStart(q) => q !in s.past.commands + s.past.pings
    case PingArm(q) => q in s.past.pings
    case _ => true
  }

  function Run(s: State, events: seq<Event>): (r: State) {
    if events == [] then s else Step(Run(s, events[..|events| - 1]), events[|events| - 1])
  }

  ghost predicate LegalRun(s: State, events: seq<Event>) {
    forall i {:trigger events[..i]} :: 0 <= i < |events| ==> Legal(Run(s, events[..i]), events[i])
  }

  // ---------------------------------------------------------------- the invariant

  ghost predicate SettledIn(h: History, q: nat) {
    exists i :: 0 <= i < |h.settled| && h.settled[i].sequence == q
  }

  /** Every command promise is pending or settled, never both, and settled at most once. */
  ghost predicate Promises(s: State) {
    var h := s.past;
    && s.pending.Keys <= h.commands
    && (forall i, j :: 0 <= i < j < |h.settled| ==> h.settled[i].sequence != h.settled[j].sequence)
    && (forall i :: 0 <= i < |h.settled| ==>
          h.settled[i].sequence in h.commands && h.settled[i].sequence !in s.pending)
    && (forall q :: q in h.commands ==> q in s.pending || SettledIn(h, q))
  }

  /** A pending command always has a live controller and exactly one armed timer. */
  ghost predicate Armed(s: State) {
    s.pending.Keys == s.timers && s.pending.Keys <= s.controllers && s.pending.Keys !! s.aborted
  }

  /** One to three transmissions, each allowed a wait in [1000, 150000). */
  ghost predicate Bounded(s: State) {
    var h := s.past;
    && h.transmissions.Keys == h.commands && h.waited.Keys == h.commands
    && (forall q :: q in h.commands ==>
          && 1 <= h.transmissions[q] <= MAX_RETRIES
          && 1000.0 * h.transmissions[q] as real <= h.waited[q] < 150000.0 * h.transmissions[q] as real)
    && (forall q :: q in s.pending && q in h.commands ==> s.pending[q].attempts == h.transmissions[q])
    && (forall i :: 0 <= i < |h.settled| && h.settled[i].outcome.GaveUp? && h.settled[i].sequence in h.commands ==>
          h.transmissions[h.settled[i].sequence] == MAX_RETRIES)
    && s.rtt.InRange()
  }

  /** Commands and pings have different numbers, and only a ping is awaited as one. */
  ghost predicate Heartbeats(s: State) {
    && s.past.commands !! s.past.pings
    && s.pingTimers <= s.past.pings
    && s.controllers <= s.past.commands + s.past.pings && s.aborted <= s.past.commands + s.past.pings
    && (s.pendingPing.Some? ==> s.pendingPing.value in s.past.pings && s.pendingPing.value !in s.aborted)
  }

  ghost predicate Inv(s: State) {
    Promises(s) && Armed(s) && Bounded(s) && Heartbeats(s)
  }

  lemma SettleKeepsPromises(s: State, t: State, q: nat, o: Outcome)
    requires Promises(s) && q in s.pending
    requires t.pending == s.pending - {q} && t.past.commands == s.past.commands
    requires t.past.settled == s.past.settled + [Settled(q, o)]
    ensures Promises(t)
  {
    var n := |s.past.settled|;
    forall r | r in t.past.commands ensures r in t.pending || SettledIn(t.past, r) {
      if r == q {
        assert t.past.settled[n].sequence == r;
      } else if r !in s.pending {
        assert SettledIn(s.past, r);
        var i :| 0 <= i < n && s.past.settled[i].sequence == r;
        assert t.past.settled[i].sequence == r;
      }
    }
  }

  lemma PromisesFrame(s: State, t: State)
    requires Promises(s) && t.pending.Keys == s.pending.Keys
    requires t.past.commands == s.past.commands && t.past.settled == s.past.settled
    ensures Promises(t)
  {
    forall r | r in t.past.commands ensures r in t.pending || SettledIn(t.past, r) {
      assert r in s.pending || SettledIn(s.past, r);
      if r !in s.pending {
        var i :| 0 <= i < |s.past.settled| && s.past.settled[i].sequence == r;
        assert t.past.settled[i].sequence == r;
      }
    }
  }

  ghost predicate CommandsUntouched(s: State, t: State) {
    && t.pending == s.pending && t.rtt == s.rtt && t.timers == s.timers
    && t.past.commands == s.past.commands && t.past.settled == s.past.settled
    && t.past.transmissions == s.past.transmissions && t.past.waited == s.past.waited
    && s.controllers - s.past.pings <= t.controllers && t.aborted <= s.aborted + s.past.pings
  }

  /** Steps of the heartbeat leave the commands alone. */
  lemma HeartbeatKeepsInv(s: State, t: State)
    requires Inv(s) && Heartbeats(t) && CommandsUntouched(s, t)
    ensures Inv(t)
  {
    PromisesFrame(s, t);
  }

  lemma SubmitKeepsPromises(s: State, t: State, q: nat, e: Entry)
    requires Promises(s) && q !in s.past.commands
    requires t.pending == s.pending[q := e]
    requires t.past.commands == s.past.commands + {q} && t.past.settled == s.past.settled
    ensures Promises(t)
  {
    forall r | r in t.past.commands ensures r in t.pending || SettledIn(t.past, r) {
      if r != q && r !in s.pending {
        assert SettledIn(s.past, r);
        var i :| 0 <= i < |s.past.settled| && s.past.settled[i].sequence == r;
        assert t.past.settled[i].sequence == r;
      }
    }
  }

  lemma SubmitKeepsInv(s: State, q: nat, isPing: bool, now: real)
    requires Inv(s) && Legal(s, Submit(q, isPing, now))
    ensures Inv(Step(s, Submit(q, isPing, now)))
  {
    var t := Step(s, Submit(q, isPing, now));
    assert q !in s.past.transmissions && q !in s.past.waited && q !in s.aborted;
    assert t.pending == s.pending[q := Entry(1, now)];
    assert t.past.transmissions == s.past.transmissions[q := 1];
    assert t.past.waited == s.past.waited[q := 0.0 + s.rtt.Rto()];
    SubmitKeepsPromises(s, t, q, Entry(1, now));
  }

  /** The only two things a timer can do to a pending command. */
  lemma ResendKeepsBounded(s: State, t: State, q: nat, e: Entry)
    requires Bounded(s) && q in s.pending && q in s.past.commands && s.pending[q].attempts < MAX_RETRIES
    requires Promises(s)
    requires e.attempts == s.pending[q].attempts + 1 && t.pending == s.pending[q := e] && t.rtt == s.rtt
    requires t.past.commands == s.past.commands && t.past.settled == s.past.settled
    requires t.past.transmissions == s.past.transmissions[q := s.past.transmissions[q] + 1]
    requires t.past.waited == s.past.waited[q := s.past.waited[q] + s.rtt.Rto()]
    ensures Bounded(t)
  {}

  lemma GiveUpKeepsInv(s: State, q: nat, now: real)
    requires Inv(s) && q in s.timers && s.pending[q].attempts >= MAX_RETRIES
    ensures Inv(Step(s, TimerFires(q, now)))
  {
    SettleKeepsPromises(s, Step(s, TimerFires(q, now)), q, GaveUp);
  }

  lemma ResendKeepsInv(s: State, q: nat, now: real)
    requires Inv(s) && q in s.timers && s.pending[q].attempts < MAX_RETRIES
    ensures Inv(Step(s, TimerFires(q, now)))
  {
    var t, e := Step(s, TimerFires(q, now)), Entry(s.pending[q].attempts + 1, now);
    assert t.pending == s.pending[q := e] && t.timers == s.timers;
    PromisesFrame(s, t);
    ResendKeepsBounded(s, t, q, e);
  }

  lemma PongKeepsInv(s: State, q: nat)
    requires Inv(s)
    ensures Inv(PongStep(s, q)) && PongStep(s, q).pending == s.pending
  {
    PongUntouched(s, q);
    HeartbeatKeepsInv(s, PongStep(s, q));
  }

  lemma PongUntouched(s: State, q: nat)
    requires Heartbeats(s)
    ensures Heartbeats(PongStep(s, q)) && CommandsUntouched(s, PongStep(s, q))
  {}

  lemma ReplyKeepsInv(s: State, q: nat, status: Status, now: real)
    requires Inv(s)
    ensures Inv(ReplyStep(s, q, status, now))
  {
    if q in s.pending {
      SettleKeepsPromises(s, ReplyStep(s, q, status, now), q, if status.Error? then Rejected else Resolved);
    }
  }

  lemma MissUntouched(s: State, q: nat)
    requires Heartbeats(s)
    ensures Heartbeats(Step(s, PingTimeout(q))) && CommandsUntouched(s, Step(s, PingTimeout(q)))
  {}

  lemma PingTimeoutKeepsInv(s: State, q: nat)
    requires Inv(s)
    ensures Inv(Step(s, PingTimeout(q)))
  {
    MissUntouched(s, q);
    HeartbeatKeepsInv(s, Step(s, PingTimeout(q)));
  }

  lemma StepKeepsInv(s: State, e: Event)
    requires Inv(s) && Legal(s, e)
    ensures Inv(Step(s, e))
  {
    match e
    case Submit(q, isPing, now) => SubmitKeepsInv(s, q, isPing, now);
    case TimerFires(q, now) =>
      if q in s.timers {
        if s.pending[q].attempts >= MAX_RETRIES {
          GiveUpKeepsInv(s, q, now);
        } else {
          ResendKeepsInv(s, q, now);
        }
      }
    case Response(q, status, now) =>
      if status.Pong? {
        PongKeepsInv(s, q);
        ReplyKeepsInv(PongStep(s, q), q, status, now);
      } else {
        ReplyKeepsInv(s, q, status, now);
      }
    case PingStart(_) => HeartbeatKeepsInv(s, Step(s, e));
    case PingArm(_) => HeartbeatKeepsInv(s, Step(s, e));
    case PingTimeout(q) => PingTimeoutKeepsInv(s, q);
  }

  /** All of it over every run with distinct sequence numbers. */
  lemma {:induction false} RunKeepsInv(s: State, events: seq<Event>)
    requires Inv(s) && LegalRun(s, events)
    ensures Inv(Run(s, events))
  {
    if events != [] {
      var n := |events| - 1;
      LegalPrefix(s, events, n);
      RunKeepsInv(s, events[..n]);
      StepKeepsInv(Run(s, events[..n]), events[n]);
    }
  }

  lemma LegalPrefix(s: State, events: seq<Event>, n: nat)
    requires LegalRun(s, events) && n <= |events|
    ensures LegalRun(s, events[..n])
  {
    forall i | 0 <= i < n ensures Legal(Run(s, events[..n][..i]), events[..n][i]) {
      assert events[..n][..i] == events[..i];
    }
  }

  lemma InitialInv()
    ensures Inv(INITIAL)
  {}

  // ---------------------------------------------------------------- settling in time

  ghost function Remaining(s: State, q: nat): (r: nat) {
    if q in s.pending && s.pending[q].attempts <= MAX_RETRIES then MAX_RETRIES + 1 - s.pending[q].attempts else 0
  }

  ghost function Fires(events: seq<Event>, q: nat): (r: nat) {
    if events == [] then 0
    else
      var e := events[|events| - 1];
      Fires(events[..|events| - 1], q) + if e.TimerFires? && e.sequence == q then 1 else 0
  }

  lemma StepShrinksRemaining(s: State, e: Event, q: nat)
    requires Armed(s) && Legal(s, e) && q in s.past.commands
    ensures q in Step(s, e).past.commands
    ensures Remaining(Step(s, e), q) <= Remaining(s, q)
    ensures e.TimerFires? && e.sequence == q && Remaining(s, q) > 0 ==> Remaining(Step(s, e), q) < Remaining(s, q)
  {}

  lemma {:induction false} RunShrinksRemaining(s: State, events: seq<Event>, q: nat)
    requires Inv(s) && LegalRun(s, events) && q in s.past.commands
    ensures q in Run(s, events).past.commands
    ensures Remaining(Run(s, events), q) == 0 || Remaining(Run(s, events), q) + Fires(events, q) <= Remaining(s, q)
  {
    if events != [] {
      var n := |events| - 1;
      LegalPrefix(s, events, n);
      RunKeepsInv(s, events[..n]);
      RunShrinksRemaining(s, events[..n], q);
      StepShrinksRemaining(Run(s, events[..n]), events[n], q);
    }
  }

  /** Whatever else happens, a command is settled by the third expiry of its timer, having waited
      less than three maximal timeouts in all. */
  lemma SettledByThirdExpiry(before: seq<Event>, q: nat, isPing: bool, now: real, rest: seq<Event>)
    requires LegalRun(INITIAL, before) && Legal(Run(INITIAL, before), Submit(q, isPing, now))
    requires LegalRun(Step(Run(INITIAL, before), Submit(q, isPing, now)), rest)
    requires Fires(rest, q) >= 3
    ensures var t := Run(Step(Run(INITIAL, before), Submit(q, isPing, now)), rest);
            q !in t.pending && SettledIn(t.past, q) && q in t.past.waited && t.past.waited[q] < 450000.0
  {
    InitialInv();
    RunKeepsInv(INITIAL, before);
    var s := Run(INITIAL, before);
    StepKeepsInv(s, Submit(q, isPing, now));
    var s1 := Step(s, Submit(q, isPing, now));
    assert s1.pending[q].attempts == 1;
    RunKeepsInv(s1, rest);
    RunShrinksRemaining(s1, rest, q);
    var t := Run(s1, rest);
    assert 1 <= t.past.transmissions[q] <= 3;
  }

  /** A response to nothing pending, unless it is the pong awaited, changes nothing; and a
      duplicate of a response changes nothing either. */
  lemma LateResponseIgnored(s: State, q: nat, status: Status, now: real, status2: Status, later: real)
    requires Inv(s)
    ensures q !in s.pending && (!status.Pong? || s.pendingPing != Some(q)) ==> Step(s, Response(q, status, now)) == s
    ensures status == status2 ==>
            var t := Step(s, Response(q, status, now));
            Step(t, Response(q, status2, later)) == t
  {}

  // ---------------------------------------------------------------- outcomes by the event list

  predicate IsSubmit(e: Event, q: nat) { e.Submit? && e.sequence == q }
  predicate IsReply(e: Event, q: nat) { e.Response? && e.sequence == q }
  predicate IsFiring(e: Event, q: nat) { e.TimerFires? && e.sequence == q }

  /** Submitted at i, and up to the end of the list neither answered nor out of attempts. */
  ghost predicate WaitsFrom(events: seq<Event>, q: nat, i: nat) {
    && i < |events| && IsSubmit(events[i], q)
    && (forall j :: i < j < |events| ==> !IsReply(events[j], q))
    && Fires(events[i..], q) < 3
  }

  ghost predicate Waits(events: seq<Event>, q: nat) { exists i: nat :: WaitsFrom(events, q, i) }

  /** What event e does to a command that was submitted at i and waits. */
  ghost predicate Ends(before: seq<Event>, e: Event, q: nat, i: nat, o: Outcome) {
    match o
    case Rejected => IsReply(e, q) && e.status.Error?
    case Resolved => IsReply(e, q) && !e.status.Error?
    case GaveUp => IsFiring(e, q) && i <= |before| && Fires(before[i..], q) == 2
  }

  /** Submitted at i and still waiting when event j ends it with outcome o. */
  ghost predicate EndsAt(events: seq<Event>, q: nat, i: nat, j: nat, o: Outcome) {
    j < |events| && WaitsFrom(events[..j], q, i) && Ends(events[..j], events[j], q, i, o)
  }

  lemma FiresOneMore(xs: seq<Event>, e: Event, q: nat)
    ensures Fires(xs + [e], q) == Fires(xs, q) + if IsFiring(e, q) then 1 else 0
  {
    assert (xs + [e])[..|xs|] == xs;
  }

  lemma WaitsOneMore(before: seq<Event>, e: Event, q: nat, i: nat)
    requires i < |before|
    ensures WaitsFrom(before + [e], q, i) <==>
            WaitsFrom(before, q, i) && !IsReply(e, q)
            && Fires(before[i..], q) + (if IsFiring(e, q) then 1 else 0) < 3
    ensures Fires((before + [e])[i..], q) == Fires(before[i..], q) + if IsFiring(e, q) then 1 else 0
  {
    var all := before + [e];
    assert all[i..] == before[i..] + [e];
    FiresOneMore(before[i..], e, q);
    assert forall j :: i < j < |before| ==> all[j] == before[j];
    assert all[|before|] == e;
  }

  lemma WaitsFromLast(before: seq<Event>, e: Event, q: nat)
    ensures WaitsFrom(before + [e], q, |before|) <==> IsSubmit(e, q)
    ensures IsSubmit(e, q) ==> Fires((before + [e])[|before|..], q) == 0
  {
    assert (before + [e])[|before|..] == [] + [e];
    FiresOneMore([], e, q);
  }

  /** The time of the last transmission of q: its submission or the last firing of its timer. */
  ghost function LastSent(events: seq<Event>, q: nat): (t: real) {
    if events == [] then 0.0
    else
      var e := events[|events| - 1];
      if IsSubmit(e, q) || IsFiring(e, q) then e.now else LastSent(events[..|events| - 1], q)
  }

  /** What a step does to command q, by the event alone. */
  lemma StepEnds(s: State, e: Event, q: nat)
    requires Inv(s) && Legal(s, e)
    ensures var t := Step(s, e);
            && (IsSubmit(e, q) ==> q in t.pending && t.pending[q] == Entry(1, e.now))
            && (!IsSubmit(e, q) ==>
                  (q in t.pending <==> q in s.pending && !IsReply(e, q)
                                       && !(IsFiring(e, q) && s.pending[q].attempts >= MAX_RETRIES)))
            && (q in t.pending && !IsSubmit(e, q) ==>
                  t.pending[q] == if IsFiring(e, q) then Entry(s.pending[q].attempts + 1, e.now) else s.pending[q])
  {}

  lemma {:induction false} CommandsSubmitted(events: seq<Event>, q: nat)
    ensures q in Run(INITIAL, events).past.commands <==> exists i :: 0 <= i < |events| && IsSubmit(events[i], q)
  {
    if events != [] {
      var before, e := events[..|events| - 1], events[|events| - 1];
      CommandsSubmitted(before, q);
      assert forall i :: 0 <= i < |before| ==> before[i] == events[i];
      StepCommands(Run(INITIAL, before), e, q);
    }
  }

  lemma StepCommands(s: State, e: Event, q: nat)
    ensures q in Step(s, e).past.commands <==> q in s.past.commands || IsSubmit(e, q)
  {}

  ghost predicate PendingMatches(events: seq<Event>, s: State, q: nat) {
    && (q in s.pending <==> Waits(events, q))
    && (q in s.pending ==> s.pending[q].sentAt == LastSent(events, q))
    && forall i: nat :: q in s.pending && WaitsFrom(events, q, i) ==> s.pending[q].attempts == 1 + Fires(events[i..], q)
  }

  lemma PendingOneMore(before: seq<Event>, s: State, e: Event, q: nat)
    requires Inv(s) && Legal(s, e) && PendingMatches(before, s, q)
    requires IsSubmit(e, q) ==> forall i :: 0 <= i < |before| ==> !IsSubmit(before[i], q)
    ensures PendingMatches(before + [e], Step(s, e), q)
  {
    var all, t := before + [e], Step(s, e);
    assert all[..|before|] == before;
    StepEnds(s, e, q);
    WaitsFromLast(before, e, q);
    if Waits(before, q) {
      var i: nat :| WaitsFrom(before, q, i);
      WaitsOneMore(before, e, q, i);
    }
    forall i: nat | WaitsFrom(all, q, i)
      ensures q in t.pending && t.pending[q].attempts == 1 + Fires(all[i..], q)
    {
      if i < |before| {
        WaitsOneMore(before, e, q, i);
        assert WaitsFrom(before, q, i);
      }
    }
  }

  /** In every run a command is pending exactly while, by the event list, it waits; it was last sent
      when the list says so, and once more than its timer has fired. */
  lemma {:induction false} PendingByHistory(events: seq<Event>, q: nat)
    requires LegalRun(INITIAL, events)
    ensures PendingMatches(events, Run(INITIAL, events), q)
  {
    if events != [] {
      var n := |events| - 1;
      assert events == events[..n] + [events[n]];
      LegalPrefix(INITIAL, events, n);
      InitialInv();
      RunKeepsInv(INITIAL, events[..n]);
      PendingByHistory(events[..n], q);
      CommandsSubmitted(events[..n], q);
      assert Legal(Run(INITIAL, events[..n]), events[n]);
      PendingOneMore(events[..n], Run(INITIAL, events[..n]), events[n], q);
    }
  }

  lemma StepSettles(s: State, e: Event, q: nat, o: Outcome)
    requires Armed(s) && Legal(s, e)
    ensures Settled(q, o) in Step(s, e).past.settled <==>
            || Settled(q, o) in s.past.settled
            || (q in s.pending &&
                match o
                case Rejected => IsReply(e, q) && e.status.Error?
                case Resolved => IsReply(e, q) && !e.status.Error?
                case GaveUp => IsFiring(e, q) && s.pending[q].attempts >= MAX_RETRIES)
  {}

  ghost predicate Ended(events: seq<Event>, q: nat, o: Outcome) {
    exists i: nat, j: nat :: EndsAt(events, q, i, j, o)
  }

  lemma EndedOneMore(before: seq<Event>, e: Event, q: nat, o: Outcome)
    ensures Ended(before + [e], q, o) <==>
            Ended(before, q, o) || exists i: nat :: WaitsFrom(before, q, i) && Ends(before, e, q, i, o)
  {
    var all, n := before + [e], |before|;
    assert all[..n] == before;
    if Ended(before, q, o) {
      var i: nat, j: nat :| EndsAt(before, q, i, j, o);
      assert all[..j] == before[..j];
      assert EndsAt(all, q, i, j, o);
    }
    if i: nat :| WaitsFrom(before, q, i) && Ends(before, e, q, i, o) {
      assert EndsAt(all, q, i, n, o);
    }
    if Ended(all, q, o) {
      var i: nat, j: nat :| EndsAt(all, q, i, j, o);
      if j < n {
        assert all[..j] == before[..j];
        assert EndsAt(before, q, i, j, o);
      }
    }
  }

  /** In every run a command is rejected exactly when the first response to it, before its timer had
      expired three times, was an error; it is resolved exactly when that response was not one; and
      it is given up exactly when the third expiry came with no response before it. */
  lemma {:induction false} OutcomeByHistory(events: seq<Event>, q: nat, o: Outcome)
    requires LegalRun(INITIAL, events)
    ensures Settled(q, o) in Run(INITIAL, events).past.settled <==> Ended(events, q, o)
  {
    if events != [] {
      var before, e := events[..|events| - 1], events[|events| - 1];
      assert events == before + [e];
      LegalPrefix(INITIAL, events, |before|);
      InitialInv();
      RunKeepsInv(INITIAL, before);
      OutcomeByHistory(before, q, o);
      PendingByHistory(before, q);
      EndedOneMore(before, e, q, o);
      assert Legal(Run(INITIAL, before), e);
      StepSettles(Run(INITIAL, before), e, q, o);
    }
  }

  // ---------------------------------------------------------------- round-trip samples

  /** The samples of a run: from the last transmission of a waiting command to its first response,
      when that took less than 30 s. */
  ghost function Samples(events: seq<Event>): (r: seq<real>) {
    if events == [] then []
    else
      var before, e := events[..|events| - 1], events[|events| - 1];
      Samples(before) +
      if e.Response? && Waits(before, e.sequence) && 0.0 < e.now - LastSent(before, e.sequence) < 30000.0
      then [e.now - LastSent(before, e.sequence)] else []
  }

  lemma StepSample(s: State, e: Event)
    ensures Step(s, e).rtt ==
            if e.Response? && e.sequence in s.pending && 0.0 < e.now - s.pending[e.sequence].sentAt < 30000.0
            then s.rtt.Update(e.now - s.pending[e.sequence].sentAt) else s.rtt
  {}

  lemma EstimateOneMore(samples: seq<real>, x: real)
    ensures Estimate(samples + [x]) == Estimate(samples).Update(x)
  {
    assert (samples + [x])[..|samples|] == samples;
  }

  /** In every run the estimator holds the estimate from exactly these samples, in order. */
  lemma {:induction false} RttByHistory(events: seq<Event>)
    requires LegalRun(INITIAL, events)
    ensures Run(INITIAL, events).rtt == Estimate(Samples(events))
  {
    if events != [] {
      var before, e := events[..|events| - 1], events[|events| - 1];
      LegalPrefix(INITIAL, events, |before|);
      RttByHistory(before);
      PendingByHistory(before, e.sequence);
      StepSample(Run(INITIAL, before), e);
      assert Samples(before) + [] == Samples(before);
      if e.Response? {
        EstimateOneMore(Samples(before), e.now - LastSent(before, e.sequence));
      }
    }
  }

  /** The timeout on a steady link: a second at least, else the average and four deviations as the
      closed form has them. */
  lemma SteadyTimeout(n: nat, x: real)
    requires x >= 0.0
    ensures var a, b, e := Pow(0.875, n), Pow(0.75, n), 200.0 - x;
            var t := x + e * a + 400.0 * b + 8.0 * Abs(e) * (a - b);
            Estimate(seq(n, _ => x)).Rto() == if t > 1000.0 then t else 1000.0
  {
    SteadyLinkConverges(n, x);
    var r, a, b, e := Estimate(seq(n, _ => x)), Pow(0.875, n), Pow(0.75, n), 200.0 - x;
    assert 4.0 * (2.0 * Abs(e) * (a - b)) == 8.0 * Abs(e) * (a - b);
  }

  // ---------------------------------------------------------------- what the heartbeat sees

  lemma StaysSuperseded(s: State, e: Event, q: nat)
    requires q in s.past.pings && s.pendingPing != Some(q) && Legal(s, e)
    ensures q in Step(s, e).past.pings && Step(s, e).pendingPing != Some(q)
  {}

  /** A ping that a newer one has replaced is never counted, whenever its timeout fires. */
  lemma {:induction false} SupersededPingNeverCounts(s: State, events: seq<Event>, q: nat)
    requires q in s.past.pings && s.pendingPing != Some(q) && LegalRun(s, events)
    ensures var t := Run(s, events);
            && q in t.past.pings && t.pendingPing != Some(q)
            && Step(t, PingTimeout(q)).missedPings == t.missedPings
  {
    if events != [] {
      var n := |events| - 1;
      LegalPrefix(s, events, n);
      SupersededPingNeverCounts(s, events[..n], q);
      StaysSuperseded(Run(s, events[..n]), events[n], q);
    }
  }

  // ---------------------------------------------------------------- pings by the event list

  predicate IsPong(e: Event, q: nat) { e.Response? && e.sequence == q && e.status.Pong? }

  /** Event j ends the waiting for the ping started at i: a newer ping, its pong, or its timeout. */
  ghost predicate Closes(events: seq<Event>, q: nat, i: nat, j: nat)
    requires j < |events|
  {
    || events[j].PingStart? || IsPong(events[j], q)
    || (events[j] == PingTimeout(q) && exists k :: i < k < j && events[k] == PingArm(q))
  }

  ghost predicate OpenAt(events: seq<Event>, q: nat, i: nat) {
    && i < |events| && events[i] == PingStart(q)
    && forall j :: i < j < |events| ==> !Closes(events, q, i, j)
  }

  /** The timer armed at k has not fired. */
  ghost predicate ArmedAt(events: seq<Event>, q: nat, k: nat) {
    k < |events| && events[k] == PingArm(q) && forall m :: k < m < |events| ==> events[m] != PingTimeout(q)
  }

  ghost predicate Awaited(events: seq<Event>, q: nat) { exists i: nat :: OpenAt(events, q, i) }

  ghost predicate TimerRuns(events: seq<Event>, q: nat) { exists k: nat :: ArmedAt(events, q, k) }

  lemma StepStarts(s: State, e: Event, q: nat)
    ensures q in Step(s, e).past.pings <==> q in s.past.pings || e == PingStart(q)
  {}

  lemma {:induction false} PingsStarted(events: seq<Event>, q: nat)
    ensures q in Run(INITIAL, events).past.pings <==> PingStart(q) in events
  {
    if events != [] {
      var n := |events| - 1;
      PingsStarted(events[..n], q);
      StepStarts(Run(INITIAL, events[..n]), events[n], q);
      assert events == events[..n] + [events[n]];
    }
  }

  /** A ping is armed only after its start. */
  lemma ArmFollowsStart(events: seq<Event>, q: nat, i: nat, k: nat)
    requires LegalRun(INITIAL, events) && i < |events| && k < |events|
    requires events[i] == PingStart(q) && events[k] == PingArm(q)
    ensures i < k
  {
    assert Legal(Run(INITIAL, events[..i]), events[i]) && Legal(Run(INITIAL, events[..k]), events[k]);
    PingsStarted(events[..i], q);
    PingsStarted(events[..k], q);
  }

  lemma StepTimers(s: State, e: Event, q: nat)
    ensures q in Step(s, e).pingTimers <==> e == PingArm(q) || (q in s.pingTimers && e != PingTimeout(q))
  {}

  lemma TimerOneMore(before: seq<Event>, e: Event, q: nat)
    ensures TimerRuns(before + [e], q) <==> e == PingArm(q) || (TimerRuns(before, q) && e != PingTimeout(q))
  {
    var events, n := before + [e], |before|;
    if TimerRuns(before, q) && e != PingTimeout(q) {
      var k: nat :| ArmedAt(before, q, k);
      assert ArmedAt(events, q, k);
    }
    if TimerRuns(events, q) && e != PingArm(q) {
      var k: nat :| ArmedAt(events, q, k);
      assert events[n] != PingTimeout(q);
      assert forall m :: 0 <= m < n ==> events[m] == before[m];
      assert ArmedAt(before, q, k);
    }
    if e == PingArm(q) {
      assert ArmedAt(events, q, n);
    }
  }

  lemma {:induction false} TimersByHistory(events: seq<Event>, q: nat)
    ensures q in Run(INITIAL, events).pingTimers <==> TimerRuns(events, q)
  {
    if events != [] {
      var n := |events| - 1;
      TimersByHistory(events[..n], q);
      StepTimers(Run(INITIAL, events[..n]), events[n], q);
      TimerOneMore(events[..n], events[n], q);
      assert events == events[..n] + [events[n]];
    }
  }

  /** An awaited ping that has an unfired timer has had no fired one. */
  lemma OpenTimer(events: seq<Event>, q: nat, i: nat)
    requires LegalRun(INITIAL, events) && OpenAt(events, q, i)
    ensures TimerRuns(events, q) <==> exists k :: i < k < |events| && events[k] == PingArm(q)
  {
    if TimerRuns(events, q) {
      var k: nat :| ArmedAt(events, q, k);
      ArmFollowsStart(events, q, i, k);
    }
    if k :| i < k < |events| && events[k] == PingArm(q) {
      forall m | k < m < |events| ensures events[m] != PingTimeout(q) {
        assert !Closes(events, q, i, m);
      }
      assert ArmedAt(events, q, k);
    }
  }

  lemma OpenAtPrefix(before: seq<Event>, e: Event, q: nat, i: nat)
    ensures i < |before| ==>
      (OpenAt(before + [e], q, i) <==> OpenAt(before, q, i) && !Closes(before + [e], q, i, |before|))
    ensures OpenAt(before + [e], q, |before|) <==> e == PingStart(q)
  {
    var events := before + [e];
    if i < |before| {
      forall j | i < j < |before| ensures Closes(events, q, i, j) <==> Closes(before, q, i, j) {
        assert forall k :: 0 <= k < |before| ==> events[k] == before[k];
      }
      if OpenAt(events, q, i) {
        assert forall j :: i < j < |before| ==> !Closes(events, q, i, j);
      }
    }
  }

  lemma StepAwaits(s: State, e: Event, q: nat)
    requires Inv(s) && Legal(s, e)
    ensures Step(s, e).pendingPing == Some(q) <==>
            || e == PingStart(q)
            || (s.pendingPing == Some(q) && !e.PingStart? && !IsPong(e, q)
                && !(e == PingTimeout(q) && q in s.pingTimers))
  {}

  lemma {:induction false} AwaitedByHistory(events: seq<Event>, q: nat)
    requires LegalRun(INITIAL, events)
    ensures Run(INITIAL, events).pendingPing == Some(q) <==> Awaited(events, q)
  {
    if events != [] {
      var n := |events| - 1;
      var before, e := events[..n], events[n];
      assert events == before + [e];
      LegalPrefix(INITIAL, events, n);
      InitialInv();
      RunKeepsInv(INITIAL, before);
      StepAwaits(Run(INITIAL, before), e, q);
      AwaitedByHistory(before, q);
      TimersByHistory(before, q);
      if e == PingStart(q) {
        OpenAtPrefix(before, e, q, n);
      } else {
        AwaitedStep(before, e, q);
      }
    }
  }

  /** A further event leaves a ping awaited unless it replaces, answers or times it out. */
  lemma AwaitedStep(before: seq<Event>, e: Event, q: nat)
    requires LegalRun(INITIAL, before) && e != PingStart(q)
    ensures Awaited(before + [e], q) <==>
            Awaited(before, q) && !e.PingStart? && !IsPong(e, q) && !(e == PingTimeout(q) && TimerRuns(before, q))
  {
    var events := before + [e];
    if Awaited(before, q) {
      var i: nat :| OpenAt(before, q, i);
      OpenTimer(before, q, i);
      OpenAtPrefix(before, e, q, i);
      assert forall k :: 0 <= k < |before| ==> events[k] == before[k];
      assert Closes(events, q, i, |before|) <==>
             e.PingStart? || IsPong(e, q) || (e == PingTimeout(q) && TimerRuns(before, q));
    }
    if Awaited(events, q) {
      var i: nat :| OpenAt(events, q, i);
      OpenAtPrefix(before, e, q, i);
      OpenAtPrefix(before, e, q, |before|);
      OpenTimer(before, q, i);
      assert !Closes(events, q, i, |before|);
      assert forall k :: 0 <= k < |before| ==> events[k] == before[k];
    }
  }

  /** Started, and since then neither replaced, answered nor timed out; and its timer is running. */
  ghost predicate Counts(events: seq<Event>, q: nat) { Awaited(events, q) && TimerRuns(events, q) }

  /** Whether the heartbeat runs: a command that is no ping starts it, a report of death stops it. */
  ghost function Beating(events: seq<Event>): (r: bool) {
    if events == [] then false
    else
      var before, e := events[..|events| - 1], events[|events| - 1];
      if e.Submit? && !e.isPing then true
      else if e.PingTimeout? && Counts(before, e.sequence) && Misses(events) >= 3 then false
      else Beating(before)
  }

  lemma StepMisses(s: State, e: Event)
    requires Heartbeats(s) && Legal(s, e)
    ensures Step(s, e).heartbeat ==
            if e.Submit? && !e.isPing then true
            else if e.PingTimeout? && s.pendingPing == Some(e.sequence) && e.sequence in s.pingTimers
                    && Step(s, e).missedPings >= MAX_MISSED_PINGS then false
            else s.heartbeat
    ensures Step(s, e).missedPings ==
            if e.PingTimeout? && s.pendingPing == Some(e.sequence) && e.sequence in s.pingTimers then s.missedPings + 1
            else if e.Response? && e.status.Pong? && s.pendingPing == Some(e.sequence) then 0
            else s.missedPings
    ensures Step(s, e).past.deaths == s.past.deaths +
            if e.PingTimeout? && s.pendingPing == Some(e.sequence) && e.sequence in s.pingTimers
               && Step(s, e).missedPings >= MAX_MISSED_PINGS
            then [Step(s, e).missedPings] else []
  {}

  /** In every run, the timeout of q adds a miss exactly when q's timer was armed and has not fired,
      and since q's start no newer ping has started, no matching pong has come and no armed timeout
      of q has fired. */
  lemma MissCountsExactly(events: seq<Event>, q: nat)
    requires LegalRun(INITIAL, events)
    ensures Step(Run(INITIAL, events), PingTimeout(q)).missedPings ==
            Run(INITIAL, events).missedPings + if Counts(events, q) then 1 else 0
  {
    InitialInv();
    RunKeepsInv(INITIAL, events);
    AwaitedByHistory(events, q);
    TimersByHistory(events, q);
    StepMisses(Run(INITIAL, events), PingTimeout(q));
  }

  /** Counted misses since the last matching pong, by the event list. */
  ghost function Misses(events: seq<Event>): (r: nat) {
    if events == [] then 0
    else
      var before, e := events[..|events| - 1], events[|events| - 1];
      if e.PingTimeout? && Counts(before, e.sequence) then Misses(before) + 1
      else if e.Response? && e.status.Pong? && Awaited(before, e.sequence) then 0
      else Misses(before)
  }

  /** The reports of a dead transport that history calls for. */
  ghost function Deaths(events: seq<Event>): (r: seq<nat>) {
    if events == [] then []
    else
      var before, e := events[..|events| - 1], events[|events| - 1];
      Deaths(before) +
      if e.PingTimeout? && Counts(before, e.sequence) && Misses(events) >= 3
      then [Misses(events)] else []
  }

  /** In every run missedPings is the number of counted misses since the last matching pong, and
      the transport is reported dead at exactly those counted misses that make it three or more, which
      stop the heartbeat until the next command. */
  lemma {:induction false} MissedPingsByHistory(events: seq<Event>)
    requires LegalRun(INITIAL, events)
    ensures Run(INITIAL, events).missedPings == Misses(events)
    ensures Run(INITIAL, events).past.deaths == Deaths(events)
    ensures Run(INITIAL, events).heartbeat == Beating(events)
  {
    if events != [] {
      var n := |events| - 1;
      LegalPrefix(INITIAL, events, n);
      InitialInv();
      RunKeepsInv(INITIAL, events[..n]);
      MissedPingsByHistory(events[..n]);
      AwaitedByHistory(events[..n], events[n].sequence);
      TimersByHistory(events[..n], events[n].sequence);
      StepMisses(Run(INITIAL, events[..n]), events[n]);
    }
  }

  /** A link on which no ping is ever armed, because no send completes, is never reported dead. */
  lemma {:induction false} StuckSendsAreNeverDeath(events: seq<Event>)
    requires LegalRun(INITIAL, events) && forall i :: 0 <= i < |events| ==> !events[i].PingArm?
    ensures Run(INITIAL, events).missedPings == 0 && Run(INITIAL, events).past.deaths == []
  {
    if events != [] {
      var n := |events| - 1;
      LegalPrefix(INITIAL, events, n);
      InitialInv();
      RunKeepsInv(INITIAL, events[..n]);
      StuckSendsAreNeverDeath(events[..n]);
      TimersByHistory(events[..n], events[n].sequence);
      StepMisses(Run(INITIAL, events[..n]), events[n]);
    }
  }

  /** Event i starts ping q, k arms its timer once the send is done, n is the timer firing, with no
      answer in between; j is the next start of a ping, if there is one. */
  ghost predicate Unanswered(events: seq<Event>, q: nat, i: nat, k: nat, n: nat, j: nat) {
    && i < k < n < |events| && i < j <= |events|
    && events[i] == PingStart(q) && events[k] == PingArm(q) && events[n] == PingTimeout(q)
    && (forall m :: i < m < k ==> events[m] != PingArm(q))
    && (forall m :: k < m < n ==> events[m] != PingTimeout(q))
    && (forall m :: i < m < n ==> !IsPong(events[m], q))
    && (forall m :: i < m < j ==> !events[m].PingStart?)
    && (j < |events| ==> events[j].PingStart?)
  }

  /** Times of the events: the clock does not run back, and the timer armed at k fires at n, three
      RTOs later. */
  ghost predicate Timed(events: seq<Event>, times: seq<real>, k: nat, n: nat) {
    && k < n < |events| == |times|
    && (forall m, m' :: 0 <= m < m' < |times| ==> times[m] <= times[m'])
    && times[n] == times[k] + 3.0 * Run(INITIAL, events[..k]).rtt.Rto()
  }

  /** A newer ping starts between the start of q and the end of the run. */
  lemma ReplacedNeverCounts(events: seq<Event>, q: nat, i: nat, j: nat)
    requires LegalRun(INITIAL, events) && i < j < |events| && events[i] == PingStart(q) && events[j].PingStart?
    ensures !Awaited(events, q)
  {
    if Awaited(events, q) {
      var i': nat :| OpenAt(events, q, i');
      StartsOnce(events, q, i, i');
      assert Closes(events, q, i, j);
    }
  }

  lemma PromptCounts(before: seq<Event>, q: nat, i: nat, k: nat)
    requires i < k < |before| && before[i] == PingStart(q) && before[k] == PingArm(q)
    requires forall m :: i < m < k ==> before[m] != PingArm(q)
    requires forall m :: k < m < |before| ==> before[m] != PingTimeout(q)
    requires forall m :: i < m < |before| ==> !IsPong(before[m], q) && !before[m].PingStart?
    ensures Counts(before, q)
  {
    assert ArmedAt(before, q, k);
    forall j | i < j < |before| ensures !Closes(before, q, i, j) {
      assert before[j] == PingTimeout(q) ==> j < k;
    }
    assert OpenAt(before, q, i);
  }

  lemma CountsIffFirst(events: seq<Event>, q: nat, i: nat, k: nat, n: nat, j: nat)
    requires LegalRun(INITIAL, events) && Unanswered(events, q, i, k, n, j)
    ensures Counts(events[..n], q) <==> n < j
  {
    LegalPrefix(INITIAL, events, n);
    if n < j {
      PromptCounts(events[..n], q, i, k);
    } else {
      ReplacedNeverCounts(events[..n], q, i, j);
    }
  }

  /** An unanswered ping is counted exactly when its timeout comes before the next ping's start: if
      the delay of its send and three RTOs together are less than the gap between the two starts,
      and not if they are more. */
  lemma MissCountsIffPrompt(events: seq<Event>, times: seq<real>, q: nat, i: nat, k: nat, n: nat, j: nat)
    requires LegalRun(INITIAL, events) && Unanswered(events, q, i, k, n, j) && Timed(events, times, k, n)
    ensures Counts(events[..n], q) <==> n < j
    ensures j < |events| ==>
              var delay, gap := times[k] - times[i], times[j] - times[i];
              var wait := delay + 3.0 * Run(INITIAL, events[..k]).rtt.Rto();
              (wait < gap ==> Counts(events[..n], q)) && (wait > gap ==> !Counts(events[..n], q))
  {
    CountsIffFirst(events, q, i, k, n, j);
  }

  lemma StartsOnce(events: seq<Event>, q: nat, i: nat, j: nat)
    requires LegalRun(INITIAL, events) && i < |events| && j < |events|
    requires events[i] == PingStart(q) && events[j] == PingStart(q)
    ensures i == j
  {
    PingsStarted(events[..i], q);
    PingsStarted(events[..j], q);
    assert Legal(Run(INITIAL, events[..i]), events[i]) && Legal(Run(INITIAL, events[..j]), events[j]);
  }

  const SLOW_SEND := [PingStart(1), PingStart(2), PingArm(1), PingTimeout(1)]

  /** The send of ping 1 is still under way when ping 2 starts, so the timeout of ping 1, one
      second of RTO or not, adds nothing. */
  lemma SlowSendLosesMiss()
    ensures LegalRun(INITIAL, SLOW_SEND) && Run(INITIAL, SLOW_SEND).missedPings == 0
  {
    assert SLOW_SEND[..3] == [PingStart(1), PingStart(2), PingArm(1)] && SLOW_SEND[..2] == [PingStart(1), PingStart(2)]
           && SLOW_SEND[..1] == [PingStart(1)];
    PingsStarted(SLOW_SEND[..0], 1);
    PingsStarted(SLOW_SEND[..1], 2);
    PingsStarted(SLOW_SEND[..2], 1);
    forall i | 0 <= i < 4 ensures Legal(Run(INITIAL, SLOW_SEND[..i]), SLOW_SEND[i]) {
      StartsKeepNumbers(SLOW_SEND[..i]);
    }
    MissedPingsByHistory(SLOW_SEND);
    assert Closes(SLOW_SEND[..3], 1, 0, 1);
    assert forall i: nat :: !OpenAt(SLOW_SEND[..3], 1, i);
    assert SLOW_SEND[..4] == SLOW_SEND;
    assert Misses(SLOW_SEND) == Misses(SLOW_SEND[..3]);
    assert SLOW_SEND[..3][..2] == SLOW_SEND[..2] && SLOW_SEND[..2][..1] == SLOW_SEND[..1] && SLOW_SEND[..1][..0] == [];
    assert Misses(SLOW_SEND[..3]) == Misses(SLOW_SEND[..2]) == Misses(SLOW_SEND[..1]) == Misses([]);
  }

  /** Only a submission adds a command. */
  lemma {:induction false} StartsKeepNumbers(events: seq<Event>)
    requires forall i :: 0 <= i < |events| ==> !events[i].Submit?
    ensures Run(INITIAL, events).past.commands == {}
  {
    if events != [] {
      StartsKeepNumbers(events[..|events| - 1]);
    }
  }

  // ---------------------------------------------------------------- the class

  class Client {
    var pending: map<nat, Entry>
    var pendingTimeouts: set<nat>
    var aborted: set<nat>
    var timers: set<nat>
    var pingTimers: set<nat>
    const rttEstimator: RttEstimator
    var missedPings: nat
    var pendingPingSeq: Option<nat>
    var heartbeat: bool
    ghost var past: History

    ghost function Model(): (r: State)
      reads this, rttEstimator
    {
      State(pending, pendingTimeouts, aborted, timers, pingTimers, rttEstimator.Model(), missedPings,
            pendingPingSeq, heartbeat, past)
    }

    constructor ()
      ensures Model() == INITIAL && fresh(rttEstimator)
    {
      pending, pendingTimeouts, aborted, timers, pingTimers := map[], {}, {}, {}, {};
      rttEstimator := new RttEstimator();
      missedPings, pendingPingSeq, heartbeat, past := 0, None, false, NO_HISTORY;
    }

    /** The stretch of sendCommand after its last await. */
    method SendCommand(q: nat, isPing: bool, now: real)
      modifies this
      ensures Model() == Step(old(Model()), Submit(q, isPing, now))
    {
      if !isPing {
        heartbeat := true;
      }
      SendCommandWithRetry(q, now);
    }

    method SendCommandWithRetry(q: nat, now: real)
      modifies this
      ensures Model() == Registered(old(Model()), q, now)
    {
      pending := pending[q := Entry(0, now)];
      pendingTimeouts := pendingTimeouts + {q};
      past := past.(commands := past.commands + {q});
      Attempt(q, now);
    }

    method Attempt(q: nat, now: real)
      requires q in pending
      modifies this
      ensures Model() == AttemptSend(old(Model()), q, now)
    {
      if q in aborted {
        return;
      }
      var entry := pending[q];
      if entry.attempts >= MAX_RETRIES {
        pendingTimeouts := pendingTimeouts - {q};
        pending := pending - {q};
        past := past.(settled := past.settled + [Settled(q, GaveUp)]);
        return;
      }
      pending := pending[q := Entry(entry.attempts + 1, now)];
      var rto := rttEstimator.GetRto();
      timers := timers + {q};
      past := past.(transmissions := past.transmissions[q := Times(past, q) + 1],
                    waited := past.waited[q := Wait(past, q) + rto]);
    }

    method OnTimer(q: nat, now: real)
      modifies this
      ensures Model() == Step(old(Model()), TimerFires(q, now))
    {
      if q !in timers {
        return;
      }
      timers := timers - {q};
      if q in aborted {
        return;
      }
      if q in pending {
        Attempt(q, now);
      }
    }

    method HandleIncomingResponse(q: nat, status: Status, now: real)
      modifies this, rttEstimator
      ensures Model() == Step(old(Model()), Response(q, status, now))
    {
      if status.Pong? && pendingPingSeq == Some(q) {
        pendingPingSeq := None;
        missedPings := 0;
        if q in pendingTimeouts {
          aborted := aborted + {q};
        }
        pendingTimeouts := pendingTimeouts - {q};
      }
      if q !in pending {
        return;
      }
      var sample := now - pending[q].sentAt;
      if 0.0 < sample < 30000.0 {
        rttEstimator.UpdateRtt(sample);
      }
      if q in pendingTimeouts {
        aborted := aborted + {q};
        timers := timers - {q};
      }
      pendingTimeouts := pendingTimeouts - {q};
      pending := pending - {q};
      past := past.(settled := past.settled + [Settled(q, if status.Error? then Rejected else Resolved)]);
    }

    method StartPing(q: nat)
      modifies this
      ensures Model() == Step(old(Model()), PingStart(q))
    {
      pendingPingSeq := Some(q);
      past := past.(pings := past.pings + {q});
    }

    method ArmPing(q: nat)
      modifies this
      ensures Model() == Step(old(Model()), PingArm(q))
    {
      pendingTimeouts := pendingTimeouts + {q};
      pingTimers := pingTimers + {q};
    }

    method OnPingTimeout(q: nat)
      modifies this
      ensures Model() == Step(old(Model()), PingTimeout(q))
    {
      if q !in pingTimers {
        return;
      }
      pingTimers := pingTimers - {q};
      if q in aborted {
        return;
      }
      if pendingPingSeq == Some(q) {
        pendingPingSeq := None;
        pendingTimeouts := pendingTimeouts - {q};
        missedPings := missedPings + 1;
        if missedPings >= MAX_MISSED_PINGS {
          heartbeat := false;
          past := past.(deaths := past.deaths + [missedPings]);
        }
      }
    }
  }
}
