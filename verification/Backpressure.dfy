/** The backpressure queue of lib/channel/backpressureQueue.ts.

    JavaScript runs each callback to completion, so the atomic steps are the stretches between
    awaits: a whole `send` (with the first stretch of the drain it may start), one wake-up of a
    suspended drain, `clear`, and a close event. Calls are numbered in call order; `sendOk` says of
    each call whether handing its payload to the data channel succeeds. */
module Backpressure {

  datatype Item = Item(id: nat, size: nat)

  datatype Outcome = Sent | SendFailed | QueueCleared | ChannelClosed | NotOpen

  datatype Settled = Settled(id: nat, outcome: Outcome)

  datatype Config = Config(highWater: nat, drainThreshold: nat, sendOk: nat -> bool)

  /** The queue's fields, the channel's observable state, the suspended drains (by generation;
      each still has its close listener attached), and the history of the run. */
  datatype State = State(
    queue: seq<Item>,
    pendingBytes: int,
    draining: bool,
    generation: nat,
    suspended: set<nat>,
    open: bool,
    buffered: nat,
    calls: nat,
    largest: nat,
    delivered: seq<Item>,
    settled: seq<Settled>)

  const INITIAL := State([], 0, false, 0, {}, true, 0, 0, 0, [], [])

  datatype Event =
    | Send(size: nat)
    | Wake(generation: nat)
    | Clear
    | Close
    | Transmitted(bytes: nat)

  // ---------------------------------------------------------------- the steps

  /** Hands a payload to the channel and settles its promise. */
  function Transmit(c: Config, s: State, item: Item): (r: State) {
    if c.sendOk(item.id)
    then s.(buffered := s.buffered + item.size, delivered := s.delivered + [item],
            settled := s.settled + [Settled(item.id, Sent)])
    else s.(settled := s.settled + [Settled(item.id, SendFailed)])
  }

  function Pop(s: State): (r: State)
    requires s.queue != []
  {
    s.(queue := s.queue[1..], pendingBytes := s.pendingBytes - s.queue[0].size)
  }

  /** The drain loop of generation gen, from the loop test to the next await or to its end. */
  function Drain(c: Config, s: State, gen: nat): (r: State)
    decreases |s.queue|
  {
    if s.queue == [] || gen != s.generation then
      if gen == s.generation then s.(draining := false) else s
    else if s.buffered <= c.drainThreshold then
      Drain(c, Transmit(c, Pop(s), s.queue[0]), gen)
    else
      s.(suspended := s.suspended + {gen})
  }

  function RejectAll(items: seq<Item>, o: Outcome): (r: seq<Settled>)
    ensures |r| == |items| && forall i :: 0 <= i < |r| ==> r[i] == Settled(items[i].id, o)
  {
    seq(|items|, i requires 0 <= i < |items| => Settled(items[i].id, o))
  }

  /** Joins the queue, and starts a drain (of a new generation) unless one is in charge. */
  function Enqueue(c: Config, s: State, item: Item): (r: State) {
    var s1 := s.(queue := s.queue + [item], pendingBytes := s.pendingBytes + item.size);
    if s.draining then s1
    else Drain(c, s1.(draining := true, generation := s.generation + 1), s.generation + 1)
  }

  function SendStep(c: Config, s: State, size: nat): (r: State) {
    var item := Item(s.calls, size);
    var s1 := s.(calls := s.calls + 1, largest := if size > s.largest then size else s.largest);
    if !s.open then s1.(settled := s.settled + [Settled(item.id, NotOpen)])
    else if s.queue != [] || s.buffered + s.pendingBytes + size > c.highWater then Enqueue(c, s1, item)
    else Transmit(c, s1, item)
  }

  function Step(c: Config, s: State, e: Event): (r: State) {
    match e
    case Send(size) => SendStep(c, s, size)
    case Wake(gen) =>
      if gen in s.suspended then Drain(c, s.(suspended := s.suspended - {gen}), gen) else s
    case Clear =>
      s.(queue := [], pendingBytes := 0, generation := s.generation + 1, draining := false,
         settled := s.settled + RejectAll(s.queue, QueueCleared))
    case Close =>
      if s.suspended == {} then s.(open := false)
      else s.(open := false, queue := [], pendingBytes := 0,
              settled := s.settled + RejectAll(s.queue, ChannelClosed))
    case Transmitted(bytes) =>
      s.(buffered := if bytes < s.buffered then s.buffered - bytes else 0)
  }

  function After(c: Config, events: seq<Event>): (r: State) {
    if events == [] then INITIAL else Step(c, After(c, events[..|events| - 1]), events[|events| - 1])
  }

  // ---------------------------------------------------------------- the invariant

  function Bytes(q: seq<Item>): (r: nat) {
    if q == [] then 0 else q[0].size + Bytes(q[1..])
  }

  lemma {:induction false} BytesAppend(q: seq<Item>, item: Item)
    ensures Bytes(q + [item]) == Bytes(q) + item.size
  {
    if q != [] {
      assert (q + [item])[1..] == q[1..] + [item];
      BytesAppend(q[1..], item);
    }
  }

  ghost predicate InOrder(q: seq<Item>) {
    forall i, j :: 0 <= i < j < |q| ==> q[i].id < q[j].id
  }

  ghost predicate IsSettled(s: State, id: nat) {
    exists k :: 0 <= k < |s.settled| && s.settled[k].id == id
  }

  ghost predicate IsQueued(s: State, id: nat) {
    exists k :: 0 <= k < |s.queue| && s.queue[k].id == id
  }

  /** Conservation: each call is either queued or settled, never both, and settled at most once. */
  ghost predicate Conserved(s: State) {
    && (forall i, j :: 0 <= i < j < |s.settled| ==> s.settled[i].id != s.settled[j].id)
    && (forall i, j :: 0 <= i < |s.settled| && 0 <= j < |s.queue| ==> s.settled[i].id != s.queue[j].id)
    && (forall i :: 0 <= i < |s.settled| ==> s.settled[i].id < s.calls)
    && (forall id: nat :: id < s.calls ==> IsQueued(s, id) || IsSettled(s, id))
  }

  /** Order: what reached the channel, then what is queued, is in call order. */
  ghost predicate Ordered(s: State) {
    && InOrder(s.delivered) && InOrder(s.queue)
    && (forall i, j :: 0 <= i < |s.delivered| && 0 <= j < |s.queue| ==> s.delivered[i].id < s.queue[j].id)
    && (forall i :: 0 <= i < |s.queue| ==> s.queue[i].id < s.calls)
    && (forall i :: 0 <= i < |s.delivered| ==> s.delivered[i].id < s.calls)
  }

  function Max(a: nat, b: nat): (r: nat) { if a > b then a else b }

  /** Accounting: the byte counter is exact, sizes are bounded, and so is the channel's buffer. */
  ghost predicate Accounted(c: Config, s: State) {
    && s.pendingBytes == Bytes(s.queue)
    && (forall i :: 0 <= i < |s.queue| ==> s.queue[i].size <= s.largest)
    && s.buffered <= Max(c.highWater, c.drainThreshold + s.largest)
  }

  /** Liveness of drains: the flag is up exactly when a suspended drain has the current
      generation, and a non-empty queue has one. */
  ghost predicate Attended(s: State) {
    && (s.draining <==> s.generation in s.suspended)
    && (s.queue != [] ==> s.draining)
    && (forall g :: g in s.suspended ==> g <= s.generation)
  }

  ghost function Ids(q: seq<Item>): (r: seq<nat>) {
    if q == [] then [] else Ids(q[..|q| - 1]) + [q[|q| - 1].id]
  }

  ghost function SentIds(log: seq<Settled>): (r: seq<nat>) {
    if log == [] then []
    else SentIds(log[..|log| - 1]) + if log[|log| - 1].outcome.Sent? then [log[|log| - 1].id] else []
  }

  /** Honesty: the calls told that they were sent are those whose payload reached the channel. */
  ghost predicate Faithful(s: State) {
    Ids(s.delivered) == SentIds(s.settled)
  }

  ghost predicate Inv(c: Config, s: State) {
    Conserved(s) && Ordered(s) && Accounted(c, s) && Attended(s)
  }

  // ---------------------------------------------------------------- preservation

  /** Everything but `Attended`, which a running drain re-establishes only when it stops. */
  ghost predicate Running(c: Config, s: State) {
    Conserved(s) && Ordered(s) && Accounted(c, s)
  }

  lemma IdsAppend(q: seq<Item>, item: Item)
    ensures Ids(q + [item]) == Ids(q) + [item.id]
  {
    assert (q + [item])[..|q|] == q;
  }

  lemma SentIdsAppend(log: seq<Settled>, e: Settled)
    ensures SentIds(log + [e]) == SentIds(log) + if e.outcome.Sent? then [e.id] else []
  {
    assert (log + [e])[..|log|] == log;
  }

  lemma TransmitFaithful(c: Config, s: State, item: Item)
    requires Faithful(s)
    ensures Faithful(Transmit(c, s, item))
  {
    IdsAppend(s.delivered, item);
    SentIdsAppend(s.settled, Settled(item.id, if c.sendOk(item.id) then Sent else SendFailed));
  }

  lemma {:induction false} RejectionsSendNothing(log: seq<Settled>, items: seq<Item>, o: Outcome)
    requires !o.Sent?
    ensures SentIds(log + RejectAll(items, o)) == SentIds(log)
  {
    var n := |items|;
    var all := log + RejectAll(items, o);
    if n == 0 {
      assert all == log;
    } else {
      assert all[..|all| - 1] == log + RejectAll(items[..n - 1], o);
      RejectionsSendNothing(log, items[..n - 1], o);
    }
  }

  lemma MoveHeadConserved(s: State, t: State, o: Outcome)
    requires Conserved(s) && InOrder(s.queue) && s.queue != [] && s.queue[0].id < s.calls
    requires t.queue == s.queue[1..] && t.settled == s.settled + [Settled(s.queue[0].id, o)] && t.calls == s.calls
    ensures Conserved(t)
  {
    var n := |s.settled|;
    forall id: nat | id < t.calls ensures IsQueued(t, id) || IsSettled(t, id) {
      if IsQueued(s, id) {
        var k :| 0 <= k < |s.queue| && s.queue[k].id == id;
        assert if k == 0 then t.settled[n].id == id else t.queue[k - 1].id == id;
      } else {
        assert IsSettled(s, id);
        var k :| 0 <= k < n && s.settled[k].id == id;
        assert t.settled[k].id == id;
      }
    }
  }

  lemma PopTransmitRunning(c: Config, s: State)
    requires s.queue != [] && Running(c, s) && s.buffered <= c.drainThreshold
    ensures Running(c, Transmit(c, Pop(s), s.queue[0]))
  {
    MoveHeadConserved(s, Transmit(c, Pop(s), s.queue[0]), if c.sendOk(s.queue[0].id) then Sent else SendFailed);
  }

  /** A drain that runs at all leaves either an empty queue and a lowered flag, or a buffer above
      the threshold with itself suspended again. */
  lemma {:induction false} DrainKeepsInv(c: Config, s: State, gen: nat)
    requires Running(c, s)
    requires gen == s.generation ==> s.draining && gen !in s.suspended
    requires gen != s.generation ==> Attended(s)
    requires gen <= s.generation && forall g :: g in s.suspended ==> g <= s.generation
    ensures Inv(c, Drain(c, s, gen))
    ensures gen == s.generation ==>
      var t := Drain(c, s, gen);
      if gen in t.suspended then t.queue != [] && t.buffered > c.drainThreshold else t.queue == [] && !t.draining
    decreases |s.queue|
  {
    if s.queue != [] && gen == s.generation && s.buffered <= c.drainThreshold {
      PopTransmitRunning(c, s);
      DrainKeepsInv(c, Transmit(c, Pop(s), s.queue[0]), gen);
    } else {
      var t := Drain(c, s, gen);
      ConservedFrame(s, t);
    }
  }

  lemma ConservedFrame(s: State, t: State)
    requires Conserved(s)
    requires t.queue == s.queue && t.settled == s.settled && t.calls == s.calls
    ensures Conserved(t)
  {
    forall id: nat | id < t.calls ensures IsQueued(t, id) || IsSettled(t, id) {
      assert IsQueued(s, id) || IsSettled(s, id);
    }
  }

  /** A call that is settled on the spot. */
  lemma SettleAtOnce(s: State, t: State, o: Outcome)
    requires Conserved(s) && (forall i :: 0 <= i < |s.queue| ==> s.queue[i].id < s.calls)
    requires t.queue == s.queue && t.calls == s.calls + 1 && t.settled == s.settled + [Settled(s.calls, o)]
    ensures Conserved(t)
  {
    var n := |s.settled|;
    forall id: nat | id < t.calls ensures IsQueued(t, id) || IsSettled(t, id) {
      if id == s.calls {
        assert t.settled[n].id == id;
      } else if IsSettled(s, id) {
        var k :| 0 <= k < n && s.settled[k].id == id;
        assert t.settled[k].id == id;
      } else {
        assert IsQueued(s, id);
        var k :| 0 <= k < |s.queue| && s.queue[k].id == id;
        assert t.queue[k].id == id;
      }
    }
  }

  /** A call that joins the queue. */
  lemma EnqueueConserved(s: State, t: State, size: nat)
    requires Conserved(s)
    requires t.queue == s.queue + [Item(s.calls, size)] && t.calls == s.calls + 1 && t.settled == s.settled
    ensures Conserved(t)
  {
    var n := |s.queue|;
    forall id: nat | id < t.calls ensures IsQueued(t, id) || IsSettled(t, id) {
      if id == s.calls {
        assert t.queue[n].id == id;
      } else if IsQueued(s, id) {
        var k :| 0 <= k < n && s.queue[k].id == id;
        assert t.queue[k].id == id;
      } else {
        assert IsSettled(s, id);
        var k :| 0 <= k < |s.settled| && s.settled[k].id == id;
        assert t.settled[k].id == id;
      }
    }
  }

  lemma EnqueueRunning(c: Config, s: State, t: State, size: nat)
    requires Running(c, s)
    requires t.queue == s.queue + [Item(s.calls, size)] && t.pendingBytes == s.pendingBytes + size
    requires t.calls == s.calls + 1 && t.settled == s.settled && t.delivered == s.delivered
    requires t.buffered == s.buffered && t.largest == Max(size, s.largest)
    ensures Running(c, t)
  {
    EnqueueConserved(s, t, size);
    BytesAppend(s.queue, Item(s.calls, size));
  }

  function Enqueued(s: State, size: nat): (r: State) {
    s.(calls := s.calls + 1, largest := Max(size, s.largest),
       queue := s.queue + [Item(s.calls, size)], pendingBytes := s.pendingBytes + size)
  }

  lemma StartedDrainKeepsInv(c: Config, s: State, size: nat)
    requires Inv(c, s) && !s.draining
    ensures var g := s.generation + 1;
            Inv(c, Drain(c, Enqueued(s, size).(draining := true, generation := g), g))
  {
    var g := s.generation + 1;
    var t := Enqueued(s, size).(draining := true, generation := g);
    EnqueueRunning(c, s, t, size);
    DrainKeepsInv(c, t, g);
  }

  lemma QueueingKeepsInv(c: Config, s: State, size: nat)
    requires Inv(c, s) && s.open
    requires s.queue != [] || s.buffered + s.pendingBytes + size > c.highWater
    ensures Inv(c, SendStep(c, s, size))
  {
    var t := SendStep(c, s, size);
    if s.draining {
      assert t == Enqueued(s, size);
      EnqueueRunning(c, s, t, size);
    } else {
      var g := s.generation + 1;
      assert t == Drain(c, Enqueued(s, size).(draining := true, generation := g), g);
      StartedDrainKeepsInv(c, s, size);
    }
  }

  lemma ImmediateKeepsInv(c: Config, s: State, size: nat)
    requires Inv(c, s)
    requires s.open ==> s.queue == [] && s.buffered + s.pendingBytes + size <= c.highWater
    ensures Inv(c, SendStep(c, s, size))
  {
    var t := SendStep(c, s, size);
    SettleAtOnce(s, t, if !s.open then NotOpen else if c.sendOk(s.calls) then Sent else SendFailed);
  }

  /** Clearing and closing settle every queued call once. */
  lemma RejectAllConserved(s: State, t: State, o: Outcome)
    requires Conserved(s) && InOrder(s.queue) && forall i :: 0 <= i < |s.queue| ==> s.queue[i].id < s.calls
    requires t.queue == [] && t.calls == s.calls && t.settled == s.settled + RejectAll(s.queue, o)
    ensures Conserved(t)
  {
    var n := |s.settled|;
    forall id: nat | id < t.calls ensures IsQueued(t, id) || IsSettled(t, id) {
      if IsQueued(s, id) {
        var k :| 0 <= k < |s.queue| && s.queue[k].id == id;
        assert t.settled[n + k].id == id;
      } else {
        assert IsSettled(s, id);
        var k :| 0 <= k < n && s.settled[k].id == id;
        assert t.settled[k].id == id;
      }
    }
  }

  lemma EmptyingKeepsInv(c: Config, s: State, t: State, o: Outcome)
    requires Inv(c, s) && Attended(t)
    requires t.queue == [] && t.pendingBytes == 0 && t.settled == s.settled + RejectAll(s.queue, o)
    requires t.calls == s.calls && t.delivered == s.delivered && t.buffered == s.buffered && t.largest == s.largest
    ensures Inv(c, t)
  {
    RejectAllConserved(s, t, o);
  }

  lemma WakeKeepsInv(c: Config, s: State, gen: nat)
    requires Inv(c, s)
    ensures Inv(c, Step(c, s, Wake(gen)))
  {
    if gen in s.suspended {
      var s1 := s.(suspended := s.suspended - {gen});
      ConservedFrame(s, s1);
      DrainKeepsInv(c, s1, gen);
    }
  }

  lemma StepKeepsInv(c: Config, s: State, e: Event)
    requires Inv(c, s)
    ensures Inv(c, Step(c, s, e))
  {
    var t := Step(c, s, e);
    match e
    case Send(size) =>
      if s.open && (s.queue != [] || s.buffered + s.pendingBytes + size > c.highWater) {
        QueueingKeepsInv(c, s, size);
      } else {
        ImmediateKeepsInv(c, s, size);
      }
    case Wake(gen) => WakeKeepsInv(c, s, gen);
    case Clear => EmptyingKeepsInv(c, s, t, QueueCleared);
    case Close =>
      if s.suspended == {} {
        ConservedFrame(s, t);
      } else {
        EmptyingKeepsInv(c, s, t, ChannelClosed);
      }
    case Transmitted(_) => ConservedFrame(s, t);
  }

  /** Over every run: bytes conserved, every call settled at most once and never lost, call order
      kept on the channel, the buffer bounded, and a waiting queue always attended by a drain. */
  lemma {:induction false} RunKeepsInv(c: Config, events: seq<Event>)
    ensures Inv(c, After(c, events))
  {
    if events != [] {
      RunKeepsInv(c, events[..|events| - 1]);
      StepKeepsInv(c, After(c, events[..|events| - 1]), events[|events| - 1]);
    }
  }

  lemma {:induction false} DrainFaithful(c: Config, s: State, gen: nat)
    requires Faithful(s)
    ensures Faithful(Drain(c, s, gen))
    decreases |s.queue|
  {
    if s.queue != [] && gen == s.generation && s.buffered <= c.drainThreshold {
      TransmitFaithful(c, Pop(s), s.queue[0]);
      DrainFaithful(c, Transmit(c, Pop(s), s.queue[0]), gen);
    }
  }

  lemma SendFaithful(c: Config, s: State, size: nat)
    requires Faithful(s)
    ensures Faithful(SendStep(c, s, size))
  {
    var t := SendStep(c, s, size);
    var s1 := s.(calls := s.calls + 1, largest := Max(size, s.largest));
    if !s.open {
      assert t.settled[..|s.settled|] == s.settled;
    } else if s.queue != [] || s.buffered + s.pendingBytes + size > c.highWater {
      var s2 := s1.(queue := s.queue + [Item(s.calls, size)], pendingBytes := s.pendingBytes + size,
                    draining := true, generation := s.generation + 1);
      DrainFaithful(c, s2, s.generation + 1);
    } else {
      TransmitFaithful(c, s1, Item(s.calls, size));
    }
  }

  /** Over every run, exactly the calls whose payload reached the channel resolve, in that order. */
  lemma {:induction false} RunFaithful(c: Config, events: seq<Event>)
    ensures Faithful(After(c, events))
  {
    if events != [] {
      var s := After(c, events[..|events| - 1]);
      RunFaithful(c, events[..|events| - 1]);
      match events[|events| - 1]
      case Send(size) => SendFaithful(c, s, size);
      case Wake(gen) => DrainFaithful(c, s.(suspended := s.suspended - {gen}), gen);
      case Clear => RejectionsSendNothing(s.settled, s.queue, QueueCleared);
      case Close => RejectionsSendNothing(s.settled, s.queue, ChannelClosed);
      case Transmitted(_) =>
    }
  }

  lemma AfterAppend(c: Config, events: seq<Event>, e: Event)
    ensures After(c, events + [e]) == Step(c, After(c, events), e)
  {
    assert (events + [e])[..|events|] == events;
  }

  /** From s to t everything queued was settled with outcome o, and nothing else happened to any
      call: nothing stays pending. */
  ghost predicate AllRejected(s: State, t: State, o: Outcome) {
    && t.queue == [] && t.pendingBytes == 0 && t.calls == s.calls && t.delivered == s.delivered
    && s.settled <= t.settled && |t.settled| == |s.settled| + |s.queue|
    && (forall i :: 0 <= i < |s.queue| ==> Settled(s.queue[i].id, o) in t.settled)
    && (forall i, j :: 0 <= i < j < |t.settled| ==> t.settled[i].id != t.settled[j].id)
    && forall id: nat :: id < t.calls ==> IsSettled(t, id)
  }

  lemma RejectedAll(c: Config, s: State, t: State, o: Outcome)
    requires Inv(c, t) && t.queue == [] && t.pendingBytes == 0 && t.calls == s.calls && t.delivered == s.delivered
    requires t.settled == s.settled + RejectAll(s.queue, o)
    ensures AllRejected(s, t, o)
  {
    forall i | 0 <= i < |s.queue| ensures Settled(s.queue[i].id, o) in t.settled {
      assert t.settled[|s.settled| + i] == Settled(s.queue[i].id, o);
    }
    forall id: nat | id < t.calls ensures IsSettled(t, id) {
      assert IsQueued(t, id) || IsSettled(t, id);
    }
  }

  /** The channel closing leaves no promise pending, in any run: a drain is always there to hear of
      it, and its listener rejects whatever is queued. */
  lemma CloseSettlesAll(c: Config, events: seq<Event>)
    ensures var s, t := After(c, events), After(c, events + [Close]);
            AllRejected(s, t, ChannelClosed) && !t.open
  {
    var s := After(c, events);
    RunKeepsInv(c, events);
    RunKeepsInv(c, events + [Close]);
    AfterAppend(c, events, Close);
    assert RejectAll([], ChannelClosed) == [];
    RejectedAll(c, s, After(c, events + [Close]), ChannelClosed);
  }

  /** Clearing rejects whatever is queued and leaves no drain in charge. */
  lemma ClearSettlesAll(c: Config, events: seq<Event>)
    ensures var s, t := After(c, events), After(c, events + [Clear]);
            AllRejected(s, t, QueueCleared) && t.open == s.open && !t.draining && t.generation !in t.suspended
  {
    RunKeepsInv(c, events);
    RunKeepsInv(c, events + [Clear]);
    AfterAppend(c, events, Clear);
    RejectedAll(c, After(c, events), After(c, events + [Clear]), QueueCleared);
  }

  // ---------------------------------------------------------------- why a call was settled

  /** The calls made before the channel closed. */
  ghost function OpenCalls(events: seq<Event>): (n: nat) {
    if events == [] then 0
    else
      var before := events[..|events| - 1];
      OpenCalls(before) + if events[|events| - 1].Send? && Close !in before then 1 else 0
  }

  ghost function Calls(events: seq<Event>): (n: nat) {
    if events == [] then 0
    else Calls(events[..|events| - 1]) + if events[|events| - 1].Send? then 1 else 0
  }

  /** What an outcome says of a run with these clears, closes and calls made before the close. */
  ghost predicate Caused(c: Config, cleared: bool, closed: bool, early: nat, e: Settled) {
    match e.outcome
    case Sent => c.sendOk(e.id) && e.id < early
    case SendFailed => !c.sendOk(e.id) && e.id < early
    case QueueCleared => cleared && e.id < early
    case ChannelClosed => closed && e.id < early
    case NotOpen => closed && early <= e.id
  }

  ghost predicate CausedBy(c: Config, cleared: bool, closed: bool, early: nat, s: State) {
    && early <= s.calls && (s.open <==> !closed) && (s.open ==> early == s.calls)
    && (forall i :: 0 <= i < |s.settled| ==> Caused(c, cleared, closed, early, s.settled[i]))
    && (forall i :: 0 <= i < |s.settled| ==> s.settled[i].id < s.calls)
    && forall i :: 0 <= i < |s.queue| ==> s.queue[i].id < early
  }

  ghost predicate AllCaused(c: Config, events: seq<Event>, s: State) {
    s.calls == Calls(events) && CausedBy(c, Clear in events, Close in events, OpenCalls(events), s)
  }

  lemma {:induction false} DrainCauses(c: Config, cleared: bool, closed: bool, early: nat, s: State, gen: nat)
    requires CausedBy(c, cleared, closed, early, s)
    ensures CausedBy(c, cleared, closed, early, Drain(c, s, gen)) && Drain(c, s, gen).calls == s.calls
    decreases |s.queue|
  {
    if s.queue != [] && gen == s.generation && s.buffered <= c.drainThreshold {
      DrainCauses(c, cleared, closed, early, Transmit(c, Pop(s), s.queue[0]), gen);
    }
  }

  lemma QueueingCauses(c: Config, cleared: bool, early: nat, s: State, size: nat)
    requires CausedBy(c, cleared, false, early, s)
    ensures var t := Enqueue(c, s.(calls := s.calls + 1, largest := Max(size, s.largest)), Item(s.calls, size));
            CausedBy(c, cleared, false, early + 1, t) && t.calls == s.calls + 1
  {
    var s1 := Enqueued(s, size);
    if !s.draining {
      var g := s.generation + 1;
      DrainCauses(c, cleared, false, early + 1, s1.(draining := true, generation := g), g);
    }
  }

  lemma SendCauses(c: Config, cleared: bool, closed: bool, early: nat, s: State, size: nat)
    requires CausedBy(c, cleared, closed, early, s)
    ensures CausedBy(c, cleared, closed, if closed then early else early + 1, SendStep(c, s, size))
    ensures SendStep(c, s, size).calls == s.calls + 1
  {
    if s.open {
      QueueingCauses(c, cleared, early, s, size);
    }
  }

  lemma RejectionCauses(c: Config, cleared: bool, closed: bool, early: nat, s: State, t: State, e: Event)
    requires CausedBy(c, cleared, closed, early, s) && (e == Clear || e == Close)
    requires t.queue == [] && t.calls == s.calls && t.open == (s.open && e != Close)
    requires t.settled == s.settled + RejectAll(s.queue, if e == Clear then QueueCleared else ChannelClosed)
    ensures CausedBy(c, cleared || e == Clear, closed || e == Close, early, t)
  {}

  lemma CountOneMore(before: seq<Event>, e: Event)
    ensures OpenCalls(before + [e]) == OpenCalls(before) + if e.Send? && Close !in before then 1 else 0
    ensures Calls(before + [e]) == Calls(before) + if e.Send? then 1 else 0
  {
    assert (before + [e])[..|before|] == before;
  }

  lemma StepCauses(c: Config, cleared: bool, closed: bool, early: nat, s: State, e: Event)
    requires CausedBy(c, cleared, closed, early, s) && Inv(c, s)
    ensures var t := Step(c, s, e);
            && CausedBy(c, cleared || e == Clear, closed || e == Close,
                        if e.Send? && !closed then early + 1 else early, t)
            && t.calls == s.calls + if e.Send? then 1 else 0
  {
    match e
    case Send(size) => SendCauses(c, cleared, closed, early, s, size);
    case Wake(gen) =>
      if gen in s.suspended {
        DrainCauses(c, cleared, closed, early, s.(suspended := s.suspended - {gen}), gen);
      }
    case Clear => RejectionCauses(c, cleared, closed, early, s, Step(c, s, e), e);
    case Close =>
      assert RejectAll([], ChannelClosed) == [];
      RejectionCauses(c, cleared, closed, early, s, Step(c, s, e), e);
    case Transmitted(_) =>
  }

  /** Every outcome has its cause, in every run: a call made after the channel closed is refused as
      not open; one made before is sent or fails as the channel has it, or is rejected, and that only
      after a clear or the close. */
  lemma {:induction false} OutcomesHaveCauses(c: Config, events: seq<Event>)
    ensures AllCaused(c, events, After(c, events))
  {
    if events != [] {
      var before, e := events[..|events| - 1], events[|events| - 1];
      assert events == before + [e];
      OutcomesHaveCauses(c, before);
      RunKeepsInv(c, before);
      StepCauses(c, Clear in before, Close in before, OpenCalls(before), After(c, before), e);
      CountOneMore(before, e);
    }
  }

  /** So a call made after the channel closed is settled as not open, and only such a call. */
  lemma NotOpenExactlyAfterClose(c: Config, events: seq<Event>, id: nat)
    ensures Settled(id, NotOpen) in After(c, events).settled <==> OpenCalls(events) <= id < Calls(events)
  {
    var s := After(c, events);
    OutcomesHaveCauses(c, events);
    RunKeepsInv(c, events);
    if Settled(id, NotOpen) in s.settled {
      var k :| 0 <= k < |s.settled| && s.settled[k] == Settled(id, NotOpen);
      assert Caused(c, Clear in events, Close in events, OpenCalls(events), s.settled[k]);
    }
    if OpenCalls(events) <= id < Calls(events) {
      assert IsQueued(s, id) || IsSettled(s, id);
      var k :| 0 <= k < |s.settled| && s.settled[k].id == id;
      assert Caused(c, Clear in events, Close in events, OpenCalls(events), s.settled[k]);
    }
  }

  /** No needless queueing: a payload that fits under the high-water mark with nothing ahead of it
      is handed to the channel at once. */
  lemma RoomMeansImmediate(c: Config, events: seq<Event>, size: nat)
    requires var s := After(c, events); s.open && s.queue == [] && s.buffered + size <= c.highWater
    ensures var s := After(c, events);
            var t := Step(c, s, Send(size));
            t.queue == [] && t.settled == s.settled + [Settled(s.calls, if c.sendOk(s.calls) then Sent else SendFailed)]
  {
    RunKeepsInv(c, events);
  }

  /** No lost wake-up: once the buffer has fallen to the threshold, the next wake-up of the drain
      in charge settles the head of the queue. */
  lemma WakeMakesProgress(c: Config, events: seq<Event>)
    requires After(c, events).queue != [] && After(c, events).buffered <= c.drainThreshold
    ensures var s := After(c, events);
            var t := Step(c, s, Wake(s.generation));
            IsSettled(t, s.queue[0].id)
  {
    RunKeepsInv(c, events);
    var s := After(c, events);
    var s1 := s.(suspended := s.suspended - {s.generation});
    var s2 := Transmit(c, Pop(s1), s.queue[0]);
    assert s2.settled[|s.settled|].id == s.queue[0].id;
    DrainExtendsSettled(c, s2, s.generation);
    assert Drain(c, s1, s.generation).settled[|s.settled|].id == s.queue[0].id;
  }

  lemma {:induction false} DrainExtendsSettled(c: Config, s: State, gen: nat)
    ensures s.settled <= Drain(c, s, gen).settled
    decreases |s.queue|
  {
    if s.queue != [] && gen == s.generation && s.buffered <= c.drainThreshold {
      DrainExtendsSettled(c, Transmit(c, Pop(s), s.queue[0]), gen);
    }
  }

  // ---------------------------------------------------------------- the class

  /** RTCDataChannel as far as the queue uses it. */
  class DataChannel {
    var open: bool
    var buffered: nat
    const sendOk: nat -> bool
    ghost var delivered: seq<Item>

    constructor (sendOk: nat -> bool)
      ensures open && buffered == 0 && delivered == [] && this.sendOk == sendOk
    {
      open, buffered, delivered := true, 0, [];
      this.sendOk := sendOk;
    }

    method Send(item: Item) returns (ok: bool)
      modifies this`buffered, this`delivered
      ensures ok == sendOk(item.id)
      ensures buffered == old(buffered) + (if ok then item.size else 0)
      ensures delivered == old(delivered) + if ok then [item] else []
    {
      ok := sendOk(item.id);
      if ok {
        buffered := buffered + item.size;
        delivered := delivered + [item];
      }
    }
  }

  class BackpressureQueue {
    var queue: seq<Item>
    var pendingBytes: int
    var draining: bool
    var drainGeneration: nat
    const highWaterMark: nat
    const drainThreshold: nat
    const dc: DataChannel
    var suspended: set<nat>
    ghost var calls: nat
    ghost var largest: nat
    ghost var settled: seq<Settled>

    ghost function Model(): (r: State)
      reads this, dc
    {
      State(queue, pendingBytes, draining, drainGeneration, suspended, dc.open, dc.buffered,
            calls, largest, dc.delivered, settled)
    }

    ghost function Settings(): (r: Config) { Config(highWaterMark, drainThreshold, dc.sendOk) }

    constructor (highWaterMark: nat, drainThreshold: nat, dc: DataChannel)
      requires dc.open && dc.buffered == 0 && dc.delivered == []
      ensures Model() == INITIAL && this.dc == dc
      ensures this.highWaterMark == highWaterMark && this.drainThreshold == drainThreshold
    {
      queue, pendingBytes, draining, drainGeneration, suspended := [], 0, false, 0, {};
      calls, largest, settled := 0, 0, [];
      this.highWaterMark, this.drainThreshold, this.dc := highWaterMark, drainThreshold, dc;
    }

    /** send; `id` is the number of this call. */
    method Send(id: nat, size: nat)
      requires id == calls
      modifies this, dc
      ensures Model() == SendStep(Settings(), old(Model()), size)
    {
      calls := calls + 1;
      largest := if size > largest then size else largest;
      if !dc.open {
        settled := settled + [Settled(id, NotOpen)];
        return;
      }
      var totalPending := dc.buffered + pendingBytes + size;
      if |queue| > 0 || totalPending > highWaterMark {
        Push(Item(id, size));
        return;
      }
      var ok := dc.Send(Item(id, size));
      settled := settled + [Settled(id, if ok then Sent else SendFailed)];
    }

    method Push(item: Item)
      modifies this, dc
      ensures Model() == Enqueue(Settings(), old(Model()), item)
    {
      queue := queue + [item];
      pendingBytes := pendingBytes + item.size;
      if !draining {
        draining := true;
        drainGeneration := drainGeneration + 1;
        RunDrain(drainGeneration);
      }
    }

    method RunDrain(gen: nat)
      modifies this, dc
      ensures Model() == Drain(Settings(), old(Model()), gen)
    {
      while |queue| > 0 && gen == drainGeneration
        invariant Drain(Settings(), Model(), gen) == Drain(Settings(), old(Model()), gen)
        decreases |queue|
      {
        if dc.buffered > drainThreshold {
          suspended := suspended + {gen};
          return;
        }
        ghost var m := Model();
        var item := queue[0];
        queue := queue[1..];
        pendingBytes := pendingBytes - item.size;
        var ok := dc.Send(item);
        settled := settled + [Settled(item.id, if ok then Sent else SendFailed)];
        assert dc.delivered == m.delivered + (if ok then [item] else []);
        assert Model() == Transmit(Settings(), Pop(m), m.queue[0]);
      }
      if gen == drainGeneration {
        draining := false;
      }
    }

    /** bufferedamountlow or the fallback timer resumes the drain of generation gen. */
    method ResumeDrain(gen: nat)
      modifies this, dc
      ensures Model() == Step(Settings(), old(Model()), Wake(gen))
    {
      if gen in suspended {
        suspended := suspended - {gen};
        RunDrain(gen);
      }
    }

    method ClearQueue()
      modifies this
      ensures Model() == Step(Settings(), old(Model()), Clear)
    {
      settled := settled + RejectAll(queue, QueueCleared);
      queue, pendingBytes := [], 0;
      drainGeneration := drainGeneration + 1;
      draining := false;
    }

    /** The close event runs the listener of every suspended drain. */
    method OnClose()
      modifies this, dc
      ensures Model() == Step(Settings(), old(Model()), Close)
    {
      dc.open := false;
      var listeners := suspended;
      while listeners != {}
        invariant dc.open == false && listeners <= suspended && unchanged(dc`buffered, dc`delivered)
        invariant unchanged(this`draining, this`drainGeneration, this`suspended, this`calls, this`largest)
        invariant if listeners == suspended then unchanged(this)
                  else && queue == [] && pendingBytes == 0
                       && settled == old(settled) + RejectAll(old(queue), ChannelClosed)
        decreases listeners
      {
        var g :| g in listeners;
        assert RejectAll([], ChannelClosed) == [];
        settled := settled + RejectAll(queue, ChannelClosed);
        queue, pendingBytes := [], 0;
        listeners := listeners - {g};
      }
    }
  }
}
