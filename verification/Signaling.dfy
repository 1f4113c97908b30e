/** The signalling server's rooms, cleanup timers and device revocations: signaling-server/server.js.

    Every handler runs to completion, so each event is one step. Timers are the deadlines at which
    they may fire; the clock never runs backwards. */
module Signaling {
  import opened Bytes

  type Socket = nat

  const ROOM_TTL_MS := 30000
  const REVOCATION_TTL_MS := 86400000

  datatype Room = Room(peers: set<Socket>, timer: Option<int>)

  /** A connected socket's handshake: the device id it announced, if any, and its commitment. */
  datatype Client = Client(deviceId: Option<string>, commitment: string)

  datatype Revocation = Revocation(deviceId: string, at: int)

  /** `metadata` maps a registered room to the commitment its joiners must present. The history is
      every revocation ever posted. */
  datatype State = State(
    rooms: map<string, Room>,
    metadata: map<string, string>,
    sockets: map<Socket, Client>,
    revoked: map<string, int>,
    clock: int,
    posted: seq<Revocation>)

  const INITIAL := State(map[], map[], map[], map[], 0, [])

  datatype Action =
    | Connect(socket: Socket, client: Client)
    | Register(socket: Socket, room: string, valid: bool, commitment: string)
    | Join(socket: Socket, room: string, valid: bool)
    | Disconnect(socket: Socket)
    | TimerFires(room: string)
    | Revoke(deviceId: string)
    | Prune

  datatype Event = Event(now: int, action: Action)

  // ---------------------------------------------------------------- revocation

  /** isDeviceRevoked's answer at time t. */
  predicate IsRevoked(revoked: map<string, int>, d: string, t: int) {
    d in revoked && revoked[d] != 0 && t <= revoked[d]
  }

  /** The answer by the full history: revoked at most a day before t. */
  ghost predicate RevokedByHistory(posted: seq<Revocation>, d: string, t: int) {
    exists i :: 0 <= i < |posted| && posted[i].deviceId == d && t <= posted[i].at + 86400000
  }

  function Pruned(revoked: map<string, int>, now: int): (r: map<string, int>) {
    map d | d in revoked && now <= revoked[d] :: revoked[d]
  }

  /** isDeviceRevoked also forgets the one entry it finds expired. */
  function Looked(revoked: map<string, int>, d: string, now: int): (r: map<string, int>) {
    if d in revoked && revoked[d] != 0 && now > revoked[d] then revoked - {d} else revoked
  }

  // ---------------------------------------------------------------- rooms

  /** A room after some sockets left at time now: it is scheduled for cleanup when that emptied it. */
  function Without(room: Room, gone: set<Socket>, now: int): (r: Room) {
    if room.peers !! gone then room
    else
      var left := room.peers - gone;
      Room(left, if left == {} then Some(now + ROOM_TTL_MS) else room.timer)
  }

  function DropSockets(s: State, gone: set<Socket>): (r: State) {
    s.(sockets := s.sockets - gone, rooms := map r | r in s.rooms :: Without(s.rooms[r], gone, s.clock))
  }

  function Enter(s: State, socket: Socket, room: string): (r: State) {
    var peers := if room in s.rooms then s.rooms[room].peers else {};
    s.(rooms := s.rooms[room := Room(peers + {socket}, None)])
  }

  function SocketsOf(s: State, d: string): (r: set<Socket>) {
    set k | k in s.sockets && s.sockets[k].deviceId == Some(d)
  }

  function Act(s: State, a: Action): (r: State) {
    match a
    case Connect(socket, client) =>
      if client.deviceId.None? || client.deviceId.value == "" then s.(sockets := s.sockets[socket := client])
      else
        var d := client.deviceId.value;
        var s1 := s.(revoked := Looked(s.revoked, d, s.clock));
        if IsRevoked(s.revoked, d, s.clock) then s1 else s1.(sockets := s.sockets[socket := client])
    case Register(socket, room, valid, commitment) =>
      if !valid || room == "" then s
      else Enter(s.(metadata := s.metadata[room := commitment]), socket, room)
    case Join(socket, room, valid) =>
      if !valid then s
      else if room !in s.metadata || socket !in s.sockets || s.sockets[socket].commitment != s.metadata[room] then
        DropSockets(s, {socket})
      else Enter(s, socket, room)
    case Disconnect(socket) => DropSockets(s, {socket})
    case TimerFires(room) =>
      if room in s.rooms && s.rooms[room].timer.Some? && s.rooms[room].timer.value <= s.clock
      then s.(rooms := s.rooms - {room}, metadata := s.metadata - {room})
      else s
    case Revoke(d) =>
      if d == "" then s
      else
        var s1 := s.(revoked := s.revoked[d := s.clock + REVOCATION_TTL_MS],
                     posted := s.posted + [Revocation(d, s.clock)]);
        DropSockets(s1, SocketsOf(s1, d))
    case Prune => s.(revoked := Pruned(s.revoked, s.clock))
  }

  function Step(s: State, e: Event): (r: State) { Act(s.(clock := e.now), e.action) }

  function Run(events: seq<Event>): (r: State) {
    if events == [] then INITIAL else Step(Run(events[..|events| - 1]), events[|events| - 1])
  }

  /** Socket ids are new when they connect, and only a connected socket sends messages. */
  ghost predicate Legal(s: State, a: Action) {
    match a
    case Connect(socket, _) => socket !in s.sockets
    case Register(socket, _, _, _) => socket in s.sockets
    case Join(socket, _, _) => socket in s.sockets
    case _ => true
  }

  ghost predicate Ordered(events: seq<Event>) {
    && (events != [] ==> events[0].now >= 0)
    && (forall i, j :: 0 <= i < j < |events| ==> events[i].now <= events[j].now)
  }

  ghost predicate LegalRun(events: seq<Event>) {
    && Ordered(events)
    && forall i :: 0 <= i < |events| ==> Legal(Run(events[..i]), events[i].action)
  }

  // ---------------------------------------------------------------- the invariant

  /** Rooms and metadata come and go together; a cleanup timer is armed exactly on empty rooms and
      fires within the room's time to live; every peer is a connected socket. */
  ghost predicate RoomsOk(s: State) {
    && s.rooms.Keys == s.metadata.Keys
    && forall r :: r in s.rooms ==> RoomOk(s.rooms[r], s.sockets.Keys, s.clock)
  }

  ghost predicate RoomOk(room: Room, connected: set<Socket>, clock: int) {
    && (room.timer.Some? <==> room.peers == {})
    && (room.timer.Some? ==> room.timer.value <= clock + ROOM_TTL_MS)
    && room.peers <= connected
  }

  /** The bounded map answers as the full history does, now and at any later time. */
  ghost predicate RevocationsOk(s: State) {
    && s.clock >= 0 && (forall i :: 0 <= i < |s.posted| ==> s.posted[i].at <= s.clock)
    && (forall d :: d in s.revoked ==> s.revoked[d] > 0)
    && forall d, t :: t >= s.clock ==> (IsRevoked(s.revoked, d, t) <==> RevokedByHistory(s.posted, d, t))
  }

  /** No connected socket carries a revoked device. */
  ghost predicate NoneRevoked(s: State) {
    forall k :: k in s.sockets && s.sockets[k].deviceId.Some? ==>
      !IsRevoked(s.revoked, s.sockets[k].deviceId.value, s.clock)
  }

  ghost predicate Inv(s: State) {
    RoomsOk(s) && RevocationsOk(s) && NoneRevoked(s) && "" !in s.revoked
  }

  lemma DropKeepsRooms(s: State, gone: set<Socket>)
    requires RoomsOk(s)
    ensures RoomsOk(DropSockets(s, gone))
  {
    var t := DropSockets(s, gone);
    assert t.rooms.Keys == s.rooms.Keys;
    forall r | r in t.rooms ensures RoomOk(t.rooms[r], t.sockets.Keys, t.clock) {
      assert RoomOk(s.rooms[r], s.sockets.Keys, s.clock);
    }
  }

  lemma EnterKeepsRooms(s: State, socket: Socket, room: string)
    requires s.rooms.Keys + {room} == s.metadata.Keys && socket in s.sockets
    requires forall r :: r in s.rooms ==> RoomOk(s.rooms[r], s.sockets.Keys, s.clock)
    ensures RoomsOk(Enter(s, socket, room))
  {
    var t := Enter(s, socket, room);
    assert t.rooms.Keys == s.rooms.Keys + {room};
    if room in s.rooms {
      assert RoomOk(s.rooms[room], s.sockets.Keys, s.clock);
    }
  }

  lemma ActKeepsRooms(s: State, a: Action)
    requires RoomsOk(s) && Legal(s, a)
    ensures RoomsOk(Act(s, a))
  {
    match a
    case Connect(socket, client) =>
    case Register(socket, room, valid, commitment) =>
      EnterKeepsRooms(s.(metadata := s.metadata[room := commitment]), socket, room);
    case Join(socket, room, valid) =>
      DropKeepsRooms(s, {socket});
      if room in s.metadata {
        EnterKeepsRooms(s, socket, room);
      }
    case Disconnect(socket) => DropKeepsRooms(s, {socket});
    case TimerFires(room) =>
    case Revoke(d) =>
      var s1 := s.(revoked := s.revoked[d := s.clock + REVOCATION_TTL_MS],
                   posted := s.posted + [Revocation(d, s.clock)]);
      DropKeepsRooms(s1, SocketsOf(s1, d));
    case Prune =>
  }

  /** Forgetting expired entries never changes an answer from now on. */
  lemma PruningKeepsAnswers(revoked: map<string, int>, now: int, d: string, t: int, other: string)
    requires t >= now && forall x :: x in revoked ==> revoked[x] > 0
    ensures IsRevoked(Pruned(revoked, now), d, t) == IsRevoked(revoked, d, t)
    ensures IsRevoked(Looked(revoked, other, now), d, t) == IsRevoked(revoked, d, t)
  {}

  lemma PostingKeepsAnswers(s: State, d: string)
    requires RevocationsOk(s)
    ensures var revoked := s.revoked[d := s.clock + REVOCATION_TTL_MS];
            var posted := s.posted + [Revocation(d, s.clock)];
            forall x, t :: t >= s.clock ==> (IsRevoked(revoked, x, t) <==> RevokedByHistory(posted, x, t))
  {
    var revoked := s.revoked[d := s.clock + REVOCATION_TTL_MS];
    var posted := s.posted + [Revocation(d, s.clock)];
    forall x, t | t >= s.clock
      ensures IsRevoked(revoked, x, t) <==> RevokedByHistory(posted, x, t)
    {
      PostedAnswer(s, d, x, t);
    }
  }

  lemma PostedAnswer(s: State, d: string, x: string, t: int)
    requires RevocationsOk(s) && t >= s.clock
    ensures IsRevoked(s.revoked[d := s.clock + REVOCATION_TTL_MS], x, t) <==>
            RevokedByHistory(s.posted + [Revocation(d, s.clock)], x, t)
  {
    var posted := s.posted + [Revocation(d, s.clock)];
    assert IsRevoked(s.revoked, x, t) <==> RevokedByHistory(s.posted, x, t);
    if RevokedByHistory(s.posted, x, t) {
      var i :| 0 <= i < |s.posted| && s.posted[i].deviceId == x && t <= s.posted[i].at + REVOCATION_TTL_MS;
      assert posted[i].deviceId == x;
    }
    if x == d && t <= s.clock + REVOCATION_TTL_MS {
      assert posted[|s.posted|].deviceId == x;
    }
    if RevokedByHistory(posted, x, t) && x != d {
      var i :| 0 <= i < |posted| && posted[i].deviceId == x && t <= posted[i].at + REVOCATION_TTL_MS;
      assert s.posted[i] == posted[i];
    }
  }

  lemma ForgettingKeepsRevocations(s: State, s': State, other: string)
    requires RevocationsOk(s) && s'.clock == s.clock && s'.posted == s.posted
    requires || s'.revoked == s.revoked
             || s'.revoked == Pruned(s.revoked, s.clock)
             || s'.revoked == Looked(s.revoked, other, s.clock)
    ensures RevocationsOk(s')
  {
    forall d, t | t >= s.clock ensures IsRevoked(s'.revoked, d, t) <==> RevokedByHistory(s.posted, d, t) {
      assert IsRevoked(s.revoked, d, t) <==> RevokedByHistory(s.posted, d, t);
      PruningKeepsAnswers(s.revoked, s.clock, d, t, other);
    }
  }

  lemma ActKeepsRevocations(s: State, a: Action)
    requires RevocationsOk(s)
    ensures RevocationsOk(Act(s, a))
  {
    if a.Revoke? {
      PostingKeepsAnswers(s, a.deviceId);
    } else {
      ForgettingKeepsRevocations(s, Act(s, a),
                                 if a.Connect? && a.client.deviceId.Some? then a.client.deviceId.value else "");
    }
  }

  lemma ActKeepsNoneRevoked(s: State, a: Action)
    requires NoneRevoked(s) && RevocationsOk(s) && "" !in s.revoked
    ensures NoneRevoked(Act(s, a)) && "" !in Act(s, a).revoked
  {}

  lemma TimePasses(s: State, now: int)
    requires Inv(s) && s.clock <= now
    ensures Inv(s.(clock := now))
  {
    var t := s.(clock := now);
    forall r | r in t.rooms ensures RoomOk(t.rooms[r], t.sockets.Keys, t.clock) {
      assert RoomOk(s.rooms[r], s.sockets.Keys, s.clock);
    }
  }

  lemma StepKeepsInv(s: State, e: Event)
    requires Inv(s) && s.clock <= e.now && Legal(s, e.action)
    ensures Inv(Step(s, e)) && Step(s, e).clock == e.now
  {
    TimePasses(s, e.now);
    ActKeepsRooms(s.(clock := e.now), e.action);
    ActKeepsRevocations(s.(clock := e.now), e.action);
    ActKeepsNoneRevoked(s.(clock := e.now), e.action);
  }

  /** All of it in every run. */
  lemma {:induction false} RunKeepsInv(events: seq<Event>)
    requires LegalRun(events)
    ensures Inv(Run(events)) && Run(events).clock == if events == [] then 0 else events[|events| - 1].now
  {
    if events != [] {
      var n := |events| - 1;
      LegalPrefix(events, n);
      RunKeepsInv(events[..n]);
      StepKeepsInv(Run(events[..n]), events[n]);
    }
  }

  lemma LegalPrefix(events: seq<Event>, n: nat)
    requires LegalRun(events) && n <= |events|
    ensures LegalRun(events[..n])
  {
    forall i | 0 <= i < n ensures Legal(Run(events[..n][..i]), events[..n][i].action) {
      assert events[..n][..i] == events[..i];
    }
  }

  /** After any run, no connected device was revoked within the last day. */
  lemma RevokedDevicesAreGone(events: seq<Event>, k: Socket)
    requires LegalRun(events)
    requires k in Run(events).sockets && Run(events).sockets[k].deviceId.Some?
    ensures var s := Run(events); !RevokedByHistory(s.posted, s.sockets[k].deviceId.value, s.clock)
  {
    RunKeepsInv(events);
  }

  ghost predicate InRoom(s: State, r: string, k: Socket) { r in s.rooms && k in s.rooms[r].peers }

  /** The ways into a room, each of which leads there: registering it, or joining it with the
      commitment registered. */
  lemma PeersAreAdmitted(s: State, a: Action, r: string, k: Socket)
    requires !InRoom(s, r, k)
    ensures InRoom(Act(s, a), r, k) <==>
            || (a.Register? && a.socket == k && a.room == r && a.valid && r != "")
            || (a.Join? && a.socket == k && a.room == r && a.valid && k in s.sockets && r in s.metadata
                && s.sockets[k].commitment == s.metadata[r])
  {}

  // ---------------------------------------------------------------- what the handlers do

  /** Nothing but room r differs. */
  ghost predicate OtherRoomsKept(s: State, t: State, r: string) {
    forall x :: x != r ==>
      && (x in t.rooms <==> x in s.rooms) && (x in s.rooms ==> t.rooms[x] == s.rooms[x])
      && (x in t.metadata <==> x in s.metadata) && (x in s.metadata ==> t.metadata[x] == s.metadata[x])
  }

  /** Socket k is gone: from the connected ones and from every room; each room it emptied is due for
      cleanup in 30 s, and everyone else stays where they were. */
  ghost predicate Gone(s: State, t: State, k: Socket, now: int) {
    && t.sockets == s.sockets - {k} && t.rooms.Keys == s.rooms.Keys && t.metadata == s.metadata
    && forall r :: r in s.rooms ==>
         && t.rooms[r].peers == s.rooms[r].peers - {k}
         && t.rooms[r].timer == if s.rooms[r].peers == {k} then Some(now + 30000) else s.rooms[r].timer
  }

  lemma DroppedIsGone(s: State, k: Socket)
    ensures Gone(s, DropSockets(s, {k}), k, s.clock)
  {
    var t := DropSockets(s, {k});
    forall r | r in s.rooms
      ensures t.rooms[r].peers == s.rooms[r].peers - {k}
      ensures t.rooms[r].timer == if s.rooms[r].peers == {k} then Some(s.clock + 30000) else s.rooms[r].timer
    {
      var p := s.rooms[r].peers;
      if k in p {
        assert p == p - {k} + {k};
      } else {
        assert p !! {k} && p - {k} == p;
      }
    }
  }

  /** Registering records the commitment and puts the socket into the room, with no cleanup due. */
  lemma RegisterEnters(events: seq<Event>, now: int, k: Socket, r: string, commitment: string)
    requires r != ""
    ensures var s, t := Run(events), Step(Run(events), Event(now, Register(k, r, true, commitment)));
            && InRoom(t, r, k) && t.rooms[r].timer == None
            && t.rooms[r].peers == (if r in s.rooms then s.rooms[r].peers else {}) + {k}
            && r in t.metadata && t.metadata[r] == commitment
            && OtherRoomsKept(s, t, r) && t.sockets == s.sockets && t.posted == s.posted
  {}

  /** Joining with the registered commitment enters the room beside the peers it had and calls off
      its cleanup; a wrong commitment, or a room nobody registered, costs the socket everything. */
  lemma JoinEntersOrDrops(events: seq<Event>, now: int, k: Socket, r: string)
    requires LegalRun(events) && k in Run(events).sockets
    ensures var s, t := Run(events), Step(Run(events), Event(now, Join(k, r, true)));
            if r in s.metadata && s.sockets[k].commitment == s.metadata[r] then
              && InRoom(t, r, k) && t.rooms[r].timer == None && r in s.rooms
              && t.rooms[r].peers == s.rooms[r].peers + {k}
              && OtherRoomsKept(s, t, r) && t.sockets == s.sockets && t.metadata == s.metadata
            else Gone(s, t, k, now)
  {
    RunKeepsInv(events);
    DroppedIsGone(Run(events).(clock := now), k);
  }

  /** A malformed register or join changes nothing. */
  lemma MalformedIsIgnored(events: seq<Event>, now: int, k: Socket, r: string, commitment: string)
    ensures Step(Run(events), Event(now, Register(k, r, false, commitment))) == Run(events).(clock := now)
    ensures Step(Run(events), Event(now, Register(k, "", true, commitment))) == Run(events).(clock := now)
    ensures Step(Run(events), Event(now, Join(k, r, false))) == Run(events).(clock := now)
  {}

  /** A socket that announces a device is connected exactly when that device was not revoked within
      the last day; one that announces none is always connected. No one else is affected. */
  lemma ConnectUnlessRevoked(events: seq<Event>, now: int, k: Socket, client: Client)
    requires LegalRun(events) && Run(events).clock <= now && k !in Run(events).sockets
    ensures var s, t := Run(events), Step(Run(events), Event(now, Connect(k, client)));
            && t.sockets ==
               (if client.deviceId.Some? && client.deviceId.value != ""
                   && RevokedByHistory(s.posted, client.deviceId.value, now)
                then s.sockets else s.sockets[k := client])
            && t.rooms == s.rooms && t.metadata == s.metadata && t.posted == s.posted
  {
    RunKeepsInv(events);
  }

  lemma DisconnectLeaves(events: seq<Event>, now: int, k: Socket)
    ensures Gone(Run(events), Step(Run(events), Event(now, Disconnect(k))), k, now)
  {
    DroppedIsGone(Run(events).(clock := now), k);
  }

  /** A cleanup timer removes its room, with its metadata, exactly from its deadline on. */
  lemma TimerRemovesRoom(events: seq<Event>, now: int, r: string)
    requires LegalRun(events)
    ensures var s, t := Run(events), Step(Run(events), Event(now, TimerFires(r)));
            && (r in s.rooms ==>
                  (r !in t.rooms <==> s.rooms[r].timer.Some? && s.rooms[r].timer.value <= now)
                  && (r in t.metadata <==> r in t.rooms))
            && OtherRoomsKept(s, t, r) && t.sockets == s.sockets
  {
    RunKeepsInv(events);
  }

  /** Revoking a device posts the revocation and disconnects exactly the sockets of that device, from
      every room. */
  lemma RevokeDropsDevice(events: seq<Event>, now: int, d: string)
    requires d != ""
    ensures var s, t := Run(events), Step(Run(events), Event(now, Revoke(d)));
            && t.posted == s.posted + [Revocation(d, now)]
            && (forall k :: k in t.sockets <==> k in s.sockets && s.sockets[k].deviceId != Some(d))
            && (forall k :: k in t.sockets ==> t.sockets[k] == s.sockets[k])
            && t.rooms.Keys == s.rooms.Keys && t.metadata == s.metadata
            && forall r, k :: r in s.rooms ==>
                 (k in t.rooms[r].peers <==>
                  k in s.rooms[r].peers && !(k in s.sockets && s.sockets[k].deviceId == Some(d)))
    ensures var s, t := Run(events), Step(Run(events), Event(now, Revoke(d)));
            forall r :: r in s.rooms ==>
              t.rooms[r].timer ==
              if s.rooms[r].peers != {} && t.rooms[r].peers == {} then Some(now + 30000) else s.rooms[r].timer
  {}

  /** Pruning leaves exactly the devices revoked within the last day. */
  lemma PruneKeepsTheRevoked(events: seq<Event>, now: int, d: string)
    requires LegalRun(events) && Run(events).clock <= now
    ensures var t := Step(Run(events), Event(now, Prune));
            d in t.revoked <==> RevokedByHistory(t.posted, d, now)
  {
    RunKeepsInv(events);
    PruningKeepsAnswers(Run(events).revoked, now, d, now, d);
  }

  lemma ActKeepsRoom(s: State, a: Action, r: string)
    requires RoomsOk(s) && r in s.rooms
    requires s.rooms[r].peers != {} || (s.rooms[r].timer.Some? && s.rooms[r].timer.value > s.clock)
    ensures r in Act(s, a).rooms && r in Act(s, a).metadata
  {
    assert RoomOk(s.rooms[r], s.sockets.Keys, s.clock);
  }

  /** A room disappears only by its own timer, when it has had no peer for its whole time to live:
      whatever happens, an occupied room stays, and so does any room before its deadline. */
  lemma OccupiedRoomsStay(events: seq<Event>, e: Event, r: string)
    requires LegalRun(events) && r in Run(events).rooms && Run(events).clock <= e.now
    requires var room := Run(events).rooms[r]; room.peers != {} || (room.timer.Some? && room.timer.value > e.now)
    ensures r in Step(Run(events), e).rooms && r in Step(Run(events), e).metadata
  {
    RunKeepsInv(events);
    TimePasses(Run(events), e.now);
    ActKeepsRoom(Run(events).(clock := e.now), e.action, r);
  }

  /** Occupied, or not due before time t. */
  ghost predicate SafeUntil(s: State, r: string, t: int) {
    r in s.rooms && (s.rooms[r].peers == {} ==> s.rooms[r].timer.Some? && s.rooms[r].timer.value >= t)
  }

  lemma ActKeepsSafe(s: State, a: Action, r: string, t: int)
    requires RoomsOk(s) && SafeUntil(s, r, t) && s.clock < t <= s.clock + ROOM_TTL_MS
    ensures SafeUntil(Act(s, a), r, t)
  {
    assert RoomOk(s.rooms[r], s.sockets.Keys, s.clock);
  }

  /** The grace period: a room that had a peer at some point of a run is still there, whatever
      happens, at every moment less than its time to live later. */
  lemma {:induction false} RoomOutlivesItsPeers(events: seq<Event>, rest: seq<Event>, r: string)
    requires LegalRun(events + rest) && r in Run(events).rooms && Run(events).rooms[r].peers != {}
    requires forall i :: 0 <= i < |rest| ==> rest[i].now < Run(events).clock + ROOM_TTL_MS
    ensures SafeUntil(Run(events + rest), r, Run(events).clock + ROOM_TTL_MS)
    ensures r in Run(events + rest).rooms && r in Run(events + rest).metadata
  {
    var all, n := events + rest, |events + rest| - 1;
    RunKeepsInv(all);
    if rest == [] {
      assert all == events;
    } else {
      var t := Run(events).clock + ROOM_TTL_MS;
      assert all[..n] == events + rest[..|rest| - 1] && all[n] == rest[|rest| - 1];
      LegalPrefix(all, n);
      RoomOutlivesItsPeers(events, rest[..|rest| - 1], r);
      RunKeepsInv(all[..n]);
      ClockGrows(events, rest[..|rest| - 1]);
      var s := Run(all[..n]);
      TimePasses(s, all[n].now);
      ActKeepsSafe(s.(clock := all[n].now), all[n].action, r, t);
    }
  }

  function End(events: seq<Event>): (r: int) { if events == [] then 0 else events[|events| - 1].now }

  lemma ClockIsEnd(events: seq<Event>)
    ensures Run(events).clock == End(events)
  {}

  lemma ClockGrows(events: seq<Event>, rest: seq<Event>)
    requires Ordered(events + rest)
    ensures Run(events).clock <= Run(events + rest).clock
  {
    ClockIsEnd(events);
    ClockIsEnd(events + rest);
    if rest == [] {
      assert events + rest == events;
    } else if events == [] {
      assert (events + rest)[0].now >= 0;
    } else {
      assert (events + rest)[|events| - 1] == events[|events| - 1];
    }
  }

  // ---------------------------------------------------------------- the server object

  lemma DropOneMore(s: State, gone: set<Socket>, k: Socket)
    ensures DropSockets(DropSockets(s, gone), {k}) == DropSockets(s, gone + {k})
  {
    var t, u := DropSockets(DropSockets(s, gone), {k}), DropSockets(s, gone + {k});
    assert t.sockets == u.sockets;
    forall r | r in s.rooms ensures t.rooms[r] == u.rooms[r] {
      var p := s.rooms[r].peers;
      assert p - gone - {k} == p - (gone + {k});
    }
    assert t.rooms == u.rooms;
  }

  class Server {
    var rooms: map<string, Room>
    var roomMetadata: map<string, string>
    var sockets: map<Socket, Client>
    var revokedDevices: map<string, int>
    ghost var clock: int
    ghost var posted: seq<Revocation>

    ghost function Model(): (r: State)
      reads this
    {
      State(rooms, roomMetadata, sockets, revokedDevices, clock, posted)
    }

    constructor ()
      ensures Model() == INITIAL
    {
      rooms, roomMetadata, sockets, revokedDevices, clock, posted := map[], map[], map[], map[], 0, [];
    }

    /** isDeviceRevoked */
    method IsDeviceRevoked(d: string, now: int) returns (r: bool)
      modifies this`revokedDevices
      ensures r == IsRevoked(old(revokedDevices), d, now)
      ensures revokedDevices == Looked(old(revokedDevices), d, now)
    {
      if d !in revokedDevices || revokedDevices[d] == 0 {
        return false;
      }
      if now > revokedDevices[d] {
        revokedDevices := revokedDevices - {d};
        return false;
      }
      return true;
    }

    method OnConnection(socket: Socket, client: Client, now: int)
      modifies this
      ensures Model() == Step(old(Model()), Event(now, Connect(socket, client)))
    {
      clock := now;
      if client.deviceId.Some? && client.deviceId.value != "" {
        var revoked := IsDeviceRevoked(client.deviceId.value, now);
        if revoked {
          return;
        }
      }
      sockets := sockets[socket := client];
    }

    method OnRegisterRoom(socket: Socket, room: string, valid: bool, commitment: string, now: int)
      modifies this
      ensures Model() == Step(old(Model()), Event(now, Register(socket, room, valid, commitment)))
    {
      clock := now;
      if !valid || room == "" {
        return;
      }
      roomMetadata := roomMetadata[room := commitment];
      AddPeer(socket, room);
    }

    /** getRoom, clear its timer, add the peer. */
    method AddPeer(socket: Socket, room: string)
      modifies this`rooms
      ensures Model() == Enter(old(Model()), socket, room)
    {
      var found := if room in rooms then rooms[room] else Room({}, None);
      found := found.(timer := None);
      rooms := rooms[room := Room(found.peers + {socket}, found.timer)];
    }

    method OnJoinRoom(socket: Socket, room: string, valid: bool, now: int)
      modifies this
      ensures Model() == Step(old(Model()), Event(now, Join(socket, room, valid)))
    {
      clock := now;
      if !valid {
        return;
      }
      if room !in roomMetadata || socket !in sockets || sockets[socket].commitment != roomMetadata[room] {
        DisconnectSocket(socket, now);
        return;
      }
      AddPeer(socket, room);
    }

    /** The disconnect handler's walk over all rooms. */
    method DisconnectSocket(socket: Socket, now: int)
      requires clock == now
      modifies this`rooms, this`sockets
      ensures Model() == DropSockets(old(Model()), {socket})
    {
      sockets := sockets - {socket};
      var todo := rooms.Keys;
      while todo != {}
        modifies this`rooms
        invariant rooms.Keys == old(rooms.Keys) && todo <= rooms.Keys
        invariant forall r :: r in rooms ==>
          rooms[r] == if r in todo then old(rooms)[r] else Without(old(rooms)[r], {socket}, now)
        decreases todo
      {
        var r :| r in todo;
        todo := todo - {r};
        var room := rooms[r];
        if socket in room.peers {
          room := room.(peers := room.peers - {socket});
          if room.peers == {} {
            room := room.(timer := Some(now + ROOM_TTL_MS));
          }
          rooms := rooms[r := room];
        }
      }
      assert rooms == DropSockets(old(Model()), {socket}).rooms;
    }

    method OnTimer(room: string, now: int)
      modifies this
      ensures Model() == Step(old(Model()), Event(now, TimerFires(room)))
    {
      clock := now;
      if room in rooms && rooms[room].timer.Some? && rooms[room].timer.value <= now {
        rooms := rooms - {room};
        roomMetadata := roomMetadata - {room};
      }
    }

    /** POST /revoke: record, then disconnect every socket of the device. */
    method OnRevoke(d: string, now: int)
      modifies this
      ensures Model() == Step(old(Model()), Event(now, Revoke(d)))
    {
      clock := now;
      if d == "" {
        return;
      }
      revokedDevices := revokedDevices[d := now + REVOCATION_TTL_MS];
      posted := posted + [Revocation(d, now)];
      var todo := set k | k in sockets && sockets[k].deviceId == Some(d);
      DisconnectAll(todo, now);
    }

    method DisconnectAll(all: set<Socket>, now: int)
      requires clock == now
      modifies this`rooms, this`sockets
      ensures Model() == DropSockets(old(Model()), all)
    {
      var todo := all;
      assert rooms == DropSockets(Model(), {}).rooms && sockets == DropSockets(Model(), {}).sockets;
      while todo != {}
        invariant todo <= all && Model() == DropSockets(old(Model()), all - todo)
        decreases todo
      {
        var k :| k in todo;
        DropOneMore(old(Model()), all - todo, k);
        assert all - (todo - {k}) == (all - todo) + {k};
        DisconnectSocket(k, now);
        todo := todo - {k};
      }
      assert all - {} == all;
    }

    method PruneRevocations(now: int)
      modifies this
      ensures Model() == Step(old(Model()), Event(now, Prune))
    {
      clock := now;
      var todo := revokedDevices.Keys;
      while todo != {}
        modifies this`revokedDevices
        invariant todo <= revokedDevices.Keys <= old(revokedDevices.Keys)
        invariant forall d :: d in revokedDevices ==> revokedDevices[d] == old(revokedDevices)[d]
        invariant forall d :: d in old(revokedDevices) && d !in todo ==>
          (d in revokedDevices <==> now <= old(revokedDevices)[d])
        decreases todo
      {
        var d :| d in todo;
        todo := todo - {d};
        if now > revokedDevices[d] {
          revokedDevices := revokedDevices - {d};
        }
      }
      assert revokedDevices == Pruned(old(revokedDevices), now);
    }
  }
}
