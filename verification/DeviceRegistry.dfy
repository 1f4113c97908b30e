/** The extension's registry of paired phones: entrypoints/background/deviceRegistry.ts.

    Operations are serialised by the registry lock, so each is one step; storage writes succeed.
    Besides the operations a run may lose the cache (the service worker restarts) or the cache and
    the session storage (the browser restarts). */
module DeviceRegistry {
  import opened Bytes

  const MAX_DEVICES := 5

  datatype Meta = Meta(id: string, name: string, lastSeen: int, pairedAt: int, primary: bool)

  datatype Device = Device(meta: Meta, phoneKey: seq<byte>)

  /** The module's variables once loaded. */
  datatype Cache = Cache(devices: seq<Device>, active: Option<string>)

  datatype Storage = Storage(session: Option<seq<Device>>, sessionActive: Option<string>, local: Option<seq<Meta>>)

  datatype State = State(cache: Option<Cache>, storage: Storage)

  const INITIAL := State(None, Storage(None, None, None))

  datatype Event =
    | Add(record: Device)
    | Remove(id: string)
    | Revoke(id: string)
    | SetActive(id: string, now: int)
    | Touch(id: string, now: int)
    | Reconcile
    | WorkerRestart
    | BrowserRestart

  // ---------------------------------------------------------------- loading and storing

  function Metas(ds: seq<Device>): (ms: seq<Meta>)
    ensures |ms| == |ds| && forall i :: 0 <= i < |ds| ==> ms[i] == ds[i].meta
  {
    seq(|ds|, i requires 0 <= i < |ds| => ds[i].meta)
  }

  /** Devices rebuilt from metadata alone: the keys are lost. */
  function Keyless(ms: seq<Meta>): (ds: seq<Device>)
    ensures |ds| == |ms| && forall i :: 0 <= i < |ms| ==> ds[i] == Device(ms[i], [])
  {
    seq(|ms|, i requires 0 <= i < |ms| => Device(ms[i], []))
  }

  function Load(st: Storage): (r: Cache) {
    if st.session.Some? && |st.session.value| > 0 then Cache(st.session.value, st.sessionActive)
    else if st.local.Some? && |st.local.value| > 0 then Cache(Keyless(st.local.value), None)
    else Cache([], None)
  }

  function Persist(c: Cache): (r: Storage) { Storage(Some(c.devices), c.active, Some(Metas(c.devices))) }

  function Current(s: State): (r: Cache) { if s.cache.Some? then s.cache.value else Load(s.storage) }

  // ---------------------------------------------------------------- the operations

  /** The position of a device, or the number of devices when it is absent. */
  function Find(ds: seq<Device>, id: string): (i: nat)
    ensures i <= |ds| && (i < |ds| ==> ds[i].meta.id == id)
    ensures forall j :: 0 <= j < i ==> ds[j].meta.id != id
  {
    if ds == [] || ds[0].meta.id == id then 0 else 1 + Find(ds[1..], id)
  }

  predicate Has(ds: seq<Device>, id: string) { Find(ds, id) < |ds| }

  /** The registry as a lookup table. */
  function Lookup(ds: seq<Device>, id: string): (r: Option<Device>) {
    var i := Find(ds, id);
    if i < |ds| then Some(ds[i]) else None
  }

  function Added(c: Cache, record: Device): (r: Cache) {
    var i := Find(c.devices, record.meta.id);
    c.(devices := if i < |c.devices| then c.devices[i := record] else c.devices + [record])
  }

  function Filtered(ds: seq<Device>, id: string): (r: seq<Device>) {
    if ds == [] then []
    else (if ds[0].meta.id == id then [] else [ds[0]]) + Filtered(ds[1..], id)
  }

  function Removed(c: Cache, id: string): (r: Cache) {
    var ds := Filtered(c.devices, id);
    Cache(ds, if c.active == Some(id) then if |ds| > 0 then Some(ds[0].meta.id) else None else c.active)
  }

  function Touched(ds: seq<Device>, id: string, now: int): (r: seq<Device>)
    ensures |r| == |ds|
    ensures forall i :: 0 <= i < |ds| ==>
      r[i] == if ds[i].meta.id == id then ds[i].(meta := ds[i].meta.(lastSeen := now)) else ds[i]
  {
    seq(|ds|, i requires 0 <= i < |ds| =>
      if ds[i].meta.id == id then ds[i].(meta := ds[i].meta.(lastSeen := now)) else ds[i])
  }

  /** Whether the operation throws instead. */
  predicate Refused(c: Cache, e: Event) {
    match e
    case Add(record) => |c.devices| >= MAX_DEVICES && !Has(c.devices, record.meta.id)
    case Remove(id) => !Has(c.devices, id)
    case Revoke(id) => !Has(c.devices, id)
    case SetActive(id, _) => !Has(c.devices, id)
    case _ => false
  }

  function Updated(c: Cache, e: Event): (r: Cache) {
    match e
    case Add(record) => Added(c, record)
    case Remove(id) => Removed(c, id)
    case Revoke(id) => Removed(c, id)
    case SetActive(id, now) => Cache(Touched(c.devices, id, now), Some(id))
    case Touch(id, now) => c.(devices := Touched(c.devices, id, now))
    case _ => c
  }

  function Step(s: State, e: Event): (r: State) {
    match e
    case Reconcile => State(Some(Load(s.storage)), s.storage)
    case WorkerRestart => State(None, s.storage)
    case BrowserRestart => State(None, Storage(None, None, s.storage.local))
    case _ =>
      var c := Current(s);
      if Refused(c, e) || (e.Touch? && !Has(c.devices, e.id)) then State(Some(c), s.storage)
      else State(Some(Updated(c, e)), Persist(Updated(c, e)))
  }

  function Run(events: seq<Event>): (r: State) {
    if events == [] then INITIAL else Step(Run(events[..|events| - 1]), events[|events| - 1])
  }

  // ---------------------------------------------------------------- the invariant

  ghost predicate DistinctIds(ds: seq<Device>) {
    forall i, j :: 0 <= i < j < |ds| ==> ds[i].meta.id != ds[j].meta.id
  }

  /** Distinct ids, at most five devices, and an active device that is one of them. */
  ghost predicate Good(c: Cache) {
    && DistinctIds(c.devices) && |c.devices| <= MAX_DEVICES
    && (c.active.Some? ==> Has(c.devices, c.active.value))
  }

  /** The cache is what a reload would give, and the local copy holds its metadata. */
  ghost predicate Agrees(s: State) {
    && Load(s.storage) == Current(s)
    && Metas(Current(s).devices) == if s.storage.local.Some? then s.storage.local.value else []
  }

  ghost predicate Inv(s: State) { Good(Current(s)) && Agrees(s) }

  lemma LookupCons(ds: seq<Device>, x: string)
    requires ds != []
    ensures Lookup(ds, x) == if ds[0].meta.id == x then Some(ds[0]) else Lookup(ds[1..], x)
  {}

  lemma LookupAt(ds: seq<Device>, i: nat)
    requires DistinctIds(ds) && i < |ds|
    ensures Lookup(ds, ds[i].meta.id) == Some(ds[i])
  {
    assert Find(ds, ds[i].meta.id) <= i;
  }

  lemma {:induction false} FilteredLookup(ds: seq<Device>, id: string, x: string)
    ensures Lookup(Filtered(ds, id), x) == if x == id then None else Lookup(ds, x)
  {
    if ds != [] {
      FilteredLookup(ds[1..], id, x);
      LookupCons(ds, x);
      var r := Filtered(ds, id);
      if ds[0].meta.id != id {
        LookupCons(r, x);
        assert r[1..] == Filtered(ds[1..], id);
      } else {
        assert r == Filtered(ds[1..], id);
      }
    }
  }

  lemma {:induction false} FilteredShape(ds: seq<Device>, id: string)
    requires DistinctIds(ds)
    ensures DistinctIds(Filtered(ds, id)) && |Filtered(ds, id)| <= |ds|
    ensures forall i :: 0 <= i < |Filtered(ds, id)| ==> Filtered(ds, id)[i] in ds
  {
    if ds != [] {
      FilteredShape(ds[1..], id);
    }
  }

  /** Removing and revoking drop exactly the device named; the active device changes only if it
      was that one, and then to the first one left. */
  lemma RemovedIsGood(c: Cache, id: string)
    requires Good(c)
    ensures Good(Removed(c, id))
    ensures forall x :: Lookup(Removed(c, id).devices, x) == if x == id then None else Lookup(c.devices, x)
    ensures c.active != Some(id) ==> Removed(c, id).active == c.active
    ensures c.active == Some(id) ==>
              Removed(c, id).active ==
              if Removed(c, id).devices == [] then None else Some(Removed(c, id).devices[0].meta.id)
  {
    FilteredShape(c.devices, id);
    var r := Removed(c, id);
    forall x ensures Lookup(r.devices, x) == if x == id then None else Lookup(c.devices, x) {
      FilteredLookup(c.devices, id, x);
    }
    assert c.active.Some? ==> c.active == Some(id) || Lookup(r.devices, c.active.value).Some?;
  }

  /** Adding sets the record of its own id and no other. */
  lemma AddedIsGood(c: Cache, record: Device)
    requires Good(c) && !Refused(c, Add(record))
    ensures Good(Added(c, record)) && Added(c, record).active == c.active
    ensures forall x :: Lookup(Added(c, record).devices, x) ==
                        if x == record.meta.id then Some(record) else Lookup(c.devices, x)
  {
    var n := Find(c.devices, record.meta.id);
    var r := Added(c, record);
    assert r.devices[n] == record;
    forall x ensures Lookup(r.devices, x) == if x == record.meta.id then Some(record) else Lookup(c.devices, x) {
      if x == record.meta.id {
        LookupAt(r.devices, n);
      } else {
        var i, j := Find(c.devices, x), Find(r.devices, x);
        assert i < |c.devices| ==> r.devices[i] == c.devices[i];
        assert j < |r.devices| ==> j < |c.devices| && r.devices[j] == c.devices[j];
      }
    }
    assert c.active.Some? ==> Lookup(r.devices, c.active.value).Some?;
  }

  /** Touching changes the last-seen time of the device named and nothing else. */
  lemma TouchedIsGood(c: Cache, id: string, now: int)
    requires Good(c)
    ensures DistinctIds(Touched(c.devices, id, now))
    ensures Lookup(Touched(c.devices, id, now), id).Some? <==> Lookup(c.devices, id).Some?
    ensures Lookup(c.devices, id).Some? ==>
              var d := Lookup(c.devices, id).value;
              Lookup(Touched(c.devices, id, now), id) == Some(d.(meta := d.meta.(lastSeen := now)))
    ensures forall x :: x != id ==> Lookup(Touched(c.devices, id, now), x) == Lookup(c.devices, x)
  {
    var ds := Touched(c.devices, id, now);
    forall x ensures Find(ds, x) == Find(c.devices, x) {
      var i, j := Find(ds, x), Find(c.devices, x);
      assert i < |ds| ==> c.devices[i].meta.id == x;
      assert j < |ds| ==> ds[j].meta.id == x;
    }
  }

  lemma UpdatedIsGood(c: Cache, e: Event)
    requires Good(c) && !Refused(c, e)
    ensures Good(Updated(c, e))
  {
    match e
    case Add(record) => AddedIsGood(c, record);
    case Remove(id) => RemovedIsGood(c, id);
    case Revoke(id) => RemovedIsGood(c, id);
    case SetActive(id, now) =>
      TouchedIsGood(c, id, now);
      assert Lookup(Touched(c.devices, id, now), id).Some?;
    case Touch(id, now) =>
      TouchedIsGood(c, id, now);
      assert c.active.Some? ==> Lookup(Touched(c.devices, id, now), c.active.value).Some?;
    case _ =>
  }

  /** Storing then loading is the identity on good caches. */
  lemma PersistLoads(c: Cache)
    requires Good(c)
    ensures Load(Persist(c)) == c
  {}

  /** What a browser restart leaves: all metadata, no keys, no active device. */
  lemma SessionLossKeepsMetadata(s: State)
    requires Inv(s)
    ensures var c, c' := Current(s), Current(Step(s, BrowserRestart));
            && Metas(c'.devices) == Metas(c.devices) && c'.active == None
            && forall i :: 0 <= i < |c'.devices| ==> c'.devices[i].phoneKey == []
    ensures Inv(Step(s, BrowserRestart))
  {
    var c, c' := Current(s), Current(Step(s, BrowserRestart));
    assert Metas(c'.devices) == Metas(c.devices);
    forall i, j | 0 <= i < j < |c'.devices| ensures c'.devices[i].meta.id != c'.devices[j].meta.id {
      assert Metas(c'.devices)[i] == c.devices[i].meta && Metas(c'.devices)[j] == c.devices[j].meta;
    }
  }

  lemma StepKeepsInv(s: State, e: Event)
    requires Inv(s)
    ensures Inv(Step(s, e))
  {
    var c := Current(s);
    if e.BrowserRestart? {
      SessionLossKeepsMetadata(s);
    } else if !e.Reconcile? && !e.WorkerRestart? && !Refused(c, e) {
      UpdatedIsGood(c, e);
      PersistLoads(Updated(c, e));
    }
  }

  /** Every run keeps the registry well formed and in agreement with its storage. */
  lemma {:induction false} RunKeepsInv(events: seq<Event>)
    ensures Inv(Run(events))
  {
    if events != [] {
      RunKeepsInv(events[..|events| - 1]);
      StepKeepsInv(Run(events[..|events| - 1]), events[|events| - 1]);
    }
  }

  /** Restarting the worker or reconciling, at any point of any run, reproduces the cache. */
  lemma ReloadIsInvisible(events: seq<Event>)
    ensures Current(Run(events + [WorkerRestart])) == Current(Run(events))
    ensures Current(Run(events + [Reconcile])) == Current(Run(events))
  {
    RunKeepsInv(events);
    assert (events + [WorkerRestart])[..|events|] == events;
    assert (events + [Reconcile])[..|events|] == events;
  }

  /** The registry as a client of a run sees it: now, and after the worker has restarted. */
  ghost predicate Seen(events: seq<Event>, c: Cache) {
    Current(Run(events)) == c && Current(Run(events + [WorkerRestart])) == c
  }

  lemma SeenAfter(events: seq<Event>, e: Event)
    requires !e.BrowserRestart? && !e.WorkerRestart? && !e.Reconcile?
    ensures var c := Current(Run(events));
            && Good(c)
            && Seen(events + [e], if Refused(c, e) || (e.Touch? && !Has(c.devices, e.id)) then c else Updated(c, e))
  {
    ReloadIsInvisible(events + [e]);
    RunKeepsInv(events);
    assert (events + [e])[..|events|] == events;
  }

  /** Adding is accepted exactly while there are fewer than five devices or for a known one. It sets
      that device's record and nothing else, and a restart keeps it. */
  lemma AddTakesEffect(events: seq<Event>, record: Device)
    ensures var c, d := Current(Run(events)), Current(Run(events + [Add(record)]));
            && Seen(events + [Add(record)], d) && d.active == c.active
            && if |c.devices| < 5 || Lookup(c.devices, record.meta.id).Some? then
                 forall x :: Lookup(d.devices, x) == if x == record.meta.id then Some(record) else Lookup(c.devices, x)
               else d == c
  {
    SeenAfter(events, Add(record));
    if !Refused(Current(Run(events)), Add(record)) {
      AddedIsGood(Current(Run(events)), record);
    }
  }

  /** Setting a known device active makes it the active one and notes the time, a restart keeps that,
      and no other device is touched; an unknown device changes nothing. */
  lemma SetActiveTakesEffect(events: seq<Event>, id: string, now: int)
    ensures var e := SetActive(id, now);
            var c, d := Current(Run(events)), Current(Run(events + [e]));
            && Seen(events + [e], d)
            && if Lookup(c.devices, id).Some? then
                 && d.active == Some(id)
                 && var was := Lookup(c.devices, id).value;
                    && Lookup(d.devices, id) == Some(was.(meta := was.meta.(lastSeen := now)))
                    && forall x :: x != id ==> Lookup(d.devices, x) == Lookup(c.devices, x)
               else d == c
  {
    SeenAfter(events, SetActive(id, now));
    TouchedIsGood(Current(Run(events)), id, now);
  }

  /** The same of noting the time alone. */
  lemma TouchTakesEffect(events: seq<Event>, id: string, now: int)
    ensures var e := Touch(id, now);
            var c, d := Current(Run(events)), Current(Run(events + [e]));
            && Seen(events + [e], d) && d.active == c.active
            && if Lookup(c.devices, id).Some? then
                 && var was := Lookup(c.devices, id).value;
                    && Lookup(d.devices, id) == Some(was.(meta := was.meta.(lastSeen := now)))
                    && forall x :: x != id ==> Lookup(d.devices, x) == Lookup(c.devices, x)
               else d == c
  {
    SeenAfter(events, Touch(id, now));
    TouchedIsGood(Current(Run(events)), id, now);
  }

  /** Removing or revoking a known device drops it and no other. The active device changes only if it
      was that one, to the first left or none. An unknown device changes nothing. */
  lemma RemoveTakesEffect(events: seq<Event>, id: string, revoke: bool)
    ensures var e := if revoke then Revoke(id) else Remove(id);
            var c, d := Current(Run(events)), Current(Run(events + [e]));
            && Seen(events + [e], d)
            && (forall x :: Lookup(d.devices, x) == if x == id then None else Lookup(c.devices, x))
            && d.active == (if c.active != Some(id) then c.active
                            else if d.devices == [] then None else Some(d.devices[0].meta.id))
            && (Lookup(c.devices, id).None? ==> d == c)
  {
    SeenAfter(events, if revoke then Revoke(id) else Remove(id));
    RemovedIsGood(Current(Run(events)), id);
  }

  // ---------------------------------------------------------------- naming

  function Decimal(n: nat): (r: string) {
    if n < 10 then [('0' as int + n) as char] else Decimal(n / 10) + [('0' as int + n % 10) as char]
  }

  ghost function FromDecimal(s: string): (r: int) {
    if s == [] then 0 else 10 * FromDecimal(s[..|s| - 1]) + (s[|s| - 1] as int - '0' as int)
  }

  lemma {:induction false} DecimalRoundTrip(n: nat)
    ensures FromDecimal(Decimal(n)) == n
  {
    if n >= 10 {
      DecimalRoundTrip(n / 10);
      assert Decimal(n)[..|Decimal(n)| - 1] == Decimal(n / 10);
    }
  }

  function Numbered(prefix: string, n: nat, suffix: string): (r: string) { prefix + Decimal(n) + suffix }

  lemma NumberedInjective(prefix: string, m: nat, n: nat, suffix: string)
    requires Numbered(prefix, m, suffix) == Numbered(prefix, n, suffix)
    ensures m == n
  {
    var s := Numbered(prefix, m, suffix);
    assert s[|prefix|..|s| - |suffix|] == Decimal(m);
    assert s[|prefix|..|s| - |suffix|] == Decimal(n);
    DecimalRoundTrip(m);
    DecimalRoundTrip(n);
  }

  /** The naming loop. It ends because each turn uses up one of the finitely many names. */
  method FirstFree(names: set<string>, prefix: string, start: nat, suffix: string) returns (n: nat)
    ensures start <= n <= start + |names| && Numbered(prefix, n, suffix) !in names
    ensures forall k :: start <= k < n ==> Numbered(prefix, k, suffix) in names
  {
    n := start;
    ghost var left := names;
    while Numbered(prefix, n, suffix) in names
      invariant start <= n && left <= names && |left| + n == |names| + start
      invariant forall k :: start <= k < n ==> Numbered(prefix, k, suffix) in names
      invariant forall k: nat :: n <= k && Numbered(prefix, k, suffix) in names ==> Numbered(prefix, k, suffix) in left
      decreases left
    {
      forall k: nat | n < k ensures Numbered(prefix, k, suffix) != Numbered(prefix, n, suffix) {
        if Numbered(prefix, k, suffix) == Numbered(prefix, n, suffix) {
          NumberedInjective(prefix, k, n, suffix);
        }
      }
      left := left - {Numbered(prefix, n, suffix)};
      n := n + 1;
    }
  }

  ghost predicate Taken(devices: seq<Device>, name: string) {
    exists i :: 0 <= i < |devices| && devices[i].meta.name == name
  }

  /** n is the first number from start on whose name is free. */
  ghost predicate IsFirstFree(devices: seq<Device>, prefix: string, start: nat, n: nat, suffix: string) {
    && start <= n && !Taken(devices, Numbered(prefix, n, suffix))
    && forall k: nat :: start <= k < n ==> Taken(devices, Numbered(prefix, k, suffix))
  }

  /** resolveDeviceName for the trimmed name the phone gave ("" when it gave none): the phone's own
      name when that is free, else that name with the first free number from 2 on; without a name,
      "Phone" with the first free number behind the number of devices. */
  method ResolveDeviceName(devices: seq<Device>, trimmed: string) returns (name: string)
    ensures !Taken(devices, name)
    ensures trimmed != "" && !Taken(devices, trimmed) ==> name == trimmed
    ensures trimmed != "" && name != trimmed ==>
      exists n :: IsFirstFree(devices, trimmed + " (", 2, n, ")") && name == Numbered(trimmed + " (", n, ")")
    ensures trimmed == "" ==>
      exists n :: IsFirstFree(devices, "Phone ", |devices| + 1, n, "") && name == Numbered("Phone ", n, "")
  {
    var names := set d | d in devices :: d.meta.name;
    NamesAreTaken(devices, names, trimmed);
    if trimmed != "" {
      if trimmed !in names {
        return trimmed;
      }
      var n := FirstFree(names, trimmed + " (", 2, ")");
      NamesFree(devices, names, trimmed + " (", 2, n, ")");
      return Numbered(trimmed + " (", n, ")");
    }
    var n := FirstFree(names, "Phone ", |devices| + 1, "");
    NamesFree(devices, names, "Phone ", |devices| + 1, n, "");
    return Numbered("Phone ", n, "");
  }

  lemma NamesAreTaken(devices: seq<Device>, names: set<string>, name: string)
    requires names == set d | d in devices :: d.meta.name
    ensures name in names <==> Taken(devices, name)
  {
    if Taken(devices, name) {
      var i :| 0 <= i < |devices| && devices[i].meta.name == name;
      assert devices[i] in devices;
    }
  }

  lemma NamesFree(devices: seq<Device>, names: set<string>, prefix: string, start: nat, n: nat, suffix: string)
    requires names == set d | d in devices :: d.meta.name
    requires start <= n && Numbered(prefix, n, suffix) !in names
    requires forall k :: start <= k < n ==> Numbered(prefix, k, suffix) in names
    ensures IsFirstFree(devices, prefix, start, n, suffix)
  {
    NamesAreTaken(devices, names, Numbered(prefix, n, suffix));
    forall k: nat | start <= k < n ensures Taken(devices, Numbered(prefix, k, suffix)) {
      NamesAreTaken(devices, names, Numbered(prefix, k, suffix));
    }
  }

  // ---------------------------------------------------------------- the module's own variables

  class Registry {
    var cachedDevices: Option<seq<Device>>
    var cachedActiveId: Option<string>
    var storage: Storage

    ghost function Model(): (r: State)
      reads this
    {
      State(if cachedDevices.Some? then Some(Cache(cachedDevices.value, cachedActiveId)) else None, storage)
    }

    constructor ()
      ensures Model() == INITIAL
    {
      cachedDevices, cachedActiveId, storage := None, None, Storage(None, None, None);
    }

    method EnsureLoaded()
      modifies this`cachedDevices, this`cachedActiveId
      ensures cachedDevices.Some? && Model().cache == Some(Current(old(Model()))) && storage == old(storage)
    {
      if cachedDevices.None? {
        LoadFromStorage();
      }
    }

    method LoadFromStorage()
      modifies this`cachedDevices, this`cachedActiveId
      ensures Model() == State(Some(Load(storage)), old(storage))
    {
      if storage.session.Some? && |storage.session.value| > 0 {
        cachedDevices, cachedActiveId := storage.session, storage.sessionActive;
      } else if storage.local.Some? && |storage.local.value| > 0 {
        cachedDevices, cachedActiveId := Some(Keyless(storage.local.value)), None;
      } else {
        cachedDevices, cachedActiveId := Some([]), None;
      }
    }

    method Commit(devices: seq<Device>, active: Option<string>)
      modifies this
      ensures Model() == State(Some(Cache(devices, active)), Persist(Cache(devices, active)))
    {
      storage := storage.(session := Some(devices), sessionActive := active);
      storage := storage.(local := Some(Metas(devices)));
      cachedDevices, cachedActiveId := Some(devices), active;
    }

    method AddDevice(record: Device) returns (ok: bool)
      modifies this
      ensures ok <==> !Refused(Current(old(Model())), Add(record))
      ensures Model() == Step(old(Model()), Add(record))
    {
      EnsureLoaded();
      var devices := cachedDevices.value;
      var existing := Find(devices, record.meta.id);
      if |devices| >= MAX_DEVICES && existing == |devices| {
        return false;
      }
      Commit(if existing < |devices| then devices[existing := record] else devices + [record], cachedActiveId);
      return true;
    }

    /** removeDevice; revokeDevice does the same to the registry. */
    method RemoveDevice(id: string) returns (ok: bool)
      modifies this
      ensures ok <==> !Refused(Current(old(Model())), Remove(id))
      ensures Model() == Step(old(Model()), Remove(id)) && Model() == Step(old(Model()), Revoke(id))
    {
      EnsureLoaded();
      var devices := cachedDevices.value;
      if Find(devices, id) == |devices| {
        return false;
      }
      var rest := Filtered(devices, id);
      var active := cachedActiveId;
      if active == Some(id) {
        active := if |rest| > 0 then Some(rest[0].meta.id) else None;
      }
      Commit(rest, active);
      return true;
    }

    method SetActiveDevice(id: string, now: int) returns (ok: bool)
      modifies this
      ensures ok <==> !Refused(Current(old(Model())), SetActive(id, now))
      ensures Model() == Step(old(Model()), SetActive(id, now))
    {
      EnsureLoaded();
      if Find(cachedDevices.value, id) == |cachedDevices.value| {
        return false;
      }
      Commit(Touched(cachedDevices.value, id, now), Some(id));
      return true;
    }

    method UpdateDeviceLastSeen(id: string, now: int)
      modifies this
      ensures Model() == Step(old(Model()), Touch(id, now))
    {
      EnsureLoaded();
      if Find(cachedDevices.value, id) < |cachedDevices.value| {
        Commit(Touched(cachedDevices.value, id, now), cachedActiveId);
      }
    }

    method ReconcileDeviceRegistry()
      modifies this
      ensures Model() == Step(old(Model()), Reconcile)
    {
      cachedDevices, cachedActiveId := None, None;
      LoadFromStorage();
    }
  }
}
