/**
 The RTSP server's stream registry as a transition system on values.

 A stream and the record that describes it are created together and never parted, so one index
 names both: `infos[k]` is the k-th record ever created, registered or not.  Handlers that keep a
 pointer to a record after releasing the registry lock are steps on such an index, and may run when
 the record is no longer registered.
 */
module RtspRegistry {
  type Path = string
  type ClientId = string
  type SessionId = nat
  type Time = int

  datatype Config = Config(maxStreams: int, publisherTimeout: Time, clientTimeout: Time)

  datatype Client = Client(session: SessionId, lastActive: Time)

  /** `streamCloses` and `publisherCloses` count the calls of Close on the record's stream and publisher. */
  datatype Info = Info(publisher: SessionId, publisherLastActive: Time, clients: map<ClientId, Client>,
                       streamCloses: nat, publisherCloses: nat)

  datatype Registry = Registry(streams: map<Path, nat>, infos: seq<Info>)

  /** What a session carries: nothing, something that is not the server's map, or the map (a missing ID reads ""). */
  datatype UserData = Absent | Foreign | Entries(clientID: ClientId)

  datatype Event =
    | Announce(path: Path, session: SessionId)
    | SessionClose(session: SessionId, data: UserData)
    | SetupUse(target: nat, session: SessionId, data: UserData, stamp: Time)  // after the lookup of OnSetup
    | Play(path: Path, data: UserData)
    | Packet(target: nat)                                                     // the callback OnRecord installs
    | Sweep
    | Shutdown

  datatype Timed = Timed(event: Event, now: Time)

  const Empty := Registry(map[], [])

  // ----- Effects on one record -----

  function FreshInfo(session: SessionId, now: Time): Info {
    Info(session, now, map[], 0, 0)
  }

  function ClosedBoth(info: Info): Info {
    info.(streamCloses := info.streamCloses + 1, publisherCloses := info.publisherCloses + 1)
  }

  function WithoutClient(info: Info, id: ClientId): Info {
    info.(clients := info.clients - {id})
  }

  function Departed(info: Info, session: SessionId, id: ClientId): Info {
    var info := WithoutClient(info, id);
    if info.publisher == session then info.(streamCloses := info.streamCloses + 1) else info
  }

  function WithClient(info: Info, session: SessionId, data: UserData, stamp: Time): Info {
    if info.publisher != session && data.Entries?
    then info.(clients := info.clients[data.clientID := Client(session, stamp)])
    else info
  }

  function Played(info: Info, data: UserData, now: Time): Info {
    if data.Entries? && data.clientID in info.clients
    then info.(clients := info.clients[data.clientID := info.clients[data.clientID].(lastActive := now)])
    else info
  }

  function Touched(info: Info, now: Time): Info {
    info.(publisherLastActive := now,
          clients := map id | id in info.clients :: info.clients[id].(lastActive := now))
  }

  predicate PublisherExpired(c: Config, info: Info, now: Time) {
    now - info.publisherLastActive > c.publisherTimeout
  }

  predicate ClientExpired(c: Config, client: Client, now: Time) {
    now - client.lastActive > c.clientTimeout
  }

  function Pruned(c: Config, info: Info, now: Time): Info {
    info.(clients := map id | id in info.clients && !ClientExpired(c, info.clients[id], now) :: info.clients[id])
  }

  function Swept(c: Config, info: Info, now: Time): Info {
    if PublisherExpired(c, info, now) then ClosedBoth(info) else Pruned(c, info, now)
  }

  // ----- Handlers -----

  predicate Registered(r: Registry, k: nat) {
    exists p | p in r.streams :: r.streams[p] == k
  }

  predicate Indexed(r: Registry) {
    forall p | p in r.streams :: r.streams[p] < |r.infos|
  }

  predicate Accepts(c: Config, r: Registry) {
    |r.streams| < c.maxStreams
  }

  function Announced(r: Registry, path: Path, session: SessionId, now: Time): Registry {
    Registry(r.streams[path := |r.infos|],
             seq(|r.infos|, k requires 0 <= k < |r.infos| =>
               if path in r.streams && r.streams[path] == k then ClosedBoth(r.infos[k]) else r.infos[k])
             + [FreshInfo(session, now)])
  }

  function SessionClosed(r: Registry, session: SessionId, id: ClientId): Registry
    requires Indexed(r)
  {
    Registry(map p | p in r.streams && r.infos[r.streams[p]].publisher != session :: r.streams[p],
             seq(|r.infos|, k requires 0 <= k < |r.infos| =>
               if Registered(r, k) then Departed(r.infos[k], session, id) else r.infos[k]))
  }

  function SweptAll(c: Config, r: Registry, now: Time): Registry
    requires Indexed(r)
  {
    Registry(map p | p in r.streams && !PublisherExpired(c, r.infos[r.streams[p]], now) :: r.streams[p],
             seq(|r.infos|, k requires 0 <= k < |r.infos| =>
               if Registered(r, k) then Swept(c, r.infos[k], now) else r.infos[k]))
  }

  function ShutDown(r: Registry): Registry {
    Registry(map[], seq(|r.infos|, k requires 0 <= k < |r.infos| =>
               if Registered(r, k) then ClosedBoth(r.infos[k]) else r.infos[k]))
  }

  function Step(c: Config, r: Registry, e: Event, now: Time): Registry
    requires Indexed(r)
  {
    match e
    case Announce(path, session) => if Accepts(c, r) then Announced(r, path, session, now) else r
    case SessionClose(session, data) => if data.Entries? then SessionClosed(r, session, data.clientID) else r
    case SetupUse(k, session, data, stamp) =>
      if k < |r.infos| then r.(infos := r.infos[k := WithClient(r.infos[k], session, data, stamp)]) else r
    case Play(path, data) =>
      if path in r.streams
      then var k := r.streams[path]; r.(infos := r.infos[k := Played(r.infos[k], data, now)])
      else r
    case Packet(k) =>
      if k < |r.infos| then r.(infos := r.infos[k := Touched(r.infos[k], now)]) else r
    case Sweep => SweptAll(c, r, now)
    case Shutdown => ShutDown(r)
  }

  // ----- What every step keeps -----

  ghost predicate OneToOne(r: Registry) {
    Indexed(r) && forall p, q | p in r.streams && q in r.streams && p != q :: r.streams[p] != r.streams[q]
  }

  /** Registered streams are open and lie under one path each; every other stream was closed exactly once. */
  ghost predicate Conserved(r: Registry) {
    && OneToOne(r)
    && (forall k | 0 <= k < |r.infos| :: r.infos[k].streamCloses == if Registered(r, k) then 0 else 1)
    && (forall k | 0 <= k < |r.infos| :: r.infos[k].publisherCloses <= r.infos[k].streamCloses)
  }

  ghost predicate Bounded(c: Config, r: Registry) {
    |r.streams| <= if c.maxStreams < 0 then 0 else c.maxStreams
  }

  ghost predicate Apart(info: Info) {
    forall id | id in info.clients :: info.clients[id].session != info.publisher
  }

  ghost predicate PublisherNotClient(r: Registry) {
    forall k | 0 <= k < |r.infos| :: Apart(r.infos[k])
  }

  ghost predicate Inv(c: Config, r: Registry) {
    Conserved(r) && Bounded(c, r) && PublisherNotClient(r)
  }

  // ----- When a stream leaves the registry -----

  /** The step at `now` takes the k-th stream out of the registry: replacement, its publisher's close, silence, shutdown. */
  predicate Removes(c: Config, r: Registry, t: Timed, k: nat)
    requires k < |r.infos|
  {
    match t.event
    case Announce(path, _) => Accepts(c, r) && path in r.streams && r.streams[path] == k
    case SessionClose(session, data) => data.Entries? && r.infos[k].publisher == session
    case Sweep => PublisherExpired(c, r.infos[k], t.now)
    case Shutdown => true
    case _ => false
  }

  lemma PathsAfter(c: Config, r: Registry, t: Timed, p: Path)
    requires OneToOne(r)
    ensures var s := Step(c, r, t.event, t.now);
      p in s.streams <==> (p in r.streams && !Removes(c, r, t, r.streams[p]))
                          || (Accepts(c, r) && t.event.Announce? && t.event.path == p)
    ensures var s := Step(c, r, t.event, t.now);
      p in s.streams ==> s.streams[p] == if Accepts(c, r) && t.event.Announce? && t.event.path == p then |r.infos| else r.streams[p]
  {
  }

  /** A step renames no publisher, and only a packet moves the publisher's activity. */
  lemma StepActivity(c: Config, r: Registry, t: Timed, k: nat)
    requires Indexed(r) && k < |r.infos|
    ensures var s := Step(c, r, t.event, t.now);
      && |s.infos| == |r.infos| + (if Accepts(c, r) && t.event.Announce? then 1 else 0)
      && s.infos[k].publisher == r.infos[k].publisher
      && s.infos[k].publisherLastActive == if t.event == Packet(k) then t.now else r.infos[k].publisherLastActive
  {
  }

  lemma StepKeepsOneToOne(c: Config, r: Registry, t: Timed)
    requires OneToOne(r)
    ensures OneToOne(Step(c, r, t.event, t.now))
  {
    forall p { PathsAfter(c, r, t, p); }
  }

  lemma RegisteredAfter(c: Config, r: Registry, t: Timed, k: nat)
    requires OneToOne(r) && k < |r.infos|
    ensures Registered(Step(c, r, t.event, t.now), k) <==> Registered(r, k) && !Removes(c, r, t, k)
  {
    forall p { PathsAfter(c, r, t, p); }
  }

  /** A record after a step, whichever record the step is about. */
  function InfoAfter(c: Config, r: Registry, t: Timed, k: nat): Info
    requires Indexed(r) && k < |r.infos|
  {
    var info := r.infos[k];
    match t.event
    case Announce(path, _) =>
      if Accepts(c, r) && path in r.streams && r.streams[path] == k then ClosedBoth(info) else info
    case SessionClose(session, data) =>
      if data.Entries? && Registered(r, k) then Departed(info, session, data.clientID) else info
    case SetupUse(j, session, data, stamp) => if j == k then WithClient(info, session, data, stamp) else info
    case Play(path, data) => if path in r.streams && r.streams[path] == k then Played(info, data, t.now) else info
    case Packet(j) => if j == k then Touched(info, t.now) else info
    case Sweep => if Registered(r, k) then Swept(c, info, t.now) else info
    case Shutdown => if Registered(r, k) then ClosedBoth(info) else info
  }

  lemma StepOnInfo(c: Config, r: Registry, t: Timed, k: nat)
    requires Indexed(r) && k < |r.infos|
    ensures k < |Step(c, r, t.event, t.now).infos| && Step(c, r, t.event, t.now).infos[k] == InfoAfter(c, r, t, k)
  {
  }

  /** A record is closed when its stream is removed, its publisher unless it left by itself. */
  lemma ClosesAfter(c: Config, r: Registry, t: Timed, k: nat)
    requires Indexed(r) && k < |r.infos|
    ensures var removed, before, after := Registered(r, k) && Removes(c, r, t, k), r.infos[k], InfoAfter(c, r, t, k);
      && after.streamCloses == before.streamCloses + (if removed then 1 else 0)
      && after.publisherCloses == before.publisherCloses + (if removed && !t.event.SessionClose? then 1 else 0)
      && after.publisher == before.publisher
  {
  }

  lemma StepKeepsConserved(c: Config, r: Registry, t: Timed)
    requires Conserved(r)
    ensures Conserved(Step(c, r, t.event, t.now))
  {
    var s := Step(c, r, t.event, t.now);
    StepKeepsOneToOne(c, r, t);
    forall k | 0 <= k < |s.infos|
      ensures s.infos[k].streamCloses == if Registered(s, k) then 0 else 1
      ensures s.infos[k].publisherCloses <= s.infos[k].streamCloses
    {
      if k < |r.infos| {
        RegisteredAfter(c, r, t, k);
        StepOnInfo(c, r, t, k);
        ClosesAfter(c, r, t, k);
      } else {
        assert s.streams[t.event.path] == k;
      }
    }
  }

  lemma SubmapSize<K, V>(m: map<K, V>, n: map<K, V>)
    requires m.Keys <= n.Keys
    ensures |m| <= |n|
  {
    var rest := n.Keys - m.Keys;
    assert n.Keys == m.Keys + rest;
  }

  lemma SubsetSize<T>(a: set<T>, b: set<T>)
    requires a <= b
    ensures |a| <= |b|
  {
    assert b == a + (b - a);
  }

  lemma StepKeepsBounded(c: Config, r: Registry, t: Timed)
    requires OneToOne(r) && Bounded(c, r)
    ensures Bounded(c, Step(c, r, t.event, t.now))
  {
    var s := Step(c, r, t.event, t.now);
    var added := if t.event.Announce? && Accepts(c, r) then {t.event.path} else {};
    forall p { PathsAfter(c, r, t, p); }
    assert s.streams.Keys <= r.streams.Keys + added;
    SubmapSize(s.streams - added, r.streams);
    assert s.streams.Keys <= (s.streams - added).Keys + added;
    SubsetSize(s.streams.Keys, (s.streams - added).Keys + added);
  }

  lemma EffectsKeepApart(c: Config, info: Info, session: SessionId, id: ClientId, data: UserData, now: Time)
    requires Apart(info)
    ensures Apart(ClosedBoth(info)) && Apart(Departed(info, session, id)) && Apart(WithClient(info, session, data, now))
    ensures Apart(Played(info, data, now)) && Apart(Touched(info, now)) && Apart(Swept(c, info, now))
  {
  }

  lemma StepKeepsApart(c: Config, r: Registry, t: Timed, k: nat)
    requires Indexed(r) && k < |r.infos| && Apart(r.infos[k])
    ensures Apart(InfoAfter(c, r, t, k))
  {
    if t.event.SessionClose? && t.event.data.Entries? {
      EffectsKeepApart(c, r.infos[k], t.event.session, t.event.data.clientID, t.event.data, t.now);
    } else if t.event.SetupUse? {
      EffectsKeepApart(c, r.infos[k], t.event.session, "", t.event.data, t.event.stamp);
    } else {
      EffectsKeepApart(c, r.infos[k], 0, "", if t.event.Play? then t.event.data else Absent, t.now);
    }
  }

  lemma StepKeepsPublisherNotClient(c: Config, r: Registry, t: Timed)
    requires Indexed(r) && PublisherNotClient(r)
    ensures PublisherNotClient(Step(c, r, t.event, t.now))
  {
    var s := Step(c, r, t.event, t.now);
    forall k | 0 <= k < |s.infos| ensures Apart(s.infos[k]) {
      if k < |r.infos| {
        StepOnInfo(c, r, t, k);
        StepKeepsApart(c, r, t, k);
      }
    }
  }

  lemma StepKeepsInv(c: Config, r: Registry, t: Timed)
    requires Inv(c, r)
    ensures Inv(c, Step(c, r, t.event, t.now))
  {
    StepKeepsConserved(c, r, t);
    StepKeepsBounded(c, r, t);
    StepKeepsPublisherNotClient(c, r, t);
  }

  // ----- Runs -----

  /** The registry after a history of steps; the last step of the history is taken last. */
  function Run(c: Config, r: Registry, ts: seq<Timed>): Registry
    requires Indexed(r)
    ensures Indexed(Run(c, r, ts))
  {
    if ts == [] then r
    else
      var q := Run(c, r, ts[..|ts| - 1]);
      Step(c, q, ts[|ts| - 1].event, ts[|ts| - 1].now)
  }

  lemma RunKeepsInv(c: Config, r: Registry, ts: seq<Timed>)
    requires Inv(c, r)
    ensures Inv(c, Run(c, r, ts))
  {
    if ts == [] {
    } else {
      RunKeepsInv(c, r, ts[..|ts| - 1]);
      StepKeepsInv(c, Run(c, r, ts[..|ts| - 1]), ts[|ts| - 1]);
    }
  }
}
