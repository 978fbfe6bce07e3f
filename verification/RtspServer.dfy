/**
 The RTSP server's registry as objects: records and client sessions shared by reference and updated in place.
 Every handler is proved against its step of `RtspRegistry`; map iteration takes any remaining key next.
 */
module RtspServer {
  import opened RtspRegistry
  import opened RtspVisits

  datatype Status = OK | NotFound | ServiceUnavailable

  // An announce as its two in-place updates.
  lemma AnnouncedInPlace(r: Registry, path: Path, session: SessionId, now: Time)
    requires Indexed(r)
    ensures Announced(r, path, session, now) ==
      var infos := if path in r.streams
                   then r.infos[r.streams[path] := ClosedBoth(r.infos[r.streams[path]])]
                   else r.infos;
      Registry(r.streams[path := |r.infos|], infos + [FreshInfo(session, now)])
  {
  }

  class ClientSession {
    ghost const home: nat        // the record it was made for
    const id: ClientId
    const session: SessionId
    var lastActive: Time

    constructor (ghost home: nat, id: ClientId, session: SessionId, lastActive: Time)
      ensures this.home == home && this.id == id && this.session == session && this.lastActive == lastActive
    {
      this.home, this.id, this.session, this.lastActive := home, id, session, lastActive;
    }

    ghost function View(): Client
      reads this
    {
      Client(session, lastActive)
    }
  }

  class StreamInfo {
    ghost const index: nat
    const publisher: SessionId
    var publisherLastActive: Time
    var clients: map<ClientId, ClientSession>
    ghost var sessions: set<ClientSession>  // every object that has been in `clients`
    ghost var state: Info                   // the record as a value

    ghost predicate Valid()
      reads this, sessions
    {
      && state.publisher == publisher && state.publisherLastActive == publisherLastActive
      && state.clients.Keys == clients.Keys
      && (forall client | client in sessions :: client.home == index)
      && (forall id | id in clients ::
            clients[id] in sessions && clients[id].id == id && state.clients[id] == clients[id].View())
    }

    constructor (ghost index: nat, publisher: SessionId, now: Time)
      ensures this.index == index && sessions == {} && Valid() && state == FreshInfo(publisher, now)
    {
      this.index := index;
      this.publisher, this.publisherLastActive, this.clients := publisher, now, map[];
      this.sessions, this.state := {}, FreshInfo(publisher, now);
    }

    method CloseStream()
      requires Valid()
      modifies this`state
      ensures Valid() && state == old(state).(streamCloses := old(state).streamCloses + 1)
    {
      state := state.(streamCloses := state.streamCloses + 1);
    }

    method ClosePublisher()
      requires Valid()
      modifies this`state
      ensures Valid() && state == old(state).(publisherCloses := old(state).publisherCloses + 1)
    {
      state := state.(publisherCloses := state.publisherCloses + 1);
    }

    method AddClient(client: ClientSession)
      requires Valid() && client.home == index
      modifies this`clients, this`sessions, this`state
      ensures sessions == old(sessions) + {client}
      ensures Valid() && state == old(state).(clients := old(state).clients[client.id := client.View()])
    {
      clients := clients[client.id := client];
      sessions := sessions + {client};
      state := state.(clients := state.clients[client.id := client.View()]);
    }

    method RemoveClient(clientID: ClientId)
      requires Valid()
      modifies this`clients, this`state
      ensures Valid() && state == WithoutClient(old(state), clientID)
    {
      clients := clients - {clientID};
      state := WithoutClient(state, clientID);
    }

    /** What OnSetup does with the record it looked up. */
    method Admit(session: SessionId, data: UserData, stamp: Time)
      requires Valid()
      modifies this`clients, this`sessions, this`state
      ensures old(sessions) <= sessions && fresh(sessions - old(sessions))
      ensures Valid() && state == WithClient(old(state), session, data, stamp)
    {
      if publisher != session && data.Entries? {
        var client := new ClientSession(index, data.clientID, session, stamp);
        AddClient(client);
      }
    }

    /** The critical section of OnPlay. */
    method Refresh(data: UserData, now: Time)
      requires Valid()
      modifies this`state, sessions
      ensures Valid() && state == Played(old(state), data, now)
    {
      if data.Entries? && data.clientID in clients {
        clients[data.clientID].lastActive := now;
      }
      state := Played(state, data, now);
    }

    /** The critical section of the packet callback. */
    method Touch(now: Time)
      requires Valid()
      modifies this`publisherLastActive, this`state, sessions
      ensures Valid() && state == Touched(old(state), now)
    {
      publisherLastActive := now;
      var remaining := clients.Keys;
      while remaining != {}
        invariant remaining <= clients.Keys && publisherLastActive == now && state == old(state)
        invariant forall id | id in clients ::
          clients[id].lastActive == if id in remaining then old(clients[id].lastActive) else now
      {
        var id :| id in remaining;
        clients[id].lastActive := now;
        remaining := remaining - {id};
      }
      state := Touched(state, now);
    }

    /** The part of a sweep that a live stream's clients see: collect the expired IDs, then delete them. */
    method RemoveInactive(c: Config, now: Time)
      requires Valid()
      modifies this`clients, this`state
      ensures Valid() && state == Pruned(c, old(state), now)
    {
      var toRemove: seq<ClientId> := [];
      var remaining := clients.Keys;
      while remaining != {}
        invariant remaining <= clients.Keys && clients == old(clients) && state == old(state)
        invariant forall id :: id in toRemove <==>
          id in clients && id !in remaining && ClientExpired(c, clients[id].View(), now)
      {
        var id :| id in remaining;
        if now - clients[id].lastActive > c.clientTimeout {
          toRemove := toRemove + [id];
        }
        remaining := remaining - {id};
      }
      for i := 0 to |toRemove|
        invariant clients == old(clients) - (set id | id in toRemove[..i]) && state == old(state)
      {
        clients := clients - {toRemove[i]};
      }
      state := Pruned(c, state, now);
    }
  }

  class NewServer {
    const config: Config
    var streams: map<Path, StreamInfo>
    ghost var infos: seq<StreamInfo>       // every record ever created
    ghost var registry: Registry           // the state of the transition system
    ghost var Repr: set<object>

    constructor (config: Config)
      ensures this.config == config && Valid() && fresh(Repr) && registry == Empty
    {
      this.config := config;
      streams, infos, registry, Repr := map[], [], Empty, {};
    }

    /** Each record ever created is its own object; a client session belongs to the record it was made for. */
    ghost predicate Linked()
      reads this, Repr
    {
      && this !in Repr
      && (forall i | 0 <= i < |infos| ::
            infos[i] in Repr && infos[i].sessions <= Repr && infos[i].index == i && infos[i].Valid())
      && (forall p | p in streams :: streams[p].index < |infos| && infos[streams[p].index] == streams[p])
      && registry.streams.Keys == streams.Keys
      && (forall p | p in streams :: registry.streams[p] == streams[p].index)
      && |registry.infos| == |infos|
    }

    /** The records agree with the registry, except perhaps this one. */
    ghost predicate Recorded(but: nat)
      requires Linked()
      reads this, Repr
    {
      forall i | 0 <= i < |infos| && i != but :: registry.infos[i] == infos[i].state
    }

    ghost predicate Valid()
      reads this, Repr
    {
      Linked() && Recorded(|infos|)
    }

    /** Brings the registry up to date with a record that changed. */
    ghost method Record(info: StreamInfo)
      requires Linked() && info in infos && Recorded(info.index)
      modifies this`registry
      ensures Valid() && registry == old(registry).(infos := old(registry).infos[info.index := info.state])
    {
      registry := registry.(infos := registry.infos[info.index := info.state]);
    }

    /** `Stream.Close()` and `Publisher.Close()` of one record. */
    method CloseBoth(info: StreamInfo)
      requires Valid() && info in infos
      modifies info`state, this`registry
      ensures Valid()
      ensures registry == old(registry).(infos := old(registry).infos[info.index := ClosedBoth(old(registry).infos[info.index])])
    {
      info.CloseStream();
      info.ClosePublisher();
      Record(info);
    }

    method Register(path: Path, session: SessionId, now: Time)
      requires Valid()
      modifies this
      ensures Valid() && fresh(Repr - old(Repr))
      ensures registry == Registry(old(registry).streams[path := |old(registry).infos|],
                                   old(registry).infos + [FreshInfo(session, now)])
    {
      var info := new StreamInfo(|infos|, session, now);
      streams := streams[path := info];
      infos := infos + [info];
      Repr := Repr + {info};
      registry := Registry(registry.streams[path := |registry.infos|], registry.infos + [FreshInfo(session, now)]);
    }

    /** What is at the path is closed, and the new stream takes its place. */
    method Replace(path: Path, session: SessionId, now: Time)
      requires Valid()
      modifies this, Repr
      ensures Valid() && fresh(Repr - old(Repr))
      ensures registry == Announced(old(registry), path, session, now)
    {
      AnnouncedInPlace(registry, path, session, now);
      if path in streams {
        CloseBoth(streams[path]);
      }
      Register(path, session, now);
    }

    method OnAnnounce(path: Path, session: SessionId, now: Time) returns (status: Status)
      requires Valid()
      modifies this, Repr
      ensures Valid() && fresh(Repr - old(Repr))
      ensures registry == Step(config, old(registry), Announce(path, session), now)
      ensures status == if |old(streams)| < config.maxStreams then OK else ServiceUnavailable
    {
      assert |streams.Keys| == |registry.streams.Keys|;
      if |streams| >= config.maxStreams {
        return ServiceUnavailable;
      }
      Replace(path, session, now);
      return OK;
    }

    /** The first half of OnSetup and OnRecord: a lookup under the registry lock. */
    method Lookup(path: Path) returns (info: StreamInfo?)
      requires Valid()
      ensures info == null <==> path !in registry.streams
      ensures info != null ==> info in infos && info.index == registry.streams[path]
    {
      if path in streams {
        return streams[path];
      }
      return null;
    }

    /** The second half of OnSetup, on a record that may have left the registry since the lookup. */
    method SetupUse(info: StreamInfo, session: SessionId, data: UserData, stamp: Time, ghost now: Time)
      requires Valid() && info in infos
      modifies this`registry, this`Repr, info`clients, info`sessions, info`state
      ensures Valid() && fresh(Repr - old(Repr))
      ensures registry == Step(config, old(registry), Event.SetupUse(info.index, session, data, stamp), now)
    {
      info.Admit(session, data, stamp);
      Repr := Repr + info.sessions;
      Record(info);
    }

    /** OnSetup with nothing in between. */
    method OnSetup(path: Path, session: SessionId, data: UserData, now: Time) returns (status: Status)
      requires Valid()
      modifies this`registry, this`Repr, Repr
      ensures Valid() && fresh(Repr - old(Repr))
      ensures status == if path in old(registry).streams then OK else NotFound
      ensures registry == if path in old(registry).streams
                          then Step(config, old(registry), Event.SetupUse(old(registry).streams[path], session, data, now), now)
                          else old(registry)
    {
      var info := Lookup(path);
      if info == null {
        return NotFound;
      }
      SetupUse(info, session, data, now, now);
      return OK;
    }

    method PlayOn(info: StreamInfo, data: UserData, now: Time)
      requires Valid() && info in infos
      modifies this`registry, info`state, info.sessions
      ensures Valid()
      ensures registry ==
        old(registry).(infos := old(registry).infos[info.index := Played(old(registry).infos[info.index], data, now)])
    {
      info.Refresh(data, now);
      Record(info);
    }

    method OnPlay(path: Path, data: UserData, now: Time)
      requires Valid()
      modifies this`registry, Repr
      ensures Valid()
      ensures registry == Step(config, old(registry), Play(path, data), now)
    {
      if path in streams {
        PlayOn(streams[path], data, now);
      }
    }

    /** The callback that OnRecord installs on the publisher's session, for the record it looked up. */
    method OnPacket(info: StreamInfo, now: Time)
      requires Valid() && info in infos
      modifies this`registry, info`publisherLastActive, info`state, info.sessions
      ensures Valid()
      ensures registry == Step(config, old(registry), Packet(info.index), now)
    {
      info.Touch(now);
      Record(info);
    }

    /** Takes a path out of the registry. */
    method Unregister(path: Path)
      requires Valid()
      modifies this`registry, this`streams
      ensures Valid() && registry == old(registry).(streams := old(registry).streams - {path})
      ensures streams == old(streams) - {path}
    {
      streams := streams - {path};
      registry := registry.(streams := registry.streams - {path});
    }

    method Depart(info: StreamInfo, session: SessionId, clientID: ClientId)
      requires Valid() && info in infos
      modifies this`registry, info`clients, info`state
      ensures Valid()
      ensures registry ==
        old(registry).(infos := old(registry).infos[info.index := Departed(old(registry).infos[info.index], session, clientID)])
    {
      info.RemoveClient(clientID);
      if info.publisher == session {
        info.CloseStream();
      }
      Record(info);
    }

    method Prune(info: StreamInfo, now: Time)
      requires Valid() && info in infos
      modifies this`registry, info`clients, info`state
      ensures Valid()
      ensures registry ==
        old(registry).(infos := old(registry).infos[info.index := Pruned(config, old(registry).infos[info.index], now)])
    {
      info.RemoveInactive(config, now);
      Record(info);
    }

    /** The body of the loop of OnSessionClose. */
    method DropSession(path: Path, info: StreamInfo, session: SessionId, clientID: ClientId)
      requires Valid() && path in streams && streams[path] == info
      modifies this`registry, this`streams, info`clients, info`state
      ensures Valid() && registry == Visited(old(registry), path, Leaver(session, clientID))
    {
      Depart(info, session, clientID);
      if info.publisher == session {
        Unregister(path);
      }
    }

    /** The body of the loop of the sweep. */
    method SweepPath(path: Path, info: StreamInfo, now: Time)
      requires Valid() && path in streams && streams[path] == info
      modifies this`registry, this`streams, info`clients, info`state
      ensures Valid() && registry == Visited(old(registry), path, Sweeper(config, now))
    {
      if now - info.publisherLastActive > config.publisherTimeout {
        CloseBoth(info);
        Unregister(path);
      } else {
        Prune(info, now);
      }
    }

    /** The loop of OnSessionClose. */
    method DropFromAll(session: SessionId, clientID: ClientId)
      requires Valid() && OneToOne(registry)
      modifies this`registry, this`streams, Repr
      ensures Valid()
      ensures registry == VisitedSet(old(registry), old(registry).streams.Keys - {}, Leaver(session, clientID))
    {
      ghost var before, v := registry, Leaver(session, clientID);
      VisitNone(before, v);
      var remaining := streams.Keys;
      while remaining != {}
        invariant Valid() && infos == old(infos) && Repr == old(Repr) && remaining <= before.streams.Keys
        invariant registry == VisitedSet(before, before.streams.Keys - remaining, v)
      {
        var path :| path in remaining;
        VisitNext(before, remaining, path, v);
        DropSession(path, streams[path], session, clientID);
        remaining := remaining - {path};
      }
    }

    /** Without readable user data nothing happens; otherwise the session leaves every stream, and its own streams go. */
    method OnSessionClose(session: SessionId, data: UserData, now: Time)
      requires Valid() && OneToOne(registry)
      modifies this`registry, this`streams, Repr
      ensures Valid()
      ensures registry == Step(config, old(registry), SessionClose(session, data), now)
    {
      if data.Absent? || data.Foreign? {
        return;
      }
      VisitAllIsSessionClose(registry, session, data.clientID);
      DropFromAll(session, data.clientID);
    }

    /** The loop of the sweep. */
    method SweepAll(now: Time)
      requires Valid() && OneToOne(registry)
      modifies this`registry, this`streams, Repr
      ensures Valid()
      ensures registry == VisitedSet(old(registry), old(registry).streams.Keys - {}, Sweeper(config, now))
    {
      ghost var before, v := registry, Sweeper(config, now);
      VisitNone(before, v);
      var remaining := streams.Keys;
      while remaining != {}
        invariant Valid() && infos == old(infos) && Repr == old(Repr) && remaining <= before.streams.Keys
        invariant registry == VisitedSet(before, before.streams.Keys - remaining, v)
      {
        var path :| path in remaining;
        VisitNext(before, remaining, path, v);
        SweepPath(path, streams[path], now);
        remaining := remaining - {path};
      }
    }

    method CleanupInactiveSessions(now: Time)
      requires Valid() && OneToOne(registry)
      modifies this`registry, this`streams, Repr
      ensures Valid()
      ensures registry == Step(config, old(registry), Sweep, now)
    {
      VisitAllIsSweep(config, registry, now);
      SweepAll(now);
    }

    /** The loop of Close. */
    method CloseAll()
      requires Valid() && OneToOne(registry)
      modifies this`registry, Repr
      ensures Valid() && registry == VisitedSet(old(registry), old(registry).streams.Keys - {}, Closer)
    {
      ghost var before := registry;
      VisitNone(before, Closer);
      var remaining := streams.Keys;
      while remaining != {}
        invariant Valid() && Repr == old(Repr) && remaining <= before.streams.Keys
        invariant registry == VisitedSet(before, before.streams.Keys - remaining, Closer)
      {
        var path :| path in remaining;
        VisitNext(before, remaining, path, Closer);
        CloseBoth(streams[path]);
        remaining := remaining - {path};
      }
    }

    /** Drops every path at once. */
    method Forget()
      requires Valid()
      modifies this`registry, this`streams
      ensures Valid() && streams == map[] && registry == old(registry).(streams := map[])
    {
      streams := map[];
      registry := registry.(streams := map[]);
    }

    method Close(now: Time)
      requires Valid() && OneToOne(registry)
      modifies this`registry, this`streams, Repr
      ensures Valid() && streams == map[]
      ensures registry == Step(config, old(registry), Shutdown, now)
    {
      VisitAllIsShutDown(registry);
      CloseAll();
      Forget();
    }
  }
}
