/**
 The WebRTC sink as an object: sessions shared by reference, queues and counters changed in place.  Each method is
 one uninterrupted call, proved against the steps of `Webrtc`; map iteration takes any remaining key next.
 */
module WebrtcHost {
  import opened GoInts
  import opened Webrtc
  import opened WebrtcRuns
  import opened WebrtcLoops

  // ----- Objects -----

  class ClientSession {
    ghost const index: nat
    const ttl: Time
    var lastActivity: Time
    var connectionState: ConnectionState
    var rtpChan: seq<Packet>
    ghost var state: Session     // the session as a value, with its histories

    ghost predicate Valid()
      reads this
    {
      state.ttl == ttl && state.lastActivity == lastActivity && state.state == connectionState && state.queue == rtpChan
    }

    constructor (ghost index: nat, ttl: Time, now: Time)
      ensures this.index == index && Valid() && state == Session(ttl, now, New, [], 0, [], [])
    {
      this.index, this.ttl, lastActivity, connectionState, rtpChan := index, ttl, now, New, [];
      state := Session(ttl, now, New, [], 0, [], []);
    }

    method UpdateActivity(now: Time)
      requires Valid()
      modifies this
      ensures Valid() && state == old(state).(lastActivity := now)
    {
      lastActivity := now;
      state := state.(lastActivity := now);
    }

    method IsExpired(now: Time) returns (expired: bool)
      requires Valid()
      ensures expired == Expired(state, now)
    {
      expired := now - lastActivity > ttl;
    }

    /** A non-blocking send, and the activity it counts as.  Sending on a closed channel would end the process. */
    method TrySend(p: Packet, now: Time) returns (ok: bool)
      requires Valid() && state.closes == 0
      modifies this
      ensures Valid() && state == Offer(old(state), p, now) && ok == HasRoom(old(state))
    {
      if |rtpChan| < 1000 {
        rtpChan := rtpChan + [p];
        state := state.(queue := state.queue + [p], accepted := state.accepted + [p]);
        UpdateActivity(now);
        return true;
      }
      return false;
    }

    /** Closing a closed channel would end the process too. */
    method CloseChannel()
      requires Valid() && state.closes == 0
      modifies this`state
      ensures Valid() && state == ClosedOnce(old(state))
    {
      state := ClosedOnce(state);
    }
  }

  class Host {
    const clientTTL: Time
    var clients: map<Id, ClientSession>
    var activeConnections: Uint8
    var failedConnections: Uint8
    var totalDataSent: Sint64
    ghost var sessions: seq<ClientSession>   // every session ever created
    ghost var table: Table

    constructor (clientTTL: Time)
      ensures Valid() && table == Empty
      ensures this.clientTTL == if clientTTL == 0 then 300_000_000_000 else clientTTL
    {
      // A ttl of zero stands for five minutes.
      this.clientTTL := if clientTTL == 0 then 300_000_000_000 else clientTTL;
      clients, activeConnections, failedConnections, totalDataSent := map[], 0, 0, 0;
      sessions, table := [], Empty;
    }

    /** The objects and the table have the same shape. */
    ghost predicate Linked(t: Table)
      reads this, sessions
    {
      && (forall i | 0 <= i < |sessions| :: sessions[i].index == i && sessions[i].Valid())
      && (forall id | id in clients :: clients[id].index < |sessions| && sessions[clients[id].index] == clients[id])
      && t.clients.Keys == clients.Keys
      && (forall id | id in clients :: t.clients[id] == clients[id].index)
      && |t.sessions| == |sessions|
    }

    /** The sessions agree with the table, except perhaps this one. */
    ghost predicate Recorded(t: Table, but: nat)
      requires Linked(t)
      reads this, sessions
    {
      forall i | 0 <= i < |sessions| && i != but :: t.sessions[i] == sessions[i].state
    }

    ghost predicate Counted(t: Table)
      reads this
    {
      t.active == activeConnections && t.failed == failedConnections && t.sent == totalDataSent
    }

    ghost predicate Valid()
      reads this, sessions
    {
      Linked(table) && Recorded(table, |sessions|) && Counted(table)
    }

    /** Brings the table up to date with a session and the counters. */
    ghost method Record(session: ClientSession, t: Table)
      requires Linked(table) && session in sessions && Recorded(table, session.index)
      requires t.clients == table.clients && t.sessions == table.sessions[session.index := session.state] && Counted(t)
      modifies this`table
      ensures Valid() && table == t
    {
      table := t;
    }

    /** Between calls: no broadcast holds the lock and the process is alive.  The rest holds in every reachable table. */
    ghost predicate Quiescent()
      reads this
    {
      Lifecycle(table) && table.casts == map[] && !table.crashed
    }

    ghost predicate Steps(before: Table, e: Event, now: Time)
      requires Indexed(before)
      reads this
    {
      table == Step(clientTTL, before, e, now)
    }

    method Insert(id: Id, ttl: Time, now: Time) returns (session: ClientSession)
      requires Valid() && id !in clients
      modifies this`clients, this`sessions, this`table
      ensures Valid() && fresh(session) && clients == old(clients)[id := session]
      ensures table == old(table).(clients := old(table).clients[id := |old(table).sessions|],
                                   sessions := old(table).sessions + [Session(ttl, now, New, [], 0, [], [])])
    {
      session := new ClientSession(|sessions|, ttl, now);
      clients := clients[id := session];
      sessions := sessions + [session];
      table := table.(clients := table.clients[id := |table.sessions|], sessions := table.sessions + [session.state]);
    }

    /** `ok`: the peer connection, its track and the track's sender could be made. */
    method GetOrCreateSession(id: Id, ttl: Time, ok: bool, now: Time) returns (session: ClientSession?)
      requires Valid() && Quiescent()
      modifies this, sessions
      ensures Valid() && Steps(old(table), Create(id, ttl, ok), now)
      ensures session == null <==> id !in old(table).clients && !ok
      ensures session != null ==> id in clients && clients[id] == session
    {
      if id in clients {
        session := clients[id];
        session.UpdateActivity(now);
        Record(session, table.(sessions := table.sessions[session.index := session.state]));
        return;
      }
      if !ok {
        return null;
      }
      session := Insert(id, if ttl == 0 then clientTTL else ttl, now);
    }

    method DecreaseActive()
      modifies this`activeConnections
      ensures activeConnections == Lowered(old(activeConnections))
    {
      if activeConnections > 0 {
        activeConnections := activeConnections - 1;
      }
    }

    /** The counters' part of the callback. */
    method CountChange(state: ConnectionState)
      modifies this`activeConnections, this`failedConnections
      ensures activeConnections ==
        if state == Connected then Byte(old(activeConnections) + 1)
        else if state in {Disconnected, Failed, Closed} then Lowered(old(activeConnections)) else old(activeConnections)
      ensures failedConnections ==
        if state in {Disconnected, Failed, Closed} then Byte(old(failedConnections) + 1) else old(failedConnections)
    {
      if state == Connected {
        activeConnections := Byte(activeConnections + 1);
      } else if state in {Disconnected, Failed, Closed} {
        DecreaseActive();
        failedConnections := Byte(failedConnections + 1);
      }
    }

    method OnConnectionStateChange(session: ClientSession, state: ConnectionState, now: Time)
      requires Valid() && session in sessions && Quiescent()
      modifies this`activeConnections, this`failedConnections, this`table, session
      ensures Valid() && Steps(old(table), Callback(session.index, state), now)
    {
      session.connectionState := state;
      session.state := session.state.(state := state);
      CountChange(state);
      Record(session, CalledBack(table, session.index, state));
    }

    /** One turn of the forwarder; `written`: the track accepts the packet. */
    method ForwardOne(session: ClientSession, written: bool, now: Time)
      requires Valid() && session in sessions && Quiescent()
      modifies this`totalDataSent, this`table, session
      ensures Valid() && Steps(old(table), Take(session.index, written), now)
    {
      if session.rtpChan != [] {
        var packet := session.rtpChan[0];
        session.rtpChan := session.rtpChan[1..];
        session.state := Forward(session.state, written);
        if written {
          totalDataSent := Int64(totalDataSent + Length(packet));
        }
      }
      Record(session, Forwarded(table, session.index, written));
    }

    /** A send to a session of the table. */
    method SendTo(session: ClientSession, p: Packet, now: Time) returns (ok: bool)
      requires Valid() && session in sessions && session.state.closes == 0
      modifies this`table, session
      ensures Valid() && table == Sent(old(table), session.index, p, now)
      ensures ok == HasRoom(old(session.state))
    {
      ok := session.TrySend(p, now);
      Record(session, Sent(table, session.index, p, now));
    }

    method ProcessRTPPacket(id: Id, p: MediaPacket, now: Time) returns (ok: bool)
      requires Valid() && Quiescent()
      modifies this`table, sessions
      ensures Valid() && ok == (id in clients && HasRoom(old(table).sessions[old(table).clients[id]]))
      ensures if id in clients then Steps(old(table), Direct(old(table).clients[id], p), now) else table == old(table)
    {
      if id !in clients {
        return false;
      }
      assert InTable(table, table.clients[id]);
      ok := SendTo(clients[id], p, now);
    }

    /** One turn of the broadcast's loop. */
    method OfferNext(session: ClientSession, ghost before: Table, ghost remaining: set<Id>, id: Id, p: Packet, now: Time)
      returns (ok: bool)
      requires Valid() && id in clients && clients[id] == session && id in remaining && remaining <= clients.Keys
      requires Lifecycle(before) && before.clients == table.clients
      requires table == BroadcastTo(before, before.clients.Keys - remaining, p, now)
      modifies this`table, session
      ensures Valid() && table == BroadcastTo(before, before.clients.Keys - (remaining - {id}), p, now)
      ensures SomeRoom(before, before.clients.Keys - (remaining - {id})) <==>
              SomeRoom(before, before.clients.Keys - remaining) || ok
    {
      ghost var done := before.clients.Keys - remaining;
      assert before.clients.Keys - (remaining - {id}) == done + {id};
      BroadcastNext(before, done, id, p, now);
      assert InTable(before, before.clients[id]);
      ok := SendTo(session, p, now);
    }

    /** The loop of WriteRTP. */
    method OfferAll(p: MediaPacket, now: Time) returns (successCount: nat)
      requires Valid() && Lifecycle(table) && BroadcastTo(table, table.clients.Keys - table.clients.Keys, p, now) == table
      requires !SomeRoom(table, table.clients.Keys - table.clients.Keys)
      modifies this`table, sessions
      ensures Valid() && table == BroadcastTo(old(table), old(table).clients.Keys - {}, p, now)
      ensures 0 < successCount <==> SomeRoom(old(table), old(table).clients.Keys - {})
    {
      ghost var before := table;
      successCount := 0;
      var remaining := clients.Keys;
      while remaining != {}
        invariant Valid() && before.clients == table.clients && remaining <= clients.Keys
        invariant table == BroadcastTo(before, before.clients.Keys - remaining, p, now)
        invariant 0 < successCount <==> SomeRoom(before, before.clients.Keys - remaining)
      {
        var id :| id in remaining;
        var sent := OfferNext(clients[id], before, remaining, id, p, now);
        if sent {
          successCount := successCount + 1;
        }
        remaining := remaining - {id};
      }
    }

    /**
     The broadcast: whatever the iteration order, each session with room gets the packet once and counts as active,
     full ones keep their queue, and the call succeeds exactly when at least one session took the packet.
     */
    method WriteRTP(p: MediaPacket, now: Time) returns (ok: bool)
      requires Valid() && Quiescent()
      modifies this`table, sessions
      ensures Valid() && table == Broadcast(old(table), p, now)
      ensures ok <==> AnyRoom(old(table))
    {
      BroadcastEnds(table, p, now);
      if clients == map[] {
        return false;
      }
      var successCount := OfferAll(p, now);
      ok := successCount != 0;
    }

    /** SPS first, and PPS only if the SPS was accepted: the two steps of a caller, one right after the other. */
    method SendParameterSets(id: Id, now: Time) returns (ok: bool)
      requires Valid() && Quiescent()
      modifies this`table, sessions
      ensures Valid() && table == if id in clients then BothSends(clientTTL, old(table), old(table).clients[id], now) else old(table)
      ensures ok == (id in clients && |old(clients[id].rtpChan)| + 2 <= CAPACITY)
    {
      if id !in clients {
        return false;
      }
      assert InTable(table, table.clients[id]);
      BothSendsInPlace(clientTTL, table, table.clients[id], now);
      ok := SendTo(clients[id], Sps, now);
      if !ok {
        return false;
      }
      ok := SendTo(clients[id], Pps, now);
    }

    /** Takes an ID out of the table and lowers the counter. */
    method Drop(id: Id)
      requires Valid()
      modifies this`clients, this`activeConnections, this`table
      ensures Valid()
      ensures table == old(table).(clients := old(table).clients - {id}, active := Lowered(old(table).active))
    {
      clients := clients - {id};
      DecreaseActive();
      table := table.(clients := table.clients - {id}, active := activeConnections);
    }

    method CloseOne(session: ClientSession)
      requires Valid() && session in sessions && session.state.closes == 0
      modifies this`table, session`state
      ensures Valid()
      ensures table == old(table).(sessions := old(table).sessions[session.index := ClosedOnce(old(table).sessions[session.index])])
    {
      session.CloseChannel();
      Record(session, table.(sessions := table.sessions[session.index := session.state]));
    }

    /** One turn of the sweep's loop. */
    method SweepOne(id: Id, session: ClientSession, now: Time)
      requires Valid() && id in clients && clients[id] == session && session.state.closes == 0
      modifies this`clients, this`activeConnections, this`table, session`state
      ensures Valid() && table == SweptOne(old(table), id, now)
    {
      var expired := session.IsExpired(now);
      if expired {
        CloseOne(session);
        Drop(id);
      }
    }

    method SweepNext(id: Id, session: ClientSession, ghost before: Table, ghost remaining: set<Id>, now: Time)
      requires Valid() && id in clients && clients[id] == session
      requires Lifecycle(before) && id in remaining && remaining <= before.clients.Keys && session.index == before.clients[id]
      requires table == SweptTo(before, before.clients.Keys - remaining, now)
      modifies this`clients, this`activeConnections, this`table, session`state
      ensures Valid() && table == SweptTo(before, before.clients.Keys - (remaining - {id}), now)
    {
      SweptOneMore(before, remaining, id, now);
      assert InTable(before, before.clients[id]);
      SweepOne(id, session, now);
    }

    /** The loop of the sweep. */
    method SweepAll(now: Time)
      requires Valid() && Lifecycle(table) && SweptTo(table, table.clients.Keys - table.clients.Keys, now) == table
      modifies this`clients, this`activeConnections, this`table, sessions
      ensures Valid() && table == SweptTo(old(table), old(table).clients.Keys - {}, now)
    {
      ghost var before := table;
      var remaining := clients.Keys;
      while remaining != {}
        invariant Valid() && remaining <= before.clients.Keys
        invariant table == SweptTo(before, before.clients.Keys - remaining, now)
      {
        var id :| id in remaining;
        SweptOneMore(before, remaining, id, now);
        SweepNext(id, clients[id], before, remaining, now);
        remaining := remaining - {id};
      }
    }

    method CleanupExpiredClients(now: Time)
      requires Valid() && Quiescent()
      modifies this`clients, this`activeConnections, this`table, sessions
      ensures Valid() && Steps(old(table), Sweep, now)
    {
      ghost var before := table;
      SweptStart(before, now);
      SweptEnd(clientTTL, before, now);
      SweepAll(now);
    }

    /** The loop of close. */
    method CloseAll()
      requires Valid() && Lifecycle(table)
      modifies this`table, sessions
      ensures Valid() && table == ClosedTo(old(table), old(table).clients.Keys - {})
    {
      ghost var before := table;
      ClosedEnds(before);
      var remaining := clients.Keys;
      while remaining != {}
        invariant Valid() && remaining <= before.clients.Keys
        invariant table == ClosedTo(before, before.clients.Keys - remaining)
      {
        var id :| id in remaining;
        ClosedNext(before, remaining, id);
        assert InTable(before, before.clients[id]);
        CloseOne(clients[id]);
        remaining := remaining - {id};
      }
    }

    /** Drops every session at once. */
    method Forget()
      requires Valid()
      modifies this`clients, this`table
      ensures Valid() && clients == map[] && table == old(table).(clients := map[])
    {
      clients := map[];
      table := table.(clients := map[]);
    }

    method Shutdown(now: Time)
      requires Valid() && Quiescent()
      modifies this`clients, this`table, sessions
      ensures Valid() && clients == map[] && Steps(old(table), Close, now)
    {
      ClosedEnds(table);
      CloseAll();
      Forget();
    }
  }
}
