/**
 The loops of the WebRTC sink over its session table, on values: what each has done after any part of its
 iteration, and that in any order it ends at one step, or at one broadcast, of the transition system.
 */
module WebrtcLoops {
  import opened GoInts
  import opened Webrtc
  import opened WebrtcRuns

  // ----- Broadcasts -----

  /** A broadcast with nothing in between: every session of the table is offered the packet. */
  function Broadcast(t: Table, p: Packet, now: Time): Table {
    t.(sessions := seq(|t.sessions|, k requires 0 <= k < |t.sessions| =>
      if InTable(t, k) then Offer(t.sessions[k], p, now) else t.sessions[k]))
  }

  /** The sessions of `ids` have been offered the packet. */
  ghost function BroadcastTo(t: Table, ids: set<Id>, p: Packet, now: Time): Table {
    t.(sessions := seq(|t.sessions|, k requires 0 <= k < |t.sessions| =>
      if exists id | id in t.clients :: id in ids && t.clients[id] == k then Offer(t.sessions[k], p, now) else t.sessions[k]))
  }

  ghost predicate SomeRoom(t: Table, ids: set<Id>)
    requires Indexed(t)
  {
    exists id | id in t.clients :: id in ids && HasRoom(t.sessions[t.clients[id]])
  }

  lemma RoomNext(t: Table, ids: set<Id>, id: Id)
    requires Indexed(t) && id in t.clients
    ensures SomeRoom(t, ids + {id}) <==> SomeRoom(t, ids) || HasRoom(t.sessions[t.clients[id]])
  {
    if i :| i in t.clients && i in ids && HasRoom(t.sessions[t.clients[i]]) {
      assert i in ids + {id};
    }
    if HasRoom(t.sessions[t.clients[id]]) {
      assert id in ids + {id};
    }
  }

  lemma BroadcastNext(t: Table, ids: set<Id>, id: Id, p: Packet, now: Time)
    requires OneToOne(t) && id in t.clients && id !in ids
    ensures var u, k := BroadcastTo(t, ids, p, now), t.clients[id];
      && u.sessions[k] == t.sessions[k] && k < |t.sessions| && u.clients == t.clients
      && (SomeRoom(t, ids + {id}) <==> SomeRoom(t, ids) || HasRoom(t.sessions[k]))
      && BroadcastTo(t, ids + {id}, p, now) == u.(sessions := u.sessions[k := Offer(t.sessions[k], p, now)])
  {
    var u, v, k := BroadcastTo(t, ids, p, now), BroadcastTo(t, ids + {id}, p, now), t.clients[id];
    RoomNext(t, ids, id);
    forall j | 0 <= j < |t.sessions| ensures v.sessions[j] == u.sessions[k := Offer(t.sessions[k], p, now)][j] {
      if j == k {
        assert id in ids + {id};
      } else if i :| i in t.clients && i in ids && t.clients[i] == j {
        assert i in ids + {id};
      }
    }
  }

  /** Some session of the table has room. */
  predicate AnyRoom(t: Table)
    requires Indexed(t)
  {
    exists id | id in t.clients :: HasRoom(t.sessions[t.clients[id]])
  }

  lemma BroadcastEnds(t: Table, p: Packet, now: Time)
    requires Indexed(t)
    ensures BroadcastTo(t, t.clients.Keys - t.clients.Keys, p, now) == t
    ensures BroadcastTo(t, t.clients.Keys - {}, p, now) == Broadcast(t, p, now)
    ensures !SomeRoom(t, t.clients.Keys - t.clients.Keys)
    ensures SomeRoom(t, t.clients.Keys - {}) <==> AnyRoom(t)
  {
    assert t.clients.Keys - t.clients.Keys == {} && t.clients.Keys - {} == t.clients.Keys;
    assert BroadcastTo(t, {}, p, now).sessions == t.sessions;
    if id :| id in t.clients && HasRoom(t.sessions[t.clients[id]]) { assert id in t.clients.Keys; }
    forall k | 0 <= k < |t.sessions|
      ensures BroadcastTo(t, t.clients.Keys, p, now).sessions[k] == Broadcast(t, p, now).sessions[k]
    {
      if id :| id in t.clients && t.clients[id] == k { assert id in t.clients.Keys; }
    }
  }

  // ----- A broadcast, step by step -----

  /** The table while broadcast `c` has offered its packet to the sessions of `ids`. */
  ghost function Casting(t: Table, c: nat, ids: set<Id>, accepted: nat, p: MediaPacket, now: Time): Table {
    BroadcastTo(t, ids, p, now).(casts := map[c := Cast(p, t.clients.Keys - ids, accepted)])
  }

  lemma CastSendStep(d: Time, t: Table, c: nat, ids: set<Id>, accepted: nat, id: Id, p: MediaPacket, now: Time)
    requires Lifecycle(t) && !t.crashed && id in t.clients && id !in ids
    ensures Indexed(Casting(t, c, ids, accepted, p, now))
    ensures Step(d, Casting(t, c, ids, accepted, p, now), CastSend(c, id), now) ==
      Casting(t, c, ids + {id}, accepted + (if HasRoom(t.sessions[t.clients[id]]) then 1 else 0), p, now)
  {
    BroadcastNext(t, ids, id, p, now);
    assert InTable(t, t.clients[id]);
    assert t.clients.Keys - ids - {id} == t.clients.Keys - (ids + {id});
    var casts := map[c := Cast(p, t.clients.Keys - ids, accepted)];
    assert forall todo, n :: casts[c := Cast(p, todo, n)] == map[c := Cast(p, todo, n)];
  }

  function Sends(c: nat, order: seq<Id>, now: Time): seq<Timed> {
    seq(|order|, i requires 0 <= i < |order| => Timed(CastSend(c, order[i]), now))
  }

  lemma CastBegins(d: Time, t: Table, c: nat, p: MediaPacket, now: Time)
    requires Lifecycle(t) && !t.crashed && t.casts == map[] && t.clients != map[]
    ensures Run(d, t, [Timed(CastBegin(c, p), now)]) == Casting(t, c, {}, 0, p, now)
  {
    BroadcastEnds(t, p, now);
    RunAppend(d, t, [], Timed(CastBegin(c, p), now));
    assert [] + [Timed(CastBegin(c, p), now)] == [Timed(CastBegin(c, p), now)];
    assert t.clients.Keys - t.clients.Keys == {} && t.clients.Keys - {} == t.clients.Keys;
  }

  function Elements(order: seq<Id>): set<Id> {
    set id | id in order
  }

  /** The broadcast has begun, and has sent to the sessions of `order` one after another. */
  function CastRun(d: Time, t: Table, c: nat, p: MediaPacket, order: seq<Id>, now: Time): (u: Table)
    requires Indexed(t)
    ensures Indexed(u)
  {
    Run(d, t, [Timed(CastBegin(c, p), now)] + Sends(c, order, now))
  }

  lemma CastRunAppend(d: Time, t: Table, c: nat, p: MediaPacket, order: seq<Id>, id: Id, now: Time)
    requires Indexed(t)
    ensures CastRun(d, t, c, p, order + [id], now) == Step(d, CastRun(d, t, c, p, order, now), CastSend(c, id), now)
  {
    var begin := [Timed(CastBegin(c, p), now)];
    RunAppend(d, t, begin + Sends(c, order, now), Timed(CastSend(c, id), now));
    assert begin + Sends(c, order + [id], now) == begin + Sends(c, order, now) + [Timed(CastSend(c, id), now)];
  }

  lemma CastNext(d: Time, t: Table, c: nat, p: MediaPacket, init: seq<Id>, id: Id, before: nat, now: Time)
    returns (accepted: nat)
    requires Lifecycle(t) && !t.crashed && id in t.clients && id !in init
    requires CastRun(d, t, c, p, init, now) == Casting(t, c, Elements(init), before, p, now)
    requires 0 < before <==> SomeRoom(t, Elements(init))
    ensures CastRun(d, t, c, p, init + [id], now) == Casting(t, c, Elements(init + [id]), accepted, p, now)
    ensures 0 < accepted <==> SomeRoom(t, Elements(init + [id]))
  {
    accepted := before + (if HasRoom(t.sessions[t.clients[id]]) then 1 else 0);
    assert Elements(init + [id]) == Elements(init) + {id};
    RoomNext(t, Elements(init), id);
    CastSendStep(d, t, c, Elements(init), before, id, p, now);
    CastRunAppend(d, t, c, p, init, id, now);
  }

  lemma {:induction false} CastPrefix(d: Time, t: Table, c: nat, p: MediaPacket, order: seq<Id>, now: Time)
    returns (accepted: nat)
    requires Lifecycle(t) && !t.crashed && t.casts == map[] && t.clients != map[]
    requires forall i | 0 <= i < |order| :: order[i] in t.clients
    requires forall i, j | 0 <= i < j < |order| :: order[i] != order[j]
    ensures CastRun(d, t, c, p, order, now) == Casting(t, c, Elements(order), accepted, p, now)
    ensures 0 < accepted <==> SomeRoom(t, Elements(order))
  {
    if order == [] {
      accepted := 0;
      CastBegins(d, t, c, p, now);
      assert [Timed(CastBegin(c, p), now)] + Sends(c, order, now) == [Timed(CastBegin(c, p), now)];
      assert Elements(order) == {};
    } else {
      var init, id := order[..|order| - 1], order[|order| - 1];
      var before := CastPrefix(d, t, c, p, init, now);
      assert order == init + [id];
      accepted := CastNext(d, t, c, p, init, id, before, now);
    }
  }

  /** In whatever order the map is iterated, the steps of an uninterrupted broadcast add up to `Broadcast`. */
  lemma BroadcastInAnyOrder(d: Time, t: Table, c: nat, p: MediaPacket, order: seq<Id>, now: Time)
    requires Lifecycle(t) && !t.crashed && t.casts == map[] && t.clients != map[]
    requires (forall id :: id in order <==> id in t.clients) && forall i, j | 0 <= i < j < |order| :: order[i] != order[j]
    ensures Run(d, t, [Timed(CastBegin(c, p), now)] + Sends(c, order, now) + [Timed(CastEnd(c), now)]) == Broadcast(t, p, now)
  {
    var accepted := CastPrefix(d, t, c, p, order, now);
    var ids := Elements(order);
    assert ids == t.clients.Keys - {};
    BroadcastEnds(t, p, now);
    RunAppend(d, t, [Timed(CastBegin(c, p), now)] + Sends(c, order, now), Timed(CastEnd(c), now));
    var u := Casting(t, c, ids, accepted, p, now);
    assert u.casts - {c} == map[];
  }

  // ----- Sweeps -----

  /** The sessions of `ids` have been looked at by a sweep. */
  ghost function SweptTo(t: Table, ids: set<Id>, now: Time): Table
    requires Indexed(t)
  {
    var gone := ExpiredIds(t, now) * ids;
    t.(clients := t.clients - gone,
       active := LoweredBy(t.active, |gone|),
       sessions := seq(|t.sessions|, k requires 0 <= k < |t.sessions| =>
         if exists id | id in t.clients :: id in gone && t.clients[id] == k then ClosedOnce(t.sessions[k]) else t.sessions[k]))
  }

  /** One turn of the sweep's loop. */
  function SweptOne(t: Table, id: Id, now: Time): Table
    requires Indexed(t) && id in t.clients
  {
    var k := t.clients[id];
    if Expired(t.sessions[k], now)
    then t.(clients := t.clients - {id}, active := Lowered(t.active), sessions := t.sessions[k := ClosedOnce(t.sessions[k])])
    else t
  }

  lemma GoneNext(t: Table, ids: set<Id>, id: Id, now: Time)
    requires Indexed(t) && id in t.clients && id !in ids
    ensures ExpiredIds(t, now) * (ids + {id}) ==
      if Expired(t.sessions[t.clients[id]], now) then ExpiredIds(t, now) * ids + {id} else ExpiredIds(t, now) * ids
    ensures id !in ExpiredIds(t, now) * ids
  {
  }

  lemma SweptNextSession(t: Table, ids: set<Id>, id: Id, now: Time, j: nat)
    requires OneToOne(t) && id in t.clients && id !in ids && j < |t.sessions|
    ensures SweptTo(t, ids, now).sessions[t.clients[id]] == t.sessions[t.clients[id]]
    ensures SweptTo(t, ids + {id}, now).sessions[j] ==
      if j == t.clients[id] && Expired(t.sessions[j], now) then ClosedOnce(t.sessions[j]) else SweptTo(t, ids, now).sessions[j]
  {
    GoneNext(t, ids, id, now);
    var gone, more := ExpiredIds(t, now) * ids, ExpiredIds(t, now) * (ids + {id});
    if j == t.clients[id] {
      if Expired(t.sessions[j], now) { assert id in more; }
    } else if i :| i in t.clients && i in gone && t.clients[i] == j {
      assert i in more;
    }
  }

  lemma LoweredOnce(active: Uint8, n: nat)
    ensures LoweredBy(active, n + 1) == Lowered(LoweredBy(active, n))
  {
  }

  lemma DropOneMore(m: map<Id, nat>, gone: set<Id>, id: Id)
    ensures m - (gone + {id}) == m - gone - {id}
  {
  }

  lemma SweptNextClients(t: Table, ids: set<Id>, id: Id, now: Time)
    requires OneToOne(t) && id in t.clients && id !in ids
    ensures var u, v := SweptTo(t, ids, now), SweptTo(t, ids + {id}, now);
      && Indexed(u) && id in u.clients && u.clients[id] == t.clients[id]
      && v.clients == if Expired(t.sessions[t.clients[id]], now) then u.clients - {id} else u.clients
  {
    GoneNext(t, ids, id, now);
    DropOneMore(t.clients, ExpiredIds(t, now) * ids, id);
  }

  lemma SweptNextActive(t: Table, ids: set<Id>, id: Id, now: Time)
    requires OneToOne(t) && id in t.clients && id !in ids
    ensures var u, v := SweptTo(t, ids, now), SweptTo(t, ids + {id}, now);
      v.active == if Expired(t.sessions[t.clients[id]], now) then Lowered(u.active) else u.active
  {
    GoneNext(t, ids, id, now);
    var gone := ExpiredIds(t, now) * ids;
    assert |gone + {id}| == |gone| + 1;
    LoweredOnce(t.active, |gone|);
  }

  lemma SweptNext(t: Table, ids: set<Id>, id: Id, now: Time)
    requires OneToOne(t) && id in t.clients && id !in ids
    ensures var u := SweptTo(t, ids, now);
      && Indexed(u) && id in u.clients && u.clients[id] == t.clients[id]
      && u.sessions[t.clients[id]] == t.sessions[t.clients[id]]
      && SweptTo(t, ids + {id}, now) == SweptOne(u, id, now)
  {
    var u, v, k := SweptTo(t, ids, now), SweptTo(t, ids + {id}, now), t.clients[id];
    SweptNextClients(t, ids, id, now);
    SweptNextActive(t, ids, id, now);
    SweptNextSession(t, ids, id, now, k);
    var expected := if Expired(t.sessions[k], now) then u.sessions[k := ClosedOnce(t.sessions[k])] else u.sessions;
    forall j | 0 <= j < |t.sessions| ensures v.sessions[j] == expected[j] {
      SweptNextSession(t, ids, id, now, j);
    }
    assert v.sessions == expected;
  }

  /** `SweptNext` in terms of the IDs that remain. */
  lemma SweptOneMore(t: Table, remaining: set<Id>, id: Id, now: Time)
    requires OneToOne(t) && id in remaining && remaining <= t.clients.Keys
    ensures var u := SweptTo(t, t.clients.Keys - remaining, now);
      && Indexed(u) && id in u.clients && u.clients[id] == t.clients[id]
      && u.sessions[t.clients[id]] == t.sessions[t.clients[id]]
      && SweptTo(t, t.clients.Keys - (remaining - {id}), now) == SweptOne(u, id, now)
  {
    SweptNext(t, t.clients.Keys - remaining, id, now);
    assert t.clients.Keys - (remaining - {id}) == t.clients.Keys - remaining + {id};
  }

  lemma SweptStart(t: Table, now: Time)
    requires Indexed(t)
    ensures SweptTo(t, t.clients.Keys - t.clients.Keys, now) == t
  {
    assert t.clients.Keys - t.clients.Keys == {} && ExpiredIds(t, now) * {} == {};
    var u := SweptTo(t, {}, now);
    assert t.clients - {} == t.clients;
    forall k | 0 <= k < |t.sessions| ensures u.sessions[k] == t.sessions[k] {}
    assert u.sessions == t.sessions;
  }

  lemma SweptEndSession(t: Table, now: Time, k: nat)
    requires Indexed(t) && k < |t.sessions|
    ensures SweptTo(t, t.clients.Keys, now).sessions[k] == SweptTable(t, now).sessions[k]
  {
    var gone := ExpiredIds(t, now);
    assert gone * t.clients.Keys == gone;
    if id :| id in t.clients && t.clients[id] == k {
      assert id in gone <==> Expired(t.sessions[k], now);
    }
  }

  lemma SweptEndTable(t: Table, now: Time)
    requires Indexed(t)
    ensures SweptTo(t, t.clients.Keys, now) == SweptTable(t, now)
  {
    assert ExpiredIds(t, now) * t.clients.Keys == ExpiredIds(t, now);
    forall k | 0 <= k < |t.sessions| { SweptEndSession(t, now, k); }
    assert SweptTo(t, t.clients.Keys, now).sessions == SweptTable(t, now).sessions;
  }

  lemma SweptEnd(d: Time, t: Table, now: Time)
    requires Indexed(t) && t.casts == map[] && !t.crashed
    ensures SweptTo(t, t.clients.Keys - {}, now) == Step(d, t, Sweep, now)
  {
    assert t.clients.Keys - {} == t.clients.Keys;
    SweptEndTable(t, now);
  }

  // ----- Shutdown -----

  /** The sessions of `ids` have been closed, and the table not yet replaced. */
  ghost function ClosedTo(t: Table, ids: set<Id>): Table {
    t.(sessions := seq(|t.sessions|, k requires 0 <= k < |t.sessions| =>
      if exists id | id in t.clients :: id in ids && t.clients[id] == k then ClosedOnce(t.sessions[k]) else t.sessions[k]))
  }

  lemma ClosedNext(t: Table, remaining: set<Id>, id: Id)
    requires OneToOne(t) && id in remaining && remaining <= t.clients.Keys
    ensures var u, k := ClosedTo(t, t.clients.Keys - remaining), t.clients[id];
      && k < |t.sessions| && u.sessions[k] == t.sessions[k]
      && ClosedTo(t, t.clients.Keys - (remaining - {id})) == u.(sessions := u.sessions[k := ClosedOnce(t.sessions[k])])
  {
    var ids, more := t.clients.Keys - remaining, t.clients.Keys - (remaining - {id});
    var u, v, k := ClosedTo(t, ids), ClosedTo(t, more), t.clients[id];
    forall j | 0 <= j < |t.sessions| ensures v.sessions[j] == u.sessions[k := ClosedOnce(t.sessions[k])][j] {
      if j == k {
        assert id in more;
      } else if i :| i in t.clients && i in ids && t.clients[i] == j {
        assert i in more;
      }
    }
  }

  lemma ClosedEnds(t: Table)
    requires Indexed(t)
    ensures ClosedTo(t, t.clients.Keys - t.clients.Keys) == t
    ensures ClosedTo(t, t.clients.Keys - {}).(clients := map[]) == ClosedTable(t)
  {
    assert ClosedTo(t, t.clients.Keys - t.clients.Keys).sessions == t.sessions;
    forall k | 0 <= k < |t.sessions|
      ensures ClosedTo(t, t.clients.Keys - {}).sessions[k] == ClosedTable(t).sessions[k]
    {
      if id :| id in t.clients && t.clients[id] == k { assert id in t.clients.Keys - {}; }
    }
    assert ClosedTo(t, t.clients.Keys - {}).sessions == ClosedTable(t).sessions;
  }

  // ----- A caller's two sends -----

  /** The two steps of a parameter-set caller, one right after the other: the second only if the first was accepted. */
  function BothSends(d: Time, t: Table, k: nat, now: Time): Table
    requires Indexed(t) && k < |t.sessions|
  {
    var u := Step(d, t, SendSps(k), now);
    StepKeepsIndexed(d, t, Timed(SendSps(k), now));
    if Takes(t.sessions[k]) then Step(d, u, SendPps(k), now) else u
  }

  lemma BothSendsInPlace(d: Time, t: Table, k: nat, now: Time)
    requires Indexed(t) && k < |t.sessions| && t.sessions[k].closes == 0 && !t.crashed
    ensures var u := Sent(t, k, Sps, now);
      BothSends(d, t, k, now) == if HasRoom(t.sessions[k]) then Sent(u, k, Pps, now) else u
  {
    assert t.owed + multiset{k} - multiset{k} == t.owed;
  }
}
