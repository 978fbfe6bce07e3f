/** The relay as an object: handlers update its clients and metrics in place, and are proved against `Relay`. */
module RelayServer {
  import opened GoInts
  import opened Relay

  type Conn = nat

  lemma NothingSent(before: Sint64, length: nat)
    ensures Int64(before + length * 0) == before
  {
    Int64Fits(before);
  }

  /** Host and upgrade are foreign: whether a write succeeds is a predicate on connections, given per call. */
  class Server {
    const limit: Uint8
    var clients: map<ClientId, Conn>
    var nextId: ClientId
    var active: Uint8
    var failed: Uint8
    var sent: Sint64

    constructor (limit: Uint8)
      ensures this.limit == limit && View() == Initial
    {
      this.limit := limit;
      clients, nextId, active, failed, sent := map[], 0, 0, 0, 0;
    }

    /** Between calls no broadcast is in progress. */
    function View(): State
      reads this
    {
      State(clients.Keys, nextId, active, failed, sent, map[])
    }

    /** The admission test and the first increment; a failed upgrade takes the increment back. */
    method UpgradeRequest(upgraded: bool) returns (ok: bool)
      modifies this`active, this`failed
      ensures ok == (Admits(limit, old(View())) && upgraded)
      ensures active == if ok then Byte(old(active) + 1)
                        else if Admits(limit, old(View())) then Byte(Byte(old(active) + 1) - 1)
                        else old(active)
      ensures failed == if ok then old(failed) else Byte(old(failed) + 1)
    {
      if Byte(active + 1) > limit {
        failed := Byte(failed + 1);
        return false;
      }
      active := Byte(active + 1);
      if !upgraded {
        active := Byte(active - 1);
        failed := Byte(failed + 1);
        return false;
      }
      return true;
    }

    /** A client's request up to the point where its handler starts reading. */
    method Admit(conn: Conn, upgraded: bool) returns (ok: bool)
      modifies this
      ensures View() == Step(limit, old(View()), Connect(upgraded))
      ensures ok == (Admits(limit, old(View())) && upgraded)
      ensures clients == if ok then old(clients)[old(nextId) := conn] else old(clients)
    {
      ok := UpgradeRequest(upgraded);
      if ok {
        active := Byte(active + 1);
        var id := nextId;
        nextId := nextId + 1;
        clients := clients[id := conn];
      }
    }

    /** What a client's handler defers: leave the map, then lower the counter once. */
    method Leave(id: ClientId)
      requires id in clients
      modifies this`clients, this`active
      ensures View() == Step(limit, old(View()), Depart(id))
    {
      clients := clients - {id};
      active := Byte(active - 1);
    }

    method Send(conn: Conn, length: nat, writes: Conn -> bool) returns (ok: bool)
      modifies this`sent
      ensures ok == writes(conn) && sent == if ok then Int64(old(sent) + length) else old(sent)
    {
      if !writes(conn) {
        return false;
      }
      sent := Int64(sent + length);
      return true;
    }

    /** A message of a client to the host, if there is one. */
    method SendHost(host: seq<Conn>, length: nat, writes: Conn -> bool) returns (ok: bool)
      modifies this`sent
      ensures ok == (host != [] && writes(host[0]))
      ensures View() == Step(limit, old(View()), ToHost(length, ok))
    {
      if host == [] {
        return false;
      }
      ok := Send(host[0], length, writes);
    }

    /** The clients, each once, in some order. */
    method Snapshot() returns (order: seq<ClientId>)
      ensures (forall id :: id in order <==> id in clients) && |order| == |clients|
      ensures Distinct(order)
    {
      order := [];
      var remaining := clients.Keys;
      while remaining != {}
        invariant remaining <= clients.Keys
        invariant (forall id :: id in order <==> id in clients && id !in remaining) && |order| + |remaining| == |clients.Keys|
        invariant Distinct(order)
      {
        var id :| id in remaining;
        order := order + [id];
        remaining := remaining - {id};
      }
    }

    /** The sends of a broadcast, up to the first that fails. */
    method SendEach(order: seq<ClientId>, length: nat, writes: Conn -> bool) returns (reached: nat)
      requires forall id | id in order :: id in clients
      modifies this`sent
      ensures reached <= |order| && forall i | 0 <= i < reached :: writes(clients[order[i]])
      ensures reached < |order| ==> !writes(clients[order[reached]])
      ensures sent == Int64(old(sent) + length * reached)
    {
      reached := 0;
      NothingSent(sent, length);
      while reached < |order|
        invariant reached <= |order|
        invariant forall i | 0 <= i < reached :: writes(clients[order[i]])
        invariant sent == Int64(old(sent) + length * reached)
      {
        var ok := Send(clients[order[reached]], length, writes);
        if !ok {
          return reached;
        }
        OneMoreSent(old(sent), length, reached);
        reached := reached + 1;
      }
    }

    /**
     A host's message.  The clients are taken in an order the map chooses; the message reaches a duplicate-free
     prefix of it, ending at the first failed write, and every byte counted was delivered.
     */
    method SendAllClients(length: nat, writes: Conn -> bool) returns (order: seq<ClientId>, reached: nat, ok: bool)
      modifies this`sent
      ensures (forall id :: id in order <==> id in clients) && |order| == |clients| && reached <= |order|
      ensures Distinct(order)
      ensures forall i | 0 <= i < reached :: order[i] in clients && writes(clients[order[i]])
      ensures reached < |order| ==> order[reached] in clients && !writes(clients[order[reached]])
      ensures ok <==> clients != map[] && reached == |order|
      ensures View() == if old(clients) == map[] then old(View())
                        else Run(limit, old(View()), WholeCast(0, length, order, reached))
    {
      order := Snapshot();
      if |order| <= 0 {
        return order, 0, false;
      }
      assert Elements(order) == clients.Keys;
      reached := SendEach(order, length, writes);
      WholeCastCounts(limit, old(View()), 0, length, order, reached);
      ok := reached == |order|;
    }

    method Close()
      modifies this
      ensures View() == Step(limit, old(View()), Reset)
    {
      clients := map[];
      active, failed, sent := 0, 0, 0;
    }
  }
}
