/** A broadcast under interleaving: what happens between its begin and its end, whatever else runs in between. */
module WebrtcBroadcasts {
  import opened Webrtc
  import opened WebrtcRuns

  /** The step is a send of broadcast `c` to the session under `id`. */
  predicate Sends(t: Table, e: Event, c: nat, id: Id) {
    Enabled(t, e) && e == CastSend(c, id)
  }

  /** The step is a send of broadcast `c` that its session accepts. */
  predicate Delivers(t: Table, e: Event, c: nat)
    requires Indexed(t)
  {
    e.CastSend? && Sends(t, e, c, e.id) && Takes(t.sessions[t.clients[e.id]])
  }

  /** How often the run from `t` sends broadcast `c` to the session under `id`. */
  function SendsTo(d: Time, t: Table, ts: seq<Timed>, c: nat, id: Id): nat
    requires Indexed(t)
  {
    if ts == [] then 0
    else
      var us, e := ts[..|ts| - 1], ts[|ts| - 1].event;
      SendsTo(d, t, us, c, id) + (if Sends(Run(d, t, us), e, c, id) then 1 else 0)
  }

  /** How many sends of broadcast `c` the sessions accept in the run from `t`. */
  function Deliveries(d: Time, t: Table, ts: seq<Timed>, c: nat): nat
    requires Indexed(t)
  {
    if ts == [] then 0
    else
      var us, e := ts[..|ts| - 1], ts[|ts| - 1].event;
      Deliveries(d, t, us, c) + (if Delivers(Run(d, t, us), e, c) then 1 else 0)
  }

  /** Broadcast `c` is in progress all along the run from `t`. */
  predicate InProgress(d: Time, t: Table, ts: seq<Timed>, c: nat)
    requires Indexed(t)
  {
    c in Run(d, t, ts).casts && (ts == [] || InProgress(d, t, ts[..|ts| - 1], c))
  }

  lemma {:induction false} LifecycleFrom(d: Time, t: Table, ts: seq<Timed>)
    requires Lifecycle(t)
    ensures Lifecycle(Run(d, t, ts))
  {
    if ts == [] {
    } else {
      LifecycleFrom(d, t, ts[..|ts| - 1]);
      StepKeepsLifecycle(d, Run(d, t, ts[..|ts| - 1]), ts[|ts| - 1]);
    }
  }

  lemma OthersLeaveCast(d: Time, t: Table, e: Timed, c: nat)
    requires Indexed(t) && c in t.casts && c in Step(d, t, e.event, e.now).casts && !e.event.CastSend?
    ensures Step(d, t, e.event, e.now).casts[c] == t.casts[c]
  {
  }

  lemma SendOnCast(d: Time, t: Table, e: Timed, c: nat)
    requires Indexed(t) && c in t.casts && e.event.CastSend? && Enabled(t, e.event)
    ensures var before, u := t.casts[c], Step(d, t, e.event, e.now);
      c in u.casts && u.casts[c] ==
        if e.event.c == c then Cast(before.packet, before.todo - {e.event.id}, before.accepted + (if Delivers(t, e.event, c) then 1 else 0))
        else before
  {
  }

  lemma StepOnCast(d: Time, t: Table, e: Timed, c: nat)
    requires Indexed(t) && c in t.casts && c in Step(d, t, e.event, e.now).casts
    ensures var before, after := t.casts[c], Step(d, t, e.event, e.now).casts[c];
      && after.packet == before.packet
      && after.todo == (if e.event.CastSend? && Sends(t, e.event, c, e.event.id) then before.todo - {e.event.id} else before.todo)
      && after.accepted == before.accepted + (if Delivers(t, e.event, c) then 1 else 0)
    ensures e.event.CastSend? && Sends(t, e.event, c, e.event.id) ==> e.event.id in t.casts[c].todo
  {
    if !e.event.CastSend? {
      OthersLeaveCast(d, t, e, c);
    } else if Enabled(t, e.event) {
      SendOnCast(d, t, e, c);
    }
  }

  /** What a broadcast has done on the way: each session it no longer owes the packet was sent it once, the others not yet. */
  lemma {:induction false} Progress(d: Time, t: Table, ts: seq<Timed>, c: nat, id: Id)
    requires Lifecycle(t) && InProgress(d, t, ts, c) && c in t.casts
    ensures var u := Run(d, t, ts);
      && u.clients == t.clients && u.casts[c].packet == t.casts[c].packet && u.casts[c].todo <= t.casts[c].todo
      && SendsTo(d, t, ts, c, id) == (if id in t.casts[c].todo && id !in u.casts[c].todo then 1 else 0)
      && u.casts[c].accepted == t.casts[c].accepted + Deliveries(d, t, ts, c)
  {
    if ts == [] {
    } else {
      var us, e := ts[..|ts| - 1], ts[|ts| - 1];
      Progress(d, t, us, c, id);
      LifecycleFrom(d, t, us);
      var u := Run(d, t, us);
      BroadcastFreezesTable(d, u, e);
      StepOnCast(d, u, e, c);
    }
  }

  function Begun(d: Time, t: Table, c: nat, p: MediaPacket, now: Time): (u: Table)
    requires Indexed(t)
    ensures Indexed(u)
  {
    StepKeepsIndexed(d, t, Timed(CastBegin(c, p), now));
    Step(d, t, CastBegin(c, p), now)
  }

  /**
   Between the begin and the end of a broadcast in any run, with any steps in between: no session enters or leaves the
   table, each session of the table is sent the packet exactly once and nobody else is, and the count on which the
   call's success rests is the number of sessions that accepted it.
   */
  lemma BroadcastSendsOnce(d: Time, before: seq<Timed>, c: nat, p: MediaPacket, now: Time, ts: seq<Timed>, id: Id)
    requires Enabled(Run(d, Empty, before), CastBegin(c, p))
    requires InProgress(d, Begun(d, Run(d, Empty, before), c, p, now), ts, c)
    requires Enabled(Run(d, Begun(d, Run(d, Empty, before), c, p, now), ts), CastEnd(c))
    ensures var t := Run(d, Empty, before);
      var begun := Begun(d, t, c, p, now);
      var u := Run(d, begun, ts);
      && u.clients == t.clients && u.casts[c].packet == p
      && SendsTo(d, begun, ts, c, id) == (if id in t.clients then 1 else 0)
      && u.casts[c].accepted == Deliveries(d, begun, ts, c)
  {
    var t := Run(d, Empty, before);
    RunKeepsLifecycle(d, before);
    StepKeepsLifecycle(d, t, Timed(CastBegin(c, p), now));
    Progress(d, Begun(d, t, c, p, now), ts, c, id);
  }

  /** Such a send appends the packet to the session's accepted ones exactly when there is room, and counts as activity. */
  lemma SendOffersPacket(d: Time, ts: seq<Timed>, e: Timed, c: nat, id: Id)
    requires Sends(Run(d, Empty, ts), e.event, c, id)
    ensures var t := Run(d, Empty, ts);
      && id in t.clients && t.clients[id] < |t.sessions| && c in t.casts
      && t.clients[id] < |Step(d, t, e.event, e.now).sessions|
      && Step(d, t, e.event, e.now).sessions[t.clients[id]] == Offer(t.sessions[t.clients[id]], t.casts[c].packet, e.now)
  {
    var t := Run(d, Empty, ts);
    RunKeepsLifecycle(d, ts);
    assert InTable(t, t.clients[id]);
    StepOnSession(d, t, e, t.clients[id]);
  }
}
