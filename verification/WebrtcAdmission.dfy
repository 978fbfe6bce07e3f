/** The admission counter of the WebRTC sink, and how long a session is kept. */
module WebrtcAdmission {
  import opened GoInts
  import opened Webrtc
  import opened WebrtcRuns
  import opened WebrtcCounts

  // ----- The one-sided counter -----

  const IsConnected: Session -> nat := (s: Session) => if s.state == Connected then 1 else 0

  function ConnectedCount(t: Table): nat {
    Total(t.sessions, IsConnected)
  }

  /** The counter claims no more connections than there are sessions in state Connected. */
  ghost predicate Bounded(t: Table) {
    t.active <= ConnectedCount(t)
  }

  /** A session leaves Connected for a state that no counter reflects, or is told Connected again. */
  predicate Disorderly(t: Table, e: Event) {
    && Enabled(t, e) && e.Callback? && t.sessions[e.k].state == Connected
    && e.state in {New, Connecting, Connected}
  }

  lemma CallbackCount(t: Table, k: nat, state: ConnectionState)
    requires k < |t.sessions|
    ensures ConnectedCount(CalledBack(t, k, state)) ==
      ConnectedCount(t) - (if t.sessions[k].state == Connected then 1 else 0) + (if state == Connected then 1 else 0)
    ensures t.sessions[k].state == Connected ==> ConnectedCount(t) > 0
  {
    var s := t.sessions[k].(state := state);
    TotalUpdate(t.sessions, IsConnected, k, s);
    assert CalledBack(t, k, state).sessions == t.sessions[k := s];
    TotalUpdate(t.sessions, IsConnected, k, t.sessions[k].(state := New));
  }

  lemma OthersKeepActive(d: Time, t: Table, e: Timed)
    requires Indexed(t) && !e.event.Callback? && !e.event.Sweep?
    ensures Step(d, t, e.event, e.now).active == t.active
  {
  }

  lemma OnlyCallbacksRaise(d: Time, t: Table, e: Timed)
    requires Indexed(t) && !(e.event.Callback? && Enabled(t, e.event))
    ensures Step(d, t, e.event, e.now).active <= t.active
  {
    if !e.event.Callback? && !e.event.Sweep? { OthersKeepActive(d, t, e); }
  }

  lemma OthersKeepCount(d: Time, t: Table, e: Timed)
    requires OneToOne(t) && !(e.event.Callback? && Enabled(t, e.event))
    ensures ConnectedCount(Step(d, t, e.event, e.now)) == ConnectedCount(t)
    ensures Step(d, t, e.event, e.now).active <= t.active
  {
    forall k | 0 <= k < |t.sessions| ensures SessionAfter(t, e, k).state == t.sessions[k].state {}
    TotalAfter(d, t, e, IsConnected);
    OnlyCallbacksRaise(d, t, e);
  }

  /**
   From a state within the bound, a step breaks it exactly when it is disorderly and the bound was tight: saturation,
   repeated decrements and the wrap of the byte only ever lower the counter.
   */
  lemma StepKeepsBoundIff(d: Time, t: Table, e: Timed)
    requires OneToOne(t) && Bounded(t)
    ensures Bounded(Step(d, t, e.event, e.now)) <==>
      !(Disorderly(t, e.event) && t.active == ConnectedCount(t) && !(e.event.state == Connected && t.active == 255))
  {
    if e.event.Callback? && Enabled(t, e.event) {
      CallbackCount(t, e.event.k, e.event.state);
    } else {
      OthersKeepCount(d, t, e);
    }
  }

  ghost predicate OrderlyRun(d: Time, ts: seq<Timed>) {
    forall n | 0 <= n < |ts| :: !Disorderly(Run(d, Empty, ts[..n]), ts[n].event)
  }

  lemma OrderlyStep(d: Time, t: Table, e: Timed)
    requires OneToOne(t) && Bounded(t) && !Disorderly(t, e.event)
    ensures Bounded(Step(d, t, e.event, e.now))
  {
    StepKeepsBoundIff(d, t, e);
  }

  lemma OrderlyNext(d: Time, ts: seq<Timed>, k: nat)
    requires k < |ts| && Bounded(Run(d, Empty, ts[..k])) && !Disorderly(Run(d, Empty, ts[..k]), ts[k].event)
    ensures Bounded(Run(d, Empty, ts[..k + 1]))
  {
    RunKeepsLifecycle(d, ts[..k]);
    RunNext(d, ts, k);
    OrderlyStep(d, Run(d, Empty, ts[..k]), ts[k]);
  }

  lemma {:induction false} OrderlyPrefixIsBounded(d: Time, ts: seq<Timed>, k: nat)
    requires OrderlyRun(d, ts) && k <= |ts|
    ensures Bounded(Run(d, Empty, ts[..k]))
  {
    if k == 0 {
    } else {
      OrderlyPrefixIsBounded(d, ts, k - 1);
      OrderlyNext(d, ts, k - 1);
    }
  }

  lemma OrderlyRunIsBounded(d: Time, ts: seq<Timed>)
    requires OrderlyRun(d, ts)
    ensures Bounded(Run(d, Empty, ts))
  {
    OrderlyPrefixIsBounded(d, ts, |ts|);
    assert ts[..|ts|] == ts;
  }

  /** The test of requestHandler. */
  predicate RefusesRequest(limit: Uint8, t: Table) {
    t.active >= limit
  }

  /** A refusal for too many connections means that at least as many sessions as the limit are in state Connected. */
  lemma RefusalMeansFull(d: Time, ts: seq<Timed>, limit: Uint8)
    requires OrderlyRun(d, ts) && RefusesRequest(limit, Run(d, Empty, ts))
    ensures ConnectedCount(Run(d, Empty, ts)) >= limit
  {
    OrderlyRunIsBounded(d, ts);
  }

  lemma CallbackStep(d: Time, t: Table, k: nat, state: ConnectionState, now: Time)
    requires Indexed(t) && k < |t.sessions| && !t.crashed
    ensures Step(d, t, Callback(k, state), now) == CalledBack(t, k, state)
    ensures Indexed(CalledBack(t, k, state)) && !CalledBack(t, k, state).crashed
    ensures |CalledBack(t, k, state).sessions| == |t.sessions| && CalledBack(t, k, state).sessions[k].state == state
    ensures CalledBack(t, k, state).active ==
      if state == Connected then Byte(t.active + 1) else if state in {New, Connecting} then t.active else Lowered(t.active)
    ensures ConnectedCount(CalledBack(t, k, state)) ==
      ConnectedCount(t) - (if t.sessions[k].state == Connected then 1 else 0) + (if state == Connected then 1 else 0)
  {
    CallbackCount(t, k, state);
  }

  /** One session connects and then goes back to Connecting, as after an ICE restart: the counter claims a connection nobody has. */
  lemma RestartBreaksBound(d: Time)
    ensures var ts := [Timed(Create("viewer", 1, true), 0), Timed(Callback(0, Connected), 0), Timed(Callback(0, Connecting), 0)];
      var t := Run(d, Empty, ts);
      t.active == 1 && ConnectedCount(t) == 0 && RefusesRequest(1, t)
  {
    var create, connect, restart :=
      Timed(Create("viewer", 1, true), 0), Timed(Callback(0, Connected), 0), Timed(Callback(0, Connecting), 0);
    assert [create, connect, restart] == (([] + [create]) + [connect]) + [restart];
    RunAppend(d, Empty, [], create);
    var t := Run(d, Empty, [] + [create]);
    assert t == Created(Empty, d, "viewer", 1, true, 0);
    assert t.sessions == [] + [FreshSession(1, d, 0)];
    TotalAppend([], IsConnected, FreshSession(1, d, 0));
    RunAppend(d, Empty, [] + [create], connect);
    CallbackStep(d, t, 0, Connected, 0);
    RunAppend(d, Empty, ([] + [create]) + [connect], restart);
    CallbackStep(d, CalledBack(t, 0, Connected), 0, Connecting, 0);
  }

  // ----- How long a session is kept -----

  predicate Chronological(ts: seq<Timed>) {
    forall i, j | 0 <= i < j < |ts| :: ts[i].now <= ts[j].now
  }

  lemma {:induction false} RunGrows(d: Time, t: Table, ts: seq<Timed>)
    requires Indexed(t)
    ensures |t.sessions| <= |Run(d, t, ts).sessions|
  {
    if ts == [] {
    } else {
      RunGrows(d, t, ts[..|ts| - 1]);
      StepKeepsIndexed(d, Run(d, t, ts[..|ts| - 1]), ts[|ts| - 1]);
    }
  }

  lemma {:induction false} RunKeepsOneToOne(d: Time, t: Table, ts: seq<Timed>)
    requires OneToOne(t)
    ensures OneToOne(Run(d, t, ts))
  {
    if ts == [] {
    } else {
      RunKeepsOneToOne(d, t, ts[..|ts| - 1]);
      StepKeepsOneToOne(d, Run(d, t, ts[..|ts| - 1]), ts[|ts| - 1]);
    }
  }

  /** Step `n` of the run puts a packet into the queue of session `k`. */
  ghost predicate AcceptsAt(d: Time, t: Table, ts: seq<Timed>, k: nat, n: nat)
    requires Indexed(t) && n < |ts|
  {
    var u := Run(d, t, ts[..n]);
    k < |u.sessions| && Offers(u, ts[n].event, k) && Takes(u.sessions[k])
  }

  lemma ActivityAfter(d: Time, t: Table, e: Timed, k: nat)
    requires Indexed(t) && k < |t.sessions| && t.sessions[k].lastActivity <= e.now
    ensures var s := SessionAfter(t, e, k);
      && t.sessions[k].lastActivity <= s.lastActivity <= e.now && s.ttl == t.sessions[k].ttl
      && (Offers(t, e.event, k) && Takes(t.sessions[k]) ==> s.lastActivity == e.now)
  {
  }

  /** Activity is never older than the last accepted packet. */
  lemma {:induction false} ActivityFollowsPackets(d: Time, t: Table, ts: seq<Timed>, k: nat)
    requires Indexed(t) && k < |t.sessions| && Chronological(ts)
    requires ts != [] ==> t.sessions[k].lastActivity <= ts[0].now
    ensures k < |Run(d, t, ts).sessions|
    ensures var s := Run(d, t, ts).sessions[k];
      && t.sessions[k].lastActivity <= s.lastActivity && s.ttl == t.sessions[k].ttl
      && (ts != [] ==> s.lastActivity <= ts[|ts| - 1].now)
      && (forall n | 0 <= n < |ts| && AcceptsAt(d, t, ts, k, n) :: ts[n].now <= s.lastActivity)
  {
    if ts == [] {
    } else {
      var us, e := ts[..|ts| - 1], ts[|ts| - 1];
      ActivityFollowsPackets(d, t, us, k);
      var u := Run(d, t, us);
      ActivityAfter(d, u, e, k);
      StepOnSession(d, u, e, k);
      forall n | 0 <= n < |ts| && AcceptsAt(d, t, ts, k, n) ensures ts[n].now <= Run(d, t, ts).sessions[k].lastActivity {
        assert ts[..|us|] == us;
        if n < |us| {
          assert us[..n] == ts[..n] && us[n] == ts[n];
          assert AcceptsAt(d, t, us, k, n);
        }
      }
    }
  }

  /** At every sweep of the run the session's last activity before the run, or a packet accepted in it, is at most its ttl old. */
  ghost predicate KeptAlive(d: Time, t: Table, ts: seq<Timed>, k: nat)
    requires Indexed(t) && k < |t.sessions|
  {
    forall n | 0 <= n < |ts| && ts[n].event.Sweep? ::
      || ts[n].now - t.sessions[k].lastActivity <= t.sessions[k].ttl
      || exists m | 0 <= m < n :: AcceptsAt(d, t, ts, k, m) && ts[n].now - ts[m].now <= t.sessions[k].ttl
  }

  lemma NotExpired(d: Time, t: Table, ts: seq<Timed>, k: nat)
    requires Indexed(t) && k < |t.sessions| && Chronological(ts) && ts != [] && ts[|ts| - 1].event.Sweep?
    requires t.sessions[k].lastActivity <= ts[0].now && KeptAlive(d, t, ts, k)
    ensures var u := Run(d, t, ts[..|ts| - 1]); k < |u.sessions| && !Expired(u.sessions[k], ts[|ts| - 1].now)
  {
    var us, now := ts[..|ts| - 1], ts[|ts| - 1].now;
    ActivityFollowsPackets(d, t, us, k);
    if now - t.sessions[k].lastActivity > t.sessions[k].ttl {
      var m :| 0 <= m < |us| && AcceptsAt(d, t, ts, k, m) && now - ts[m].now <= t.sessions[k].ttl;
      assert us[..m] == ts[..m] && us[m] == ts[m];
      assert AcceptsAt(d, t, us, k, m);
    }
  }

  lemma KeptAlivePrefix(d: Time, t: Table, ts: seq<Timed>, k: nat)
    requires Indexed(t) && k < |t.sessions| && KeptAlive(d, t, ts, k) && ts != []
    ensures KeptAlive(d, t, ts[..|ts| - 1], k)
  {
    var us := ts[..|ts| - 1];
    forall n | 0 <= n < |us| && us[n].event.Sweep?
      ensures us[n].now - t.sessions[k].lastActivity <= t.sessions[k].ttl
        || exists m | 0 <= m < n :: AcceptsAt(d, t, us, k, m) && us[n].now - us[m].now <= t.sessions[k].ttl
    {
      assert ts[n] == us[n];
      if us[n].now - t.sessions[k].lastActivity > t.sessions[k].ttl {
        var m :| 0 <= m < n && AcceptsAt(d, t, ts, k, m) && ts[n].now - ts[m].now <= t.sessions[k].ttl;
        assert us[..m] == ts[..m] && us[m] == ts[m];
        assert AcceptsAt(d, t, us, k, m);
      }
    }
  }

  /** A session whose accepted packets are never further apart than its ttl survives every sweep. */
  lemma {:induction false} ActiveSessionSurvives(d: Time, t: Table, ts: seq<Timed>, k: nat)
    requires OneToOne(t) && k < |t.sessions| && InTable(t, k) && Chronological(ts)
    requires ts != [] ==> t.sessions[k].lastActivity <= ts[0].now
    requires KeptAlive(d, t, ts, k) && forall n | 0 <= n < |ts| :: !ts[n].event.Close?
    ensures InTable(Run(d, t, ts), k)
  {
    if ts == [] {
    } else {
      var us, e := ts[..|ts| - 1], ts[|ts| - 1];
      KeptAlivePrefix(d, t, ts, k);
      ActiveSessionSurvives(d, t, us, k);
      ActivityFollowsPackets(d, t, us, k);
      RunKeepsOneToOne(d, t, us);
      var u := Run(d, t, us);
      if e.event.Sweep? { NotExpired(d, t, ts, k); }
      InTableAfter(d, u, e, k);
    }
  }
}
