/** What the session table guarantees over whole runs, under every interleaving. */
module WebrtcRuns {
  import opened GoInts
  import opened Webrtc

  // ----- Lifecycle of a session -----

  ghost predicate OneToOne(t: Table) {
    Indexed(t) && forall i, j | i in t.clients && j in t.clients && i != j :: t.clients[i] != t.clients[j]
  }

  /** A session is in the table exactly while its channel is open; a channel is closed once; broadcasts aim at the table. */
  ghost predicate Lifecycle(t: Table) {
    && OneToOne(t)
    && (forall k | 0 <= k < |t.sessions| :: t.sessions[k].closes == if InTable(t, k) then 0 else 1)
    && (forall c | c in t.casts :: t.casts[c].todo <= t.clients.Keys)
  }

  /** The step takes the k-th session out of the table. */
  predicate Removes(t: Table, e: Timed, k: nat)
    requires k < |t.sessions|
  {
    Enabled(t, e.event) && ((e.event.Sweep? && Expired(t.sessions[k], e.now)) || e.event.Close?)
  }

  /** The step puts a new session into the table under `id`. */
  predicate Creates(t: Table, e: Timed, id: Id) {
    Enabled(t, e.event) && e.event.Create? && e.event.id == id && id !in t.clients && e.event.ok
  }

  lemma IdsAfter(d: Time, t: Table, e: Timed, id: Id)
    requires OneToOne(t)
    ensures var u := Step(d, t, e.event, e.now);
      && (id in u.clients <==> (id in t.clients && !Removes(t, e, t.clients[id])) || Creates(t, e, id))
      && (id in u.clients ==> u.clients[id] == if Creates(t, e, id) then |t.sessions| else t.clients[id])
  {
    if !e.event.Create? && !e.event.Sweep? && !e.event.Close? {
      OthersKeepTable(d, t, e);
    }
  }

  lemma StepKeepsOneToOne(d: Time, t: Table, e: Timed)
    requires OneToOne(t)
    ensures OneToOne(Step(d, t, e.event, e.now))
  {
    StepKeepsIndexed(d, t, e);
    forall id { IdsAfter(d, t, e, id); }
  }

  lemma InTableAfter(d: Time, t: Table, e: Timed, k: nat)
    requires OneToOne(t) && k < |t.sessions|
    ensures InTable(Step(d, t, e.event, e.now), k) <==> InTable(t, k) && !Removes(t, e, k)
  {
    forall id { IdsAfter(d, t, e, id); }
  }

  /** The step offers a packet to session `k`. */
  predicate Offers(t: Table, e: Event, k: nat) {
    Enabled(t, e) &&
    match e
    case Direct(j, _) => k == j
    case SendSps(j) => k == j
    case SendPps(j) => k == j
    case CastSend(_, id) => id in t.clients && k == t.clients[id]
    case _ => false
  }

  function OfferedPacket(t: Table, e: Event): Packet {
    match e
    case Direct(_, p) => p
    case SendPps(_) => Pps
    case CastSend(c, _) => if c in t.casts then t.casts[c].packet else Sps
    case _ => Sps
  }

  /** A session after a step: offers on an open channel, forwarding, activity, state and closing, each to its session only. */
  function SessionAfter(t: Table, e: Timed, k: nat): Session
    requires Indexed(t) && k < |t.sessions|
  {
    var s := t.sessions[k];
    if !Enabled(t, e.event) then s
    else if Offers(t, e.event, k) then (if s.closes > 0 then s else Offer(s, OfferedPacket(t, e.event), e.now))
    else
      match e.event
      case Create(id, _, _) => if id in t.clients && t.clients[id] == k then s.(lastActivity := e.now) else s
      case Callback(j, state) => if k == j then s.(state := state) else s
      case Answer(j) => if k == j then s.(lastActivity := e.now) else s
      case Take(j, written) => if k == j then Forward(s, written) else s
      case Sweep => if InTable(t, k) && Expired(s, e.now) then ClosedOnce(s) else s
      case Close => if InTable(t, k) then ClosedOnce(s) else s
      case _ => s
  }

  lemma StepOnSession(d: Time, t: Table, e: Timed, k: nat)
    requires Indexed(t) && k < |t.sessions|
    ensures k < |Step(d, t, e.event, e.now).sessions|
    ensures Step(d, t, e.event, e.now).sessions[k] == SessionAfter(t, e, k)
  {
    StepKeepsIndexed(d, t, e);
    var u := Step(d, t, e.event, e.now);
    match e.event
    case Create(_, _, _) =>
    case Callback(_, _) =>
    case Answer(_) =>
    case Take(_, _) =>
    case Direct(_, _) =>
    case SendSps(_) =>
    case SendPps(_) =>
    case CastBegin(_, _) =>
    case CastSend(_, _) =>
    case CastEnd(_) =>
    case Sweep =>
    case Close =>
  }

  lemma ClosesAfter(d: Time, t: Table, e: Timed, k: nat)
    requires Indexed(t) && k < |t.sessions|
    ensures k < |Step(d, t, e.event, e.now).sessions|
    ensures Step(d, t, e.event, e.now).sessions[k].closes ==
            t.sessions[k].closes + (if InTable(t, k) && Removes(t, e, k) then 1 else 0)
  {
    StepOnSession(d, t, e, k);
  }

  /** While a broadcast holds the read lock, the table keeps its sessions and every one of them its open channel. */
  lemma BroadcastFreezesTable(d: Time, t: Table, e: Timed)
    requires Indexed(t) && t.casts != map[]
    ensures Step(d, t, e.event, e.now).clients == t.clients
  {
    if !e.event.Create? && !e.event.Sweep? && !e.event.Close? {
      OthersKeepTable(d, t, e);
    }
  }

  lemma CastsAfter(d: Time, t: Table, e: Timed, c: nat)
    requires Indexed(t)
    ensures var u := Step(d, t, e.event, e.now);
      c in u.casts ==> u.casts[c].todo <= if c in t.casts then t.casts[c].todo else t.clients.Keys
  {
  }

  lemma NewSession(d: Time, t: Table, e: Timed, k: nat)
    requires OneToOne(t) && |t.sessions| <= k < |Step(d, t, e.event, e.now).sessions|
    ensures k == |t.sessions| && Creates(t, e, e.event.id)
    ensures var u := Step(d, t, e.event, e.now);
      InTable(u, k) && u.sessions[k] == FreshSession(e.event.ttl, d, e.now)
  {
    if !e.event.Create? && !e.event.Sweep? && !e.event.Close? {
      OthersKeepTable(d, t, e);
    }
    IdsAfter(d, t, e, e.event.id);
  }

  lemma FirstCast(d: Time, t: Table, e: Timed, c: nat)
    requires Indexed(t) && t.casts == map[] && c in Step(d, t, e.event, e.now).casts
    ensures Step(d, t, e.event, e.now).clients == t.clients
  {
  }

  lemma StepKeepsLifecycle(d: Time, t: Table, e: Timed)
    requires Lifecycle(t)
    ensures Lifecycle(Step(d, t, e.event, e.now))
  {
    var u := Step(d, t, e.event, e.now);
    StepKeepsOneToOne(d, t, e);
    forall k | 0 <= k < |u.sessions|
      ensures u.sessions[k].closes == if InTable(u, k) then 0 else 1
    {
      if k < |t.sessions| {
        InTableAfter(d, t, e, k);
        ClosesAfter(d, t, e, k);
      } else {
        NewSession(d, t, e, k);
      }
    }
    forall c | c in u.casts ensures u.casts[c].todo <= u.clients.Keys {
      CastsAfter(d, t, e, c);
      if t.casts != map[] {
        BroadcastFreezesTable(d, t, e);
      } else {
        FirstCast(d, t, e, c);
      }
    }
  }

  lemma {:induction false} RunKeepsLifecycle(d: Time, ts: seq<Timed>)
    ensures Lifecycle(Run(d, Empty, ts))
  {
    if ts == [] {
    } else {
      RunKeepsLifecycle(d, ts[..|ts| - 1]);
      StepKeepsLifecycle(d, Run(d, Empty, ts[..|ts| - 1]), ts[|ts| - 1]);
    }
  }

  // ----- Who can send to a closed channel -----

  /** A send by a goroutine that dropped the lock after its lookup. */
  predicate Unlocked(e: Event) {
    e.Direct? || e.SendSps? || e.SendPps?
  }

  function Target(e: Event): nat
    requires Unlocked(e)
  {
    match e case Direct(k, _) => k case SendSps(k) => k case SendPps(k) => k
  }

  /** The process dies in this step exactly when an unlocked send reaches a session that has left the table. */
  lemma CrashesIff(d: Time, t: Table, e: Timed)
    requires Lifecycle(t) && !t.crashed
    ensures Step(d, t, e.event, e.now).crashed <==>
      Enabled(t, e.event) && Unlocked(e.event) && !InTable(t, Target(e.event))
  {
    if e.event.CastSend? && Enabled(t, e.event) {
      assert InTable(t, t.clients[e.event.id]);
    }
  }

  /** Step `n` of the run is the unlocked send, to a session that has left the table, that ends the process. */
  ghost predicate Fatal(d: Time, ts: seq<Timed>, n: nat)
    requires n < |ts|
  {
    var t, e := Run(d, Empty, ts[..n]), ts[n].event;
    Enabled(t, e) && Unlocked(e) && !InTable(t, Target(e))
  }

  lemma StepCrashesIff(d: Time, ts: seq<Timed>, n: nat)
    requires n < |ts|
    ensures Run(d, Empty, ts[..n + 1]).crashed <==> Run(d, Empty, ts[..n]).crashed || Fatal(d, ts, n)
  {
    var t := Run(d, Empty, ts[..n]);
    RunKeepsLifecycle(d, ts[..n]);
    RunNext(d, ts, n);
    if !t.crashed { CrashesIff(d, t, ts[n]); }
  }

  ghost predicate FatalBefore(d: Time, ts: seq<Timed>, k: nat)
    requires k <= |ts|
  {
    exists n | 0 <= n < k :: Fatal(d, ts, n)
  }

  lemma OneMore(d: Time, ts: seq<Timed>, k: nat)
    requires k < |ts|
    ensures FatalBefore(d, ts, k + 1) <==> FatalBefore(d, ts, k) || Fatal(d, ts, k)
  {
    if FatalBefore(d, ts, k + 1) {
      var n :| 0 <= n < k + 1 && Fatal(d, ts, n);
    }
    if FatalBefore(d, ts, k) {
      var n :| 0 <= n < k && Fatal(d, ts, n);
      assert n < k + 1;
    }
  }

  lemma {:induction false} PrefixCrashesIff(d: Time, ts: seq<Timed>, k: nat)
    requires k <= |ts|
    ensures Run(d, Empty, ts[..k]).crashed <==> FatalBefore(d, ts, k)
  {
    if k == 0 {
    } else {
      PrefixCrashesIff(d, ts, k - 1);
      StepCrashesIff(d, ts, k - 1);
      OneMore(d, ts, k - 1);
    }
  }

  /** The exact condition, over every run: the process is dead exactly when some step of the run was fatal. */
  lemma RunCrashesIff(d: Time, ts: seq<Timed>)
    ensures Run(d, Empty, ts).crashed <==> exists n | 0 <= n < |ts| :: Fatal(d, ts, n)
  {
    PrefixCrashesIff(d, ts, |ts|);
    assert ts[..|ts|] == ts;
  }

  /**
   A broadcast, which holds the read lock throughout, never sends to a closed channel, whatever runs beside it: in any
   run each of its sends goes to a session in the table, whose channel is open, and does not end the process.
   */
  lemma LockedSendsNeverCrash(d: Time, ts: seq<Timed>, n: nat)
    requires n < |ts| && ts[n].event.CastSend? && Enabled(Run(d, Empty, ts[..n]), ts[n].event)
    ensures var t, id := Run(d, Empty, ts[..n]), ts[n].event.id;
      id in t.clients && t.clients[id] < |t.sessions| && t.sessions[t.clients[id]].closes == 0
    ensures !Run(d, Empty, ts[..n + 1]).crashed
  {
    var t := Run(d, Empty, ts[..n]);
    RunKeepsLifecycle(d, ts[..n]);
    assert InTable(t, t.clients[ts[n].event.id]);
    StepCrashesIff(d, ts, n);
  }

  lemma ViewerCreated(d: Time)
    ensures var t := Run(d, Empty, [Timed(Create("viewer", 1, true), 0)]);
      t == Empty.(clients := map["viewer" := 0], sessions := [FreshSession(1, d, 0)])
  {
    RunAppend(d, Empty, [], Timed(Create("viewer", 1, true), 0));
    assert [] + [Timed(Create("viewer", 1, true), 0)] == [Timed(Create("viewer", 1, true), 0)];
  }

  lemma ViewerExpires(t: Table, d: Time)
    requires t == Empty.(clients := map["viewer" := 0], sessions := [FreshSession(1, d, 0)])
    ensures SweptTable(t, 5).clients == map[] && SweptTable(t, 5).sessions == [ClosedOnce(FreshSession(1, d, 0))]
    ensures !SweptTable(t, 5).crashed
  {
    assert "viewer" in t.clients && InTable(t, 0) && ExpiredIds(t, 5) == {"viewer"};
  }

  lemma ViewerSwept(d: Time)
    ensures var t := Run(d, Empty, [Timed(Create("viewer", 1, true), 0), Timed(Sweep, 5)]);
      t.clients == map[] && t.sessions == [ClosedOnce(FreshSession(1, d, 0))] && !t.crashed
  {
    var create, sweep := Timed(Create("viewer", 1, true), 0), Timed(Sweep, 5);
    ViewerCreated(d);
    ViewerExpires(Run(d, Empty, [create]), d);
    RunAppend(d, Empty, [create], sweep);
    assert [create] + [sweep] == [create, sweep];
  }

  /** The process can die: a session expires between the lookup of a parameter-set caller and its first send. */
  lemma ExpiryBeforeSendCrashes(d: Time)
    ensures var ts := [Timed(Create("viewer", 1, true), 0), Timed(Sweep, 5), Timed(SendSps(0), 5)];
      Run(d, Empty, ts).crashed && Fatal(d, ts, 2)
  {
    var create, sweep, send := Timed(Create("viewer", 1, true), 0), Timed(Sweep, 5), Timed(SendSps(0), 5);
    ViewerSwept(d);
    assert [create, sweep, send][..2] == [create, sweep];
    StepCrashesIff(d, [create, sweep, send], 2);
    assert [create, sweep, send][..3] == [create, sweep, send];
  }

  /** Every channel is closed exactly once by the time a shutdown is done, however many sweeps and shutdowns there were. */
  lemma ShutdownClosesOnce(d: Time, ts: seq<Timed>, now: Time)
    requires var t := Run(d, Empty, ts); !t.crashed && t.casts == map[]
    ensures var u := Run(d, Empty, ts + [Timed(Close, now)]);
      u.clients == map[] && forall k | 0 <= k < |u.sessions| :: u.sessions[k].closes == 1
  {
    RunAppend(d, Empty, ts, Timed(Close, now));
    RunKeepsLifecycle(d, ts + [Timed(Close, now)]);
  }

  // ----- Queues -----

  function Packets(taken: seq<Taken>): seq<Packet> {
    seq(|taken|, i requires 0 <= i < |taken| => taken[i].packet)
  }

  /** First in, first out: what was taken, then what is queued, is what was accepted; and the bound. */
  ghost predicate Fifo(s: Session) {
    Packets(s.taken) + s.queue == s.accepted && |s.queue| <= CAPACITY
  }

  lemma EffectsKeepFifo(s: Session, p: Packet, now: Time, written: bool)
    requires Fifo(s)
    ensures Fifo(Offer(s, p, now)) && Fifo(Forward(s, written)) && Fifo(ClosedOnce(s))
  {
    if s.queue != [] {
      assert Packets(s.taken + [Taken(s.queue[0], written)]) == Packets(s.taken) + [s.queue[0]];
      assert Forward(s, written).accepted == Packets(s.taken) + ([s.queue[0]] + s.queue[1..]);
    }
  }

  lemma {:induction false} FifoAlways(d: Time, ts: seq<Timed>, k: nat)
    requires k < |Run(d, Empty, ts).sessions|
    ensures Fifo(Run(d, Empty, ts).sessions[k])
  {
    if ts == [] {
    } else {
      var us, e := ts[..|ts| - 1], ts[|ts| - 1];
      var t := Run(d, Empty, us);
      RunKeepsLifecycle(d, us);
      if k < |t.sessions| {
        FifoAlways(d, us, k);
        StepOnSession(d, t, e, k);
        EffectsKeepFifo(t.sessions[k], OfferedPacket(t, e.event), e.now, e.event.Take? && e.event.written);
      } else {
        NewSession(d, t, e, k);
      }
    }
  }
}
