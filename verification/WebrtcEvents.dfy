/**
 What each step does to the WebRTC sink's sessions and counters, told in terms of times, queues and counts alone, and
 what that adds up to over a run: how long a session is kept, and how soon a silent one is gone.
 */
module WebrtcEvents {
  import opened GoInts
  import opened Numbers
  import opened Webrtc
  import opened WebrtcAdmission
  import opened WebrtcRuns

  /** Every session but the `k`-th is as before. */
  predicate OthersKept(t: Table, u: Table, k: nat) {
    |u.sessions| >= |t.sessions| && forall j | 0 <= j < |t.sessions| && j != k :: u.sessions[j] == t.sessions[j]
  }

  // ----- Creation -----

  /** A request for a known ID makes its session active and changes nothing else. */
  lemma KnownIdEffect(d: Time, t: Table, id: Id, ttl: Time, ok: bool, now: Time)
    requires Indexed(t) && !t.crashed && t.casts == map[] && id in t.clients
    ensures var u, k := Step(d, t, Create(id, ttl, ok), now), t.clients[id];
      |u.sessions| == |t.sessions| && u == t.(sessions := u.sessions) && OthersKept(t, u, k)
      && u.sessions[k] == t.sessions[k].(lastActivity := now)
  {
  }

  /** A request for an unknown ID makes a session with the requested ttl, or the configured one if that is 0, or fails. */
  lemma NewIdEffect(d: Time, t: Table, id: Id, ttl: Time, ok: bool, now: Time)
    requires Indexed(t) && !t.crashed && t.casts == map[] && id !in t.clients
    ensures var u := Step(d, t, Create(id, ttl, ok), now);
      && (!ok ==> u == t)
      && (ok ==>
            && |u.sessions| == |t.sessions| + 1 && OthersKept(t, u, |t.sessions|)
            && u == t.(sessions := u.sessions, clients := t.clients[id := |t.sessions|])
            && u.sessions[|t.sessions|] == Session(if ttl == 0 then d else ttl, now, New, [], 0, [], []))
  {
  }

  // ----- Callbacks, answers and forwarding -----

  /** Connected raises the counter of connections by one, modulo 256; a loss lowers it by one, at least to 0, and counts a failure. */
  lemma CallbackEffect(d: Time, t: Table, k: nat, state: ConnectionState, now: Time)
    requires Indexed(t) && !t.crashed && k < |t.sessions|
    ensures var u := Step(d, t, Callback(k, state), now);
      var lost := state == Disconnected || state == Failed || state == Closed;
      && |u.sessions| == |t.sessions| && OthersKept(t, u, k) && u.sessions[k] == t.sessions[k].(state := state)
      && u == t.(sessions := u.sessions, active := u.active, failed := u.failed)
      && u.active == (if state == Connected then (t.active + 1) % 256 else if lost && t.active > 0 then t.active - 1 else t.active)
      && u.failed == (if lost then (t.failed + 1) % 256 else t.failed)
  {
  }

  lemma AnswerEffect(d: Time, t: Table, k: nat, now: Time)
    requires Indexed(t) && !t.crashed && k < |t.sessions|
    ensures var u := Step(d, t, Answer(k), now);
      |u.sessions| == |t.sessions| && u == t.(sessions := u.sessions) && OthersKept(t, u, k)
      && u.sessions[k] == t.sessions[k].(lastActivity := now)
  {
  }

  /** What a packet's payload weighs; the injected ones are the two parameter sets. */
  lemma PayloadLengths(id: nat, length: nat)
    ensures Length(Media(id, length)) == length && Length(Sps) == 36 && Length(Pps) == 4
  {
  }

  /** The forwarder takes the oldest packet, if there is one, and counts its payload exactly if it was written. */
  lemma TakeEffect(d: Time, t: Table, k: nat, written: bool, now: Time)
    requires Indexed(t) && !t.crashed && k < |t.sessions|
    ensures var u, s := Step(d, t, Take(k, written), now), t.sessions[k];
      && (s.queue == [] ==> u == t)
      && (s.queue != [] ==>
            && |u.sessions| == |t.sessions| && u == t.(sessions := u.sessions, sent := u.sent) && OthersKept(t, u, k)
            && u.sessions[k] == s.(queue := s.queue[1..], taken := s.taken + [Taken(s.queue[0], written)])
            && u.sent == if written then Int64(t.sent + Length(s.queue[0])) else t.sent)
  {
  }

  // ----- Sends -----

  /** A send is accepted exactly if fewer than 1000 packets are queued, and then counts as activity; else nothing happens. */
  lemma SendEffect(d: Time, t: Table, k: nat, p: MediaPacket, now: Time)
    requires Indexed(t) && !t.crashed && k < |t.sessions| && t.sessions[k].closes == 0
    ensures var u, s := Step(d, t, Direct(k, p), now), t.sessions[k];
      && (|s.queue| >= 1000 ==> u == t)
      && (|s.queue| < 1000 ==>
            && |u.sessions| == |t.sessions| && u == t.(sessions := u.sessions) && OthersKept(t, u, k)
            && u.sessions[k] == s.(queue := s.queue + [p], accepted := s.accepted + [p], lastActivity := now))
  {
    if |t.sessions[k].queue| >= 1000 { assert t.sessions[k := t.sessions[k]] == t.sessions; }
  }

  /** A caller's two sends: the PPS is owed from an accepted SPS on until it was tried. */
  lemma ParameterSetEffect(d: Time, t: Table, k: nat, now: Time)
    requires Indexed(t) && !t.crashed && k < |t.sessions| && t.sessions[k].closes == 0
    ensures var u, s := Step(d, t, SendSps(k), now), t.sessions[k];
      && |u.sessions| == |t.sessions|
      && (|s.queue| >= 1000 ==> u == t)
      && (|s.queue| < 1000 ==>
            && u.owed == t.owed + multiset{k}
            && u.sessions[k] == s.(queue := s.queue + [Sps], accepted := s.accepted + [Sps], lastActivity := now))
    ensures var u, s := Step(d, t, SendPps(k), now), t.sessions[k];
      && |u.sessions| == |t.sessions|
      && (k !in t.owed ==> u == t)
      && (k in t.owed ==>
            && u.owed == t.owed - multiset{k}
            && u.sessions[k] == if |s.queue| < 1000
                                then s.(queue := s.queue + [Pps], accepted := s.accepted + [Pps], lastActivity := now)
                                else s)
  {
    if |t.sessions[k].queue| >= 1000 { assert t.sessions[k := t.sessions[k]] == t.sessions; }
  }

  /** A broadcast begins whenever the table is not empty, and with all its sessions ahead of it. */
  lemma CastBeginEffect(d: Time, t: Table, c: nat, p: MediaPacket, now: Time)
    requires Indexed(t) && !t.crashed && c !in t.casts
    ensures Step(d, t, CastBegin(c, p), now) ==
      if t.clients == map[] then t else t.(casts := t.casts[c := Cast(p, t.clients.Keys, 0)])
  {
  }

  // ----- Expiry and shutdown -----

  /** The sessions of the table that have been silent for longer than their ttl. */
  function SilentIds(t: Table, now: Time): set<Id>
    requires Indexed(t)
  {
    set id | id in t.clients && now - t.sessions[t.clients[id]].lastActivity > t.sessions[t.clients[id]].ttl
  }

  /**
   A sweep takes exactly the silent sessions out of the table and closes the channel of each once; the counter goes
   down by one for each, at least to 0.
   */
  lemma SweepEffect(d: Time, t: Table, now: Time)
    requires OneToOne(t) && !t.crashed && t.casts == map[]
    ensures var u := Step(d, t, Sweep, now);
      && u.clients == t.clients - SilentIds(t, now) && |u.sessions| == |t.sessions|
      && u == t.(clients := u.clients, sessions := u.sessions, active := u.active)
      && u.active == Max(t.active - |SilentIds(t, now)|, 0)
      && forall k | 0 <= k < |t.sessions| ::
           u.sessions[k] == t.sessions[k].(closes := t.sessions[k].closes +
             (if InTable(t, k) && now - t.sessions[k].lastActivity > t.sessions[k].ttl then 1 else 0))
  {
    assert SilentIds(t, now) == ExpiredIds(t, now);
  }

  lemma SweepKeepsIff(d: Time, t: Table, now: Time, k: nat)
    requires OneToOne(t) && !t.crashed && t.casts == map[] && k < |t.sessions|
    ensures InTable(Step(d, t, Sweep, now), k) <==> InTable(t, k) && now - t.sessions[k].lastActivity <= t.sessions[k].ttl
  {
    InTableAfter(d, t, Timed(Sweep, now), k);
  }

  lemma CloseEffect(d: Time, t: Table, now: Time)
    requires OneToOne(t) && !t.crashed && t.casts == map[]
    ensures var u := Step(d, t, Close, now);
      && u.clients == map[] && |u.sessions| == |t.sessions| && u == t.(clients := map[], sessions := u.sessions)
      && forall k | 0 <= k < |t.sessions| ::
           u.sessions[k] == t.sessions[k].(closes := t.sessions[k].closes + (if InTable(t, k) then 1 else 0))
  {
  }

  /** While a broadcast holds the read lock, and once the process is dead, none of these three happens. */
  lemma LockedOutEffect(d: Time, t: Table, e: Event, now: Time)
    requires Indexed(t) && (t.crashed || (t.casts != map[] && (e.Create? || e.Sweep? || e.Close?)))
    ensures Step(d, t, e, now) == t
  {
  }

  // ----- How soon a silent session is gone -----

  /** The last time a sweep got hold of the table: it waits while a broadcast reads. */
  function LastSweep(d: Time, ts: seq<Timed>, start: Time): Time {
    if ts == [] then start
    else
      var us, e := ts[..|ts| - 1], ts[|ts| - 1];
      if e.event.Sweep? && Run(d, Empty, us).casts == map[] then e.now else LastSweep(d, us, start)
  }

  /** The clock starts at `start`, never goes back, and no moment is more than `period` after the last sweep. */
  predicate SweptEvery(d: Time, ts: seq<Timed>, start: Time, period: Time) {
    ts != [] ==>
      var us, e := ts[..|ts| - 1], ts[|ts| - 1];
      && SweptEvery(d, us, start, period)
      && (if us == [] then start else us[|us| - 1].now) <= e.now <= LastSweep(d, us, start) + period
  }

  /** Every session of the table was active at most its ttl before `last`. */
  ghost predicate SweptWithin(t: Table, last: Time) {
    forall k | 0 <= k < |t.sessions| && InTable(t, k) :: last - t.sessions[k].lastActivity <= Max(t.sessions[k].ttl, 0)
  }

  lemma TtlIsFixed(t: Table, e: Timed, k: nat)
    requires Indexed(t) && k < |t.sessions|
    ensures var s := SessionAfter(t, e, k);
      s.ttl == t.sessions[k].ttl && (s.lastActivity == t.sessions[k].lastActivity || s.lastActivity == e.now)
  {
  }

  lemma StepKeepsSweptWithin(d: Time, t: Table, e: Timed, last: Time)
    requires OneToOne(t) && SweptWithin(t, last) && last <= e.now
    requires !Step(d, t, e.event, e.now).crashed
    ensures SweptWithin(Step(d, t, e.event, e.now), if e.event.Sweep? && t.casts == map[] then e.now else last)
  {
    var u := Step(d, t, e.event, e.now);
    forall k | 0 <= k < |u.sessions| && InTable(u, k)
      ensures (if e.event.Sweep? && t.casts == map[] then e.now else last) - u.sessions[k].lastActivity <= Max(u.sessions[k].ttl, 0)
    {
      if k < |t.sessions| {
        InTableAfter(d, t, e, k);
        StepOnSession(d, t, e, k);
        TtlIsFixed(t, e, k);
        if e.event.Sweep? && t.casts == map[] { SweepKeepsIff(d, t, e.now, k); }
      } else {
        NewSession(d, t, e, k);
      }
    }
  }

  lemma DeadStaysDead(d: Time, t: Table, e: Timed)
    requires Indexed(t) && t.crashed
    ensures Step(d, t, e.event, e.now).crashed
  {
  }

  lemma {:induction false} RecentlySwept(d: Time, ts: seq<Timed>, start: Time, period: Time)
    requires SweptEvery(d, ts, start, period) && !Run(d, Empty, ts).crashed
    ensures ts != [] ==> LastSweep(d, ts, start) <= ts[|ts| - 1].now
    ensures SweptWithin(Run(d, Empty, ts), LastSweep(d, ts, start))
  {
    if ts == [] {
    } else {
      var us, e := ts[..|ts| - 1], ts[|ts| - 1];
      var t := Run(d, Empty, us);
      RunKeepsLifecycle(d, us);
      if t.crashed { DeadStaysDead(d, t, e); }
      RecentlySwept(d, us, start, period);
      StepKeepsSweptWithin(d, t, e, LastSweep(d, us, start));
    }
  }

  /**
   With a sweep getting hold of the table at least every `period`, at any moment up to the next one no session is in
   the table that has been silent for longer than its ttl plus one period, and its channel was closed exactly once.
   */
  lemma SilentSessionIsGone(d: Time, ts: seq<Timed>, start: Time, period: Time, now: Time, k: nat)
    requires SweptEvery(d, ts, start, period) && !Run(d, Empty, ts).crashed
    requires now <= LastSweep(d, ts, start) + period
    requires k < |Run(d, Empty, ts).sessions|
    requires var s := Run(d, Empty, ts).sessions[k]; now - s.lastActivity > Max(s.ttl, 0) + period
    ensures !InTable(Run(d, Empty, ts), k) && Run(d, Empty, ts).sessions[k].closes == 1
  {
    RecentlySwept(d, ts, start, period);
    RunKeepsLifecycle(d, ts);
  }

  // ----- Which session is kept -----

  /** When the session was last active: requests for its ID, answers, and packets it accepted. */
  ghost function LastActive(d: Time, t: Table, ts: seq<Timed>, k: nat): Time
    requires Indexed(t) && k < |t.sessions|
  {
    if ts == [] then t.sessions[k].lastActivity
    else
      var us, e := ts[..|ts| - 1], ts[|ts| - 1];
      var u := Run(d, t, us);
      var requested := e.event.Create? && u.casts == map[] && e.event.id in u.clients && u.clients[e.event.id] == k;
      if !u.crashed && (requested || e.event == Answer(k) || AcceptsAt(d, t, ts, k, |us|)) then e.now
      else LastActive(d, t, us, k)
  }

  /** No shutdown got hold of the table, and every sweep that did finds the session active within its ttl. */
  ghost predicate Kept(d: Time, t: Table, ts: seq<Timed>, k: nat)
    requires Indexed(t) && k < |t.sessions|
  {
    ts == [] ||
    var us, e := ts[..|ts| - 1], ts[|ts| - 1];
    var u := Run(d, t, us);
    && Kept(d, t, us, k)
    && (!u.crashed && u.casts == map[] ==>
          !e.event.Close? && (e.event.Sweep? ==> e.now - LastActive(d, t, us, k) <= t.sessions[k].ttl))
  }

  lemma ActiveAfter(t: Table, e: Timed, k: nat)
    requires Indexed(t) && k < |t.sessions|
    ensures SessionAfter(t, e, k).lastActivity ==
      if !t.crashed && ((e.event.Create? && t.casts == map[] && e.event.id in t.clients && t.clients[e.event.id] == k)
                        || e.event == Answer(k)
                        || (Offers(t, e.event, k) && Takes(t.sessions[k])))
      then e.now else t.sessions[k].lastActivity
  {
  }

  /** The recorded activity is the last of the session's requests, answers and accepted packets, and its ttl never changes. */
  lemma {:induction false} ActivityIs(d: Time, t: Table, ts: seq<Timed>, k: nat)
    requires Indexed(t) && k < |t.sessions|
    ensures k < |Run(d, t, ts).sessions|
    ensures Run(d, t, ts).sessions[k].lastActivity == LastActive(d, t, ts, k)
    ensures Run(d, t, ts).sessions[k].ttl == t.sessions[k].ttl
  {
    if ts == [] {
    } else {
      var us, e := ts[..|ts| - 1], ts[|ts| - 1];
      ActivityIs(d, t, us, k);
      var u := Run(d, t, us);
      assert ts[..|us|] == us;
      StepOnSession(d, u, e, k);
      TtlIsFixed(u, e, k);
      ActiveAfter(u, e, k);
    }
  }

  lemma StaysIff(d: Time, t: Table, e: Timed, k: nat)
    requires OneToOne(t) && k < |t.sessions|
    ensures InTable(Step(d, t, e.event, e.now), k) <==>
      && InTable(t, k)
      && (!t.crashed && t.casts == map[] ==>
            !e.event.Close? && (e.event.Sweep? ==> e.now - t.sessions[k].lastActivity <= t.sessions[k].ttl))
  {
    InTableAfter(d, t, e, k);
  }

  /** The exact condition for a session to be in the table after a run, over every run. */
  lemma {:induction false} SessionSurvivesIff(d: Time, t: Table, ts: seq<Timed>, k: nat)
    requires OneToOne(t) && k < |t.sessions| && InTable(t, k)
    ensures InTable(Run(d, t, ts), k) <==> Kept(d, t, ts, k)
  {
    if ts == [] {
    } else {
      var us, e := ts[..|ts| - 1], ts[|ts| - 1];
      SessionSurvivesIff(d, t, us, k);
      ActivityIs(d, t, us, k);
      RunKeepsOneToOne(d, t, us);
      StaysIff(d, Run(d, t, us), e, k);
    }
  }

  // ----- Who is refused -----

  /** `n` sessions are requested under different IDs, and then connect, all at time 0. */
  function Requests(ids: seq<Id>): seq<Timed> {
    seq(|ids|, i requires 0 <= i < |ids| => Timed(Create(ids[i], 1, true), 0))
  }

  function Connections(n: nat): seq<Timed> {
    seq(n, i requires 0 <= i < n => Timed(Callback(i, Connected), 0))
  }

  predicate Distinct(ids: seq<Id>) {
    forall i, j | 0 <= i < j < |ids| :: ids[i] != ids[j]
  }

  lemma {:induction false} AllRequested(d: Time, ids: seq<Id>)
    requires Distinct(ids)
    ensures var t := Run(d, Empty, Requests(ids));
      && |t.sessions| == |ids| && t.active == 0 && !t.crashed && t.casts == map[]
      && forall id | id in t.clients :: id in ids
  {
    if ids == [] {
    } else {
      var init, id := ids[..|ids| - 1], ids[|ids| - 1];
      AllRequested(d, init);
      assert Requests(ids) == Requests(init) + [Timed(Create(id, 1, true), 0)];
      RunAppend(d, Empty, Requests(init), Timed(Create(id, 1, true), 0));
      NewIdEffect(d, Run(d, Empty, Requests(init)), id, 1, true, 0);
    }
  }

  lemma OneMoreConnects(d: Time, ts: seq<Timed>, n: nat)
    requires var t := Run(d, Empty, ts); n < |t.sessions| && t.active == n < 255 && !t.crashed
    ensures var t, u := Run(d, Empty, ts), Run(d, Empty, ts + [Timed(Callback(n, Connected), 0)]);
      |u.sessions| == |t.sessions| && u.active == n + 1 && !u.crashed
  {
    RunAppend(d, Empty, ts, Timed(Callback(n, Connected), 0));
    CallbackEffect(d, Run(d, Empty, ts), n, Connected, 0);
  }

  lemma {:induction false} AllConnected(d: Time, ids: seq<Id>, n: nat)
    requires Distinct(ids) && n <= |ids| && n <= 255
    ensures var t := Run(d, Empty, Requests(ids) + Connections(n));
      |t.sessions| == |ids| && t.active == n && !t.crashed
  {
    if n == 0 {
      AllRequested(d, ids);
      assert Requests(ids) + Connections(0) == Requests(ids);
    } else {
      AllConnected(d, ids, n - 1);
      OneMoreConnects(d, Requests(ids) + Connections(n - 1), n - 1);
      assert Requests(ids) + Connections(n) == Requests(ids) + Connections(n - 1) + [Timed(Callback(n - 1, Connected), 0)];
    }
  }

  /** After `n` sessions have connected, the next request is refused exactly if the limit is at most `n`. */
  lemma RefusedFromTheLimitOn(d: Time, ids: seq<Id>, limit: Uint8)
    requires Distinct(ids) && |ids| <= 255
    ensures RefusesRequest(limit, Run(d, Empty, Requests(ids) + Connections(|ids|))) <==> limit <= |ids|
  {
    AllConnected(d, ids, |ids|);
  }
}
