/** The periodic sweep: a filter of the visible registry, absorbing, and timely. */
module RtspSweep {
  import opened Numbers
  import opened RtspActivity
  import opened RtspRegistry
  import opened RtspRuns

  /** The registry as a lookup sees it. */
  function Visible(r: Registry): map<Path, Info>
    requires Indexed(r)
  {
    map p | p in r.streams :: r.infos[r.streams[p]]
  }

  /** The specification of a sweep: drop the silent streams, and from the others drop the silent clients. */
  function Filtered(c: Config, m: map<Path, Info>, now: Time): map<Path, Info> {
    map p | p in m && now - m[p].publisherLastActive <= c.publisherTimeout ::
      m[p].(clients := map id | id in m[p].clients && now - m[p].clients[id].lastActive <= c.clientTimeout :: m[p].clients[id])
  }

  lemma PathIsFiltered(c: Config, r: Registry, now: Time, p: Path)
    requires OneToOne(r)
    ensures var s, m := SweptAll(c, r, now), Filtered(c, Visible(r), now);
      (p in Visible(s) <==> p in m) && (p in m ==> Visible(s)[p] == m[p])
  {
    if p in r.streams { assert Registered(r, r.streams[p]); }
  }

  lemma VisibleIsFiltered(c: Config, r: Registry, now: Time)
    requires OneToOne(r)
    ensures Visible(SweptAll(c, r, now)) == Filtered(c, Visible(r), now)
  {
    var m, n := Visible(SweptAll(c, r, now)), Filtered(c, Visible(r), now);
    forall p ensures (p in m <==> p in n) && (p in n ==> m[p] == n[p]) { PathIsFiltered(c, r, now, p); }
  }

  lemma SweepIsFilter(c: Config, r: Registry, now: Time)
    requires OneToOne(r)
    ensures Visible(SweptAll(c, r, now)) == Filtered(c, Visible(r), now)
    ensures forall k | 0 <= k < |r.infos| && !Registered(r, k) :: SweptAll(c, r, now).infos[k] == r.infos[k]
  {
    VisibleIsFiltered(c, r, now);
  }

  /** A client that a sweep at t1 takes from a stream which a sweep at t2 removes altogether. */
  ghost predicate PrunedThenClosed(c: Config, info: Info, t1: Time, t2: Time) {
    && !PublisherExpired(c, info, t1) && PublisherExpired(c, info, t2)
    && exists id | id in info.clients :: ClientExpired(c, info.clients[id], t1)
  }

  lemma SweptTwice(c: Config, info: Info, t1: Time, t2: Time)
    requires t1 <= t2
    ensures !PublisherExpired(c, info, t1) ==>
      (Swept(c, Swept(c, info, t1), t2) == Swept(c, info, t2) <==> !PrunedThenClosed(c, info, t1, t2))
    ensures !PublisherExpired(c, info, t1) ==>
      Swept(c, Swept(c, info, t1), t2).(clients := map[]) == Swept(c, info, t2).(clients := map[])
  {
    if !PublisherExpired(c, info, t1) {
      var twice, once := Swept(c, Swept(c, info, t1), t2), Swept(c, info, t2);
      if PublisherExpired(c, info, t2) {
        if id :| id in info.clients && ClientExpired(c, info.clients[id], t1) {
          assert id in once.clients && id !in twice.clients;
        } else {
          assert Pruned(c, info, t1).clients == info.clients;
        }
      } else {
        assert twice.clients == once.clients;
      }
    }
  }

  lemma SweptTwicePaths(c: Config, r: Registry, t1: Time, t2: Time)
    requires OneToOne(r) && t1 <= t2
    ensures SweptAll(c, SweptAll(c, r, t1), t2).streams == SweptAll(c, r, t2).streams
  {
    var first, once := SweptAll(c, r, t1), SweptAll(c, r, t2);
    var twice := SweptAll(c, first, t2);
    forall p
      ensures p in twice.streams <==> p in once.streams
      ensures p in twice.streams ==> twice.streams[p] == once.streams[p]
    {
      if p in r.streams { assert Registered(r, r.streams[p]); }
    }
  }

  lemma SweptTwiceInfo(c: Config, r: Registry, t1: Time, t2: Time, k: nat)
    requires OneToOne(r) && t1 <= t2 && k < |r.infos|
    ensures var twice, once := SweptAll(c, SweptAll(c, r, t1), t2).infos[k], SweptAll(c, r, t2).infos[k];
      && twice.(clients := map[]) == once.(clients := map[])
      && (twice == once <==> !(Registered(r, k) && PrunedThenClosed(c, r.infos[k], t1, t2)))
      && (!PublisherExpired(c, r.infos[k], t2) ==> twice == once)
  {
    var first := SweptAll(c, r, t1);
    RegisteredAfter(c, r, Timed(Sweep, t1), k);
    SweptTwice(c, r.infos[k], t1, t2);
  }

  lemma VisibleAlike(r: Registry, s: Registry)
    requires Indexed(r) && Indexed(s) && r.streams == s.streams
    requires forall p | p in s.streams :: r.infos[s.streams[p]] == s.infos[s.streams[p]]
    ensures Visible(r) == Visible(s)
  {
  }

  lemma SweptTwiceVisible(c: Config, r: Registry, t1: Time, t2: Time)
    requires OneToOne(r) && t1 <= t2
    ensures Visible(SweptAll(c, SweptAll(c, r, t1), t2)) == Visible(SweptAll(c, r, t2))
  {
    var twice, once := SweptAll(c, SweptAll(c, r, t1), t2), SweptAll(c, r, t2);
    SweptTwicePaths(c, r, t1, t2);
    forall p | p in once.streams ensures twice.infos[once.streams[p]] == once.infos[once.streams[p]] {
      SweptTwiceInfo(c, r, t1, t2, r.streams[p]);
    }
    VisibleAlike(twice, once);
  }

  /**
   A later sweep absorbs an earlier one: the same streams are visible with the same clients, and every stream and
   publisher was closed as often.  The records agree altogether exactly when no stream lost a client at t1 and was
   removed at t2; such a detached record keeps the clients it had when it was removed.
   */
  lemma SweepAbsorbs(c: Config, r: Registry, t1: Time, t2: Time)
    requires OneToOne(r) && t1 <= t2
    ensures var twice, once := SweptAll(c, SweptAll(c, r, t1), t2), SweptAll(c, r, t2);
      && Visible(twice) == Visible(once) && twice.streams == once.streams
      && (forall k | 0 <= k < |r.infos| :: twice.infos[k].(clients := map[]) == once.infos[k].(clients := map[]))
      && (twice.infos == once.infos <==> forall p | p in r.streams :: !PrunedThenClosed(c, r.infos[r.streams[p]], t1, t2))
  {
    var twice, once := SweptAll(c, SweptAll(c, r, t1), t2), SweptAll(c, r, t2);
    SweptTwicePaths(c, r, t1, t2);
    forall k | 0 <= k < |r.infos|
      ensures twice.infos[k].(clients := map[]) == once.infos[k].(clients := map[])
      ensures twice.infos[k] == once.infos[k] <==> !(Registered(r, k) && PrunedThenClosed(c, r.infos[k], t1, t2))
      ensures !PublisherExpired(c, r.infos[k], t2) ==> twice.infos[k] == once.infos[k]
    {
      SweptTwiceInfo(c, r, t1, t2, k);
    }
    SweptTwiceVisible(c, r, t1, t2);
    if twice.infos == once.infos {
      forall p | p in r.streams ensures !PrunedThenClosed(c, r.infos[r.streams[p]], t1, t2) {
        assert Registered(r, r.streams[p]);
      }
    } else {
      var k :| 0 <= k < |r.infos| && twice.infos[k] != once.infos[k];
    }
  }

  /** Where no stream loses a client, the two agree altogether: in every ordered state, under the default timeouts. */
  lemma OrderedSweepsAbsorb(c: Config, r: Registry, t1: Time, t2: Time, lag: nat)
    requires OneToOne(r) && Ordered(r, lag) && c.publisherTimeout + lag <= c.clientTimeout && t1 <= t2
    ensures SweptAll(c, SweptAll(c, r, t1), t2) == SweptAll(c, r, t2)
  {
    SweepAbsorbs(c, r, t1, t2);
    forall p | p in r.streams ensures !PrunedThenClosed(c, r.infos[r.streams[p]], t1, t2) {
      assert InfoOrdered(r.infos[r.streams[p]], lag);
    }
  }

  predicate Absorbs(c: Config, r: Registry, t1: Time, t2: Time)
    requires Indexed(r)
  {
    SweptAll(c, SweptAll(c, r, t1), t2) == SweptAll(c, r, t2)
  }

  /** In every run whose setups take at most `lag`, two sweeps in a row leave exactly what the later one alone leaves. */
  ghost predicate AlwaysAbsorbs(c: Config, lag: nat) {
    forall ts: seq<Timed>, t1, t2 | Precedes(ts, t1, lag) && t1 <= t2 :: Absorbs(c, Run(c, Empty, ts), t1, t2)
  }

  lemma PatientSweepsAbsorb(c: Config, ts: seq<Timed>, t1: Time, t2: Time, lag: nat)
    requires Patient(c, lag) && Precedes(ts, t1, lag) && t1 <= t2
    ensures Absorbs(c, Run(c, Empty, ts), t1, t2)
  {
    var r := Run(c, Empty, ts);
    RunKeepsInv(c, Empty, ts);
    if c.maxStreams <= 0 {
      EmptyWithoutCapacity(c, ts);
    } else if c.publisherTimeout < 0 {
      RunIsPast(c, ts, t1);
      SweepAbsorbs(c, r, t1, t2);
    } else {
      RunsAreOrdered(c, ts, lag);
      OrderedSweepsAbsorb(c, r, t1, t2, lag);
    }
  }

  /** The viewer that a sweep evicts is missing from the record that the next sweep detaches. */
  lemma LateViewerIsNotAbsorbed(c: Config, lag: nat)
    requires !Patient(c, lag)
    ensures var now := lag + c.publisherTimeout; !Absorbs(c, Run(c, Empty, LateViewer(lag)), now, now + 1)
  {
    var r, now := Run(c, Empty, LateViewer(lag)), lag + c.publisherTimeout;
    LateViewerRun(c, lag);
    SweepAbsorbs(c, r, now, now + 1);
    assert "viewer" in r.infos[0].clients;
    assert PrunedThenClosed(c, r.infos[r.streams["stream"]], now, now + 1);
  }

  /** The exact condition on a configuration: it is the one under which no sweep ever evicts. */
  lemma AlwaysAbsorbsIff(c: Config, lag: nat)
    ensures AlwaysAbsorbs(c, lag) <==> Patient(c, lag)
  {
    if Patient(c, lag) {
      forall ts: seq<Timed>, t1, t2 | Precedes(ts, t1, lag) && t1 <= t2 ensures Absorbs(c, Run(c, Empty, ts), t1, t2) {
        PatientSweepsAbsorb(c, ts, t1, t2, lag);
      }
    } else {
      LateViewerIsEvicted(c, lag);
      LateViewerIsNotAbsorbed(c, lag);
    }
  }

  // ----- How soon a silent stream is gone -----

  function LastSweep(ts: seq<Timed>, start: Time): Time {
    if ts == [] then start
    else if ts[|ts| - 1].event.Sweep? then ts[|ts| - 1].now
    else LastSweep(ts[..|ts| - 1], start)
  }

  /** The clock starts at `start`, never goes back, and no moment is more than `period` after the last sweep. */
  predicate SweptEvery(ts: seq<Timed>, start: Time, period: Time) {
    ts != [] ==>
      var us, t := ts[..|ts| - 1], ts[|ts| - 1];
      && SweptEvery(us, start, period)
      && (if us == [] then start else us[|us| - 1].now) <= t.now <= LastSweep(us, start) + period
  }

  /** Every registered publisher was last active at most its timeout before `last`. */
  ghost predicate SweptWithin(c: Config, r: Registry, last: Time) {
    forall k | 0 <= k < |r.infos| && Registered(r, k) :: last - r.infos[k].publisherLastActive <= Max(c.publisherTimeout, 0)
  }

  lemma StepKeepsSweptWithin(c: Config, r: Registry, t: Timed, last: Time)
    requires OneToOne(r) && SweptWithin(c, r, last) && last <= t.now
    ensures SweptWithin(c, Step(c, r, t.event, t.now), if t.event.Sweep? then t.now else last)
  {
    var s := Step(c, r, t.event, t.now);
    forall k | 0 <= k < |s.infos| && Registered(s, k)
      ensures (if t.event.Sweep? then t.now else last) - s.infos[k].publisherLastActive <= Max(c.publisherTimeout, 0)
    {
      if k < |r.infos| {
        RegisteredAfter(c, r, t, k);
        StepActivity(c, r, t, k);
      }
    }
  }

  lemma {:induction false} RecentlySwept(c: Config, ts: seq<Timed>, start: Time, period: Time)
    requires SweptEvery(ts, start, period)
    ensures ts != [] ==> LastSweep(ts, start) <= ts[|ts| - 1].now
    ensures OneToOne(Run(c, Empty, ts)) && SweptWithin(c, Run(c, Empty, ts), LastSweep(ts, start))
  {
    if ts == [] {
    } else {
      var us, t := ts[..|ts| - 1], ts[|ts| - 1];
      RecentlySwept(c, us, start, period);
      StepKeepsOneToOne(c, Run(c, Empty, us), t);
      StepKeepsSweptWithin(c, Run(c, Empty, us), t, LastSweep(us, start));
    }
  }

  /**
   With a sweep at least every `period`, at any moment up to the next sweep no stream is registered whose publisher
   has been silent for longer than its timeout plus one period.
   */
  lemma SilentStreamIsGone(c: Config, ts: seq<Timed>, start: Time, period: Time, now: Time, k: nat)
    requires 0 <= c.publisherTimeout && SweptEvery(ts, start, period)
    requires now <= LastSweep(ts, start) + period
    requires k < |Run(c, Empty, ts).infos|
    requires now - Run(c, Empty, ts).infos[k].publisherLastActive > c.publisherTimeout + period
    ensures !Registered(Run(c, Empty, ts), k) && Run(c, Empty, ts).infos[k].streamCloses == 1
  {
    RecentlySwept(c, ts, start, period);
    RunKeepsInv(c, Empty, ts);
  }

  // ----- Which stream is never swept -----

  function LastPacket(ts: seq<Timed>, k: nat, start: Time): Time {
    if ts == [] then start
    else if ts[|ts| - 1].event == Packet(k) then ts[|ts| - 1].now
    else LastPacket(ts[..|ts| - 1], k, start)
  }

  lemma {:induction false} ActivityIsLastPacket(c: Config, r: Registry, ts: seq<Timed>, k: nat)
    requires Indexed(r) && k < |r.infos|
    ensures k < |Run(c, r, ts).infos|
    ensures Run(c, r, ts).infos[k].publisherLastActive == LastPacket(ts, k, r.infos[k].publisherLastActive)
    ensures Run(c, r, ts).infos[k].publisher == r.infos[k].publisher
  {
    if ts == [] {
    } else {
      ActivityIsLastPacket(c, r, ts[..|ts| - 1], k);
      StepActivity(c, Run(c, r, ts[..|ts| - 1]), ts[|ts| - 1], k);
    }
  }

  /** Nothing but silence can take stream `k` of `path` away during `ts`. */
  predicate Undisturbed(ts: seq<Timed>, path: Path, publisher: SessionId) {
    forall n | 0 <= n < |ts| ::
      match ts[n].event
      case Announce(p, _) => p != path
      case SessionClose(session, data) => data.Entries? ==> session != publisher
      case Shutdown => false
      case _ => true
  }

  /** An announce elsewhere never removes the stream that was created under `path`. */
  lemma {:induction false} RemovalNeedsThePath(c: Config, r: Registry, ts: seq<Timed>, t: Timed, path: Path)
    requires OneToOne(r) && path in r.streams && t.event.Announce? && t.event.path != path
    ensures r.streams[path] < |Run(c, r, ts).infos| && !Removes(c, Run(c, r, ts), t, r.streams[path])
  {
    RunGrows(c, r, ts);
    RegisteredUntilRemoved(c, r, ts, path);
  }

  /** An undisturbed stream survives a run exactly when every sweep finds its last packet within the timeout. */
  lemma SurvivesIffActive(c: Config, r: Registry, ts: seq<Timed>, path: Path)
    requires OneToOne(r) && path in r.streams && Undisturbed(ts, path, r.infos[r.streams[path]].publisher)
    ensures var s, k := Run(c, r, ts), r.streams[path];
      (path in s.streams && s.streams[path] == k) <==>
      forall n | 0 <= n < |ts| && ts[n].event.Sweep? ::
        ts[n].now - LastPacket(ts[..n], k, r.infos[k].publisherLastActive) <= c.publisherTimeout
  {
    var k := r.streams[path];
    var start := r.infos[k].publisherLastActive;
    RegisteredUntilRemoved(c, r, ts, path);
    forall n | 0 <= n < |ts|
      ensures k < |Run(c, r, ts[..n]).infos|
      ensures Removes(c, Run(c, r, ts[..n]), ts[n], k) ==>
        ts[n].event.Sweep? && ts[n].now - LastPacket(ts[..n], k, start) > c.publisherTimeout
      ensures ts[n].event.Sweep? && ts[n].now - LastPacket(ts[..n], k, start) > c.publisherTimeout ==>
        Removes(c, Run(c, r, ts[..n]), ts[n], k)
    {
      ActivityIsLastPacket(c, r, ts[..n], k);
      if ts[n].event.Announce? {
        RemovalNeedsThePath(c, r, ts[..n], ts[n], path);
      }
    }
  }
}
