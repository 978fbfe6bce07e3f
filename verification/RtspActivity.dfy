/**
 The order between a publisher's activity and its clients' activity, and what the periodic sweep makes of it.
 */
module RtspActivity {
  import opened RtspRegistry
  import opened RtspRuns

  // ----- Activity order -----

  // OnSetup reads the clock before it adds its client.  `lag` bounds how much time passes in between; with a lag of
  // zero OnSetup is a single step.

  ghost predicate InfoOrdered(info: Info, lag: nat) {
    forall id | id in info.clients :: info.publisherLastActive - lag <= info.clients[id].lastActive
  }

  /** Every client was active no earlier than `lag` before its publisher, in every record ever created. */
  ghost predicate Ordered(r: Registry, lag: nat) {
    forall k | 0 <= k < |r.infos| :: InfoOrdered(r.infos[k], lag)
  }

  ghost predicate Past(r: Registry, now: Time) {
    forall k | 0 <= k < |r.infos| :: r.infos[k].publisherLastActive <= now
  }

  /** A client added by OnSetup was stamped at most `lag` before the publisher's last packet at the moment of adding. */
  predicate Fresh(r: Registry, e: Event, lag: nat) {
    e.SetupUse? && e.target < |r.infos| && e.data.Entries? && e.session != r.infos[e.target].publisher
    ==> r.infos[e.target].publisherLastActive - lag <= e.stamp
  }

  predicate Chronological(ts: seq<Timed>) {
    forall i, j | 0 <= i < j < |ts| :: ts[i].now <= ts[j].now
  }

  /** Every OnSetup adds its client at most `lag` after its stamp. */
  predicate SetupsWithin(ts: seq<Timed>, lag: nat) {
    forall i | 0 <= i < |ts| && ts[i].event.SetupUse? :: ts[i].now - lag <= ts[i].event.stamp <= ts[i].now
  }

  /** A step keeps the order exactly when it adds no stale client. */
  lemma StepKeepsOrderIffFresh(c: Config, r: Registry, t: Timed, lag: nat)
    requires Indexed(r) && Ordered(r, lag) && Past(r, t.now)
    ensures Ordered(Step(c, r, t.event, t.now), lag) <==> Fresh(r, t.event, lag)
  {
    var s := Step(c, r, t.event, t.now);
    if !Fresh(r, t.event, lag) {
      var k := t.event.target;
      assert t.event.data.clientID in s.infos[k].clients;
      assert !InfoOrdered(s.infos[k], lag);
    } else {
      forall k | 0 <= k < |s.infos| ensures InfoOrdered(s.infos[k], lag) {
        if k < |r.infos| {
          assert InfoOrdered(r.infos[k], lag);
          StepOnInfo(c, r, t, k);
        }
      }
    }
  }

  /** Every step of the history was fresh when it was taken. */
  ghost predicate FreshRun(c: Config, ts: seq<Timed>, lag: nat) {
    ts == [] || (FreshRun(c, ts[..|ts| - 1], lag) && Fresh(Run(c, Empty, ts[..|ts| - 1]), ts[|ts| - 1].event, lag))
  }

  /** The order held after every step of the history. */
  ghost predicate OrderedThroughout(c: Config, ts: seq<Timed>, lag: nat) {
    Ordered(Run(c, Empty, ts), lag) && (ts == [] || OrderedThroughout(c, ts[..|ts| - 1], lag))
  }

  lemma StepKeepsPast(c: Config, r: Registry, t: Timed)
    requires Indexed(r) && Past(r, t.now)
    ensures Past(Step(c, r, t.event, t.now), t.now)
  {
  }

  lemma {:induction false} RunIsPast(c: Config, ts: seq<Timed>, now: Time)
    requires Chronological(ts) && (ts != [] ==> ts[|ts| - 1].now <= now)
    ensures Past(Run(c, Empty, ts), now)
  {
    if ts == [] {
    } else {
      var us, t := ts[..|ts| - 1], ts[|ts| - 1];
      if us != [] { assert us[|us| - 1].now <= t.now; }
      RunIsPast(c, us, t.now);
      StepKeepsPast(c, Run(c, Empty, us), t);
    }
  }

  /** The order holds at every point of a run exactly when every client added in it was fresh. */
  lemma {:induction false} RunOrderedIffFresh(c: Config, ts: seq<Timed>, lag: nat)
    requires Chronological(ts)
    ensures FreshRun(c, ts, lag) <==> OrderedThroughout(c, ts, lag)
  {
    if ts == [] {
    } else {
      var us, t := ts[..|ts| - 1], ts[|ts| - 1];
      RunOrderedIffFresh(c, us, lag);
      if us != [] { assert us[|us| - 1].now <= t.now; }
      RunIsPast(c, us, t.now);
      if OrderedThroughout(c, us, lag) { StepKeepsOrderIffFresh(c, Run(c, Empty, us), t, lag); }
    }
  }

  /** A run that starts in an ordered state, no earlier than its activity, keeps the order. */
  lemma {:induction false} OrderedFrom(c: Config, r: Registry, start: Time, ts: seq<Timed>, lag: nat)
    requires Indexed(r) && Ordered(r, lag) && Past(r, start) && Chronological(ts) && SetupsWithin(ts, lag)
    requires ts != [] ==> start <= ts[0].now
    ensures var s := Run(c, r, ts); Ordered(s, lag) && Past(s, if ts == [] then start else ts[|ts| - 1].now)
  {
    if ts == [] {
    } else {
      var us, t := ts[..|ts| - 1], ts[|ts| - 1];
      OrderedFrom(c, r, start, us, lag);
      StepKeepsOrderIffFresh(c, Run(c, r, us), t, lag);
      StepKeepsPast(c, Run(c, r, us), t);
    }
  }

  /**
   On a non-decreasing clock, with no OnSetup taking longer than `lag`, the order holds in every reachable state; with
   handlers as single steps no client is ever less recent than its publisher.
   */
  lemma RunsAreOrdered(c: Config, ts: seq<Timed>, lag: nat)
    requires Chronological(ts) && SetupsWithin(ts, lag)
    ensures Ordered(Run(c, Empty, ts), lag)
  {
    OrderedFrom(c, Empty, if ts == [] then 0 else ts[0].now, ts, lag);
  }

  // ----- A late client -----

  /** A viewer is stamped at 0, a packet arrives at `delay`, and only then the viewer is added. */
  function LateViewer(delay: nat): seq<Timed> {
    [Timed(Announce("stream", 1), 0), Timed(Packet(0), delay), Timed(SetupUse(0, 2, Entries("viewer"), 0), delay)]
  }

  lemma LateViewerRun(c: Config, delay: nat)
    requires 0 < c.maxStreams
    ensures Chronological(LateViewer(delay)) && SetupsWithin(LateViewer(delay), delay)
    ensures var r := Run(c, Empty, LateViewer(delay));
      && OneToOne(r) && r.streams == map["stream" := 0]
      && r.infos == [Info(1, delay, map["viewer" := Client(2, 0)], 0, 0)]
  {
    var ts := LateViewer(delay);
    var us, vs := ts[..2], ts[..1];
    assert ts[..|ts| - 1] == us && us[..|us| - 1] == vs && vs[..|vs| - 1] == [];
    assert Run(c, Empty, vs) == Announced(Empty, "stream", 1, 0);
    assert Run(c, Empty, us).infos == [Info(1, delay, map[], 0, 0)];
  }

  /** The order does break: one nanosecond more than the lag allows is enough. */
  lemma LateViewerBreaksOrder(c: Config, lag: nat)
    requires 0 < c.maxStreams
    ensures Chronological(LateViewer(lag + 1)) && !Ordered(Run(c, Empty, LateViewer(lag + 1)), lag)
  {
    LateViewerRun(c, lag + 1);
    var r := Run(c, Empty, LateViewer(lag + 1));
    assert "viewer" in r.infos[0].clients && !InfoOrdered(r.infos[0], lag);
  }

  // ----- Which sweeps evict a client -----

  /** A sweep keeps stream `k` registered but takes a client from it. */
  ghost predicate Evicts(c: Config, r: Registry, now: Time, k: nat)
    requires Indexed(r)
  {
    k < |r.infos| && Registered(SweptAll(c, r, now), k) && SweptAll(c, r, now).infos[k].clients != r.infos[k].clients
  }

  /** The histories that can lead up to a sweep at `now`. */
  predicate Precedes(ts: seq<Timed>, now: Time, lag: nat) {
    Chronological(ts) && SetupsWithin(ts, lag) && (ts != [] ==> ts[|ts| - 1].now <= now)
  }

  /** No sweep in any run whose setups take at most `lag` takes a client from a stream it keeps. */
  ghost predicate NeverEvicts(c: Config, lag: nat) {
    forall ts: seq<Timed>, now, k: nat | Precedes(ts, now, lag) :: !Evicts(c, Run(c, Empty, ts), now, k)
  }

  /** What has to hold of the configuration: the client timeout covers the publisher's and the lag, or no stream is ever kept. */
  predicate Patient(c: Config, lag: nat) {
    c.maxStreams <= 0 || c.publisherTimeout < 0 || c.publisherTimeout + lag <= c.clientTimeout
  }

  lemma OrderedSweepEvictsNobody(c: Config, r: Registry, now: Time, k: nat, lag: nat)
    requires OneToOne(r) && Ordered(r, lag) && c.publisherTimeout + lag <= c.clientTimeout
    ensures !Evicts(c, r, now, k)
  {
    if k < |r.infos| && Registered(SweptAll(c, r, now), k) {
      RegisteredAfter(c, r, Timed(Sweep, now), k);
      assert InfoOrdered(r.infos[k], lag);
      assert Pruned(c, r.infos[k], now).clients == r.infos[k].clients;
    }
  }

  lemma LateViewerIsEvicted(c: Config, lag: nat)
    requires !Patient(c, lag)
    ensures Precedes(LateViewer(lag), lag + c.publisherTimeout, lag)
    ensures Evicts(c, Run(c, Empty, LateViewer(lag)), lag + c.publisherTimeout, 0)
  {
    LateViewerRun(c, lag);
    var r := Run(c, Empty, LateViewer(lag));
    var s := SweptAll(c, r, lag + c.publisherTimeout);
    assert "stream" in r.streams && "stream" in s.streams;
    assert "viewer" in r.infos[0].clients && "viewer" !in s.infos[0].clients;
  }

  lemma EmptyWithoutCapacity(c: Config, ts: seq<Timed>)
    requires c.maxStreams <= 0
    ensures Run(c, Empty, ts).infos == []
  {
    if ts == [] {
    } else {
      EmptyWithoutCapacity(c, ts[..|ts| - 1]);
    }
  }

  lemma PatientSweepEvictsNobody(c: Config, ts: seq<Timed>, now: Time, k: nat, lag: nat)
    requires Patient(c, lag) && Precedes(ts, now, lag)
    ensures !Evicts(c, Run(c, Empty, ts), now, k)
  {
    var r := Run(c, Empty, ts);
    RunKeepsInv(c, Empty, ts);
    if c.maxStreams <= 0 {
      EmptyWithoutCapacity(c, ts);
    } else if c.publisherTimeout < 0 {
      RunIsPast(c, ts, now);
      if k < |r.infos| { RegisteredAfter(c, r, Timed(Sweep, now), k); }
    } else {
      RunsAreOrdered(c, ts, lag);
      OrderedSweepEvictsNobody(c, r, now, k, lag);
    }
  }

  /** The exact condition on a configuration, as checked before any run. */
  lemma NeverEvictsIff(c: Config, lag: nat)
    ensures NeverEvicts(c, lag) <==> Patient(c, lag)
  {
    if Patient(c, lag) {
      forall ts: seq<Timed>, now, k: nat | Precedes(ts, now, lag) ensures !Evicts(c, Run(c, Empty, ts), now, k) {
        PatientSweepEvictsNobody(c, ts, now, k, lag);
      }
    } else {
      LateViewerIsEvicted(c, lag);
    }
  }

  // ----- How long a viewer stays -----

  predicate Closes(e: Event, id: ClientId) {
    e.SessionClose? && e.data.Entries? && e.data.clientID == id
  }

  lemma ViewerStepStays(c: Config, r: Registry, t: Timed, k: nat, id: ClientId, lag: nat)
    requires OneToOne(r) && Ordered(r, lag) && c.publisherTimeout + lag <= c.clientTimeout && k < |r.infos|
    requires id in r.infos[k].clients && Registered(Step(c, r, t.event, t.now), k) && !Closes(t.event, id)
    ensures id in Step(c, r, t.event, t.now).infos[k].clients
  {
    StepOnInfo(c, r, t, k);
    if t.event.Sweep? { OrderedSweepEvictsNobody(c, r, t.now, k, lag); }
  }

  lemma {:induction false} RunKeepsOneToOne(c: Config, r: Registry, ts: seq<Timed>)
    requires OneToOne(r)
    ensures OneToOne(Run(c, r, ts))
  {
    if ts == [] {
    } else {
      RunKeepsOneToOne(c, r, ts[..|ts| - 1]);
      StepKeepsOneToOne(c, Run(c, r, ts[..|ts| - 1]), ts[|ts| - 1]);
    }
  }

  lemma {:induction false} ViewerStays(c: Config, r: Registry, start: Time, ts: seq<Timed>, k: nat, id: ClientId,
                                              lag: nat)
    requires OneToOne(r) && Ordered(r, lag) && Past(r, start) && Chronological(ts) && SetupsWithin(ts, lag)
    requires ts != [] ==> start <= ts[0].now
    requires c.publisherTimeout + lag <= c.clientTimeout && forall i | 0 <= i < |ts| :: !Closes(ts[i].event, id)
    requires k < |r.infos| && id in r.infos[k].clients && Registered(Run(c, r, ts), k)
    ensures k < |Run(c, r, ts).infos| && id in Run(c, r, ts).infos[k].clients
  {
    if ts == [] {
    } else {
      var us, t := ts[..|ts| - 1], ts[|ts| - 1];
      OrderedFrom(c, r, start, us, lag);
      RunGrows(c, r, us);
      RunKeepsOneToOne(c, r, us);
      RegisteredAfter(c, Run(c, r, us), t, k);
      ViewerStays(c, r, start, us, k, id, lag);
      ViewerStepStays(c, Run(c, r, us), t, k, id, lag);
    }
  }

  /**
   With a client timeout no shorter than the publisher's plus the lag, a viewer that OnSetup adds in any reachable
   state is still a client for as long as its stream is registered and its own session has not closed, however long it
   is silent.
   */
  lemma {:induction false} ViewerStaysWithStream(c: Config, before: seq<Timed>, path: Path, session: SessionId,
                                                 id: ClientId, setup: Timed, after: seq<Timed>, lag: nat)
    requires c.publisherTimeout + lag <= c.clientTimeout
    requires Precedes(before, setup.now, lag) && Chronological(after) && SetupsWithin(after, lag)
    requires setup.event.SetupUse? && setup.now - lag <= setup.event.stamp <= setup.now && (after != [] ==> setup.now <= after[0].now)
    requires forall i | 0 <= i < |after| :: !Closes(after[i].event, id)
    requires var r := Run(c, Empty, before);
      && path in r.streams && r.infos[r.streams[path]].publisher != session
      && setup.event == SetupUse(r.streams[path], session, Entries(id), setup.event.stamp)
      && Registered(Run(c, Step(c, r, setup.event, setup.now), after), r.streams[path])
    ensures var r := Run(c, Empty, before);
      var s := Run(c, Step(c, r, setup.event, setup.now), after);
      r.streams[path] < |s.infos| && id in s.infos[r.streams[path]].clients
  {
    var r := Run(c, Empty, before);
    RunKeepsInv(c, Empty, before);
    RunsAreOrdered(c, before, lag);
    RunIsPast(c, before, setup.now);
    StepKeepsOrderIffFresh(c, r, setup, lag);
    StepKeepsPast(c, r, setup);
    StepKeepsOneToOne(c, r, setup);
    ViewerStays(c, Step(c, r, setup.event, setup.now), setup.now, after, r.streams[path], id, lag);
  }
}
