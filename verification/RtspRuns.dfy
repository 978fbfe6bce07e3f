/** What the stream registry guarantees over whole runs: conservation, replacement, ordering of timestamps, refinement. */
module RtspRuns {
  import opened RtspRegistry

  // ----- Conservation -----

  /**
   Over every history, each stream ever created is either open and registered under exactly one path, or
   unregistered and closed exactly once; the registry respects its limit.
   */
  lemma StreamConservation(c: Config, ts: seq<Timed>)
    ensures var r := Run(c, Empty, ts);
      && |r.streams| <= (if c.maxStreams < 0 then 0 else c.maxStreams)
      && (forall k | 0 <= k < |r.infos| ::
            || (r.infos[k].streamCloses == 0
                && exists p | p in r.streams && r.streams[p] == k :: forall q | q in r.streams && r.streams[q] == k :: q == p)
            || (r.infos[k].streamCloses == 1 && forall q | q in r.streams :: r.streams[q] != k))
  {
    RunKeepsInv(c, Empty, ts);
    var r := Run(c, Empty, ts);
    forall k | 0 <= k < |r.infos| && r.infos[k].streamCloses == 0
      ensures exists p | p in r.streams && r.streams[p] == k :: forall q | q in r.streams && r.streams[q] == k :: q == p
    {
      var p :| p in r.streams && r.streams[p] == k;
      assert forall q | q in r.streams && r.streams[q] == k :: q == p;
    }
  }

  lemma ShutdownClosesEverything(c: Config, ts: seq<Timed>, now: Time)
    ensures var r := Run(c, Empty, ts + [Timed(Shutdown, now)]);
      r.streams == map[] && forall k | 0 <= k < |r.infos| :: r.infos[k].streamCloses == 1
  {
    var us := ts + [Timed(Shutdown, now)];
    assert us[..|us| - 1] == ts;
    RunKeepsInv(c, Empty, us);
  }

  lemma PublisherNeverItsOwnClient(c: Config, ts: seq<Timed>, k: nat, id: ClientId)
    requires k < |Run(c, Empty, ts).infos| && id in Run(c, Empty, ts).infos[k].clients
    ensures var info := Run(c, Empty, ts).infos[k]; info.clients[id].session != info.publisher
  {
    RunKeepsInv(c, Empty, ts);
    assert Apart(Run(c, Empty, ts).infos[k]);
  }

  /** A step closes exactly the streams it removes, and their publishers unless the publisher itself left. */
  lemma ClosesExactlyWhatItRemoves(c: Config, r: Registry, t: Timed, k: nat)
    requires OneToOne(r) && k < |r.infos|
    ensures var before, after := r.infos[k], Step(c, r, t.event, t.now).infos[k];
      var removed := Registered(r, k) && Removes(c, r, t, k);
      && after.streamCloses == before.streamCloses + (if removed then 1 else 0)
      && after.publisherCloses == before.publisherCloses + (if removed && !t.event.SessionClose? then 1 else 0)
      && after.publisher == before.publisher
  {
    StepOnInfo(c, r, t, k);
    ClosesAfter(c, r, t, k);
  }

  // ----- How long a stream stays -----

  lemma RunGrows(c: Config, r: Registry, ts: seq<Timed>)
    requires Indexed(r)
    ensures |r.infos| <= |Run(c, r, ts).infos|
  {
    if ts == [] {
    } else {
      RunGrows(c, r, ts[..|ts| - 1]);
    }
  }

  /** Some step of the run from `r` removes stream `k`. */
  ghost predicate RemovedDuring(c: Config, r: Registry, ts: seq<Timed>, k: nat)
    requires Indexed(r)
  {
    exists n | 0 <= n < |ts| :: k < |Run(c, r, ts[..n]).infos| && Removes(c, Run(c, r, ts[..n]), ts[n], k)
  }

  lemma RemovedDuringPrefix(c: Config, r: Registry, ts: seq<Timed>, k: nat)
    requires Indexed(r) && ts != [] && k < |r.infos|
    ensures var us := ts[..|ts| - 1];
      k < |Run(c, r, us).infos|
      && (RemovedDuring(c, r, ts, k) <==> RemovedDuring(c, r, us, k) || Removes(c, Run(c, r, us), ts[|ts| - 1], k))
  {
    var us := ts[..|ts| - 1];
    RunGrows(c, r, us);
    forall n | 0 <= n < |us| ensures us[..n] == ts[..n] && us[n] == ts[n] {}
    if n :| 0 <= n < |us| && k < |Run(c, r, us[..n]).infos| && Removes(c, Run(c, r, us[..n]), us[n], k) {
      assert k < |Run(c, r, ts[..n]).infos| && Removes(c, Run(c, r, ts[..n]), ts[n], k);
    }
    if Removes(c, Run(c, r, us), ts[|ts| - 1], k) {
      assert RemovedDuring(c, r, ts, k);
    }
    if RemovedDuring(c, r, ts, k) {
      var n :| 0 <= n < |ts| && k < |Run(c, r, ts[..n]).infos| && Removes(c, Run(c, r, ts[..n]), ts[n], k);
      if n < |us| {
        assert Run(c, r, us[..n]) == Run(c, r, ts[..n]);
      }
    }
  }

  /** A registered stream is still registered after a run, under its path, exactly when no step of the run removed it. */
  lemma {:induction false} RegisteredUntilRemoved(c: Config, r: Registry, ts: seq<Timed>, path: Path)
    requires OneToOne(r) && path in r.streams
    ensures var s, k := Run(c, r, ts), r.streams[path];
      && OneToOne(s)
      && (Registered(s, k) <==> !RemovedDuring(c, r, ts, k))
      && (Registered(s, k) <==> path in s.streams && s.streams[path] == k)
  {
    var k := r.streams[path];
    if ts == [] {
    } else {
      var us, t := ts[..|ts| - 1], ts[|ts| - 1];
      RegisteredUntilRemoved(c, r, us, path);
      RemovedDuringPrefix(c, r, ts, k);
      var q := Run(c, r, us);
      StepKeepsOneToOne(c, q, t);
      RegisteredAfter(c, q, t, k);
      PathsAfter(c, q, t, path);
    }
  }

  lemma {:induction false} PublishersAreFixed(c: Config, r: Registry, ts: seq<Timed>, k: nat)
    requires Indexed(r) && k < |r.infos|
    ensures k < |Run(c, r, ts).infos| && Run(c, r, ts).infos[k].publisher == r.infos[k].publisher
  {
    if ts == [] {
    } else {
      PublishersAreFixed(c, r, ts[..|ts| - 1], k);
      StepActivity(c, Run(c, r, ts[..|ts| - 1]), ts[|ts| - 1], k);
    }
  }

  lemma {:induction false} StaysUnregistered(c: Config, r: Registry, ts: seq<Timed>, k: nat)
    requires OneToOne(r) && k < |r.infos| && !Registered(r, k)
    ensures k < |Run(c, r, ts).infos| && OneToOne(Run(c, r, ts)) && !Registered(Run(c, r, ts), k)
  {
    if ts == [] {
    } else {
      var us, t := ts[..|ts| - 1], ts[|ts| - 1];
      StaysUnregistered(c, r, us, k);
      StepKeepsOneToOne(c, Run(c, r, us), t);
      RegisteredAfter(c, Run(c, r, us), t, k);
    }
  }

  /**
   After another session takes a path over, the close of the displaced publisher's session, whenever it arrives,
   leaves the new stream registered at the path and open.
   */
  lemma DisplacedPublisherIsHarmless(c: Config, r: Registry, path: Path, newcomer: SessionId, now: Time,
                                     ts: seq<Timed>, displaced: SessionId, data: UserData, later: Time)
    requires Inv(c, r) && Accepts(c, r)
    requires path in r.streams && r.infos[r.streams[path]].publisher == displaced && displaced != newcomer
    requires !RemovedDuring(c, Step(c, r, Announce(path, newcomer), now), ts, |r.infos|)
    ensures var s := Run(c, Step(c, r, Announce(path, newcomer), now), ts);
      var after := Step(c, s, SessionClose(displaced, data), later);
      && path in after.streams && after.streams[path] == |r.infos|
      && after.infos[|r.infos|].publisher == newcomer && after.infos[|r.infos|].streamCloses == 0
      && after.infos[r.streams[path]].streamCloses == 1
  {
    var k := |r.infos|;
    var announced := Step(c, r, Announce(path, newcomer), now);
    StepKeepsInv(c, r, Timed(Announce(path, newcomer), now));
    RegisteredUntilRemoved(c, announced, ts, path);
    RunKeepsInv(c, announced, ts);
    var s := Run(c, announced, ts);
    PublishersAreFixed(c, announced, ts, k);
    var t := Timed(SessionClose(displaced, data), later);
    assert !Removes(c, s, t, k);
    PathsAfter(c, s, t, path);
    StepKeepsInv(c, s, t);
    RegisteredAfter(c, r, Timed(Announce(path, newcomer), now), r.streams[path]);
    RunGrows(c, announced, ts);
    StaysUnregistered(c, announced, ts, r.streams[path]);
    RegisteredAfter(c, s, t, r.streams[path]);
    assert Registered(Step(c, s, t.event, t.now), k);
  }

  /**
   With readable user data the close of a session erases it: no registered stream keeps it as publisher or keeps
   its client ID.  Without, the handler returns early and nothing at all is erased.
   */
  lemma SessionErasure(c: Config, r: Registry, session: SessionId, data: UserData, now: Time)
    requires Indexed(r)
    ensures var s := Step(c, r, SessionClose(session, data), now);
      && (data.Entries? ==> forall p | p in s.streams ::
            var info := s.infos[s.streams[p]]; info.publisher != session && data.clientID !in info.clients)
      && (!data.Entries? ==> s == r)
  {
    var s := Step(c, r, SessionClose(session, data), now);
    forall p | data.Entries? && p in s.streams
      ensures var info := s.infos[s.streams[p]]; info.publisher != session && data.clientID !in info.clients
    {
      assert Registered(r, r.streams[p]);
    }
  }
}
