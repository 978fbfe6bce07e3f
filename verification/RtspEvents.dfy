/**
 What each handler of the RTSP server does, told in terms of paths, times and counts alone, and what that adds up to
 over a run: how many streams are let in, and how long a viewer is kept.
 */
module RtspEvents {
  import opened RtspActivity
  import opened RtspRegistry
  import opened RtspRuns

  /** Every record but the `k`-th is as before. */
  predicate OthersKept(r: Registry, s: Registry, k: nat) {
    |s.infos| >= |r.infos| && forall j | 0 <= j < |r.infos| && j != k :: s.infos[j] == r.infos[j]
  }

  // ----- Announces -----

  /** An announce is let in exactly when there are fewer streams than MaxStreams; otherwise nothing changes. */
  lemma AnnounceEffect(c: Config, r: Registry, path: Path, session: SessionId, now: Time)
    requires Indexed(r)
    ensures var s := Step(c, r, Announce(path, session), now);
      && (path in s.streams && s.streams[path] == |r.infos| <==> |r.streams| < c.maxStreams)
      && (|r.streams| >= c.maxStreams ==> s == r)
      && (|r.streams| < c.maxStreams ==>
            && s.streams == r.streams[path := |r.infos|] && |s.infos| == |r.infos| + 1
            && s.infos[|r.infos|] == Info(session, now, map[], 0, 0)
            && OthersKept(r, s, if path in r.streams then r.streams[path] else |r.infos|))
  {
  }

  /** The stream that was at the path is closed once, and its publisher too; its clients stay with the detached record. */
  lemma ReplacedEffect(c: Config, r: Registry, path: Path, session: SessionId, now: Time)
    requires Indexed(r) && path in r.streams && |r.streams| < c.maxStreams
    ensures var s, k := Step(c, r, Announce(path, session), now), r.streams[path];
      k < |s.infos| && s.infos[k] == r.infos[k].(streamCloses := r.infos[k].streamCloses + 1,
                                                 publisherCloses := r.infos[k].publisherCloses + 1)
  {
  }

  predicate DistinctAnnounces(ts: seq<Timed>) {
    && (forall i | 0 <= i < |ts| :: ts[i].event.Announce?)
    && (forall i, j | 0 <= i < j < |ts| :: ts[i].event.path != ts[j].event.path)
  }

  /** The paths of the first `n` announces. */
  function PathsOf(ts: seq<Timed>, n: nat): set<Path>
    requires n <= |ts| && DistinctAnnounces(ts)
  {
    if n == 0 then {} else PathsOf(ts, n - 1) + {ts[n - 1].event.path}
  }

  function Capacity(c: Config, n: nat): nat {
    if c.maxStreams < 0 then 0 else if n < c.maxStreams then n else c.maxStreams
  }

  lemma {:induction false} AmongFirst(ts: seq<Timed>, n: nat, i: nat)
    requires n <= |ts| && i < |ts| && DistinctAnnounces(ts)
    ensures ts[i].event.path in PathsOf(ts, n) <==> i < n
  {
    if n != 0 { AmongFirst(ts, n - 1, i); }
  }

  lemma OneMorePath<V>(m: map<Path, V>, p: Path, v: V)
    requires p !in m
    ensures m[p := v].Keys == m.Keys + {p} && |m[p := v]| == |m| + 1
  {
    assert m[p := v].Keys == m.Keys + {p};
  }

  lemma LetIn(c: Config, r: Registry, ts: seq<Timed>, n: nat)
    requires n < |ts| && DistinctAnnounces(ts) && Indexed(r)
    requires r.streams.Keys == PathsOf(ts, n) && |r.streams| == n < c.maxStreams
    ensures var s := Step(c, r, ts[n].event, ts[n].now); s.streams.Keys == PathsOf(ts, n + 1) && |s.streams| == n + 1
  {
    var event := ts[n].event;
    AnnounceEffect(c, r, event.path, event.session, ts[n].now);
    AmongFirst(ts, n, n);
    OneMorePath(r.streams, event.path, |r.infos|);
  }

  lemma TurnedAway(c: Config, r: Registry, t: Timed)
    requires Indexed(r) && t.event.Announce? && |r.streams| >= c.maxStreams
    ensures Step(c, r, t.event, t.now) == r
  {
    AnnounceEffect(c, r, t.event.path, t.event.session, t.now);
  }

  lemma FillsOneMore(c: Config, r: Registry, ts: seq<Timed>, n: nat)
    requires n < |ts| && DistinctAnnounces(ts) && Indexed(r)
    requires r.streams.Keys == PathsOf(ts, Capacity(c, n)) && |r.streams| == Capacity(c, n)
    ensures var s := Step(c, r, ts[n].event, ts[n].now);
      s.streams.Keys == PathsOf(ts, Capacity(c, n + 1)) && |s.streams| == Capacity(c, n + 1)
  {
    if n < c.maxStreams { LetIn(c, r, ts, n); } else { TurnedAway(c, r, ts[n]); }
  }

  lemma {:induction false} AnnouncesFillUpTo(c: Config, ts: seq<Timed>, n: nat)
    requires n <= |ts| && DistinctAnnounces(ts)
    ensures var r := Run(c, Empty, ts[..n]);
      r.streams.Keys == PathsOf(ts, Capacity(c, n)) && |r.streams| == Capacity(c, n)
  {
    if n == 0 {
    } else {
      AnnouncesFillUpTo(c, ts, n - 1);
      FillsOneMore(c, Run(c, Empty, ts[..n - 1]), ts, n - 1);
      assert ts[..n][..n - 1] == ts[..n - 1];
    }
  }

  /**
   Announces on distinct paths fill an empty server in order: exactly the first MaxStreams of them are registered, and
   all of them if there are no more than that.
   */
  lemma AnnouncesFill(c: Config, ts: seq<Timed>)
    requires DistinctAnnounces(ts)
    ensures forall i | 0 <= i < |ts| :: ts[i].event.path in Run(c, Empty, ts).streams <==> i < c.maxStreams
    ensures |Run(c, Empty, ts).streams| == if c.maxStreams < 0 then 0 else if |ts| < c.maxStreams then |ts| else c.maxStreams
  {
    AnnouncesFillUpTo(c, ts, |ts|);
    assert ts[..|ts|] == ts;
    forall i | 0 <= i < |ts| { AmongFirst(ts, Capacity(c, |ts|), i); }
  }

  // ----- Setups, plays and packets -----

  /** A client is added exactly if its user data can be read and it is not the publisher; nothing else changes. */
  lemma SetupEffect(c: Config, r: Registry, k: nat, session: SessionId, data: UserData, stamp: Time, now: Time)
    requires Indexed(r)
    ensures var s := Step(c, r, SetupUse(k, session, data, stamp), now);
      && s.streams == r.streams && |s.infos| == |r.infos| && OthersKept(r, s, k)
      && (k < |r.infos| ==>
            s.infos[k] == if r.infos[k].publisher != session && data.Entries?
                          then r.infos[k].(clients := r.infos[k].clients[data.clientID := Client(session, stamp)])
                          else r.infos[k])
  {
  }

  /** A play makes the client of the path's stream active now, and changes nothing else. */
  lemma PlayEffect(c: Config, r: Registry, path: Path, id: ClientId, now: Time)
    requires Indexed(r)
    ensures var s := Step(c, r, Play(path, Entries(id)), now);
      && s.streams == r.streams && |s.infos| == |r.infos|
      && (path in r.streams && id in r.infos[r.streams[path]].clients ==>
            var k := r.streams[path];
            var client := r.infos[k].clients[id];
            OthersKept(r, s, k)
            && s.infos[k] == r.infos[k].(clients := r.infos[k].clients[id := Client(client.session, now)]))
      && (path !in r.streams || id !in r.infos[r.streams[path]].clients ==> s == r)
  {
  }

  lemma PlayWithoutData(c: Config, r: Registry, path: Path, data: UserData, now: Time)
    requires Indexed(r) && !data.Entries?
    ensures Step(c, r, Play(path, data), now) == r
  {
  }

  /** A packet makes the publisher and every client of its record active now, and changes nothing else. */
  lemma PacketEffect(c: Config, r: Registry, k: nat, now: Time)
    requires Indexed(r)
    ensures var s := Step(c, r, Packet(k), now);
      && s.streams == r.streams && |s.infos| == |r.infos| && OthersKept(r, s, k)
      && (k < |r.infos| ==>
            && s.infos[k] == r.infos[k].(publisherLastActive := now, clients := s.infos[k].clients)
            && s.infos[k].clients.Keys == r.infos[k].clients.Keys
            && forall id | id in r.infos[k].clients :: s.infos[k].clients[id] == Client(r.infos[k].clients[id].session, now))
  {
  }

  // ----- Leaving -----

  /** The close of a session takes its client ID from every registered record and no other client from any. */
  lemma SessionCloseEffect(c: Config, r: Registry, session: SessionId, id: ClientId, now: Time, k: nat)
    requires Indexed(r) && k < |r.infos|
    ensures var s := Step(c, r, SessionClose(session, Entries(id)), now);
      && |s.infos| == |r.infos|
      && (Registered(r, k) ==> s.infos[k].clients == r.infos[k].clients - {id})
      && (!Registered(r, k) ==> s.infos[k] == r.infos[k])
      && s.infos[k].publisherLastActive == r.infos[k].publisherLastActive
      && (forall p | p in r.streams :: p in s.streams <==> r.infos[r.streams[p]].publisher != session)
  {
  }

  lemma ShutdownEffect(c: Config, r: Registry, now: Time, k: nat)
    requires Indexed(r) && k < |r.infos|
    ensures var s := Step(c, r, Shutdown, now);
      && s.streams == map[] && |s.infos| == |r.infos|
      && s.infos[k] == if Registered(r, k)
                       then r.infos[k].(streamCloses := r.infos[k].streamCloses + 1,
                                        publisherCloses := r.infos[k].publisherCloses + 1)
                       else r.infos[k]
  {
  }

  // ----- How long a viewer is kept -----

  /** When the viewer was last heard of: its setups and plays, and the packets of its stream. */
  function LastSeen(ts: seq<Timed>, path: Path, k: nat, publisher: SessionId, id: ClientId, start: Time): Time {
    if ts == [] then start
    else
      var earlier, t := LastSeen(ts[..|ts| - 1], path, k, publisher, id, start), ts[|ts| - 1];
      match t.event
      case Packet(j) => if j == k then t.now else earlier
      case Play(p, data) => if p == path && data == Entries(id) then t.now else earlier
      case SetupUse(j, session, data, stamp) => if j == k && session != publisher && data == Entries(id) then stamp else earlier
      case _ => earlier
  }

  /** The viewer is a client of stream `k` after every step of the run. */
  ghost predicate PresentThroughout(c: Config, r: Registry, ts: seq<Timed>, k: nat, id: ClientId)
    requires Indexed(r)
  {
    && k < |Run(c, r, ts).infos| && id in Run(c, r, ts).infos[k].clients
    && (ts == [] || PresentThroughout(c, r, ts[..|ts| - 1], k, id))
  }

  /** Its session does not close, and every sweep finds that it was heard of within the client timeout. */
  predicate HeardOf(c: Config, ts: seq<Timed>, path: Path, k: nat, publisher: SessionId, id: ClientId, start: Time) {
    ts == [] ||
    var us, t := ts[..|ts| - 1], ts[|ts| - 1];
    && HeardOf(c, us, path, k, publisher, id, start)
    && !Closes(t.event, id)
    && (t.event.Sweep? ==> t.now - LastSeen(us, path, k, publisher, id, start) <= c.clientTimeout)
  }

  /** One step, on a stream that stays registered: whether the viewer is still there, and when it was last heard of. */
  lemma ViewerAfter(c: Config, r: Registry, t: Timed, path: Path, id: ClientId)
    requires OneToOne(r) && path in r.streams && id in r.infos[r.streams[path]].clients
    requires Registered(Step(c, r, t.event, t.now), r.streams[path])
    ensures var k, s := r.streams[path], Step(c, r, t.event, t.now);
      var client := r.infos[k].clients[id];
      && (id in s.infos[k].clients <==> !Closes(t.event, id) && (t.event.Sweep? ==> t.now - client.lastActive <= c.clientTimeout))
      && (id in s.infos[k].clients ==>
            s.infos[k].clients[id].lastActive == LastSeen([t], path, k, r.infos[k].publisher, id, client.lastActive))
  {
    var k := r.streams[path];
    RegisteredAfter(c, r, t, k);
    StepOnInfo(c, r, t, k);
    assert [t][..0] == [];
    assert Registered(r, k);
    match t.event
    case Announce(_, _) =>
    case SessionClose(_, _) =>
    case SetupUse(_, _, _, _) =>
    case Play(p, _) => if p != path && p in r.streams { assert r.streams[p] != k; }
    case Packet(_) =>
    case Sweep =>
    case Shutdown =>
  }

  lemma LastSeenNext(us: seq<Timed>, t: Timed, path: Path, k: nat, publisher: SessionId, id: ClientId, start: Time)
    ensures LastSeen(us + [t], path, k, publisher, id, start) ==
            LastSeen([t], path, k, publisher, id, LastSeen(us, path, k, publisher, id, start))
  {
    assert (us + [t])[..|us + [t]| - 1] == us && [t][..0] == [];
  }

  /**
   For as long as its stream is registered: a viewer is there all along exactly when its session does not close and
   every sweep finds one of its setups, its plays or its stream's packets within the client timeout; and its activity
   is the last of these.
   */
  lemma {:induction false} ViewerSurvivesIffSeen(c: Config, r: Registry, ts: seq<Timed>, path: Path, id: ClientId)
    requires OneToOne(r) && path in r.streams && id in r.infos[r.streams[path]].clients
    requires Registered(Run(c, r, ts), r.streams[path])
    ensures var s, k, info := Run(c, r, ts), r.streams[path], r.infos[r.streams[path]];
      var start := info.clients[id].lastActive;
      && (PresentThroughout(c, r, ts, k, id) <==> HeardOf(c, ts, path, k, info.publisher, id, start))
      && (PresentThroughout(c, r, ts, k, id) ==>
            k < |s.infos| && s.infos[k].clients[id].lastActive == LastSeen(ts, path, k, info.publisher, id, start))
  {
    if ts == [] {
    } else {
      var us, t := ts[..|ts| - 1], ts[|ts| - 1];
      var q, k, publisher := Run(c, r, us), r.streams[path], r.infos[r.streams[path]].publisher;
      RegisteredUntilRemoved(c, r, us, path);
      RunGrows(c, r, us);
      RegisteredAfter(c, q, t, k);
      ViewerSurvivesIffSeen(c, r, us, path, id);
      PublishersAreFixed(c, r, us, k);
      if PresentThroughout(c, r, us, k, id) {
        ViewerAfter(c, q, t, path, id);
        assert us + [t] == ts;
        LastSeenNext(us, t, path, k, publisher, id, r.infos[k].clients[id].lastActive);
        StepOnInfo(c, q, t, k);
      }
    }
  }
}
