/**
 The sweep taken apart.  It reads the clock once and holds the registry lock throughout, but takes each record's own
 lock only while it looks at that record: packets, and the second halves of setups, run between its turns.
 */
module RtspSplitSweep {
  import opened RtspActivity
  import opened RtspRegistry
  import opened RtspRuns
  import opened RtspVisits

  /** What does not need the registry lock. */
  predicate RunsBeside(e: Event) {
    e.Packet? || e.SetupUse?
  }

  function TargetOf(e: Event): nat
    requires RunsBeside(e)
  {
    match e case Packet(k) => k case SetupUse(k, _, _, _) => k
  }

  /** The sweep looks at its next stream, or something else happens. */
  datatype Turn = Visit(path: Path) | Beside(step: Timed)

  predicate TurnsOk(r: Registry, turns: seq<Turn>) {
    && (forall i | 0 <= i < |turns| :: if turns[i].Visit? then turns[i].path in r.streams else RunsBeside(turns[i].step.event))
    && (forall i, j | 0 <= i < j < |turns| && turns[i].Visit? && turns[j].Visit? :: turns[i].path != turns[j].path)
  }

  function VisitedPaths(turns: seq<Turn>): set<Path> {
    if turns == [] then {}
    else VisitedPaths(turns[..|turns| - 1]) + (if turns[|turns| - 1].Visit? then {turns[|turns| - 1].path} else {})
  }

  /** The registry after these turns of a sweep whose clock reads `now`. */
  function Interleaved(c: Config, r: Registry, now: Time, turns: seq<Turn>): Registry
    requires Indexed(r)
    ensures Indexed(Interleaved(c, r, now, turns))
  {
    if turns == [] then r
    else
      var q := Interleaved(c, r, now, turns[..|turns| - 1]);
      match turns[|turns| - 1]
      case Visit(path) => if path in q.streams then Visited(q, path, Sweeper(c, now)) else q
      case Beside(t) => Step(c, q, t.event, t.now)
  }

  /** The record that `e` is about was visited before. */
  predicate AfterVisit(r: Registry, turns: seq<Turn>, e: Event)
    requires RunsBeside(e)
  {
    exists p | p in VisitedPaths(turns) :: p in r.streams && r.streams[p] == TargetOf(e)
  }

  /** The steps on records that the sweep had not come to, and those on records it had left behind. */
  function Early(r: Registry, turns: seq<Turn>): seq<Timed>
    requires TurnsOk(r, turns)
  {
    if turns == [] then []
    else
      var us, turn := turns[..|turns| - 1], turns[|turns| - 1];
      Early(r, us) + (if turn.Beside? && !AfterVisit(r, us, turn.step.event) then [turn.step] else [])
  }

  function Late(r: Registry, turns: seq<Turn>): seq<Timed>
    requires TurnsOk(r, turns)
  {
    if turns == [] then []
    else
      var us, turn := turns[..|turns| - 1], turns[|turns| - 1];
      Late(r, us) + (if turn.Beside? && AfterVisit(r, us, turn.step.event) then [turn.step] else [])
  }

  // ----- Steps on different records commute -----

  function BesideEffect(info: Info, t: Timed): Info
    requires RunsBeside(t.event)
  {
    if t.event.Packet? then Touched(info, t.now) else WithClient(info, t.event.session, t.event.data, t.event.stamp)
  }

  lemma BesideOnInfo(c: Config, r: Registry, t: Timed)
    requires Indexed(r) && RunsBeside(t.event)
    ensures var s, k := Step(c, r, t.event, t.now), TargetOf(t.event);
      && s.streams == r.streams && |s.infos| == |r.infos|
      && (forall j | 0 <= j < |r.infos| && j != k :: s.infos[j] == r.infos[j])
      && (k < |r.infos| ==> s.infos[k] == BesideEffect(r.infos[k], t))
  {
  }

  lemma BesidesCommute(c: Config, r: Registry, t: Timed, u: Timed)
    requires Indexed(r) && RunsBeside(t.event) && RunsBeside(u.event) && TargetOf(t.event) != TargetOf(u.event)
    ensures Indexed(Step(c, r, t.event, t.now)) && Indexed(Step(c, r, u.event, u.now))
    ensures Step(c, Step(c, r, t.event, t.now), u.event, u.now) == Step(c, Step(c, r, u.event, u.now), t.event, t.now)
  {
    var tr, ur := Step(c, r, t.event, t.now), Step(c, r, u.event, u.now);
    BesideOnInfo(c, r, t);
    BesideOnInfo(c, r, u);
    BesideOnInfo(c, tr, u);
    BesideOnInfo(c, ur, t);
    assert Step(c, tr, u.event, u.now).infos == Step(c, ur, t.event, t.now).infos;
  }

  /** A visit and a step on another record. */
  lemma VisitCommutes(c: Config, r: Registry, p: Path, v: Visitor, t: Timed)
    requires Indexed(r) && p in r.streams && RunsBeside(t.event) && TargetOf(t.event) != r.streams[p]
    ensures var s := Step(c, r, t.event, t.now);
      && Indexed(s) && s.streams == r.streams && Indexed(Visited(r, p, v))
      && Step(c, Visited(r, p, v), t.event, t.now) == Visited(s, p, v)
  {
    var s, w := Step(c, r, t.event, t.now), Visited(r, p, v);
    BesideOnInfo(c, r, t);
    BesideOnInfo(c, w, t);
    assert Step(c, w, t.event, t.now).infos == Visited(s, p, v).infos;
  }

  predicate AllBeside(ts: seq<Timed>) {
    forall i | 0 <= i < |ts| :: RunsBeside(ts[i].event)
  }

  /** All the steps are about other records than the `k`-th. */
  predicate Avoid(ts: seq<Timed>, k: nat) {
    AllBeside(ts) && forall i | 0 <= i < |ts| :: TargetOf(ts[i].event) != k
  }

  lemma {:induction false} BesidesKeepStreams(c: Config, r: Registry, ts: seq<Timed>)
    requires Indexed(r) && AllBeside(ts)
    ensures Run(c, r, ts).streams == r.streams && |Run(c, r, ts).infos| == |r.infos|
  {
    if ts == [] {
    } else {
      BesidesKeepStreams(c, r, ts[..|ts| - 1]);
      BesideOnInfo(c, Run(c, r, ts[..|ts| - 1]), ts[|ts| - 1]);
    }
  }

  lemma {:induction false} RunCommutes(c: Config, r: Registry, t: Timed, ts: seq<Timed>)
    requires Indexed(r) && RunsBeside(t.event) && Avoid(ts, TargetOf(t.event))
    ensures Indexed(Step(c, r, t.event, t.now))
    ensures Run(c, Step(c, r, t.event, t.now), ts) == Step(c, Run(c, r, ts), t.event, t.now)
  {
    BesideOnInfo(c, r, t);
    if ts == [] {
    } else {
      var us, u := ts[..|ts| - 1], ts[|ts| - 1];
      RunCommutes(c, r, t, us);
      BesidesCommute(c, Run(c, r, us), t, u);
    }
  }

  lemma {:induction false} VisitCommutesWithRun(c: Config, r: Registry, p: Path, v: Visitor, ts: seq<Timed>)
    requires Indexed(r) && p in r.streams && Avoid(ts, r.streams[p])
    ensures var s := Run(c, r, ts);
      s.streams == r.streams && Indexed(Visited(r, p, v)) && Run(c, Visited(r, p, v), ts) == Visited(s, p, v)
  {
    BesidesKeepStreams(c, r, ts);
    if ts == [] {
    } else {
      var us, u := ts[..|ts| - 1], ts[|ts| - 1];
      VisitCommutesWithRun(c, r, p, v, us);
      VisitCommutes(c, Run(c, r, us), p, v, u);
    }
  }

  lemma VisitedSetCommutes(c: Config, r: Registry, done: set<Path>, v: Visitor, t: Timed)
    requires OneToOne(r) && RunsBeside(t.event) && forall p | p in done && p in r.streams :: r.streams[p] != TargetOf(t.event)
    ensures Indexed(VisitedSet(r, done, v)) && OneToOne(Step(c, r, t.event, t.now))
    ensures Step(c, VisitedSet(r, done, v), t.event, t.now) == VisitedSet(Step(c, r, t.event, t.now), done, v)
  {
    var s, w := Step(c, r, t.event, t.now), VisitedSet(r, done, v);
    BesideOnInfo(c, r, t);
    BesideOnInfo(c, w, t);
    assert Step(c, w, t.event, t.now).infos == VisitedSet(s, done, v).infos;
    assert Step(c, w, t.event, t.now).streams == VisitedSet(s, done, v).streams;
  }

  // ----- Every interleaving is a serial run -----

  lemma RunAppend(c: Config, r: Registry, ts: seq<Timed>, t: Timed)
    requires Indexed(r)
    ensures Run(c, r, ts + [t]) == Step(c, Run(c, r, ts), t.event, t.now)
  {
    assert (ts + [t])[..|ts + [t]| - 1] == ts;
  }

  lemma {:induction false} RunInTwo(c: Config, r: Registry, ts: seq<Timed>, us: seq<Timed>)
    requires Indexed(r)
    ensures Run(c, r, ts + us) == Run(c, Run(c, r, ts), us)
  {
    if us == [] {
      assert ts + us == ts;
    } else {
      RunInTwo(c, r, ts, us[..|us| - 1]);
      assert (ts + us)[..|ts + us| - 1] == ts + us[..|us| - 1];
    }
  }

  lemma {:induction false} VisitedOnce(turns: seq<Turn>, p: Path)
    requires p in VisitedPaths(turns)
    ensures exists i | 0 <= i < |turns| :: turns[i] == Visit(p)
  {
    var us, turn := turns[..|turns| - 1], turns[|turns| - 1];
    if turn != Visit(p) {
      VisitedOnce(us, p);
      var i :| 0 <= i < |us| && us[i] == Visit(p);
      assert turns[i] == Visit(p);
    }
  }

  lemma {:induction false} EarlyIsBeside(r: Registry, turns: seq<Turn>)
    requires TurnsOk(r, turns)
    ensures AllBeside(Early(r, turns))
  {
    if turns == [] {
    } else {
      EarlyIsBeside(r, turns[..|turns| - 1]);
    }
  }

  /** What the last turn adds to the steps before, to the visited paths and to the steps after. */
  lemma LastTurn(r: Registry, turns: seq<Turn>)
    requires TurnsOk(r, turns) && turns != []
    ensures var us, turn := turns[..|turns| - 1], turns[|turns| - 1];
      && TurnsOk(r, us) && (turn.Visit? ==> turn.path in r.streams) && (turn.Beside? ==> RunsBeside(turn.step.event))
      && VisitedPaths(turns) == (if turn.Visit? then VisitedPaths(us) + {turn.path} else VisitedPaths(us))
      && Early(r, turns) ==
         (if turn.Beside? && !AfterVisit(r, us, turn.step.event) then Early(r, us) + [turn.step] else Early(r, us))
      && Late(r, turns) ==
         (if turn.Beside? && AfterVisit(r, us, turn.step.event) then Late(r, us) + [turn.step] else Late(r, us))
  {
  }

  lemma {:induction false} LateIsVisited(r: Registry, turns: seq<Turn>, i: nat)
    requires TurnsOk(r, turns) && i < |Late(r, turns)|
    ensures RunsBeside(Late(r, turns)[i].event) && AfterVisit(r, turns, Late(r, turns)[i].event)
  {
    var us := turns[..|turns| - 1];
    LastTurn(r, turns);
    if i < |Late(r, us)| {
      LateIsVisited(r, us, i);
    }
    var e := Late(r, turns)[i].event;
    assert RunsBeside(e) && AfterVisit(r, us, e);
    var p :| p in VisitedPaths(us) && p in r.streams && r.streams[p] == TargetOf(e);
    assert p in VisitedPaths(turns);
  }

  lemma LateAvoids(r: Registry, turns: seq<Turn>, k: nat)
    requires TurnsOk(r, turns) && forall p | p in VisitedPaths(turns) && p in r.streams :: r.streams[p] != k
    ensures Avoid(Late(r, turns), k)
  {
    forall i | 0 <= i < |Late(r, turns)| { LateIsVisited(r, turns, i); }
  }

  /** The state that the sweep has reached if everything early comes first, and what was late is still to come. */
  ghost function Serial(c: Config, r: Registry, now: Time, early: seq<Timed>, done: set<Path>): Registry
    requires Indexed(r)
    ensures Indexed(Serial(c, r, now, early, done))
  {
    VisitedSet(Run(c, r, early), done, Sweeper(c, now))
  }

  lemma VisitTurn(c: Config, r: Registry, now: Time, early: seq<Timed>, done: set<Path>, late: seq<Timed>, p: Path)
    requires OneToOne(r) && p in r.streams && p !in done && AllBeside(early) && Avoid(late, r.streams[p])
    ensures var q := Run(c, Serial(c, r, now, early, done), late);
      && p in q.streams && Run(c, Serial(c, r, now, early, done + {p}), late) == Visited(q, p, Sweeper(c, now))
  {
    BesidesKeepStreams(c, r, early);
    VisitOne(Run(c, r, early), done, p, Sweeper(c, now));
    VisitCommutesWithRun(c, Serial(c, r, now, early, done), p, Sweeper(c, now), late);
  }

  lemma EarlyTurn(c: Config, r: Registry, now: Time, early: seq<Timed>, done: set<Path>, late: seq<Timed>, t: Timed)
    requires OneToOne(r) && AllBeside(early) && RunsBeside(t.event) && Avoid(late, TargetOf(t.event))
    requires forall p | p in done && p in r.streams :: r.streams[p] != TargetOf(t.event)
    ensures Run(c, Serial(c, r, now, early + [t], done), late) ==
      Step(c, Run(c, Serial(c, r, now, early, done), late), t.event, t.now)
  {
    BesidesKeepStreams(c, r, early);
    RunAppend(c, r, early, t);
    VisitedSetCommutes(c, Run(c, r, early), done, Sweeper(c, now), t);
    RunCommutes(c, Serial(c, r, now, early, done), t, late);
  }

  lemma {:induction false} PartlySerial(c: Config, r: Registry, now: Time, turns: seq<Turn>)
    requires OneToOne(r) && TurnsOk(r, turns)
    ensures Interleaved(c, r, now, turns) ==
      Run(c, Serial(c, r, now, Early(r, turns), VisitedPaths(turns)), Late(r, turns))
  {
    if turns == [] {
      assert VisitedSet(r, {}, Sweeper(c, now)).streams == r.streams;
      assert VisitedSet(r, {}, Sweeper(c, now)).infos == r.infos;
    } else {
      var us, turn := turns[..|turns| - 1], turns[|turns| - 1];
      var early, done, late := Early(r, us), VisitedPaths(us), Late(r, us);
      LastTurn(r, turns);
      PartlySerial(c, r, now, us);
      EarlyIsBeside(r, us);
      match turn
      case Visit(p) =>
        if p in done { VisitedOnce(us, p); }
        LateAvoids(r, us, r.streams[p]);
        VisitTurn(c, r, now, early, done, late, p);
      case Beside(t) =>
        if AfterVisit(r, us, t.event) {
          RunAppend(c, Serial(c, r, now, early, done), late, t);
        } else {
          LateAvoids(r, us, TargetOf(t.event));
          EarlyTurn(c, r, now, early, done, late, t);
        }
    }
  }

  /**
   A sweep with packets and setups running between its turns, in whatever order, leaves what a serial run leaves: the
   steps on records it had not come to, then the whole sweep as one step, then the steps on records it had left.
   */
  lemma SplitSweepIsSerial(c: Config, r: Registry, now: Time, turns: seq<Turn>)
    requires OneToOne(r) && TurnsOk(r, turns) && VisitedPaths(turns) == r.streams.Keys
    ensures Interleaved(c, r, now, turns) == Run(c, r, Early(r, turns) + [Timed(Sweep, now)] + Late(r, turns))
  {
    var early, late := Early(r, turns), Late(r, turns);
    PartlySerial(c, r, now, turns);
    EarlyIsBeside(r, turns);
    BesidesKeepStreams(c, r, early);
    var q := Run(c, r, early);
    VisitAllIsSweep(c, q, now);
    assert q.streams.Keys - {} == VisitedPaths(turns);
    RunInTwo(c, r, early + [Timed(Sweep, now)], late);
    RunAppend(c, r, early, Timed(Sweep, now));
  }

  // ----- No viewer of a live stream is lost -----

  function StepsOf(turns: seq<Turn>): seq<Timed> {
    if turns == [] then []
    else
      var turn := turns[|turns| - 1];
      StepsOf(turns[..|turns| - 1]) + (if turn.Beside? then [turn.step] else [])
  }

  lemma PrecedesAppend(ts: seq<Timed>, t: Timed, now: Time, lag: nat)
    ensures Precedes(ts + [t], now, lag) <==>
      && Precedes(ts, t.now, lag) && t.now <= now
      && (t.event.SetupUse? ==> t.now - lag <= t.event.stamp <= t.now)
  {
    var us := ts + [t];
    assert us[|ts|] == t;
    if Precedes(us, now, lag) {
      forall i | 0 <= i < |ts| ensures us[i] == ts[i] && ts[i].now <= t.now {}
    } else if Precedes(ts, t.now, lag) {
      forall i | 0 <= i < |ts| ensures us[i] == ts[i] && ts[i].now <= t.now {
        assert ts[i].now <= ts[|ts| - 1].now;
      }
    }
  }

  lemma PrecedesBefore(ts: seq<Timed>, us: seq<Timed>, t: Timed, now: Time, lag: nat)
    requires Precedes(ts + (us + [t]), now, lag)
    ensures Precedes(ts + us, t.now, lag) && t.now <= now && (t.event.SetupUse? ==> t.now - lag <= t.event.stamp <= t.now)
  {
    assert ts + (us + [t]) == ts + us + [t];
    PrecedesAppend(ts + us, t, now, lag);
  }

  lemma PrecedesAfter(ts: seq<Timed>, us: seq<Timed>, t: Timed, now: Time, lag: nat)
    requires Precedes(ts + us, t.now, lag) && t.now <= now
    requires t.event.SetupUse? ==> t.now - lag <= t.event.stamp <= t.now
    ensures Precedes(ts + us, now, lag) && Precedes(ts + (us + [t]), now, lag)
  {
    assert ts + (us + [t]) == ts + us + [t];
    PrecedesAppend(ts + us, t, now, lag);
  }

  lemma {:induction false} EarlyPrecedes(r: Registry, ts: seq<Timed>, turns: seq<Turn>, end: Time, lag: nat)
    requires TurnsOk(r, turns) && Precedes(ts + StepsOf(turns), end, lag)
    ensures Precedes(ts + Early(r, turns), end, lag)
  {
    if turns == [] {
    } else {
      var us, turn := turns[..|turns| - 1], turns[|turns| - 1];
      LastTurn(r, turns);
      if turn.Visit? {
        assert StepsOf(turns) == StepsOf(us);
        EarlyPrecedes(r, ts, us, end, lag);
      } else {
        PrecedesBefore(ts, StepsOf(us), turn.step, end, lag);
        EarlyPrecedes(r, ts, us, turn.step.now, lag);
        PrecedesAfter(ts, Early(r, us), turn.step, end, lag);
      }
    }
  }

  lemma {:induction false} BesidesKeepClient(c: Config, r: Registry, ts: seq<Timed>, k: nat, id: ClientId)
    requires Indexed(r) && AllBeside(ts) && k < |r.infos| && id in r.infos[k].clients
    ensures k < |Run(c, r, ts).infos| && id in Run(c, r, ts).infos[k].clients
  {
    if ts == [] {
    } else {
      BesidesKeepClient(c, r, ts[..|ts| - 1], k, id);
      BesideOnInfo(c, Run(c, r, ts[..|ts| - 1]), ts[|ts| - 1]);
    }
  }

  lemma SweepKeepsViewer(c: Config, q: Registry, now: Time, path: Path, id: ClientId, lag: nat)
    requires OneToOne(q) && Ordered(q, lag) && c.publisherTimeout + lag <= c.clientTimeout
    requires path in q.streams && id in q.infos[q.streams[path]].clients && path in SweptAll(c, q, now).streams
    ensures SweptAll(c, q, now).streams[path] == q.streams[path]
    ensures id in SweptAll(c, q, now).infos[q.streams[path]].clients
  {
    var k := q.streams[path];
    OrderedSweepEvictsNobody(c, q, now, k, lag);
    assert Registered(SweptAll(c, q, now), k);
  }

  lemma SweepInBetween(c: Config, r: Registry, early: seq<Timed>, now: Time, late: seq<Timed>)
    requires Indexed(r)
    ensures Indexed(SweptAll(c, Run(c, r, early), now))
    ensures Run(c, r, early + [Timed(Sweep, now)] + late) == Run(c, SweptAll(c, Run(c, r, early), now), late)
  {
    RunAppend(c, r, early, Timed(Sweep, now));
    RunInTwo(c, r, early + [Timed(Sweep, now)], late);
  }

  lemma SerialKeepsViewer(c: Config, r: Registry, early: seq<Timed>, now: Time, late: seq<Timed>, path: Path, id: ClientId,
                          lag: nat)
    requires OneToOne(r) && AllBeside(early) && AllBeside(late) && Ordered(Run(c, r, early), lag)
    requires c.publisherTimeout + lag <= c.clientTimeout
    requires path in r.streams && r.streams[path] < |r.infos| && id in r.infos[r.streams[path]].clients
    requires path in Run(c, r, early + [Timed(Sweep, now)] + late).streams
    ensures var s := Run(c, r, early + [Timed(Sweep, now)] + late);
      s.streams[path] == r.streams[path] && r.streams[path] < |s.infos| && id in s.infos[r.streams[path]].clients
  {
    var q, k := Run(c, r, early), r.streams[path];
    SweepInBetween(c, r, early, now, late);
    BesidesKeepClient(c, r, early, k, id);
    BesidesKeepStreams(c, r, early);
    BesidesKeepStreams(c, SweptAll(c, q, now), late);
    SweepKeepsViewer(c, q, now, path, id, lag);
    BesidesKeepClient(c, SweptAll(c, q, now), late, k, id);
  }

  /**
   With a client timeout no shorter than the publisher's plus the lag, a viewer of a stream that outlives a sweep
   outlives it too, whatever packets and setups run between the sweep's turns.
   */
  lemma SplitSweepKeepsViewers(c: Config, ts: seq<Timed>, now: Time, turns: seq<Turn>, end: Time, path: Path, id: ClientId,
                               lag: nat)
    requires c.publisherTimeout + lag <= c.clientTimeout
    requires var r := Run(c, Empty, ts);
      && TurnsOk(r, turns) && VisitedPaths(turns) == r.streams.Keys && Precedes(ts + StepsOf(turns), end, lag)
      && path in r.streams && r.streams[path] < |r.infos| && id in r.infos[r.streams[path]].clients
      && path in Interleaved(c, r, now, turns).streams
    ensures var r, s := Run(c, Empty, ts), Interleaved(c, Run(c, Empty, ts), now, turns);
      s.streams[path] == r.streams[path] && id in s.infos[r.streams[path]].clients
  {
    var r := Run(c, Empty, ts);
    var early, late := Early(r, turns), Late(r, turns);
    RunKeepsInv(c, Empty, ts);
    SplitSweepIsSerial(c, r, now, turns);
    EarlyIsBeside(r, turns);
    forall i | 0 <= i < |late| { LateIsVisited(r, turns, i); }
    EarlyPrecedes(r, ts, turns, end, lag);
    RunsAreOrdered(c, ts + early, lag);
    RunInTwo(c, Empty, ts, early);
    SerialKeepsViewer(c, r, early, now, late, path, id, lag);
  }
}
