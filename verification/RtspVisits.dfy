/**
 The loops over the registry, on values: what each has done after any part of its iteration, and that in any order it
 ends at one step of the transition system.
 */
module RtspVisits {
  import opened RtspRegistry

  /** What a loop does at one registered path: replace its record, and perhaps delete the path. */
  datatype Visitor = Visitor(next: Info -> Info, drops: Info -> bool)

  function Visited(r: Registry, p: Path, v: Visitor): Registry
    requires p in r.streams && r.streams[p] < |r.infos|
  {
    var k := r.streams[p];
    Registry(if v.drops(r.infos[k]) then r.streams - {p} else r.streams, r.infos[k := v.next(r.infos[k])])
  }

  /** The registry once the paths in `done` have been visited, in whatever order. */
  ghost function VisitedSet(r: Registry, done: set<Path>, v: Visitor): Registry
    requires Indexed(r)
  {
    Registry(map p | p in r.streams && !(p in done && v.drops(r.infos[r.streams[p]])) :: r.streams[p],
             seq(|r.infos|, k requires 0 <= k < |r.infos| =>
               if exists p | p in r.streams :: p in done && r.streams[p] == k then v.next(r.infos[k]) else r.infos[k]))
  }

  lemma VisitOne(r: Registry, done: set<Path>, p: Path, v: Visitor)
    requires OneToOne(r) && p in r.streams && p !in done
    ensures var s := VisitedSet(r, done, v);
      && p in s.streams && s.streams[p] == r.streams[p] && s.infos[r.streams[p]] == r.infos[r.streams[p]]
      && VisitedSet(r, done + {p}, v) == Visited(s, p, v)
  {
    var s, t := VisitedSet(r, done, v), VisitedSet(r, done + {p}, v);
    forall k | 0 <= k < |r.infos| ensures t.infos[k] == Visited(s, p, v).infos[k] {
      if k == r.streams[p] {
        assert p in done + {p};
      } else if q :| q in r.streams && q in done && r.streams[q] == k {
        assert q in done + {p};
      }
    }
    assert t.streams == Visited(s, p, v).streams;
  }

  lemma VisitNone(r: Registry, v: Visitor)
    requires Indexed(r)
    ensures VisitedSet(r, r.streams.Keys - r.streams.Keys, v) == r
  {
    assert r.streams.Keys - r.streams.Keys == {};
    assert VisitedSet(r, {}, v).streams == r.streams;
    assert VisitedSet(r, {}, v).infos == r.infos;
  }

  lemma VisitNext(r: Registry, remaining: set<Path>, p: Path, v: Visitor)
    requires OneToOne(r) && remaining <= r.streams.Keys && p in remaining
    ensures var s := VisitedSet(r, r.streams.Keys - remaining, v);
      && p in s.streams && s.streams[p] < |s.infos|
      && VisitedSet(r, r.streams.Keys - (remaining - {p}), v) == Visited(s, p, v)
  {
    VisitOne(r, r.streams.Keys - remaining, p, v);
    assert r.streams.Keys - (remaining - {p}) == r.streams.Keys - remaining + {p};
  }

  function Sweeper(c: Config, now: Time): Visitor {
    Visitor(info => Swept(c, info, now), info => PublisherExpired(c, info, now))
  }

  function Leaver(session: SessionId, id: ClientId): Visitor {
    Visitor(info => Departed(info, session, id), (info: Info) => info.publisher == session)
  }

  const Closer := Visitor(info => ClosedBoth(info), info => false)

  lemma VisitAllIsSweep(c: Config, r: Registry, now: Time)
    requires Indexed(r)
    ensures VisitedSet(r, r.streams.Keys - {}, Sweeper(c, now)) == SweptAll(c, r, now)
  {
    assert forall k :: Registered(r, k) <==> exists p | p in r.streams :: p in r.streams.Keys && r.streams[p] == k;
    assert VisitedSet(r, r.streams.Keys - {}, Sweeper(c, now)).streams == SweptAll(c, r, now).streams;
    assert VisitedSet(r, r.streams.Keys - {}, Sweeper(c, now)).infos == SweptAll(c, r, now).infos;
  }

  lemma VisitAllIsSessionClose(r: Registry, session: SessionId, id: ClientId)
    requires Indexed(r)
    ensures VisitedSet(r, r.streams.Keys - {}, Leaver(session, id)) == SessionClosed(r, session, id)
  {
    assert forall k :: Registered(r, k) <==> exists p | p in r.streams :: p in r.streams.Keys && r.streams[p] == k;
    assert VisitedSet(r, r.streams.Keys - {}, Leaver(session, id)).streams == SessionClosed(r, session, id).streams;
    assert VisitedSet(r, r.streams.Keys - {}, Leaver(session, id)).infos == SessionClosed(r, session, id).infos;
  }

  lemma VisitAllIsShutDown(r: Registry)
    requires Indexed(r)
    ensures VisitedSet(r, r.streams.Keys - {}, Closer).(streams := map[]) == ShutDown(r)
  {
    assert forall k :: Registered(r, k) <==> exists p | p in r.streams :: p in r.streams.Keys && r.streams[p] == k;
    assert VisitedSet(r, r.streams.Keys - {}, Closer).infos == ShutDown(r).infos;
  }
}
