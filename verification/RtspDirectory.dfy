/**
 What decides which streams are registered: a fold over four kinds of change, on which clients have no influence.
 */
module RtspDirectory {
  import opened RtspRegistry
  import opened RtspRuns

  // ----- The directory as a fold over the history -----

  /** A path's stream and publisher. */
  datatype Entry = Entry(stream: nat, publisher: SessionId)

  datatype Change =
    | Put(path: Path, entry: Entry)
    | DropPublisher(session: SessionId)
    | DropPaths(paths: set<Path>)
    | Clear

  function Apply(d: map<Path, Entry>, change: Change): map<Path, Entry> {
    match change
    case Put(path, entry) => d[path := entry]
    case DropPublisher(session) => map p | p in d && d[p].publisher != session :: d[p]
    case DropPaths(paths) => d - paths
    case Clear => map[]
  }

  function Fold(changes: seq<Change>): map<Path, Entry> {
    if changes == [] then map[] else Apply(Fold(changes[..|changes| - 1]), changes[|changes| - 1])
  }

  function Directory(r: Registry): map<Path, Entry>
    requires Indexed(r)
  {
    map p | p in r.streams :: Entry(r.streams[p], r.infos[r.streams[p]].publisher)
  }

  /** The change a step makes, if any: setups, plays and packets, on registered records or on detached ones, make none. */
  function ChangeOf(c: Config, r: Registry, t: Timed): seq<Change>
    requires Indexed(r)
  {
    match t.event
    case Announce(path, session) => if Accepts(c, r) then [Put(path, Entry(|r.infos|, session))] else []
    case SessionClose(session, data) => if data.Entries? then [DropPublisher(session)] else []
    case Sweep => [DropPaths(set p | p in r.streams && PublisherExpired(c, r.infos[r.streams[p]], t.now))]
    case Shutdown => [Clear]
    case _ => []
  }

  function History(c: Config, ts: seq<Timed>): seq<Change> {
    if ts == [] then []
    else History(c, ts[..|ts| - 1]) + ChangeOf(c, Run(c, Empty, ts[..|ts| - 1]), ts[|ts| - 1])
  }

  lemma FoldAppend(changes: seq<Change>, more: seq<Change>)
    requires |more| <= 1
    ensures Fold(changes + more) == if more == [] then Fold(changes) else Apply(Fold(changes), more[0])
  {
    if more == [] {
      assert changes + more == changes;
    } else {
      assert (changes + more)[..|changes + more| - 1] == changes;
    }
  }

  lemma PathIsChanged(c: Config, r: Registry, t: Timed, p: Path)
    requires OneToOne(r)
    ensures var more, d := ChangeOf(c, r, t), Directory(Step(c, r, t.event, t.now));
      var expected := if more == [] then Directory(r) else Apply(Directory(r), more[0]);
      (p in d <==> p in expected) && (p in d ==> d[p] == expected[p])
  {
    PathsAfter(c, r, t, p);
    if p in r.streams { StepActivity(c, r, t, r.streams[p]); }
  }

  lemma StepIsChange(c: Config, r: Registry, t: Timed)
    requires OneToOne(r)
    ensures var more, d := ChangeOf(c, r, t), Directory(Step(c, r, t.event, t.now));
      d == if more == [] then Directory(r) else Apply(Directory(r), more[0])
  {
    forall p { PathIsChanged(c, r, t, p); }
  }

  /** In every history the directory is the fold of its announces, publisher closes, sweeps and shutdowns. */
  lemma {:induction false} DirectoryIsFold(c: Config, ts: seq<Timed>)
    ensures Directory(Run(c, Empty, ts)) == Fold(History(c, ts))
  {
    if ts == [] {
    } else {
      var us, t := ts[..|ts| - 1], ts[|ts| - 1];
      DirectoryIsFold(c, us);
      RunKeepsInv(c, Empty, us);
      StepIsChange(c, Run(c, Empty, us), t);
      FoldAppend(History(c, us), ChangeOf(c, Run(c, Empty, us), t));
    }
  }

  // ----- Clients cannot influence streams -----

  predicate AlikeButClients(a: Info, b: Info) {
    a.(clients := map[]) == b.(clients := map[])
  }

  predicate SameButClients(r: Registry, s: Registry) {
    && r.streams == s.streams && |r.infos| == |s.infos|
    && forall k | 0 <= k < |r.infos| :: AlikeButClients(r.infos[k], s.infos[k])
  }

  predicate OfViewer(e: Event) {
    e.SetupUse? || e.Play?
  }

  function WithoutViewers(ts: seq<Timed>): seq<Timed> {
    if ts == [] then []
    else
      var us, t := WithoutViewers(ts[..|ts| - 1]), ts[|ts| - 1];
      if OfViewer(t.event) then us else us + [t]
  }

  lemma RemovesAlike(c: Config, r: Registry, s: Registry, t: Timed, k: nat)
    requires SameButClients(r, s) && k < |r.infos|
    ensures Removes(c, r, t, k) <==> Removes(c, s, t, k)
  {
    assert AlikeButClients(r.infos[k], s.infos[k]);
  }

  lemma EffectsAlike(c: Config, a: Info, b: Info, session: SessionId, id: ClientId, data: UserData, now: Time)
    requires AlikeButClients(a, b)
    ensures AlikeButClients(ClosedBoth(a), ClosedBoth(b)) && AlikeButClients(Departed(a, session, id), Departed(b, session, id))
    ensures AlikeButClients(WithClient(a, session, data, now), WithClient(b, session, data, now))
    ensures AlikeButClients(Played(a, data, now), Played(b, data, now)) && AlikeButClients(Touched(a, now), Touched(b, now))
    ensures AlikeButClients(Swept(c, a, now), Swept(c, b, now))
  {
  }

  lemma EffectsInLockstep(c: Config, r: Registry, s: Registry, t: Timed, k: nat)
    requires Indexed(r) && Indexed(s) && SameButClients(r, s) && k < |r.infos|
    ensures AlikeButClients(InfoAfter(c, r, t, k), InfoAfter(c, s, t, k))
  {
    var a, b := r.infos[k], s.infos[k];
    assert AlikeButClients(a, b) && (Registered(r, k) <==> Registered(s, k));
    match t.event
    case SessionClose(session, data) =>
      if data.Entries? { EffectsAlike(c, a, b, session, data.clientID, data, t.now); }
    case SetupUse(_, session, data, stamp) => EffectsAlike(c, a, b, session, "", data, stamp);
    case Play(_, data) => EffectsAlike(c, a, b, 0, "", data, t.now);
    case _ => EffectsAlike(c, a, b, 0, "", Absent, t.now);
  }

  lemma InfosInLockstep(c: Config, r: Registry, s: Registry, t: Timed, k: nat)
    requires OneToOne(r) && OneToOne(s) && SameButClients(r, s) && k < |r.infos|
    ensures k < |Step(c, r, t.event, t.now).infos| && k < |Step(c, s, t.event, t.now).infos|
    ensures AlikeButClients(Step(c, r, t.event, t.now).infos[k], Step(c, s, t.event, t.now).infos[k])
  {
    StepOnInfo(c, r, t, k);
    StepOnInfo(c, s, t, k);
    EffectsInLockstep(c, r, s, t, k);
  }

  lemma StepsInLockstep(c: Config, r: Registry, s: Registry, t: Timed)
    requires OneToOne(r) && OneToOne(s) && SameButClients(r, s)
    ensures SameButClients(Step(c, r, t.event, t.now), Step(c, s, t.event, t.now))
    ensures OfViewer(t.event) ==> SameButClients(Step(c, r, t.event, t.now), s)
  {
    var r', s' := Step(c, r, t.event, t.now), Step(c, s, t.event, t.now);
    forall p
      ensures p in r'.streams <==> p in s'.streams
      ensures p in r'.streams ==> r'.streams[p] == s'.streams[p]
    {
      PathsAfter(c, r, t, p);
      PathsAfter(c, s, t, p);
      if p in r.streams { RemovesAlike(c, r, s, t, r.streams[p]); }
    }
    forall k | 0 <= k < |r.infos|
      ensures k < |r'.infos| && k < |s'.infos| && AlikeButClients(r'.infos[k], s'.infos[k])
    {
      InfosInLockstep(c, r, s, t, k);
    }
  }

  /**
   Erasing every setup and play from a history changes no path, no stream, no publisher, no activity time and no
   close: whatever viewers do, and whenever a split setup lands, only client lists differ.
   */
  lemma {:induction false} ViewersDoNotInfluenceStreams(c: Config, ts: seq<Timed>)
    ensures SameButClients(Run(c, Empty, ts), Run(c, Empty, WithoutViewers(ts)))
  {
    if ts == [] {
    } else {
      var us, t := ts[..|ts| - 1], ts[|ts| - 1];
      ViewersDoNotInfluenceStreams(c, us);
      RunKeepsInv(c, Empty, us);
      RunKeepsInv(c, Empty, WithoutViewers(us));
      var r, s := Run(c, Empty, us), Run(c, Empty, WithoutViewers(us));
      StepsInLockstep(c, r, s, t);
      if !OfViewer(t.event) {
        assert WithoutViewers(ts)[..|WithoutViewers(ts)| - 1] == WithoutViewers(us);
      }
    }
  }
}
