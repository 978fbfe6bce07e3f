/**
 The locking protocol of the RTSP server's handlers, over Go's writer-preferring read/write mutexes: it cannot
 deadlock, every handler can finish, and no two handlers are ever in each other's way at the data they share.

 A writer first takes the turn among writers, then announces itself, which blocks new readers, and enters once no
 reader is left.  Any number of handlers run at once, and new ones may start at any time.
 */
module RtspLocks {
  datatype Lock = RegistryLock | InfoLock(k: nat)
  datatype Mode = Read | Write

  /** What the handlers share: the map of streams, and a record's clients and times. */
  datatype Data = Streams | Record(k: nat)

  datatype Op = Acquire(lock: Lock, mode: Mode) | Release(lock: Lock) | Access(data: Data, mode: Mode)
  datatype Phase = Idle | Turn | Announced

  datatype Thread = Thread(held: map<Lock, Mode>, phase: Phase, rest: seq<Op>)

  type State = seq<Thread>

  // ----- Handlers -----

  /** A handler and the records it visits, in the order its map iteration happens to take. */
  datatype Handler =
    | CleanupInactiveSessions(visited: seq<nat>)
    | LogMetrics(visited: seq<nat>)
    | ValidateConnection(visited: seq<nat>)
    | OnSessionClose(visited: seq<nat>)
    | OnDescribe
    | OnAnnounce
    | OnSetup(admits: seq<nat>)     // at most one: the record a client is added to
    | OnPlay(refreshes: seq<nat>)   // at most one: the record found under the path
    | OnRecord
    | PacketCallback(target: nat)
    | Close

  function Section(k: nat, mode: Mode): seq<Op> {
    [Acquire(InfoLock(k), mode), Access(Record(k), mode), Release(InfoLock(k))]
  }

  function Sections(visited: seq<nat>, mode: Mode): seq<Op> {
    if visited == [] then [] else Section(visited[0], mode) + Sections(visited[1..], mode)
  }

  function Under(mode: Mode, body: seq<Op>): seq<Op> {
    [Acquire(RegistryLock, mode), Access(Streams, mode)] + body + [Release(RegistryLock)]
  }

  function Program(h: Handler): seq<Op> {
    match h
    case CleanupInactiveSessions(visited) => Under(Write, Sections(visited, Write))
    case LogMetrics(visited) => Under(Read, Sections(visited, Read))
    case ValidateConnection(visited) => Under(Read, Sections(visited, Read))
    case OnSessionClose(visited) => Under(Write, Sections(visited, Write))
    case OnDescribe => Under(Read, [])
    case OnAnnounce => Under(Write, [])
    case OnSetup(admits) => Under(Read, []) + (if admits == [] then [] else Section(admits[0], Write))
    case OnPlay(refreshes) => Under(Read, if refreshes == [] then [] else Section(refreshes[0], Write))
    case OnRecord => Under(Read, [])
    case PacketCallback(target) => Section(target, Write)
    case Close => Under(Write, [])
  }

  // ----- Lock order -----

  /** The registry lock is taken first, a record's lock only with no other record's lock held, nothing twice, all released. */
  predicate Disciplined(held: set<Lock>, rest: seq<Op>)
    decreases rest
  {
    if rest == [] then held == {}
    else
      match rest[0]
      case Acquire(l, _) =>
        && l !in held
        && (if l.RegistryLock? then held == {} else forall m | m in held :: m.RegistryLock?)
        && Disciplined(held + {l}, rest[1..])
      case Release(l) => l in held && Disciplined(held - {l}, rest[1..])
      case Access(_, _) => Disciplined(held, rest[1..])
  }

  lemma SectionIsDisciplined(held: set<Lock>, k: nat, mode: Mode, rest: seq<Op>)
    requires held <= {RegistryLock} && Disciplined(held, rest)
    ensures Disciplined(held, Section(k, mode) + rest)
  {
    var ops := Section(k, mode) + rest;
    var inner := held + {InfoLock(k)};
    assert inner - {InfoLock(k)} == held;
    assert ops[1..][1..][1..] == rest;
    assert ops[1..][1..][0] == Release(InfoLock(k)) && ops[1..][0] == Access(Record(k), mode);
    assert Disciplined(inner, ops[1..][1..]);
    assert Disciplined(inner, ops[1..]);
  }

  lemma {:induction false} SectionsAreDisciplined(visited: seq<nat>, mode: Mode, rest: seq<Op>)
    requires Disciplined({RegistryLock}, rest)
    ensures Disciplined({RegistryLock}, Sections(visited, mode) + rest)
  {
    if visited == [] {
      assert Sections(visited, mode) + rest == rest;
    } else {
      SectionsAreDisciplined(visited[1..], mode, rest);
      SectionIsDisciplined({RegistryLock}, visited[0], mode, Sections(visited[1..], mode) + rest);
      assert Sections(visited, mode) + rest == Section(visited[0], mode) + (Sections(visited[1..], mode) + rest);
    }
  }

  lemma UnderIsDisciplined(mode: Mode, visited: seq<nat>, inner: Mode, rest: seq<Op>)
    requires Disciplined({}, rest)
    ensures Disciplined({}, Under(mode, Sections(visited, inner)) + rest)
  {
    var unlock := [Release(RegistryLock)] + rest;
    assert {RegistryLock} - {RegistryLock} == {};
    assert unlock[1..] == rest;
    assert Disciplined({RegistryLock}, unlock);
    SectionsAreDisciplined(visited, inner, unlock);
    var body := Sections(visited, inner) + unlock;
    var ops := Under(mode, Sections(visited, inner)) + rest;
    assert ops == [Acquire(RegistryLock, mode), Access(Streams, mode)] + body;
    assert ops[1..][1..] == body && ops[1..][0] == Access(Streams, mode);
    assert {} + {RegistryLock} == {RegistryLock};
    assert Disciplined({RegistryLock}, ops[1..]);
  }

  lemma HandlersAreDisciplined(h: Handler)
    ensures Disciplined({}, Program(h))
  {
    assert Program(h) == Program(h) + [];
    match h
    case CleanupInactiveSessions(visited) => UnderIsDisciplined(Write, visited, Write, []);
    case LogMetrics(visited) => UnderIsDisciplined(Read, visited, Read, []);
    case ValidateConnection(visited) => UnderIsDisciplined(Read, visited, Read, []);
    case OnSessionClose(visited) => UnderIsDisciplined(Write, visited, Write, []);
    case OnDescribe => UnderIsDisciplined(Read, [], Read, []);
    case OnAnnounce => UnderIsDisciplined(Write, [], Read, []);
    case OnSetup(admits) =>
      if admits == [] {
        UnderIsDisciplined(Read, [], Read, []);
      } else {
        SectionIsDisciplined({}, admits[0], Write, []);
        assert Section(admits[0], Write) + [] == Section(admits[0], Write);
        UnderIsDisciplined(Read, [], Read, Section(admits[0], Write));
      }
    case OnPlay(refreshes) =>
      if refreshes == [] {
        UnderIsDisciplined(Read, [], Write, []);
      } else {
        assert Sections([refreshes[0]], Write) == Section(refreshes[0], Write);
        UnderIsDisciplined(Read, [refreshes[0]], Write, []);
      }
    case OnRecord => UnderIsDisciplined(Read, [], Read, []);
    case PacketCallback(target) =>
      SectionIsDisciplined({}, target, Write, []);
      assert Section(target, Write) + [] == Section(target, Write);
    case Close => UnderIsDisciplined(Write, [], Read, []);
  }

  // ----- Steps -----

  predicate Holds(t: Thread, l: Lock, mode: Mode) {
    l in t.held && t.held[l] == mode
  }

  /** The thread has the writers' turn on `l`, announced or not. */
  predicate HasTurn(t: Thread, l: Lock) {
    t.phase != Idle && t.rest != [] && t.rest[0] == Acquire(l, Write)
  }

  predicate CanStep(s: State, i: nat) {
    && i < |s| && s[i].rest != []
    && match s[i].rest[0]
       case Access(_, _) => true
       case Release(l) => l in s[i].held
       case Acquire(l, Read) =>
         forall j | 0 <= j < |s| :: !Holds(s[j], l, Write) && !(HasTurn(s[j], l) && s[j].phase == Announced)
       case Acquire(l, Write) =>
         match s[i].phase
         case Idle => forall j | 0 <= j < |s| :: !Holds(s[j], l, Write) && !HasTurn(s[j], l)
         case Turn => true
         case Announced => forall j | 0 <= j < |s| :: l !in s[j].held
  }

  /** A writer that has announced itself, or is in, keeps readers out, and one that is in keeps everybody else out. */
  lemma WriterComesFirst(s: State, i: nat, j: nat, l: Lock)
    requires i < |s| && j < |s| && s[i].rest != [] && s[i].rest[0].Acquire? && s[i].rest[0].lock == l
    ensures s[i].rest[0].mode == Read && HasTurn(s[j], l) && s[j].phase == Announced ==> !CanStep(s, i)
    ensures Holds(s[j], l, Write) && s[i].phase != Turn ==> !CanStep(s, i)
  {
  }

  function Advance(t: Thread): Thread
    requires t.rest != []
  {
    match t.rest[0]
    case Access(_, _) => t.(rest := t.rest[1..])
    case Release(l) => t.(held := t.held - {l}, rest := t.rest[1..])
    case Acquire(l, Read) => t.(held := t.held[l := Read], rest := t.rest[1..])
    case Acquire(l, Write) =>
      match t.phase
      case Idle => t.(phase := Turn)
      case Turn => t.(phase := Announced)
      case Announced => Thread(t.held[l := Write], Idle, t.rest[1..])
  }

  function Started(h: Handler): Thread {
    Thread(map[], Idle, Program(h))
  }

  datatype Move = Go(i: nat) | Start(handler: Handler)

  predicate Allowed(s: State, m: Move) {
    m.Go? ==> CanStep(s, m.i)
  }

  function Next(s: State, m: Move): State
    requires Allowed(s, m)
  {
    match m
    case Go(i) => s[i := Advance(s[i])]
    case Start(h) => s + [Started(h)]
  }

  ghost predicate Leads(s: State, moves: seq<Move>, end: State)
    decreases moves
  {
    if moves == [] then s == end
    else Allowed(s, moves[0]) && Leads(Next(s, moves[0]), moves[1..], end)
  }

  // ----- Invariants -----

  predicate ThreadOk(t: Thread) {
    && Disciplined(t.held.Keys, t.rest)
    && (t.phase != Idle ==> t.rest != [] && t.rest[0].Acquire? && t.rest[0].mode == Write)
  }

  /** Two different threads share a lock only as readers, and at most one of them is its writer or has the writers' turn. */
  predicate Exclusive(t: Thread, u: Thread) {
    forall l | l in t.held && t.held[l] == Write :: l !in u.held && !HasTurn(u, l)
  }

  predicate OneTurn(t: Thread, u: Thread) {
    t.phase != Idle && u.phase != Idle && t.rest != [] && u.rest != [] ==> t.rest[0] != u.rest[0]
  }

  /** What holds between any two different threads, both ways. */
  predicate Apart(t: Thread, u: Thread) {
    Exclusive(t, u) && Exclusive(u, t) && OneTurn(t, u) && OneTurn(u, t)
  }

  ghost predicate Ok(s: State) {
    && (forall i | 0 <= i < |s| :: ThreadOk(s[i]))
    && (forall i, j | 0 <= i < |s| && 0 <= j < |s| && i != j :: Apart(s[i], s[j]))
  }

  lemma AdvanceKeepsThreadOk(t: Thread)
    requires ThreadOk(t) && t.rest != [] && (t.rest[0].Release? ==> t.rest[0].lock in t.held)
    ensures ThreadOk(Advance(t))
  {
    match t.rest[0]
    case Acquire(l, _) => assert t.held[l := Write].Keys == t.held.Keys + {l} == t.held[l := Read].Keys;
    case Release(l) => assert (t.held - {l}).Keys == t.held.Keys - {l};
    case Access(_, _) =>
  }

  // One lemma for each kind of operation: the thread that takes it stays apart from any other.

  lemma PassingKeepsApart(t: Thread, u: Thread)
    requires ThreadOk(t) && Apart(t, u) && t.rest != [] && !t.rest[0].Acquire?
    ensures Apart(Advance(t), u)
  {
    assert t.phase == Idle && Advance(t).phase == Idle;
  }

  lemma ReadKeepsApart(t: Thread, u: Thread, l: Lock)
    requires ThreadOk(t) && Apart(t, u) && t.rest != [] && t.rest[0] == Acquire(l, Read) && !Holds(u, l, Write)
    ensures Apart(Advance(t), u)
  {
    assert t.phase == Idle && Advance(t).phase == Idle;
  }

  lemma TurnKeepsApart(t: Thread, u: Thread, l: Lock)
    requires Apart(t, u) && t.rest != [] && t.rest[0] == Acquire(l, Write) && t.phase == Idle
    requires !Holds(u, l, Write) && !HasTurn(u, l)
    ensures Apart(Advance(t), u)
  {
    var t' := Advance(t);
    assert forall m :: HasTurn(t', m) ==> m == l;
  }

  lemma AnnouncingKeepsApart(t: Thread, u: Thread, l: Lock)
    requires Apart(t, u) && t.rest != [] && t.rest[0] == Acquire(l, Write) && t.phase == Turn
    ensures Apart(Advance(t), u)
  {
    assert forall m :: HasTurn(Advance(t), m) <==> HasTurn(t, m);
  }

  lemma WriteKeepsApart(t: Thread, u: Thread, l: Lock)
    requires Apart(t, u) && t.rest != [] && t.rest[0] == Acquire(l, Write) && t.phase == Announced && l !in u.held
    ensures Apart(Advance(t), u)
  {
    assert Advance(t).phase == Idle && !HasTurn(u, l);
  }

  lemma AdvanceKeepsApart(s: State, i: nat, j: nat)
    requires Ok(s) && CanStep(s, i) && j < |s| && i != j
    ensures Apart(Advance(s[i]), s[j])
  {
    var t, u := s[i], s[j];
    assert ThreadOk(t) && Apart(t, u);
    match t.rest[0]
    case Access(_, _) => PassingKeepsApart(t, u);
    case Release(_) => PassingKeepsApart(t, u);
    case Acquire(l, Read) => ReadKeepsApart(t, u, l);
    case Acquire(l, Write) =>
      match t.phase
      case Idle => TurnKeepsApart(t, u, l);
      case Turn => AnnouncingKeepsApart(t, u, l);
      case Announced => WriteKeepsApart(t, u, l);
  }

  lemma GoKeepsOk(s: State, i: nat)
    requires Ok(s) && CanStep(s, i)
    ensures Ok(Next(s, Go(i)))
  {
    AdvanceKeepsThreadOk(s[i]);
    var s' := Next(s, Go(i));
    forall j, k | 0 <= j < |s'| && 0 <= k < |s'| && j != k ensures Apart(s'[j], s'[k]) {
      if j == i {
        AdvanceKeepsApart(s, i, k);
      } else if k == i {
        AdvanceKeepsApart(s, i, j);
      } else {
        assert Apart(s[j], s[k]);
      }
    }
  }

  lemma StartedIsOk(h: Handler)
    ensures ThreadOk(Started(h))
  {
    HandlersAreDisciplined(h);
    assert Started(h).held.Keys == {};
  }

  lemma StartKeepsOk(s: State, h: Handler)
    requires Ok(s)
    ensures Ok(Next(s, Start(h)))
  {
    StartedIsOk(h);
    var s' := Next(s, Start(h));
    forall i | 0 <= i < |s'| ensures ThreadOk(s'[i]) {
      if i < |s| { assert ThreadOk(s[i]); }
    }
    forall j, k | 0 <= j < |s'| && 0 <= k < |s'| && j != k ensures Apart(s'[j], s'[k]) {
      if j < |s| && k < |s| { assert Apart(s[j], s[k]); }
    }
  }

  lemma MoveKeepsOk(s: State, m: Move)
    requires Ok(s) && Allowed(s, m)
    ensures Ok(Next(s, m))
  {
    match m
    case Go(i) => GoKeepsOk(s, i);
    case Start(h) => StartKeepsOk(s, h);
  }

  lemma {:induction false} ReachableIsOk(s: State, moves: seq<Move>, end: State)
    requires Ok(s) && Leads(s, moves, end)
    ensures Ok(end)
    decreases moves
  {
    if moves == [] {
    } else {
      MoveKeepsOk(s, moves[0]);
      ReachableIsOk(Next(s, moves[0]), moves[1..], end);
    }
  }

  // ----- Deadlock freedom -----

  ghost predicate SomeCanStep(s: State) {
    exists i :: 0 <= i < |s| && CanStep(s, i)
  }

  /** If nobody holds a lock, then whoever wants it, it or another thread can step. */
  lemma FreeLockIsTaken(s: State, l: Lock, i: nat)
    requires i < |s| && s[i].rest != [] && s[i].rest[0].Acquire? && s[i].rest[0].lock == l
    requires forall j | 0 <= j < |s| :: l !in s[j].held
    ensures SomeCanStep(s)
  {
    if j :| 0 <= j < |s| && HasTurn(s[j], l) {
      assert CanStep(s, j);
    } else {
      assert CanStep(s, i);
    }
  }

  lemma HolderOfInfoMoves(s: State, j: nat, k: nat)
    requires Ok(s) && j < |s| && InfoLock(k) in s[j].held
    ensures CanStep(s, j)
  {
    var t := s[j];
    assert ThreadOk(t) && InfoLock(k) in t.held.Keys;
    assert t.rest != [];
    if t.rest[0].Acquire? {
      assert false;
    }
  }

  lemma OkMeansSomeCanStep(s: State, i: nat)
    requires Ok(s) && i < |s| && s[i].rest != []
    ensures SomeCanStep(s)
  {
    if j, k :| 0 <= j < |s| && InfoLock(k) in s[j].held {
      HolderOfInfoMoves(s, j, k);
    } else if j :| 0 <= j < |s| && s[j].rest != [] && s[j].rest[0].Acquire? && s[j].rest[0].lock.InfoLock? {
      FreeLockIsTaken(s, s[j].rest[0].lock, j);
    } else if j :| 0 <= j < |s| && RegistryLock in s[j].held {
      assert s[j].rest != [] && !s[j].rest[0].Acquire?;
      assert CanStep(s, j);
    } else {
      forall j, l | 0 <= j < |s| ensures l !in s[j].held {
        match l case RegistryLock => case InfoLock(k) =>
      }
      if s[i].rest[0].Acquire? {
        FreeLockIsTaken(s, RegistryLock, i);
      } else {
        assert CanStep(s, i);
      }
    }
  }

  /**
   From a server with no handler running, whatever handlers start and however they interleave: as long as one is
   unfinished, some handler can take a step; and a writer shares its lock with nobody.
   */
  lemma DeadlockFreedom(moves: seq<Move>, s: State)
    requires Leads([], moves, s)
    ensures (exists i :: 0 <= i < |s| && s[i].rest != []) ==> SomeCanStep(s)
    ensures forall i, j, l | 0 <= i < |s| && 0 <= j < |s| && i != j && Holds(s[i], l, Write) :: l !in s[j].held
  {
    ReachableIsOk([], moves, s);
    if i :| 0 <= i < |s| && s[i].rest != [] {
      OkMeansSomeCanStep(s, i);
    }
    forall i, j, l | 0 <= i < |s| && 0 <= j < |s| && i != j && Holds(s[i], l, Write) ensures l !in s[j].held {
      assert Apart(s[i], s[j]);
    }
  }

  // ----- No two handlers collide -----

  function LockOf(data: Data): Lock {
    match data case Streams => RegistryLock case Record(k) => InfoLock(k)
  }

  /** A lock held in this mode covers an access in that mode. */
  predicate Covers(held: Mode, access: Mode) {
    access == Write ==> held == Write
  }

  /** Every access happens while the lock of its data is held, and for writing if it writes. */
  predicate Guarded(held: map<Lock, Mode>, rest: seq<Op>)
    decreases rest
  {
    rest == [] ||
    match rest[0]
    case Acquire(l, mode) => Guarded(held[l := mode], rest[1..])
    case Release(l) => Guarded(held - {l}, rest[1..])
    case Access(data, mode) =>
      LockOf(data) in held && Covers(held[LockOf(data)], mode) && Guarded(held, rest[1..])
  }

  lemma SectionIsGuarded(held: map<Lock, Mode>, k: nat, mode: Mode, rest: seq<Op>)
    requires InfoLock(k) !in held && Guarded(held, rest)
    ensures Guarded(held, Section(k, mode) + rest)
  {
    var ops := Section(k, mode) + rest;
    var inner := held[InfoLock(k) := mode];
    assert inner - {InfoLock(k)} == held;
    assert ops[1..][1..][1..] == rest;
    assert ops[1..][1..][0] == Release(InfoLock(k)) && ops[1..][0] == Access(Record(k), mode);
    assert Guarded(inner, ops[1..][1..]);
    assert Guarded(inner, ops[1..]);
  }

  lemma {:induction false} SectionsAreGuarded(held: map<Lock, Mode>, visited: seq<nat>, mode: Mode, rest: seq<Op>)
    requires (forall k :: InfoLock(k) !in held) && Guarded(held, rest)
    ensures Guarded(held, Sections(visited, mode) + rest)
  {
    if visited == [] {
      assert Sections(visited, mode) + rest == rest;
    } else {
      SectionsAreGuarded(held, visited[1..], mode, rest);
      SectionIsGuarded(held, visited[0], mode, Sections(visited[1..], mode) + rest);
      assert Sections(visited, mode) + rest == Section(visited[0], mode) + (Sections(visited[1..], mode) + rest);
    }
  }

  lemma UnderIsGuarded(mode: Mode, visited: seq<nat>, inner: Mode, rest: seq<Op>)
    requires Guarded(map[], rest)
    ensures Guarded(map[], Under(mode, Sections(visited, inner)) + rest)
  {
    var held, unlock := map[RegistryLock := mode], [Release(RegistryLock)] + rest;
    assert held - {RegistryLock} == map[] && unlock[1..] == rest;
    assert Guarded(held, unlock);
    SectionsAreGuarded(held, visited, inner, unlock);
    var body := Sections(visited, inner) + unlock;
    var ops := Under(mode, Sections(visited, inner)) + rest;
    assert ops == [Acquire(RegistryLock, mode), Access(Streams, mode)] + body;
    assert ops[1..][1..] == body && ops[1..][0] == Access(Streams, mode);
    assert map[][RegistryLock := mode] == held;
    assert Guarded(held, ops[1..]);
  }

  lemma HandlersAreGuarded(h: Handler)
    ensures Guarded(map[], Program(h))
  {
    assert Program(h) == Program(h) + [];
    match h
    case CleanupInactiveSessions(visited) => UnderIsGuarded(Write, visited, Write, []);
    case LogMetrics(visited) => UnderIsGuarded(Read, visited, Read, []);
    case ValidateConnection(visited) => UnderIsGuarded(Read, visited, Read, []);
    case OnSessionClose(visited) => UnderIsGuarded(Write, visited, Write, []);
    case OnDescribe => UnderIsGuarded(Read, [], Read, []);
    case OnAnnounce => UnderIsGuarded(Write, [], Read, []);
    case OnSetup(admits) =>
      if admits == [] {
        UnderIsGuarded(Read, [], Read, []);
      } else {
        SectionIsGuarded(map[], admits[0], Write, []);
        assert Section(admits[0], Write) + [] == Section(admits[0], Write);
        UnderIsGuarded(Read, [], Read, Section(admits[0], Write));
      }
    case OnPlay(refreshes) =>
      if refreshes == [] {
        UnderIsGuarded(Read, [], Write, []);
      } else {
        assert Sections([refreshes[0]], Write) == Section(refreshes[0], Write);
        UnderIsGuarded(Read, [refreshes[0]], Write, []);
      }
    case OnRecord => UnderIsGuarded(Read, [], Read, []);
    case PacketCallback(target) =>
      SectionIsGuarded(map[], target, Write, []);
      assert Section(target, Write) + [] == Section(target, Write);
    case Close => UnderIsGuarded(Write, [], Read, []);
  }

  ghost predicate AllGuarded(s: State) {
    forall i | 0 <= i < |s| :: Guarded(s[i].held, s[i].rest)
  }

  lemma MoveKeepsGuarded(s: State, m: Move)
    requires AllGuarded(s) && Allowed(s, m)
    ensures AllGuarded(Next(s, m))
  {
    if m.Start? { HandlersAreGuarded(m.handler); }
  }

  lemma {:induction false} ReachableIsGuarded(s: State, moves: seq<Move>, end: State)
    requires AllGuarded(s) && Leads(s, moves, end)
    ensures AllGuarded(end)
    decreases moves
  {
    if moves == [] {
    } else {
      MoveKeepsGuarded(s, moves[0]);
      ReachableIsGuarded(Next(s, moves[0]), moves[1..], end);
    }
  }

  predicate AboutTo(t: Thread, data: Data, mode: Mode) {
    t.rest != [] && t.rest[0] == Access(data, mode)
  }

  /**
   From a server with no handler running, whatever handlers start and however they interleave: never are two handlers
   about to access the same map or record at once, unless both only read.
   */
  lemma NoCollisions(moves: seq<Move>, s: State, i: nat, j: nat, data: Data, mode: Mode)
    requires Leads([], moves, s) && i < |s| && j < |s| && i != j
    requires AboutTo(s[i], data, Write)
    ensures !AboutTo(s[j], data, mode)
  {
    ReachableIsOk([], moves, s);
    ReachableIsGuarded([], moves, s);
    assert Apart(s[i], s[j]);
    assert Guarded(s[i].held, s[i].rest) && Guarded(s[j].held, s[j].rest);
  }

  lemma {:induction false} SectionsAccess(visited: seq<nat>, mode: Mode, data: Data, access: Mode)
    ensures Access(data, access) in Sections(visited, mode) <==> data.Record? && data.k in visited && access == mode
  {
    if visited == [] {
    } else {
      SectionsAccess(visited[1..], mode, data, access);
      assert visited == [visited[0]] + visited[1..];
    }
  }

  lemma UnderAccesses(mode: Mode, visited: seq<nat>, inner: Mode, data: Data, access: Mode)
    ensures Access(data, access) in Under(mode, Sections(visited, inner)) <==>
      access == (if data.Streams? then mode else inner) && (data.Record? ==> data.k in visited)
  {
    SectionsAccess(visited, inner, data, access);
  }

  lemma AccessesOf(h: Handler, data: Data, access: Mode)
    ensures Access(data, access) in Program(h) <==>
      match h
      case CleanupInactiveSessions(visited) => access == Write && (data.Record? ==> data.k in visited)
      case LogMetrics(visited) => access == Read && (data.Record? ==> data.k in visited)
      case ValidateConnection(visited) => access == Read && (data.Record? ==> data.k in visited)
      case OnSessionClose(visited) => access == Write && (data.Record? ==> data.k in visited)
      case OnDescribe => access == Read && data.Streams?
      case OnAnnounce => access == Write && data.Streams?
      case OnSetup(admits) => if data.Streams? then access == Read else access == Write && admits != [] && data.k == admits[0]
      case OnPlay(refreshes) =>
        if data.Streams? then access == Read else access == Write && refreshes != [] && data.k == refreshes[0]
      case OnRecord => access == Read && data.Streams?
      case PacketCallback(target) => access == Write && data == Record(target)
      case Close => access == Write && data.Streams?
  {
    match h
    case CleanupInactiveSessions(visited) => UnderAccesses(Write, visited, Write, data, access);
    case LogMetrics(visited) => UnderAccesses(Read, visited, Read, data, access);
    case ValidateConnection(visited) => UnderAccesses(Read, visited, Read, data, access);
    case OnSessionClose(visited) => UnderAccesses(Write, visited, Write, data, access);
    case _ =>
  }

  /** Which handlers change the map of streams, which only look at it, and whose clients and times each one touches. */
  lemma HandlerAccesses(h: Handler, k: nat)
    ensures Access(Streams, Write) in Program(h) <==> h.CleanupInactiveSessions? || h.OnSessionClose? || h.OnAnnounce? || h.Close?
    ensures Access(Streams, Read) in Program(h) <==>
      h.LogMetrics? || h.ValidateConnection? || h.OnDescribe? || h.OnSetup? || h.OnPlay? || h.OnRecord?
    ensures Access(Record(k), Write) in Program(h) <==>
      match h
      case CleanupInactiveSessions(visited) => k in visited
      case OnSessionClose(visited) => k in visited
      case OnSetup(admits) => admits != [] && k == admits[0]
      case OnPlay(refreshes) => refreshes != [] && k == refreshes[0]
      case PacketCallback(target) => k == target
      case _ => false
    ensures Access(Record(k), Read) in Program(h) <==>
      match h
      case LogMetrics(visited) => k in visited
      case ValidateConnection(visited) => k in visited
      case _ => false
  {
    AccessesOf(h, Streams, Write);
    AccessesOf(h, Streams, Read);
    AccessesOf(h, Record(k), Write);
    AccessesOf(h, Record(k), Read);
  }

  // ----- Completion -----

  function Effort(t: Thread): int {
    3 * |t.rest| - (match t.phase case Idle => 0 case Turn => 1 case Announced => 2)
  }

  function TotalEffort(s: State): int {
    if s == [] then 0 else Effort(s[0]) + TotalEffort(s[1..])
  }

  lemma {:induction false} TotalEffortUpdate(s: State, i: nat, t: Thread)
    requires i < |s|
    ensures TotalEffort(s[i := t]) == TotalEffort(s) - Effort(s[i]) + Effort(t)
  {
    if i == 0 {
      assert s[i := t][1..] == s[1..];
    } else {
      assert s[i := t][1..] == s[1..][i - 1 := t];
      TotalEffortUpdate(s[1..], i - 1, t);
    }
  }

  lemma {:induction false} TotalEffortNonNegative(s: State)
    requires forall i | 0 <= i < |s| :: ThreadOk(s[i])
    ensures TotalEffort(s) >= 0
  {
    if s == [] {
    } else {
      assert ThreadOk(s[0]);
      TotalEffortNonNegative(s[1..]);
    }
  }

  lemma StepTakesEffort(s: State, i: nat)
    requires CanStep(s, i) && ThreadOk(s[i])
    ensures TotalEffort(Next(s, Go(i))) < TotalEffort(s)
  {
    TotalEffortUpdate(s, i, Advance(s[i]));
  }

  /** However the running handlers are scheduled, they take at most `TotalEffort` steps: no schedule runs for ever. */
  lemma {:induction false} SchedulesAreBounded(s: State, moves: seq<Move>, end: State)
    requires Ok(s) && Leads(s, moves, end) && forall m | m in moves :: m.Go?
    ensures |moves| <= TotalEffort(s) - TotalEffort(end) && TotalEffort(end) >= 0
    decreases moves
  {
    ReachableIsOk(s, moves, end);
    TotalEffortNonNegative(end);
    if moves == [] {
    } else {
      MoveKeepsOk(s, moves[0]);
      StepTakesEffort(s, moves[0].i);
      SchedulesAreBounded(Next(s, moves[0]), moves[1..], end);
    }
  }

  /** Running handlers can always be brought to their end, with every lock released. */
  lemma {:induction false} HandlersFinish(s: State) returns (moves: seq<Move>, end: State)
    requires Ok(s)
    ensures Leads(s, moves, end) && (forall m | m in moves :: m.Go?)
    ensures forall i | 0 <= i < |end| :: end[i].rest == [] && end[i].held == map[]
    decreases TotalEffort(s)
  {
    TotalEffortNonNegative(s);
    if i :| 0 <= i < |s| && s[i].rest != [] {
      OkMeansSomeCanStep(s, i);
      var j :| 0 <= j < |s| && CanStep(s, j);
      StepTakesEffort(s, j);
      MoveKeepsOk(s, Go(j));
      var more;
      TotalEffortNonNegative(Next(s, Go(j)));
      more, end := HandlersFinish(Next(s, Go(j)));
      moves := [Go(j)] + more;
      assert moves[1..] == more;
    } else {
      moves, end := [], s;
      forall i | 0 <= i < |end| ensures end[i].held == map[] {
        assert ThreadOk(end[i]);
      }
    }
  }
}
