/**
 The WebRTC sink's session table as a transition system on values: sessions with bounded queues, broadcasts that
 hold the table's read lock, parameter-set callers, forwarders, connection callbacks, expiry and shutdown.

 `sessions[k]` is the k-th session ever created, in the table or not; goroutines that keep a session pointer after
 releasing the table lock are steps on such an index.  A send on a closed channel ends the process.
 */
module Webrtc {
  import opened GoInts

  type Id = string
  type Time = int

  const CAPACITY: nat := 1000

  /** The two parameter sets that the sink injects. */
  const SPS_DATA: seq<nat> := [
    103, 66, 192, 31, 166, 128, 216, 61, 230, 225, 0, 0, 3, 0, 1, 0, 0, 3, 0, 50, 224, 32, 0, 19, 18, 208, 0, 9, 137, 110,
    41, 32, 7, 140, 25, 80]
  const PPS_DATA: seq<nat> := [104, 206, 62, 128]

  datatype ConnectionState = New | Connecting | Connected | Disconnected | Failed | Closed

  /** A packet by identity and payload length; the parameter sets that the sink injects are told apart. */
  datatype Packet = Media(id: nat, length: nat) | Sps | Pps

  type MediaPacket = p: Packet | p.Media? witness Media(0, 0)

  function Length(p: Packet): nat {
    match p
    case Media(_, length) => length
    case Sps => |SPS_DATA|
    case Pps => |PPS_DATA|
  }

  /** A packet the forwarder took, and whether the track write succeeded. */
  datatype Taken = Taken(packet: Packet, written: bool)

  /** `accepted` and `taken` are histories; `closes` counts the closes of the channel. */
  datatype Session = Session(ttl: Time, lastActivity: Time, state: ConnectionState, queue: seq<Packet>, closes: nat,
                             accepted: seq<Packet>, taken: seq<Taken>)

  /** A broadcast in progress: the sessions of its snapshot it has not offered the packet to. */
  datatype Cast = Cast(packet: MediaPacket, todo: set<Id>, accepted: nat)

  datatype Table = Table(clients: map<Id, nat>, sessions: seq<Session>, active: Uint8, failed: Uint8, sent: Sint64,
                         casts: map<nat, Cast>, owed: multiset<nat>, crashed: bool)

  datatype Event =
    | Create(id: Id, ttl: Time, ok: bool)      // getOrCreateSession; `ok`: the peer connection and its track could be made
    | Callback(k: nat, state: ConnectionState)
    | Answer(k: nat)                           // an answer arrived for a session looked up before
    | Take(k: nat, written: bool)              // one turn of the session's forwarder
    | Direct(k: nat, packet: MediaPacket)      // ProcessRTPPacket on its own, after its lookup
    | SendSps(k: nat)                          // sendParameterSets after its lookup: the first send
    | SendPps(k: nat)                          // the second send of a caller whose first was accepted
    | CastBegin(c: nat, packet: MediaPacket)   // WriteRTP takes the read lock
    | CastSend(c: nat, id: Id)
    | CastEnd(c: nat)
    | Sweep
    | Close

  datatype Timed = Timed(event: Event, now: Time)

  const Empty := Table(map[], [], 0, 0, 0, map[], multiset{}, false)

  // ----- Effects on one session -----

  function FreshSession(ttl: Time, defaultTtl: Time, now: Time): Session {
    Session(if ttl == 0 then defaultTtl else ttl, now, New, [], 0, [], [])
  }

  predicate HasRoom(s: Session) {
    |s.queue| < CAPACITY
  }

  /** A send would be accepted. */
  predicate Takes(s: Session) {
    s.closes == 0 && HasRoom(s)
  }

  /** A non-blocking send on an open channel: dropped when the queue is full, and otherwise activity. */
  function Offer(s: Session, p: Packet, now: Time): Session {
    if HasRoom(s) then s.(queue := s.queue + [p], accepted := s.accepted + [p], lastActivity := now) else s
  }

  function Forward(s: Session, written: bool): Session {
    if s.queue == [] then s else s.(queue := s.queue[1..], taken := s.taken + [Taken(s.queue[0], written)])
  }

  predicate Expired(s: Session, now: Time) {
    now - s.lastActivity > s.ttl
  }

  function ClosedOnce(s: Session): Session {
    s.(closes := s.closes + 1)
  }

  // ----- Steps -----

  predicate InTable(t: Table, k: nat) {
    exists id | id in t.clients :: t.clients[id] == k
  }

  predicate Indexed(t: Table) {
    forall id | id in t.clients :: t.clients[id] < |t.sessions|
  }

  function Lowered(active: Uint8): Uint8 {
    if active > 0 then active - 1 else 0
  }

  function LoweredBy(active: Uint8, n: nat): Uint8 {
    if active > n then active - n else 0
  }

  /** Sending is a step of its own: it panics on a closed channel. */
  function Sent(t: Table, k: nat, p: Packet, now: Time): Table
    requires k < |t.sessions|
  {
    if t.sessions[k].closes > 0 then t.(crashed := true)
    else t.(sessions := t.sessions[k := Offer(t.sessions[k], p, now)])
  }

  function ExpiredIds(t: Table, now: Time): set<Id>
    requires Indexed(t)
  {
    set id | id in t.clients && Expired(t.sessions[t.clients[id]], now)
  }

  function SweptTable(t: Table, now: Time): Table
    requires Indexed(t)
  {
    t.(clients := t.clients - ExpiredIds(t, now),
       active := LoweredBy(t.active, |ExpiredIds(t, now)|),
       sessions := seq(|t.sessions|, k requires 0 <= k < |t.sessions| =>
         if InTable(t, k) && Expired(t.sessions[k], now) then ClosedOnce(t.sessions[k]) else t.sessions[k]))
  }

  function ClosedTable(t: Table): Table {
    t.(clients := map[],
       sessions := seq(|t.sessions|, k requires 0 <= k < |t.sessions| =>
         if InTable(t, k) then ClosedOnce(t.sessions[k]) else t.sessions[k]))
  }

  function Created(t: Table, defaultTtl: Time, id: Id, ttl: Time, ok: bool, now: Time): Table
    requires Indexed(t)
  {
    if id in t.clients then
      var k := t.clients[id];
      t.(sessions := t.sessions[k := t.sessions[k].(lastActivity := now)])
    else if ok then
      t.(clients := t.clients[id := |t.sessions|], sessions := t.sessions + [FreshSession(ttl, defaultTtl, now)])
    else t
  }

  /** The connection-state callback: the state, then the counters, as one step. */
  function CalledBack(t: Table, k: nat, state: ConnectionState): Table
    requires k < |t.sessions|
  {
    var t := t.(sessions := t.sessions[k := t.sessions[k].(state := state)]);
    match state
    case Connected => t.(active := Byte(t.active + 1))
    case Disconnected => t.(active := Lowered(t.active), failed := Byte(t.failed + 1))
    case Failed => t.(active := Lowered(t.active), failed := Byte(t.failed + 1))
    case Closed => t.(active := Lowered(t.active), failed := Byte(t.failed + 1))
    case _ => t
  }

  function Forwarded(t: Table, k: nat, written: bool): Table
    requires k < |t.sessions|
  {
    var s := t.sessions[k];
    var t := t.(sessions := t.sessions[k := Forward(s, written)]);
    if s.queue != [] && written then t.(sent := Int64(t.sent + Length(s.queue[0]))) else t
  }

  /** Whether the step can be taken: the table's write lock excludes broadcasts, and callers send in order. */
  predicate Enabled(t: Table, e: Event) {
    !t.crashed &&
    match e
    case Create(_, _, _) => t.casts == map[]
    case Sweep => t.casts == map[]
    case Close => t.casts == map[]
    case Callback(k, _) => k < |t.sessions|
    case Answer(k) => k < |t.sessions|
    case Take(k, _) => k < |t.sessions|
    case Direct(k, _) => k < |t.sessions|
    case SendSps(k) => k < |t.sessions|
    case SendPps(k) => k < |t.sessions| && k in t.owed
    case CastBegin(c, _) => c !in t.casts && t.clients != map[]
    case CastSend(c, id) => c in t.casts && id in t.casts[c].todo && id in t.clients
    case CastEnd(c) => c in t.casts && t.casts[c].todo == {}
  }

  function Step(defaultTtl: Time, t: Table, e: Event, now: Time): Table
    requires Indexed(t)
  {
    if !Enabled(t, e) then t
    else
      match e
      case Create(id, ttl, ok) => Created(t, defaultTtl, id, ttl, ok, now)
      case Callback(k, state) => CalledBack(t, k, state)
      case Answer(k) => t.(sessions := t.sessions[k := t.sessions[k].(lastActivity := now)])
      case Take(k, written) => Forwarded(t, k, written)
      case Direct(k, p) => Sent(t, k, p, now)
      case SendSps(k) =>
        var u := Sent(t, k, Sps, now);
        if Takes(t.sessions[k]) then u.(owed := u.owed + multiset{k}) else u
      case SendPps(k) => Sent(t, k, Pps, now).(owed := t.owed - multiset{k})
      case CastBegin(c, p) => t.(casts := t.casts[c := Cast(p, t.clients.Keys, 0)])
      case CastSend(c, id) =>
        var cast, k := t.casts[c], t.clients[id];
        Sent(t, k, cast.packet, now).(casts := t.casts[c := Cast(cast.packet, cast.todo - {id},
          cast.accepted + (if Takes(t.sessions[k]) then 1 else 0))])
      case CastEnd(c) => t.(casts := t.casts - {c})
      case Sweep => SweptTable(t, now)
      case Close => ClosedTable(t)
  }

  lemma SendsKeepTable(d: Time, t: Table, e: Timed)
    requires Indexed(t) && (e.event.Direct? || e.event.SendSps? || e.event.SendPps? || e.event.CastSend?)
    ensures var u := Step(d, t, e.event, e.now); u.clients == t.clients && |u.sessions| == |t.sessions|
  {
    forall k: nat, p: Packet | k < |t.sessions|
      ensures Sent(t, k, p, e.now).clients == t.clients && |Sent(t, k, p, e.now).sessions| == |t.sessions|
    {}
  }

  /** Only creation, expiry and shutdown, all under the write lock, change the table; and only creation makes sessions. */
  lemma OthersKeepTable(d: Time, t: Table, e: Timed)
    requires Indexed(t) && !e.event.Create? && !e.event.Sweep? && !e.event.Close?
    ensures var u := Step(d, t, e.event, e.now); u.clients == t.clients && |u.sessions| == |t.sessions|
  {
    if e.event.Callback? || e.event.Answer? || e.event.Take? {
    } else if e.event.CastBegin? || e.event.CastEnd? {
    } else {
      SendsKeepTable(d, t, e);
    }
  }

  lemma StepKeepsIndexed(d: Time, t: Table, e: Timed)
    requires Indexed(t)
    ensures Indexed(Step(d, t, e.event, e.now)) && |t.sessions| <= |Step(d, t, e.event, e.now).sessions|
  {
    if !e.event.Create? && !e.event.Sweep? && !e.event.Close? {
      OthersKeepTable(d, t, e);
    }
  }

  function Run(defaultTtl: Time, t: Table, ts: seq<Timed>): Table
    requires Indexed(t)
    ensures Indexed(Run(defaultTtl, t, ts))
  {
    if ts == [] then t
    else
      var u := Run(defaultTtl, t, ts[..|ts| - 1]);
      StepKeepsIndexed(defaultTtl, u, ts[|ts| - 1]);
      Step(defaultTtl, u, ts[|ts| - 1].event, ts[|ts| - 1].now)
  }

  lemma RunAppend(d: Time, t: Table, ts: seq<Timed>, e: Timed)
    requires Indexed(t)
    ensures Run(d, t, ts + [e]) == Step(d, Run(d, t, ts), e.event, e.now)
  {
    assert (ts + [e])[..|ts + [e]| - 1] == ts;
  }

  lemma RunNext(d: Time, ts: seq<Timed>, k: nat)
    requires k < |ts|
    ensures Run(d, Empty, ts[..k + 1]) == Step(d, Run(d, Empty, ts[..k]), ts[k].event, ts[k].now)
  {
    RunAppend(d, Empty, ts[..k], ts[k]);
    assert ts[..k] + [ts[k]] == ts[..k + 1];
  }
}
