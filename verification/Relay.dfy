/**
 The WebSocket relay: admission by an unsigned byte counter that is raised twice per client and lowered once, and
 fan-out with byte accounting.  Here admission and departure of a client are single steps; the steps of one request
 are taken apart in `RelayRequests`.  Broadcasts go client by client over a snapshot, with anything in between.
 */
module Relay {
  import opened GoInts

  type ClientId = nat

  /** A broadcast in progress: the clients of its snapshot still to be served, and those reached, in order. */
  datatype Cast = Cast(length: nat, snapshot: set<ClientId>, todo: set<ClientId>, reached: seq<ClientId>)

  /** `nextId` stands for the source of fresh client IDs. */
  datatype State = State(clients: set<ClientId>, nextId: ClientId, active: Uint8, failed: Uint8, sent: Sint64,
                         casts: map<nat, Cast>)

  datatype Event =
    | Connect(upgraded: bool)                            // a client's request, and whether its upgrade succeeds
    | Depart(id: ClientId)                               // its handler returns
    | DepartStale                                        // a handler from before the last reset returns: it holds the old metrics
    | CastBegin(b: nat, length: nat)                     // a host's message: the clients are copied
    | CastSend(b: nat, id: ClientId, written: bool)      // its next send, to a client that may have left; a failed one ends it
    | CastEnd(b: nat)
    | ToHost(length: nat, arrived: bool)                 // a client's message
    | Reset

  const Initial := State({}, 0, 0, 0, 0, map[])

  /** The test of upgradeRequest: the sum is an unsigned byte. */
  predicate Admits(limit: nat, s: State) {
    Byte(s.active + 1) <= limit
  }

  /** The broadcast can send to this client next: it was in the snapshot and has not been served. */
  predicate Awaits(s: State, b: nat, id: ClientId) {
    b in s.casts && id in s.casts[b].todo
  }

  function Reached(cast: Cast, id: ClientId): Cast {
    cast.(todo := cast.todo - {id}, reached := cast.reached + [id])
  }

  function Step(limit: nat, s: State, e: Event): State {
    match e
    case Connect(upgraded) =>
      if !Admits(limit, s) then s.(failed := Byte(s.failed + 1))
      else if !upgraded then s.(active := Byte(Byte(s.active + 1) - 1), failed := Byte(s.failed + 1))
      else s.(clients := s.clients + {s.nextId}, nextId := s.nextId + 1, active := Byte(Byte(s.active + 1) + 1))
    case Depart(id) =>
      if id in s.clients then s.(clients := s.clients - {id}, active := Byte(s.active - 1)) else s
    case DepartStale => s
    case CastBegin(b, length) =>
      if b !in s.casts && s.clients != {} then s.(casts := s.casts[b := Cast(length, s.clients, s.clients, [])]) else s
    case CastSend(b, id, written) =>
      if !Awaits(s, b, id) then s
      else if !written then s.(casts := s.casts - {b})
      else s.(casts := s.casts[b := Reached(s.casts[b], id)], sent := Int64(s.sent + s.casts[b].length))
    case CastEnd(b) => if b in s.casts && s.casts[b].todo == {} then s.(casts := s.casts - {b}) else s
    case ToHost(length, arrived) => if arrived then s.(sent := Int64(s.sent + length)) else s
    case Reset => State({}, s.nextId, 0, 0, 0, s.casts)
  }

  function Run(limit: nat, s: State, es: seq<Event>): State {
    if es == [] then s else Step(limit, Run(limit, s, es[..|es| - 1]), es[|es| - 1])
  }

  // ----- What each step does, in counts -----

  /**
   A request is let in exactly if the counter plus one, as an unsigned byte, is at most the limit; then a successful
   upgrade raises the counter by two and adds a fresh client.  A refusal, or a failed upgrade, only counts a failure.
   */
  lemma ConnectEffect(limit: nat, s: State, upgraded: bool)
    ensures var t := Step(limit, s, Connect(upgraded));
      var admitted := (s.active + 1) % 256 <= limit && upgraded;
      && (admitted ==> t == s.(clients := s.clients + {s.nextId}, nextId := s.nextId + 1, active := (s.active + 2) % 256))
      && (!admitted ==> t == s.(failed := (s.failed + 1) % 256))
  {
  }

  lemma DepartEffect(limit: nat, s: State, id: ClientId)
    ensures Step(limit, s, Depart(id)) ==
      if id in s.clients then s.(clients := s.clients - {id}, active := (s.active + 255) % 256) else s
  {
  }

  lemma OtherEffects(limit: nat, s: State, b: nat, length: nat)
    ensures Step(limit, s, ToHost(length, true)) == s.(sent := Int64(s.sent + length))
    ensures Step(limit, s, ToHost(length, false)) == s && Step(limit, s, DepartStale) == s
    ensures Step(limit, s, CastEnd(b)) == if b in s.casts && s.casts[b].todo == {} then s.(casts := s.casts - {b}) else s
    ensures Step(limit, s, Reset) == s.(clients := {}, active := 0, failed := 0, sent := 0)
  {
  }

  /**
   A broadcast is over the clients of the moment; each send adds the message's length exactly if it succeeds, and the
   first that fails is the last.
   */
  lemma CastEffect(limit: nat, s: State, b: nat, length: nat, id: ClientId)
    ensures b !in s.casts && s.clients != {} ==>
      Step(limit, s, CastBegin(b, length)) == s.(casts := s.casts[b := Cast(length, s.clients, s.clients, [])])
    ensures s.clients == {} ==> Step(limit, s, CastBegin(b, length)) == s
    ensures b in s.casts && id in s.casts[b].todo ==>
      var t, cast := Step(limit, s, CastSend(b, id, true)), s.casts[b];
      && t == s.(casts := t.casts, sent := Int64(s.sent + cast.length))
      && t.casts == s.casts[b := Cast(cast.length, cast.snapshot, cast.todo - {id}, cast.reached + [id])]
    ensures b in s.casts && id in s.casts[b].todo ==> Step(limit, s, CastSend(b, id, false)) == s.(casts := s.casts - {b})
    ensures b !in s.casts ==> forall written :: Step(limit, s, CastSend(b, id, written)) == s
  {
  }

  // ----- The limit -----

  /** Clients admitted since the last reset. */
  function Admitted(limit: nat, es: seq<Event>): nat {
    if es == [] then 0
    else
      var us, e := es[..|es| - 1], es[|es| - 1];
      if e.Reset? then 0
      else Admitted(limit, us) + (if e == Connect(true) && Admits(limit, Run(limit, Initial, us)) then 1 else 0)
  }

  ghost predicate Fresh(s: State) {
    forall id | id in s.clients :: id < s.nextId
  }

  ghost predicate Leaking(limit: nat, s: State, n: nat) {
    Fresh(s) && s.active == |s.clients| + n && |s.clients| <= n <= limit && s.active <= limit + 1
  }

  lemma StepLeaks(limit: nat, s: State, n: nat, e: Event)
    requires limit <= 253 && Leaking(limit, s, n)
    ensures Leaking(limit, Step(limit, s, e),
                    if e.Reset? then 0 else n + (if e == Connect(true) && Admits(limit, s) then 1 else 0))
  {
    if e == Connect(true) {
      assert |s.clients + {s.nextId}| == |s.clients| + 1;
    }
  }

  /**
   With a limit of at most 253 the counter is exactly the connected clients plus every client admitted since the
   last reset: the second increment is never undone.  So at most `limit` clients are admitted in all until a reset,
   and at most half of `limit + 1` are connected at once.
   */
  lemma {:induction false} CounterLeaks(limit: nat, es: seq<Event>)
    requires limit <= 253
    ensures var s, n := Run(limit, Initial, es), Admitted(limit, es);
      Leaking(limit, s, n) && 2 * |s.clients| <= limit + 1
  {
    if es == [] {
    } else {
      var us := es[..|es| - 1];
      CounterLeaks(limit, us);
      StepLeaks(limit, Run(limit, Initial, us), Admitted(limit, us), es[|es| - 1]);
    }
  }

  /** Once a server has admitted its fill, it refuses every client until a reset, even with nobody connected. */
  lemma LimitIsForLife(limit: nat, es: seq<Event>)
    requires limit <= 253 && Admitted(limit, es) == limit
    ensures !Admits(limit, Run(limit, Initial, es))
  {
    CounterLeaks(limit, es);
  }

  /** The counter never claims fewer clients than there are. */
  ghost predicate CounterCovers(limit: nat) {
    forall es :: |Run(limit, Initial, es).clients| <= Run(limit, Initial, es).active
  }

  /** No reachable state has more clients than the limit. */
  ghost predicate LimitHolds(limit: nat) {
    forall es :: |Run(limit, Initial, es).clients| <= limit
  }

  lemma RunAppend(limit: nat, s: State, es: seq<Event>, e: Event)
    ensures Run(limit, s, es + [e]) == Step(limit, Run(limit, s, es), e)
  {
    assert (es + [e])[..|es + [e]| - 1] == es;
  }

  lemma ConnectOnce(limit: nat, s: State)
    requires Fresh(s) && Admits(limit, s)
    ensures var t := Step(limit, s, Connect(true));
      Fresh(t) && |t.clients| == |s.clients| + 1 && t.active == Byte(Byte(s.active + 1) + 1)
  {
  }

  lemma ConnectNext(limit: nat, es: seq<Event>)
    requires var s := Run(limit, Initial, es); Fresh(s) && Admits(limit, s)
    ensures var s, t := Run(limit, Initial, es), Run(limit, Initial, es + [Connect(true)]);
      Fresh(t) && |t.clients| == |s.clients| + 1 && t.active == Byte(Byte(s.active + 1) + 1)
  {
    RunAppend(limit, Initial, es, Connect(true));
    ConnectOnce(limit, Run(limit, Initial, es));
  }

  lemma DepartNext(limit: nat, es: seq<Event>, id: ClientId)
    requires var s := Run(limit, Initial, es); Fresh(s) && id in s.clients
    ensures var s, t := Run(limit, Initial, es), Run(limit, Initial, es + [Depart(id)]);
      Fresh(t) && |t.clients| == |s.clients| - 1 && t.active == Byte(s.active - 1)
  {
    RunAppend(limit, Initial, es, Depart(id));
  }

  /** A history of `n` further connections that all succeed without wrapping the counter. */
  lemma {:induction false} ConnectMany(limit: nat, es: seq<Event>, n: nat) returns (fs: seq<Event>)
    requires Fresh(Run(limit, Initial, es))
    requires var s := Run(limit, Initial, es); s.active + 2 * n <= 255 && (0 < n ==> s.active + 2 * n - 1 <= limit)
    ensures var s, t := Run(limit, Initial, es), Run(limit, Initial, fs);
      Fresh(t) && |t.clients| == |s.clients| + n && t.active == s.active + 2 * n
  {
    if n == 0 {
      fs := es;
    } else {
      var gs := ConnectMany(limit, es, n - 1);
      fs := gs + [Connect(true)];
      ConnectNext(limit, gs);
    }
  }

  /**
   With 254, an odd count reaches 255, where the next request's sum wraps to 0 and is let in: 128 clients, counted as
   one.
   */
  lemma WrapsAt254() returns (es: seq<Event>)
    ensures var s := Run(254, Initial, es); Fresh(s) && |s.clients| == 128 && s.active == 1
  {
    var full := ConnectMany(254, [], 127);
    var id :| id in Run(254, Initial, full).clients;
    DepartNext(254, full, id);
    ConnectNext(254, full + [Depart(id)]);
    ConnectNext(254, full + [Depart(id)] + [Connect(true)]);
    es := full + [Depart(id)] + [Connect(true)] + [Connect(true)];
  }

  /** From there on 127 more are let in. */
  lemma ExceedsAt254() returns (es: seq<Event>)
    ensures |Run(254, Initial, es).clients| == 255
  {
    var wrapped := WrapsAt254();
    es := ConnectMany(254, wrapped, 127);
  }

  /** With 255 or more nobody is ever refused. */
  lemma {:induction false} NeverFull(limit: nat, n: nat) returns (es: seq<Event>)
    requires limit >= 255
    ensures var s := Run(limit, Initial, es); Fresh(s) && |s.clients| == n
  {
    if n == 0 {
      es := [];
    } else {
      var fs := NeverFull(limit, n - 1);
      es := fs + [Connect(true)];
      ConnectNext(limit, fs);
    }
  }

  /** The exact condition on the configured limit for the counter to cover the clients. */
  lemma CounterCoversIff(limit: nat)
    ensures CounterCovers(limit) <==> limit <= 253
  {
    if limit <= 253 {
      forall es ensures |Run(limit, Initial, es).clients| <= Run(limit, Initial, es).active { CounterLeaks(limit, es); }
    } else {
      var es;
      if limit == 254 { es := WrapsAt254(); } else { es := NeverFull(limit, 256); }
      assert |Run(limit, Initial, es).clients| > Run(limit, Initial, es).active;
    }
  }

  /** The exact condition on the configured limit for it to be kept. */
  lemma LimitHoldsIff(limit: nat)
    ensures LimitHolds(limit) <==> limit <= 253
  {
    if limit <= 253 {
      forall es ensures |Run(limit, Initial, es).clients| <= limit { CounterLeaks(limit, es); }
    } else {
      var es;
      if limit == 254 { es := ExceedsAt254(); } else { es := NeverFull(limit, limit + 1); }
      assert |Run(limit, Initial, es).clients| > limit;
    }
  }

  /** `n` requests in a row, all of which upgrade. */
  function Requests(n: nat): seq<Event> {
    seq(n, i requires 0 <= i < n => Connect(true))
  }

  function LetIn(half: nat, n: nat): nat {
    if n < half then n else half
  }

  predicate Filled(s: State, count: nat) {
    |s.clients| == count && s.active == 2 * count
  }

  lemma RequestEnters(limit: nat, s: State, half: nat, n: nat)
    requires limit <= 254 && 2 * half - 1 <= limit <= 2 * half && Fresh(s) && Filled(s, n) && n < half
    ensures Fresh(Step(limit, s, Connect(true))) && Filled(Step(limit, s, Connect(true)), n + 1)
  {
    ConnectOnce(limit, s);
  }

  lemma RequestIsRefused(limit: nat, s: State, half: nat)
    requires limit <= 254 && 2 * half - 1 <= limit <= 2 * half && Fresh(s) && Filled(s, half)
    ensures Fresh(Step(limit, s, Connect(true))) && Filled(Step(limit, s, Connect(true)), half)
  {
  }

  lemma NextRequest(limit: nat, half: nat, s: State, n: nat)
    requires limit <= 254 && 2 * half - 1 <= limit <= 2 * half && Fresh(s) && Filled(s, LetIn(half, n))
    ensures Fresh(Step(limit, s, Connect(true))) && Filled(Step(limit, s, Connect(true)), LetIn(half, n + 1))
  {
    if n < half { RequestEnters(limit, s, half, n); } else { RequestIsRefused(limit, s, half); }
  }

  /** From an idle server exactly the first half of `limit + 1` requests get in, and the counter is at twice that. */
  lemma {:induction false} RequestsFill(limit: nat, half: nat, n: nat)
    requires limit <= 254 && 2 * half - 1 <= limit <= 2 * half
    ensures var s := Run(limit, Initial, Requests(n)); Fresh(s) && Filled(s, LetIn(half, n))
  {
    if n == 0 {
    } else {
      RequestsFill(limit, half, n - 1);
      NextRequest(limit, half, Run(limit, Initial, Requests(n - 1)), n - 1);
      RunAppend(limit, Initial, Requests(n - 1), Connect(true));
      assert Requests(n) == Requests(n - 1) + [Connect(true)];
    }
  }

  // ----- Broadcasts -----

  predicate Distinct(ids: seq<ClientId>) {
    forall i, j | 0 <= i < j < |ids| :: ids[i] != ids[j]
  }

  function Elements(ids: seq<ClientId>): set<ClientId> {
    set id | id in ids
  }

  /** What was reached is a duplicate-free part of the snapshot, and the rest of the snapshot is still to come. */
  predicate CastOk(cast: Cast) {
    && Distinct(cast.reached) && Elements(cast.reached) + cast.todo == cast.snapshot && Elements(cast.reached) !! cast.todo
    && |cast.reached| + |cast.todo| == |cast.snapshot|
  }

  lemma ReachingKeepsOk(cast: Cast, id: ClientId)
    requires CastOk(cast) && id in cast.todo
    ensures CastOk(Reached(cast, id))
  {
    assert Elements(cast.reached + [id]) == Elements(cast.reached) + {id};
    assert cast.todo == cast.todo - {id} + {id};
  }

  lemma CastBeginsOk(clients: set<ClientId>, length: nat)
    ensures CastOk(Cast(length, clients, clients, []))
  {
    assert Elements([]) + clients == clients;
  }

  lemma CastAfter(limit: nat, s: State, e: Event, b: nat)
    requires b in Step(limit, s, e).casts
    ensures var cast := Step(limit, s, e).casts[b];
      if b !in s.casts then e.CastBegin? && cast == Cast(e.length, s.clients, s.clients, [])
      else cast == if e.CastSend? && e.b == b && Awaits(s, b, e.id) then Reached(s.casts[b], e.id) else s.casts[b]
  {
  }

  lemma {:induction false} RunKeepsCastOk(limit: nat, es: seq<Event>, b: nat)
    requires b in Run(limit, Initial, es).casts
    ensures CastOk(Run(limit, Initial, es).casts[b])
  {
    if es == [] {
    } else {
      var us, e := es[..|es| - 1], es[|es| - 1];
      var s := Run(limit, Initial, us);
      CastAfter(limit, s, e, b);
      if b in s.casts {
        RunKeepsCastOk(limit, us, b);
        if e.CastSend? && e.b == b && Awaits(s, b, e.id) { ReachingKeepsOk(s.casts[b], e.id); }
      } else {
        CastBeginsOk(s.clients, e.length);
      }
    }
  }

  /**
   In every run, whoever comes and goes meanwhile and whatever other messages are relayed: a broadcast has reached
   each client of its snapshot at most once and nobody else, and once nobody is left to serve it has reached them all.
   */
  lemma BroadcastsReachOnce(limit: nat, es: seq<Event>, b: nat)
    requires b in Run(limit, Initial, es).casts
    ensures var cast := Run(limit, Initial, es).casts[b];
      && Distinct(cast.reached) && Elements(cast.reached) <= cast.snapshot
      && (cast.todo == {} <==> Elements(cast.reached) == cast.snapshot)
  {
    RunKeepsCastOk(limit, es, b);
    var cast := Run(limit, Initial, es).casts[b];
    assert cast.todo == cast.snapshot - Elements(cast.reached);
  }

  /** A broadcast's successful sends, one after another. */
  function Sends(b: nat, order: seq<ClientId>): seq<Event> {
    seq(|order|, i requires 0 <= i < |order| => CastSend(b, order[i], true))
  }

  function Last(b: nat, order: seq<ClientId>, reached: nat): Event {
    if reached < |order| then CastSend(b, order[reached], false) else CastEnd(b)
  }

  /** A whole broadcast with nothing in between: it stops at the first send that fails, or when all are served. */
  function WholeCast(b: nat, length: nat, order: seq<ClientId>, reached: nat): seq<Event>
    requires reached <= |order|
  {
    [CastBegin(b, length)] + Sends(b, order[..reached]) + [Last(b, order, reached)]
  }

  function Casting(s: State, b: nat, length: nat, order: seq<ClientId>): State {
    s.(casts := s.casts[b := Cast(length, s.clients, s.clients - Elements(order), order)],
       sent := Int64(s.sent + length * |order|))
  }

  lemma OneMoreSent(before: Sint64, length: nat, reached: nat)
    ensures Int64(Int64(before + length * reached) + length) == Int64(before + length * (reached + 1))
  {
    Int64Add(before + length * reached, length);
    assert before + length * reached + length == before + length * (reached + 1);
  }

  lemma ReachedNext(clients: set<ClientId>, length: nat, order: seq<ClientId>, id: ClientId)
    ensures Reached(Cast(length, clients, clients - Elements(order), order), id) ==
            Cast(length, clients, clients - Elements(order + [id]), order + [id])
  {
    assert Elements(order + [id]) == Elements(order) + {id};
    assert clients - Elements(order) - {id} == clients - Elements(order + [id]);
  }

  lemma CastingNext(limit: nat, s: State, b: nat, length: nat, order: seq<ClientId>, id: ClientId)
    requires id in s.clients && id !in order
    ensures Step(limit, Casting(s, b, length, order), CastSend(b, id, true)) == Casting(s, b, length, order + [id])
  {
    var t, next := Casting(s, b, length, order), Casting(s, b, length, order + [id]);
    ReachedNext(s.clients, length, order, id);
    OneMoreSent(s.sent, length, |order|);
    assert t.casts[b := next.casts[b]] == next.casts;
  }

  lemma CastingBegins(limit: nat, s: State, b: nat, length: nat)
    requires b !in s.casts && s.clients != {}
    ensures Run(limit, s, [CastBegin(b, length)]) == Casting(s, b, length, [])
  {
    Int64Fits(s.sent);
    RunAppend(limit, s, [], CastBegin(b, length));
    assert [] + [CastBegin(b, length)] == [CastBegin(b, length)];
    assert s.clients - Elements([]) == s.clients;
  }

  lemma {:induction false} CastingRun(limit: nat, s: State, b: nat, length: nat, order: seq<ClientId>)
    requires b !in s.casts && s.clients != {} && Distinct(order) && forall id | id in order :: id in s.clients
    ensures Run(limit, s, [CastBegin(b, length)] + Sends(b, order)) == Casting(s, b, length, order)
  {
    if order == [] {
      CastingBegins(limit, s, b, length);
      assert [CastBegin(b, length)] + Sends(b, order) == [CastBegin(b, length)];
    } else {
      var init, id := order[..|order| - 1], order[|order| - 1];
      CastingRun(limit, s, b, length, init);
      CastingNext(limit, s, b, length, init, id);
      RunAppend(limit, s, [CastBegin(b, length)] + Sends(b, init), CastSend(b, id, true));
      assert [CastBegin(b, length)] + Sends(b, order) == [CastBegin(b, length)] + Sends(b, init) + [CastSend(b, id, true)];
      assert init + [id] == order;
    }
  }

  lemma CastingEnds(limit: nat, s: State, b: nat, length: nat, order: seq<ClientId>, reached: nat)
    requires b !in s.casts && Distinct(order) && Elements(order) == s.clients && reached <= |order|
    ensures Step(limit, Casting(s, b, length, order[..reached]), Last(b, order, reached)) ==
      s.(sent := Int64(s.sent + length * reached))
  {
    var t := Casting(s, b, length, order[..reached]);
    if reached < |order| {
      assert order[reached] in Elements(order) && order[reached] !in order[..reached];
    } else {
      assert order[..reached] == order;
    }
    assert t.casts - {b} == s.casts;
  }

  /** Without interruption a broadcast over any order of the clients only counts the bytes of those it reached. */
  lemma WholeCastCounts(limit: nat, s: State, b: nat, length: nat, order: seq<ClientId>, reached: nat)
    requires b !in s.casts && s.clients != {} && Distinct(order) && Elements(order) == s.clients && reached <= |order|
    ensures Run(limit, s, WholeCast(b, length, order, reached)) == s.(sent := Int64(s.sent + length * reached))
  {
    var done := order[..reached];
    assert forall id | id in done :: id in Elements(order);
    CastingRun(limit, s, b, length, done);
    CastingEnds(limit, s, b, length, order, reached);
    RunAppend(limit, s, [CastBegin(b, length)] + Sends(b, done), Last(b, order, reached));
  }

  // ----- Accounting -----

  /** The bytes an event delivers: the message's length for each send that succeeds. */
  function Gain(s: State, e: Event): nat {
    match e
    case CastSend(b, id, written) => if Awaits(s, b, id) && written then s.casts[b].length else 0
    case ToHost(length, arrived) => if arrived then length else 0
    case _ => 0
  }

  /** Bytes delivered since the last reset. */
  function Delivered(limit: nat, es: seq<Event>): nat {
    if es == [] || es[|es| - 1].Reset? then 0
    else Delivered(limit, es[..|es| - 1]) + Gain(Run(limit, Initial, es[..|es| - 1]), es[|es| - 1])
  }

  ghost predicate Counted(s: State, d: nat) {
    s.sent == Int64(d)
  }

  lemma StepDelivers(limit: nat, s: State, e: Event, d: nat)
    requires Counted(s, d)
    ensures Counted(Step(limit, s, e), if e.Reset? then 0 else d + Gain(s, e))
  {
    if e.CastSend? || e.ToHost? {
      Int64Add(d, Gain(s, e));
    } else if e.Reset? {
      Int64Fits(0);
    }
  }

  /** TotalDataSent is, in 64 bits, the bytes of the successful sends since the last reset. */
  lemma {:induction false} SentIsDelivered(limit: nat, es: seq<Event>)
    ensures Counted(Run(limit, Initial, es), Delivered(limit, es))
  {
    if es == [] {
      Int64Fits(0);
    } else {
      var us, e := es[..|es| - 1], es[|es| - 1];
      SentIsDelivered(limit, us);
      var s, d := Run(limit, Initial, us), Delivered(limit, us);
      StepDelivers(limit, s, e, d);
      assert Run(limit, Initial, es) == Step(limit, s, e);
      assert Delivered(limit, es) == if e.Reset? then 0 else d + Gain(s, e);
    }
  }
}
