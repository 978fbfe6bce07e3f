/**
 The relay's admission with its steps apart: the test reads the counter, two separate increments follow, and any
 number of requests stand anywhere between the three.  Requests in the same place are alike, so they are counted.
 */
module RelayRequests {
  import opened GoInts

  /**
   `tested` passed the test, `raised` raised the counter once and wait for their upgrade, `entering` raised it twice,
   `leaving` left the clients and have not lowered the counter yet; `admitted` counts the clients there ever were.
   */
  datatype State = State(active: Uint8, tested: nat, raised: nat, entering: nat, clients: nat, leaving: nat, admitted: nat)

  datatype Event =
    | Test            // upgradeRequest reads the counter
    | Raise           // and raises it
    | FailUpgrade     // the upgrade fails: the counter is lowered again
    | RaiseAgain      // wsHandler raises it a second time
    | Enter           // addClient
    | Leave           // removeClient
    | Lower           // the deferred decrement

  const Initial := State(0, 0, 0, 0, 0, 0, 0)

  /** An unsigned byte raised past 255 once at most. */
  function Wrapped(x: nat): Uint8
    requires x < 512
  {
    if x < 256 then x else x - 256
  }

  predicate Passes(limit: nat, s: State) {
    Byte(s.active + 1) <= limit
  }

  function Step(limit: nat, s: State, e: Event): State {
    match e
    case Test => if Passes(limit, s) then s.(tested := s.tested + 1) else s
    case Raise => if s.tested > 0 then s.(tested := s.tested - 1, raised := s.raised + 1, active := Byte(s.active + 1)) else s
    case FailUpgrade => if s.raised > 0 then s.(raised := s.raised - 1, active := Byte(s.active - 1)) else s
    case RaiseAgain =>
      if s.raised > 0 then s.(raised := s.raised - 1, entering := s.entering + 1, active := Byte(s.active + 1)) else s
    case Enter =>
      if s.entering > 0 then s.(entering := s.entering - 1, clients := s.clients + 1, admitted := s.admitted + 1) else s
    case Leave => if s.clients > 0 then s.(clients := s.clients - 1, leaving := s.leaving + 1) else s
    case Lower => if s.leaving > 0 then s.(leaving := s.leaving - 1, active := Byte(s.active - 1)) else s
  }

  function Run(limit: nat, es: seq<Event>): State {
    if es == [] then Initial else Step(limit, Run(limit, es[..|es| - 1]), es[|es| - 1])
  }

  /** Requests between their test and their place among the clients. */
  function InFlight(s: State): nat {
    s.tested + s.raised + s.entering
  }

  /** Never more than `m` requests at once were in flight. */
  predicate AtMost(limit: nat, es: seq<Event>, m: nat) {
    InFlight(Run(limit, es)) <= m && (es == [] || AtMost(limit, es[..|es| - 1], m))
  }

  // ----- The bound -----

  /** The counter if nothing ever left and every request in flight succeeded. */
  function Potential(s: State): nat {
    s.active + 2 * s.tested + s.raised
  }

  /** The counter is what it should be without wrapping, and its potential stays within the limit and one byte. */
  predicate Within(limit: nat, s: State, m: nat) {
    && s.active == s.raised + 2 * s.entering + s.clients + s.leaving + s.admitted
    && s.clients + s.leaving <= s.admitted
    && (Potential(s) == 0 || Potential(s) <= limit + 2 * m - 1)
  }

  lemma StepKeepsWithin(limit: nat, s: State, e: Event, m: nat)
    requires Within(limit, s, m) && limit + 2 * m <= 255 && InFlight(Step(limit, s, e)) <= m
    ensures Within(limit, Step(limit, s, e), m)
  {
  }

  /** With at most `m` requests in flight, at most half of `limit + 2 m - 1` clients are connected at once. */
  lemma {:induction false} ClientsBounded(limit: nat, es: seq<Event>, m: nat)
    requires limit + 2 * m <= 255 && AtMost(limit, es, m)
    ensures Within(limit, Run(limit, es), m)
    ensures var s := Run(limit, es); s.clients == 0 || 2 * s.clients <= limit + 2 * m - 1
  {
    if es == [] {
    } else {
      ClientsBounded(limit, es[..|es| - 1], m);
      StepKeepsWithin(limit, Run(limit, es[..|es| - 1]), es[|es| - 1], m);
    }
  }

  /** The state is reached with never more than `m` requests in flight. */
  ghost predicate Reachable(limit: nat, s: State, m: nat) {
    exists es :: AtMost(limit, es, m) && Run(limit, es) == s
  }

  lemma Reach(limit: nat, s: State, e: Event, m: nat)
    requires Reachable(limit, s, m) && InFlight(Step(limit, s, e)) <= m
    ensures Reachable(limit, Step(limit, s, e), m)
  {
    var es :| AtMost(limit, es, m) && Run(limit, es) == s;
    assert (es + [e])[..|es + [e]| - 1] == es;
    assert AtMost(limit, es + [e], m) && Run(limit, es + [e]) == Step(limit, s, e);
  }

  // ----- Bursts of requests -----

  /** Nobody is on the way in or out: the counter, the clients now, and the clients ever. */
  function Quiet(active: Uint8, clients: nat, admitted: nat): State {
    State(active, 0, 0, 0, clients, 0, admitted)
  }

  lemma ReachInitial(limit: nat, m: nat)
    ensures Reachable(limit, Quiet(0, 0, 0), m)
  {
    assert Initial == Quiet(0, 0, 0);
    assert AtMost(limit, [], m) && Run(limit, []) == Initial;
  }

  /** `k` tests in a row, with nobody raising in between. */
  lemma {:induction false} Tests(limit: nat, s: State, k: nat, m: nat)
    requires Reachable(limit, s, m) && Passes(limit, s) && InFlight(s) + k <= m
    ensures Reachable(limit, s.(tested := s.tested + k), m)
  {
    if k == 0 {
      assert s.(tested := s.tested + 0) == s;
    } else {
      Tests(limit, s, k - 1, m);
      Reach(limit, s.(tested := s.tested + (k - 1)), Test, m);
    }
  }

  /** A request that has passed its test runs to its end: two increments, and one client more. */
  lemma Admission(limit: nat, s: State, m: nat)
    requires Reachable(limit, s, m) && s.tested > 0 && InFlight(s) <= m
    ensures Reachable(limit, s.(tested := s.tested - 1, active := Wrapped(s.active + 2), clients := s.clients + 1,
                                admitted := s.admitted + 1), m)
  {
    Reach(limit, s, Raise, m);
    var one := Step(limit, s, Raise);
    Reach(limit, one, RaiseAgain, m);
    Reach(limit, Step(limit, one, RaiseAgain), Enter, m);
  }

  lemma {:induction false} Admissions(limit: nat, active: Uint8, tested: nat, clients: nat, admitted: nat, k: nat, m: nat)
    requires k <= tested <= m && active + 2 * k < 512
    requires Reachable(limit, State(active, tested, 0, 0, clients, 0, admitted), m)
    ensures Reachable(limit, State(Wrapped(active + 2 * k), tested - k, 0, 0, clients + k, 0, admitted + k), m)
  {
    if k != 0 {
      Admissions(limit, active, tested, clients, admitted, k - 1, m);
      Admission(limit, State(Wrapped(active + 2 * (k - 1)), tested - (k - 1), 0, 0, clients + (k - 1), 0, admitted + (k - 1)), m);
    }
  }

  /** `k` requests that all pass the test before any of them raises the counter. */
  lemma Burst(limit: nat, active: Uint8, clients: nat, admitted: nat, k: nat, m: nat)
    requires Reachable(limit, Quiet(active, clients, admitted), m) && Byte(active + 1) <= limit && k <= m && active + 2 * k < 512
    ensures Reachable(limit, Quiet(Wrapped(active + 2 * k), clients + k, admitted + k), m)
  {
    Tests(limit, Quiet(active, clients, admitted), k, m);
    Admissions(limit, active, k, clients, admitted, k, m);
  }

  /** `k` requests one after another, none of which meets a full counter. */
  lemma {:induction false} Sequence(limit: nat, active: Uint8, clients: nat, admitted: nat, k: nat, m: nat)
    requires Reachable(limit, Quiet(active, clients, admitted), m) && 1 <= m
    requires active + 2 * k <= 255 && (0 < k ==> active + 2 * k - 1 <= limit)
    ensures Reachable(limit, Quiet(active + 2 * k, clients + k, admitted + k), m)
  {
    if k != 0 {
      Sequence(limit, active, clients, admitted, k - 1, m);
      Burst(limit, active + 2 * (k - 1), clients + (k - 1), admitted + (k - 1), 1, m);
    }
  }

  lemma {:induction false} FirstSequence(limit: nat, k: nat, m: nat)
    requires 1 <= m && 2 * k <= 255 && (0 < k ==> 2 * k - 1 <= limit)
    ensures Reachable(limit, Quiet(2 * k, k, k), m)
  {
    if k == 0 {
      assert AtMost(limit, [], m) && Run(limit, []) == Quiet(2 * k, k, k);
    } else {
      FirstSequence(limit, k - 1, m);
      Burst(limit, 2 * (k - 1), k - 1, k - 1, 1, m);
    }
  }

  lemma Departing(limit: nat, active: Uint8, clients: nat, admitted: nat, m: nat)
    requires Reachable(limit, Quiet(active, clients + 1, admitted), m)
    ensures Reachable(limit, State(active, 0, 0, 0, clients, 1, admitted), m)
  {
    Reach(limit, Quiet(active, clients + 1, admitted), Event.Leave, m);
  }

  lemma Departed(limit: nat, active: Uint8, clients: nat, admitted: nat, m: nat)
    requires Reachable(limit, State(active, 0, 0, 0, clients, 1, admitted), m) && 0 < active
    ensures Reachable(limit, Quiet(active - 1, clients, admitted), m)
  {
    Reach(limit, State(active, 0, 0, 0, clients, 1, admitted), Lower, m);
  }

  lemma Departure(limit: nat, active: Uint8, clients: nat, admitted: nat, m: nat)
    requires Reachable(limit, Quiet(active, clients + 1, admitted), m) && 0 < active
    ensures Reachable(limit, Quiet(active - 1, clients, admitted), m)
  {
    Departing(limit, active, clients, admitted, m);
    Departed(limit, active, clients, admitted, m);
  }

  // ----- When the limit is kept -----

  /** With at most `m` requests in flight there are never more clients than the limit. */
  ghost predicate KeepsLimit(limit: nat, m: nat) {
    forall s | Reachable(limit, s, m) :: s.clients <= limit
  }

  lemma ReachableIsBounded(limit: nat, s: State, m: nat)
    requires limit + 2 * m <= 255 && Reachable(limit, s, m)
    ensures s.clients == 0 || 2 * s.clients <= limit + 2 * m - 1
  {
    var es :| AtMost(limit, es, m) && Run(limit, es) == s;
    ClientsBounded(limit, es, m);
  }

  lemma FirstRound(limit: nat, j: nat, k: nat, m: nat)
    requires 2 * j + 1 <= limit <= 254 && 2 * j + 2 * k < 512 && k <= m && 1 <= m
    ensures Reachable(limit, Quiet(Wrapped(2 * j + 2 * k), j + k, j + k), m)
  {
    FirstSequence(limit, j, m);
    Burst(limit, 2 * j, j, j, k, m);
  }

  /** The bound is reached: half the limit one after another, and then `m` at once. */
  lemma BoundIsReached(limit: nat, j: nat, m: nat) returns (s: State)
    requires 2 * j + 1 <= limit <= 2 * j + 2 && 1 <= m && limit + 2 * m <= 255
    ensures Reachable(limit, s, m) && limit + 2 * m - 2 <= 2 * s.clients <= limit + 2 * m - 1
  {
    FirstRound(limit, j, m, m);
    s := Quiet(2 * j + 2 * m, j + m, j + m);
  }

  lemma Exceeded(limit: nat, s: State, m: nat)
    requires Reachable(limit, s, m) && s.clients > limit
    ensures !KeepsLimit(limit, m)
  {
  }

  /** More than half the limit at once, after half the limit one after another, exceed it. */
  lemma TooManyAtOnce(limit: nat, j: nat, m: nat)
    requires 2 * j + 1 <= limit <= 2 * j + 2 && limit <= 254 && limit + 2 < 2 * m
    ensures !KeepsLimit(limit, m)
  {
    var k := limit + 1 - j;
    FirstRound(limit, j, k, m);
    Exceeded(limit, Quiet(Wrapped(2 * j + 2 * k), j + k, j + k), m);
  }

  /** `j` requests one after another, and then `k` at once. */
  lemma Round(limit: nat, active: Uint8, clients: nat, admitted: nat, j: nat, k: nat, m: nat)
    requires Reachable(limit, Quiet(active, clients, admitted), m) && k <= m && 1 <= m
    requires active + 2 * j + 1 <= limit <= 254 && active + 2 * j + 2 * k < 512
    ensures Reachable(limit, Quiet(Wrapped(active + 2 * j + 2 * k), clients + j + k, admitted + j + k), m)
  {
    Sequence(limit, active, clients, admitted, j, m);
    Burst(limit, active + 2 * j, clients + j, admitted + j, k, m);
  }

  /** An odd limit: the burst wraps the counter to 0, and everything can start again. */
  lemma WrapsAtOdd(limit: nat, j: nat, k: nat, m: nat)
    requires limit == 2 * j + 1 <= 254 && j + k == 128 && 1 <= k <= m
    ensures !KeepsLimit(limit, m)
  {
    var zero: Uint8, n := Wrapped(2 * j + 2 * k), j + k;
    FirstRound(limit, j, k, m);
    Round(limit, zero, n, n, j, k, m);
    Exceeded(limit, Quiet(Wrapped(zero + 2 * j + 2 * k), n + j + k, n + j + k), m);
  }

  /** An even limit: after one departure the counter is odd, and the burst takes it to 255. */
  lemma FullAtEven(limit: nat, h: nat, k: nat, m: nat)
    requires limit == 2 * h && 1 <= h <= 127 && h + k == 128 && k <= m
    ensures Reachable(limit, Quiet(limit - 1 + 2 * k, h - 1 + k, h + k), m)
  {
    FirstSequence(limit, h, m);
    Departure(limit, limit, h - 1, h, m);
    Burst(limit, limit - 1, h - 1, h, k, m);
  }

  /** There the next sum is 0, so one more request is let in and the counter restarts at 1. */
  lemma WrapsAtEven(limit: nat, h: nat, k: nat, m: nat)
    requires limit == 2 * h && 1 <= h <= 127 && h + k == 128 && k <= m
    ensures !KeepsLimit(limit, m)
  {
    var full: Uint8, n := limit - 1 + 2 * k, h - 1 + k;
    var one: Uint8 := Wrapped(full + 2 * 1);
    FullAtEven(limit, h, k, m);
    Burst(limit, full, n, n + 1, 1, m);
    Round(limit, one, n + 1, n + 2, h - 1, k, m);
    Exceeded(limit, Quiet(Wrapped(one + 2 * (h - 1) + 2 * k), n + 1 + (h - 1) + k, n + 2 + (h - 1) + k), m);
  }

  lemma {:induction false} NeverFull(limit: nat, n: nat, m: nat) returns (active: Uint8)
    requires limit >= 255 && 1 <= m
    ensures Reachable(limit, Quiet(active, n, n), m)
  {
    if n == 0 {
      active := 0;
      ReachInitial(limit, m);
    } else {
      var before := NeverFull(limit, n - 1, m);
      var raised: nat := before;
      active := Wrapped(raised + 2);
      Burst(limit, before, n - 1, n - 1, 1, m);
    }
  }

  lemma {:induction false} NobodyRunsAtZero(es: seq<Event>)
    ensures Run(0, es) == Initial
  {
    if es == [] {
    } else {
      NobodyRunsAtZero(es[..|es| - 1]);
    }
  }

  lemma NobodyAtZero(s: State, m: nat)
    requires Reachable(0, s, m)
    ensures s == Initial
  {
    var es :| AtMost(0, es, m) && Run(0, es) == s;
    NobodyRunsAtZero(es);
  }

  /**
   The exact condition for a limit to be kept with up to `m` requests in flight: the counter must not be able to
   wrap, and the requests that pass the test together must not outnumber half the limit by more than one.
   */
  lemma KeepsLimitIff(limit: nat, m: nat)
    requires 1 <= m
    ensures KeepsLimit(limit, m) <==> limit == 0 || (limit + 2 * m <= 255 && 2 * m <= limit + 2)
  {
    if limit == 0 {
      forall s | Reachable(limit, s, m) ensures s.clients <= limit { NobodyAtZero(s, m); }
    } else if limit >= 255 {
      var active := NeverFull(limit, limit + 1, m);
      assert Quiet(active, limit + 1, limit + 1).clients > limit;
    } else if limit + 2 < 2 * m {
      TooManyAtOnce(limit, (limit - 1) / 2, m);
    } else if limit + 2 * m <= 255 {
      forall s | Reachable(limit, s, m) ensures s.clients <= limit { ReachableIsBounded(limit, s, m); }
    } else if limit % 2 == 1 {
      WrapsAtOdd(limit, limit / 2, 128 - limit / 2, m);
    } else {
      WrapsAtEven(limit, limit / 2, 128 - limit / 2, m);
    }
  }
}
