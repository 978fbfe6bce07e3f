/** Conservation and order in the session table: bytes, parameter sets, connection counters, activity. */
module WebrtcCounts {
  import opened GoInts
  import opened Webrtc
  import opened WebrtcRuns

  // ----- Sums over sessions -----

  function Total(ss: seq<Session>, f: Session -> nat): nat {
    if ss == [] then 0 else Total(ss[..|ss| - 1], f) + f(ss[|ss| - 1])
  }

  lemma {:induction false} TotalUpdate(ss: seq<Session>, f: Session -> nat, k: nat, s: Session)
    requires k < |ss|
    ensures Total(ss[k := s], f) == Total(ss, f) - f(ss[k]) + f(s)
  {
    var rest := ss[..|ss| - 1];
    if k == |ss| - 1 {
      assert ss[k := s][..|ss| - 1] == rest;
    } else {
      TotalUpdate(rest, f, k, s);
      assert ss[k := s][..|ss| - 1] == rest[k := s];
    }
  }

  lemma TotalAppend(ss: seq<Session>, f: Session -> nat, s: Session)
    ensures Total(ss + [s], f) == Total(ss, f) + f(s)
  {
    assert (ss + [s])[..|ss|] == ss;
  }

  lemma {:induction false} TotalSame(ss: seq<Session>, ts: seq<Session>, f: Session -> nat)
    requires |ss| == |ts| && forall k | 0 <= k < |ss| :: f(ss[k]) == f(ts[k])
    ensures Total(ss, f) == Total(ts, f)
  {
    if ss == [] {
    } else {
      TotalSame(ss[..|ss| - 1], ts[..|ts| - 1], f);
    }
  }

  /** A step that leaves `f` alone on every old session, and makes it 0 on a new one, leaves the total alone. */
  lemma TotalAfter(d: Time, t: Table, e: Timed, f: Session -> nat)
    requires OneToOne(t)
    requires forall k | 0 <= k < |t.sessions| :: f(SessionAfter(t, e, k)) == f(t.sessions[k])
    requires e.event.Create? ==> f(FreshSession(e.event.ttl, d, e.now)) == 0
    ensures Total(Step(d, t, e.event, e.now).sessions, f) == Total(t.sessions, f)
  {
    var u := Step(d, t, e.event, e.now);
    StepKeepsIndexed(d, t, e);
    forall k | 0 <= k < |t.sessions| ensures f(u.sessions[k]) == f(t.sessions[k]) { StepOnSession(d, t, e, k); }
    if |u.sessions| == |t.sessions| {
      TotalSame(u.sessions, t.sessions, f);
    } else {
      NewSession(d, t, e, |u.sessions| - 1);
      TotalSame(u.sessions[..|t.sessions|], t.sessions, f);
      assert u.sessions == u.sessions[..|t.sessions|] + [u.sessions[|t.sessions|]];
      TotalAppend(u.sessions[..|t.sessions|], f, u.sessions[|t.sessions|]);
    }
  }

  // ----- Bytes -----

  function WrittenBytes(taken: seq<Taken>): nat {
    if taken == [] then 0
    else WrittenBytes(taken[..|taken| - 1]) + (if taken[|taken| - 1].written then Length(taken[|taken| - 1].packet) else 0)
  }

  const SessionBytes: Session -> nat := (s: Session) => WrittenBytes(s.taken)

  ghost predicate BytesCounted(t: Table) {
    t.sent == Int64(Total(t.sessions, SessionBytes))
  }

  lemma ForwardBytes(s: Session, written: bool)
    ensures WrittenBytes(Forward(s, written).taken) ==
      WrittenBytes(s.taken) + (if s.queue != [] && written then Length(s.queue[0]) else 0)
  {
    if s.queue != [] {
      var more := s.taken + [Taken(s.queue[0], written)];
      assert more[..|more| - 1] == s.taken;
    }
  }

  lemma TotalAfterTake(t: Table, k: nat, written: bool)
    requires k < |t.sessions|
    ensures Total(Forwarded(t, k, written).sessions, SessionBytes) == Total(t.sessions, SessionBytes)
      + (if t.sessions[k].queue != [] && written then Length(t.sessions[k].queue[0]) else 0)
  {
    TotalUpdate(t.sessions, SessionBytes, k, Forward(t.sessions[k], written));
    ForwardBytes(t.sessions[k], written);
  }

  lemma CountedBy(sent: int, before: nat, more: nat)
    requires sent == Int64(before)
    ensures Int64(sent + more) == Int64(before + more)
  {
    Int64Add(before, more);
  }

  lemma SentByForwarding(t: Table, k: nat, written: bool)
    requires k < |t.sessions|
    ensures Forwarded(t, k, written).sent ==
      (if t.sessions[k].queue != [] && written then Int64(t.sent + Length(t.sessions[k].queue[0])) else t.sent)
  {
  }

  lemma TakeCounts(t: Table, k: nat, written: bool)
    requires k < |t.sessions| && BytesCounted(t)
    ensures BytesCounted(Forwarded(t, k, written))
  {
    TotalAfterTake(t, k, written);
    SentByForwarding(t, k, written);
    if t.sessions[k].queue != [] && written {
      CountedBy(t.sent, Total(t.sessions, SessionBytes), Length(t.sessions[k].queue[0]));
    }
  }

  lemma OnlyForwardingSends(d: Time, t: Table, e: Timed)
    requires Indexed(t) && !e.event.Take?
    ensures Step(d, t, e.event, e.now).sent == t.sent
    ensures forall k | 0 <= k < |t.sessions| :: SessionAfter(t, e, k).taken == t.sessions[k].taken
  {
  }

  /** TotalDataSent is, in 64 bits, the payload of every successful track write of every session ever created. */
  lemma {:induction false} BytesAlwaysCounted(d: Time, ts: seq<Timed>)
    ensures BytesCounted(Run(d, Empty, ts))
  {
    if ts == [] {
      Int64Fits(0);
    } else {
      var us, e := ts[..|ts| - 1], ts[|ts| - 1];
      var t := Run(d, Empty, us);
      BytesAlwaysCounted(d, us);
      RunKeepsLifecycle(d, us);
      if e.event.Take? {
        if Enabled(t, e.event) { TakeCounts(t, e.event.k, e.event.written); }
      } else {
        OnlyForwardingSends(d, t, e);
        TotalAfter(d, t, e, SessionBytes);
      }
    }
  }

  // ----- Parameter sets -----

  ghost predicate SpsFirst(accepted: seq<Packet>) {
    forall n | 0 <= n <= |accepted| :: multiset(accepted[..n])[Pps] <= multiset(accepted[..n])[Sps]
  }

  /** The callers between their two sends account for the surplus of SPS over PPS. */
  ghost predicate SpsSurplus(s: Session, owed: nat) {
    SpsFirst(s.accepted) && multiset(s.accepted)[Pps] + owed <= multiset(s.accepted)[Sps]
  }

  ghost predicate ParameterOrder(t: Table) {
    && (forall k | k in t.owed :: k < |t.sessions|)
    && (forall k | 0 <= k < |t.sessions| :: SpsSurplus(t.sessions[k], t.owed[k]))
  }

  lemma AppendKeepsOrder(accepted: seq<Packet>, p: Packet, owed: nat)
    requires SpsFirst(accepted) && multiset(accepted)[Pps] + owed <= multiset(accepted)[Sps]
    requires p == Pps ==> 0 < owed
    ensures SpsFirst(accepted + [p])
    ensures var after := if p == Pps then owed - 1 else if p == Sps then owed + 1 else owed;
      multiset(accepted + [p])[Pps] + after <= multiset(accepted + [p])[Sps]
  {
    var more := accepted + [p];
    assert multiset(more) == multiset(accepted) + multiset{p};
    forall n | 0 <= n <= |more| ensures multiset(more[..n])[Pps] <= multiset(more[..n])[Sps] {
      if n <= |accepted| {
        assert more[..n] == accepted[..n];
      } else {
        assert more[..n] == more;
      }
    }
  }

  lemma OthersLeaveOwed(d: Time, t: Table, e: Timed)
    requires Indexed(t) && !e.event.SendSps? && !e.event.SendPps?
    ensures Step(d, t, e.event, e.now).owed == t.owed
  {
  }

  lemma OwedAfter(d: Time, t: Table, e: Timed, k: nat)
    requires Indexed(t) && k < |t.sessions|
    ensures Step(d, t, e.event, e.now).owed[k] == t.owed[k]
      + (if Enabled(t, e.event) && e.event == SendSps(k) && Takes(t.sessions[k]) then 1 else 0)
      - (if Enabled(t, e.event) && e.event == SendPps(k) then 1 else 0)
  {
    if !e.event.SendSps? && !e.event.SendPps? { OthersLeaveOwed(d, t, e); }
  }

  lemma OwedStaysIndexed(d: Time, t: Table, e: Timed)
    requires Indexed(t) && forall k | k in t.owed :: k < |t.sessions|
    ensures forall k | k in Step(d, t, e.event, e.now).owed :: k < |t.sessions|
  {
  }

  lemma AcceptedAfter(t: Table, e: Timed, k: nat)
    requires Indexed(t) && k < |t.sessions|
    ensures SessionAfter(t, e, k).accepted == t.sessions[k].accepted
      + (if Offers(t, e.event, k) && Takes(t.sessions[k]) then [OfferedPacket(t, e.event)] else [])
  {
    assert t.sessions[k].accepted + [] == t.sessions[k].accepted;
  }

  lemma StepKeepsSurplus(d: Time, t: Table, e: Timed, k: nat)
    requires Indexed(t) && k < |t.sessions| && SpsSurplus(t.sessions[k], t.owed[k])
    ensures SpsSurplus(SessionAfter(t, e, k), Step(d, t, e.event, e.now).owed[k])
  {
    var s := t.sessions[k];
    OwedAfter(d, t, e, k);
    AcceptedAfter(t, e, k);
    if Offers(t, e.event, k) && Takes(s) {
      AppendKeepsOrder(s.accepted, OfferedPacket(t, e.event), t.owed[k]);
    } else {
      assert SessionAfter(t, e, k).accepted == s.accepted;
    }
  }

  /**
   With any number of callers and producers interleaved, and whichever sends are refused, every prefix of what a
   session accepted holds at least as many injected SPS as PPS packets.
   */
  lemma {:induction false} SpsBeforePps(d: Time, ts: seq<Timed>)
    ensures ParameterOrder(Run(d, Empty, ts))
  {
    if ts == [] {
    } else {
      var us, e := ts[..|ts| - 1], ts[|ts| - 1];
      var t, u := Run(d, Empty, us), Run(d, Empty, ts);
      SpsBeforePps(d, us);
      RunKeepsLifecycle(d, us);
      StepKeepsIndexed(d, t, e);
      OwedStaysIndexed(d, t, e);
      forall k | 0 <= k < |u.sessions| ensures SpsSurplus(u.sessions[k], u.owed[k]) {
        if k < |t.sessions| {
          StepKeepsSurplus(d, t, e, k);
          StepOnSession(d, t, e, k);
        } else {
          NewSession(d, t, e, k);
          assert k !in u.owed;
        }
      }
    }
  }
}
