/**
 The RTSP publishing host: a connection manager that retries with backoff, and writes gated by the host's state.

 What the network and the context do in one iteration of the manager is a `Round`; a call of the manager is driven
 by a list of rounds and stops early only where the source returns.
 */
module RtspHost {
  import opened Backoff
  import opened GoInts
  import opened Numbers

  datatype HostState = Disconnected | Connecting | Connected | Recording | Error

  type ErrorValue = nat

  datatype Round =
    | CancelledFirst                                          // the context is done before the attempt
    | Fails(error: ErrorValue, cancelledInWait: bool)         // the attempt fails; the wait elapses or is cut short
    | Succeeds(at: int, cancelled: bool)                      // recording until cancellation; a loss, which nothing signals, too

  datatype HostConfig = HostConfig(reconnectAttempts: int, reconnectDelay: nat)

  /** A wait the manager entered: in which round, and for how long. */
  datatype Pause = Pause(round: nat, delay: nat)

  // ----- What the manager is meant to do -----

  /** The number of consecutive failures just before round `i`, since the start or the last success. */
  function Streak(rounds: seq<Round>, i: nat): nat
    requires i <= |rounds|
  {
    if i == 0 || !rounds[i - 1].Fails? then 0 else 1 + Streak(rounds, i - 1)
  }

  /** The pause of a failed round: the configured delay grown once for each failure right before it. */
  function PausesOf(c: HostConfig, rounds: seq<Round>, n: nat): seq<Pause>
    requires n <= |rounds|
  {
    if n == 0 then []
    else PausesOf(c, rounds, n - 1)
         + (if rounds[n - 1].Fails? && c.reconnectAttempts != 0
            then [Pause(n - 1, Wait(c.reconnectDelay, Streak(rounds, n - 1)))] else [])
  }

  /** A streak of `k` failures is just that, and not a longer one. */
  lemma {:induction false} StreakIff(rounds: seq<Round>, i: nat, k: nat)
    requires i <= |rounds|
    ensures Streak(rounds, i) == k <==>
      && k <= i && (forall j | i - k <= j < i :: rounds[j].Fails?) && (k < i ==> !rounds[i - k - 1].Fails?)
  {
    if 0 < i && rounds[i - 1].Fails? && 0 < k {
      StreakIff(rounds, i - 1, k - 1);
    }
  }

  /**
   The pauses are those of the failed rounds, in their order, if retries are configured at all: one each, and its length
   is the configured delay grown once for each failure right before.
   */
  lemma {:induction false} PausesIff(c: HostConfig, rounds: seq<Round>, n: nat, pause: Pause)
    requires n <= |rounds|
    ensures pause in PausesOf(c, rounds, n) <==>
      && pause.round < n && rounds[pause.round].Fails? && c.reconnectAttempts != 0
      && pause.delay == Wait(c.reconnectDelay, Streak(rounds, pause.round))
    ensures forall i, j | 0 <= i < j < |PausesOf(c, rounds, n)| :: PausesOf(c, rounds, n)[i].round < PausesOf(c, rounds, n)[j].round
  {
    if n != 0 {
      PausesIff(c, rounds, n - 1, pause);
      forall p | p in PausesOf(c, rounds, n - 1) ensures p.round < n - 1 { PausesIff(c, rounds, n - 1, p); }
    }
  }

  function TotalDelay(pauses: seq<Pause>): nat {
    if pauses == [] then 0 else TotalDelay(pauses[..|pauses| - 1]) + pauses[|pauses| - 1].delay
  }

  /** A burst: `n` failures from round `start` on, the first of them not preceded by a failure. */
  predicate Burst(rounds: seq<Round>, start: nat, n: nat) {
    && start + n <= |rounds|
    && (0 < start ==> !rounds[start - 1].Fails?)
    && forall i | start <= i < start + n :: rounds[i].Fails?
  }

  lemma {:induction false} BurstStreak(rounds: seq<Round>, start: nat, n: nat)
    requires Burst(rounds, start, n)
    ensures Streak(rounds, start + n) == n
  {
    if n != 0 {
      BurstStreak(rounds, start, n - 1);
    }
  }

  /** The time spent in pauses up to round `n`. */
  function PausedTime(c: HostConfig, rounds: seq<Round>, n: nat): nat
    requires n <= |rounds|
  {
    if n == 0 then 0
    else PausedTime(c, rounds, n - 1)
         + (if rounds[n - 1].Fails? && c.reconnectAttempts != 0 then Wait(c.reconnectDelay, Streak(rounds, n - 1)) else 0)
  }

  lemma TotalDelayAppend(pauses: seq<Pause>, pause: Pause)
    ensures TotalDelay(pauses + [pause]) == TotalDelay(pauses) + pause.delay
  {
    assert (pauses + [pause])[..|pauses|] == pauses;
  }

  lemma {:induction false} PausedTimeIsTotal(c: HostConfig, rounds: seq<Round>, n: nat)
    requires n <= |rounds|
    ensures PausedTime(c, rounds, n) == TotalDelay(PausesOf(c, rounds, n))
  {
    if n != 0 {
      PausedTimeIsTotal(c, rounds, n - 1);
      if rounds[n - 1].Fails? && c.reconnectAttempts != 0 {
        TotalDelayAppend(PausesOf(c, rounds, n - 1), Pause(n - 1, Wait(c.reconnectDelay, Streak(rounds, n - 1))));
      } else {
        assert PausesOf(c, rounds, n) == PausesOf(c, rounds, n - 1);
      }
    }
  }

  lemma {:induction false} BurstTotal(c: HostConfig, rounds: seq<Round>, start: nat, n: nat)
    requires c.reconnectAttempts != 0 && Burst(rounds, start, n)
    ensures PausedTime(c, rounds, start + n) == PausedTime(c, rounds, start) + TotalWait(c.reconnectDelay, n)
  {
    if n != 0 {
      BurstTotal(c, rounds, start, n - 1);
      BurstStreak(rounds, start, n - 1);
    }
  }

  /** Attempt rate: n consecutive failures pause for at least (n - 60) caps and at most n maxima in total. */
  lemma BurstRate(c: HostConfig, rounds: seq<Round>, start: nat, n: nat)
    requires c.reconnectAttempts != 0 && 2 <= c.reconnectDelay && Burst(rounds, start, n)
    ensures var paused := TotalDelay(PausesOf(c, rounds, start + n)) - TotalDelay(PausesOf(c, rounds, start));
      (n - 60) * CAP <= paused <= n * Max(c.reconnectDelay, CAP)
  {
    BurstTotal(c, rounds, start, n);
    PausedTimeIsTotal(c, rounds, start);
    PausedTimeIsTotal(c, rounds, start + n);
    CapReachedWithinSixty(c.reconnectDelay, 60);
    TotalWaitBounds(c.reconnectDelay, 60, n);
  }

  // ----- Writes -----

  datatype Format = H264(payloadType: nat, packetizationMode: int, sps: seq<nat>, pps: seq<nat>)

  datatype Media = Media(formats: seq<Format>)

  datatype Packet = Packet(payloadType: nat, length: nat)

  datatype WriteResult =
    | Skipped              // a nil packet
    | Refused              // not recording
    | NoClient
    | NoFormats
    | Failed
    | Written(sent: Packet)

  /** The part of the host that writing reads and changes. */
  datatype Writer = Writer(state: HostState, client: bool, medias: seq<Media>, lastError: seq<ErrorValue>,
                           packetsWritten: nat, bytesWritten: nat, lastWriteTime: int)

  /** What happens to the host, in any order: options, the manager's assignments one by one, Close, and writes. */
  datatype Call =
    | Write(packet: seq<Packet>, outcome: seq<ErrorValue>, now: int)  // an empty `packet` is nil, an empty `outcome` success
    | Append(media: Media)
    | MakeClient
    | Become(state: HostState)
    | Stamp(now: int)
    | NoteError(error: ErrorValue)

  function WriteOnce(w: Writer, packet: seq<Packet>, outcome: seq<ErrorValue>, now: int): (Writer, WriteResult) {
    if packet == [] then (w, Skipped)
    else if w.state != Recording then (w, Refused)
    else if !w.client then (w, NoClient)
    else if w.medias == [] || w.medias[0].formats == [] then (w, NoFormats)
    else if outcome != [] then (w.(state := Error, lastError := [outcome[0]]), Failed)
    else (w.(packetsWritten := (w.packetsWritten + 1) % U64,
             bytesWritten := (w.bytesWritten + packet[0].length) % U64, lastWriteTime := now),
          Written(packet[0].(payloadType := w.medias[0].formats[0].payloadType)))
  }

  function Do(w: Writer, call: Call): (Writer, seq<WriteResult>) {
    match call
    case Write(packet, outcome, now) => var (w', r) := WriteOnce(w, packet, outcome, now); (w', [r])
    case Append(media) => (w.(medias := w.medias + [media]), [])
    case MakeClient => (w.(client := true), [])
    case Become(state) => (w.(state := state), [])
    case Stamp(now) => (w.(lastWriteTime := now), [])
    case NoteError(error) => (w.(lastError := [error]), [])
  }

  function DoAll(w: Writer, calls: seq<Call>): (Writer, seq<WriteResult>) {
    if calls == [] then (w, [])
    else
      var (w', rs) := DoAll(w, calls[..|calls| - 1]);
      var (w'', more) := Do(w', calls[|calls| - 1]);
      (w'', rs + more)
  }

  function SentPackets(rs: seq<WriteResult>): nat {
    if rs == [] then 0 else SentPackets(rs[..|rs| - 1]) + (if rs[|rs| - 1].Written? then 1 else 0)
  }

  function SentBytes(rs: seq<WriteResult>): nat {
    if rs == [] then 0 else SentBytes(rs[..|rs| - 1]) + (if rs[|rs| - 1].Written? then rs[|rs| - 1].sent.length else 0)
  }

  lemma WrapAdd(a: nat, b: nat)
    ensures (a % U64 + b) % U64 == (a + b) % U64
  {
    assert a == U64 * (a / U64) + a % U64;
    var x := a % U64 + b;
    assert a + b == U64 * (a / U64) + x;
    assert x == U64 * (x / U64) + x % U64;
    assert a + b == U64 * (a / U64 + x / U64) + x % U64;
  }

  lemma SentAppend(rs: seq<WriteResult>, r: WriteResult)
    ensures SentPackets(rs + [r]) == SentPackets(rs) + (if r.Written? then 1 else 0)
    ensures SentBytes(rs + [r]) == SentBytes(rs) + (if r.Written? then r.sent.length else 0)
  {
    assert (rs + [r])[..|rs|] == rs;
  }

  predicate Tallied(w: Writer, rs: seq<WriteResult>) {
    w.packetsWritten == SentPackets(rs) % U64 && w.bytesWritten == SentBytes(rs) % U64
  }

  lemma WriteKeepsTally(w: Writer, rs: seq<WriteResult>, packet: seq<Packet>, outcome: seq<ErrorValue>, now: int)
    requires Tallied(w, rs)
    ensures var (w', r) := WriteOnce(w, packet, outcome, now); Tallied(w', rs + [r])
  {
    var (w', r) := WriteOnce(w, packet, outcome, now);
    SentAppend(rs, r);
    if r.Written? {
      WrapAdd(SentPackets(rs), 1);
      WrapAdd(SentBytes(rs), packet[0].length);
    }
  }

  /**
   From a new host on, in every history of calls, the statistics are the number and the payload bytes of the packets
   written, modulo 2^64.
   */
  lemma {:induction false} StatisticsAreSums(w: Writer, calls: seq<Call>)
    requires w.packetsWritten == 0 && w.bytesWritten == 0
    ensures Tallied(DoAll(w, calls).0, DoAll(w, calls).1)
  {
    if calls == [] {
    } else {
      var us, call := calls[..|calls| - 1], calls[|calls| - 1];
      StatisticsAreSums(w, us);
      var (w', rs) := DoAll(w, us);
      match call
      case Write(packet, outcome, now) => WriteKeepsTally(w', rs, packet, outcome, now);
      case _ => assert rs + [] == rs;
    }
  }

  /**
   What a write answers and does: nothing for a nil packet or where a gate is closed, the packet with the payload type
   of the first format where all are open; a failed send puts the host into the Error state and records the error.
   */
  lemma WriteEffect(w: Writer, packet: seq<Packet>, outcome: seq<ErrorValue>, now: int)
    ensures var (w', rs) := Do(w, Write(packet, outcome, now));
      var open := packet != [] && w.state == Recording && w.client && w.medias != [] && w.medias[0].formats != [];
      && |rs| == 1
      && (rs[0] == Skipped <==> packet == [])
      && (rs[0] == Refused <==> packet != [] && w.state != Recording)
      && (rs[0] == NoClient <==> packet != [] && w.state == Recording && !w.client)
      && (rs[0] == NoFormats <==>
            packet != [] && w.state == Recording && w.client && (w.medias == [] || w.medias[0].formats == []))
      && (!open ==> w' == w)
      && (rs[0] == Failed <==> open && outcome != [])
      && (open && outcome != [] ==>
            w' == Writer(Error, w.client, w.medias, [outcome[0]], w.packetsWritten, w.bytesWritten, w.lastWriteTime))
      && (rs[0].Written? <==> open && outcome == [])
      && (open && outcome == [] ==>
            && rs[0].sent == Packet(w.medias[0].formats[0].payloadType, packet[0].length)
            && w' == Writer(Recording, w.client, w.medias, w.lastError, (w.packetsWritten + 1) % 0x1_0000_0000_0000_0000,
                            (w.bytesWritten + packet[0].length) % 0x1_0000_0000_0000_0000, now))
  {
  }

  /** While the host is in the Error state and nothing else sets it, nothing is written and nothing counted. */
  lemma {:induction false} ErrorSilences(w: Writer, calls: seq<Call>)
    requires w.state == Error && forall i | 0 <= i < |calls| :: !calls[i].Become?
    ensures var (end, rs) := DoAll(w, calls);
      && end.state == Error && end.packetsWritten == w.packetsWritten && end.bytesWritten == w.bytesWritten
      && forall i | 0 <= i < |rs| :: rs[i] in {Skipped, Refused}
  {
    if calls == [] {
    } else {
      ErrorSilences(w, calls[..|calls| - 1]);
    }
  }

  lemma DoAllAppend(w: Writer, calls: seq<Call>, call: Call)
    ensures var (w', rs) := DoAll(w, calls);
      DoAll(w, calls + [call]) == (Do(w', call).0, rs + Do(w', call).1)
  {
    assert (calls + [call])[..|calls|] == calls;
  }

  /**
   One failed write silences the host: whatever led up to it, it leaves the Error state and its error, and from there
   on every write answers Skipped or Refused and nothing is counted, unless something else sets the state.
   */
  lemma FailureSilences(w: Writer, before: seq<Call>, packet: seq<Packet>, outcome: seq<ErrorValue>, now: int, after: seq<Call>)
    requires var rs := DoAll(w, before + [Write(packet, outcome, now)]).1; rs != [] && rs[|rs| - 1] == Failed
    requires forall i | 0 <= i < |after| :: !after[i].Become?
    ensures var failed := DoAll(w, before + [Write(packet, outcome, now)]).0;
      var (end, rs) := DoAll(failed, after);
      && outcome != [] && failed.state == Error && failed.lastError == [outcome[0]]
      && end.state == Error && end.packetsWritten == failed.packetsWritten && end.bytesWritten == failed.bytesWritten
      && forall i | 0 <= i < |rs| :: rs[i] in {Skipped, Refused}
  {
    DoAllAppend(w, before, Write(packet, outcome, now));
    WriteEffect(DoAll(w, before).0, packet, outcome, now);
    ErrorSilences(DoAll(w, before + [Write(packet, outcome, now)]).0, after);
  }

  // ----- The first write -----

  datatype Step = Medium | Client | State

  /** The call does one of the three things a new host needs before it can write. */
  predicate Provides(call: Call, step: Step) {
    match step
    case Medium => call.Append? && call.media.formats != []
    case Client => call == MakeClient
    case State => call == Become(Recording)
  }

  predicate Provided(calls: seq<Call>, step: Step) {
    exists i | 0 <= i < |calls| :: Provides(calls[i], step)
  }

  /** A host as the constructor leaves it. */
  predicate New(w: Writer) {
    w.state == Disconnected && !w.client && w.medias == [] && w.packetsWritten == w.bytesWritten == 0
  }

  predicate Lacks(w: Writer, step: Step) {
    match step
    case Medium => w.medias == [] || w.medias[0].formats == []
    case Client => !w.client
    case State => w.state != Recording
  }

  lemma {:induction false} NothingWithout(w: Writer, calls: seq<Call>, step: Step)
    requires New(w) && !Provided(calls, step)
    ensures Lacks(DoAll(w, calls).0, step) && forall i | 0 <= i < |DoAll(w, calls).1| :: !DoAll(w, calls).1[i].Written?
  {
    if calls == [] {
    } else {
      var us, call := calls[..|calls| - 1], calls[|calls| - 1];
      assert forall i | 0 <= i < |us| :: us[i] == calls[i];
      assert !Provides(call, step);
      NothingWithout(w, us, step);
    }
  }

  /** A new host writes only after a media with a format, a client and the recording state have been provided. */
  lemma WritesNeedAllThree(w: Writer, calls: seq<Call>, i: nat, step: Step)
    requires New(w) && i < |DoAll(w, calls).1| && DoAll(w, calls).1[i].Written?
    ensures Provided(calls, step)
  {
    if !Provided(calls, step) { NothingWithout(w, calls, step); }
  }

  /** The three are enough: the next packet is written, with the payload type of the first format. */
  lemma ThreeCallsThenWrite(w: Writer, media: Media, p: Packet, now: int)
    requires New(w) && media.formats != []
    ensures DoAll(w, [Append(media), MakeClient, Become(Recording), Write([p], [], now)]).1 ==
      [Written(p.(payloadType := media.formats[0].payloadType))]
  {
    DoAllAppend(w, [], Append(media));
    DoAllAppend(w, [] + [Append(media)], MakeClient);
    DoAllAppend(w, [] + [Append(media)] + [MakeClient], Become(Recording));
    DoAllAppend(w, [] + [Append(media)] + [MakeClient] + [Become(Recording)], Write([p], [], now));
    assert [Append(media), MakeClient, Become(Recording), Write([p], [], now)] ==
      [] + [Append(media)] + [MakeClient] + [Become(Recording)] + [Write([p], [], now)];
  }

  class NewHost {
    const config: HostConfig
    var state: HostState
    var lastError: seq<ErrorValue>      // empty until the first error
    var client: bool                    // a client exists
    var medias: seq<Media>
    var lastWriteTime: int
    var packetsWritten: nat
    var bytesWritten: nat
    var reconnectRequested: bool        // the one slot of the reconnect channel

    constructor (config: HostConfig, medias: seq<Media>)
      ensures this.config == config && View() == Writer(Disconnected, false, medias, [], 0, 0, 0) && !reconnectRequested
    {
      this.config, this.medias, state, lastError, client := config, medias, Disconnected, [], false;
      lastWriteTime, packetsWritten, bytesWritten, reconnectRequested := 0, 0, 0, false;
    }

    function View(): Writer
      reads this
    {
      Writer(state, client, medias, lastError, packetsWritten, bytesWritten, lastWriteTime)
    }

    /** An empty `packet` is nil; `outcome` is the error of the client's write, empty on success. */
    method WriteRTP(packet: seq<Packet>, outcome: seq<ErrorValue>, now: int) returns (r: WriteResult)
      modifies this
      ensures (View(), r) == WriteOnce(old(View()), packet, outcome, now)
      ensures reconnectRequested == (old(reconnectRequested) || r.Failed?)
    {
      if packet == [] {
        return Skipped;
      }
      if state != Recording {
        return Refused;
      }
      if !client {
        return NoClient;
      }
      if |medias| == 0 || |medias[0].formats| == 0 {
        return NoFormats;
      }
      var sent := packet[0];
      var expected := medias[0].formats[0].payloadType;
      if sent.payloadType != expected {
        sent := sent.(payloadType := expected);
      }
      if outcome != [] {
        state := Error;
        lastError := [outcome[0]];
        if !reconnectRequested {
          reconnectRequested := true;
        }
        return Failed;
      }
      packetsWritten := (packetsWritten + 1) % U64;
      bytesWritten := (bytesWritten + sent.length) % U64;
      lastWriteTime := now;
      return Written(sent);
    }

    method AppendRTSPMediaDescription(media: Media)
      modifies this`medias
      ensures View() == Do(old(View()), Append(media)).0
    {
      medias := medias + [media];
    }

    method AttemptConnection(r: Round, now: int) returns (failed: bool)
      modifies this`client, this`state, this`lastWriteTime
      ensures failed == r.Fails? && client
      ensures failed ==> state == old(state) && lastWriteTime == old(lastWriteTime)
      ensures !failed ==> state == Recording && lastWriteTime == now
      ensures View() == if failed then Do(old(View()), MakeClient).0
                        else Do(Do(Do(old(View()), MakeClient).0, Become(Recording)).0, Stamp(now)).0
    {
      client := true;
      if r.Fails? {
        return true;
      }
      state := Recording;
      lastWriteTime := now;
      return false;
    }

    /**
     The retry loop.  Whatever the attempts, losses and cancellations, the pauses it enters are exactly those of
     `PausesOf`.  It goes on after a failure whose wait elapses, if retries are configured, and after a loss, and after
     nothing else: it returns in the first round that is cancelled, or that fails with no retries configured.
     */
    method ConnectionManager(rounds: seq<Round>) returns (pauses: seq<Pause>, returned: bool, used: nat)
      modifies this`client, this`state, this`lastWriteTime, this`lastError
      ensures used <= |rounds| && pauses == PausesOf(config, rounds, used)
      ensures forall i | 0 <= i < used - 1 :: !rounds[i].CancelledFirst?
      ensures forall i | 0 <= i < used - 1 && rounds[i].Fails? :: config.reconnectAttempts != 0 && !rounds[i].cancelledInWait
      ensures forall i | 0 <= i < used - 1 && rounds[i].Succeeds? :: !rounds[i].cancelled
      ensures !returned ==> used == |rounds|
      ensures returned ==> 0 < used
      ensures 0 < used ==>
        var last := rounds[used - 1];
        && (last.CancelledFirst? ==> returned && state == Disconnected)
        && (last.Fails? && config.reconnectAttempts == 0 ==> returned && state == Error && lastError == [last.error])
        && (last.Fails? && config.reconnectAttempts != 0 ==>
              && returned == last.cancelledInWait && lastError == [last.error]
              && state == if last.cancelledInWait then Disconnected else Error)
        && (last.Succeeds? ==> returned == last.cancelled && state == if last.cancelled then Disconnected else Connecting)
    {
      var currentDelay := config.reconnectDelay;
      pauses, returned, used := [], false, 0;
      while used < |rounds|
        invariant used <= |rounds| && !returned
        invariant currentDelay == Wait(config.reconnectDelay, Streak(rounds, used))
        invariant pauses == PausesOf(config, rounds, used)
        invariant forall i | 0 <= i < used :: !rounds[i].CancelledFirst?
        invariant forall i | 0 <= i < used && rounds[i].Fails? :: config.reconnectAttempts != 0 && !rounds[i].cancelledInWait
        invariant forall i | 0 <= i < used && rounds[i].Succeeds? :: !rounds[i].cancelled
        invariant 0 < used && rounds[used - 1].Fails? ==> state == Error && lastError == [rounds[used - 1].error]
        invariant 0 < used && rounds[used - 1].Succeeds? ==> state == Connecting
      {
        var r := rounds[used];
        used := used + 1;
        if r.CancelledFirst? {
          state := Disconnected;
          return pauses, true, used;
        }
        var failed := AttemptConnection(r, if r.Succeeds? then r.at else 0);
        if failed {
          state := Error;
          lastError := [r.error];
          if config.reconnectAttempts == 0 {
            return pauses, true, used;
          }
          pauses := pauses + [Pause(used - 1, currentDelay)];
          if r.cancelledInWait {
            state := Disconnected;
            return pauses, true, used;
          }
          currentDelay := 3 * currentDelay / 2;
          if currentDelay > 30 * SECOND {
            currentDelay := 30 * SECOND;
          }
        } else {
          state := Recording;
          currentDelay := config.reconnectDelay;
          if r.cancelled {
            state := Disconnected;
            return pauses, true, used;
          }
          state := Connecting;
        }
      }
    }
  }
}
