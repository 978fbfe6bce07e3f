# Verified models of the media sinks

This project models, in Dafny, the parts of the media-sink repository that keep real state or parse text, and proves
what they guarantee over all inputs and all runs.

- **RTSP stream registry** (`pkg/rtsp/new_server.go`): a transition system on values (`RtspRegistry`), theorems about
  its runs (`RtspRuns`, `RtspActivity`, `RtspSweep`, `RtspDirectory`), what each handler does in terms of paths, times
  and counts alone (`RtspEvents`), the loops over its map on values (`RtspVisits`), the sweep with other handlers
  between its turns (`RtspSplitSweep`), the server as objects updated in place and proved against the transition system
  (`RtspServer`), and the locking protocol of its handlers (`RtspLocks`).
- **RTSP publishing host** (`pkg/rtsp/new_host.go`): the wait between attempts (`Backoff`), the retry loop and the
  gated writes (`RtspHost`).
- **H.264 fmtp options** (`pkg/rtsp/options.go`): the parsers and their inverse (`Fmtp`), over `Text` and `Base64`.
- **WebRTC sink** (`pkg/webrtc_js/host.go`): sessions, queues, broadcasts, callbacks and expiry as a transition system
  with any interleaving (`Webrtc`, `WebrtcRuns`, `WebrtcBroadcasts`, `WebrtcCounts`, `WebrtcAdmission`), what each step
  does in terms of times, queues and counts alone (`WebrtcEvents`), the loops on values (`WebrtcLoops`), the sink as
  objects (`WebrtcHost`), and the SDP scan (`Ssrc`).
- **WebSocket relay** (`pkg/socket/server.go`): admission, broadcasts and accounting (`Relay`), admission with its steps
  apart (`RelayRequests`), and the server as an object (`RelayServer`). `GoInts` holds the fixed-width integers, and
  `Numbers` what the timed parts share.

How the model is put together:

- Time is a parameter that never goes back; timed loops are single steps at a given moment. Foreign calls (gortsplib,
  pion, websockets) are arbitrary outcomes passed in, on opaque identities whose closes are counted.
- Ranging over a Go map is a loop that takes any remaining key next, so results hold for every iteration order.
- A record or session is named by the order of its creation, registered or not. A goroutine that keeps a pointer
  after releasing a lock is a step on such a name, at any later moment.
- A class method that handles an event has its whole effect stated as one step of a transition system, or as the
  several steps that one uninterrupted call takes: `SendParameterSets` is one send or two, a broadcast of the WebRTC
  sink adds up to `Broadcast` (`WebrtcLoops.BroadcastInAnyOrder`), and one of the relay is `WholeCast`. The invariants
  that some methods require of the state (`OneToOne`, `Lifecycle`) hold in every reachable state.
- The rounds that drive the RTSP host's retry loop include a success followed by a loss. That is more than the source
  can do: its monitor returns on a loss only if the client is nil, and nothing sets it to nil (`new_host.go:212`).

Where the code does not do what one might expect, the code is followed and the exact condition is proved:

- Two sweeps leave the same visible registry as the later one alone, but not always the same detached records
  (`RtspSweep.SweepAbsorbs`). A sweep can take a viewer from a stream it keeps, and leave other records than the later
  sweep alone, exactly when a stream can be kept at all and the client timeout is shorter than the publisher timeout
  plus the longest time that `OnSetup` spends between reading the clock and adding its client
  (`RtspActivity.NeverEvictsIff`, `RtspSweep.AlwaysAbsorbsIff`). With the default timeouts, which are equal, it takes a
  packet that arrives during a setup, and then silence.
- The relay's limit is kept in every run exactly when it is at most 253, and so is the counter's claim to cover the
  clients: with 254 the unsigned-byte sum in the admission test can wrap to zero (`Relay.LimitHoldsIff`,
  `Relay.CounterCoversIff`). Below that, the counter is raised twice per client and lowered once, so a server admits at
  most its limit of clients in all until it is reset (`Relay.CounterLeaks`). Requests that pass the test together can
  exceed the limit; exactly when is in `RelayRequests.KeepsLimitIff`.
- A parameter-set caller or a direct send can end the process by sending to a session that has just expired
  (`WebrtcRuns.RunCrashesIff`, `WebrtcRuns.ExpiryBeforeSendCrashes`); a broadcast cannot.
- The WebRTC connection counter can exceed the number of connected sessions when a connected session goes back to
  Connecting, even if Connected is only ever delivered to sessions that are not (`WebrtcAdmission.RestartBreaksBound`).
- `ReconnectAttempts` is compared with zero only: any other value retries for ever, whatever the comment in the source
  says about a limit. The comment about sorting the scanned sources has no counterpart in the code either.

## Model

| member | source | states |
|---|---|---|
| RtspRegistry.PathsAfter | pkg/rtsp/new_server.go:356-446 | After any handler a path is registered exactly if it was and the handler did not remove its stream, or it was just announced; and to which stream |
| RtspRegistry.RegisteredAfter | pkg/rtsp/new_server.go:233-272 | A stream stays registered through a step exactly unless it is replaced, its publisher closes, it is silent too long at a sweep, or the server shuts down |
| RtspRegistry.StepActivity | pkg/rtsp/new_server.go:542-557 | Only a packet moves a publisher's activity, and no step changes a publisher |
| RtspRegistry.StepKeepsConserved | pkg/rtsp/new_server.go:172-256 | Every handler keeps: registered streams are open under one path each, all others were closed exactly once |
| RtspRegistry.StepKeepsBounded | pkg/rtsp/new_server.go:416-421 | Every handler keeps the number of streams within MaxStreams, or none if that is negative |
| RtspRegistry.StepKeepsPublisherNotClient | pkg/rtsp/new_server.go:468-493 | No handler, split or not, makes a publisher's session a client of its own record |
| RtspRegistry.RunKeepsInv | pkg/rtsp/new_server.go:172-562 | The three invariants hold after every history of handlers |
| RtspEvents.AnnounceEffect | pkg/rtsp/new_server.go:408-446 | An announce takes its path exactly when fewer than MaxStreams streams are registered, with a new record active now and no clients; otherwise nothing changes |
| RtspEvents.ReplacedEffect | pkg/rtsp/new_server.go:424-433 | The stream and the publisher that were at the path are closed once more each, and nothing else of their record changes |
| RtspEvents.AnnouncesFill | pkg/rtsp/new_server.go:416-446 | Announces on distinct paths fill an empty server in order: exactly the first MaxStreams are registered |
| RtspEvents.SetupEffect | pkg/rtsp/new_server.go:468-493 | A setup adds exactly the session's client with its stamp, if its data can be read and it is not the publisher, and changes nothing else |
| RtspEvents.PlayEffect | pkg/rtsp/new_server.go:505-519 | A play makes the client of the path's stream active now, keeps its session, and changes nothing else |
| RtspEvents.PacketEffect | pkg/rtsp/new_server.go:548-556 | A packet makes the publisher and every client of its record active now, and changes nothing else |
| RtspEvents.SessionCloseEffect | pkg/rtsp/new_server.go:373-385 | A session's close takes its client ID, and no other, from every registered record, and unregisters exactly its own streams |
| RtspEvents.ShutdownEffect | pkg/rtsp/new_server.go:177-189 | A shutdown closes each registered stream and publisher once and keeps the records otherwise |
| RtspEvents.ViewerSurvivesIffSeen | pkg/rtsp/new_server.go:258-556 | As long as its stream is registered a viewer is there all along exactly when its session does not close and every sweep finds one of its setups, its plays or its stream's packets within the client timeout; its activity is the last of these |
| RtspRuns.StreamConservation | pkg/rtsp/new_server.go:172-445 | Over every history each stream ever created is open under exactly one path, or unregistered and closed exactly once |
| RtspRuns.ShutdownClosesEverything | pkg/rtsp/new_server.go:172-189 | After Close nothing is registered and every stream ever created was closed exactly once |
| RtspRuns.ClosesExactlyWhatItRemoves | pkg/rtsp/new_server.go:241-256 | A step closes the streams it removes and no others, and their publishers unless the publisher itself left |
| RtspRuns.PublisherNeverItsOwnClient | pkg/rtsp/new_server.go:468-493 | In every reachable state, for every record ever created, the publisher's session is not among the clients |
| RtspRuns.RegisteredUntilRemoved | pkg/rtsp/new_server.go:233-446 | Over a run a stream is still registered, under its path, exactly when no step of the run removed it |
| RtspRuns.DisplacedPublisherIsHarmless | pkg/rtsp/new_server.go:374-445 | After another session takes a path over, the displaced publisher's close, whenever it comes, leaves the new stream registered and open |
| RtspRuns.SessionErasure | pkg/rtsp/new_server.go:356-386 | A session's close erases it from every registered stream as publisher and client, and without readable user data changes nothing |
| RtspActivity.StepKeepsOrderIffFresh | pkg/rtsp/new_server.go:480-557 | For every lag: clients stay at most that much less recent than their publisher exactly when no client staler than that is added |
| RtspActivity.RunOrderedIffFresh | pkg/rtsp/new_server.go:480-557 | The order holds at every point of a run exactly when every client added in it was stamped at most the lag before the last packet |
| RtspActivity.RunsAreOrdered | pkg/rtsp/new_server.go:435-557 | On a non-decreasing clock, with setups that take at most `lag` (zero: handlers as single steps), the order holds in every reachable state |
| RtspActivity.LateViewerBreaksOrder | pkg/rtsp/new_server.go:480-489 | A concrete run in which a setup that takes one nanosecond longer breaks the order |
| RtspActivity.NeverEvictsIff | pkg/rtsp/new_server.go:241-268 | For every lag: no sweep of any run whose setups take at most that long evicts a client from a stream it keeps, exactly when there is no capacity, the publisher timeout is negative, or the client timeout is at least the publisher timeout plus the lag |
| RtspActivity.ViewerStaysWithStream | pkg/rtsp/new_server.go:258-268 | With a client timeout of at least the publisher timeout plus the lag, a viewer that was added stays as long as its stream is registered and its session open, however silent |
| RtspSweep.SweepIsFilter | pkg/rtsp/new_server.go:233-272 | A sweep as one step removes exactly the expired streams and exactly the expired clients of the kept ones |
| RtspSplitSweep.SplitSweepIsSerial | pkg/rtsp/new_server.go:233-272 | A sweep with packets and added clients between its turns, in any order, leaves what a serial run leaves: the steps on records it had not come to, the one-step sweep, the steps on records it had left |
| RtspSplitSweep.SplitSweepKeepsViewers | pkg/rtsp/new_server.go:238-268 | Such a sweep, in any reachable state, takes no viewer from a stream it keeps when the client timeout is at least the publisher timeout plus the lag |
| RtspSweep.SweepAbsorbs | pkg/rtsp/new_server.go:233-272 | A later sweep absorbs an earlier one in streams, visible clients and closes; in detached client lists exactly when no stream was pruned first and removed later |
| RtspSweep.OrderedSweepsAbsorb | pkg/rtsp/new_server.go:233-272 | In an ordered state, with a client timeout of at least the publisher timeout plus the lag, a later sweep absorbs an earlier one altogether |
| RtspSweep.AlwaysAbsorbsIff | pkg/rtsp/new_server.go:233-272 | Two sweeps leave exactly what the later one leaves, in every run, exactly under the condition of NeverEvictsIff; otherwise a concrete run differs |
| RtspSweep.SilentStreamIsGone | pkg/rtsp/new_server.go:203-256 | With sweeps at most a period apart no stream is registered whose publisher was silent longer than its timeout plus the period |
| RtspSweep.SurvivesIffActive | pkg/rtsp/new_server.go:241-256 | An undisturbed stream survives a run exactly when every sweep finds its last packet within the timeout |
| RtspDirectory.DirectoryIsFold | pkg/rtsp/new_server.go:356-446 | The map of path to stream and publisher is the fold of accepted announces, publisher closes, sweeps and shutdowns, with split setups anywhere |
| RtspDirectory.ViewersDoNotInfluenceStreams | pkg/rtsp/new_server.go:453-524 | Erasing every setup and play from a history changes only client lists |
| RtspServer.StreamInfo.AddClient | pkg/rtsp/new_server.go:37-41 | The client is stored under its ID and nothing else changes |
| RtspServer.StreamInfo.RemoveClient | pkg/rtsp/new_server.go:43-47 | Exactly the client with this ID is gone |
| RtspServer.StreamInfo.Touch | pkg/rtsp/new_server.go:548-556 | A packet moves the publisher's and every client's activity to now, in any order |
| RtspServer.StreamInfo.RemoveInactive | pkg/rtsp/new_server.go:258-268 | Collecting and then deleting removes exactly the expired clients |
| RtspServer.NewServer.OnAnnounce | pkg/rtsp/new_server.go:408-451 | In place, an announce is its step: refused at capacity, else replacing and closing what was there |
| RtspServer.NewServer.OnSetup | pkg/rtsp/new_server.go:453-498 | In place, a setup admits a session that is not the publisher, and an unknown path is not found |
| RtspServer.NewServer.SetupUse | pkg/rtsp/new_server.go:468-493 | The second half of a setup on any record ever created, registered or not, is its step |
| RtspServer.NewServer.OnPlay | pkg/rtsp/new_server.go:500-524 | In place, a play refreshes the client of the path's stream if there is one |
| RtspServer.NewServer.OnPacket | pkg/rtsp/new_server.go:542-557 | The packet callback on any record ever created is its step |
| RtspServer.NewServer.OnSessionClose | pkg/rtsp/new_server.go:356-386 | The loop that deletes while iterating ends, in any order, at the step that erases the session |
| RtspServer.NewServer.CleanupInactiveSessions | pkg/rtsp/new_server.go:233-272 | The sweeping loop that deletes while iterating ends, in any order, at the filter |
| RtspServer.NewServer.Close | pkg/rtsp/new_server.go:172-189 | The closing loop closes each registered stream and publisher once and empties the registry |
| RtspLocks.HandlersAreDisciplined | pkg/rtsp/new_server.go:233-562 | Every handler takes the registry lock before at most one record lock, none twice, and releases all |
| RtspLocks.DeadlockFreedom | pkg/rtsp/new_server.go:37-53 | Whatever handlers start and interleave under writer-preferring locks, some unfinished handler can step, and writers are exclusive |
| RtspLocks.WriterComesFirst | pkg/rtsp/new_server.go:37-41 | A writer that waits or is in keeps readers out, and one that is in keeps everybody out, as Go's read/write mutex does |
| RtspLocks.HandlerAccesses | pkg/rtsp/new_server.go:233-562 | Which handlers change the map of streams, which only look at it, and whose clients and times each one reads or changes |
| RtspLocks.NoCollisions | pkg/rtsp/new_server.go:37-562 | Whatever handlers start and interleave, no two are ever about to access the same map or record unless both only read |
| RtspLocks.SchedulesAreBounded | pkg/rtsp/new_server.go:233-562 | Running handlers take a bounded number of steps however they are scheduled |
| RtspLocks.HandlersFinish | pkg/rtsp/new_server.go:233-562 | From every reachable lock state the running handlers can be brought to their end with every lock released |
| Backoff.NextWait | pkg/rtsp/new_host.go:134-177 | The first wait is the configured delay and each one after it is three halves of the last, truncated, at most 30,000,000,000 ns |
| Backoff.GrowsExactlyBetween | pkg/rtsp/new_host.go:173-177 | The wait grows exactly from 2 ns up to below 30 s, and stands still exactly at 0, 1 ns and 30 s |
| Backoff.WaitsIncreaseToCap | pkg/rtsp/new_host.go:134-177 | For every configured delay: from 2 ns on a wait below 30 s strictly increases, 0 and 1 ns never grow, and any wait of 30 s or more, even a longer configured one, is followed by 30 s for ever |
| Backoff.CapOnce | pkg/rtsp/new_host.go:173-177 | Capping at every step equals capping the uncapped wait once |
| Backoff.UncappedBounds | pkg/rtsp/new_host.go:173-177 | (D-1)(3/2)^k + 1 and D(3/2)^k bound the uncapped wait after k steps, in integers |
| Backoff.CapReachedWithinSixty | pkg/rtsp/new_host.go:173-177 | Every delay of at least 2 ns is at 30 s from the sixtieth step on |
| Backoff.TotalWaitBounds | pkg/rtsp/new_host.go:163-177 | n failures wait between (n-K) caps and n maxima, K being the steps to the cap |
| RtspHost.StreakIff | pkg/rtsp/new_host.go:163-186 | A streak of k failures ends just before the round and is not longer: a success starts it afresh |
| RtspHost.PausesIff | pkg/rtsp/new_host.go:163-177 | The pauses are exactly those of the failed rounds, in order, when retries are configured, each as long as the delay grown once per failure right before |
| RtspHost.NewHost.ConnectionManager | pkg/rtsp/new_host.go:133-200 | For every sequence of outcomes the waits are those pauses; the loop goes on exactly after a failure whose wait elapses with retries configured and after a loss, and returns in the first round that is cancelled or fails without retries, with the state and error of that exit |
| RtspHost.NewHost.AttemptConnection | pkg/rtsp/new_host.go:228-250 | An attempt always makes a client, and only a successful one then records and stamps the write time |
| RtspHost.BurstRate | pkg/rtsp/new_host.go:146-180 | n consecutive failures pause for at least (n-60) caps and at most n maxima in total |
| RtspHost.NewHost.WriteRTP | pkg/rtsp/new_host.go:281-328 | A write is gated by state, client and formats, fixes the payload type, and counts only what was written |
| RtspHost.WriteEffect | pkg/rtsp/new_host.go:281-328 | Which gate answers what, what a written packet carries and counts, and that a failed send leaves the Error state with its error |
| RtspHost.StatisticsAreSums | pkg/rtsp/new_host.go:322-325 | In every history of options, assignments of the manager, errors and writes, the statistics are the number and payload bytes of the packets written, modulo 2^64 |
| RtspHost.WritesNeedAllThree | pkg/rtsp/new_host.go:281-309 | A new host writes in no history that does not append a media with a format, make a client and enter the recording state |
| RtspHost.ThreeCallsThenWrite | pkg/rtsp/new_host.go:281-328 | After these three calls the next packet is written, with the payload type of the first format |
| RtspHost.FailureSilences | pkg/rtsp/new_host.go:287-319 | Whatever led up to it, a failed write leaves the Error state and its error, and from there on nothing is written or counted unless something else sets the state |
| Text.SplitJoin | pkg/rtsp/options.go:132 | Splitting inverts joining separator-free parts |
| Text.JoinSplit | pkg/rtsp/options.go:132 | Joining inverts splitting, and the parts hold no separator |
| Text.DecimalIsPositional | pkg/rtsp/options.go:185 | The decimal digits and their positions |
| Text.AtoiIff | pkg/rtsp/options.go:185 | Exactly the texts that read as a number: a sign or none, zeros, its decimal form, within 64 bits |
| Text.ParseUint32Iff | pkg/webrtc_js/host.go:739 | Exactly the texts that read as an unsigned 32-bit number: zeros and its decimal form |
| Text.AtoiDecimal | pkg/rtsp/options.go:185 | Parsing a printed 63-bit number returns it |
| Base64.CharIsInTable | pkg/rtsp/options.go:154-159 | The alphabet is that of table 1 in section 4 of RFC 4648, with `=` for padding |
| Base64.GroupIsPositional | pkg/rtsp/options.go:154-159 | A group is the same 24 bits as three bytes, most significant first, and as four base-64 digits |
| Base64.LastGroupIsPadded | pkg/rtsp/options.go:154-159 | One or two last bytes are padded with zero bits and with `=` |
| Base64.GroupsInOrder | pkg/rtsp/options.go:154-159 | The groups of a longer byte string follow each other |
| Base64.DecodesIff | pkg/rtsp/options.go:154-159 | Exactly the texts that decode: without line breaks, whole groups of the alphabet with at most two `=`, at the end |
| Base64.RoundTrip | pkg/rtsp/options.go:154-159 | Decoding inverts encoding for every byte string (section 4 of RFC 4648) |
| Base64.EncodeInvertsDecode | pkg/rtsp/options.go:154-159 | What decodes is, up to line breaks, the encoding of its value exactly when its unused bits are zero |
| Fmtp.FindParam | pkg/rtsp/options.go:135-140 | The search loop returns the value of the first parameter with the key, or nothing |
| Fmtp.ParseSPSPPS | pkg/rtsp/options.go:131-168 | The parser computes its specification, with every error in its order |
| Fmtp.ParsePacketisationMode | pkg/rtsp/options.go:170-191 | The parser computes its specification, with every error in its order |
| Fmtp.WithH264OptionsFromRemote | pkg/rtsp/options.go:91-109 | One media is appended, or on the first error none |
| Fmtp.CarriesIff | pkg/rtsp/options.go:132-146 | The value found is the one that the first parameter with the key carries, over all ways of reading the line as `;`-separated parameters |
| Fmtp.AcceptedSets | pkg/rtsp/options.go:131-168 | A line is accepted with these sets exactly when its first such parameter is two comma-free texts, joined by a comma, that decode to them |
| Fmtp.AcceptedMode | pkg/rtsp/options.go:170-191 | A line is accepted with this mode exactly when its first such parameter is a text that reads as this number |
| Fmtp.RefusedSets | pkg/rtsp/options.go:142-162 | Exactly when a line's sets are refused, and with which error: no value, not two sets, an SPS or a PPS that does not decode |
| Fmtp.RefusedMode | pkg/rtsp/options.go:181-188 | Exactly when a line's mode is refused, and with which error |
| Fmtp.ErrorsInOrder | pkg/rtsp/options.go:93-105 | The option fails with the sets' error first, then the mode's, then that of a payload type other than 102 |
| Fmtp.MediaIs | pkg/rtsp/options.go:25-36 | The new media has one format, of payload type 102, with the mode's low eight bits and the sets byte for byte |
| Fmtp.FmtpRoundTrip | pkg/rtsp/options.go:131-191 | Wherever the two printed parameters stand among others, parsing returns exactly the byte strings and the mode (section 8.1 of RFC 6184) |
| Fmtp.PrintedLineIsAccepted | pkg/rtsp/options.go:25-109 | With payload type 102 the new media carries the printed sets and mode |
| Fmtp.ModeIsKeptIffByte | pkg/rtsp/options.go:107 | The mode reaches the format unchanged exactly when it fits a byte |
| Ssrc.TokenHasTwoPieces | pkg/webrtc_js/host.go:734-738 | The index into the split token is in range for every line with the prefix |
| Ssrc.ExtractSSRCFromSDP | pkg/webrtc_js/host.go:728-765 | For every text and map order the results are different members of the collected set, with 0 for what is missing |
| Ssrc.SpaceIsWhite | pkg/webrtc_js/host.go:733 | The white space that is trimmed, by code point |
| Ssrc.TrimSpaceIff | pkg/webrtc_js/host.go:733 | What trimming leaves is the text between white space that neither begins nor ends with any |
| Ssrc.LineSsrcIff | pkg/webrtc_js/host.go:732-743 | Exactly the lines that announce a source: trimmed, the prefix, a number up to a space, a colon or the end, and no rtx anywhere |
| Ssrc.NumbersIff | pkg/webrtc_js/host.go:732-744 | The numbers collected are those that some line announces |
| Ssrc.SsrcRoundTrip | pkg/webrtc_js/host.go:729-744 | Scanning a printed description finds its sources, in order, and nothing in its other lines (section 4.1 of RFC 5576) |
| WebrtcEvents.KnownIdEffect | pkg/webrtc_js/host.go:538-541 | A request for a known ID makes its session active now and changes nothing else |
| WebrtcEvents.NewIdEffect | pkg/webrtc_js/host.go:578-640 | A request for an unknown ID makes a session with its ttl, or the configured one for 0, active now with an empty queue, or fails and changes nothing |
| WebrtcEvents.CallbackEffect | pkg/webrtc_js/host.go:605-632 | Connected raises the counter by one modulo 256, a loss lowers it by one but not below 0 and counts a failure, other states count nothing |
| WebrtcEvents.PayloadLengths | pkg/webrtc_js/host.go:28-29 | A packet counts with its payload: 36 bytes for the injected SPS and 4 for the PPS |
| WebrtcEvents.TakeEffect | pkg/webrtc_js/host.go:644-675 | The forwarder takes the oldest packet and counts its payload exactly if the track took it |
| WebrtcEvents.SendEffect | pkg/webrtc_js/host.go:690-697 | A send is accepted exactly if fewer than 1000 packets are queued, and only then counts as activity |
| WebrtcEvents.ParameterSetEffect | pkg/webrtc_js/host.go:801-818 | The SPS is sent first, the PPS only after an accepted SPS and once, each accepted exactly if fewer than 1000 packets are queued |
| WebrtcEvents.SweepEffect | pkg/webrtc_js/host.go:878-888 | A sweep removes exactly the sessions silent for longer than their ttl, closes each channel once, and lowers the counter by their number but not below 0 |
| WebrtcEvents.SweepKeepsIff | pkg/webrtc_js/host.go:84-86 | A session is in the table after a sweep exactly if it was and its last activity is at most its ttl ago |
| WebrtcEvents.CloseEffect | pkg/webrtc_js/host.go:903-912 | A shutdown closes the channel of every session of the table once and empties it |
| WebrtcEvents.SilentSessionIsGone | pkg/webrtc_js/host.go:866-888 | With a sweep getting hold of the table at least every period, a session silent for longer than its ttl plus the period is not in the table and its channel was closed exactly once |
| WebrtcEvents.ActivityIs | pkg/webrtc_js/host.go:72-82 | In every run a session's activity is the last of the requests for its ID, its answers and the packets it accepted |
| WebrtcEvents.SessionSurvivesIff | pkg/webrtc_js/host.go:84-888 | Over every run a session stays in the table exactly if no shutdown gets hold of it and every sweep that does finds it active within its ttl |
| WebrtcEvents.RefusedFromTheLimitOn | pkg/webrtc_js/host.go:348-351 | After n sessions have connected the next request is refused exactly if the limit is at most n |
| WebrtcRuns.IdsAfter | pkg/webrtc_js/host.go:534-642 | After any step an ID is in the table exactly if it was and was not removed, or its session was just created |
| WebrtcRuns.StepOnSession | pkg/webrtc_js/host.go:584-820 | What any step does to any session ever created, and to no other |
| WebrtcRuns.StepKeepsLifecycle | pkg/webrtc_js/host.go:584-913 | Every step keeps: a session is in the table exactly while its channel is open, and a channel is closed once |
| WebrtcRuns.RunKeepsLifecycle | pkg/webrtc_js/host.go:534-914 | The same in every reachable state, with any number of sweeps and shutdowns |
| WebrtcRuns.BroadcastFreezesTable | pkg/webrtc_js/host.go:701-719 | While a broadcast holds the read lock no session enters or leaves the table |
| WebrtcRuns.CrashesIff | pkg/webrtc_js/host.go:690-697 | A step sends to a closed channel exactly when it is an unlocked send to a session that left the table |
| WebrtcRuns.RunCrashesIff | pkg/webrtc_js/host.go:677-821 | Over every run: the process is dead exactly when some step was an unlocked send to a session that had left the table |
| WebrtcRuns.LockedSendsNeverCrash | pkg/webrtc_js/host.go:701-719 | In every run, whatever runs beside it, a send of a broadcast goes to a session in the table whose channel is open, and is never the step that ends the process |
| WebrtcRuns.ExpiryBeforeSendCrashes | pkg/webrtc_js/host.go:767-803 | A concrete run in which a session expires between a caller's lookup and its first send, which ends the process |
| WebrtcBroadcasts.BroadcastSendsOnce | pkg/webrtc_js/host.go:700-726 | Between begin and end of a broadcast in any run, with any steps in between, each session of the table is sent the packet exactly once and nobody else is, and the success count is the number of acceptances |
| WebrtcBroadcasts.SendOffersPacket | pkg/webrtc_js/host.go:690-697 | Each such send appends the packet to its session exactly when there is room, and then counts as activity |
| WebrtcRuns.ShutdownClosesOnce | pkg/webrtc_js/host.go:878-914 | After a shutdown every channel ever made was closed exactly once |
| WebrtcRuns.FifoAlways | pkg/webrtc_js/host.go:644-697 | For every interleaving, what was taken followed by the queue is what was accepted, and the queue holds at most 1000 |
| WebrtcCounts.BytesAlwaysCounted | pkg/webrtc_js/host.go:140-144 | TotalDataSent is, in 64 bits, the payload of every successful track write of every session ever created |
| WebrtcCounts.SpsBeforePps | pkg/webrtc_js/host.go:767-821 | In every prefix of what a session accepted there are at least as many injected SPS as PPS packets, with any number of callers |
| WebrtcAdmission.StepKeepsBoundIff | pkg/webrtc_js/host.go:120-132 | A step breaks the bound of the counter by the connected sessions exactly when a connected session is told New, Connecting or Connected and the bound was tight, except that a repeated Connected at 255 wraps the counter to 0 |
| WebrtcAdmission.OrderlyRunIsBounded | pkg/webrtc_js/host.go:605-632 | In every run without such callbacks the counter never exceeds the connected sessions |
| WebrtcAdmission.RefusalMeansFull | pkg/webrtc_js/host.go:348-351 | In such a run a refusal means at least as many connected sessions as the limit |
| WebrtcAdmission.RestartBreaksBound | pkg/webrtc_js/host.go:605-632 | A concrete run in which a session back in Connecting leaves the counter one too high |
| WebrtcAdmission.ActivityFollowsPackets | pkg/webrtc_js/host.go:72-82 | A session's activity is never older than its last accepted packet |
| WebrtcAdmission.ActiveSessionSurvives | pkg/webrtc_js/host.go:84-86 | A session whose accepted packets are never further apart than its ttl survives every sweep of a run |
| WebrtcLoops.BroadcastInAnyOrder | pkg/webrtc_js/host.go:712-719 | In whatever order the map is iterated, the steps of an uninterrupted broadcast add up to one offer to every session |
| WebrtcHost.ClientSession.TrySend | pkg/webrtc_js/host.go:690-697 | A send on an open channel is accepted exactly when there is room, and then counts as activity |
| WebrtcHost.Host.GetOrCreateSession | pkg/webrtc_js/host.go:534-642 | In place, a request refreshes the session or creates it with its ttl or the default, or fails and changes nothing |
| WebrtcHost.Host.OnConnectionStateChange | pkg/webrtc_js/host.go:605-632 | In place, a callback is its step: state, saturating decrement, wrapping increments |
| WebrtcHost.Host.ForwardOne | pkg/webrtc_js/host.go:644-675 | In place, a turn of the forwarder takes the oldest packet and counts it only if it was written |
| WebrtcHost.Host.ProcessRTPPacket | pkg/webrtc_js/host.go:677-698 | Only the named session changes, and success means it is known and had room |
| WebrtcHost.Host.WriteRTP | pkg/webrtc_js/host.go:700-726 | In any order each session with room gets the packet once, full ones are unchanged, and success means some session had room |
| WebrtcHost.Host.SendParameterSets | pkg/webrtc_js/host.go:767-821 | In place, a call is the step that sends the SPS and, only if that was accepted, the step that sends the PPS; success means room for both |
| WebrtcHost.Host.CleanupExpiredClients | pkg/webrtc_js/host.go:878-888 | The sweeping loop closes and removes exactly the expired sessions and lowers the counter once each |
| WebrtcHost.Host.Shutdown | pkg/webrtc_js/host.go:893-914 | The closing loop closes every session of the table once and empties it |
| Relay.ConnectEffect | pkg/socket/server.go:225-276 | A request is let in exactly if the counter plus one, as a byte, is at most the limit; success raises the counter by two, refusal and a failed upgrade only count a failure |
| Relay.DepartEffect | pkg/socket/server.go:231-232 | A departure takes the client out and lowers the counter by one, modulo 256 |
| Relay.CastEffect | pkg/socket/server.go:427-454 | A broadcast is over the clients of the moment, counts the length of each successful send, and ends with the first failed one |
| Relay.RequestsFill | pkg/socket/server.go:225-264 | From an idle server exactly the first half of the limit plus one of any row of requests get in |
| Relay.CounterLeaks | pkg/socket/server.go:225-276 | With a limit up to 253 the counter is the connected clients plus all admitted since the reset, so at most the limit are ever admitted and at most half of it plus one are connected at once |
| Relay.LimitIsForLife | pkg/socket/server.go:256-264 | A server that has admitted its limit refuses everybody until it is reset |
| Relay.CounterCoversIff | pkg/socket/server.go:231-258 | The counter is never below the number of clients, in every run, exactly when the limit is at most 253 |
| Relay.LimitHoldsIff | pkg/socket/server.go:258 | There are never more clients than the limit, in every run, exactly when the limit is at most 253 |
| RelayRequests.ClientsBounded | pkg/socket/server.go:225-276 | With the test and the increments as separate steps and at most m requests in flight, the clients are at most half of the limit plus 2m - 1, as long as the limit plus 2m stays within 255 |
| RelayRequests.BoundIsReached | pkg/socket/server.go:256-263 | That bound is reached, for every limit and every m |
| RelayRequests.KeepsLimitIff | pkg/socket/server.go:256-263 | With at most m requests in flight the limit is kept in every run exactly when it is 0, or the limit plus 2m is at most 255 and 2m is at most the limit plus 2 |
| Relay.BroadcastsReachOnce | pkg/socket/server.go:427-445 | In every run, with anything between its sends, a broadcast has reached each client of its snapshot at most once and nobody else, and all of them once nobody is left to serve |
| Relay.WholeCastCounts | pkg/socket/server.go:427-454 | Without interruption a broadcast in any order adds exactly the message length for each client it reached before the first failure |
| Relay.SentIsDelivered | pkg/socket/server.go:427-454 | In every run TotalDataSent is, in 64 bits, message length times successful sends, summed since the reset, clients that left meanwhile included |
| RelayServer.Server.UpgradeRequest | pkg/socket/server.go:256-276 | The counters after an admission test, an upgrade that fails, and one that succeeds |
| RelayServer.Server.Admit | pkg/socket/server.go:225-238 | In place, a client's request is its step, with both increments |
| RelayServer.Server.Leave | pkg/socket/server.go:231-232 | In place, a departure takes the client out and lowers the counter once |
| RelayServer.Server.SendAllClients | pkg/socket/server.go:427-445 | In place, a message is a whole broadcast over the clients in map order: it reaches a duplicate-free prefix, up to the first failed send, and exactly those bytes are counted |
| RelayServer.Server.Close | pkg/socket/server.go:456-465 | Closing forgets every client and starts the metrics afresh |

## Left out

- Sockets, HTTP, JSON, CORS, ICE and SDP negotiation, RTSP itself: foreign calls with arbitrary outcomes.
- Clocks, tickers and sleeps: time is a parameter. One call sees one time, where the source reads the clock again for each session of a broadcast.
- RtspSplitSweep.SplitSweepIsSerial: looking at a stream, closing it and deleting its path are one turn of the sweep.
- RtspLocks.NoCollisions: covers the map of streams and the records; `totalConnections`, which the source changes without a lock, is not modelled.
- RtspLocks.DeadlockFreedom: the calls into the RTSP library are taken not to call back synchronously.
- RtspServer.NewServer.OnAnnounce: the checks for a missing stream or publisher are not modelled, because every record is created with both.
- Backoff.GrowsExactlyBetween: covers configured delays from 0 to 2^62 ns. Up to 2^52 ns the floating-point step of the source is exact, and above 20 s both it and the integer step are the cap however the product is rounded; negative delays, and the overflow beyond, are not modelled.
- RtspHost.NewHost.ConnectionManager: is driven by a finite list of rounds, each an arbitrary outcome, and `monitorConnection` is reduced to returning on loss or cancellation; the second monitor, which nothing calls, and its channel's reader are not modelled.
- The nested read locks of the WebRTC broadcast: nothing is said about its deadlock freedom.
- WebrtcRuns.FifoAlways: packets are identities with a length; rewriting the shared packet's header and recycling packets are not modelled.
- WebrtcAdmission.OrderlyRunIsBounded: a callback's state change and counter change are one step.
- Ssrc.ExtractSSRCFromSDP: text is a sequence of Unicode characters, so byte strings that are not valid UTF-8 are not modelled.
- RelayRequests.KeepsLimitIff: counts requests since the last reset; requests in flight while the metrics are replaced are not modelled.
- RelayServer.Server.Close: is the inner `close`; the outer one also sets the configuration, and with it the limit, to zero for good.
- `validateConnection`'s client count and `totalConnections`, GetClients, GetStreamInfo, OnDescribe's response, the SDP status, `addError`'s last ten entries and the byte counters for received data: they would only add easy members.
- Reconnection after a failed write, and a limit on retries: the source has neither.
- `pkg/loopback`, `pkg/sink.go`, `pkg/stream.go`, `pkg/rtsp/server.go`, `pkg/socket/host.go` and `internal/rtp_pool.go`: plumbing around the parts modelled here.
