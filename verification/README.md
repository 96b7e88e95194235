# Signalling logic of the BlueZ Android daemon

A Dafny model of the protocol logic in the vendored BlueZ 5.42 daemon (`bluez/bluez-5.42/android`), with proofs of what
its state machines keep and what its codecs give back. Pointers that the C code can free are modelled as identifiers with
a map of what is allocated, so that "names a freed stream" can be said and excluded. Sockets, timers and callbacks are
nondeterministic outcomes or events; what has been sent is kept in ghost histories.

- `AvdtpWire`: fragmentation and reassembly of signalling messages with the 8-bit counters of the code.
- `AvdtpCaps`: service capabilities and the Set Configuration request.
- `AvdtpRequests`: the request engine with its two queues, as a function, with its history over whole runs.
- `AvdtpGraph`: the structs of a session and the pointers between them, as values, with the invariant they keep.
- `AvdtpEffects`: what every call, command and response does to the value of a session, with what is handed to the socket.
- `AvdtpSession`: the session with its streams, end points, requests and timers, changed in place by every event.
- `AvdtpCollision`: two peers that both send START; sessions are shown to take the steps of that protocol.
- `AvrcpContinuing`, `AvrcpElements`: continuation of long responses, and media attributes.
- `AvctpChannel`: the life of an AVCTP request.
- `DeviceStore`, `Discovery`: bonded and cached devices, bond events, and device discovery.
- `A2dpPresets`: codec negotiation.
- `GattServer`, `GattCharCache`: batched attribute reads, and the client's characteristic cache.

## What turned out false of the code

- A START count that is one too large when the last fragment is full (`AvdtpWire.RoundTrip` gives the exact condition).
- `AvdtpSession`: a response that is refused after its timer was stopped loses the connection while the outstanding
  request still names the stream that is freed (`RejectLeavesDanglingRequest`; `Session.ResponseReceived` gives the exact
  condition, and `Session.Run` shows that no other pointer between the structs ever dangles).
- `AvdtpEffects`: the reject that `avdtp_close_cmd` and `avdtp_delayreport_cmd` send has one octet, and `avdtp_parse_rej`
  wants two: a rejected CLOSE or Delay Report loses the connection (`RejectsReadBack` compares all signals).
- `AvdtpSession`: OPEN is accepted again while the timer of the first one runs, and the first source is lost: it can fire
  for a freed stream (`Session.OpenTwice`). `Session.ParseCmd` and `Session.SetTransport` say exactly when a source is
  lost.
- `AvrcpContinuing`: the comment in the code limits an AV/C frame to 512 octets, but the missing parentheses of the
  offset macro leave no room for the lower headers below an MTU of 518 (`EveryPiecePasses`).
- `AvctpChannel`: transaction labels in use can be handed out again; `ScanReusesIff` says exactly when.
- `AvdtpRequests`: the request queues are not looked at when the outstanding request goes with its stream or is cancelled.
  What waits then waits for the next request, which overtakes it (`State.StepStalled` and `State.StepOrdered` say exactly
  when, `CloseFirst` and `AvdtpSession.Session.CloseOvertakesSuspend` are runs).
- `DeviceStore`: a device evicted while it is pairing leaves Android with BONDING for its address (`Record.LastEventIff`
  is the exact condition, `Record.EvictedByCreated` and `Record.EvictedByUpdated` say when it comes about, and
  `Adapter.LoseAddress` is a run).
- `Discovery`: STARTED and STOPPED alternate exactly as long as changes of the supported types are safe (`ChangeKeeps`,
  `Adapter.UnsafeChange`).
- `A2dpPresets`: a preset stays narrowed for all later remotes; `LaterRemote` says exactly which ones still take it. A
  remote with an empty interval leaves an empty preset (`NarrowedPasses`).
- `GattServer`: when the last read of a request times out or is cancelled no response is sent (`Device.Serve`); a late
  answer to a read of an earlier request gives the response the wrong kind (`Exchange.RightKindIff` is the exact
  condition, `LateAnswerKind` a run); and a value too long for a data list leads to a null pointer (`NullListIff`).
- `GattCharCache`: the 256th characteristic of a service cannot be reached (`Service.Walk`).

## Model

| member | source | states |
|---|---|---|
| AvdtpWire.Layout | bluez/bluez-5.42/android/avdtp.c:87-118 | where each header field is in its octet, and the packet types in numbers |
| AvdtpWire.DecodeEncode | bluez/bluez-5.42/android/avdtp.c:87-118 | a packet's header fields (type, label, count, signal) and payload survive the bit layout |
| AvdtpWire.Sender.SendStart | bluez/bluez-5.42/android/avdtp.c:504-523 | the START packet carries the fragment count cut to one octet and the first omtu-3 octets |
| AvdtpWire.Sender.SendTail | bluez/bluez-5.42/android/avdtp.c:529-556 | the loop sends the CONTINUE packets and the END packet that carry what START left, or stops at the packet the socket refuses, which is the next of them |
| AvdtpWire.Sender.Send | bluez/bluez-5.42/android/avdtp.c:465-557 | a message that cannot be sent touches nothing; otherwise exactly `Packets(omtu, m)` goes out, or a proper prefix, and the next packet was handed to the socket and refused |
| AvdtpWire.Reassembler.OpenPacket | bluez/bluez-5.42/android/avdtp.c:1863-1958 | the header checks: which packets are refused in which state, and that a refused one changes nothing |
| AvdtpWire.Reassembler.ParseData | bluez/bluez-5.42/android/avdtp.c:1856-1980 | one call of `avdtp_parse_data` on the real 1024-octet buffer is one step of `Parse`; no copy leaves the buffer |
| AvdtpWire.AcceptedSequences | bluez/bluez-5.42/android/avdtp.c:1856-1980 | from idle the accepted packet sequences are exactly SINGLE, START with count at most 1, or START(N), N-2 CONTINUEs and one END of the same label, whose payloads find room |
| AvdtpWire.CountsDown | bluez/bluez-5.42/android/avdtp.c:1970-1975 | the number of packets still expected strictly decreases and is at most 254 after START |
| AvdtpWire.Contents | bluez/bluez-5.42/android/avdtp.c:1856-1980 | a completed message carries the label, type and signal of its first packet and the joined payloads |
| AvdtpWire.CountIsRight | bluez/bluez-5.42/android/avdtp.c:504-515 | the announced count equals the number of packets sent, plus one exactly when omtu-1 divides len-(omtu-3) |
| AvdtpWire.RoundTrip | bluez/bluez-5.42/android/avdtp.c:465-557 | feeding the packets of `avdtp_send` to an idle `avdtp_parse_data` gives the message back if and only if the payload has at most 255 octets and the count is not one too large |
| AvdtpWire.MiscountRefused | bluez/bluez-5.42/android/avdtp.c:1935-1958 | in the miscounted case the END packet is refused while one more packet is expected |
| AvdtpCaps.CapsToList | bluez/bluez-5.42/android/avdtp.c:1120-1160 | the list is the capabilities that are whole, stopping where none is; `codec` is the last media codec entry of at least two octets, `delay_reporting` says whether there is such an entry; nothing past the end is read |
| AvdtpCaps.LongestPrefix | bluez/bluez-5.42/android/avdtp.c:1126-1157 | on arbitrary bytes, any other list printed at the front is a prefix of what `caps_to_list` reads |
| AvdtpCaps.ReadsUnique | bluez/bluez-5.42/android/avdtp.c:1120-1160 | there is one reading of a byte string, the capabilities that are whole |
| AvdtpCaps.ReadsBack | bluez/bluez-5.42/android/avdtp.c:1120-1160 | reading printed capabilities gives the same list |
| AvdtpCaps.CheckTransport | bluez/bluez-5.42/android/avdtp.c:1326-1338 | a list passes unless some Media Transport capability in it is not empty |
| AvdtpCaps.BuildRequest | bluez/bluez-5.42/android/avdtp.c:3145-3172 | the request is the two SEIDs and the capabilities, with Delay Reporting appended exactly when both sides support it |
| AvdtpCaps.ReadRequest | bluez/bluez-5.42/android/avdtp.c:1292-1330 | a request of fewer than two octets is refused; otherwise SEIDs, capability list, codec and delay flag |
| AvdtpCaps.RequestReadsBack | bluez/bluez-5.42/android/avdtp.c:3154-3172 | the acceptor reads exactly the SEIDs and capabilities the initiator printed |
| AvdtpCaps.RequestCrossesTheWire | bluez/bluez-5.42/android/avdtp.c:3154-3172 | the same after fragmentation and reassembly, for requests of at most 255 octets that are not miscounted |
| AvdtpRequests.State.StepPlain | bluez/bluez-5.42/android/avdtp.c:780-799 | without its history a step of the engine is what `send_req`, the end of a response (`process_queue`), a dying stream (`handle_unanswered_req`, `cleanup_queue`) and `cancel_request` do to request and queues, in the terms the session's methods are stated in |
| AvdtpRequests.Schedule | bluez/bluez-5.42/android/avdtp.c:2359-2393 | over every run, with refused sends, dying streams and cancelled requests: every request made is in exactly one place (sent, waiting, or refused or freed) and exactly once, as it was made; the queues hold their own class; the outstanding request is the last one sent |
| AvdtpRequests.State.StepOrdered | bluez/bluez-5.42/android/avdtp.c:2365-2373 | a step keeps the order in which the requests of a class were made, on the wire and then in the queue, if and only if it does not send one at once while others of its class wait with nothing outstanding |
| AvdtpRequests.State.OvertakenOnTheWire | bluez/bluez-5.42/android/avdtp.c:2365-2373 | once the queues have drained the wire shows that order if and only if the request did not overtake |
| AvdtpRequests.State.StepStalled | bluez/bluez-5.42/android/avdtp.c:780-799 | requests come to wait with nothing outstanding exactly when a dying stream or a cancellation takes the outstanding request away from others that wait, or the socket refuses one of at least two that wait |
| AvdtpRequests.InOrder | bluez/bluez-5.42/android/avdtp.c:2965-2987 | over every run in which no request overtakes, the wire carries each class in the order made |
| AvdtpRequests.Flows | bluez/bluez-5.42/android/avdtp.c:2965-2987 | over every run in which nothing stalls the engine, both classes go out in order and nothing ever waits while nothing is outstanding |
| AvdtpRequests.State.PriorityFirst | bluez/bluez-5.42/android/avdtp.c:2970-2984 | what goes out becomes the outstanding request; a normal request goes out past a priority one only if the engine has stalled and it was asked for just then |
| AvdtpRequests.CloseFirst | bluez/bluez-5.42/android/avdtp.c:780-799 | a run in which CLOSE goes out before the SUSPEND asked for earlier |
| AvdtpGraph.CleanupList | bluez/bluez-5.42/android/avdtp.c:760-778 | exactly the requests that name the stream are unlinked; the others keep their order |
| AvdtpGraph.Graph.RetiredLinked | bluez/bluez-5.42/android/avdtp.c:846-923 | retiring a stream keeps streams, end points and pointers consistent and leaves no dangling pointer, the outstanding request included if its timer was running |
| AvdtpGraph.Graph.SameLinksLinked | bluez/bluez-5.42/android/avdtp.c:846-870 | changing states and flags only keeps the links |
| AvdtpGraph.Graph.LosingStep | bluez/bluez-5.42/android/avdtp.c:1015-1030 | one round of `connection_lost`: the streams released so far, and what is left of queues and outstanding request |
| AvdtpGraph.Graph.LosingDone | bluez/bluez-5.42/android/avdtp.c:1015-1030 | after all rounds there is no stream, every end point is IDLE and unused, and no queue names a stream |
| AvdtpGraph.Graph.AddedLinked | bluez/bluez-5.42/android/avdtp.c:3179-3186 | hanging a new stream on an unused end point keeps the links |
| AvdtpGraph.Graph.DiscardedLinked | bluez/bluez-5.42/android/avdtp.c:670-698 | freeing a stream that was never linked keeps the links; its remote end point loses its stream |
| AvdtpGraph.Graph.MovedLinked | bluez/bluez-5.42/android/avdtp.c:846-890 | entering a state other than IDLE keeps the links |
| AvdtpGraph.LinkedSpelledOut | bluez/bluez-5.42/android/avdtp.c:318-400 | the invariant in plain terms: a stream is listed exactly when its end point points back at it with `inuse` set, an end point without a stream is IDLE and unused, and `pending_open`, the outstanding request and both queues name listed streams only |
| AvdtpGraph.MovedOneMore | bluez/bluez-5.42/android/avdtp.c:1562-1590 | the verdict on the next SEID in the present state is the verdict on the original state and the SEIDs before it |
| AvdtpGraph.RejectLeavesDanglingRequest | bluez/bluez-5.42/android/avdtp.c:2058-2111 | a concrete reject after which the outstanding request names a freed stream |
| AvdtpGraph.SetConfigurationSent | bluez/bluez-5.42/android/avdtp.c:3174-3186 | after a Set Configuration request the links hold if and only if the local end point was unused |
| AvdtpGraph.SetConfigurationFailed | bluez/bluez-5.42/android/avdtp.c:3174-3178 | the same when the request could not be sent and the new stream is freed |
| AvdtpEffects.Snap.EngineSteps | bluez/bluez-5.42/android/avdtp.c:2359-2393 | sending, the end of a response, a dying stream and a cancellation are the steps of the request engine |
| AvdtpEffects.Snap.FreshLabel | bluez/bluez-5.42/android/avdtp.c:2365-2381 | a request that goes out does not carry the label of the one before, so that a late response to that is ignored |
| AvdtpEffects.Snap.MovedOnLinked | bluez/bluez-5.42/android/avdtp.c:2093-2100 | freeing the outstanding request and sending what waits first keeps the links |
| AvdtpEffects.Snap.ConfiguringLinked | bluez/bluez-5.42/android/avdtp.c:3174-3186 | whatever becomes of a Set Configuration request, the links hold afterwards if and only if the local end point was unused |
| AvdtpEffects.MovesMore | bluez/bluez-5.42/android/avdtp.c:1562-1592 | one round of START or SUSPEND on the session as it is takes what the original session and the SEIDs before say to one SEID more, or stops there |
| AvdtpEffects.StartAlone | bluez/bluez-5.42/android/avdtp.c:1548-1606 | START for one end point is accepted if and only if that is open; then it is STREAMING, and a START of ours for it has been crossed |
| AvdtpEffects.DiscoveredMore | bluez/bluez-5.42/android/avdtp.c:2443-2471 | one more entry of a Discover response: which remote end points are known then, and which of our streams uses each |
| AvdtpEffects.RejectsReadBack | bluez/bluez-5.42/android/avdtp.c:2742-2858 | the reject each command handler sends is the shortest that `avdtp_parse_rej` takes, but for CLOSE and Delay Report, whose reject is never taken |
| AvdtpSession.Session.StreamFree | bluez/bluez-5.42/android/avdtp.c:670-698 | the stream is gone, its end point unused, its remote end point without a stream; its memory goes back only once no source its fields hold still runs (`FreeMemory`) |
| AvdtpSession.Session.HandleUnansweredReq | bluez/bluez-5.42/android/avdtp.c:780-844 | the outstanding request of a dying stream: kept while in process, an ABORT loses its stream, anything else is dropped |
| AvdtpSession.Session.SendReq | bluez/bluez-5.42/android/avdtp.c:2359-2393 | queued behind an outstanding request; otherwise handed to the socket with the next label, and outstanding and armed exactly if the socket takes it; an error means that it was handed over and refused |
| AvdtpSession.Session.SendRequest | bluez/bluez-5.42/android/avdtp.c:2395-2422 | a stream being aborted sends nothing but its ABORT; otherwise as `send_req` |
| AvdtpSession.Session.ProcessQueue | bluez/bluez-5.42/android/avdtp.c:2965-2987 | with nothing outstanding the first priority request, or else the first normal one, is handed to the socket; nothing else happens |
| AvdtpSession.Session.DelayReport | bluez/bluez-5.42/android/avdtp.c:3347-3370 | a delay report is asked for if and only if the stream is one of the session, configured or streaming, supports it, and the version is 1.3 or later; refused without effect otherwise |
| AvdtpSession.Session.SetState | bluez/bluez-5.42/android/avdtp.c:846-929 | `avdtp_sep_set_state`: nothing without a stream, the stream is retired on IDLE, otherwise the end point and the stream's timers follow the state, and a configured sink reports its delay; nothing else changes |
| AvdtpSession.Session.ReleaseStream | bluez/bluez-5.42/android/avdtp.c:952-962 | the stream is retired whatever its state; request and queues take the engine's step for a dying stream |
| AvdtpSession.Session.ConnectionLost | bluez/bluez-5.42/android/avdtp.c:1015-1030 | no stream of the session is left, every end point is IDLE, queues keep exactly the requests that name no stream, nothing is sent |
| AvdtpSession.Session.FindStreamByRseid | bluez/bluez-5.42/android/avdtp.c:641-654 | the first listed stream with the remote SEID, or a proof that there is none |
| AvdtpSession.Session.DropRequest | bluez/bluez-5.42/android/avdtp.c:2248-2308 | the outstanding request goes, without the queue being looked at; its stream is marked as being aborted and no longer as starting or closing |
| AvdtpSession.Session.CancelRequest | bluez/bluez-5.42/android/avdtp.c:2248-2348 | for Set Configuration, Discover, Get Capabilities and ABORT, and when no stream has the request's SEID, the connection is lost and nothing is sent; otherwise exactly one ABORT for that SEID is handed to the socket: if that takes it the ABORT is outstanding and nothing but the flags of its stream has changed, if not the connection is lost |
| AvdtpSession.Session.SetConfiguration | bluez/bluez-5.42/android/avdtp.c:3121-3191 | a request that goes out or into the queue links a new stream to both end points; if the socket refuses it the stream is freed again; the links hold afterwards if and only if the local end point was unused |
| AvdtpSession.Session.GetConfiguration | bluez/bluez-5.42/android/avdtp.c:3098-3107 | the request is asked for; an error means that the stream is being aborted or the socket refused what it was handed |
| AvdtpSession.Session.Open | bluez/bluez-5.42/android/avdtp.c:3193-3208 | asked for, for a listed stream in IDLE or CONFIGURED; refused otherwise without effect |
| AvdtpSession.Session.SendStart | bluez/bluez-5.42/android/avdtp.c:3252-3269 | a stream that is closing or starting is refused without effect; otherwise START is asked for, and with success the stream is starting |
| AvdtpSession.Session.Start | bluez/bluez-5.42/android/avdtp.c:3225-3270 | refused without effect unless open; the acceptor of OPEN waits; otherwise the request of `SendStart` |
| AvdtpSession.Session.Suspend | bluez/bluez-5.42/android/avdtp.c:3304-3319 | asked for in STREAMING, CLOSING and ABORTING unless the stream is closing; refused otherwise without effect |
| AvdtpSession.Session.Abort | bluez/bluez-5.42/android/avdtp.c:3321-3345 | refused without effect for an unknown stream or one in ABORTING; an outstanding request of the stream is cancelled as by `CancelRequest`; otherwise an ABORT is asked for ahead of the normal queue |
| AvdtpSession.Session.Close | bluez/bluez-5.42/android/avdtp.c:3272-3302 | an open stream's CLOSE is asked for, and with success it is marked closing; one already closing is refused without effect; one not open yet, or with its own request outstanding, is aborted |
| AvdtpSession.Session.CheckCollision | bluez/bluez-5.42/android/avdtp.c:1435-1496 | the outstanding request is marked exactly when it is OPEN, CLOSE, START or SUSPEND for the same remote SEID and the command is the same or an ABORT |
| AvdtpSession.Session.MoveOne | bluez/bluez-5.42/android/avdtp.c:1566-1592 | one round: the error in the source's order of checks, the marks of START, and the end point and its stream moved |
| AvdtpSession.Session.MoveSeids | bluez/bluez-5.42/android/avdtp.c:1562-1592 | the loop moves exactly the end points and streams of the SEIDs before the first that is refused, and marks our request when one of them crosses it |
| AvdtpSession.Session.MoveCmd | bluez/bluez-5.42/android/avdtp.c:1548-1606 | START is accepted if and only if the SEIDs are pairwise distinct, each names an end point with a stream in OPEN, and the indications accept; otherwise the reject names the first offender and exactly the SEIDs before it are STREAMING; streams, marks and the reply handed to the socket are exact; SUSPEND (lines 1659-1714) is the mirror image |
| AvdtpSession.Session.SetconfCmd | bluez/bluez-5.42/android/avdtp.c:1263-1375 | refused, each with its error, for an unknown or used end point, a Media Transport capability that is not empty, or an indication that refuses; otherwise, if the accept goes out, the new stream is linked with the delay reporting its capabilities ask for, its end point is CONFIGURED and a sink reports its delay; in every other case the stream is freed again; the version is raised for delay reporting |
| AvdtpSession.Session.ArmTimer | bluez/bluez-5.42/android/avdtp.c:1537-1539 | arming the timer of a stream overwrites the id of the source that may still run: that source is lost |
| AvdtpSession.Session.OpenCmd | bluez/bluez-5.42/android/avdtp.c:1498-1546 | error for each bad state, sent and without other effect; an accepted OPEN marks a crossing request, and once the accept is out makes the stream the one whose transport is awaited and loses the source of a timer that still runs, as in a second OPEN |
| AvdtpSession.Session.CloseCmd | bluez/bluez-5.42/android/avdtp.c:1608-1657 | error for each bad state, sent and without other effect; an accepted CLOSE marks a crossing request, moves the end point to CLOSING, and once the accept is out arms the timer, losing the source of one that still runs |
| AvdtpSession.Session.AbortCmd | bluez/bluez-5.42/android/avdtp.c:1716-1744 | silent without a stream; otherwise accepted, marking a crossing request, and ABORTING once the accept is out |
| AvdtpSession.Session.ParseCmd | bluez/bluez-5.42/android/avdtp.c:1804-1852 | every command keeps the links and reaches its own handler: the session afterwards, the reply handed to the socket, and which timer source is lost; of START and SUSPEND the first SEID that is refused, with the error, and that exactly those before it have moved |
| AvdtpSession.Session.DiscoverResp | bluez/bluez-5.42/android/avdtp.c:2424-2477 | remote end points become known exactly when announced as free or used by one of our streams, each with that stream; for every entry of a known end point its capabilities are asked for with priority, in order; without any the discovery is over |
| AvdtpSession.Session.AcceptFor | bluez/bluez-5.42/android/avdtp.c:2629-2697 | the accept of Set Configuration, START, SUSPEND and CLOSE takes the end point of the stream to CONFIGURED, STREAMING, OPEN and CLOSING; after OPEN the stream's transport is awaited; the accept of ABORT frees the stream and leaves its end point IDLE; flags, timers and queues are exact |
| AvdtpSession.Session.ParseResp | bluez/bluez-5.42/android/avdtp.c:2629-2697 | the same for the outstanding request; a Get Capabilities response must have its capability header, and ends the discovery unless the next request asks for capabilities, too |
| AvdtpSession.Session.ParseRej | bluez/bluez-5.42/android/avdtp.c:2742-2858 | taken exactly when the payload holds the reject of its signal; a rejected START or CLOSE clears its flag, a rejected discovery is over, nothing else changes |
| AvdtpSession.Session.CommandReceived | bluez/bluez-5.42/android/avdtp.c:1982-2104 | what every command does and answers as in `ParseCmd`; if our own request has been crossed, by this command or before, it is then freed and what waits first is sent, otherwise nothing more happens; a command that cannot be answered ends the channel |
| AvdtpSession.Session.ResponseReceived | bluez/bluez-5.42/android/avdtp.c:2043-2111 | an unexpected label or signal changes nothing; a response that is taken does for every signal and kind what `ParseResp` and `ParseRej` say, and then the request is freed and what waits first is sent; the links always hold; the outstanding request names a live stream and has its timer if and only if the response is taken or the request targets no stream, and a refused response ends the channel |
| AvdtpSession.Session.RequestTimeout | bluez/bluez-5.42/android/avdtp.c:2350-2357 | the request is given up as by `CancelRequest` |
| AvdtpSession.Session.ChannelFailed | bluez/bluez-5.42/android/avdtp.c:1988-1998 | no stream is left; every source lost before now runs for a freed stream |
| AvdtpSession.Session.StreamOpenTimeout | bluez/bluez-5.42/android/avdtp.c:599-612 | no transport is awaited any more, and the stream is aborted as by `avdtp_abort` |
| AvdtpSession.Session.StreamCloseTimeout | bluez/bluez-5.42/android/avdtp.c:569-597 | only the timer and the channel of the stream change |
| AvdtpSession.Session.StartTimeout | bluez/bluez-5.42/android/avdtp.c:3210-3223 | the acceptor stops waiting and both its flags are down; if the stream is open its START is asked for as by `avdtp_start` |
| AvdtpSession.Session.AddWatch | bluez/bluez-5.42/android/avdtp.c:745-746 | watching the media channel overwrites the id of a watch that still runs: that source is lost |
| AvdtpSession.Session.SetTransport | bluez/bluez-5.42/android/avdtp.c:2923-2941 | taken only for the awaited stream, which ends up OPEN, watched and without timer; otherwise nothing changes |
| AvdtpSession.Session.HandleTransportConnect | bluez/bluez-5.42/android/avdtp.c:721-747 | nothing is awaited any more, the stream has its transport, a watch and no timer, its end point is OPEN, and nothing else changes |
| AvdtpSession.Session.TransportClosed | bluez/bluez-5.42/android/avdtp.c:700-719 | the stream dies unless it is being aborted; request and queues take the engine's step for a dying stream, and nothing else changes |
| AvdtpSession.Session.UnregisterSep | bluez/bluez-5.42/android/avdtp.c:3413-3429 | the end point goes and its stream dies with it; nothing else changes |
| AvdtpSession.Session.Discover | bluez/bluez-5.42/android/avdtp.c:3028-3052 | busy while discovering, without effect; with known end points nothing is sent; otherwise the request is asked for |
| AvdtpSession.Session.LostSourceFires | bluez/bluez-5.42/android/avdtp.c:586-612 | a lost source that fires uses freed memory exactly when its stream has been freed; otherwise its callback runs and may lose the source that replaced it |
| AvdtpSession.Session.Handle | bluez/bluez-5.42/android/avdtp.c:1982-2111 | every event keeps the links; only a refused response leaves a request stuck with a freed stream; only an accepted OPEN or CLOSE while the stream's timer runs, or a transport set while its watch runs, loses a source |
| AvdtpSession.Session.Run | bluez/bluez-5.42/android/avdtp.c:1982-2111 | over whole runs, also past the loss of the channel: the links hold, and as long as no event overwrites the id of a running source every running source is the one a live stream's field names |
| AvdtpSession.Session.OpenTwice | bluez/bluez-5.42/android/avdtp.c:1508-1541 | a peer that sends OPEN twice and hangs up: a timer still runs for a freed stream |
| AvdtpSession.Session.CloseOvertakesSuspend | bluez/bluez-5.42/android/avdtp.c:780-799 | the transport of a stream whose START is outstanding is closed while the SUSPEND of another waits: a CLOSE then asked for goes out at once and the SUSPEND waits behind it |
| AvdtpCollision.LocalStart | bluez/bluez-5.42/android/avdtp.c:3225-3270 | `avdtp_start` on a session is the call step of the two-peer protocol, unless the peer opened the stream: then a timer is set and nothing else changes |
| AvdtpCollision.DelayedStart | bluez/bluez-5.42/android/avdtp.c:3210-3223 | when that timer fires the session takes the call step |
| AvdtpCollision.StartArrives | bluez/bluez-5.42/android/avdtp.c:1548-1606 | a START command on a session is the protocol's step: OPEN becomes STREAMING, a crossing START is dropped, and the answer sent is the protocol's |
| AvdtpCollision.AcceptArrives | bluez/bluez-5.42/android/avdtp.c:2556-2571 | an accept on a session is the protocol's step: taken if its label is outstanding, ignored otherwise |
| AvdtpCollision.RunInv | bluez/bluez-5.42/android/avdtp.c:2027-2061 | in every interleaving what is in flight, outstanding and ignored follows from what each peer has sent and heard |
| AvdtpCollision.MeasureDrops | bluez/bluez-5.42/android/avdtp.c:2027-2061 | every step that changes anything brings the measure down: no interleaving goes on for ever |
| AvdtpCollision.BothStream | bluez/bluez-5.42/android/avdtp.c:2027-2061 | once everything has arrived both end points are STREAMING, neither peer holds a START, and when both called START both late accepts were ignored |
| AvdtpCollision.NeverRejected | bluez/bluez-5.42/android/avdtp.c:1573-1577 | no START of such a run is rejected |
| AvrcpContinuing.Session.constructor | bluez/bluez-5.42/android/avrcp-lib.c:575-582 | `control_mtu` is the MTU itself up to 512, because the header offset macro has no parentheses |
| AvrcpContinuing.Fill | bluez/bluez-5.42/android/avrcp-lib.c:1113-1149 | what fits goes into the packet and the rest of all iovecs is kept; together they are the response, and the type says which of the two; slots are left unset if and only if an iovec before the last overflows |
| AvrcpContinuing.Session.SendInternal | bluez/bluez-5.42/android/avrcp-lib.c:1091-1153 | the remainder stored, exactly after START or CONTINUING, pieces and remainder always making up the response; the piece is what goes out unless an iovec before the last overflows, when what goes out is undefined |
| AvrcpContinuing.Session.RequestContinuing | bluez/bluez-5.42/android/avrcp-lib.c:1155-1185 | refused for the wrong length or PDU; otherwise the next piece, the remainder replaced even when the send fails |
| AvrcpContinuing.Session.AbortContinuing | bluez/bluez-5.42/android/avrcp-lib.c:1187-1204 | the remainder is dropped and an empty SINGLE confirms it |
| AvrcpContinuing.Session.Respond | bluez/bluez-5.42/android/avrcp-lib.c:1091-1185 | a response and the requests for the rest terminate, and put exactly `Pieces` on the wire when the sends succeed and only the last iovec overflows; a fragmented one cannot get out when the MTU has no room for the lower headers |
| AvrcpContinuing.RejoinPieces | bluez/bluez-5.42/android/avrcp-lib.c:1091-1185 | joining START, CONTINUING and END pieces (or SINGLE) gives the response back |
| AvrcpContinuing.PieceCount | bluez/bluez-5.42/android/avrcp-lib.c:1121-1146 | ceil(len/(mtu-7)) pieces, at least one, all but the last full |
| AvrcpContinuing.PieceKinds | bluez/bluez-5.42/android/avrcp-lib.c:1130-1150 | one SINGLE, or one START, then CONTINUING, and one END, all of one PDU |
| AvrcpContinuing.FullPiecePasses | bluez/bluez-5.42/android/avctp.c:515-532 | a full piece passes the length check of `avctp_send` if and only if the MTU is at least 518 |
| AvrcpContinuing.EveryPiecePasses | bluez/bluez-5.42/android/avctp.c:515-532 | all pieces of a response pass if and only if the MTU is at least 518 or the whole response fits six octets below it |
| AvrcpElements.ItemLayout | bluez/bluez-5.42/android/avrcp-lib.c:158-163 | an item is its identifier, character set and length in network order, and its text |
| AvrcpElements.ParseAttributeList | bluez/bluez-5.42/android/avrcp-lib.c:2427-2466 | more than seven is refused; otherwise the items the bytes split into, as the caller sees them, or an error |
| AvrcpElements.ParseElements | bluez/bluez-5.42/android/avrcp-lib.c:2474-2491 | the same behind the number octet |
| AvrcpElements.ItemsSplit | bluez/bluez-5.42/android/avrcp-lib.c:2427-2466 | on every byte string, parsing succeeds with a list of whole items followed by too little for a header (or with all items asked for), or fails after whole items at a header that promises too much |
| AvrcpElements.SplitIsItems | bluez/bluez-5.42/android/avrcp-lib.c:2427-2466 | there is no other way to split the bytes, and bytes that break are refused |
| AvrcpElements.WriteElementText | bluez/bluez-5.42/android/avrcp.c:173-195 | the item is written at its place, nothing before it changes |
| AvrcpElements.WriteElementAttrs | bluez/bluez-5.42/android/avrcp.c:197-216 | the buffer holds the number and the items in order; the writes stay inside it if and only if it is long enough for them |
| AvrcpElements.CStringSpec | bluez/bluez-5.42/android/avrcp-lib.c:2449-2451 | the text is cut at its first NUL, and unchanged exactly when it has none |
| AvrcpElements.RoundTrip | bluez/bluez-5.42/android/avrcp-lib.c:2474-2491 | `parse_elements` undoes `write_element_attrs` for at most seven entries and refuses more; every text comes back (an empty one as attribute 0 without text) if and only if none holds a NUL |
| AvrcpElements.RoundTripInPieces | bluez/bluez-5.42/android/avrcp-lib.c:1091-1185 | the same after the response was cut up and rejoined by the continuation protocol |
| AvrcpElements.PacketReadsBack | bluez/bluez-5.42/android/avrcp-lib.c:389-407 | a packet parses back, and no proper prefix or extension of it parses |
| AvctpChannel.ScanReusesIff | bluez/bluez-5.42/android/avctp.c:1145-1162 | for every list of labels, the label handed out is in use by a processed request if and only if all sixteen are, or the one label the scan skips is the first that the others leave free |
| AvctpChannel.ScanReusesLabel | bluez/bluez-5.42/android/avctp.c:1148-1162 | so it is for the labels 5 and 6 |
| AvctpChannel.Channel.Burst | bluez/bluez-5.42/android/avctp.c:1145-1176 | requests made while none is processed carry consecutive labels, whatever the labels in the queue and the slot are |
| AvctpChannel.BurstLabels | bluez/bluez-5.42/android/avctp.c:1166-1174 | two of them share a label if and only if a multiple of sixteen lies between them |
| AvctpChannel.Channel.PendingCreate | bluez/bluez-5.42/android/avctp.c:1133-1176 | the label is the scan's and below 16; it is that of a processed request if and only if all sixteen are in use or the one the scan skips comes next |
| AvctpChannel.Channel.SendReq | bluez/bluez-5.42/android/avctp.c:1178-1217 | the request is made, queued last and dispatch scheduled; invariant kept |
| AvctpChannel.Channel.PendingDestroy | bluez/bluez-5.42/android/avctp.c:471-482 | destroyed, its timer removed |
| AvctpChannel.Channel.ProcessQueue | bluez/bluez-5.42/android/avctp.c:684-710 | requests that the socket refuses are destroyed, in order, until one goes out, which is then in flight |
| AvctpChannel.Channel.ControlResponse | bluez/bluez-5.42/android/avctp.c:753-800 | the callback of the first request with the label, and no other, is called once with the response; the request is kept if and only if its callback wants more, and destroyed otherwise; over any run no callback is called again after its last word |
| AvctpChannel.Channel.ReqTimeout | bluez/bluez-5.42/android/avctp.c:647-664 | the callback of the request in flight is told of the rejection, which may make new requests; the request is destroyed and dispatch scheduled |
| AvctpChannel.Channel.Destroy | bluez/bluez-5.42/android/avctp.c:484-508 | every request ever made has been destroyed exactly once |
| AvctpChannel.Channel.Run | bluez/bluez-5.42/android/avctp.c:484-508 | over any mix of events every request made is destroyed exactly once in the end, and no callback is called after it wanted no more or was told of a rejection |
| AvctpChannel.State.ExactlyOnePlace | bluez/bluez-5.42/android/avctp.c:141-156 | until it is destroyed a request is in exactly one of queue, slot and processed list, once, and it is never destroyed twice |
| AvctpChannel.State.TimerOnlyInSlot | bluez/bluez-5.42/android/avctp.c:130-139 | a request has a timer exactly when it is in flight, and a label below 16 |
| AvctpChannel.State.SentInv | bluez/bluez-5.42/android/avctp.c:1211-1216 | making a request keeps the invariant: order of trying is order of making, and a waiting queue with an empty slot has dispatch scheduled |
| AvctpChannel.State.TriedInv | bluez/bluez-5.42/android/avctp.c:694-707 | sending or failing to send the head of the queue keeps the invariant |
| AvctpChannel.State.SettledInv | bluez/bluez-5.42/android/avctp.c:763-775 | answering the request in flight keeps the invariant |
| AvctpChannel.State.DroppedInv | bluez/bluez-5.42/android/avctp.c:793-794 | destroying a processed request keeps the invariant |
| AvctpChannel.State.TimedOutInv | bluez/bluez-5.42/android/avctp.c:652-661 | a timeout keeps the invariant |
| AvctpChannel.State.ClosedDestroysAll | bluez/bluez-5.42/android/avctp.c:484-508 | teardown destroys each request that was not destroyed before, once |
| DeviceStore.Device.UpdatedFlags | bluez/bluez-5.42/android/bluetooth.c:769-847 | updating one bearer never touches the other; bonded implies paired; neither an incoming pairing request nor a failed pairing unpairs; a bond lasts as long as the pairing |
| DeviceStore.Device.UpdatedBonds | bluez/bluez-5.42/android/bluetooth.c:794-803 | a bearer told that it is bonded is bonded exactly if it is told paired too, and from then on, unless a pairing under way or just failed leaves it as it is; the signing keys go with the last pairing on LE |
| DeviceStore.Cached.AddRefines | bluez/bluez-5.42/android/bluetooth.c:417-441 | `cache_device` refines an abstract LRU cache of 300: most recently cached first, only the device not cached for longest loses its place |
| DeviceStore.Store.CacheInv | bluez/bluez-5.42/android/bluetooth.c:417-441 | caching a known device keeps the partition of the devices |
| DeviceStore.Store.CreatedInv | bluez/bluez-5.42/android/bluetooth.c:473-486 | a new device is in the cached list only |
| DeviceStore.Store.UpdatedInv | bluez/bluez-5.42/android/bluetooth.c:769-847 | after any update every known device is in exactly one list, the bonded one exactly when it is paired on some bearer |
| DeviceStore.Store.ListsFollow | bluez/bluez-5.42/android/bluetooth.c:782-793 | a device paired for the first time goes to the front of the bonded list, one that is not paired any more to the front of the cached one; a pairing under way or just failed on a paired bearer moves nothing |
| DeviceStore.Store.OthersStay | bluez/bluez-5.42/android/bluetooth.c:769-847 | other devices stay as they are; the only one that can be forgotten is the one not cached for longest |
| DeviceStore.BondEventsPath | bluez/bluez-5.42/android/bluetooth.c:864-883 | bond events continue a path that never goes straight between NONE and BONDED and end at the new state; after a last BONDING that was left behind they repeat it but skip nothing |
| DeviceStore.Record.UpdatedInv | bluez/bluez-5.42/android/bluetooth.c:893-909 | for every address the events sent never go straight between NONE and BONDED, and the last is the bond state of its device, or BONDING for an address that is lost; as long as it has never been lost none repeats the one before |
| DeviceStore.Record.CreatedInv | bluez/bluez-5.42/android/bluetooth.c:473-486 | the same when an address becomes known, for the first time or again |
| DeviceStore.Record.CachedInv | bluez/bluez-5.42/android/bluetooth.c:417-441 | the same when a known device that is not paired is cached again, which evicts nobody and loses no address |
| DeviceStore.Record.LastEventAfter | bluez/bluez-5.42/android/bluetooth.c:849-909 | after an update the last event is BONDING if and only if pairing was given or the address is lost, BONDED if and only if it was not given and some bearer is paired by then, NONE otherwise; stated on the flags given and those before |
| DeviceStore.Record.LastEventIff | bluez/bluez-5.42/android/bluetooth.c:893-909 | the last event for an address is the bond state of its device, or NONE without one, if and only if the address is not lost; for a lost one it is BONDING |
| DeviceStore.Record.EvictedByCreated | bluez/bluez-5.42/android/bluetooth.c:428-436 | an unknown device is cached into a full list: the address of the device that goes is lost if and only if that device is pairing, or the address was lost before |
| DeviceStore.Record.EvictedByUpdated | bluez/bluez-5.42/android/bluetooth.c:789-792 | the same for the device evicted when a bonded device loses its last pairing; nothing else evicts one in an update |
| DeviceStore.Record.DemotionEvicts | bluez/bluez-5.42/android/bluetooth.c:789-792 | with a full list that update does evict one |
| DeviceStore.Record.KnownAgain | bluez/bluez-5.42/android/bluetooth.c:473-486 | when a lost address becomes known again its state is NONE and the last event still BONDING |
| DeviceStore.Record.SetRight | bluez/bluez-5.42/android/bluetooth.c:864-883 | an address stays lost over an update exactly if its bond state stays NONE |
| DeviceStore.Adapter.FindDevice | bluez/bluez-5.42/android/bluetooth.c:379-404 | the first device with the address or resolvable address among the bonded ones, then among the cached ones, or a proof that none is known |
| DeviceStore.Adapter.CacheDevice | bluez/bluez-5.42/android/bluetooth.c:417-441 | the list, the freed device and the abstract cache change together |
| DeviceStore.Adapter.GetDevice | bluez/bluez-5.42/android/bluetooth.c:473-486 | a known device unchanged, or a new one, created and cached |
| DeviceStore.Adapter.UpdateBredrState | bluez/bluez-5.42/android/bluetooth.c:769-804 | the update for BR/EDR; partition and cache order kept |
| DeviceStore.Adapter.UpdateLeState | bluez/bluez-5.42/android/bluetooth.c:806-847 | the mirror image for LE, which also forgets the signing keys with the last pairing |
| DeviceStore.Adapter.UpdateBondState | bluez/bluez-5.42/android/bluetooth.c:864-883 | the events sent are those of the path, with BONDING put between NONE and BONDED; an event sent sets a lost address right |
| DeviceStore.Adapter.UpdateDeviceState | bluez/bluez-5.42/android/bluetooth.c:893-909 | device, lists and events of the address after an update; the last event is the one `Record.LastEventAfter` says |
| DeviceStore.Adapter.FoundDevice | bluez/bluez-5.42/android/bluetooth.c:1925-1967 | a found device that is not paired is first in the cache; an unknown one becomes known and may evict the last |
| DeviceStore.Adapter.LoseAddress | bluez/bluez-5.42/android/bluetooth.c:428-436 | pairing with an unknown device starts and 300 other devices are found: the device is forgotten and the last event for its address is BONDING |
| DeviceStore.Adapter.Run | bluez/bluez-5.42/android/bluetooth.c:379-909 | all of it over every run of scan results and pairing events |
| Discovery.NoticeFollows | bluez/bluez-5.42/android/bluetooth.c:1446-1471 | with some type supported, a scan beginning or ending sends the event that Android's alternation of STARTED and STOPPED expects, or none |
| Discovery.ChangeKeeps | bluez/bluez-5.42/android/bluetooth.c:1413-1424 | a change of the supported types keeps Android's picture right if and only if some type stays supported and the running scan is of all supported types after it exactly when it was before; between scans that is any change to some type |
| Discovery.Adapter.SettingsChanged | bluez/bluez-5.42/android/bluetooth.c:604-648 | the same on the adapter |
| Discovery.Adapter.UnsafeChange | bluez/bluez-5.42/android/bluetooth.c:1446-1471 | after every other change there are events that make Android hear the same thing twice, or STOPPED first |
| Discovery.Adapter.ScanUnsupported | bluez/bluez-5.42/android/bluetooth.c:1446-1471 | with no supported type every scan is announced as STOPPED when it begins and STARTED when it ends |
| Discovery.Adapter.StartDiscovery | bluez/bluez-5.42/android/bluetooth.c:1426-1444 | a scan of the supported types only is handed to the kernel, none when there are none; failure means none or refused |
| Discovery.Adapter.MgmtDiscoveringEvent | bluez/bluez-5.42/android/bluetooth.c:1473-1513 | every end of a scan while LE scanning is wanted attempts another scan that includes LE; the one-shot callback fires then; alternation kept |
| Discovery.Adapter.LeDiscoveryStart | bluez/bluez-5.42/android/bluetooth.c:4014-4036 | during a scan only the expected type changes; otherwise an LE scan is handed to the kernel |
| Discovery.Adapter.LeDiscoveryStop | bluez/bluez-5.42/android/bluetooth.c:3991-4012 | LE scanning is no longer wanted; the callback runs at once or after the LE scan |
| Discovery.Adapter.HandleStartDiscoveryCmd | bluez/bluez-5.42/android/bluetooth.c:4991-5029 | not powered, no scan, an LE scan of a dual-mode adapter and every other scan are four cases: status, what is handed to the kernel and the expected type in each; the last one is success without effect |
| Discovery.Adapter.HandleCancelDiscoveryCmd | bluez/bluez-5.42/android/bluetooth.c:5031-5076 | busy exactly when an LE-only adapter scans for itself; status, what is stopped and the expected type in each case |
| Discovery.Adapter.Run | bluez/bluez-5.42/android/bluetooth.c:1450-1513 | over every run: while a scan runs and LE scanning is wanted the expected type is not NONE; the events alternate as long as every change of the supported types is a safe one |
| A2dpPresets.BitrateReadsBack | bluez/bluez-5.42/profiles/audio/a2dp-codecs.h:109-118 | setting and getting a 23-bit AAC bitrate |
| A2dpPresets.CheckMeaning | bluez/bluez-5.42/android/a2dp.c:272-402 | 0 exactly when the remote is compatible and allows all the preset allows, out of range exactly when it allows some but not all, invalid otherwise |
| A2dpPresets.NarrowedIsCommon | bluez/bluez-5.42/android/a2dp.c:430-467 | a narrowed preset allows exactly what both sides allow and differs in nothing else |
| A2dpPresets.NarrowedPasses | bluez/bluez-5.42/android/a2dp.c:404-467 | a narrowed preset passes the same check and is non-empty if and only if the remote interval is non-empty |
| A2dpPresets.NarrowedInside | bluez/bluez-5.42/android/a2dp.c:430-467 | narrowing keeps a stored preset non-empty and inside the one it started as |
| A2dpPresets.NotInvalid | bluez/bluez-5.42/android/a2dp.c:272-402 | a remote does not turn a preset away if and only if the formats are compatible and some value suits both |
| A2dpPresets.NarrowingSticks | bluez/bluez-5.42/android/a2dp.c:439-440 | after narrowing for one remote a second does not turn the preset away if and only if the formats are compatible and some value suits the preset as it was and both remotes |
| A2dpPresets.LaterRemote | bluez/bluez-5.42/android/a2dp.c:486-511 | the same after any list of remotes |
| A2dpPresets.NarrowedTooFar | bluez/bluez-5.42/android/a2dp.c:439-440 | a preset that a second remote would have accepted before it was narrowed for the first |
| A2dpPresets.Endpoint.SelectPresetRange | bluez/bluez-5.42/android/a2dp.c:469-484 | the stored preset is narrowed in place and handed out, for SBC and AAC only |
| A2dpPresets.Endpoint.SelectPreset | bluez/bluez-5.42/android/a2dp.c:486-511 | all earlier presets were invalid, only the chosen one may have changed, and it passes with 0 and is not empty if and only if the remote's own interval is not empty |
| A2dpPresets.Endpoint.Serve | bluez/bluez-5.42/android/a2dp.c:486-511 | over any sequence of remotes every choice passes, every stored interval stays non-empty and inside its original, and each preset allows what it allowed before and all the remotes it has served allow |
| GattServer.LeadingIsLongest | bluez/bluez-5.42/android/gatt.c:4336-4343 | the data list is the longest prefix of the queue with no error (Read By Type) and values of the head's length |
| GattServer.UnpackPacked | bluez/bluez-5.42/attrib/att.c:448-473 | the client unpacks the first elements of the list, each cut to the announced size; all of them, or as many as fit |
| GattServer.NullListIff | bluez/bluez-5.42/attrib/att.c:113-131 | the data list is a null pointer, which the code goes on to use, if and only if the value at the head of the queue is longer than 253 octets (251 for Read By Group Type) |
| GattServer.ResponseFits | bluez/bluez-5.42/attrib/att.c:448-473 | no response is longer than the MTU |
| GattServer.FindByTypeAnswer | bluez/bluez-5.42/android/gatt.c:4435-4466 | the client reads from the Find By Type Value response exactly the handles of the attributes whose value is the one asked for, in queue order and as many as fit, each with the end of its service; without any it gets `Attribute Not Found` |
| GattServer.DataListAnswer | bluez/bluez-5.42/android/gatt.c:4327-4430 | from the two data lists it reads the handles and values of the first reads of the queue, as long as values have one length (and, for Read By Type, no error), as many as fit |
| GattServer.OtherAnswers | bluez/bluez-5.42/android/gatt.c:4376-4382 | Read sends the value cut to the MTU; an error at the head of the queue is answered with that error and the opcode of the request |
| GattServer.Pack | bluez/bluez-5.42/attrib/att.c:448-473 | the loop packs as many elements as fit |
| GattServer.Device.PopLeading | bluez/bluez-5.42/android/gatt.c:4338-4343 | the loop pops exactly the requests of the data list |
| GattServer.Device.SendDevCompleteResponse | bluez/bluez-5.42/android/gatt.c:4286-4499 | nothing is sent while a read is outstanding; otherwise exactly one response, and the queue is emptied, unless the data list is a null pointer |
| GattServer.Device.ProcessDevPendingRequests | bluez/bluez-5.42/android/gatt.c:4661-4677 | all reads are started; the response goes out at once if none is left open |
| GattServer.Device.HandleServerSendResponse | bluez/bluez-5.42/android/gatt.c:5400-5464 | an answer nobody waits for is refused; any other completes its read, unless that has expired or belongs to an earlier request, and sends the response exactly when all reads in the queue are complete, with the opcode of its own transaction |
| GattServer.Device.ReadExpired | bluez/bluez-5.42/src/shared/gatt-db.c:1604-1615 | a read that times out or is cancelled is complete, and no response is sent |
| GattServer.Device.Serve | bluez/bluez-5.42/android/gatt.c:4279-4677 | for every sequence of answers, to this request or earlier ones, timeouts and cancellations exactly one response is sent if and only if all reads are complete at once or an answer arrives when they are; its contents are those the reads call for in queue order, its kind that of the answer's transaction; otherwise nothing is sent and the queue stays |
| GattServer.Device.Run | bluez/bluez-5.42/android/gatt.c:4279-4677 | over a sequence of requests, each arriving when the one before has been answered: one response for each, in order, up to the first that gets none; the transactions left behind are carried over |
| GattServer.Exchange.FirstEventCounts | bluez/bluez-5.42/android/gatt.c:4491-4499 | what a read ends as is its first event, so the order in which the reads end does not matter |
| GattServer.Exchange.DoneAtOnce | bluez/bluez-5.42/android/gatt.c:4629-4659 | a read that was refused or done at once stays what it is |
| GattServer.Exchange.CompletedWhenHeard | bluez/bluez-5.42/android/gatt.c:4279-4302 | all reads are complete if and only if every read left to an application has had an event |
| GattServer.Exchange.AnswersSuffice | bluez/bluez-5.42/android/gatt.c:5400-5464 | when applications answer all reads left to them a response goes out, in every order |
| GattServer.Exchange.WhoseTransaction | bluez/bluez-5.42/android/gatt.c:4679-4696 | an open transaction is one of the request's own, with its opcode, or one left behind earlier, unchanged; the reads that have not come to an end all have theirs |
| GattServer.Exchange.RightKindIff | bluez/bluez-5.42/android/gatt.c:5458-5463 | the response is of the kind asked for, whatever happens, if and only if all reads are complete at once or no transaction with another opcode has been left behind |
| GattServer.Exchange.AnswersLeaveNothing | bluez/bluez-5.42/android/gatt.c:5416-5418 | answers to all reads leave no transaction of the request behind |
| GattServer.Session.CleanIsRight | bluez/bluez-5.42/android/gatt.c:4279-4677 | over any sequence of requests whose reads do not expire and are all answered, every request gets a response of its own kind, and no transaction is ever left behind |
| GattServer.LateAnswerKind | bluez/bluez-5.42/android/gatt.c:5458-5463 | a Find By Type Value request that is sent a Read By Type response, because of a late answer to a read that had expired |
| GattServer.TimeoutIsSilent | bluez/bluez-5.42/src/shared/gatt-db.c:1604-1615 | a single read that times out: no response goes out |
| GattCharCache.RangesAdjacent | bluez/bluez-5.42/android/gatt.c:2586-2597 | each handle range starts where the one before ends, the last ends with the service |
| GattCharCache.RangesPartition | bluez/bluez-5.42/android/gatt.c:2586-2597 | every handle from the first characteristic to the end of the service lies in exactly one range, no other handle in any |
| GattCharCache.NextInstance | bluez/bluez-5.42/android/gatt.c:477-485 | a continuation request finds the next characteristic, and none after the 255th, whose successor's instance has wrapped |
| GattCharCache.Service.CacheAllSrvcChars | bluez/bluez-5.42/android/gatt.c:2569-2606 | the loop appends the characteristics with their end handles and one-octet instances |
| GattCharCache.Service.DiscoverCharCb | bluez/bluez-5.42/android/gatt.c:2613-2634 | what is found is cached unless something already is; the first characteristic is reported |
| GattCharCache.Service.GetCharacteristic | bluez/bluez-5.42/android/gatt.c:2684-2690 | the first characteristic, or the first with a higher instance |
| GattCharCache.Service.Walk | bluez/bluez-5.42/android/gatt.c:2636-2700 | the walk visits the first 255 characteristics once each in order and then fails; all of them if and only if there are at most 255 |

## Left out

- AvdtpSession.Session.ProcessQueue: whether the socket takes the request is an open outcome.
- AvrcpElements.ParseAttributeList: the in-place byte swap of the item headers, and array slots beyond the items found, which the code leaves unset.
- GattServer.Device.Serve: a request that arrives while the one before is unanswered, which the Attribute Protocol forbids the client (Bluetooth Core Specification, Volume 3, Part F, section 3.3.2); transactions of writes.
- GattServer.Device.SendDevCompleteResponse: Read Blob, Prepare Write, Write and Execute Write responses.
- A2dpPresets.Endpoint.Serve: remotes whose interval is empty; `Endpoint.SelectPreset` says what becomes of the preset then.
- AvdtpSession callbacks are synchronous and do not re-enter the session; stream callback lists, discovery callbacks and the idle source that ends a discovery of known end points are not modelled, and the confirmation callbacks of an end point are all there.
- `avdtp_shutdown`, which walks the stream list while `avdtp_close` may free the current stream, and freeing a session directly while streams live.
- Several sessions sharing the list of local end points, the session reference count, and registration of end points.
- The stream delay value, the contents of Get Capabilities responses, and Get Capabilities for a remote end point that is unknown.
- One set of fields stands for each C structure: two C pointers to one structure are two equal identifiers, and list cells are not modelled.
- Reading packets from the socket into the session buffer before they are parsed; an empty packet never reaches the parser.
- The browsing channel of AVRCP and AVCTP, passthrough and key handling, `pack_attribute_list` and the player text responses.
- The request queues of `avrcp.c` (`push_request`, `pop_request`) and notification registration: short list searches.
- AVCTP response and rejection callbacks do nothing to the channel but make new requests; one that closes it is not modelled.
- Resolving identities (assigning `rpa`), loading and storing device files, device properties, and time stamps in files.
- Link security levels, signed writes, and keys other than that they are forgotten.
- `check_config`, `parse_presets` and endpoint registration in A2DP; a setup that still points at a preset narrowed later.
- `smartdoor/`, `WebInterface/`, the HAL libraries, IPC and start-up code.
