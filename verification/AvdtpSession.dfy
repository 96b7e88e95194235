/** One AVDTP signalling session (`struct avdtp`): its streams, stream end points, requests and timers,
    changed in place by commands, responses, timeouts and the local API. */
module AvdtpSession {
  import opened Common
  import opened AvdtpRequests
  import opened AvdtpGraph
  import opened AvdtpEffects
  import Caps = AvdtpCaps

  /** Everything that can happen to a session from outside. */
  datatype Event =
    | Command(signal: nat, payload: seq<byte>, ind: seq<Option<nat>>, hasInd: bool)
    | Response(tid: nat, signal: nat, kind: nat, payload: seq<byte>)
    | HangUp | ChannelInvalid
    | RequestTimer | OpenTimer(s: StreamId) | CloseTimer(s: StreamId) | StartTimer(s: StreamId)
    | Transport(s: StreamId) | MediaClosed(s: StreamId, invalid: bool) | LostSource(i: nat, invalid: bool)
    | Unregister(p: Seid)
    | CallDiscover | CallSetConfiguration(d: Seid, p: Seid, delayReporting: bool) | CallGetConfiguration(s: StreamId)
    | CallOpen(s: StreamId) | CallStart(s: StreamId) | CallSuspend(s: StreamId)
    | CallClose(s: StreamId, immediate: bool) | CallAbort(s: StreamId) | CallDelayReport(s: StreamId)

  /** What the main loop holds for a session: whether it watches the signalling channel (io_id), and the sources that
      still run though no field of their stream holds their id. */
  class Sources {
    var channel: bool
    var leaked: seq<Source>
    /** The freed stream that the outstanding request names after a refused response. */
    ghost var stuck: Option<StreamId>

    constructor ()
      ensures channel && leaked == [] && stuck == None
    {
      channel, leaked, stuck := true, [], None;
    }
  }

  class Session {
    const sources: Sources
    var heap: map<StreamId, Stream>
    var nextStream: StreamId
    var streams: seq<StreamId>
    var seps: map<Seid, Sep>
    /** `stream` of every remote end point */
    var rseps: map<Seid, Option<StreamId>>

    var req: Option<Request>
    var transaction: nat
    var armed: bool
    var collided: bool
    var prioQueue: seq<Request>
    var reqQueue: seq<Request>
    var nextTransaction: nat

    var pendingOpen: Option<StreamId>
    var version: nat
    var discover: bool

    /** What has been handed to the socket. */
    ghost var handed: seq<Handed>

    ghost function View(): Graph
      reads this, sources`stuck
    {
      Graph(heap, nextStream, streams, seps, rseps, req, armed, prioQueue, reqQueue, pendingOpen, sources.stuck)
    }

    /** What holds between events: the links; and nothing outlives a stream and names it but a request that is stuck,
        which takes a refused response, after which the channel is not watched. */
    ghost predicate Valid()
      reads this, sources`stuck, sources`channel
    {
      View().Linked() && View().ReqOk() && (sources.channel ==> sources.stuck == None)
    }

    ghost function Now(): Snap
      reads this, sources`stuck
    {
      Snap(View(), transaction, nextTransaction, collided, version, discover, handed)
    }

    constructor (seps: map<Seid, Sep>, version: nat)
      requires forall p <- seps :: seps[p].state == IDLE && seps[p].stream.None? && !seps[p].inuse
      ensures Valid() && fresh(sources) && sources.channel && sources.leaked == [] && streams == [] && this.seps == seps
      ensures handed == []
    {
      sources := new Sources();
      heap, nextStream, streams, this.seps, rseps := map[], 0, [], seps, map[];
      req, transaction, armed, collided, prioQueue, reqQueue := None, 0, false, false, [], [];
      nextTransaction, pendingOpen, this.version, discover, handed := 0, None, version, false, [];
    }

    // -------------------------------------------------------------- freeing a stream

    /** The memory of a stream is given back: none of the sources its fields hold may still run. */
    method FreeMemory(s: StreamId)
      requires s in heap && heap[s].timer.None? && !heap[s].startTimer && !heap[s].watched
      modifies this`heap
      ensures heap == old(heap) - {s}
    {
      heap := heap - {s};
    }

    /** stream_free */
    method StreamFree(s: StreamId)
      requires s in heap && heap[s].lsep in seps
      modifies this`heap, this`seps, this`rseps
      ensures heap == old(heap) - {s}
      ensures seps == old(seps)[old(heap[s].lsep) := old(seps[heap[s].lsep]).(stream := None, inuse := false)]
      ensures rseps == Unlinked(old(rseps), old(heap[s].rseid))
    {
      var stream := heap[s];
      seps := seps[stream.lsep := seps[stream.lsep].(inuse := false, stream := None)];
      if stream.rseid in rseps {
        rseps := rseps[stream.rseid := None];
      }
      heap := heap[s := stream.(timer := None, startTimer := false, io := false, watched := false)];
      FreeMemory(s);
    }

    /** cleanup_queue */
    method CleanupQueue(s: StreamId)
      modifies this`prioQueue, this`reqQueue
      ensures prioQueue == NotFor(old(prioQueue), s) && reqQueue == NotFor(old(reqQueue), s)
    {
      prioQueue := CleanupList(prioQueue, s);
      reqQueue := CleanupList(reqQueue, s);
    }

    /** handle_unanswered_req, for the stream the outstanding request names */
    method HandleUnansweredReq(ghost s: StreamId)
      requires req.Some? && req.value.stream == Some(s)
      modifies this`req, this`armed
      ensures req == Unanswered(old(req), old(armed), s) && armed == (old(armed) && req.Some?)
    {
      if !armed {
        return;
      }
      if req.value.signal == AVDTP_ABORT {
        req := Some(req.value.(stream := None));
        return;
      }
      req, armed := None, false;
    }

    // -------------------------------------------------------------- sending requests

    /** avdtp_send: whether the socket takes what it is handed. */
    method AvdtpSend(ghost packet: Packet) returns (ok: bool)
      modifies this`handed
      ensures handed == old(handed) + [Handed(packet, ok)]
    {
      ok := *;
      handed := handed + [Handed(packet, ok)];
    }

    /** queue_request */
    method QueueRequest(priority: bool, r: Request)
      requires req.Some?
      modifies this`prioQueue, this`reqQueue
      ensures Now() == old(Now()).Sent(priority, r, true)
    {
      if priority {
        prioQueue := prioQueue + [r];
      } else {
        reqQueue := reqQueue + [r];
      }
    }

    method SendNow(r: Request) returns (err: int)
      requires req.None?
      modifies this`req, this`transaction, this`armed, this`collided, this`nextTransaction, this`handed
      ensures Now() == old(Now()).HandedOver(r, err == 0) && err <= 0
    {
      var tid := nextTransaction;
      nextTransaction := (nextTransaction + 1) % 16;
      var ok := AvdtpSend(Req(r));
      if !ok {
        return -5;
      }
      req, transaction, armed, collided := Some(r), tid, true, false;
      return 0;
    }

    /** send_req */
    method SendReq(priority: bool, r: Request) returns (err: int)
      modifies this`req, this`transaction, this`armed, this`collided, this`prioQueue, this`reqQueue,
               this`nextTransaction, this`handed
      ensures Now() == old(Now()).Sent(priority, r, err == 0) && err <= 0 && (old(req).Some? ==> err == 0)
    {
      if req.Some? {
        QueueRequest(priority, r);
        return 0;
      }
      err := SendNow(r);
    }

    /** send_request */
    method SendRequest(priority: bool, s: Option<StreamId>, signal: nat, seid: Seid) returns (err: int)
      requires View().Live(s)
      modifies this`req, this`transaction, this`armed, this`collided, this`prioQueue, this`reqQueue,
               this`nextTransaction, this`handed
      ensures if s.Some? && heap[s.value].abortInt && signal != AVDTP_ABORT then err < 0 && Now() == old(Now())
              else Now() == old(Now()).Sent(priority, Request(signal, seid, s), err == 0) && err <= 0
                   && (old(req).Some? ==> err == 0)
    {
      if s.Some? && heap[s.value].abortInt && signal != AVDTP_ABORT {
        return -22;
      }
      err := SendReq(priority, Request(signal, seid, s));
    }

    /** process_queue */
    method ProcessQueue() returns (ghost taken: bool)
      modifies this`req, this`transaction, this`armed, this`collided, this`prioQueue, this`reqQueue,
               this`nextTransaction, this`handed
      ensures Now() == if old(req).Some? then old(Now()) else old(Now()).Dequeued(taken)
    {
      taken := true;
      if req.Some? {
        return;
      }
      var r;
      if prioQueue != [] {
        r, prioQueue := prioQueue[0], prioQueue[1..];
      } else if reqQueue != [] {
        r, reqQueue := reqQueue[0], reqQueue[1..];
      } else {
        return;
      }
      var err := SendReq(false, r);
      taken := err == 0;
    }

    // -------------------------------------------------------------- stream end point states

    /** avdtp_delay_report */
    method DelayReport(s: StreamId) returns (err: int)
      requires View().Linked()
      modifies this`req, this`transaction, this`armed, this`collided, this`prioQueue, this`reqQueue,
               this`nextTransaction, this`handed
      ensures View().Linked() && (old(View()).ReqOk() ==> View().ReqOk())
      ensures Now() == old(Now()).Reported(s, err == 0)
      ensures if old(Now()).Reportable(s) then AskedFor(old(Now()), Now(), true, AVDTP_DELAY_REPORT, s, err)
              else Rejected(old(Now()), Now(), err)
    {
      assert View().Listed(s);
      if s !in streams {
        return -22;
      }
      assert View().StreamOk(s);
      var state := seps[heap[s].lsep].state;
      if state != CONFIGURED && state != STREAMING {
        return -22;
      }
      if !heap[s].delayReporting || version < 0x0103 {
        return -22;
      }
      err := SendRequest(true, Some(s), AVDTP_DELAY_REPORT, heap[s].rseid);
      old(View()).SameLinksLinked(View());
    }

    /** The cases of avdtp_sep_set_state for IDLE, before the stream is unlinked. */
    method Detach(s: StreamId)
      requires s in heap
      modifies this`heap, this`req, this`armed, this`prioQueue, this`reqQueue, this`pendingOpen
      ensures s in heap && heap == old(heap)[s := heap[s]]
      ensures heap[s].lsep == old(heap[s].lsep) && heap[s].rseid == old(heap[s].rseid)
      ensures pendingOpen == if old(pendingOpen) == Some(s) then None else old(pendingOpen)
      ensures req == Unanswered(old(req), old(armed), s) && armed == (old(armed) && (old(req).Some? ==> req.Some?))
      ensures prioQueue == NotFor(old(prioQueue), s) && reqQueue == NotFor(old(reqQueue), s)
    {
      heap := heap[s := heap[s].(startTimer := false)];
      if pendingOpen == Some(s) {
        pendingOpen := None;
        heap := heap[s := heap[s].(timer := None)];
      }
      if req.Some? && req.value.stream == Some(s) {
        HandleUnansweredReq(s);
      }
      CleanupQueue(s);
    }

    /** avdtp_sep_set_state for IDLE: the stream of the end point is retired and freed. */
    method Retire(p: Seid, s: StreamId)
      requires p in seps && s in heap && heap[s].lsep == p
      modifies this`heap, this`streams, this`seps, this`rseps, this`req, this`armed, this`prioQueue,
               this`reqQueue, this`pendingOpen
      ensures View() == old(View()).Retired(p, s).(armed := armed)
      ensures armed == (old(armed) && (old(req).Some? ==> req.Some?))
    {
      seps := seps[p := seps[p].(state := IDLE)];
      Detach(s);
      streams := Remove(streams, s);
      StreamFree(s);
      assert heap == old(heap) - {s};
      assert seps == old(seps)[p := Sep(IDLE, None, false, old(seps[p].sink))];
    }

    /** The cases of avdtp_sep_set_state that only touch the end point and its stream. */
    method Enter(p: Seid, s: StreamId, state: SepState)
      requires p in seps && s in heap && state != IDLE
      modifies this`seps, this`heap
      ensures View() == old(View()).Moved(p, s, state)
    {
      seps := seps[p := seps[p].(state := state)];
      match state {
        case CONFIGURED =>
        case OPEN =>
          heap := heap[s := heap[s].(starting := false)];
        case STREAMING =>
          heap := heap[s := heap[s].(startTimer := false, openAcp := false)];
        case CLOSING =>
          heap := heap[s := heap[s].(startTimer := false)];
        case ABORTING =>
          heap := heap[s := heap[s].(startTimer := false)];
      }
      assert heap == old(heap)[s := Entered(old(heap[s]), state)];
    }

    /** avdtp_sep_set_state for a state that ends nothing and reports no delay */
    method Advance(p: Seid, s: StreamId, state: SepState)
      requires View().Linked() && p in seps && seps[p].stream == Some(s) && state != IDLE
      modifies this`seps, this`heap
      ensures s in old(heap) && old(heap[s].lsep) == p
      ensures View() == old(View()).Moved(p, s, state)
      ensures View().Linked() && (old(View().ReqOk()) ==> View().ReqOk())
    {
      View().MovedLinked(p, s, state);
      Enter(p, s, state);
    }

    /** avdtp_sep_set_state for a state other than IDLE; the state callbacks do not re-enter the session */
    method MoveTo(p: Seid, s: StreamId, state: SepState) returns (ghost taken: bool)
      requires View().Linked() && p in seps && seps[p].stream == Some(s) && state != IDLE
      modifies this`seps, this`heap, this`req, this`transaction, this`armed, this`collided, this`prioQueue,
               this`reqQueue, this`nextTransaction, this`handed
      ensures View().Linked() && s in old(heap) && old(heap[s].lsep) == p
      ensures Now() == old(Now()).InState(p, s, state, taken)
      ensures old(View().ReqOk()) ==> View().ReqOk()
    {
      Advance(p, s, state);
      taken := true;
      if state == CONFIGURED && seps[p].sink {
        var err := DelayReport(s);
        taken := err == 0;
      }
    }

    /** avdtp_sep_set_state; `taken` is whether the socket takes a delay report that goes out at once */
    method SetState(p: Seid, state: SepState) returns (ghost taken: bool)
      requires View().Linked() && p in seps
      modifies this
      ensures View().Linked() && (old(View().ReqOk()) ==> View().ReqOk())
      ensures match old(seps[p].stream)
              case None => Now() == old(Now())
              case Some(s) =>
                s in old(heap) && old(heap[s].lsep) == p
                && Now() == if state == IDLE then old(Now()).Dead(p, s) else old(Now()).InState(p, s, state, taken)
    {
      taken := true;
      if seps[p].stream.None? {
        return;
      }
      var s := seps[p].stream.value;
      if state == IDLE {
        View().RetiredLinked(p, s);
        Retire(p, s);
        old(View()).Retired(p, s).ArmedIrrelevant(armed);
      } else {
        taken := MoveTo(p, s, state);
      }
    }

    // -------------------------------------------------------------- losing the connection

    /** release_stream */
    method ReleaseStream(s: StreamId)
      requires View().Linked() && s in heap
      modifies this
      ensures old(heap[s].lsep) in old(seps) && View().Linked()
      ensures Now() == old(Now()).Dead(old(heap[s].lsep), s)
      ensures old(View().ReqOk()) ==> View().ReqOk()
    {
      assert View().StreamOk(s);
      ghost var _ := SetState(heap[s].lsep, IDLE);
    }

    /** connection_lost: every stream is released; what is left names no stream. */
    method ConnectionLost()
      requires View().Linked()
      modifies this
      ensures View().Linked() && streams == [] && heap == map[] && pendingOpen == None && !discover
      ensures Now() == old(Now()).(g := View(), discover := false)
      ensures nextStream == old(nextStream)
      ensures seps.Keys == old(seps.Keys) && forall p <- seps :: seps[p] == Sep(IDLE, None, false, old(seps[p].sink))
      ensures prioQueue == Streamless(old(prioQueue)) && reqQueue == Streamless(old(reqQueue))
      ensures if old(armed) then req == AfterLoss(old(req), old(streams)) && (req.Some? ==> armed)
              else req == old(req) && (req.Some? ==> !armed)
      ensures old(View().ReqOk()) ==> View().ReqOk()
    {
      var all := streams;
      ghost var g, before := View(), Now();
      for i := 0 to |all|
        invariant View().Linked() && g.Losing(View(), i)
        invariant (g.ReqOk() ==> View().ReqOk()) && Now() == before.(g := View())
      {
        g.LosingStep(View(), i, armed);
        ghost var was := View();
        ReleaseStream(all[i]);
        g.LosingStep(was, i, armed);
      }
      g.LosingDone(View());
      discover := false;
    }

    /** find_stream_by_rseid */
    method FindStreamByRseid(rseid: Seid) returns (found: Option<StreamId>)
      requires View().Linked()
      ensures View().Target(rseid, found)
    {
      for i := 0 to |streams|
        invariant forall s <- streams[..i] :: s in heap && heap[s].rseid != rseid
      {
        assert View().Listed(streams[i]);
        if heap[streams[i]].rseid == rseid {
          assert forall j :: 0 <= j < i ==> streams[j] in streams[..i];
          return Some(streams[i]);
        }
        assert streams[..i + 1] == streams[..i] + [streams[i]];
      }
      assert streams[..|streams|] == streams;
      return None;
    }

    /** The first half of cancel_request: the outstanding request is dropped and the stream it targets, found
        by its remote SEID, may send nothing but an ABORT from now on. */
    method DropRequest() returns (found: Option<StreamId>)
      requires View().Linked() && req.Some?
      modifies this`req, this`armed, this`heap
      ensures View().Linked() && req == None && !armed
      ensures if old(req.value.seid) == 0 then found == None
              else old(View()).Target(old(req.value.seid), found)
      ensures found.Some? ==> found.value in old(heap)
      ensures heap == if found.None? then old(heap)
                      else old(heap)[found.value := Cancelled(old(heap)[found.value], old(req.value.signal))]
    {
      var r := req.value;
      found := None;
      if r.seid != 0 {
        found := FindStreamByRseid(r.seid);
      }
      req, armed := None, false;
      if found.Some? {
        heap := heap[found.value := Cancelled(heap[found.value], r.signal)];
      }
      old(View()).SameLinksLinked(View());
    }

    /** The second half of cancel_request: the ABORT takes the place of the request, or the connection goes. */
    method AbortInstead(s: StreamId) returns (res: int)
      requires View().Linked() && req.None? && s in heap && heap[s].abortInt
      modifies this
      ensures View().Linked() && View().ReqOk() && version == old(version)
      ensures var tried := old(Now()).Sent(true, Request(AVDTP_ABORT, old(heap[s]).rseid, Some(s)), res == 0);
              if res == 0 then Now() == tried else Disconnected(View()) && handed == tried.handed
      ensures pendingOpen == None || pendingOpen == old(pendingOpen)
    {
      res := SendRequest(true, Some(s), AVDTP_ABORT, heap[s].rseid);
      old(View()).SameLinksLinked(View());
      if res < 0 {
        ConnectionLost();
      }
    }

    /** cancel_request: the outstanding request is given up; an ABORT takes its place or the connection goes. */
    method CancelRequest(err: int) returns (res: int)
      requires View().Linked() && req.Some?
      modifies this
      ensures View().Linked() && View().ReqOk() && version == old(version)
      ensures GivenUp(old(Now()), Now())
      ensures pendingOpen == None || pendingOpen == old(pendingOpen)
    {
      var signal, seid := req.value.signal, req.value.seid;
      var found := DropRequest();
      res := err;
      if signal == AVDTP_SET_CONFIGURATION || signal == AVDTP_DISCOVER || signal == AVDTP_GET_CAPABILITIES
         || signal == AVDTP_ABORT || found.None? {
        ConnectionLost();
        return;
      }
      assert !old(View()).Target(seid, None);
      res := AbortInstead(found.value);
      assert AbortInPlace(old(Now()), Now(), found.value, res == 0);
    }

    // -------------------------------------------------------------- the local API

    /** send_request on behalf of a stream */
    method Ask(priority: bool, s: StreamId, signal: nat) returns (err: int)
      requires Valid() && s in heap
      modifies this`req, this`transaction, this`armed, this`collided, this`prioQueue, this`reqQueue,
               this`nextTransaction, this`handed
      ensures Valid() && AskedFor(old(Now()), Now(), priority, signal, s, err)
    {
      err := SendRequest(priority, Some(s), signal, heap[s].rseid);
      old(View()).SameLinksLinked(View());
    }

    /** Hangs the newly allocated stream on its end point and in the list of the session. */
    method Link(p: Seid, remote: bool)
      requires nextStream in heap && p in seps
      modifies this`streams, this`nextStream, this`seps, this`rseps
      ensures View() == old(View()).Added(p, heap[old(nextStream)], remote)
    {
      var n := nextStream;
      seps := seps[p := seps[p].(inuse := true, stream := Some(n))];
      if remote {
        rseps := rseps[heap[n].rseid := Some(n)];
      }
      streams, nextStream := streams + [n], nextStream + 1;
      assert heap == heap[n := heap[n]];
    }

    /** The new stream is allocated and the request made for it. */
    method AskConfiguration(d: Seid, stream: Stream) returns (err: int)
      requires !stream.abortInt && stream.rseid == d
      modifies this`heap, this`req, this`transaction, this`armed, this`collided, this`prioQueue, this`reqQueue,
               this`nextTransaction, this`handed
      ensures var r := Request(AVDTP_SET_CONFIGURATION, d, Some(nextStream));
              var sent := old(Now()).Sent(false, r, err == 0);
              && err <= 0 && (old(req).Some? ==> err == 0)
              && Now() == sent.(g := sent.g.(heap := old(heap)[nextStream := stream]))
    {
      heap := heap[nextStream := stream];
      err := SendRequest(false, Some(nextStream), AVDTP_SET_CONFIGURATION, d);
    }

    /** The new stream is freed again: its end point and its remote end point lose whatever stream they had. */
    method Undo(p: Seid, d: Seid, ghost was: Graph)
      requires p in was.seps && was.nextStream !in was.heap && nextStream == was.nextStream && nextStream in heap
      requires heap[nextStream].lsep == p && heap[nextStream].rseid == d
      requires View() == was.(heap := was.heap[nextStream := heap[nextStream]])
      modifies this`heap, this`seps, this`rseps
      ensures View() == was.Discarded(d).(seps := was.seps[p := was.seps[p].(stream := None, inuse := false)])
    {
      StreamFree(nextStream);
      assert heap == was.heap;
    }

    method Configuration(d: Seid, p: Seid, delayReporting: bool) returns (err: int)
      requires p in seps && nextStream !in heap
      modifies this`heap, this`nextStream, this`streams, this`seps, this`rseps, this`req, this`transaction, this`armed,
               this`collided, this`prioQueue, this`reqQueue, this`nextTransaction, this`handed
      ensures err <= 0 && (old(req).Some? ==> err == 0)
      ensures Now() == old(Now()).Configuring(p, d, delayReporting, err == 0)
    {
      err := AskConfiguration(d, NewStream(p, d, delayReporting));
      if err < 0 {
        Undo(p, d, old(View()));
      } else {
        Link(p, true);
      }
    }

    /** avdtp_set_configuration. The links hold afterwards exactly when the end point `p` was unused, as
        avdtp_find_remote_sep has checked for the caller. */
    method SetConfiguration(d: Seid, p: Seid, delayReporting: bool) returns (err: int)
      requires Valid() && d in rseps && p in seps
      modifies this`heap, this`nextStream, this`streams, this`seps, this`rseps, this`req, this`transaction, this`armed,
               this`collided, this`prioQueue, this`reqQueue, this`nextTransaction, this`handed
      ensures err <= 0 && (old(req).Some? ==> err == 0)
      ensures Now() == old(Now()).Configuring(p, d, delayReporting, err == 0)
      ensures View().Linked() <==> old(seps[p].stream.None?)
      ensures old(seps[p].stream.None?) ==> Valid()
    {
      assert nextStream in heap ==> View().StreamOk(nextStream);
      err := Configuration(d, p, delayReporting);
      old(Now()).ConfiguringLinked(p, d, delayReporting, err == 0);
    }

    /** avdtp_get_configuration */
    method GetConfiguration(s: StreamId) returns (err: int)
      requires Valid() && s in heap
      modifies this`req, this`transaction, this`armed, this`collided, this`prioQueue, this`reqQueue,
               this`nextTransaction, this`handed
      ensures Valid() && AskedFor(old(Now()), Now(), false, AVDTP_GET_CONFIGURATION, s, err)
    {
      err := Ask(false, s, AVDTP_GET_CONFIGURATION);
    }

    /** avdtp_open; a stale stream pointer is only compared */
    method Open(s: StreamId) returns (err: int)
      requires Valid()
      modifies this`req, this`transaction, this`armed, this`collided, this`prioQueue, this`reqQueue,
               this`nextTransaction, this`handed
      ensures Valid()
      ensures if s in streams && s in heap && heap[s].lsep in seps
                 && seps[heap[s].lsep].state in {IDLE, CONFIGURED} then
                AskedFor(old(Now()), Now(), false, AVDTP_OPEN, s, err)
              else Rejected(old(Now()), Now(), err)
    {
      assert View().Listed(s) && (s in heap ==> View().StreamOk(s));
      if s !in streams || Rank(seps[heap[s].lsep].state) > Rank(CONFIGURED) {
        return -22;
      }
      err := Ask(false, s, AVDTP_OPEN);
    }

    /** The second half of avdtp_start, for an open stream: its request. */
    method SendStart(s: StreamId) returns (err: int)
      requires Valid() && s in heap
      modifies this`heap, this`req, this`transaction, this`armed, this`collided, this`prioQueue, this`reqQueue,
               this`nextTransaction, this`handed
      ensures Valid() && StartAsked(old(Now()), Now(), s, err)
    {
      if heap[s].closeInt {
        return -22;
      }
      if heap[s].starting {
        return -115;
      }
      err := Ask(false, s, AVDTP_START);
      if err == 0 {
        View().FlagsLinked(s, heap[s].(starting := true));
        heap := heap[s := heap[s].(starting := true)];
      }
    }

    method WaitForPeer(s: StreamId)
      requires Valid() && s in heap
      modifies this`heap
      ensures Valid() && heap == old(heap)[s := old(heap[s]).(startTimer := true)]
    {
      View().FlagsLinked(s, heap[s].(startTimer := true));
      heap := heap[s := heap[s].(startTimer := true)];
    }

    /** avdtp_start: the acceptor of OPEN waits for the peer's START, armed with a timer of its own. */
    method Start(s: StreamId) returns (err: int)
      requires Valid()
      modifies this`heap, this`req, this`transaction, this`armed, this`collided, this`prioQueue, this`reqQueue,
               this`nextTransaction, this`handed
      ensures Valid()
      ensures if s !in old(heap) || old(heap[s].lsep) !in seps || seps[old(heap[s].lsep)].state != OPEN then
                Rejected(old(Now()), Now(), err)
              else if old(heap[s].openAcp) then
                err == 0 && Now() == old(Now()).(g := old(View()).(heap := heap))
                && heap == old(heap)[s := old(heap[s]).(startTimer := true)]
              else
                StartAsked(old(Now()), Now(), s, err)
    {
      assert View().Listed(s) && (s in heap ==> View().StreamOk(s));
      if s !in streams || seps[heap[s].lsep].state != OPEN {
        return -22;
      }
      if heap[s].openAcp {
        WaitForPeer(s);
        return 0;
      }
      err := SendStart(s);
    }

    /** avdtp_suspend */
    method Suspend(s: StreamId) returns (err: int)
      requires Valid()
      modifies this`req, this`transaction, this`armed, this`collided, this`prioQueue, this`reqQueue,
               this`nextTransaction, this`handed
      ensures Valid()
      ensures if s in heap && heap[s].lsep in seps && seps[heap[s].lsep].state in {STREAMING, CLOSING, ABORTING}
                 && !heap[s].closeInt then
                AskedFor(old(Now()), Now(), false, AVDTP_SUSPEND, s, err)
              else Rejected(old(Now()), Now(), err)
    {
      assert View().Listed(s) && (s in heap ==> View().StreamOk(s));
      if s !in streams || Rank(seps[heap[s].lsep].state) <= Rank(OPEN) || heap[s].closeInt {
        return -22;
      }
      err := Ask(false, s, AVDTP_SUSPEND);
    }

    /** The request of avdtp_abort. */
    method SendAbort(s: StreamId) returns (err: int)
      requires Valid() && s in heap
      modifies this`heap, this`req, this`transaction, this`armed, this`collided, this`prioQueue, this`reqQueue,
               this`nextTransaction, this`handed
      ensures Valid()
      ensures AskedAndMarked(old(Now()), Now(), true, AVDTP_ABORT, s, old(heap[s]).(abortInt := true), err)
    {
      err := Ask(true, s, AVDTP_ABORT);
      if err == 0 {
        View().FlagsLinked(s, heap[s].(abortInt := true));
        heap := heap[s := heap[s].(abortInt := true)];
      }
    }

    /** avdtp_abort: an outstanding request of the stream is cancelled, otherwise an ABORT is sent ahead of the
        normal queue. */
    method Abort(s: StreamId) returns (err: int)
      requires Valid()
      modifies this
      ensures Valid() && version == old(version) && (pendingOpen == None || pendingOpen == old(pendingOpen))
      ensures AbortAsked(old(Now()), Now(), s, err)
    {
      assert View().Listed(s) && (s in heap ==> View().StreamOk(s));
      if s !in streams || seps[heap[s].lsep].state == ABORTING {
        return -22;
      }
      if req.Some? && armed && req.value.stream == Some(s) {
        err := CancelRequest(125);
        return;
      }
      err := SendAbort(s);
    }

    /** The request of avdtp_close. */
    method SendClose(s: StreamId) returns (err: int)
      requires Valid() && s in heap
      modifies this`heap, this`req, this`transaction, this`armed, this`collided, this`prioQueue, this`reqQueue,
               this`nextTransaction, this`handed
      ensures Valid()
      ensures AskedAndMarked(old(Now()), Now(), false, AVDTP_CLOSE, s, old(heap[s]).(closeInt := true), err)
    {
      err := Ask(false, s, AVDTP_CLOSE);
      if err == 0 {
        View().FlagsLinked(s, heap[s].(closeInt := true));
        heap := heap[s := heap[s].(closeInt := true)];
      }
    }

    /** avdtp_close: a stream that is not open yet, or whose request is outstanding, is aborted instead. */
    method Close(s: StreamId, immediate: bool) returns (err: int)
      requires Valid()
      modifies this
      ensures Valid() && version == old(version)
      ensures if old(s !in heap || heap[s].closeInt) then Rejected(old(Now()), Now(), err)
              else if old(heap[s].lsep !in seps || seps[heap[s].lsep].state in {IDLE, CONFIGURED}
                          || (immediate && req.Some? && req.value.stream == Some(s))) then
                AbortAsked(old(Now()), Now(), s, err)
              else
                AskedAndMarked(old(Now()), Now(), false, AVDTP_CLOSE, s, old(heap[s]).(closeInt := true), err)
    {
      assert View().Listed(s) && (s in heap ==> View().StreamOk(s));
      if s !in streams || heap[s].closeInt {
        return -22;
      }
      if Rank(seps[heap[s].lsep].state) < Rank(OPEN) || (immediate && req.Some? && req.value.stream == Some(s)) {
        err := Abort(s);
        return;
      }
      err := SendClose(s);
    }

    // -------------------------------------------------------------- the peer's commands

    method CheckCollision(cmd: nat, s: StreamId)
      requires s in heap
      modifies this`collided
      ensures collided == (old(collided) || Collides(req, cmd, heap[s].rseid))
    {
      if req.None? || (req.value.signal != cmd && cmd != AVDTP_ABORT) {
        return;
      }
      if req.value.signal == AVDTP_OPEN || req.value.signal == AVDTP_CLOSE || req.value.signal == AVDTP_START
         || req.value.signal == AVDTP_SUSPEND {
        if req.value.seid == heap[s].rseid {
          collided := true;
        }
      }
    }

    method MarkStarting(s: StreamId)
      requires Valid() && s in heap
      modifies this`heap
      ensures Valid() && View() == old(View()).(heap := old(heap)[s := old(heap[s]).(starting := true)])
    {
      View().FlagsLinked(s, heap[s].(starting := true));
      heap := heap[s := heap[s].(starting := true)];
    }

    /** The end point moves on, and the command may cross a request of ours. */
    method Accepted(cmd: nat, p: Seid, s: StreamId, to: SepState)
      requires Valid() && p in seps && seps[p].stream == Some(s) && s in heap && to != IDLE && to != CONFIGURED
      modifies this`heap, this`seps, this`collided
      ensures Valid()
      ensures Now() == old(Now()).(g := old(View()).Moved(p, s, to),
                                   collided := old(collided) || Collides(req, cmd, old(heap[s]).rseid))
    {
      CheckCollision(cmd, s);
      Advance(p, s, to);
    }

    /** The second half of a round, for an end point in the right state. */
    method MoveStream(cmd: nat, to: SepState, p: Seid, s: StreamId, ind: Option<nat>)
      requires Valid() && to != IDLE && to != CONFIGURED && p in seps && seps[p].stream == Some(s) && s in heap
      modifies this`heap, this`seps, this`collided
      ensures Valid() && Now() == OneMoved(old(Now()), cmd, old(seps[p].state), to, p, ind)
    {
      if cmd == AVDTP_START {
        MarkStarting(s);
      }
      if ind.None? {
        Accepted(cmd, p, s, to);
      }
    }

    /** One round of the loop of avdtp_start_cmd and avdtp_suspend_cmd. */
    method MoveOne(cmd: nat, from: SepState, to: SepState, seid: Seid, ind: Option<nat>) returns (refused: Option<nat>)
      requires Valid() && to != IDLE && to != CONFIGURED
      modifies this`heap, this`seps, this`collided
      ensures Valid()
      ensures refused == Verdict(old(seps), seid, from, ind)
      ensures Now() == OneMoved(old(Now()), cmd, from, to, seid, ind)
    {
      if seid !in seps || seps[seid].stream.None? {
        return Some(BAD_ACP_SEID);
      }
      assert View().SepOk(seid);
      if seps[seid].state != from {
        return Some(BAD_STATE);
      }
      MoveStream(cmd, to, seid, seps[seid].stream.value, ind);
      return ind;
    }

    /** That round after `n` SEIDs have been moved. */
    method MoveNext(cmd: nat, from: SepState, to: SepState, ids: seq<Seid>, n: nat, ind: seq<Option<nat>>,
                    ghost was: Snap)
      returns (refused: Option<nat>)
      requires Valid() && Moves(cmd, from, to) && n < |ids|
      requires was.g.Linked() && AllMovable(was.g.seps, ids, n, from, ind) && Now() == AfterMoves(was, ids, n, cmd, to)
      modifies this`heap, this`seps, this`collided
      ensures Valid()
      ensures match refused
              case Some(error) =>
                Refusal(was.g.seps, ids, n, from, ind, error)
                && Now() == AfterMoves(was, ids, n, cmd, to).(g := View())
                && View() == AfterMoves(was, ids, n, cmd, to).g.(heap := MarkedHeap(was.g, ids, n, from, cmd))
              case None =>
                AllMovable(was.g.seps, ids, n + 1, from, ind) && Now() == AfterMoves(was, ids, n + 1, cmd, to)
    {
      MovedOneMore(was.g.seps, ids, n, from, to, ind);
      MovesMore(was, ids, n, cmd, from, to, ind);
      refused := MoveOne(cmd, from, to, ids[n], Answer(ind, n));
    }

    /** The loop of avdtp_start_cmd and avdtp_suspend_cmd: `n` SEIDs are moved, the next one is refused. */
    method MoveSeids(cmd: nat, from: SepState, to: SepState, ids: seq<Seid>, ind: seq<Option<nat>>)
      returns (n: nat, refused: Option<nat>)
      requires Valid() && Moves(cmd, from, to)
      modifies this`heap, this`seps, this`collided
      ensures Valid()
      ensures n <= |ids| && (refused.None? <==> n == |ids|)
      ensures AllMovable(old(seps), ids, n, from, ind)
      ensures refused.Some? ==> Refusal(old(seps), ids, n, from, ind, refused.value)
      ensures var moved := AfterMoves(old(Now()), ids, n, cmd, to);
              Now() == moved.(g := moved.g.(heap := MarkedHeap(old(View()), ids, n, from, cmd)))
    {
      n, refused := 0, None;
      ghost var was := Now();
      NoMoves(was, ids, cmd, to);
      while n < |ids|
        invariant n <= |ids| && Valid() && refused == None
        invariant AllMovable(was.g.seps, ids, n, from, ind) && Now() == AfterMoves(was, ids, n, cmd, to)
      {
        refused := MoveNext(cmd, from, to, ids, n, ind, was);
        if refused.Some? {
          return;
        }
        n := n + 1;
      }
    }

    /** avdtp_start_cmd (OPEN to STREAMING) and avdtp_suspend_cmd (STREAMING to OPEN). The command is accepted exactly
        when every SEID can be moved; otherwise the reject names the first that cannot, and exactly the SEIDs before
        it have moved. */
    method MoveCmd(cmd: nat, from: SepState, to: SepState, payload: seq<byte>, ind: seq<Option<nat>>)
      returns (handled: bool, reply: Reply)
      requires Valid() && Moves(cmd, from, to)
      modifies this`heap, this`seps, this`collided, this`handed
      ensures Valid()
      ensures MoveDone(old(Now()), Now(), cmd, from, to, payload, ind, handled, reply)
    {
      if |payload| < 1 {
        return false, NoReply;
      }
      var n, refused := MoveSeids(cmd, from, to, Seids(payload), ind);
      assert refused.Some? ==> !(Movable(old(seps), Seids(payload), n, from) && Answer(ind, n).None?);
      reply := if refused.None? then Accept else Reject(SeidOf(payload[n]), refused.value);
      handled := AvdtpSend(Rsp(cmd, reply));
      assert MovedBefore(old(Now()), Now(), n, cmd, from, to, payload, ind, handled, reply);
    }

    /** A stream that avdtp_setconf_cmd allocated for the unused end point `p` is freed again. */
    method Discard(p: Seid, rseid: Seid)
      requires Valid() && p in seps && seps[p].stream.None?
      modifies this`heap, this`seps, this`rseps
      ensures Valid() && View() == old(View()).Discarded(rseid)
    {
      ghost var g := View();
      g.DiscardedLinked(rseid);
      g.AddedLinked(p, NewStream(p, rseid, false), false);
      assert g.SepOk(p);
      heap := heap[nextStream := NewStream(p, rseid, false)];
      StreamFree(nextStream);
      assert heap == g.heap && seps == g.seps;
    }

    /** The reply is handed to the socket, and that is all. */
    method Refuse(signal: nat, verdict: Reply) returns (handled: bool, reply: Reply)
      modifies this`handed
      ensures Refused(old(Now()), Now(), signal, verdict, handled, reply)
    {
      reply := verdict;
      handled := AvdtpSend(Rsp(signal, reply));
    }

    /** The stream that avdtp_setconf_cmd allocated is linked and its end point configured. */
    method Configure(p: Seid, rseid: Seid, delay: bool)
      requires Valid() && p in seps && seps[p].stream.None?
      modifies this
      ensures Valid() && p in old(seps) && AvdtpEffects.Linked(old(Now()), Now(), p, rseid, delay)
    {
      var stream := NewStream(p, rseid, delay);
      View().AddedLinked(p, stream, false);
      heap := heap[nextStream := stream];
      Link(p, false);
      assert Now() == old(Now()).(g := old(View()).Added(p, stream, false));
      ghost var taken := SetState(p, CONFIGURED);
      LinkingIs(old(Now()), p, rseid, delay, taken);
    }

    /** The accept goes out and the new stream is linked, or it is freed. */
    method AcceptConfiguration(p: Seid, rseid: Seid, delay: bool, hasInd: bool) returns (handled: bool)
      requires Valid() && p in seps && seps[p].stream.None?
      modifies this
      ensures Valid() && SetconfTaken(old(Now()), Now(), p, rseid, delay, hasInd, handled)
    {
      var taken := AvdtpSend(Rsp(AVDTP_SET_CONFIGURATION, Accept));
      if taken {
        Configure(p, rseid, delay);
      } else {
        Discard(p, rseid);
      }
      handled := taken || hasInd;
    }

    /** The capabilities of the request: whether a delay report is asked for, and the Media Transport is in order. */
    method ReadConfiguration(payload: seq<byte>) returns (delay: bool, transportOk: bool)
      requires 2 <= |payload|
      ensures delay == Caps.HasDelay(CapsIn(payload)) && transportOk == !Caps.BadTransport(CapsIn(payload))
    {
      var conf := Caps.ReadRequest(payload);
      Caps.ReadsUnique(payload[2..], conf.value.caps);
      delay := conf.value.delayReporting;
      transportOk := Caps.CheckTransport(conf.value.caps);
    }

    method AnswerConfiguration(p: Seid, rseid: Seid, delay: bool, verdict: Reply, hasInd: bool)
      returns (handled: bool, reply: Reply)
      requires Valid() && p in seps && seps[p].stream.None?
      modifies this
      ensures Valid()
      ensures SetconfAnswered(old(Now()), Now(), p, rseid, delay, verdict, hasInd, handled, reply)
    {
      if verdict == Accept {
        reply := Accept;
        handled := AcceptConfiguration(p, rseid, delay, hasInd);
      } else {
        Discard(p, rseid);
        handled, reply := Refuse(AVDTP_SET_CONFIGURATION, verdict);
      }
    }

    method RaiseVersion(delay: bool)
      modifies this`version
      ensures version == if delay then Max(old(version), 0x0103) else old(version)
    {
      if delay && version < 0x0103 {
        version := 0x0103;
      }
    }

    /** The rest of it, for an end point that exists and is not used. */
    method ConfigureStream(payload: seq<byte>, hasInd: bool, refused: bool) returns (handled: bool, reply: Reply)
      requires Valid() && 2 <= |payload| && SeidOf(payload[0]) in seps && seps[SeidOf(payload[0])].stream.None?
      modifies this
      ensures Valid() && SetconfUnused(old(Now()), Now(), payload, hasInd, refused, handled, reply)
    {
      var delay, transportOk := ReadConfiguration(payload);
      RaiseVersion(delay && transportOk);
      var verdict := if !transportOk then Reject(0, BAD_MEDIA_TRANSPORT_FORMAT)
                     else if hasInd && refused then Reject(0, UNSUPPORTED_CONFIGURATION)
                     else Accept;
      handled, reply := AnswerConfiguration(SeidOf(payload[0]), SeidOf(payload[1]), delay, verdict, hasInd);
    }

    /** avdtp_setconf_cmd. An indication callback that accepts answers at once through setconf_cb. */
    method SetconfCmd(payload: seq<byte>, hasInd: bool, refused: bool) returns (handled: bool, reply: Reply)
      requires Valid()
      modifies this
      ensures Valid() && SetconfDone(old(Now()), Now(), payload, hasInd, refused, handled, reply)
    {
      handled, reply := false, NoReply;
      if |payload| < 2 {
        return;
      }
      var p := SeidOf(payload[0]);
      if p !in seps {
        handled, reply := Refuse(AVDTP_SET_CONFIGURATION, Reject(0, BAD_ACP_SEID));
      } else if seps[p].stream.Some? {
        handled, reply := Refuse(AVDTP_SET_CONFIGURATION, Reject(0, SEP_IN_USE));
      } else {
        handled, reply := ConfigureStream(payload, hasInd, refused);
      }
    }

    /** g_timeout_add_seconds for the stream's `timer`: the id of a source that still runs is overwritten. `acp` marks
        the acceptor of OPEN. */
    method ArmTimer(s: StreamId, kind: TimerKind, acp: bool)
      requires Valid() && s in heap
      modifies this`heap, sources`leaked
      ensures Valid()
      ensures heap == old(heap)[s := old(heap[s]).(openAcp := acp || old(heap[s]).openAcp, timer := Some(kind))]
      ensures sources.leaked == old(sources.leaked) + match old(heap[s].timer)
                                                      case None => []
                                                      case Some(running) => [Timer(running, s)]
    {
      var stream := heap[s].(openAcp := acp || heap[s].openAcp, timer := Some(kind));
      View().FlagsLinked(s, stream);
      sources.leaked := sources.leaked + TimerOf(heap[s], s);
      heap := heap[s := stream];
    }

    method SetPending(s: StreamId)
      requires Valid() && s in heap
      modifies this`pendingOpen
      ensures Valid() && pendingOpen == Some(s)
    {
      pendingOpen := Some(s);
      old(View()).SameLinksLinked(View());
    }

    /** The transport of the stream is awaited, and not forever. */
    method AwaitTransport(s: StreamId)
      requires Valid() && s in heap
      modifies this`heap, this`pendingOpen, sources`leaked
      ensures Valid()
      ensures View() == old(View()).(pendingOpen := Some(s),
                                     heap := old(heap)[s := old(heap[s]).(openAcp := true, timer := Some(Opening))])
      ensures sources.leaked == old(sources.leaked) + TimerOf(old(heap[s]), s)
    {
      SetPending(s);
      ArmTimer(s, Opening, true);
    }

    /** The accept of an OPEN command goes out. */
    method AcceptOpen(s: StreamId) returns (handled: bool)
      requires Valid() && s in heap
      modifies this`heap, this`pendingOpen, this`collided, this`handed, sources`leaked
      ensures Valid() && OpenTaken(old(Now()), Now(), s, handled)
      ensures sources.leaked == old(sources.leaked) + if handled then TimerOf(old(heap)[s], s) else []
    {
      CheckCollision(AVDTP_OPEN, s);
      handled := AvdtpSend(Rsp(AVDTP_OPEN, Accept));
      if handled {
        AwaitTransport(s);
      }
    }

    /** The stream whose running timer the command overwrites when its accept goes out. */
    ghost function TimerLost(signal: nat, payload: seq<byte>, ind: seq<Option<nat>>): seq<Source>
      reads this
    {
      if payload == [] || Answer(ind, 0).Some? then []
      else
        var p := SeidOf(payload[0]);
        if p !in seps || seps[p].stream.None? || seps[p].stream.value !in heap then []
        else if (signal == AVDTP_OPEN && seps[p].state == CONFIGURED)
                || (signal == AVDTP_CLOSE && seps[p].state in {OPEN, STREAMING}) then
          TimerOf(heap[seps[p].stream.value], seps[p].stream.value)
        else []
    }

    /** avdtp_open_cmd; nothing stops it from being accepted a second time while the first timer runs */
    method OpenCmd(payload: seq<byte>, ind: Option<nat>) returns (handled: bool, reply: Reply)
      requires Valid()
      modifies this`heap, this`pendingOpen, this`collided, this`handed, sources`leaked
      ensures Valid() && OpenDone(old(Now()), Now(), payload, ind, handled, reply)
      ensures sources.leaked == old(sources.leaked) + if handled then old(TimerLost(AVDTP_OPEN, payload, [ind])) else []
    {
      handled, reply := false, NoReply;
      if |payload| < 1 {
        return;
      }
      var p := SeidOf(payload[0]);
      assert p in seps ==> View().SepOk(p);
      if p !in seps {
        handled, reply := Refuse(AVDTP_OPEN, Reject(p, BAD_ACP_SEID));
      } else if seps[p].state != CONFIGURED {
        handled, reply := Refuse(AVDTP_OPEN, Reject(p, BAD_STATE));
      } else if ind.Some? {
        handled, reply := Refuse(AVDTP_OPEN, Reject(p, ind.value));
      } else {
        reply := Accept;
        handled := AcceptOpen(seps[p].stream.value);
      }
    }

    /** The accept of a CLOSE command goes out. */
    method AcceptClose(p: Seid, s: StreamId) returns (handled: bool)
      requires Valid() && p in seps && seps[p].stream == Some(s) && s in heap
      modifies this`heap, this`seps, this`collided, this`handed, sources`leaked
      ensures Valid() && CloseTaken(old(Now()), Now(), p, s, handled)
      ensures sources.leaked == old(sources.leaked) + if handled then TimerOf(old(heap)[s], s) else []
    {
      Accepted(AVDTP_CLOSE, p, s, CLOSING);
      handled := AvdtpSend(Rsp(AVDTP_CLOSE, Accept));
      if handled {
        ArmTimer(s, Closing, false);
        Overwritten(old(heap), s, old(heap[s]).(startTimer := false),
                    old(heap[s]).(startTimer := false, timer := Some(Closing)));
      }
    }

    /** avdtp_close_cmd */
    method CloseCmd(payload: seq<byte>, ind: Option<nat>) returns (handled: bool, reply: Reply)
      requires Valid()
      modifies this`heap, this`seps, this`collided, this`handed, sources`leaked
      ensures Valid() && CloseDone(old(Now()), Now(), payload, ind, handled, reply)
      ensures sources.leaked == old(sources.leaked)
                                + if handled then old(TimerLost(AVDTP_CLOSE, payload, [ind])) else []
    {
      handled, reply := false, NoReply;
      if |payload| < 1 {
        return;
      }
      var p := SeidOf(payload[0]);
      assert p in seps ==> View().SepOk(p);
      if p !in seps || seps[p].stream.None? {
        handled, reply := Refuse(AVDTP_CLOSE, Reject(p, BAD_ACP_SEID));
      } else if seps[p].state != OPEN && seps[p].state != STREAMING {
        handled, reply := Refuse(AVDTP_CLOSE, Reject(p, BAD_STATE));
      } else if ind.Some? {
        handled, reply := Refuse(AVDTP_CLOSE, Reject(p, ind.value));
      } else {
        reply := Accept;
        handled := AcceptClose(p, seps[p].stream.value);
      }
    }

    /** The accept of an ABORT command goes out. */
    method AcceptAbort(p: Seid, s: StreamId) returns (handled: bool)
      requires Valid() && p in seps && seps[p].stream == Some(s) && s in heap
      modifies this`heap, this`seps, this`collided, this`handed
      ensures Valid() && AbortTaken(old(Now()), Now(), p, s, handled)
    {
      CheckCollision(AVDTP_ABORT, s);
      handled := AvdtpSend(Rsp(AVDTP_ABORT, Accept));
      if handled {
        Advance(p, s, ABORTING);
      }
    }

    /** avdtp_abort_cmd: silent when the end point has no stream */
    method AbortCmd(payload: seq<byte>) returns (handled: bool, reply: Reply)
      requires Valid()
      modifies this`heap, this`seps, this`collided, this`handed
      ensures Valid() && AbortDone(old(Now()), Now(), payload, handled, reply)
    {
      handled, reply := false, NoReply;
      if |payload| < 1 {
        return;
      }
      var p := SeidOf(payload[0]);
      if p !in seps || seps[p].stream.None? {
        return true, NoReply;
      }
      assert View().SepOk(p);
      reply := Accept;
      handled := AcceptAbort(p, seps[p].stream.value);
    }

    /** The commands that change no end point: only their reply goes out. */
    method OtherCmd(signal: nat, payload: seq<byte>) returns (handled: bool, reply: Reply)
      modifies this`handed
      ensures OtherDone(old(Now()), Now(), signal, payload, handled, reply)
    {
      if (signal == AVDTP_DELAY_REPORT && |payload| < 3) || (signal == AVDTP_GET_CONFIGURATION && |payload| < 1) {
        return false, NoReply;
      }
      handled, reply := Refuse(signal, Other);
    }

    /** avdtp_parse_cmd */
    method ParseCmd(signal: nat, payload: seq<byte>, ind: seq<Option<nat>>, hasInd: bool)
      returns (handled: bool, reply: Reply)
      requires Valid()
      modifies this, sources`leaked
      ensures Valid() && CommandDone(old(Now()), Now(), signal, payload, ind, hasInd, handled, reply)
      ensures sources.leaked == old(sources.leaked) + if handled then old(TimerLost(signal, payload, ind)) else []
    {
      assert payload != [] && SeidOf(payload[0]) in seps ==> View().SepOk(SeidOf(payload[0]));
      if signal == AVDTP_SET_CONFIGURATION {
        handled, reply := SetconfCmd(payload, hasInd, Answer(ind, 0).Some?);
      } else if signal == AVDTP_OPEN {
        handled, reply := OpenCmd(payload, Answer(ind, 0));
      } else if signal == AVDTP_START {
        handled, reply := MoveCmd(AVDTP_START, OPEN, STREAMING, payload, ind);
      } else if signal == AVDTP_SUSPEND {
        handled, reply := MoveCmd(AVDTP_SUSPEND, STREAMING, OPEN, payload, ind);
      } else if signal == AVDTP_CLOSE {
        handled, reply := CloseCmd(payload, Answer(ind, 0));
      } else if signal == AVDTP_ABORT {
        handled, reply := AbortCmd(payload);
      } else {
        handled, reply := OtherCmd(signal, payload);
      }
    }

    // -------------------------------------------------------------- responses

    /** One entry of avdtp_discover_resp is recorded, and its capabilities asked for. */
    method RecordRsep(seid: Seid, stream: Option<StreamId>, getcap: nat)
      requires View().Linked() && req.Some?
      requires stream.Some? ==> stream.value in heap && heap[stream.value].rseid == seid
      modifies this`rseps, this`req, this`transaction, this`armed, this`collided, this`prioQueue, this`reqQueue,
               this`nextTransaction, this`handed
      ensures View().Linked()
      ensures Now() == old(Now()).(g := old(View()).(rseps := old(rseps)[seid := stream],
                                                     prioQueue := old(prioQueue) + [Request(getcap, seid, None)]))
    {
      rseps := rseps[seid := stream];
      old(View()).RsepsLinked(rseps, seid);
      ghost var g := View();
      var err := SendRequest(true, None, getcap, seid);
      g.SameLinksLinked(View());
    }

    /** One entry of avdtp_discover_resp */
    method DiscoverEntry(seid: Seid, inuse: bool, getcap: nat) returns (pending: bool, stream: Option<StreamId>)
      requires View().Linked() && req.Some?
      modifies this`rseps, this`req, this`transaction, this`armed, this`collided, this`prioQueue, this`reqQueue,
               this`nextTransaction, this`handed
      ensures View().Linked() && old(View()).Target(seid, stream)
      ensures pending <==> seid in old(rseps) || !inuse || stream.Some?
      ensures Now() == if !pending then old(Now())
                       else old(Now()).(g := old(View()).(rseps := old(rseps)[seid := stream],
                                                          prioQueue := old(prioQueue)
                                                                       + [Request(getcap, seid, None)]))
    {
      stream := FindStreamByRseid(seid);
      assert stream.Some? ==> View().Target(seid, stream);
      pending := seid in rseps || !inuse || stream.Some?;
      if pending {
        RecordRsep(seid, stream, getcap);
      }
    }

    /** One round of its loop, when `n` entries of the response to the session `was` have been read. */
    method DiscoverNext(payload: seq<byte>, n: nat, getcap: nat, ghost was: Graph) returns (pending: bool)
      requires View().Linked() && req.Some? && n < |payload| / 2 && was.Linked()
      requires View() == was.(rseps := rseps, prioQueue := was.prioQueue + AsksFor(payload, n, was, getcap))
      requires Discovered(payload, n, was, rseps)
      modifies this`rseps, this`req, this`transaction, this`armed, this`collided, this`prioQueue, this`reqQueue,
               this`nextTransaction, this`handed
      ensures View().Linked() && Now() == old(Now()).(g := View())
      ensures View() == was.(rseps := rseps, prioQueue := was.prioQueue + AsksFor(payload, n + 1, was, getcap))
      ensures Discovered(payload, n + 1, was, rseps)
      ensures pending <==> AsksFor(payload, n + 1, was, getcap) != AsksFor(payload, n, was, getcap)
    {
      var stream;
      pending, stream := DiscoverEntry(SeidOf(payload[2 * n]), payload[2 * n] / 2 % 2 == 1, getcap);
      assert was.Target(SeidOf(payload[2 * n]), stream);
      DiscoveredMore(payload, n, was, old(rseps), stream);
      AsksMore(payload, n, was, old(rseps), stream, getcap);
    }

    /** avdtp_discover_resp: the remote end points that are free, or used by one of our streams, become known, and
        capabilities are asked for ahead of the normal queue, of known end points only. */
    method DiscoverResp(payload: seq<byte>)
      requires View().Linked() && req.Some? && req.value.signal == AVDTP_DISCOVER
      modifies this`rseps, this`req, this`transaction, this`armed, this`collided, this`prioQueue, this`reqQueue,
               this`nextTransaction, this`handed, this`discover
      ensures View().Linked() && AcceptDone(old(Now()), Now(), payload)
    {
      ghost var was := View();
      var getcap := if version >= 0x0103 then AVDTP_GET_ALL_CAPABILITIES else AVDTP_GET_CAPABILITIES;
      var any := false;
      NothingDiscovered(payload, was);
      for n := 0 to |payload| / 2
        invariant View().Linked() && Now() == old(Now()).(g := View())
        invariant View() == was.(rseps := rseps, prioQueue := was.prioQueue + AsksFor(payload, n, was, getcap))
        invariant Discovered(payload, n, was, rseps) && (any <==> AsksFor(payload, n, was, getcap) != [])
      {
        var pending := DiscoverNext(payload, n, getcap, was);
        any := any || pending;
      }
      if !any {
        discover := false;
      }
    }

    /** avdtp_get_capabilities_resp for a response that is long enough, and the end of the discovery */
    method CapabilitiesResp()
      requires View().Linked() && req.Some? && AsksCapabilities(req.value)
      modifies this`discover
      ensures View().Linked() && Now() == old(Now()).(discover := old(discover) && DiscoveryGoesOn(View()))
    {
      var next := if prioQueue != [] then Some(prioQueue[0]) else if reqQueue != [] then Some(reqQueue[0]) else None;
      if next.None?
         || (next.value.signal != AVDTP_GET_CAPABILITIES && next.value.signal != AVDTP_GET_ALL_CAPABILITIES) {
        discover := false;
      }
    }

    /** avdtp_close_resp */
    method CloseAccepted(p: Seid, s: StreamId)
      requires View().Linked() && p in seps && seps[p].stream == Some(s) && s in heap && heap[s].lsep == p
      modifies this
      ensures View().Linked() && StreamAccepted(old(Now()), Now(), AVDTP_CLOSE, s)
    {
      ghost var taken := SetState(p, CLOSING);
      View().FlagsLinked(s, heap[s].(io := false));
      heap := heap[s := heap[s].(io := false)];
      ClosedIs(old(Now()), p, s, taken);
    }

    /** avdtp_abort_resp: the stream goes through ABORTING to IDLE and is freed */
    method AbortAccepted(p: Seid, s: StreamId)
      requires View().Linked() && !armed && p in seps && seps[p].stream == Some(s) && s in heap && heap[s].lsep == p
      modifies this
      ensures View().Linked() && StreamAccepted(old(Now()), Now(), AVDTP_ABORT, s)
    {
      ghost var _ := SetState(p, ABORTING);
      ghost var _ := SetState(p, IDLE);
      AbortedIs(old(Now()), p, s);
    }

    /** avdtp_set_configuration_resp */
    method ConfigurationAccepted(p: Seid, s: StreamId)
      requires View().Linked() && req.Some? && p in seps && seps[p].stream == Some(s) && s in heap && heap[s].lsep == p
      modifies this
      ensures View().Linked() && StreamAccepted(old(Now()), Now(), AVDTP_SET_CONFIGURATION, s)
    {
      ghost var taken := SetState(p, CONFIGURED);
      ConfiguredIs(old(Now()), p, s, taken);
    }

    /** The part of avdtp_parse_resp for requests that target a stream. */
    method AcceptFor(s: StreamId, signal: nat)
      requires View().Linked() && req.Some? && !armed && s in heap
      modifies this
      ensures View().Linked() && StreamAccepted(old(Now()), Now(), signal, s)
    {
      var p := heap[s].lsep;
      assert View().StreamOk(s);
      if signal == AVDTP_SET_CONFIGURATION {
        ConfigurationAccepted(p, s);
      } else if signal == AVDTP_OPEN {
        pendingOpen := Some(s);
        old(View()).SameLinksLinked(View());
      } else if signal == AVDTP_SUSPEND {
        ghost var _ := SetState(p, OPEN);
      } else if signal == AVDTP_START {
        if seps[p].state != STREAMING {
          ghost var _ := SetState(p, STREAMING);
        }
      } else if signal == AVDTP_CLOSE {
        CloseAccepted(p, s);
      } else if signal == AVDTP_ABORT {
        AbortAccepted(p, s);
      }
    }

    /** avdtp_parse_resp for the outstanding request, whose timer is stopped */
    method ParseResp(payload: seq<byte>) returns (ok: bool)
      requires View().Linked() && req.Some? && !armed && View().Live(req.value.stream)
      modifies this
      ensures View().Linked() && ok == AcceptTaken(old(req.value.signal), |payload|)
      ensures if ok then AcceptDone(old(Now()), Now(), payload) else Now() == old(Now())
    {
      var signal := req.value.signal;
      ok := true;
      if signal == AVDTP_DISCOVER {
        DiscoverResp(payload);
        return;
      }
      if signal == AVDTP_GET_CAPABILITIES || signal == AVDTP_GET_ALL_CAPABILITIES {
        if |payload| < 6 {
          return false;
        }
        CapabilitiesResp();
        return;
      }
      if req.value.stream.Some? {
        AcceptFor(req.value.stream.value, signal);
      }
    }

    /** seid_rej_to_err, conf_rej_to_err and stream_rej_to_err: whether the reject is as long as it has to be */
    method ReadReject(signal: nat, payload: seq<byte>) returns (ok: bool)
      ensures ok <==> RejectTaken(signal, |payload|) || (signal == AVDTP_ABORT && 2 <= |payload|)
    {
      if signal == AVDTP_DISCOVER || signal == AVDTP_GET_CAPABILITIES || signal == AVDTP_GET_ALL_CAPABILITIES
         || signal == AVDTP_OPEN || signal == AVDTP_GET_CONFIGURATION {
        return |payload| >= 1;
      }
      if signal == AVDTP_SET_CONFIGURATION || signal == AVDTP_RECONFIGURE || signal == AVDTP_START
         || signal == AVDTP_SUSPEND || signal == AVDTP_CLOSE || signal == AVDTP_ABORT || signal == AVDTP_DELAY_REPORT {
        return |payload| >= 2;
      }
      return true;
    }

    /** avdtp_parse_rej for the outstanding request, whose timer is stopped */
    method ParseRej(payload: seq<byte>) returns (ok: bool)
      requires View().Linked() && req.Some? && !armed && View().Live(req.value.stream)
      modifies this`heap, this`discover
      ensures View().Linked() && ok == RejectTaken(req.value.signal, |payload|)
      ensures if ok then RejectDone(old(Now()), Now()) else Now() == old(Now())
    {
      var signal := req.value.signal;
      var read := ReadReject(signal, payload);
      ok := read && signal != AVDTP_ABORT;
      if !ok {
        return;
      }
      if signal == AVDTP_DISCOVER || signal == AVDTP_GET_CAPABILITIES || signal == AVDTP_GET_ALL_CAPABILITIES {
        discover := false;
      } else if req.value.stream.Some? {
        var s := req.value.stream.value;
        if signal == AVDTP_START {
          heap := heap[s := heap[s].(starting := false)];
        } else if signal == AVDTP_CLOSE {
          heap := heap[s := heap[s].(closeInt := false)];
        }
        old(View()).SameLinksLinked(View());
      }
    }

    /** The end of session_cb: the outstanding request is freed and the queue looked at. */
    method Next()
      requires View().Linked() && req.Some? && (sources.channel ==> sources.stuck == None)
      modifies this`req, this`transaction, this`armed, this`collided, this`prioQueue, this`reqQueue,
               this`nextTransaction, this`handed
      ensures Valid() && old(Now()).MovesOnTo(Now())
    {
      req, armed := None, false;
      assert Now() == old(Now()).Freed();
      ghost var taken := ProcessQueue();
      old(Now()).MovedOnLinked(taken);
    }

    /** session_cb for a command: `done` is the session when the command has been carried out. If that crosses our own
        request, the request is freed and the queue looked at. `alive` says whether the channel is still watched. */
    method CommandReceived(signal: nat, payload: seq<byte>, ind: seq<Option<nat>>, hasInd: bool)
      returns (alive: bool, reply: Reply, ghost done: Snap)
      requires Valid() && sources.channel
      modifies this, sources`leaked, sources`channel
      ensures Valid() && sources.channel == alive
      ensures CommandDone(old(Now()), done, signal, payload, ind, hasInd, alive, reply)
      ensures if !alive then
                && streams == [] && pendingOpen == None && handed == done.handed
                && forall p <- seps :: seps[p].state == IDLE
              else if done.g.req.Some? && done.collided then done.MovesOnTo(Now())
              else Now() == done
      ensures sources.leaked == old(sources.leaked) + if alive then old(TimerLost(signal, payload, ind)) else []
    {
      alive, reply := ParseCmd(signal, payload, ind, hasInd);
      done := Now();
      if !alive {
        sources.channel := false;
        ConnectionLost();
      } else if req.Some? && collided {
        Next();
      }
    }

    /** The timer of the outstanding request is stopped and the response parsed. */
    method ParseResponse(kind: nat, payload: seq<byte>) returns (alive: bool)
      requires Valid() && sources.channel && req.Some?
      modifies this
      ensures View().Linked() && alive == ResponseTaken(kind, old(req.value.signal), |payload|)
      ensures if alive then ResponseDone(old(Now()), Now(), kind, payload)
              else Now() == old(Now()).(g := old(View()).(armed := false))
    {
      armed := false;
      old(View()).ArmedIrrelevant(false);
      alive := true;
      if kind == MSG_ACCEPT {
        alive := ParseResp(payload);
      } else if kind == MSG_REJECT {
        alive := ParseRej(payload);
      }
    }

    /** The channel is given up while the outstanding request is in process. */
    method ResponseRefused()
      requires View().Linked() && req.Some? && !armed
      requires req.value.stream.Some? ==> req.value.stream.value < nextStream
      modifies this, sources`channel, sources`stuck
      ensures Valid() && !sources.channel && streams == [] && heap == map[] && pendingOpen == None && req == old(req)
      ensures handed == old(handed)
      ensures View().ReqLive() <==> old(req).value.stream.None?
    {
      sources.channel := false;
      ConnectionLost();
      ghost var g := View();
      sources.stuck := req.value.stream;
      g.SameButStuck(View());
    }

    /** The response to the outstanding request. */
    method TakeResponse(kind: nat, payload: seq<byte>) returns (alive: bool, ghost done: Snap)
      requires Valid() && sources.channel && req.Some?
      modifies this, sources`channel, sources`stuck
      ensures Valid() && sources.channel == alive == ResponseTaken(kind, old(req).value.signal, |payload|)
      ensures !alive ==> streams == [] && heap == map[] && pendingOpen == None && req == old(req)
                         && handed == old(handed)
      ensures View().ReqLive() <==> alive || old(req).value.stream.None?
      ensures alive ==> ResponseDone(old(Now()), done, kind, payload) && done.g.req.Some? && done.MovesOnTo(Now())
    {
      assert req.value.stream.Some? ==> View().StreamOk(req.value.stream.value);
      alive := ParseResponse(kind, payload);
      done := Now();
      if alive {
        ResponseKeepsRequest(old(Now()), Now(), kind, payload);
        Next();
      } else {
        ResponseRefused();
      }
    }

    /** session_cb for a response: when it is taken, `done` is the session when it has been parsed, and the queue moves
        on. When it refuses the response to a request that targets a stream, that stream is freed while the request
        still names it. */
    method ResponseReceived(tid: nat, signal: nat, kind: nat, payload: seq<byte>)
      returns (alive: bool, ghost done: Snap)
      requires Valid() && sources.channel
      modifies this, sources`channel, sources`stuck
      ensures Valid() && sources.channel == alive
      ensures var answered := old(req).Some? && tid == old(transaction) && signal == old(req).value.signal;
              && (!answered ==> alive && Now() == old(Now()))
              && (answered ==> alive == ResponseTaken(kind, signal, |payload|))
              && (answered && alive ==> ResponseDone(old(Now()), done, kind, payload) && done.MovesOnTo(Now()))
              && (!alive ==> streams == [] && heap == map[] && pendingOpen == None && req == old(req)
                             && handed == old(handed))
              && (View().ReqLive() <==> alive || old(req).value.stream.None?)
    {
      alive, done := true, Now();
      if req.None? || tid != transaction || signal != req.value.signal {
        return;
      }
      alive, done := TakeResponse(kind, payload);
    }

    // -------------------------------------------------------------- timers, channels and end points

    /** session_cb when the channel hangs up or a packet cannot be read or parsed: every source that has been lost now
        runs for a freed stream */
    method ChannelFailed()
      requires Valid()
      modifies this, sources`channel
      ensures Valid() && !sources.channel && streams == [] && heap == map[] && pendingOpen == None
      ensures forall p <- seps :: seps[p].state == IDLE && seps[p].stream == None
      ensures forall source <- sources.leaked :: source.s !in heap
    {
      sources.channel := false;
      ConnectionLost();
    }

    /** request_timeout */
    method RequestTimeout()
      requires Valid() && req.Some? && armed
      modifies this
      ensures Valid() && GivenUp(old(Now()), Now())
    {
      var _ := CancelRequest(110);
    }

    /** stream_open_timeout: the source is the stream's own, or one that was lost */
    method StreamOpenTimeout(s: StreamId) returns (ghost err: int)
      requires Valid() && s in heap
      modifies this
      ensures Valid() && pendingOpen == None
      ensures AbortAsked(old(Now()).(g := old(View()).(heap := old(heap)[s := old(heap[s]).(timer := None)],
                                                       pendingOpen := None)), Now(), s, err)
    {
      View().FlagsLinked(s, heap[s].(timer := None));
      heap := heap[s := heap[s].(timer := None)];
      ghost var g := View();
      pendingOpen := None;
      g.SameLinksLinked(View());
      err := Abort(s);
    }

    /** stream_close_timeout, with close_stream */
    method StreamCloseTimeout(s: StreamId)
      requires Valid() && s in heap
      modifies this`heap
      ensures Valid() && heap == old(heap)[s := old(heap[s]).(timer := None, io := false)]
    {
      View().FlagsLinked(s, heap[s].(timer := None, io := false));
      heap := heap[s := heap[s].(timer := None, io := false)];
    }

    /** The acceptor does not wait any more; nothing looks at the timer that has fired before avdtp_start returns. */
    method StopWaiting(s: StreamId)
      requires Valid() && s in heap
      modifies this`heap
      ensures Valid() && heap == old(heap)[s := old(heap[s]).(openAcp := false, startTimer := false)]
    {
      View().FlagsLinked(s, heap[s].(openAcp := false, startTimer := false));
      heap := heap[s := heap[s].(openAcp := false, startTimer := false)];
    }

    /** start_timeout: the acceptor of OPEN has waited for the peer's START and sends its own, if the stream is still
        open. */
    method StartTimeout(s: StreamId) returns (err: int)
      requires Valid() && s in heap && heap[s].startTimer
      modifies this`heap, this`req, this`transaction, this`armed, this`collided, this`prioQueue, this`reqQueue,
               this`nextTransaction, this`handed
      ensures Valid() && old(heap[s]).lsep in seps
      ensures var waited := old(heap)[s := old(heap[s]).(openAcp := false, startTimer := false)];
              var was := old(Now()).(g := old(View()).(heap := waited));
              if seps[waited[s].lsep].state != OPEN then Rejected(was, Now(), err) else StartAsked(was, Now(), s, err)
    {
      assert View().StreamOk(s);
      StopWaiting(s);
      err := Start(s);
    }

    /** Setting the transport overwrites the id of a watch that still runs. */
    ghost function WatchLost(s: StreamId): seq<Source>
      reads this
    {
      if s in heap then WatchOf(heap[s], s) else []
    }

    /** The first half of handle_transport_connect */
    method TakeTransport(s: StreamId)
      requires Valid() && s in heap
      modifies this`heap, this`pendingOpen
      ensures Valid() && heap == old(heap)[s := old(heap[s]).(timer := None, io := true)] && pendingOpen == None
    {
      View().FlagsLinked(s, heap[s].(timer := None, io := true));
      heap := heap[s := heap[s].(timer := None, io := true)];
      ghost var g := View();
      pendingOpen := None;
      g.SameLinksLinked(View());
    }

    method EnterOpen(s: StreamId)
      requires Valid() && s in heap
      modifies this`heap, this`seps
      ensures Valid() && heap == old(heap)[s := old(heap[s]).(starting := false)]
      ensures var p := old(heap[s]).lsep; p in old(seps) && seps == old(seps)[p := old(seps)[p].(state := OPEN)]
    {
      assert View().StreamOk(s);
      Advance(heap[s].lsep, s, OPEN);
    }

    /** g_io_add_watch for the media channel: the id of a watch that still runs is overwritten. */
    method AddWatch(s: StreamId)
      requires Valid() && s in heap
      modifies this`heap, sources`leaked
      ensures Valid() && heap == old(heap)[s := old(heap[s]).(watched := true)]
      ensures sources.leaked == old(sources.leaked) + if old(heap[s].watched) then [Watch(s)] else []
    {
      View().FlagsLinked(s, heap[s].(watched := true));
      sources.leaked := sources.leaked + WatchOf(heap[s], s);
      heap := heap[s := heap[s].(watched := true)];
    }

    /** The transport of stream `s` of the session `g` is there: it is not awaited any more, has no timer, is watched,
        and its end point is OPEN. */
    ghost predicate Connected(g: Graph, s: StreamId)
      reads this, sources`stuck
    {
      && s in g.heap && g.heap[s].lsep in g.seps
      && View() == g.(pendingOpen := None,
                      heap := g.heap[s := g.heap[s].(timer := None, io := true, starting := false, watched := true)],
                      seps := g.seps[g.heap[s].lsep := g.seps[g.heap[s].lsep].(state := OPEN)])
    }

    /** handle_transport_connect for a channel that is there */
    method HandleTransportConnect(s: StreamId)
      requires Valid() && pendingOpen == Some(s)
      modifies this`heap, this`seps, this`pendingOpen, sources`leaked
      ensures Valid() && Connected(old(View()), s) && sources.leaked == old(sources.leaked) + old(WatchLost(s))
    {
      ghost var stream := heap[s].(timer := None, io := true);
      TakeTransport(s);
      EnterOpen(s);
      Overwritten(old(heap), s, stream, stream.(starting := false));
      assert heap == old(heap)[s := stream.(starting := false)];
      AddWatch(s);
      Overwritten(old(heap), s, stream.(starting := false), stream.(starting := false, watched := true));
    }

    /** avdtp_stream_set_transport */
    method SetTransport(s: StreamId) returns (ok: bool)
      requires Valid()
      modifies this`heap, this`seps, this`pendingOpen, sources`leaked
      ensures Valid()
      ensures if ok then old(pendingOpen) == Some(s) && Connected(old(View()), s)
                         && sources.leaked == old(sources.leaked) + old(WatchLost(s))
              else View() == old(View()) && sources.leaked == old(sources.leaked)
    {
      if pendingOpen != Some(s) {
        return false;
      }
      var prioritySet: bool := *;
      if !prioritySet {
        return false;
      }
      HandleTransportConnect(s);
      return true;
    }

    method CloseStream(s: StreamId, invalid: bool)
      requires Valid() && s in heap
      modifies this`heap
      ensures Valid() && heap == old(heap)[s := old(heap[s]).(io := old(heap[s]).io && invalid, watched := false)]
      ensures heap[s].lsep in seps
    {
      assert View().StreamOk(s);
      View().FlagsLinked(s, heap[s].(io := heap[s].io && invalid, watched := false));
      heap := heap[s := heap[s].(io := heap[s].io && invalid, watched := false)];
    }

    /** transport_cb: the media channel closed. Unless we are aborting, that is the end of the stream. */
    method TransportClosed(s: StreamId, invalid: bool)
      requires Valid() && s in heap
      modifies this
      ensures Valid()
      ensures var stream := old(heap[s]).(io := old(heap[s]).io && invalid, watched := false);
              var was := old(Now()).(g := old(View()).(heap := old(heap)[s := stream]));
              stream.lsep in old(seps) && Now() == if stream.abortInt then was else was.Dead(stream.lsep, s)
    {
      CloseStream(s, invalid);
      if !heap[s].abortInt {
        ReleaseStream(s);
      }
    }

    /** avdtp_unregister_sep */
    method UnregisterSep(p: Seid)
      requires Valid() && p in seps
      modifies this
      ensures Valid()
      ensures match old(seps[p].stream)
              case None => Now() == old(Now()).(g := old(View()).(seps := old(seps) - {p}))
              case Some(s) =>
                s in old(heap) && old(heap[s].lsep) == p
                && var dead := old(Now()).Dead(p, s);
                   Now() == dead.(g := dead.g.(seps := dead.g.seps - {p}))
    {
      assert View().SepOk(p);
      if seps[p].stream.Some? {
        ReleaseStream(seps[p].stream.value);
      }
      ghost var g := View();
      seps := seps - {p};
      g.WithoutSep(p);
    }

    /** avdtp_discover, once no discovery is under way */
    method Discover() returns (err: int)
      requires Valid()
      modifies this`req, this`transaction, this`armed, this`collided, this`prioQueue, this`reqQueue,
               this`nextTransaction, this`handed, this`discover
      ensures Valid() && discover
      ensures if old(discover) then Rejected(old(Now()), Now(), err)
              else if rseps != map[] then err == 0 && Now() == old(Now()).(discover := true)
              else Now() == old(Now()).(discover := true).Sent(false, Request(AVDTP_DISCOVER, 0, None), err == 0)
                   && err <= 0 && (old(req).Some? ==> err == 0)
    {
      if discover {
        return -16;
      }
      discover := true;
      if rseps != map[] {
        return 0;
      }
      err := SendRequest(false, None, AVDTP_DISCOVER, 0);
      old(View()).SameLinksLinked(View());
    }

    // -------------------------------------------------------------- whole runs

    /** A source runs though no field holds its id, and now it fires. `wild` says that its stream was freed, so that
        what follows is undefined. Otherwise the callback clears a field that may hold the id of another source: that
        one is lost in its turn. */
    method LostSourceFires(i: nat, invalid: bool) returns (wild: bool)
      requires Valid() && i < |sources.leaked|
      modifies this, sources`leaked
      ensures wild <==> old(sources.leaked[i]).s !in old(heap)
      ensures !wild ==> Valid()
    {
      var source := sources.leaked[i];
      var s := source.s;
      sources.leaked := sources.leaked[..i] + sources.leaked[i + 1..];
      if s !in heap {
        return true;
      }
      wild := false;
      match source {
        case Timer(Opening, _) =>
          sources.leaked := sources.leaked + TimerOf(heap[s], s);
          ghost var _ := StreamOpenTimeout(s);
        case Timer(Closing, _) =>
          sources.leaked := sources.leaked + TimerOf(heap[s], s);
          StreamCloseTimeout(s);
        case Watch(_) =>
          sources.leaked := sources.leaked + WatchOf(heap[s], s);
          TransportClosed(s, invalid);
      }
    }

    /** The event overwrites the id of a source that still runs, if it is carried out. */
    ghost predicate Overwrites(e: Event)
      reads this, sources`channel
    {
      (e.Command? && sources.channel && TimerLost(e.signal, e.payload, e.ind) != [])
      || (e.Transport? && pendingOpen == Some(e.s) && WatchLost(e.s) != [])
    }

    method StreamEvent(e: Event)
      requires Valid() && (e.OpenTimer? || e.CloseTimer? || e.StartTimer? || e.MediaClosed?)
      modifies this
      ensures Valid()
    {
      if e.s in heap {
        if e.OpenTimer? && heap[e.s].timer == Some(Opening) {
          ghost var _ := StreamOpenTimeout(e.s);
        } else if e.CloseTimer? && heap[e.s].timer == Some(Closing) {
          StreamCloseTimeout(e.s);
        } else if e.StartTimer? && heap[e.s].startTimer {
          var _ := StartTimeout(e.s);
        } else if e.MediaClosed? && heap[e.s].watched {
          TransportClosed(e.s, e.invalid);
        }
      }
    }

    method LocalCall(e: Event)
      requires Valid()
      requires e.CallDiscover? || e.CallSetConfiguration? || e.CallGetConfiguration? || e.CallOpen? || e.CallStart?
               || e.CallSuspend? || e.CallClose? || e.CallAbort? || e.CallDelayReport?
      modifies this
      ensures Valid()
    {
      match e {
        case CallDiscover => var _ := Discover();
        case CallSetConfiguration(d, p, delayReporting) =>
          if d in rseps && p in seps && seps[p].stream.None? {
            var _ := SetConfiguration(d, p, delayReporting);
          }
        case CallGetConfiguration(s) =>
          if s in heap {
            var _ := GetConfiguration(s);
          }
        case CallOpen(s) => var _ := Open(s);
        case CallStart(s) => var _ := Start(s);
        case CallSuspend(s) => var _ := Suspend(s);
        case CallClose(s, immediate) => var _ := Close(s, immediate);
        case CallAbort(s) => var _ := Abort(s);
        case CallDelayReport(s) => var _ := DelayReport(s);
      }
    }

    /** One event of a run; one that cannot happen now (a packet on a channel that is not watched, a timer that is not
        armed, a stream that is gone) changes nothing. `ok` is false when a lost source has fired for a freed stream. */
    method Handle(e: Event) returns (ok: bool)
      requires Valid()
      modifies this, sources
      ensures ok ==> Valid()
      ensures !ok ==> e.LostSource? && e.i < |old(sources.leaked)| && old(sources.leaked)[e.i].s !in old(heap)
      ensures !old(Overwrites(e)) && !(e.LostSource? && e.i < |old(sources.leaked)|) ==>
                sources.leaked == old(sources.leaked)
      ensures old(Overwrites(e)) && e.Command? && sources.channel ==> sources.leaked != []
      ensures old(sources.stuck) == None != sources.stuck ==>
                e.Response? && old(req).Some? && !ResponseTaken(e.kind, old(req).value.signal, |e.payload|)
    {
      ok := true;
      match e {
        case Command(signal, payload, ind, hasInd) =>
          if sources.channel {
            ghost var done;
            var alive, reply;
            alive, reply, done := CommandReceived(signal, payload, ind, hasInd);
          }
        case Response(tid, signal, kind, payload) =>
          if sources.channel {
            ghost var done;
            var alive;
            alive, done := ResponseReceived(tid, signal, kind, payload);
          }
        case HangUp =>
          if sources.channel {
            ChannelFailed();
          }
        case ChannelInvalid =>
          sources.channel := false;
        case RequestTimer =>
          if req.Some? && armed {
            RequestTimeout();
          }
        case Transport(s) => var _ := SetTransport(s);
        case Unregister(p) =>
          if p in seps {
            UnregisterSep(p);
          }
        case LostSource(i, invalid) =>
          if i < |sources.leaked| {
            var wild := LostSourceFires(i, invalid);
            ok := !wild;
          }
        case OpenTimer(_) => StreamEvent(e);
        case CloseTimer(_) => StreamEvent(e);
        case StartTimer(_) => StreamEvent(e);
        case MediaClosed(_, _) => StreamEvent(e);
        case CallDiscover => LocalCall(e);
        case CallSetConfiguration(_, _, _) => LocalCall(e);
        case CallGetConfiguration(_) => LocalCall(e);
        case CallOpen(_) => LocalCall(e);
        case CallStart(_) => LocalCall(e);
        case CallSuspend(_) => LocalCall(e);
        case CallClose(_, _) => LocalCall(e);
        case CallAbort(_) => LocalCall(e);
        case CallDelayReport(_) => LocalCall(e);
      }
    }

    /** Every run, also past the loss of the channel: the links hold after every event, and nothing that outlives a
        stream names it but a request that is stuck. As long as no event overwrites the id of a running source, every
        running source is the one its stream's field names, and the run is defined to its end. */
    method Run(es: seq<Event>) returns (n: nat, ok: bool, ghost clean: bool)
      requires Valid()
      modifies this, sources
      ensures n <= |es| && (ok ==> n == |es| && Valid())
      ensures old(sources.leaked) == [] && clean ==> ok && sources.leaked == []
      ensures !ok ==> n > 0 && es[n - 1].LostSource?
    {
      n, ok, clean := 0, true, true;
      while n < |es| && ok
        invariant n <= |es| && (ok ==> Valid())
        invariant old(sources.leaked) == [] && clean ==> ok && sources.leaked == []
        invariant !ok ==> n > 0 && es[n - 1].LostSource?
        decreases |es| - n
      {
        clean := clean && !Overwrites(es[n]);
        ok := Handle(es[n]);
        n := n + 1;
      }
    }

    /** The peer sends OPEN for the configured stream `s` of end point `p`. */
    method OpenArrives(p: Seid, s: StreamId) returns (alive: bool)
      requires Valid() && sources.channel
      requires p < 64 && p in seps && seps[p].state == CONFIGURED && seps[p].stream == Some(s) && s in heap
      modifies this, sources`leaked, sources`channel
      ensures Valid() && sources.channel == alive
      ensures alive ==> seps == old(seps) && s in heap && heap[s].timer == Some(Opening)
                        && sources.leaked == old(sources.leaked) + TimerOf(old(heap)[s], s)
    {
      var seid: byte := 4 * p;
      assert SeidOf(seid) == p;
      var reply;
      ghost var done;
      alive, reply, done := CommandReceived(AVDTP_OPEN, [seid], [], false);
      if alive && done.g.req.Some? && done.collided {
        done.MovesOnKeeps(Now());
      }
    }

    /** The peer sends OPEN twice for the configured stream of end point `p`, and hangs up: the first timer still runs,
        for a stream that has been freed. */
    method OpenTwice(p: Seid) returns (dangling: bool)
      requires Valid() && sources.channel && sources.leaked == []
      requires p < 64 && p in seps && seps[p].state == CONFIGURED && seps[p].stream.Some?
      requires View().StreamAt(p).timer.None?
      modifies this, sources
      ensures Valid()
      ensures dangling ==>
                |sources.leaked| == 1 && sources.leaked[0] == Timer(Opening, old(seps[p].stream.value))
                && sources.leaked[0].s !in heap
    {
      assert View().SepOk(p);
      ghost var s := seps[p].stream.value;
      var first := OpenArrives(p, seps[p].stream.value);
      if !first {
        return false;
      }
      var second := OpenArrives(p, seps[p].stream.value);
      if !second {
        return false;
      }
      ChannelFailed();
      return true;
    }

    /** The START of stream `s` is outstanding and the SUSPEND of `t` waits when the transport of `s` is closed; then
        CLOSE is asked for `t`. It goes out at once, and SUSPEND waits behind it. */
    method CloseOvertakesSuspend(s: StreamId, t: StreamId) returns (err: int)
      requires Valid() && s in heap && t in heap && s != t && heap[s].lsep != heap[t].lsep
      requires req == Some(Request(AVDTP_START, heap[s].rseid, Some(s))) && armed && !heap[s].abortInt
      requires prioQueue == [] && reqQueue == [Request(AVDTP_SUSPEND, heap[t].rseid, Some(t))]
      requires heap[t].lsep in seps && seps[heap[t].lsep].state == STREAMING
      requires !heap[t].closeInt && !heap[t].abortInt
      modifies this
      ensures Valid() && reqQueue == old(reqQueue)
      ensures req == if err == 0 then Some(Request(AVDTP_CLOSE, old(heap[t]).rseid, Some(t))) else None
    {
      TransportClosed(s, false);
      assert t in (heap - {s}) && heap[t] == old(heap[t]);
      NotForNone(old(reqQueue), s);
      err := Close(t, false);
    }
  }
}
