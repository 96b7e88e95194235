/** What the commands and responses of the peer do to an AVDTP session, as relations between its values before and
    after. */
module AvdtpEffects {
  import opened Common
  import opened AvdtpRequests
  import opened AvdtpGraph
  import Caps = AvdtpCaps

  /** The value of a session: the structs and their links, the labels, the collision mark of the outstanding request,
      version and discovery flag, and what has been handed to the socket. */
  datatype Snap = Snap(g: Graph, tid: nat, nextTid: nat, collided: bool, version: nat, discover: bool,
                       handed: seq<Handed>)
  {
    function Queue(): Engine<Request> {
      Engine(g.req, g.prioQueue, g.reqQueue)
    }

    function HandedOver(r: Request, taken: bool): Snap {
      var tried := this.(nextTid := (nextTid + 1) % 16, handed := handed + [Handed(Req(r), taken)]);
      if taken then tried.(g := g.(req := Some(r), armed := true), tid := nextTid, collided := false) else tried
    }

    /** send_req: the request waits behind an outstanding one, or is handed to the socket with the next label; one that
        is not taken is freed. */
    function Sent(priority: bool, r: Request, taken: bool): Snap {
      if g.req.Some? && priority then this.(g := g.(prioQueue := g.prioQueue + [r]))
      else if g.req.Some? then this.(g := g.(reqQueue := g.reqQueue + [r]))
      else HandedOver(r, taken)
    }

    /** send_request for a stream: one that is being aborted sends nothing but its ABORT. */
    function Asked(priority: bool, signal: nat, s: StreamId, taken: bool): Snap
      requires s in g.heap
    {
      if g.heap[s].abortInt && signal != AVDTP_ABORT then this
      else Sent(priority, Request(signal, g.heap[s].rseid, Some(s)), taken)
    }

    /** The outstanding request is freed. */
    function Freed(): Snap {
      this.(g := g.(req := None, armed := false))
    }

    /** process_queue when nothing is outstanding */
    function Dequeued(taken: bool): Snap {
      if g.prioQueue != [] then
        this.(g := g.(prioQueue := g.prioQueue[1..])).Sent(false, g.prioQueue[0], taken)
      else if g.reqQueue != [] then
        this.(g := g.(reqQueue := g.reqQueue[1..])).Sent(false, g.reqQueue[0], taken)
      else
        this
    }

    /** Some outcome of the end of session_cb: the outstanding request is freed and what waits first is sent. */
    ghost predicate MovesOnTo(now: Snap) {
      exists taken :: now == Freed().Dequeued(taken)
    }

    lemma SentNowLinked(r: Request, taken: bool)
      requires g.Linked() && g.req == None && g.Live(r.stream)
      ensures Sent(false, r, taken).g.Linked() && Sent(false, r, taken).g.ReqLive()
    {
      if taken {
        g.SameLinksLinked(g.(req := Some(r), armed := true));
      }
    }

    lemma DequeuedLinked(taken: bool)
      requires g.Linked() && g.req == None
      ensures Dequeued(taken).g.Linked() && Dequeued(taken).g.ReqLive()
    {
      if g.prioQueue != [] {
        g.SameLinksLinked(g.(prioQueue := g.prioQueue[1..]));
        this.(g := g.(prioQueue := g.prioQueue[1..])).SentNowLinked(g.prioQueue[0], taken);
      } else if g.reqQueue != [] {
        g.SameLinksLinked(g.(reqQueue := g.reqQueue[1..]));
        this.(g := g.(reqQueue := g.reqQueue[1..])).SentNowLinked(g.reqQueue[0], taken);
      }
    }

    lemma MovedOnLinked(taken: bool)
      requires g.Linked()
      ensures Freed().Dequeued(taken).g.Linked() && Freed().Dequeued(taken).g.ReqLive()
    {
      g.SameLinksLinked(Freed().g);
      Freed().DequeuedLinked(taken);
    }

    /** `now` differs in the outstanding request and the queues only. */
    predicate SameButQueues(now: Graph) {
      now == g.(req := now.req, armed := now.armed, prioQueue := now.prioQueue, reqQueue := now.reqQueue)
    }

    lemma DequeuedKeeps(taken: bool)
      requires g.req == None
      ensures SameButQueues(Dequeued(taken).g)
    {
    }

    lemma MovesOnKeeps(now: Snap)
      requires MovesOnTo(now)
      ensures SameButQueues(now.g)
    {
      var taken :| now == Freed().Dequeued(taken);
      Freed().DequeuedKeeps(taken);
    }

    /** The delay of stream `s` may be reported. */
    predicate Reportable(s: StreamId) {
      && s in g.heap && g.heap[s].lsep in g.seps && g.seps[g.heap[s].lsep].state in {CONFIGURED, STREAMING}
      && g.heap[s].delayReporting && version >= 0x0103
    }

    function Reported(s: StreamId, taken: bool): Snap {
      if Reportable(s) then Asked(true, AVDTP_DELAY_REPORT, s, taken) else this
    }

    /** avdtp_sep_set_state for a state other than IDLE: a sink that has been configured reports its delay. */
    function InState(p: Seid, s: StreamId, state: SepState, taken: bool): Snap
      requires p in g.seps && s in g.heap
    {
      var moved := this.(g := g.Moved(p, s, state));
      if state == CONFIGURED && g.seps[p].sink then moved.Reported(s, taken) else moved
    }

    /** avdtp_sep_set_state for IDLE: the stream dies; a request that goes with it has no timer any more. */
    function Dead(p: Seid, s: StreamId): Snap
      requires p in g.seps && s in g.heap && g.heap[s].lsep == p
    {
      var left := g.Retired(p, s);
      this.(g := left.(armed := g.armed && (g.req.Some? ==> left.req.Some?)))
    }

    /** avdtp_set_configuration: a new stream of end point `p`, for which the request has been made; if the socket does
        not take that the stream is freed again, and both end points lose whatever stream they had. */
    function Configuring(p: Seid, d: Seid, delay: bool, taken: bool): Snap
      requires p in g.seps && (g.req.Some? ==> taken)
    {
      var sent := Sent(false, Request(AVDTP_SET_CONFIGURATION, d, Some(g.nextStream)), taken);
      if taken then sent.(g := sent.g.Added(p, NewStream(p, d, delay), true))
      else sent.(g := g.Discarded(d).(seps := g.seps[p := g.seps[p].(stream := None, inuse := false)]))
    }

    lemma ConfiguringLinked(p: Seid, d: Seid, delay: bool, taken: bool)
      requires g.Linked() && g.ReqOk() && p in g.seps && (g.req.Some? ==> taken)
      ensures Configuring(p, d, delay, taken).g.Linked() <==> g.seps[p].stream.None?
      ensures g.seps[p].stream.None? ==> Configuring(p, d, delay, taken).g.ReqOk()
    {
      if taken {
        SetConfigurationSent(g, Configuring(p, d, delay, taken).g, p, NewStream(p, d, delay));
      } else {
        SetConfigurationFailed(g, Configuring(p, d, delay, taken).g, p, d);
      }
    }

    /** A request does not carry the label of the one before: a late response to that is not taken for its own. */
    lemma FreshLabel(priority: bool, r: Request, next: Request)
      requires g.req == None && nextTid < 16
      ensures var first := Sent(priority, r, true);
              var second := first.Freed().Sent(priority, next, true);
              && first.tid < 16 && second.tid < 16 && second.tid != first.tid
              && second.handed == handed + [Handed(Req(r), true), Handed(Req(next), true)]
    {
    }

    /** To the request engine these are its steps. */
    lemma EngineSteps(priority: bool, r: Request, taken: bool)
      ensures Sent(priority, r, taken).Queue() == Stepped(Queue(), Submit(priority, r, taken))
      ensures g.req.Some? ==> Freed().Dequeued(taken).Queue() == Stepped(Queue(), Done(taken))
      ensures Freed().Queue() == Stepped(Queue(), Dropped)
      ensures forall p, s :: p in g.seps && s in g.heap && g.heap[s].lsep == p ==>
                Dead(p, s).Queue() == Stepped(Queue(), Released(s, g.armed))
    {
    }
  }

  /** No stream is left, and no request. */
  predicate Disconnected(g: Graph) {
    && g.streams == [] && g.heap == map[] && g.req == None
    && forall p <- g.seps :: g.seps[p].state == IDLE && g.seps[p].stream == None
  }

  /** An ABORT for stream `s` has been handed to the socket in place of the outstanding request. If the socket took it,
      it is outstanding and the stream marked, and nothing else has changed; if not, the connection is lost. */
  ghost predicate AbortInPlace(was: Snap, now: Snap, s: StreamId, taken: bool)
    requires was.g.req.Some?
  {
    var g, r := was.g, was.g.req.value;
    && g.Target(r.seid, Some(s))
    && now.handed == was.handed + [Handed(Req(Request(AVDTP_ABORT, r.seid, Some(s))), taken)]
    && if !taken then Disconnected(now.g)
       else
         var stream := g.heap[s];
         && now.g == g.(req := Some(Request(AVDTP_ABORT, r.seid, Some(s))), armed := true,
                        heap := g.heap[s := stream.(abortInt := true,
                                                    starting := stream.starting && r.signal != AVDTP_START,
                                                    closeInt := stream.closeInt && r.signal != AVDTP_CLOSE)])
         && now == was.(g := now.g, tid := was.nextTid, nextTid := (was.nextTid + 1) % 16, collided := false,
                        handed := now.handed)
  }

  /** cancel_request has given up the outstanding request. */
  ghost predicate GivenUp(was: Snap, now: Snap)
    requires was.g.req.Some?
  {
    var r := was.g.req.value;
    if r.signal in {AVDTP_SET_CONFIGURATION, AVDTP_DISCOVER, AVDTP_GET_CAPABILITIES, AVDTP_ABORT} || r.seid == 0
       || was.g.Target(r.seid, None) then
      Disconnected(now.g) && now.handed == was.handed
    else
      exists s, taken :: AbortInPlace(was, now, s, taken)
  }

  // ---------------------------------------------------------------- local calls

  /** A call that is refused changes nothing. */
  predicate Rejected(was: Snap, now: Snap, err: int) {
    err < 0 && now == was
  }

  /** The request of a local call for stream `s`: an error means that the stream is being aborted, or that the socket
      did not take what it was handed. */
  predicate AskedFor(was: Snap, now: Snap, priority: bool, signal: nat, s: StreamId, err: int) {
    && s in was.g.heap && now == was.Asked(priority, signal, s, err == 0) && err <= 0
    && (was.g.heap[s].abortInt && signal != AVDTP_ABORT ==> err < 0)
    && (!(was.g.heap[s].abortInt && signal != AVDTP_ABORT) && was.g.req.Some? ==> err == 0)
  }

  /** The same, and with success the stream is marked so. */
  predicate AskedAndMarked(was: Snap, now: Snap, priority: bool, signal: nat, s: StreamId, marked: Stream, err: int) {
    AskedFor(was, now.(g := now.g.(heap := was.g.heap)), priority, signal, s, err)
    && now.g.heap == if err == 0 then was.g.heap[s := marked] else was.g.heap
  }

  /** avdtp_start for an open stream whose START nobody else is waiting for */
  predicate StartAsked(was: Snap, now: Snap, s: StreamId, err: int)
    requires s in was.g.heap
  {
    if was.g.heap[s].closeInt || was.g.heap[s].starting then Rejected(was, now, err)
    else AskedAndMarked(was, now, false, AVDTP_START, s, was.g.heap[s].(starting := true), err)
  }

  /** avdtp_abort */
  ghost predicate AbortAsked(was: Snap, now: Snap, s: StreamId, err: int) {
    var g := was.g;
    if s !in g.heap || g.heap[s].lsep !in g.seps || g.seps[g.heap[s].lsep].state == ABORTING then
      Rejected(was, now, err)
    else if g.req.Some? && g.armed && g.req.value.stream == Some(s) then
      GivenUp(was, now)
    else
      AskedAndMarked(was, now, true, AVDTP_ABORT, s, g.heap[s].(abortInt := true), err)
  }

  // ---------------------------------------------------------------- commands

  /** Nothing happens but that the reply is handed to the socket. */
  predicate Refused(was: Snap, now: Snap, signal: nat, verdict: Reply, handled: bool, reply: Reply) {
    reply == verdict && now == was.(handed := was.handed + [Handed(Rsp(signal, reply), handled)])
  }

  /** The command is too short: there is no reply. */
  predicate TooShort(was: Snap, now: Snap, handled: bool, reply: Reply) {
    !handled && reply == NoReply && now == was
  }

  /** An OPEN command is accepted: once the accept has gone out the transport of the stream is awaited, with a timer. */
  predicate OpenTaken(was: Snap, now: Snap, s: StreamId, handled: bool) {
    var g := was.g;
    && s in g.heap
    && now == was.(g := if !handled then g
                        else g.(pendingOpen := Some(s),
                                heap := g.heap[s := g.heap[s].(openAcp := true, timer := Some(Opening))]),
                   collided := was.collided || Collides(g.req, AVDTP_OPEN, g.heap[s].rseid),
                   handed := was.handed + [Handed(Rsp(AVDTP_OPEN, Accept), handled)])
  }

  /** avdtp_open_cmd */
  predicate OpenDone(was: Snap, now: Snap, payload: seq<byte>, ind: Option<nat>, handled: bool, reply: Reply) {
    if payload == [] then TooShort(was, now, handled, reply)
    else
      var p, g := SeidOf(payload[0]), was.g;
      if p !in g.seps then Refused(was, now, AVDTP_OPEN, Reject(p, BAD_ACP_SEID), handled, reply)
      else if g.seps[p].state != CONFIGURED then Refused(was, now, AVDTP_OPEN, Reject(p, BAD_STATE), handled, reply)
      else if ind.Some? then Refused(was, now, AVDTP_OPEN, Reject(p, ind.value), handled, reply)
      else
        reply == Accept && g.seps[p].stream.Some? && OpenTaken(was, now, g.seps[p].stream.value, handled)
  }

  /** A CLOSE command is accepted: the end point is closing, and once the accept has gone out the peer has to close the
      transport before a timer does. */
  predicate CloseTaken(was: Snap, now: Snap, p: Seid, s: StreamId, handled: bool) {
    var g := was.g;
    && p in g.seps && s in g.heap
    && var closing := g.heap[s].(startTimer := false);
       now == was.(g := g.(seps := g.seps[p := g.seps[p].(state := CLOSING)],
                           heap := g.heap[s := if handled then closing.(timer := Some(Closing)) else closing]),
                   collided := was.collided || Collides(g.req, AVDTP_CLOSE, g.heap[s].rseid),
                   handed := was.handed + [Handed(Rsp(AVDTP_CLOSE, Accept), handled)])
  }

  /** avdtp_close_cmd */
  predicate CloseDone(was: Snap, now: Snap, payload: seq<byte>, ind: Option<nat>, handled: bool, reply: Reply) {
    if payload == [] then TooShort(was, now, handled, reply)
    else
      var p, g := SeidOf(payload[0]), was.g;
      if p !in g.seps || g.seps[p].stream.None? then
        Refused(was, now, AVDTP_CLOSE, Reject(p, BAD_ACP_SEID), handled, reply)
      else if g.seps[p].state != OPEN && g.seps[p].state != STREAMING then
        Refused(was, now, AVDTP_CLOSE, Reject(p, BAD_STATE), handled, reply)
      else if ind.Some? then Refused(was, now, AVDTP_CLOSE, Reject(p, ind.value), handled, reply)
      else
        reply == Accept && CloseTaken(was, now, p, g.seps[p].stream.value, handled)
  }

  /** An ABORT command is accepted: once the accept has gone out the end point is aborting. */
  predicate AbortTaken(was: Snap, now: Snap, p: Seid, s: StreamId, handled: bool) {
    var g := was.g;
    && p in g.seps && s in g.heap
    && now == was.(g := if !handled then g
                        else g.(seps := g.seps[p := g.seps[p].(state := ABORTING)],
                                heap := g.heap[s := g.heap[s].(startTimer := false)]),
                   collided := was.collided || Collides(g.req, AVDTP_ABORT, g.heap[s].rseid),
                   handed := was.handed + [Handed(Rsp(AVDTP_ABORT, Accept), handled)])
  }

  /** avdtp_abort_cmd: silent when the end point has no stream */
  predicate AbortDone(was: Snap, now: Snap, payload: seq<byte>, handled: bool, reply: Reply) {
    if payload == [] then TooShort(was, now, handled, reply)
    else
      var p, g := SeidOf(payload[0]), was.g;
      if p !in g.seps || g.seps[p].stream.None? then handled && reply == NoReply && now == was
      else
        reply == Accept && AbortTaken(was, now, p, g.seps[p].stream.value, handled)
  }

  /** The streams after the end points `ids` have moved on, OPEN to STREAMING for START, back for SUSPEND. */
  function MovedHeap(heap: map<StreamId, Stream>, ids: seq<Seid>, cmd: nat): map<StreamId, Stream> {
    map s | s in heap ::
      if heap[s].lsep !in ids then heap[s]
      else if cmd == AVDTP_START then heap[s].(starting := true, startTimer := false, openAcp := false)
      else heap[s].(starting := false)
  }

  /** START marks the stream as starting before the indication callback is asked, also when that refuses. */
  function MarkedHeap(g: Graph, ids: seq<Seid>, n: nat, from: SepState, cmd: nat): map<StreamId, Stream>
    requires n <= |ids|
  {
    var heap := MovedHeap(g.heap, ids[..n], cmd);
    if cmd == AVDTP_START && n < |ids| && Movable(g.seps, ids, n, from) && g.seps[ids[n]].stream.value in heap then
      heap[g.seps[ids[n]].stream.value := heap[g.seps[ids[n]].stream.value].(starting := true)]
    else heap
  }

  /** The command crosses our request, for the stream of one of the end points. */
  ghost predicate Crossed(g: Graph, cmd: nat, ids: seq<Seid>) {
    exists s :: s in g.heap && g.heap[s].lsep in ids && Collides(g.req, cmd, g.heap[s].rseid)
  }

  /** The command and the states between which it takes an end point. */
  predicate Moves(cmd: nat, from: SepState, to: SepState) {
    (cmd, from, to) == (AVDTP_START, OPEN, STREAMING) || (cmd, from, to) == (AVDTP_SUSPEND, STREAMING, OPEN)
  }

  /** The session after the end points of the first `n` SEIDs have been moved. */
  ghost function AfterMoves(was: Snap, ids: seq<Seid>, n: nat, cmd: nat, to: SepState): Snap
    requires n <= |ids|
  {
    was.(g := was.g.(seps := MovedAll(was.g.seps, ids[..n], to), heap := MovedHeap(was.g.heap, ids[..n], cmd)),
         collided := was.collided || Crossed(was.g, cmd, ids[..n]))
  }

  lemma NoMoves(was: Snap, ids: seq<Seid>, cmd: nat, to: SepState)
    ensures AfterMoves(was, ids, 0, cmd, to) == was
  {
    assert ids[..0] == [];
    MovedNone(was.g.seps, to);
  }

  /** One round of the loop of avdtp_start_cmd and avdtp_suspend_cmd. */
  function OneMoved(was: Snap, cmd: nat, from: SepState, to: SepState, p: Seid, ind: Option<nat>): Snap {
    var g := was.g;
    if p !in g.seps || g.seps[p].stream.None? || g.seps[p].stream.value !in g.heap || g.seps[p].state != from then was
    else
      var s := g.seps[p].stream.value;
      var marked := if cmd == AVDTP_START then g.(heap := g.heap[s := g.heap[s].(starting := true)]) else g;
      if ind.Some? then was.(g := marked)
      else was.(g := marked.Moved(p, s, to), collided := was.collided || Collides(g.req, cmd, g.heap[s].rseid))
  }

  lemma HeapMore(g: Graph, ids: seq<Seid>, n: nat, cmd: nat, from: SepState, to: SepState)
    requires g.Linked() && n < |ids| && Moves(cmd, from, to) && Movable(g.seps, ids, n, from)
    ensures var s := g.seps[ids[n]].stream.value;
            && s in g.heap && MovedHeap(g.heap, ids[..n], cmd)[s] == g.heap[s]
            && MovedHeap(g.heap, ids[..n + 1], cmd)
               == MovedHeap(g.heap, ids[..n], cmd)[s := if cmd == AVDTP_START
                                                        then Entered(g.heap[s].(starting := true), to)
                                                        else Entered(g.heap[s], to)]
  {
    assert g.SepOk(ids[n]) && ids[..n + 1] == ids[..n] + [ids[n]];
    forall t | t in g.heap && g.heap[t].lsep == ids[n] ensures Some(t) == g.seps[ids[n]].stream {
      assert g.StreamOk(t);
    }
  }

  lemma CrossedMore(g: Graph, ids: seq<Seid>, n: nat, cmd: nat)
    requires g.Linked() && n < |ids| && ids[n] in g.seps && g.seps[ids[n]].stream.Some?
    ensures g.seps[ids[n]].stream.value in g.heap
    ensures Crossed(g, cmd, ids[..n + 1])
            <==> Crossed(g, cmd, ids[..n]) || Collides(g.req, cmd, g.heap[g.seps[ids[n]].stream.value].rseid)
  {
    var s := g.seps[ids[n]].stream.value;
    assert g.SepOk(ids[n]) && ids[..n + 1] == ids[..n] + [ids[n]];
    forall t | t in g.heap && g.heap[t].lsep == ids[n] ensures t == s {
      assert g.StreamOk(t);
    }
    if Crossed(g, cmd, ids[..n + 1]) {
      var t :| t in g.heap && g.heap[t].lsep in ids[..n + 1] && Collides(g.req, cmd, g.heap[t].rseid);
    }
  }

  lemma StillMovable(g: Graph, ids: seq<Seid>, n: nat, from: SepState, to: SepState, ind: seq<Option<nat>>)
    requires g.Linked() && n < |ids| && from != to && AllMovable(g.seps, ids, n, from, ind)
    requires ids[n] in g.seps && g.seps[ids[n]].stream.Some?
    ensures g.seps[ids[n]].stream.value in g.heap
    ensures MovedAll(g.seps, ids[..n], to)[ids[n]].state == from <==> Movable(g.seps, ids, n, from)
    ensures MovedAll(g.seps, ids[..n], to)[ids[n]].stream == g.seps[ids[n]].stream
  {
    assert g.SepOk(ids[n]);
  }

  lemma Overwritten<K, V>(m: map<K, V>, k: K, first: V, second: V)
    ensures m[k := first][k := second] == m[k := second]
  {
  }

  lemma OneMovedIs(mid: Snap, cmd: nat, from: SepState, to: SepState, p: Seid)
    requires p in mid.g.seps && mid.g.seps[p].stream.Some? && mid.g.seps[p].stream.value in mid.g.heap
    requires mid.g.seps[p].state == from
    ensures var s := mid.g.seps[p].stream.value;
            var stream := mid.g.heap[s];
            OneMoved(mid, cmd, from, to, p, None)
            == mid.(g := mid.g.(seps := mid.g.seps[p := mid.g.seps[p].(state := to)],
                                heap := mid.g.heap[s := Entered(if cmd == AVDTP_START then stream.(starting := true)
                                                                else stream, to)]),
                    collided := mid.collided || Collides(mid.g.req, cmd, stream.rseid))
  {
    var s := mid.g.seps[p].stream.value;
    Overwritten(mid.g.heap, s, mid.g.heap[s].(starting := true), Entered(mid.g.heap[s].(starting := true), to));
  }

  lemma MovesOn(was: Snap, ids: seq<Seid>, n: nat, cmd: nat, from: SepState, to: SepState, ind: seq<Option<nat>>)
    requires was.g.Linked() && n < |ids| && Moves(cmd, from, to) && AllMovable(was.g.seps, ids, n, from, ind)
    requires Movable(was.g.seps, ids, n, from) && Answer(ind, n).None?
    ensures OneMoved(AfterMoves(was, ids, n, cmd, to), cmd, from, to, ids[n], None)
            == AfterMoves(was, ids, n + 1, cmd, to)
  {
    var mid, s := AfterMoves(was, ids, n, cmd, to), was.g.seps[ids[n]].stream.value;
    MovedOneMore(was.g.seps, ids, n, from, to, ind);
    StillMovable(was.g, ids, n, from, to, ind);
    HeapMore(was.g, ids, n, cmd, from, to);
    CrossedMore(was.g, ids, n, cmd);
    OneMovedIs(mid, cmd, from, to, ids[n]);
  }

  lemma MovesStop(was: Snap, ids: seq<Seid>, n: nat, cmd: nat, from: SepState, to: SepState, ind: seq<Option<nat>>)
    requires was.g.Linked() && n < |ids| && Moves(cmd, from, to) && AllMovable(was.g.seps, ids, n, from, ind)
    requires !Movable(was.g.seps, ids, n, from) || Answer(ind, n).Some?
    ensures var mid := AfterMoves(was, ids, n, cmd, to);
            OneMoved(mid, cmd, from, to, ids[n], Answer(ind, n))
            == mid.(g := mid.g.(heap := MarkedHeap(was.g, ids, n, from, cmd)))
  {
    if ids[n] in was.g.seps && was.g.seps[ids[n]].stream.Some? {
      StillMovable(was.g, ids, n, from, to, ind);
    }
  }

  /** Each round takes the session one end point further, or marks it and stops. */
  lemma MovesMore(was: Snap, ids: seq<Seid>, n: nat, cmd: nat, from: SepState, to: SepState, ind: seq<Option<nat>>)
    requires was.g.Linked() && n < |ids| && Moves(cmd, from, to) && AllMovable(was.g.seps, ids, n, from, ind)
    ensures var mid := AfterMoves(was, ids, n, cmd, to);
            var now := OneMoved(mid, cmd, from, to, ids[n], Answer(ind, n));
            if Verdict(mid.g.seps, ids[n], from, Answer(ind, n)).None? then now == AfterMoves(was, ids, n + 1, cmd, to)
            else now == mid.(g := mid.g.(heap := MarkedHeap(was.g, ids, n, from, cmd)))
  {
    if ids[n] in was.g.seps && was.g.seps[ids[n]].stream.Some? {
      StillMovable(was.g, ids, n, from, to, ind);
    }
    if Movable(was.g.seps, ids, n, from) && Answer(ind, n).None? {
      MovesOn(was, ids, n, cmd, from, to, ind);
    } else {
      MovesStop(was, ids, n, cmd, from, to, ind);
    }
  }

  /** The first `n` SEIDs of START or SUSPEND, and no others, have been moved, and the next one is refused. */
  ghost predicate MovedBefore(was: Snap, now: Snap, n: nat, cmd: nat, from: SepState, to: SepState,
                              payload: seq<byte>, ind: seq<Option<nat>>, handled: bool, reply: Reply)
    requires n <= |payload|
  {
    var ids, g := Seids(payload), was.g;
    && AllMovable(g.seps, ids, n, from, ind)
    && (if n == |ids| then reply == Accept
        else reply.Reject? && reply.seid == ids[n] && Refusal(g.seps, ids, n, from, ind, reply.error))
    && now == was.(g := g.(seps := MovedAll(g.seps, ids[..n], to), heap := MarkedHeap(g, ids, n, from, cmd)),
                   collided := was.collided || Crossed(g, cmd, ids[..n]),
                   handed := was.handed + [Handed(Rsp(cmd, reply), handled)])
  }

  /** avdtp_start_cmd and avdtp_suspend_cmd */
  ghost predicate MoveDone(was: Snap, now: Snap, cmd: nat, from: SepState, to: SepState, payload: seq<byte>,
                           ind: seq<Option<nat>>, handled: bool, reply: Reply)
  {
    if payload == [] then TooShort(was, now, handled, reply)
    else
      && (reply == Accept <==> AllMovable(was.g.seps, Seids(payload), |payload|, from, ind))
      && exists n: nat :: n <= |payload| && MovedBefore(was, now, n, cmd, from, to, payload, ind, handled, reply)
  }

  /** START for one end point, with no indication callback: accepted exactly if the end point is open. */
  lemma StartAlone(was: Snap, now: Snap, payload: seq<byte>, handled: bool, reply: Reply)
    requires was.g.Linked() && |payload| == 1
    requires MoveDone(was, now, AVDTP_START, OPEN, STREAMING, payload, [], handled, reply)
    ensures var p := SeidOf(payload[0]);
            && (reply == Accept <==> was.g.Startable(p)) && (reply == Accept || reply.Reject?)
            && now == was.(g := was.g.AfterStart(p), collided := was.collided || was.g.StartCrosses(p),
                           handed := was.handed + [Handed(Rsp(AVDTP_START, reply), handled)])
  {
    var p, g, ids := SeidOf(payload[0]), was.g, Seids(payload);
    var n: nat :| n <= 1 && MovedBefore(was, now, n, AVDTP_START, OPEN, STREAMING, payload, [], handled, reply);
    assert ids[..0] == [] && ids[..1] == [p];
    SingleMovable(g.seps, ids, OPEN, []);
    assert p in g.seps ==> g.SepOk(p);
    NoMoves(was, ids, AVDTP_START, STREAMING);
    if n == 1 {
      assert Movable(g.seps, ids, 0, OPEN);
      MovesOn(was, ids, 0, AVDTP_START, OPEN, STREAMING, []);
    } else {
      assert !Movable(g.seps, ids, 0, OPEN);
    }
  }

  /** The capabilities of a Set Configuration request. */
  function CapsIn(payload: seq<byte>): seq<Caps.Cap>
    requires 2 <= |payload|
  {
    Caps.CapsOf(payload[2..])
  }

  /** How avdtp_setconf_cmd answers a request for an end point that exists and is not used. */
  function ConfigurationReply(payload: seq<byte>, hasInd: bool, refused: bool): Reply
    requires 2 <= |payload|
  {
    if Caps.BadTransport(CapsIn(payload)) then Reject(0, BAD_MEDIA_TRANSPORT_FORMAT)
    else if hasInd && refused then Reject(0, UNSUPPORTED_CONFIGURATION)
    else Accept
  }

  /** The accept has gone out: the stream hangs on its end point, which is CONFIGURED, and a sink whose stream is to
      report its delay does so. */
  function Linking(was: Snap, p: Seid, rseid: Seid, delay: bool, taken: bool): Snap
    requires p in was.g.seps
  {
    var g, n := was.g, was.g.nextStream;
    var linked := was.(g := g.(heap := g.heap[n := NewStream(p, rseid, delay)], nextStream := n + 1,
                               streams := g.streams + [n],
                               seps := g.seps[p := g.seps[p].(state := CONFIGURED, inuse := true, stream := Some(n))]));
    if g.seps[p].sink then linked.Reported(n, taken) else linked
  }

  lemma LinkingIs(was: Snap, p: Seid, rseid: Seid, delay: bool, taken: bool)
    requires p in was.g.seps
    ensures was.(g := was.g.Added(p, NewStream(p, rseid, delay), false)).InState(p, was.g.nextStream, CONFIGURED, taken)
            == Linking(was, p, rseid, delay, taken)
  {
    var g, n := was.g, was.g.nextStream;
    var moved := g.Added(p, NewStream(p, rseid, delay), false).Moved(p, n, CONFIGURED);
    assert moved.heap == g.heap[n := NewStream(p, rseid, delay)];
    assert moved.seps == g.seps[p := g.seps[p].(state := CONFIGURED, inuse := true, stream := Some(n))];
  }

  ghost predicate Linked(was: Snap, now: Snap, p: Seid, rseid: Seid, delay: bool)
    requires p in was.g.seps
  {
    exists taken :: now == Linking(was, p, rseid, delay, taken)
  }

  /** A Set Configuration command is accepted: if the socket takes the accept the stream is linked. */
  ghost predicate SetconfTaken(was: Snap, now: Snap, p: Seid, rseid: Seid, delay: bool, hasInd: bool, handled: bool) {
    p in was.g.seps &&
    exists taken ::
      var out := was.(handed := was.handed + [Handed(Rsp(AVDTP_SET_CONFIGURATION, Accept), taken)]);
      && handled == (taken || hasInd)
      && if taken then Linked(out, now, p, rseid, delay) else now == out.(g := was.g.Discarded(rseid))
  }

  /** The verdict on a Set Configuration command for an end point that exists and is not used. */
  ghost predicate SetconfAnswered(was: Snap, now: Snap, p: Seid, rseid: Seid, delay: bool, verdict: Reply, hasInd: bool,
                                  handled: bool, reply: Reply)
  {
    if verdict == Accept then reply == Accept && SetconfTaken(was, now, p, rseid, delay, hasInd, handled)
    else Refused(was.(g := was.g.Discarded(rseid)), now, AVDTP_SET_CONFIGURATION, verdict, handled, reply)
  }

  ghost predicate SetconfUnused(was: Snap, now: Snap, payload: seq<byte>, hasInd: bool, refused: bool, handled: bool,
                                reply: Reply)
    requires 2 <= |payload|
  {
    var caps := CapsIn(payload);
    var told := was.(version := if !Caps.BadTransport(caps) && Caps.HasDelay(caps) then Max(was.version, 0x0103)
                                else was.version);
    SetconfAnswered(told, now, SeidOf(payload[0]), SeidOf(payload[1]), Caps.HasDelay(caps),
                    ConfigurationReply(payload, hasInd, refused), hasInd, handled, reply)
  }

  /** avdtp_setconf_cmd. A stream that is not linked is freed again. An indication callback that accepts answers at once
      through setconf_cb. */
  ghost predicate SetconfDone(was: Snap, now: Snap, payload: seq<byte>, hasInd: bool, refused: bool, handled: bool,
                              reply: Reply)
  {
    if |payload| < 2 then TooShort(was, now, handled, reply)
    else
      var p, g := SeidOf(payload[0]), was.g;
      if p !in g.seps then Refused(was, now, AVDTP_SET_CONFIGURATION, Reject(0, BAD_ACP_SEID), handled, reply)
      else if g.seps[p].stream.Some? then
        Refused(was, now, AVDTP_SET_CONFIGURATION, Reject(0, SEP_IN_USE), handled, reply)
      else SetconfUnused(was, now, payload, hasInd, refused, handled, reply)
  }

  /** The commands that change nothing: only their reply goes out. */
  predicate OtherDone(was: Snap, now: Snap, signal: nat, payload: seq<byte>, handled: bool, reply: Reply) {
    if (signal == AVDTP_DELAY_REPORT && |payload| < 3) || (signal == AVDTP_GET_CONFIGURATION && |payload| < 1) then
      TooShort(was, now, handled, reply)
    else
      Refused(was, now, signal, Other, handled, reply)
  }

  /** avdtp_parse_cmd */
  ghost predicate CommandDone(was: Snap, now: Snap, signal: nat, payload: seq<byte>, ind: seq<Option<nat>>,
                              hasInd: bool, handled: bool, reply: Reply)
  {
    if signal == AVDTP_SET_CONFIGURATION then
      SetconfDone(was, now, payload, hasInd, Answer(ind, 0).Some?, handled, reply)
    else if signal == AVDTP_OPEN then OpenDone(was, now, payload, Answer(ind, 0), handled, reply)
    else if signal == AVDTP_START then MoveDone(was, now, AVDTP_START, OPEN, STREAMING, payload, ind, handled, reply)
    else if signal == AVDTP_SUSPEND then
      MoveDone(was, now, AVDTP_SUSPEND, STREAMING, OPEN, payload, ind, handled, reply)
    else if signal == AVDTP_CLOSE then CloseDone(was, now, payload, Answer(ind, 0), handled, reply)
    else if signal == AVDTP_ABORT then AbortDone(was, now, payload, handled, reply)
    else OtherDone(was, now, signal, payload, handled, reply)
  }

  // ---------------------------------------------------------------- responses

  /** The capabilities asked for when the first `n` entries of a Discover response have been read: of every remote end
      point that was known, is free or is used by one of our streams, once for each entry. */
  ghost function AsksFor(payload: seq<byte>, n: nat, g: Graph, getcap: nat): (asks: seq<Request>)
    requires n <= |payload| / 2
  {
    if n == 0 then []
    else
      var d := SeidOf(payload[2 * n - 2]);
      AsksFor(payload, n - 1, g, getcap)
      + if d in g.rseps || Learnt(payload, n, g.streams, g.heap, d) then [Request(getcap, d, None)] else []
  }

  /** The remote end points after the first `n` entries: those that were known or are learnt, and for each that was
      announced the stream of ours that uses it. */
  ghost predicate Discovered(payload: seq<byte>, n: nat, g: Graph, rseps: map<Seid, Option<StreamId>>)
    requires n <= |payload| / 2
  {
    && (forall d :: d in rseps <==> d in g.rseps || Learnt(payload, n, g.streams, g.heap, d))
    && (forall d <- rseps ::
          if exists i :: 0 <= i < n && Announces(payload, i, d) then g.Target(d, rseps[d])
          else d in g.rseps && rseps[d] == g.rseps[d])
  }

  lemma NothingDiscovered(payload: seq<byte>, g: Graph)
    ensures Discovered(payload, 0, g, g.rseps)
  {
  }

  lemma LearntMore(payload: seq<byte>, n: nat, g: Graph, d: Seid)
    requires n < |payload| / 2
    ensures Learnt(payload, n + 1, g.streams, g.heap, d)
            <==> Learnt(payload, n, g.streams, g.heap, d)
                 || (SeidOf(payload[2 * n]) == d && (FreeAt(payload, n) || HasStream(g.streams, g.heap, d)))
  {
    if SeidOf(payload[2 * n]) == d {
      assert Announces(payload, n, d);
    }
  }

  lemma DiscoveredMembers(payload: seq<byte>, n: nat, g: Graph, rseps: map<Seid, Option<StreamId>>, e: Seid)
    requires n < |payload| / 2 && Discovered(payload, n, g, rseps)
    ensures var d := SeidOf(payload[2 * n]);
            e in g.rseps || Learnt(payload, n + 1, g.streams, g.heap, e)
            <==> e in rseps || (e == d && (FreeAt(payload, n) || HasStream(g.streams, g.heap, d)))
  {
    LearntMore(payload, n, g, e);
  }

  lemma DiscoveredStreams(payload: seq<byte>, n: nat, g: Graph, rseps: map<Seid, Option<StreamId>>,
                          stream: Option<StreamId>, e: Seid)
    requires n < |payload| / 2 && Discovered(payload, n, g, rseps) && g.Target(SeidOf(payload[2 * n]), stream)
    requires e in rseps || e == SeidOf(payload[2 * n])
    ensures var now := if e == SeidOf(payload[2 * n]) then stream else rseps[e];
            if exists i :: 0 <= i < n + 1 && Announces(payload, i, e) then g.Target(e, now)
            else e in g.rseps && now == g.rseps[e]
  {
    if e == SeidOf(payload[2 * n]) {
      assert Announces(payload, n, e);
    } else if exists i :: 0 <= i < n + 1 && Announces(payload, i, e) {
      var i :| 0 <= i < n + 1 && Announces(payload, i, e);
      assert i < n;
    }
  }

  lemma TargetHasStream(g: Graph, d: Seid, found: Option<StreamId>)
    requires g.Linked() && g.Target(d, found)
    ensures found.Some? <==> HasStream(g.streams, g.heap, d)
  {
    if found.Some? {
      assert g.Listed(found.value);
    }
  }

  /** One more entry. */
  lemma DiscoveredMore(payload: seq<byte>, n: nat, g: Graph, rseps: map<Seid, Option<StreamId>>,
                       stream: Option<StreamId>)
    requires n < |payload| / 2 && g.Linked() && Discovered(payload, n, g, rseps)
    requires g.Target(SeidOf(payload[2 * n]), stream)
    ensures var d := SeidOf(payload[2 * n]);
            Discovered(payload, n + 1, g,
                       if d in rseps || FreeAt(payload, n) || stream.Some? then rseps[d := stream] else rseps)
  {
    var d := SeidOf(payload[2 * n]);
    TargetHasStream(g, d, stream);
    var now := if d in rseps || FreeAt(payload, n) || stream.Some? then rseps[d := stream] else rseps;
    forall e ensures e in now <==> e in g.rseps || Learnt(payload, n + 1, g.streams, g.heap, e) {
      DiscoveredMembers(payload, n, g, rseps, e);
    }
    forall e | e in now
      ensures if exists i :: 0 <= i < n + 1 && Announces(payload, i, e) then g.Target(e, now[e])
              else e in g.rseps && now[e] == g.rseps[e]
    {
      DiscoveredStreams(payload, n, g, rseps, stream, e);
    }
  }

  lemma AsksMore(payload: seq<byte>, n: nat, g: Graph, rseps: map<Seid, Option<StreamId>>, stream: Option<StreamId>,
                 getcap: nat)
    requires n < |payload| / 2 && g.Linked() && Discovered(payload, n, g, rseps)
    requires g.Target(SeidOf(payload[2 * n]), stream)
    ensures var d := SeidOf(payload[2 * n]);
            AsksFor(payload, n + 1, g, getcap)
            == AsksFor(payload, n, g, getcap)
               + if d in rseps || FreeAt(payload, n) || stream.Some? then [Request(getcap, d, None)] else []
  {
    TargetHasStream(g, SeidOf(payload[2 * n]), stream);
    DiscoveredMembers(payload, n, g, rseps, SeidOf(payload[2 * n]));
  }

  predicate AsksCapabilities(r: Request) {
    r.signal == AVDTP_GET_CAPABILITIES || r.signal == AVDTP_GET_ALL_CAPABILITIES
  }

  /** The next request asks for capabilities, too: the discovery goes on. */
  predicate DiscoveryGoesOn(g: Graph) {
    if g.prioQueue != [] then AsksCapabilities(g.prioQueue[0])
    else g.reqQueue != [] && AsksCapabilities(g.reqQueue[0])
  }

  /** The accept of a request for stream `s`: SET_CONFIGURATION takes its end point to CONFIGURED, START to STREAMING,
      SUSPEND to OPEN and CLOSE to CLOSING; after OPEN the transport of the stream is awaited; after ABORT the stream is
      gone, and its end point IDLE. */
  ghost predicate StreamAccepted(was: Snap, now: Snap, signal: nat, s: StreamId) {
    var g := was.g;
    && s in g.heap && g.heap[s].lsep in g.seps
    && var p, stream := g.heap[s].lsep, g.heap[s];
       if signal == AVDTP_SET_CONFIGURATION then
         var configured := was.(g := g.(seps := g.seps[p := g.seps[p].(state := CONFIGURED)]));
         now == if g.seps[p].sink && stream.delayReporting && was.version >= 0x0103 && !stream.abortInt then
                  configured.(g := configured.g.(prioQueue := g.prioQueue
                                                              + [Request(AVDTP_DELAY_REPORT, stream.rseid, Some(s))]))
                else configured
       else if signal == AVDTP_OPEN then
         now == was.(g := g.(pendingOpen := Some(s)))
       else if signal == AVDTP_START then
         now == if g.seps[p].state == STREAMING then was
                else was.(g := g.(seps := g.seps[p := g.seps[p].(state := STREAMING)],
                                  heap := g.heap[s := stream.(startTimer := false, openAcp := false)]))
       else if signal == AVDTP_SUSPEND then
         now == was.(g := g.(seps := g.seps[p := g.seps[p].(state := OPEN)],
                             heap := g.heap[s := stream.(starting := false)]))
       else if signal == AVDTP_CLOSE then
         now == was.(g := g.(seps := g.seps[p := g.seps[p].(state := CLOSING)],
                             heap := g.heap[s := stream.(startTimer := false, io := false)]))
       else if signal == AVDTP_ABORT then
         now == was.(g := g.(seps := g.seps[p := Sep(IDLE, None, false, g.seps[p].sink)], heap := g.heap - {s},
                             streams := Remove(g.streams, s), rseps := Unlinked(g.rseps, stream.rseid),
                             prioQueue := NotFor(g.prioQueue, s), reqQueue := NotFor(g.reqQueue, s),
                             pendingOpen := if g.pendingOpen == Some(s) then None else g.pendingOpen))
       else
         now == was
  }

  lemma ConfiguredIs(was: Snap, p: Seid, s: StreamId, taken: bool)
    requires was.g.req.Some? && s in was.g.heap && was.g.heap[s].lsep == p && p in was.g.seps
    ensures StreamAccepted(was, was.InState(p, s, CONFIGURED, taken), AVDTP_SET_CONFIGURATION, s)
  {
    assert was.g.heap[s := was.g.heap[s]] == was.g.heap;
  }

  lemma ClosedIs(was: Snap, p: Seid, s: StreamId, taken: bool)
    requires s in was.g.heap && was.g.heap[s].lsep == p && p in was.g.seps
    ensures var closing := was.InState(p, s, CLOSING, taken);
            && s in closing.g.heap
            && var heap := closing.g.heap[s := closing.g.heap[s].(io := false)];
               StreamAccepted(was, closing.(g := closing.g.(heap := heap)), AVDTP_CLOSE, s)
  {
    var stream := was.g.heap[s];
    Overwritten(was.g.heap, s, stream.(startTimer := false), stream.(startTimer := false, io := false));
  }

  lemma AbortedIs(was: Snap, p: Seid, s: StreamId)
    requires !was.g.armed && s in was.g.heap && was.g.heap[s].lsep == p && p in was.g.seps
    requires was.g.seps[p].stream == Some(s)
    ensures forall taken :: StreamAccepted(was, was.InState(p, s, ABORTING, taken).Dead(p, s), AVDTP_ABORT, s)
  {
    var aborting := was.g.Moved(p, s, ABORTING);
    assert aborting.heap - {s} == was.g.heap - {s};
    assert aborting.seps[p := Sep(IDLE, None, false, was.g.seps[p].sink)]
        == was.g.seps[p := Sep(IDLE, None, false, was.g.seps[p].sink)];
  }

  /** avdtp_parse_resp for the outstanding request, whose timer is stopped, when it takes the accept */
  ghost predicate AcceptDone(was: Snap, now: Snap, payload: seq<byte>)
    requires was.g.req.Some?
  {
    var g, r := was.g, was.g.req.value;
    if r.signal == AVDTP_DISCOVER then
      var asks := AsksFor(payload, |payload| / 2, g,
                          if was.version >= 0x0103 then AVDTP_GET_ALL_CAPABILITIES else AVDTP_GET_CAPABILITIES);
      && Discovered(payload, |payload| / 2, g, now.g.rseps)
      && now == was.(g := g.(rseps := now.g.rseps, prioQueue := g.prioQueue + asks),
                     discover := was.discover && asks != [])
    else if AsksCapabilities(r) then
      now == was.(discover := was.discover && DiscoveryGoesOn(g))
    else if r.stream.None? then now == was
    else StreamAccepted(was, now, r.signal, r.stream.value)
  }

  /** avdtp_parse_rej, when it takes the reject: a rejected START is not starting any more, a rejected CLOSE not
      closing, and a rejected discovery is over. */
  ghost predicate RejectDone(was: Snap, now: Snap)
    requires was.g.req.Some?
  {
    var g, r := was.g, was.g.req.value;
    if r.signal == AVDTP_DISCOVER || AsksCapabilities(r) then now == was.(discover := false)
    else if r.stream.Some? && r.signal == AVDTP_START then
      r.stream.value in g.heap
      && now == was.(g := g.(heap := g.heap[r.stream.value := g.heap[r.stream.value].(starting := false)]))
    else if r.stream.Some? && r.signal == AVDTP_CLOSE then
      r.stream.value in g.heap
      && now == was.(g := g.(heap := g.heap[r.stream.value := g.heap[r.stream.value].(closeInt := false)]))
    else now == was
  }

  /** The response that is taken has been parsed. */
  ghost predicate ResponseDone(was: Snap, now: Snap, kind: nat, payload: seq<byte>)
    requires was.g.req.Some?
  {
    var stopped := was.(g := was.g.(armed := false));
    if kind == MSG_ACCEPT then AcceptDone(stopped, now, payload)
    else if kind == MSG_REJECT then RejectDone(stopped, now)
    else now == stopped
  }

  /** Whatever the response says, the request is still there when it has been parsed. */
  lemma ResponseKeepsRequest(was: Snap, now: Snap, kind: nat, payload: seq<byte>)
    requires was.g.req.Some? && ResponseDone(was, now, kind, payload)
    ensures now.g.req == was.g.req
  {
  }

  /** The octets of the reject that the command handler of the signal sends; None when it sends no reject of its own. */
  function RejectOctets(signal: nat): Option<nat> {
    if signal in {AVDTP_DISCOVER, AVDTP_GET_CAPABILITIES, AVDTP_GET_ALL_CAPABILITIES, AVDTP_GET_CONFIGURATION,
                  AVDTP_OPEN, AVDTP_CLOSE, AVDTP_DELAY_REPORT} then Some(1)
    else if signal in {AVDTP_SET_CONFIGURATION, AVDTP_RECONFIGURE, AVDTP_START, AVDTP_SUSPEND} then Some(2)
    else None
  }

  /** The reject that one side sends is the shortest that the other takes, but for CLOSE and Delay Report, whose reject
      the other side never takes. */
  lemma RejectsReadBack(signal: nat, size: nat)
    ensures var sent := RejectOctets(signal);
            sent.Some? ==>
              if signal == AVDTP_CLOSE || signal == AVDTP_DELAY_REPORT then !RejectTaken(signal, sent.value)
              else RejectTaken(signal, size) <==> sent.value <= size
  {
  }
}
