/** The structs of an AVDTP session and the pointers between them, as values: what each operation does to them, and
    that it leaves them consistent.

    The C structs point at each other and are freed, so pointers are modelled as ids and the allocated
    streams as the map `heap`: a pointer dangles exactly when its id is not in `heap`. */
module AvdtpGraph {
  import opened Common
  import opened AvdtpRequests

  const AVDTP_DISCOVER := 0x01
  const AVDTP_GET_CAPABILITIES := 0x02
  const AVDTP_SET_CONFIGURATION := 0x03
  const AVDTP_GET_CONFIGURATION := 0x04
  const AVDTP_RECONFIGURE := 0x05
  const AVDTP_OPEN := 0x06
  const AVDTP_START := 0x07
  const AVDTP_CLOSE := 0x08
  const AVDTP_SUSPEND := 0x09
  const AVDTP_GET_ALL_CAPABILITIES := 0x0C
  const AVDTP_DELAY_REPORT := 0x0D

  const BAD_ACP_SEID := 0x12
  const SEP_IN_USE := 0x13
  const BAD_MEDIA_TRANSPORT_FORMAT := 0x23
  const UNSUPPORTED_CONFIGURATION := 0x29
  const BAD_STATE := 0x31

  datatype SepState = IDLE | CONFIGURED | OPEN | STREAMING | CLOSING | ABORTING

  /** The order of avdtp_state_t. */
  function Rank(s: SepState): nat {
    match s
    case IDLE => 0 case CONFIGURED => 1 case OPEN => 2 case STREAMING => 3 case CLOSING => 4 case ABORTING => 5
  }

  /** Local end points are named by their SEID, which avdtp_register_sep makes unique. */
  type Seid = nat

  /** What a timeout source of a stream calls: stream_open_timeout or stream_close_timeout. */
  datatype TimerKind = Opening | Closing

  /** struct avdtp_stream. A field that holds the id of a source (`timer`, `start_timer`, `io_id`) is modelled by
      whether it is set, `timer` also by what its source calls. */
  datatype Stream = Stream(lsep: Seid, rseid: Seid, io: bool, watched: bool, timer: Option<TimerKind>,
                           startTimer: bool, openAcp: bool, closeInt: bool, abortInt: bool, starting: bool,
                           delayReporting: bool)

  /** g_new0: no transport, no sources, no flags. */
  function NewStream(p: Seid, rseid: Seid, delay: bool): (stream: Stream)
    ensures !stream.io && !stream.watched && stream.timer.None? && !stream.startTimer && !stream.openAcp
    ensures !stream.closeInt && !stream.abortInt && !stream.starting
  {
    Stream(p, rseid, false, false, None, false, false, false, false, false, delay)
  }

  /** A source that runs but whose id no field of its stream holds any more. */
  datatype Source = Timer(kind: TimerKind, s: StreamId) | Watch(s: StreamId)

  /** What is lost when the id of the running timer or of the running watch of stream `s` is overwritten. */
  function TimerOf(stream: Stream, s: StreamId): seq<Source> {
    if stream.timer.Some? then [Timer(stream.timer.value, s)] else []
  }

  function WatchOf(stream: Stream, s: StreamId): seq<Source> {
    if stream.watched then [Watch(s)] else []
  }

  /** struct avdtp_local_sep */
  datatype Sep = Sep(state: SepState, stream: Option<StreamId>, inuse: bool, sink: bool)

  /** `Other` is the reply to a command that changes nothing; its contents are not modelled. */
  datatype Reply = NoReply | Accept | Other | Reject(seid: Seid, error: nat)

  /** What is handed to the socket: a request of ours, or the response to a command of the peer. */
  datatype Packet = Req(r: Request) | Rsp(signal: nat, reply: Reply)

  /** A packet, and whether the socket took it. */
  datatype Handed = Handed(packet: Packet, taken: bool)

  /** The SEID is in the upper six bits of its octet. */
  function SeidOf(b: byte): (seid: Seid)
    ensures 4 * seid <= b < 4 * seid + 4
  {
    b / 4
  }

  // ---------------------------------------------------------------- lists

  lemma {:induction false} NotForMembers(q: seq<Request>, s: StreamId)
    ensures forall r :: r in NotFor(q, s) <==> r in q && r.stream != Some(s)
  {
    if q == [] {
    } else {
      NotForMembers(q[1..], s);
      assert q == [q[0]] + q[1..];
    }
  }

  lemma {:induction false} NotForNone(q: seq<Request>, s: StreamId)
    requires forall r <- q :: r.stream != Some(s)
    ensures NotFor(q, s) == q
  {
    if q == [] {
    } else {
      NotForNone(q[1..], s);
    }
  }

  lemma {:induction false} NotForSkip(a: seq<Request>, r: Request, b: seq<Request>, s: StreamId)
    requires r.stream == Some(s)
    ensures NotFor(a + [r] + b, s) == NotFor(a + b, s)
  {
    if a == [] {
      assert [] + [r] + b == [r] + b && ([r] + b)[1..] == b && [] + b == b;
    } else {
      NotForSkip(a[1..], r, b, s);
      assert (a + [r] + b)[1..] == a[1..] + [r] + b && (a + b)[1..] == a[1..] + b;
    }
  }

  /** One queue's share of cleanup_queue: the first match is unlinked until there is none. */
  method CleanupList(q: seq<Request>, s: StreamId) returns (left: seq<Request>)
    ensures left == NotFor(q, s)
  {
    left := q;
    var i := 0;
    while i < |left|
      invariant 0 <= i <= |left|
      invariant NotFor(left, s) == NotFor(q, s)
      invariant forall r <- left[..i] :: r.stream != Some(s)
      decreases |left|, |left| - i
    {
      if left[i].stream == Some(s) {
        NotForSkip(left[..i], left[i], left[i + 1..], s);
        assert left[..i] + [left[i]] + left[i + 1..] == left;
        ghost var head := left[..i];
        left := left[..i] + left[i + 1..];
        i := 0;
      } else {
        assert left[..i + 1] == left[..i] + [left[i]];
        i := i + 1;
      }
    }
    assert left[..i] == left;
    NotForNone(left, s);
  }

  /** The requests of a queue that name no stream, in order. */
  function Streamless(q: seq<Request>): seq<Request> {
    if q == [] then [] else (if q[0].stream.None? then [q[0]] else []) + Streamless(q[1..])
  }

  lemma {:induction false} StreamlessNotFor(q: seq<Request>, s: StreamId)
    ensures Streamless(NotFor(q, s)) == Streamless(q)
  {
    if q == [] {
    } else {
      StreamlessNotFor(q[1..], s);
      if q[0].stream != Some(s) {
        assert ([q[0]] + NotFor(q[1..], s))[1..] == NotFor(q[1..], s);
      } else {
        assert NotFor(q, s) == NotFor(q[1..], s);
      }
    }
  }

  lemma {:induction false} AllStreamless(q: seq<Request>)
    requires forall r <- q :: r.stream.None?
    ensures Streamless(q) == q
  {
    if q == [] {
    } else {
      AllStreamless(q[1..]);
    }
  }

  function Unlinked(rseps: map<Seid, Option<StreamId>>, d: Seid): map<Seid, Option<StreamId>> {
    if d in rseps then rseps[d := None] else rseps
  }

  /** What connection_lost leaves of an outstanding request that still has its timer. */
  function AfterLoss(req: Option<Request>, dead: seq<StreamId>): Option<Request> {
    if req.Some? && req.value.stream.Some? && req.value.stream.value in dead then
      if req.value.signal == AVDTP_ABORT then Some(req.value.(stream := None)) else None
    else
      req
  }

  /** What avdtp_sep_set_state does to the stream when its end point enters `state`. */
  function Entered(stream: Stream, state: SepState): Stream {
    match state
    case OPEN => stream.(starting := false)
    case STREAMING => stream.(startTimer := false, openAcp := false)
    case CLOSING => stream.(startTimer := false)
    case ABORTING => stream.(startTimer := false)
    case _ => stream
  }

  // ---------------------------------------------------------------- the links between the structs

  /** avdtp_check_collision: the peer's command `cmd` for the stream of remote end point `rseid` crosses the
      outstanding request. */
  predicate Collides(req: Option<Request>, cmd: nat, rseid: Seid) {
    req.Some? && (req.value.signal == cmd || cmd == AVDTP_ABORT)
    && req.value.signal in {AVDTP_OPEN, AVDTP_CLOSE, AVDTP_START, AVDTP_SUSPEND} && req.value.seid == rseid
  }

  /** Every field of a session that holds or could hold a pointer to a stream. `stuck` is the freed stream that the
      outstanding request still names after a response to it has been refused. */
  datatype Graph = Graph(heap: map<StreamId, Stream>, nextStream: StreamId, streams: seq<StreamId>,
                         seps: map<Seid, Sep>, rseps: map<Seid, Option<StreamId>>,
                         req: Option<Request>, armed: bool, prioQueue: seq<Request>, reqQueue: seq<Request>,
                         pendingOpen: Option<StreamId>, stuck: Option<StreamId>)
  {
    ghost predicate Live(s: Option<StreamId>) {
      s.Some? ==> s.value in heap
    }

    ghost predicate SepOk(p: Seid)
      requires p in seps
    {
      match seps[p].stream
      case None => seps[p].state == IDLE && !seps[p].inuse
      case Some(s) => seps[p].inuse && s in heap && heap[s].lsep == p
    }

    ghost predicate StreamOk(s: StreamId)
      requires s in heap
    {
      s < nextStream && heap[s].lsep in seps && seps[heap[s].lsep].stream == Some(s)
    }

    ghost predicate RsepOk(d: Seid)
      requires d in rseps
    {
      rseps[d].Some? ==> rseps[d].value in heap && heap[rseps[d].value].rseid == d
    }

    ghost predicate QueueOk(q: seq<Request>) {
      forall r <- q :: Live(r.stream)
    }

    /** The stream of end point `p`. */
    function StreamAt(p: Seid): Stream {
      if p in seps && seps[p].stream.Some? && seps[p].stream.value in heap then heap[seps[p].stream.value]
      else NewStream(p, 0, false)
    }

    ghost predicate Listed(s: StreamId) {
      s in streams <==> s in heap
    }

    /** The first stream of the session with the remote SEID, or none has it. */
    ghost predicate Target(seid: Seid, found: Option<StreamId>) {
      match found
      case None => forall s <- streams :: s in heap && heap[s].rseid != seid
      case Some(s) =>
        s in heap && heap[s].rseid == seid
        && exists k :: 0 <= k < |streams| && streams[k] == s
                       && forall j :: 0 <= j < k ==> streams[j] in heap && heap[streams[j]].rseid != seid
    }

    /** Streams, end points and everything that names a stream agree. */
    ghost predicate Linked() {
      && NoDup(streams)
      && (forall s {:trigger Listed(s)} :: Listed(s))
      && (forall s {:trigger StreamOk(s)} :: s in heap ==> StreamOk(s))
      && (forall p {:trigger SepOk(p)} :: p in seps ==> SepOk(p))
      && (forall d {:trigger RsepOk(d)} :: d in rseps ==> RsepOk(d))
      && Live(pendingOpen) && QueueOk(prioQueue) && QueueOk(reqQueue)
    }

    /** The outstanding request names no freed stream, and one that names a stream still has its timer. */
    ghost predicate ReqLive() {
      req.Some? && req.value.stream.Some? ==> armed && req.value.stream.value in heap
    }

    /** Either that, or it is stuck: its timer is stopped, and the stream it names was freed with the channel. */
    ghost predicate ReqOk() {
      ReqLive() || (req.value.stream == stuck && !armed && stuck.value !in heap && stuck.value < nextStream)
    }

    function Freed(s: StreamId): Graph
      requires s in heap && heap[s].lsep in seps
    {
      this.(heap := heap - {s},
            seps := seps[heap[s].lsep := seps[heap[s].lsep].(stream := None, inuse := false)],
            rseps := Unlinked(rseps, heap[s].rseid))
    }

    /** Stream `s` of end point `p` is dead: nothing names it any more, except a request in process. */
    function Retired(p: Seid, s: StreamId): Graph
      requires s in heap && p in seps && heap[s].lsep == p
    {
      Freed(s).(streams := Remove(streams, s),
                seps := seps[p := Sep(IDLE, None, false, seps[p].sink)],
                req := Unanswered(req, armed, s),
                prioQueue := NotFor(prioQueue, s), reqQueue := NotFor(reqQueue, s),
                pendingOpen := if pendingOpen == Some(s) then None else pendingOpen)
    }

    lemma RetiredStreams(p: Seid, s: StreamId)
      requires Linked() && p in seps && seps[p].stream == Some(s)
      ensures s in heap && heap[s].lsep == p
      ensures var g := Retired(p, s);
              NoDup(g.streams) && (forall t {:trigger g.Listed(t)} :: g.Listed(t))
              && (forall t {:trigger g.StreamOk(t)} :: t in g.heap ==> g.StreamOk(t))
    {
      assert SepOk(p);
      RemoveSpec(streams, s);
      forall t ensures Retired(p, s).Listed(t) {
        assert Listed(t);
      }
      forall t | t in Retired(p, s).heap ensures Retired(p, s).StreamOk(t) {
        assert StreamOk(t);
      }
    }

    lemma RetiredSeps(p: Seid, s: StreamId)
      requires Linked() && p in seps && seps[p].stream == Some(s)
      ensures s in heap && heap[s].lsep == p
      ensures var g := Retired(p, s); forall q {:trigger g.SepOk(q)} :: q in g.seps ==> g.SepOk(q)
    {
      assert SepOk(p);
      forall q | q in Retired(p, s).seps ensures Retired(p, s).SepOk(q) {
        assert SepOk(q);
      }
    }

    lemma RetiredRseps(p: Seid, s: StreamId)
      requires Linked() && p in seps && seps[p].stream == Some(s)
      ensures s in heap && heap[s].lsep == p
      ensures var g := Retired(p, s); forall d {:trigger g.RsepOk(d)} :: d in g.rseps ==> g.RsepOk(d)
    {
      assert SepOk(p);
      forall d | d in Retired(p, s).rseps ensures Retired(p, s).RsepOk(d) {
        assert RsepOk(d);
      }
    }

    lemma RetiredQueues(p: Seid, s: StreamId)
      requires Linked() && p in seps && seps[p].stream == Some(s)
      ensures s in heap && heap[s].lsep == p
      ensures var g := Retired(p, s); g.Live(g.pendingOpen) && g.QueueOk(g.prioQueue) && g.QueueOk(g.reqQueue)
      ensures ReqOk() ==> Retired(p, s).ReqOk()
    {
      assert SepOk(p);
      NotForMembers(prioQueue, s);
      NotForMembers(reqQueue, s);
    }

    /** Retiring a stream leaves no dangling pointer behind. */
    lemma RetiredLinked(p: Seid, s: StreamId)
      requires Linked() && p in seps && seps[p].stream == Some(s)
      ensures s in heap && heap[s].lsep == p && Retired(p, s).Linked()
      ensures ReqOk() ==> Retired(p, s).ReqOk()
    {
      RetiredStreams(p, s);
      RetiredSeps(p, s);
      RetiredRseps(p, s);
      RetiredQueues(p, s);
    }

    ghost predicate SameStream(g: Graph, s: StreamId)
      requires s in heap && s in g.heap
    {
      g.heap[s].lsep == heap[s].lsep && g.heap[s].rseid == heap[s].rseid
    }

    ghost predicate SameSep(g: Graph, p: Seid)
      requires p in seps && p in g.seps
    {
      && g.seps[p].stream == seps[p].stream && g.seps[p].inuse == seps[p].inuse && g.seps[p].sink == seps[p].sink
      && (seps[p].stream.None? ==> g.seps[p].state == seps[p].state)
    }

    /** `g` has the same streams hanging on the same end points; only their states and flags differ. */
    ghost predicate SameLinks(g: Graph) {
      && g.streams == streams && g.nextStream == nextStream && g.rseps == rseps && g.stuck == stuck
      && g.heap.Keys == heap.Keys && g.seps.Keys == seps.Keys
      && (forall s {:trigger SameStream(g, s)} :: s in heap ==> SameStream(g, s))
      && (forall p {:trigger SameSep(g, p)} :: p in seps ==> SameSep(g, p))
    }

    lemma SameLinksLinked(g: Graph)
      requires Linked() && SameLinks(g)
      requires g.Live(g.pendingOpen) && g.QueueOk(g.prioQueue) && g.QueueOk(g.reqQueue)
      ensures g.Linked()
    {
      forall s ensures g.Listed(s) {
        assert Listed(s);
      }
      forall s | s in g.heap ensures g.StreamOk(s) {
        assert StreamOk(s) && SameStream(g, s) && SameSep(g, heap[s].lsep);
      }
      forall p | p in g.seps ensures g.SepOk(p) {
        assert SepOk(p) && SameSep(g, p);
        assert seps[p].stream.Some? ==> SameStream(g, seps[p].stream.value);
      }
      forall d | d in g.rseps ensures g.RsepOk(d) {
        assert RsepOk(d);
        assert rseps[d].Some? ==> SameStream(g, rseps[d].value);
      }
    }

    /** Flags and timers of a stream are no links. */
    lemma FlagsLinked(s: StreamId, stream: Stream)
      requires Linked() && s in heap && stream.lsep == heap[s].lsep && stream.rseid == heap[s].rseid
      ensures var g := this.(heap := heap[s := stream]);
              SameLinks(g) && g.Linked() && (ReqOk() ==> g.ReqOk())
    {
      SameLinksLinked(this.(heap := heap[s := stream]));
    }

    /** `g` is this graph after connection_lost has released the first `i` streams. */
    ghost predicate Losing(g: Graph, i: nat)
      requires i <= |streams|
    {
      && g.streams == streams[i..] && g.nextStream == nextStream && g.stuck == stuck
      && g.seps.Keys == seps.Keys && (forall p <- seps :: g.seps[p].sink == seps[p].sink)
      && Streamless(g.prioQueue) == Streamless(prioQueue) && Streamless(g.reqQueue) == Streamless(reqQueue)
      && (if armed then g.req == AfterLoss(req, streams[..i]) && (g.req.Some? ==> g.armed)
          else g.req == req && (g.req.Some? ==> !g.armed))
    }

    lemma LosingLists(g: Graph, i: nat)
      requires i < |streams| && g.streams == streams[i..] && NoDup(streams)
      ensures Remove(g.streams, streams[i]) == streams[i + 1..]
      ensures streams[..i + 1] == streams[..i] + [streams[i]] && streams[i] !in streams[..i]
    {
      assert g.streams[0] == streams[i] && g.streams[1..] == streams[i + 1..];
    }

    lemma LosingStep(g: Graph, i: nat, nextArmed: bool)
      requires i < |streams| && NoDup(streams) && Losing(g, i) && g.Linked()
      ensures var s := streams[i];
              && s in g.heap && g.heap[s].lsep in g.seps
              && var next := g.Retired(g.heap[s].lsep, s).(armed := nextArmed);
                 (next.req.Some? ==> nextArmed == g.armed) ==> Losing(next, i + 1)
    {
      var s := streams[i];
      assert g.streams[0] == s;
      assert g.Listed(s) && g.StreamOk(s);
      StreamlessNotFor(g.prioQueue, s);
      StreamlessNotFor(g.reqQueue, s);
      LosingLists(g, i);
    }

    lemma LosingDone(g: Graph)
      requires Losing(g, |streams|) && g.Linked()
      ensures g.streams == [] && g.heap == map[] && g.pendingOpen == None
      ensures g.nextStream == nextStream && g.stuck == stuck
      ensures g.seps.Keys == seps.Keys && forall p <- seps :: g.seps[p] == Sep(IDLE, None, false, seps[p].sink)
      ensures g.prioQueue == Streamless(prioQueue) && g.reqQueue == Streamless(reqQueue)
      ensures if armed then g.req == AfterLoss(req, streams) && (g.req.Some? ==> g.armed)
              else g.req == req && (g.req.Some? ==> !g.armed)
    {
      assert streams[..|streams|] == streams;
      forall s ensures s !in g.heap {
        assert g.Listed(s);
      }
      forall p <- seps ensures g.seps[p] == Sep(IDLE, None, false, seps[p].sink) {
        assert g.SepOk(p);
      }
      AllStreamless(g.prioQueue);
      AllStreamless(g.reqQueue);
    }

    /** A new stream hangs on the unused end point `p`; `remote` also learns of it on the initiating side. */
    function Added(p: Seid, stream: Stream, remote: bool): Graph
      requires p in seps
    {
      this.(heap := heap[nextStream := stream], nextStream := nextStream + 1, streams := streams + [nextStream],
            seps := seps[p := seps[p].(stream := Some(nextStream), inuse := true)],
            rseps := if remote then rseps[stream.rseid := Some(nextStream)] else rseps)
    }

    lemma AddedLinked(p: Seid, stream: Stream, remote: bool)
      requires Linked() && p in seps && seps[p].stream.None? && stream.lsep == p
      ensures nextStream !in heap && Added(p, stream, remote).Linked()
      ensures ReqOk() ==> Added(p, stream, remote).ReqOk()
    {
      var g := Added(p, stream, remote);
      assert nextStream in heap ==> StreamOk(nextStream);
      assert Listed(nextStream);
      forall t ensures g.Listed(t) {
        assert Listed(t);
      }
      forall t | t in g.heap ensures g.StreamOk(t) {
        if t in heap {
          assert StreamOk(t);
        }
      }
      forall q | q in g.seps ensures g.SepOk(q) {
        assert SepOk(q);
      }
      forall d | d in g.rseps ensures g.RsepOk(d) {
        if d in rseps {
          assert RsepOk(d);
        }
      }
    }

    lemma RsepsLinked(now: map<Seid, Option<StreamId>>, d: Seid)
      requires Linked() && d in now && now == rseps[d := now[d]]
      requires now[d].Some? ==> now[d].value in heap && heap[now[d].value].rseid == d
      ensures this.(rseps := now).Linked()
    {
      var g := this.(rseps := now);
      forall t ensures g.Listed(t) {
        assert Listed(t);
      }
      forall t | t in g.heap ensures g.StreamOk(t) {
        assert StreamOk(t);
      }
      forall q | q in g.seps ensures g.SepOk(q) {
        assert SepOk(q);
      }
      forall e | e in g.rseps ensures g.RsepOk(e) {
        if e != d {
          assert RsepOk(e);
        }
      }
    }

    /** A stream that was never linked is freed: its remote end point loses its stream all the same. */
    function Discarded(rseid: Seid): Graph {
      this.(rseps := Unlinked(rseps, rseid))
    }

    lemma DiscardedLinked(rseid: Seid)
      requires Linked()
      ensures Discarded(rseid).Linked() && (ReqOk() ==> Discarded(rseid).ReqOk())
    {
      var g := Discarded(rseid);
      forall t ensures g.Listed(t) {
        assert Listed(t);
      }
      forall t | t in g.heap ensures g.StreamOk(t) {
        assert StreamOk(t);
      }
      forall q | q in g.seps ensures g.SepOk(q) {
        assert SepOk(q);
      }
      forall d | d in g.rseps ensures g.RsepOk(d) {
        assert RsepOk(d);
      }
    }

    lemma WithoutSep(p: Seid)
      requires Linked() && p in seps && seps[p].stream.None?
      ensures this.(seps := seps - {p}).Linked()
    {
      var g := this.(seps := seps - {p});
      forall t ensures g.Listed(t) {
        assert Listed(t);
      }
      forall t | t in g.heap ensures g.StreamOk(t) {
        assert StreamOk(t);
      }
      forall q | q in g.seps ensures g.SepOk(q) {
        assert SepOk(q);
      }
      forall d | d in g.rseps ensures g.RsepOk(d) {
        assert RsepOk(d);
      }
    }

    /** Only the mark of the stuck request differs. */
    lemma SameButStuck(g: Graph)
      requires Linked() && g == this.(stuck := g.stuck)
      ensures g.Linked()
    {
      forall t ensures g.Listed(t) {
        assert Listed(t);
      }
      forall t | t in g.heap ensures g.StreamOk(t) {
        assert StreamOk(t);
      }
      forall q | q in g.seps ensures g.SepOk(q) {
        assert SepOk(q);
      }
      forall d | d in g.rseps ensures g.RsepOk(d) {
        assert RsepOk(d);
      }
    }

    lemma ArmedIrrelevant(armed: bool)
      requires Linked()
      ensures this.(armed := armed).Linked()
    {
      SameLinksLinked(this.(armed := armed));
    }

    /** End point `p` enters `state` (not IDLE) with its stream `s`. */
    function Moved(p: Seid, s: StreamId, state: SepState): Graph
      requires p in seps && s in heap
    {
      this.(seps := seps[p := seps[p].(state := state)], heap := heap[s := Entered(heap[s], state)])
    }

    /** A START command for the end point `p` alone has been accepted. */
    function Started(p: Seid): Graph
      requires p in seps && seps[p].stream.Some? && seps[p].stream.value in heap
    {
      var s := seps[p].stream.value;
      this.(heap := heap[s := heap[s].(starting := true)]).Moved(p, s, STREAMING)
    }

    predicate Startable(p: Seid) {
      p in seps && seps[p].stream.Some? && seps[p].stream.value in heap && seps[p].state == OPEN
    }

    /** What a START command for the end point `p` alone does. */
    function AfterStart(p: Seid): Graph {
      if Startable(p) then Started(p) else this
    }

    /** The START command for `p` alone crosses our own START for the same stream. */
    predicate StartCrosses(p: Seid) {
      Startable(p) && Collides(req, AVDTP_START, heap[seps[p].stream.value].rseid)
    }

    lemma MovedLinked(p: Seid, s: StreamId, state: SepState)
      requires Linked() && p in seps && seps[p].stream == Some(s)
      ensures s in heap && heap[s].lsep == p && SameLinks(Moved(p, s, state)) && Moved(p, s, state).Linked()
      ensures ReqOk() ==> Moved(p, s, state).ReqOk()
    {
      assert SepOk(p);
      SameLinksLinked(Moved(p, s, state));
    }
  }

  /** What cancel_request does to the stream of a cancelled request. */
  function Cancelled(stream: Stream, signal: nat): Stream {
    stream.(abortInt := true,
            starting := stream.starting && signal != AVDTP_START,
            closeInt := stream.closeInt && signal != AVDTP_CLOSE)
  }

  // ---------------------------------------------------------------- START and SUSPEND for several end points

  function Seids(payload: seq<byte>): (ids: seq<Seid>)
    ensures |ids| == |payload|
  {
    seq(|payload|, i requires 0 <= i < |payload| => SeidOf(payload[i]))
  }

  /** The `i`-th SEID of the command names an end point with a stream in state `from`, and comes up first here. */
  predicate Movable(seps: map<Seid, Sep>, ids: seq<Seid>, i: nat, from: SepState)
    requires i < |ids|
  {
    ids[i] in seps && seps[ids[i]].stream.Some? && seps[ids[i]].state == from && ids[i] !in ids[..i]
  }

  function MovedAll(seps: map<Seid, Sep>, ids: seq<Seid>, to: SepState): map<Seid, Sep> {
    map p | p in seps :: if p in ids then seps[p].(state := to) else seps[p]
  }

  /** The error with which the indication callback answers for the `i`-th SEID; None when it accepts or there is
      none. */
  function Answer(ind: seq<Option<nat>>, i: nat): Option<nat> {
    if i < |ind| then ind[i] else None
  }

  /** The first `n` SEIDs can all be moved, and their indications accept. */
  predicate AllMovable(seps: map<Seid, Sep>, ids: seq<Seid>, n: nat, from: SepState, ind: seq<Option<nat>>)
    requires n <= |ids|
  {
    forall i {:trigger Movable(seps, ids, i, from)} ::
      0 <= i < n ==> Movable(seps, ids, i, from) && Answer(ind, i).None?
  }

  lemma SingleMovable(seps: map<Seid, Sep>, ids: seq<Seid>, from: SepState, ind: seq<Option<nat>>)
    requires |ids| == 1
    ensures AllMovable(seps, ids, 1, from, ind) <==>
              ids[0] in seps && seps[ids[0]].stream.Some? && seps[ids[0]].state == from && Answer(ind, 0).None?
  {
    assert ids[..0] == [];
    if AllMovable(seps, ids, 1, from, ind) {
      assert Movable(seps, ids, 0, from);
    }
  }

  /** The error for one SEID in the present state of the end points. */
  function Verdict(seps: map<Seid, Sep>, seid: Seid, from: SepState, ind: Option<nat>): Option<nat> {
    if seid !in seps || seps[seid].stream.None? then Some(BAD_ACP_SEID)
    else if seps[seid].state != from then Some(BAD_STATE)
    else ind
  }

  /** The error code with which the `n`-th SEID is refused. */
  predicate Refusal(seps: map<Seid, Sep>, ids: seq<Seid>, n: nat, from: SepState, ind: seq<Option<nat>>, error: nat)
    requires n < |ids|
  {
    if ids[n] !in seps || seps[ids[n]].stream.None? then error == BAD_ACP_SEID
    else if !Movable(seps, ids, n, from) then error == BAD_STATE
    else Answer(ind, n) == Some(error)
  }

  /** The `i`-th entry of a Discover response is about end point `d`. */
  predicate Announces(payload: seq<byte>, i: nat, d: Seid)
    requires i < |payload| / 2
  {
    SeidOf(payload[2 * i]) == d
  }

  predicate FreeAt(payload: seq<byte>, i: nat)
    requires i < |payload| / 2
  {
    payload[2 * i] / 2 % 2 == 0
  }

  ghost predicate HasStream(streams: seq<StreamId>, heap: map<StreamId, Stream>, d: Seid) {
    exists s :: s in streams && s in heap && heap[s].rseid == d
  }

  /** `d` is announced by one of the first `n` entries and free or used by one of our streams. */
  ghost predicate Learnt(payload: seq<byte>, n: nat, streams: seq<StreamId>, heap: map<StreamId, Stream>, d: Seid)
    requires n <= |payload| / 2
  {
    exists i :: 0 <= i < n && Announces(payload, i, d) && (FreeAt(payload, i) || HasStream(streams, heap, d))
  }

  /** Whether avdtp_parse_rej takes the reject: the payload must hold the reject of its signal, and the reject of
      an ABORT is never taken. */
  predicate RejectTaken(signal: nat, size: nat) {
    if signal in {AVDTP_DISCOVER, AVDTP_GET_CAPABILITIES, AVDTP_GET_ALL_CAPABILITIES, AVDTP_OPEN,
                  AVDTP_GET_CONFIGURATION} then 1 <= size
    else if signal in {AVDTP_SET_CONFIGURATION, AVDTP_RECONFIGURE, AVDTP_START, AVDTP_SUSPEND, AVDTP_CLOSE,
                       AVDTP_DELAY_REPORT} then 2 <= size
    else signal != AVDTP_ABORT
  }

  /** Whether avdtp_parse_resp takes the accept: only a Get Capabilities response can be too short. */
  predicate AcceptTaken(signal: nat, size: nat) {
    signal in {AVDTP_GET_CAPABILITIES, AVDTP_GET_ALL_CAPABILITIES} ==> 6 <= size
  }

  const MSG_ACCEPT := 2
  const MSG_REJECT := 3

  /** Whether session_cb goes on after a response to the outstanding request. */
  predicate ResponseTaken(kind: nat, signal: nat, size: nat) {
    (kind == MSG_ACCEPT ==> AcceptTaken(signal, size)) && (kind == MSG_REJECT ==> RejectTaken(signal, size))
  }

  /** Stream `s` and end point `p` point at each other. */
  predicate Hangs(g: Graph, p: Seid, s: StreamId) {
    p in g.seps && g.seps[p].stream == Some(s) && g.seps[p].inuse && s in g.heap && g.heap[s].lsep == p
  }

  /** The links, spelled out: a stream is in the list of the session exactly when the end point it belongs to
      points back at it and is in use; an end point without a stream is IDLE and not in use; no pointer dangles. */
  lemma {:induction false} LinkedSpelledOut(g: Graph)
    requires g.Linked() && g.ReqLive()
    ensures forall s :: s in g.streams <==> exists p :: Hangs(g, p, s)
    ensures forall p, q :: p in g.seps && q in g.seps && g.seps[p].stream == g.seps[q].stream != None ==> p == q
    ensures forall p <- g.seps :: g.seps[p].stream.None? ==> g.seps[p].state == IDLE && !g.seps[p].inuse
    ensures g.pendingOpen.Some? ==> g.pendingOpen.value in g.streams
    ensures g.req.Some? && g.req.value.stream.Some? ==> g.req.value.stream.value in g.streams
    ensures forall r :: (r in g.prioQueue || r in g.reqQueue) && r.stream.Some? ==> r.stream.value in g.streams
  {
    forall s ensures s in g.streams <==> exists p :: Hangs(g, p, s) {
      assert g.Listed(s);
      if s in g.heap {
        assert g.StreamOk(s) && g.SepOk(g.heap[s].lsep);
        assert Hangs(g, g.heap[s].lsep, s);
      }
    }
    forall p, q | p in g.seps && q in g.seps && g.seps[p].stream == g.seps[q].stream != None ensures p == q {
      assert g.SepOk(p) && g.SepOk(q);
    }
    forall p <- g.seps ensures g.seps[p].stream.None? ==> g.seps[p].state == IDLE && !g.seps[p].inuse {
      assert g.SepOk(p);
    }
    assert g.pendingOpen.Some? ==> g.Listed(g.pendingOpen.value);
    assert g.req.Some? && g.req.value.stream.Some? ==> g.Listed(g.req.value.stream.value);
    forall r | (r in g.prioQueue || r in g.reqQueue) && r.stream.Some? ensures r.stream.value in g.streams {
      assert g.Live(r.stream) && g.Listed(r.stream.value);
    }
  }

  lemma MovedNone(seps: map<Seid, Sep>, to: SepState)
    ensures MovedAll(seps, [], to) == seps
  {
  }

  lemma MovedOneMore(seps: map<Seid, Sep>, ids: seq<Seid>, n: nat, from: SepState, to: SepState,
                     ind: seq<Option<nat>>)
    requires n < |ids| && from != to && AllMovable(seps, ids, n, from, ind)
    ensures var now := MovedAll(seps, ids[..n], to);
            match Verdict(now, ids[n], from, Answer(ind, n))
            case Some(error) => Refusal(seps, ids, n, from, ind, error)
            case None => ids[n] in now && AllMovable(seps, ids, n + 1, from, ind)
                         && MovedAll(seps, ids[..n + 1], to) == now[ids[n] := now[ids[n]].(state := to)]
  {
    var now := MovedAll(seps, ids[..n], to);
    assert ids[..n + 1] == ids[..n] + [ids[n]];
    assert forall i :: 0 <= i < n ==> ids[i] in ids[..n] && Movable(seps, ids, i, from);
    assert ids[n] in seps && ids[n] in ids[..n] ==> now[ids[n]].state == to;
    if Verdict(now, ids[n], from, Answer(ind, n)).None? {
      forall i | 0 <= i < n + 1 ensures Movable(seps, ids, i, from) && Answer(ind, i).None? {
        assert i < n ==> Movable(seps, ids, i, from);
      }
      assert MovedAll(seps, ids[..n + 1], to) == now[ids[n] := now[ids[n]].(state := to)];
    }
  }

  /** A stream with its START outstanding, as it stands when the peer's reject of one octet arrives. */
  function RejectedStart(): Graph {
    Graph(map[0 := NewStream(1, 5, false).(io := true, watched := true, starting := true)], 1, [0],
          map[1 := Sep(OPEN, Some(0), true, false)], map[],
          Some(Request(AVDTP_START, 5, Some(0))), true, [], [], None, None)
  }

  /** The claim that the outstanding request never names a freed stream is false of the code: session_cb has
      stopped the timer when the reject turns out too short, so connection_lost takes the request for one in
      process and leaves its pointer to the stream it frees. */
  lemma RejectLeavesDanglingRequest()
    ensures var g := RejectedStart();
            && g.Linked() && g.ReqLive()
            && !ResponseTaken(MSG_REJECT, AVDTP_START, 1)
            && var lost := g.(armed := false).Retired(1, 0);
               lost.Linked() && lost.req.value.stream == Some(0) && 0 !in lost.heap && !lost.ReqLive()
  {
    var g := RejectedStart();
    forall t ensures g.Listed(t) {
    }
    g.ArmedIrrelevant(false);
    g.(armed := false).RetiredLinked(1, 0);
  }

  /** The request of avdtp_set_configuration has gone out or into the queue, and the new stream is linked. */
  lemma SetConfigurationSent(was: Graph, now: Graph, p: Seid, stream: Stream)
    requires was.Linked() && was.ReqOk() && p in was.seps && stream.lsep == p
    requires now == was.Added(p, stream, true).(req := now.req, armed := now.armed, reqQueue := now.reqQueue)
    requires if was.req.Some? then now.req == was.req && now.armed == was.armed
             else now.armed && now.req.Some? && now.req.value.stream == Some(was.nextStream)
    requires forall r <- now.reqQueue :: r in was.reqQueue || r.stream == Some(was.nextStream)
    ensures now.Linked() <==> was.seps[p].stream.None?
    ensures was.seps[p].stream.None? ==> now.ReqOk()
  {
    var added := was.Added(p, stream, true);
    if was.seps[p].stream.None? {
      was.AddedLinked(p, stream, true);
      added.SameLinksLinked(now);
    } else {
      var s := was.seps[p].stream.value;
      assert was.SepOk(p) && was.StreamOk(s);
      assert !now.StreamOk(s);
    }
  }

  /** It could not be sent, and the new stream has been freed: its end point and its remote end point lose whatever
      stream they had. */
  lemma SetConfigurationFailed(was: Graph, now: Graph, p: Seid, d: Seid)
    requires was.Linked() && was.ReqOk() && p in was.seps
    requires now == was.Discarded(d).(req := None, armed := now.armed,
                                      seps := was.seps[p := was.seps[p].(stream := None, inuse := false)])
    ensures now.Linked() <==> was.seps[p].stream.None?
    ensures now.ReqOk()
  {
    assert was.SepOk(p);
    was.DiscardedLinked(d);
    if was.seps[p].stream.None? {
      assert now.seps == was.seps;
      was.Discarded(d).SameLinksLinked(now);
    } else {
      var s := was.seps[p].stream.value;
      assert was.StreamOk(s);
      assert !now.StreamOk(s);
    }
  }
}
