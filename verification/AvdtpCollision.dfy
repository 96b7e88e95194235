/** Two AVDTP peers that may both send START for the same open stream: the commands cross, each side drops its own
    request when it answers the peer's, and the late accepts find nothing outstanding. */
module AvdtpCollision {
  import opened Common
  import opened AvdtpRequests
  import opened AvdtpGraph
  import opened AvdtpEffects
  import opened AvdtpSession

  /** What one peer knows about the stream: the state of its end point, the label of its outstanding START, and
      whether the stream is starting. */
  datatype Peer = Peer(state: SepState, req: Option<nat>, starting: bool)

  datatype Msg = StartCmd(tid: nat) | StartAccept(tid: nat) | StartReject(tid: nat)

  /** avdtp_start goes ahead. */
  predicate CanCall(p: Peer) {
    p.state == OPEN && !p.starting && p.req.None?
  }

  function Call(p: Peer, tid: nat): Peer {
    if CanCall(p) then p.(req := Some(tid), starting := true) else p
  }

  /** avdtp_start_cmd and the end of session_cb: an outstanding START for the stream has collided and is freed. */
  function OnStart(p: Peer): Peer {
    if p.state == OPEN then Peer(STREAMING, None, true) else p
  }

  function Answer(p: Peer, tid: nat): Msg {
    if p.state == OPEN then StartAccept(tid) else StartReject(tid)
  }

  /** session_cb and avdtp_start_resp */
  function OnAccept(p: Peer, tid: nat): Peer {
    if p.req == Some(tid) then p.(state := STREAMING, req := None) else p
  }

  /** session_cb and avdtp_parse_rej */
  function OnReject(p: Peer, tid: nat): Peer {
    if p.req == Some(tid) then p.(req := None, starting := false) else p
  }

  // ---------------------------------------------------------------- a session is such a peer

  /** The session has nothing else to do than start the open stream of its end point `p`. */
  ghost predicate Ready(session: Session, p: Seid)
    reads session, session.sources
  {
    && session.Valid() && session.sources.channel && p in session.seps && session.seps[p].stream.Some?
    && session.prioQueue == [] && session.reqQueue == []
    && var s := session.seps[p].stream.value;
    && s in session.heap
    && var stream := session.heap[s];
    && !stream.abortInt && !stream.closeInt
    && (session.req.Some? ==>
          session.req.value == Request(AVDTP_START, stream.rseid, Some(s)) && !session.collided && stream.starting)
    && session.seps[p].state in {OPEN, STREAMING}
  }

  ghost function PeerOf(session: Session, p: Seid): Peer
    requires Ready(session, p)
    reads session, session.sources
  {
    Peer(session.seps[p].state, if session.req.Some? then Some(session.transaction) else None,
         session.heap[session.seps[p].stream.value].starting)
  }

  /** The peer opened the stream, and its START is waited for. */
  ghost predicate Waits(session: Session, p: Seid)
    requires Ready(session, p)
    reads session, session.sources
  {
    session.seps[p].state == OPEN && session.heap[session.seps[p].stream.value].openAcp
  }

  /** avdtp_start is the call step, at once or, when the peer opened the stream, after a while. */
  method LocalStart(session: Session, p: Seid) returns (err: int)
    requires Ready(session, p)
    modifies session
    ensures Ready(session, p)
    ensures old(Waits(session, p)) ==>
              err == 0 && PeerOf(session, p) == old(PeerOf(session, p))
              && session.heap[session.seps[p].stream.value].startTimer
    ensures !old(Waits(session, p)) ==>
              (err == 0 ==> CanCall(old(PeerOf(session, p))))
              && PeerOf(session, p) == if err == 0 then Call(old(PeerOf(session, p)), session.transaction)
                                       else old(PeerOf(session, p))
  {
    var s := session.seps[p].stream.value;
    assert session.View().SepOk(p);
    err := session.Start(s);
    assert session.View().SepOk(p);
  }

  /** start_timeout is the call step of an acceptor that has waited long enough. */
  method DelayedStart(session: Session, p: Seid) returns (err: int)
    requires Ready(session, p) && session.heap[session.seps[p].stream.value].startTimer
    modifies session
    ensures Ready(session, p) && !Waits(session, p)
    ensures err == 0 ==> CanCall(old(PeerOf(session, p)))
    ensures PeerOf(session, p) == if err == 0 then Call(old(PeerOf(session, p)), session.transaction)
                                  else old(PeerOf(session, p))
  {
    var s := session.seps[p].stream.value;
    assert session.View().SepOk(p);
    err := session.StartTimeout(s);
    assert session.View().SepOk(p);
  }

  /** The START command for the end point arrives, and the answer is the protocol's; `alive` is false when it could not
      be sent. */
  method StartArrives(session: Session, p: Seid, tid: nat) returns (alive: bool, reply: Reply)
    requires Ready(session, p) && p < 64
    modifies session, session.sources
    ensures alive ==> Ready(session, p) && PeerOf(session, p) == OnStart(old(PeerOf(session, p)))
    ensures alive ==> (reply == Accept || reply.Reject?)
                      && Answer(old(PeerOf(session, p)), tid)
                         == if reply == Accept then StartAccept(tid) else StartReject(tid)
  {
    assert session.View().SepOk(p);
    var seid: byte := 4 * p;
    assert SeidOf(seid) == p;
    ghost var done;
    alive, reply, done := session.CommandReceived(AVDTP_START, [seid], [], false);
    StartAlone(old(session.Now()), done, [seid], alive, reply);
  }

  method AcceptArrives(session: Session, p: Seid, tid: nat) returns (alive: bool)
    requires Ready(session, p)
    modifies session, session.sources
    ensures alive && Ready(session, p) && PeerOf(session, p) == OnAccept(old(PeerOf(session, p)), tid)
  {
    assert session.View().SepOk(p);
    ghost var done;
    alive, done := session.ResponseReceived(tid, AVDTP_START, MSG_ACCEPT, []);
  }

  // ---------------------------------------------------------------- two peers and two channels

  /** One peer, the messages on their way to it, and what has happened to it: the label of the START it sent, whether
      it has taken the peer's START and the accept of its own, and how many accepts it has ignored. */
  datatype Side = Side(peer: Peer, inbox: seq<Msg>, sent: Option<nat>, heard: bool, answered: bool, ignored: nat)

  datatype Net = Net(a: Side, b: Side)
  {
    function Swap(): Net { Net(b, a) }
  }

  /** `first` chooses the peer that acts. */
  datatype Act = DoCall(first: bool, tid: nat) | Deliver(first: bool)

  /** The first peer calls avdtp_start. */
  function CallFirst(n: Net, tid: nat): Net {
    if CanCall(n.a.peer) then
      Net(n.a.(peer := Call(n.a.peer, tid), sent := Some(tid)), n.b.(inbox := n.b.inbox + [StartCmd(tid)]))
    else
      n
  }

  /** The first peer takes the oldest message on its way to it. */
  function DeliverFirst(n: Net): Net {
    if n.a.inbox == [] then n
    else
      var a := n.a.(inbox := n.a.inbox[1..]);
      match n.a.inbox[0]
      case StartCmd(tid) =>
        Net(a.(peer := OnStart(a.peer), heard := true), n.b.(inbox := n.b.inbox + [Answer(a.peer, tid)]))
      case StartAccept(tid) =>
        Net(a.(peer := OnAccept(a.peer, tid), answered := true,
               ignored := if a.peer.req == Some(tid) then a.ignored else a.ignored + 1), n.b)
      case StartReject(tid) =>
        Net(a.(peer := OnReject(a.peer, tid)), n.b)
  }

  function Step(n: Net, act: Act): Net {
    var m := if act.first then n else n.Swap();
    var next := if act.DoCall? then CallFirst(m, act.tid) else DeliverFirst(m);
    if act.first then next else next.Swap()
  }

  function Run(n: Net, acts: seq<Act>): Net
    decreases |acts|
  {
    if acts == [] then n else Step(Run(n, acts[..|acts| - 1]), acts[|acts| - 1])
  }

  /** Both ends of the stream are open and nobody has called avdtp_start. */
  function Start(): Net {
    var side := Side(Peer(OPEN, None, false), [], None, false, false, 0);
    Net(side, side)
  }

  /** What is on its way from `x` to `y`. */
  function InFlight(x: Side, y: Side): seq<Msg> {
    (if x.sent.Some? && !y.heard then [StartCmd(x.sent.value)] else [])
    + (if x.heard && !y.answered && y.sent.Some? then [StartAccept(y.sent.value)] else [])
  }

  /** The state of `x` follows from what it has sent and heard; its peer is `y`. */
  predicate Side1(x: Side, y: Side) {
    && (x.heard ==> y.sent.Some?)
    && (x.answered ==> x.sent.Some? && y.heard && (y.sent.Some? ==> x.heard))
    && x.inbox == InFlight(y, x)
    && x.peer == Peer(if x.heard || x.answered then STREAMING else OPEN,
                      if x.heard || x.answered then None else x.sent,
                      x.sent.Some? || x.heard)
    && x.ignored == if x.answered && x.heard then 1 else 0
  }

  predicate Inv(n: Net) {
    Side1(n.a, n.b) && Side1(n.b, n.a)
  }

  lemma CallInv(n: Net, tid: nat)
    requires Inv(n)
    ensures Inv(CallFirst(n, tid))
  {
  }

  lemma DeliverInv(n: Net)
    requires Inv(n)
    ensures Inv(DeliverFirst(n))
  {
    if n.a.inbox != [] {
      assert n.a.inbox == InFlight(n.b, n.a);
    }
  }

  lemma StepInv(n: Net, act: Act)
    requires Inv(n)
    ensures Inv(Step(n, act))
  {
    var m := if act.first then n else n.Swap();
    if act.DoCall? {
      CallInv(m, act.tid);
    } else {
      DeliverInv(m);
    }
  }

  lemma {:induction false} RunInv(acts: seq<Act>)
    ensures Inv(Run(Start(), acts))
    decreases |acts|
  {
    if acts == [] {
    } else {
      RunInv(acts[..|acts| - 1]);
      StepInv(Run(Start(), acts[..|acts| - 1]), acts[|acts| - 1]);
    }
  }

  function Weight(ms: seq<Msg>): nat {
    if ms == [] then 0 else (if ms[0].StartCmd? then 2 else 1) + Weight(ms[1..])
  }

  function Measure(n: Net): nat {
    Weight(n.a.inbox) + Weight(n.b.inbox) + (if n.a.sent.None? then 3 else 0) + (if n.b.sent.None? then 3 else 0)
  }

  lemma {:induction false} WeightAppend(ms: seq<Msg>, m: Msg)
    ensures Weight(ms + [m]) == Weight(ms) + if m.StartCmd? then 2 else 1
  {
    if ms == [] {
    } else {
      WeightAppend(ms[1..], m);
      assert (ms + [m])[1..] == ms[1..] + [m];
    }
  }

  /** No interleaving goes on for ever: a step that changes anything brings the measure, 6 at the start, down. */
  lemma MeasureDrops(n: Net, act: Act)
    requires Inv(n) && Step(n, act) != n
    ensures Measure(Step(n, act)) < Measure(n)
  {
    var m := if act.first then n else n.Swap();
    if act.DoCall? {
      WeightAppend(m.b.inbox, StartCmd(act.tid));
    } else if m.a.inbox != [] {
      WeightAppend(m.b.inbox, Answer(m.a.peer, m.a.inbox[0].tid));
    }
  }

  predicate Quiet(n: Net) {
    n.a.inbox == [] && n.b.inbox == []
  }

  /** In every interleaving, once everything sent has arrived and at least one peer has called avdtp_start, both end
      points are STREAMING and neither peer holds a START. When both have called, both accepts came too late and were
      ignored; when one has, its accept was taken. */
  lemma BothStream(acts: seq<Act>)
    ensures var n := Run(Start(), acts);
            Quiet(n) && (n.a.sent.Some? || n.b.sent.Some?) ==>
              && n.a.peer.state == STREAMING && n.b.peer.state == STREAMING
              && n.a.peer.req.None? && n.b.peer.req.None?
              && (var late := if n.a.sent.Some? && n.b.sent.Some? then 1 else 0;
                  n.a.ignored == late && n.b.ignored == late)
  {
    RunInv(acts);
  }

  /** No START is ever rejected on the way there, and nobody holds a request once it is STREAMING. */
  lemma NeverRejected(acts: seq<Act>)
    ensures var n := Run(Start(), acts);
            && (forall m <- n.a.inbox + n.b.inbox :: !m.StartReject?)
            && (n.a.peer.state == STREAMING ==> n.a.peer.req.None?)
            && (n.b.peer.state == STREAMING ==> n.b.peer.req.None?)
  {
    RunInv(acts);
  }
}
