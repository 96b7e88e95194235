/** The request engine of an AVDTP session: one outstanding request, a priority queue and a normal queue
    (`send_req`, `queue_request`, `process_queue`, `cleanup_queue`). */
module AvdtpRequests {
  import opened Common

  const AVDTP_ABORT := 0x0A

  type StreamId = nat

  /** struct pending_req; `seid` is the acceptor SEID in its data, 0 for Discover. The label, the timer and the
      collision mark belong to the outstanding request only and are fields of the session. */
  datatype Request = Request(signal: nat, seid: nat, stream: Option<StreamId>)

  datatype Engine<R> = Engine(req: Option<R>, prio: seq<R>, normal: seq<R>)

  /** send_req: queue behind an outstanding request, otherwise hand the request to the socket, which takes
      it when `taken` holds; a request the socket refuses is freed. */
  function SendReq<R>(e: Engine<R>, priority: bool, r: R, taken: bool): Engine<R> {
    if e.req.Some? then
      if priority then e.(prio := e.prio + [r]) else e.(normal := e.normal + [r])
    else if taken then
      e.(req := Some(r))
    else
      e
  }

  /** process_queue */
  function ProcessQueue<R>(e: Engine<R>, taken: bool): Engine<R> {
    if e.req.Some? then e
    else if e.prio != [] then SendReq(e.(prio := e.prio[1..]), false, e.prio[0], taken)
    else if e.normal != [] then SendReq(e.(normal := e.normal[1..]), false, e.normal[0], taken)
    else e
  }

  /** What handle_unanswered_req leaves of the outstanding request when stream `s` dies. */
  function Unanswered(req: Option<Request>, armed: bool, s: StreamId): Option<Request> {
    if req.None? || req.value.stream != Some(s) || !armed then req
    else if req.value.signal == AVDTP_ABORT then Some(req.value.(stream := None))
    else None
  }

  /** The requests of a queue that do not name stream `s`, in order. */
  function NotFor(q: seq<Request>, s: StreamId): seq<Request> {
    if q == [] then []
    else (if q[0].stream == Some(s) then [] else [q[0]]) + NotFor(q[1..], s)
  }

  // ---------------------------------------------------------------- whole runs

  /** The `id`-th request made, with the queue its sender asked for. */
  datatype Job = Job(id: nat, priority: bool, r: Request)

  /** `Done`: a response or a collision clears the outstanding request. `Released`: a stream dies, while the outstanding
      request is `armed` or its response is in process. `Dropped`: cancel_request gives the outstanding request up. */
  datatype Event = Submit(priority: bool, r: Request, taken: bool)
                 | Done(taken: bool)
                 | Released(s: StreamId, armed: bool)
                 | Dropped

  /** The effect of an event on the engine of a session. */
  function Stepped(e: Engine<Request>, ev: Event): Engine<Request> {
    match ev
    case Submit(priority, r, taken) => SendReq(e, priority, r, taken)
    case Done(taken) => if e.req.None? then e else ProcessQueue(e.(req := None), taken)
    case Released(s, armed) => Engine(Unanswered(e.req, armed, s), NotFor(e.prio, s), NotFor(e.normal, s))
    case Dropped => e.(req := None)
  }

  /** The jobs of a queue that name the stream, or those that do not, in order. */
  function Naming(q: seq<Job>, s: StreamId, named: bool): seq<Job> {
    if q == [] then []
    else (if (q[0].r.stream == Some(s)) == named then [q[0]] else []) + Naming(q[1..], s, named)
  }

  function Orphaned(req: Option<Job>, armed: bool, s: StreamId): Option<Job> {
    if req.None? then None
    else
      match Unanswered(Some(req.value.r), armed, s)
      case None => None
      case Some(r) => Some(req.value.(r := r))
  }

  function Requests(q: seq<Job>): (rs: seq<Request>)
    ensures |rs| == |q|
  {
    seq(|q|, i requires 0 <= i < |q| => q[i].r)
  }

  function Plain(e: Engine<Job>): Engine<Request> {
    Engine(if e.req.None? then None else Some(e.req.value.r), Requests(e.prio), Requests(e.normal))
  }

  /** The jobs of one class, in order. */
  function OfClass(jobs: seq<Job>, priority: bool): seq<Job> {
    if jobs == [] then []
    else (if jobs[0].priority == priority then [jobs[0]] else []) + OfClass(jobs[1..], priority)
  }

  /** How often request `id` occurs. */
  function Count(q: seq<Job>, id: nat): nat {
    if q == [] then 0 else (if q[0].id == id then 1 else 0) + Count(q[1..], id)
  }

  predicate Ascending(q: seq<Job>) {
    forall i, j :: 0 <= i < j < |q| ==> q[i].id < q[j].id
  }

  lemma {:induction false} OfClassAppend(a: seq<Job>, b: seq<Job>, priority: bool)
    ensures OfClass(a + b, priority) == OfClass(a, priority) + OfClass(b, priority)
  {
    if a == [] {
      assert a + b == b;
    } else {
      OfClassAppend(a[1..], b, priority);
      assert (a + b)[1..] == a[1..] + b;
      var head := if a[0].priority == priority then [a[0]] else [];
      Associative(head, OfClass(a[1..], priority), OfClass(b, priority));
    }
  }

  lemma {:induction false} OfClassAll(jobs: seq<Job>, priority: bool)
    requires forall j <- jobs :: j.priority == priority
    ensures OfClass(jobs, priority) == jobs
  {
    if jobs == [] {
    } else {
      OfClassAll(jobs[1..], priority);
    }
  }

  lemma {:induction false} OfClassMembers(q: seq<Job>, priority: bool)
    ensures forall j :: j in OfClass(q, priority) <==> j in q && j.priority == priority
  {
    if q == [] {
    } else {
      OfClassMembers(q[1..], priority);
      assert q == [q[0]] + q[1..];
    }
  }

  lemma {:induction false} CountAppend(a: seq<Job>, b: seq<Job>, id: nat)
    ensures Count(a + b, id) == Count(a, id) + Count(b, id)
  {
    if a == [] {
      assert a + b == b;
    } else {
      CountAppend(a[1..], b, id);
      assert (a + b)[1..] == a[1..] + b;
    }
  }

  lemma {:induction false} CountNaming(q: seq<Job>, s: StreamId, id: nat)
    ensures Count(q, id) == Count(Naming(q, s, true), id) + Count(Naming(q, s, false), id)
  {
    if q == [] {
    } else {
      CountNaming(q[1..], s, id);
      CountAppend(if q[0].r.stream == Some(s) then [q[0]] else [], Naming(q[1..], s, true), id);
      CountAppend(if q[0].r.stream == Some(s) then [] else [q[0]], Naming(q[1..], s, false), id);
    }
  }

  lemma {:induction false} NamingMembers(q: seq<Job>, s: StreamId, named: bool)
    ensures forall j :: j in Naming(q, s, named) <==> j in q && (j.r.stream == Some(s)) == named
  {
    if q == [] {
    } else {
      NamingMembers(q[1..], s, named);
      assert q == [q[0]] + q[1..];
    }
  }

  lemma {:induction false} NamingPlain(q: seq<Job>, s: StreamId)
    ensures Requests(Naming(q, s, false)) == NotFor(Requests(q), s)
  {
    if q == [] {
    } else {
      NamingPlain(q[1..], s);
      assert Requests(q)[1..] == Requests(q[1..]);
    }
  }

  lemma AscendingTail(front: seq<Job>, q: seq<Job>)
    requires Ascending(front + q) && q != []
    ensures Ascending(front + q[1..])
  {
    var now, was := front + q[1..], front + q;
    forall i, j | 0 <= i < j < |now| ensures now[i].id < now[j].id {
      var k, l := if i < |front| then i else i + 1, if j < |front| then j else j + 1;
      assert now[i] == was[k] && now[j] == was[l];
    }
  }

  /** Taking jobs out of the queue behind `front` keeps the order. */
  lemma {:induction false} AscendingNaming(front: seq<Job>, q: seq<Job>, s: StreamId, named: bool)
    requires Ascending(front + q)
    ensures Ascending(front + Naming(q, s, named))
    decreases |q|
  {
    if q == [] {
    } else {
      var rest := Naming(q[1..], s, named);
      assert front + q == (front + [q[0]]) + q[1..];
      if (q[0].r.stream == Some(s)) == named {
        AscendingNaming(front + [q[0]], q[1..], s, named);
        assert front + Naming(q, s, named) == (front + [q[0]]) + rest;
      } else {
        AscendingTail(front, q);
        AscendingNaming(front, q[1..], s, named);
        assert [] + rest == rest;
      }
    }
  }

  lemma AscendingMore(q: seq<Job>, job: Job)
    requires Ascending(q) && forall j <- q :: j.id < job.id
    ensures Ascending(q + [job])
  {
  }

  lemma NotAscending(front: seq<Job>, job: Job, q: seq<Job>)
    requires q != [] && q[0].id < job.id
    ensures !Ascending(front + ([job] + q))
  {
    var all := front + ([job] + q);
    assert all[|front|] == job && all[|front| + 1] == q[0];
  }

  /** An engine with its history: the requests `made`, what has gone out on the `wire`, and what the socket refused or
      cleanup_queue freed. */
  datatype State = State(e: Engine<Job>, made: seq<Job>, wire: seq<Job>, gone: seq<Job>)
  {
    function Queue(priority: bool): seq<Job> {
      if priority then e.prio else e.normal
    }

    /** What goes out next if nothing is outstanding. */
    function Head(): seq<Job> {
      if e.prio != [] then [e.prio[0]] else if e.normal != [] then [e.normal[0]] else []
    }

    function Step(ev: Event): State {
      match ev
      case Submit(priority, r, taken) =>
        var job := Job(|made|, priority, r);
        var next := this.(e := SendReq(e, priority, job, taken), made := made + [job]);
        if e.req.Some? then next
        else if taken then next.(wire := wire + [job])
        else next.(gone := gone + [job])
      case Done(taken) =>
        if e.req.None? then this
        else
          var next := this.(e := ProcessQueue(e.(req := None), taken));
          if taken then next.(wire := wire + Head()) else next.(gone := gone + Head())
      case Released(s, armed) =>
        State(Engine(Orphaned(e.req, armed, s), Naming(e.prio, s, false), Naming(e.normal, s, false)), made, wire,
              gone + (Naming(e.prio, s, true) + Naming(e.normal, s, true)))
      case Dropped =>
        this.(e := e.(req := None))
    }

    lemma DonePlain(taken: bool)
      ensures Plain(Step(Done(taken)).e) == Stepped(Plain(e), Done(taken))
    {
      assert e.prio != [] ==> Requests(e.prio)[1..] == Requests(e.prio[1..]);
      assert e.normal != [] ==> Requests(e.normal)[1..] == Requests(e.normal[1..]);
    }

    lemma ReleasedPlain(s: StreamId, armed: bool)
      ensures Plain(Step(Released(s, armed)).e) == Stepped(Plain(e), Released(s, armed))
    {
      NamingPlain(e.prio, s);
      NamingPlain(e.normal, s);
    }

    /** Without the history the step is what the session does. */
    lemma StepPlain(ev: Event)
      ensures Plain(Step(ev).e) == Stepped(Plain(e), ev)
    {
      match ev
      case Submit(_, _, _) =>
      case Done(taken) => DonePlain(taken);
      case Released(s, armed) => ReleasedPlain(s, armed);
      case Dropped =>
    }

    ghost predicate Accounted(id: nat) {
      Count(wire, id) + Count(e.prio, id) + Count(e.normal, id) + Count(gone, id) == if id < |made| then 1 else 0
    }

    ghost predicate Made(j: Job) {
      j.id < |made| && made[j.id] == j
    }

    /** The queues hold what asked for them; what waits or has gone out was made; and the outstanding request is the
        last on the wire. */
    ghost predicate Sound() {
      && (forall i :: 0 <= i < |made| ==> made[i].id == i)
      && (forall j <- e.prio :: j.priority && Made(j)) && (forall j <- e.normal :: !j.priority && Made(j))
      && (forall j <- wire :: Made(j))
      && (e.req.Some? ==> wire != [] && wire[|wire| - 1].id == e.req.value.id)
    }

    /** And every request made is in one place. */
    ghost predicate Inv() {
      Sound() && forall id {:trigger Accounted(id)} :: Accounted(id)
    }

    lemma SubmitAccounted(ev: Event, id: nat)
      requires ev.Submit? && Accounted(id)
      ensures Step(ev).Accounted(id)
    {
      var job := [Job(|made|, ev.priority, ev.r)];
      if e.req.Some? && ev.priority {
        CountAppend(e.prio, job, id);
      } else if e.req.Some? {
        CountAppend(e.normal, job, id);
      } else if ev.taken {
        CountAppend(wire, job, id);
      } else {
        CountAppend(gone, job, id);
      }
    }

    lemma DoneAccounted(taken: bool, id: nat)
      requires Accounted(id)
      ensures Step(Done(taken)).Accounted(id)
    {
      if e.req.Some? && taken {
        CountAppend(wire, Head(), id);
      } else if e.req.Some? {
        CountAppend(gone, Head(), id);
      }
    }

    lemma ReleasedAccounted(ev: Event, id: nat)
      requires ev.Released? && Accounted(id)
      ensures Step(ev).Accounted(id)
    {
      CountNaming(e.prio, ev.s, id);
      CountNaming(e.normal, ev.s, id);
      CountAppend(Naming(e.prio, ev.s, true), Naming(e.normal, ev.s, true), id);
      CountAppend(gone, Naming(e.prio, ev.s, true) + Naming(e.normal, ev.s, true), id);
    }

    lemma StepAccounted(ev: Event, id: nat)
      requires Accounted(id)
      ensures Step(ev).Accounted(id)
    {
      match ev
      case Submit(_, _, _) => SubmitAccounted(ev, id);
      case Done(taken) => DoneAccounted(taken, id);
      case Released(_, _) => ReleasedAccounted(ev, id);
      case Dropped =>
    }

    lemma DoneSound(taken: bool)
      requires Sound()
      ensures Step(Done(taken)).Sound()
    {
      assert e.prio != [] ==> e.prio[0] in e.prio;
      assert e.normal != [] ==> e.normal[0] in e.normal;
    }

    lemma StepSound(ev: Event)
      requires Sound()
      ensures Step(ev).Sound()
    {
      match ev
      case Submit(_, _, _) =>
      case Done(taken) => DoneSound(taken);
      case Released(s, _) =>
        NamingMembers(e.prio, s, false);
        NamingMembers(e.normal, s, false);
      case Dropped =>
    }

    lemma StepInv(ev: Event)
      requires Inv()
      ensures Step(ev).Inv()
    {
      StepSound(ev);
      forall id ensures Step(ev).Accounted(id) {
        assert Accounted(id);
        StepAccounted(ev, id);
      }
    }

    // -------------------------------------------------------------- order

    /** What has gone out of a class, and what waits to. */
    function Line(priority: bool): seq<Job> {
      OfClass(wire, priority) + Queue(priority)
    }

    /** The class goes out in the order its requests were made. */
    ghost predicate Ordered(priority: bool) {
      Ascending(Line(priority))
    }

    /** A request goes out at once while others of its class wait. */
    predicate Overtakes(ev: Event, priority: bool) {
      ev.Submit? && ev.priority == priority && ev.taken && e.req.None? && Queue(priority) != []
    }

    lemma SubmitLine(ev: Event, priority: bool)
      requires ev.Submit?
      ensures var job := Job(|made|, ev.priority, ev.r);
              Step(ev).Line(priority)
              == if ev.priority != priority then Line(priority)
                 else if e.req.Some? then Line(priority) + [job]
                 else if ev.taken then OfClass(wire, priority) + ([job] + Queue(priority))
                 else Line(priority)
    {
      var job := Job(|made|, ev.priority, ev.r);
      OfClassAppend(wire, [job], priority);
      assert OfClass([job], priority) == if ev.priority == priority then [job] else [];
      Associative(OfClass(wire, priority), [job], Queue(priority));
      Associative(OfClass(wire, priority), Queue(priority), [job]);
      assert OfClass(wire, priority) + [] == OfClass(wire, priority);
    }

    /** The head leaves its own queue and no other. */
    lemma HeadLeaves(taken: bool, priority: bool)
      requires Inv() && e.req.Some?
      ensures var left := Step(Done(taken)).Queue(priority);
              && OfClass(Head(), priority) + left == Queue(priority)
              && (left == Queue(priority) || (Queue(priority) != [] && left == Queue(priority)[1..]))
    {
      var head := Head();
      assert e.prio != [] ==> e.prio[0].priority;
      assert e.normal != [] ==> !e.normal[0].priority;
      assert head != [] ==> head[1..] == [];
      assert OfClass(head, priority) == if head != [] && head[0].priority == priority then head else [];
      assert Queue(priority) != [] ==> Queue(priority) == [Queue(priority)[0]] + Queue(priority)[1..];
    }

    lemma DoneLine(taken: bool, priority: bool)
      requires Inv() && e.req.Some?
      ensures var next := Step(Done(taken));
              && (taken ==> next.Line(priority) == Line(priority))
              && (next.Line(priority) == Line(priority)
                  || (Queue(priority) != [] && next.Line(priority) == OfClass(wire, priority) + Queue(priority)[1..]))
    {
      HeadLeaves(taken, priority);
      if taken {
        OfClassAppend(wire, Head(), priority);
        Associative(OfClass(wire, priority), OfClass(Head(), priority), Step(Done(taken)).Queue(priority));
      }
    }

    lemma LineMade(priority: bool)
      requires Sound()
      ensures forall j <- Line(priority) :: j.id < |made|
    {
      OfClassMembers(wire, priority);
    }

    lemma OvertakenOrder(ev: Event)
      requires Inv() && ev.Submit? && Ordered(ev.priority) && e.req.None? && ev.taken
      ensures Step(ev).Ordered(ev.priority) <==> Queue(ev.priority) == []
    {
      SubmitLine(ev, ev.priority);
      LineMade(ev.priority);
      var job, sent, q := Job(|made|, ev.priority, ev.r), OfClass(wire, ev.priority), Queue(ev.priority);
      if q == [] {
        assert Line(ev.priority) == sent && [job] + q == [job];
        AscendingMore(sent, job);
      } else {
        assert q[0] in Line(ev.priority);
        NotAscending(sent, job, q);
      }
    }

    /** One step keeps the order of a class exactly if it does not overtake. */
    lemma StepOrdered(ev: Event, priority: bool)
      requires Inv() && Ordered(priority)
      ensures Step(ev).Ordered(priority) <==> !Overtakes(ev, priority)
    {
      match ev
      case Submit(p, _, taken) =>
        SubmitLine(ev, priority);
        if p == priority && e.req.Some? {
          LineMade(priority);
          AscendingMore(Line(priority), Job(|made|, p, ev.r));
        } else if p == priority && taken {
          OvertakenOrder(ev);
        }
      case Done(taken) =>
        if e.req.Some? {
          DoneLine(taken, priority);
          if Queue(priority) != [] {
            AscendingTail(OfClass(wire, priority), Queue(priority));
          }
        }
      case Released(s, _) =>
        AscendingNaming(OfClass(wire, priority), Queue(priority), s, false);
      case Dropped =>
    }

    /** The next `n` responses arrive. */
    function Drain(n: nat): State
      decreases n
    {
      if n == 0 then this else Step(Done(true)).Drain(n - 1)
    }

    /** What waits behind an outstanding request goes out behind what has. */
    lemma {:induction false} Drained(n: nat, priority: bool)
      requires Inv() && e.req.Some? && n == |e.prio| + |e.normal|
      ensures Drain(n).Queue(priority) == [] && OfClass(Drain(n).wire, priority) == Line(priority)
      decreases n
    {
      if n == 0 {
        assert Line(priority) == OfClass(wire, priority);
      } else {
        StepInv(Done(true));
        DoneLine(true, priority);
        Step(Done(true)).Drained(n - 1, priority);
      }
    }

    /** Everything that waits has gone out. */
    function Emptied(): State {
      Drain(|e.prio| + |e.normal|)
    }

    /** When the queues have drained, the wire shows the order of the class exactly if the request that went out did not
        overtake. */
    lemma OvertakenOnTheWire(ev: Event)
      requires Inv() && ev.Submit? && Ordered(ev.priority) && Step(ev).e.req.Some?
      ensures Ascending(OfClass(Step(ev).Emptied().wire, ev.priority)) <==> !Overtakes(ev, ev.priority)
    {
      var next := Step(ev);
      StepInv(ev);
      StepOrdered(ev, ev.priority);
      next.Drained(|next.e.prio| + |next.e.normal|, ev.priority);
    }

    // -------------------------------------------------------------- progress

    /** Requests wait although none is outstanding: nothing but a new request gets them moving again. */
    predicate Stalled() {
      e.req.None? && (e.prio != [] || e.normal != [])
    }

    /** The outstanding request goes while others wait, and no other takes its place. */
    predicate Stalls(ev: Event) {
      e.req.Some? &&
      match ev
      case Submit(_, _, _) => false
      case Done(taken) => !taken && |e.prio| + |e.normal| > 1
      case Released(s, armed) =>
        Orphaned(e.req, armed, s).None? && (Naming(e.prio, s, false) != [] || Naming(e.normal, s, false) != [])
      case Dropped => e.prio != [] || e.normal != []
    }

    lemma StepStalled(ev: Event)
      requires !Stalled()
      ensures Step(ev).Stalled() <==> Stalls(ev)
    {
    }

    /** What goes out is the outstanding request from then on. A normal request goes out only when no priority request
        waits, unless the engine has stalled. */
    lemma PriorityFirst(ev: Event)
      requires Inv()
      ensures var next := Step(ev);
              next.wire == wire
              || (next.e.req.Some? && next.wire == wire + [next.e.req.value]
                  && (!next.e.req.value.priority && e.prio != [] ==> Stalled() && ev.Submit?))
    {
      assert e.prio != [] ==> e.prio[0] in e.prio;
      assert wire + [] == wire;
    }
  }

  function Start(): State {
    State(Engine(None, [], []), [], [], [])
  }

  function After(evs: seq<Event>): State {
    if evs == [] then Start() else After(evs[..|evs| - 1]).Step(evs[|evs| - 1])
  }

  /** Over every run each request made is sent, waits, or was refused or freed, once; and the wire carries it as it was
      made. */
  lemma {:induction false} Schedule(evs: seq<Event>)
    ensures After(evs).Inv()
  {
    if evs == [] {
      assert forall id: nat :: Start().Accounted(id);
    } else {
      Schedule(evs[..|evs| - 1]);
      After(evs[..|evs| - 1]).StepInv(evs[|evs| - 1]);
    }
  }

  lemma FrontOf<T>(xs: seq<T>, k: nat)
    requires k < |xs|
    ensures xs[..|xs| - 1][..k] == xs[..k]
  {
  }

  /** A run in which no request overtakes another of the class sends the class in order. */
  lemma {:induction false} InOrder(evs: seq<Event>, priority: bool)
    requires forall k :: 0 <= k < |evs| ==> !After(evs[..k]).Overtakes(evs[k], priority)
    ensures After(evs).Inv() && After(evs).Ordered(priority)
  {
    if evs == [] {
      Schedule(evs);
    } else {
      var front := evs[..|evs| - 1];
      forall k | 0 <= k < |front| ensures !After(front[..k]).Overtakes(front[k], priority) {
        FrontOf(evs, k);
      }
      InOrder(front, priority);
      Schedule(evs);
      After(front).StepOrdered(evs[|evs| - 1], priority);
    }
  }

  /** A run in which nothing stalls the engine sends both classes in order, and nothing ever waits without an
      outstanding request. */
  lemma {:induction false} Flows(evs: seq<Event>)
    requires forall k :: 0 <= k < |evs| ==> !After(evs[..k]).Stalls(evs[k])
    ensures After(evs).Inv() && !After(evs).Stalled() && After(evs).Ordered(true) && After(evs).Ordered(false)
  {
    if evs == [] {
      Schedule(evs);
    } else {
      var front := evs[..|evs| - 1];
      forall k | 0 <= k < |front| ensures !After(front[..k]).Stalls(front[k]) {
        FrontOf(evs, k);
      }
      Flows(front);
      Schedule(evs);
      After(front).StepStalled(evs[|evs| - 1]);
      After(front).StepOrdered(evs[|evs| - 1], true);
      After(front).StepOrdered(evs[|evs| - 1], false);
    }
  }

  /** START for one stream is outstanding and SUSPEND for another waits when the first stream dies. */
  function Blocked(): State {
    Start().Step(Submit(false, Request(0x07, 1, Some(0)), true)).Step(Submit(false, Request(0x09, 2, Some(1)), true))
           .Step(Released(0, true))
  }

  lemma NamingOne(j: Job, s: StreamId, named: bool)
    ensures Naming([j], s, named) == if (j.r.stream == Some(s)) == named then [j] else []
  {
    assert [j][1..] == [] && Naming([j][1..], s, named) == [];
  }

  lemma BlockedIs()
    ensures var start, suspend := Job(0, false, Request(0x07, 1, Some(0))), Job(1, false, Request(0x09, 2, Some(1)));
            Blocked() == State(Engine(None, [], [suspend]), [start, suspend], [start], [])
  {
    var start, suspend := Job(0, false, Request(0x07, 1, Some(0))), Job(1, false, Request(0x09, 2, Some(1)));
    var one := Start().Step(Submit(false, start.r, true));
    assert one == State(Engine(Some(start), [], []), [start], [start], []);
    assert one.Step(Submit(false, suspend.r, true))
        == State(Engine(Some(start), [], [suspend]), [start, suspend], [start], []);
    NamingOne(suspend, 0, false);
    NamingOne(suspend, 0, true);
  }

  /** Then CLOSE is asked for the other stream: it goes out before SUSPEND. */
  lemma CloseFirst()
    ensures var end := Blocked().Step(Submit(false, Request(0x08, 2, Some(1)), true)).Step(Done(true));
            && end.wire == [Job(0, false, Request(0x07, 1, Some(0))), Job(2, false, Request(0x08, 2, Some(1))),
                            Job(1, false, Request(0x09, 2, Some(1)))]
            && Blocked().Stalled() && !end.Ordered(false)
  {
    BlockedIs();
    var close := Submit(false, Request(0x08, 2, Some(1)), true);
    var end := Blocked().Step(close).Step(Done(true));
    OfClassAll(end.wire, false);
    assert end.Line(false)[1].id == 2 && end.Line(false)[2].id == 1;
  }
}
