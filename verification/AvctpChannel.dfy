/** The transaction engine of an AVCTP channel: requests wait in `queue`, one is in flight in `p`, answered ones stay
    in `processed` for as long as their callback wants more responses. */
module AvctpChannel {
  import opened Common

  /** struct avctp_pending_req. `id` tells requests apart, `func` is whether there is a response callback; the timer
      is in the set `timers` of the state. */
  datatype Request = Request(id: nat, transaction: nat, func: bool)

  function Labels(rs: seq<Request>): (labels: seq<nat>)
    ensures |labels| == |rs| && forall i :: 0 <= i < |rs| ==> labels[i] == rs[i].transaction
  {
    seq(|rs|, i requires 0 <= i < |rs| => rs[i].transaction)
  }

  lemma InLabels(rs: seq<Request>, tid: nat)
    ensures tid in Labels(rs) <==> exists q <- rs :: q.transaction == tid
  {
    if tid in Labels(rs) {
      var i :| 0 <= i < |rs| && Labels(rs)[i] == tid;
      assert rs[i] in rs;
    }
    if exists q <- rs :: q.transaction == tid {
      var q :| q in rs && q.transaction == tid;
      var i :| 0 <= i < |rs| && rs[i] == q;
      assert Labels(rs)[i] == tid;
    }
  }

  /** The label after `tid`, one of sixteen. */
  function Next(tid: nat): nat {
    if tid >= 15 then 0 else tid + 1
  }

  /** The label scan of pending_create over the labels `tmp` of the processed requests: a label in use is taken off the
      list and the scan goes on at the second element of what is left. */
  function Scan(tmp: seq<nat>, i: nat, tid: nat): nat
    decreases |tmp|, |tmp| - i
  {
    if i >= |tmp| then tid
    else if tmp[i] == tid then Scan(tmp[..i] + tmp[i + 1..], 1, Next(tid))
    else Scan(tmp, i + 1, tid)
  }

  lemma {:induction false} ScanBound(tmp: seq<nat>, i: nat, tid: nat)
    requires tid < 16
    ensures Scan(tmp, i, tid) < 16
    decreases |tmp|, |tmp| - i
  {
    if i >= |tmp| {
    } else {
      if tmp[i] == tid {
        ScanBound(tmp[..i] + tmp[i + 1..], 1, Next(tid));
      } else {
        ScanBound(tmp, i + 1, tid);
      }
    }
  }

  /** No element from `i` on carries the label: the scan is over. */
  lemma {:induction false} ScanMiss(tmp: seq<nat>, i: nat, tid: nat)
    requires tid !in tmp[Min(i, |tmp|)..]
    ensures Scan(tmp, i, tid) == tid
    decreases |tmp| - i
  {
    if i >= |tmp| {
      assert Scan(tmp, i, tid) == tid;
    } else {
      assert tmp[i..] == [tmp[i]] + tmp[i + 1..];
      ScanMiss(tmp, i + 1, tid);
    }
  }

  /** Element `k` is the first from `i` on that carries the label. */
  lemma {:induction false} ScanHit(tmp: seq<nat>, i: nat, tid: nat, k: nat)
    requires i <= k < |tmp| && tmp[k] == tid && forall j :: i <= j < k ==> tmp[j] != tid
    ensures Scan(tmp, i, tid) == Scan(tmp[..k] + tmp[k + 1..], 1, Next(tid))
    decreases k - i
  {
    if i == k {
      assert tmp[i] == tid;
    } else {
      ScanHit(tmp, i + 1, tid, k);
    }
  }

  /** The `n`-th label after `tid`. */
  function Up(tid: nat, n: nat): nat
    decreases n
  {
    if n == 0 then tid else Up(Next(tid), n - 1)
  }

  lemma {:induction false} UpIs(tid: nat, n: nat)
    requires tid < 16 && n <= 16
    ensures Up(tid, n) == if tid + n < 16 then tid + n else tid + n - 16
    decreases n
  {
    if n == 0 {
    } else {
      UpIs(Next(tid), n - 1);
    }
  }

  /** Counting up from `tid`, the `n`-th label is the first that is not among `used`. */
  predicate FirstFree(used: seq<nat>, tid: nat, n: nat)
    decreases n
  {
    if n == 0 then tid !in used else tid in used && FirstFree(used, Next(tid), n - 1)
  }

  lemma {:induction false} FirstFreeUnique(used: seq<nat>, tid: nat, n: nat, m: nat)
    requires FirstFree(used, tid, n) && FirstFree(used, tid, m)
    ensures n == m
    decreases n
  {
    if n == 0 || m == 0 {
    } else {
      FirstFreeUnique(used, Next(tid), n - 1, m - 1);
    }
  }

  /** Everything counted over is used, and the last label is not. */
  lemma {:induction false} FirstFreeMembers(used: seq<nat>, tid: nat, n: nat, j: nat)
    requires FirstFree(used, tid, n) && j <= n
    ensures Up(tid, j) in used <==> j < n
    decreases n
  {
    if j == 0 {
    } else {
      FirstFreeMembers(used, Next(tid), n - 1, j - 1);
    }
  }

  lemma {:induction false} SomeFree(used: seq<nat>, tid: nat, m: nat) returns (n: nat)
    requires Up(tid, m) !in used
    ensures n <= m && FirstFree(used, tid, n)
    decreases m
  {
    if tid !in used {
      n := 0;
    } else {
      n := SomeFree(used, Next(tid), m - 1);
      n := n + 1;
    }
  }

  /** Taking one label away that the count does not come by changes nothing. */
  lemma {:induction false} FirstFreeLess(used: seq<nat>, less: seq<nat>, tid: nat, n: nat, x: nat)
    requires FirstFree(used, tid, n) && forall j :: 0 <= j < n ==> Up(tid, j) != x
    requires forall y :: y in less ==> y in used
    requires forall y :: y in used && y != x ==> y in less
    ensures FirstFree(less, tid, n)
    decreases n
  {
    if n == 0 {
    } else {
      assert Up(tid, 0) != x;
      forall j | 0 <= j < n - 1 ensures Up(Next(tid), j) != x {
        assert Up(tid, j + 1) != x;
      }
      FirstFreeLess(used, less, Next(tid), n - 1, x);
    }
  }

  function IndexOf(rs: seq<nat>, x: nat): (k: nat)
    requires x in rs
    ensures k < |rs| && rs[k] == x && forall j :: 0 <= j < k ==> rs[j] != x
  {
    if rs[0] == x then 0 else 1 + IndexOf(rs[1..], x)
  }

  lemma OthersLeft(rest: seq<nat>, k: nat)
    requires k < |rest|
    ensures forall y :: y in rest[..k] + rest[k + 1..] ==> y in rest
    ensures forall y :: y in rest && y != rest[k] ==> y in rest[..k] + rest[k + 1..]
  {
    assert rest == rest[..k] + [rest[k]] + rest[k + 1..];
  }

  /** The label `tid` found at `k` and taken off, the count goes on from the next label. */
  lemma FoundAndGone(rest: seq<nat>, tid: nat, n: nat, k: nat)
    requires tid < 16 && 0 < n < 16 && FirstFree(rest, tid, n) && k < |rest| && rest[k] == tid
    ensures FirstFree(rest[..k] + rest[k + 1..], Next(tid), n - 1)
  {
    forall j: nat | j < n - 1 ensures Up(Next(tid), j) != tid {
      UpIs(Next(tid), j);
    }
    OthersLeft(rest, k);
    FirstFreeLess(rest, rest[..k] + rest[k + 1..], Next(tid), n - 1, tid);
  }

  lemma ScanStep(head: nat, rest: seq<nat>, tid: nat, k: nat)
    requires k < |rest| && rest[k] == tid && forall j :: 0 <= j < k ==> rest[j] != tid
    ensures Scan([head] + rest, 1, tid) == Scan([head] + (rest[..k] + rest[k + 1..]), 1, Next(tid))
  {
    var tmp := [head] + rest;
    ScanHit(tmp, 1, tid, k + 1);
    assert tmp[..k + 1] + tmp[k + 2..] == [head] + (rest[..k] + rest[k + 1..]);
  }

  /** From the second element on, with the head never looked at, the scan finds the first label the rest leaves free. */
  lemma {:induction false} ScanRest(head: nat, rest: seq<nat>, tid: nat, n: nat)
    requires tid < 16 && n < 16 && FirstFree(rest, tid, n)
    ensures Scan([head] + rest, 1, tid) == Up(tid, n)
    decreases n
  {
    if n == 0 {
      assert ([head] + rest)[Min(1, |[head] + rest|)..] == rest;
      ScanMiss([head] + rest, 1, tid);
    } else {
      var k := IndexOf(rest, tid);
      FoundAndGone(rest, tid, n, k);
      ScanStep(head, rest, tid, k);
      ScanRest(head, rest[..k] + rest[k + 1..], Next(tid), n - 1);
    }
  }

  lemma RemoveAt(rs: seq<nat>, x: nat)
    requires x in rs
    ensures Remove(rs, x) == rs[..IndexOf(rs, x)] + rs[IndexOf(rs, x) + 1..]
  {
    if rs[0] != x {
      var k := IndexOf(rs[1..], x);
      RemoveAt(rs[1..], x);
      Associative([rs[0]], rs[1..][..k], rs[1..][k + 1..]);
      assert rs[..k + 1] == [rs[0]] + rs[1..][..k];
      assert rs[k + 2..] == rs[1..][k + 1..];
    }
  }

  predicate AllUsed(tmp: seq<nat>) {
    forall tid :: 0 <= tid < 16 ==> tid in tmp
  }

  /** The first label from `tid` on that is not among `used` is `x`. */
  ghost predicate Reaches(used: seq<nat>, tid: nat, x: nat) {
    exists n :: FirstFree(used, tid, n) && Up(tid, n) == x
  }

  /** With the first request that carries the label `tid` taken off, the head of what is left is the one label the scan
      never looks at; and counting up from there it is the first that the others leave free. */
  ghost predicate HeadIsNext(tmp: seq<nat>, tid: nat) {
    tid in tmp && Remove(tmp, tid) != [] && Reaches(Remove(tmp, tid)[1..], Next(tid), Remove(tmp, tid)[0])
  }

  /** Counting up from the label after `tid`, a free label comes before `tid` itself does. */
  lemma FreeBefore(rest: seq<nat>, tid: nat, u: nat) returns (n: nat)
    requires tid < 16 && u < 16 && u != tid && u !in rest
    ensures n < 15 && FirstFree(rest, Next(tid), n) && Up(Next(tid), n) != tid
  {
    var next := Next(tid);
    var m := if next <= u then u - next else u + 16 - next;
    UpIs(next, m);
    n := SomeFree(rest, next, m);
    UpIs(next, n);
  }

  lemma ScanReaches(tmp: seq<nat>, tid: nat, head: nat, rest: seq<nat>)
    requires tid < 16 && !AllUsed(tmp) && forall x :: x in tmp <==> x == tid || x == head || x in rest
    ensures Scan([head] + rest, 1, Next(tid)) in tmp <==> Reaches(rest, Next(tid), head)
  {
    var next := Next(tid);
    var u :| 0 <= u < 16 && u !in tmp;
    var n := FreeBefore(rest, tid, u);
    ScanRest(head, rest, next, n);
    FirstFreeMembers(rest, next, n, n);
    if Reaches(rest, next, head) {
      var o: nat :| FirstFree(rest, next, o) && Up(next, o) == head;
      FirstFreeUnique(rest, next, n, o);
    }
  }

  /** The first request with the label is taken off, and the scan goes on. */
  lemma FirstOff(tmp: seq<nat>, tid: nat)
    requires tid in tmp
    ensures Scan(tmp, 0, tid) == Scan(Remove(tmp, tid), 1, Next(tid))
    ensures forall x :: x in tmp <==> x == tid || x in Remove(tmp, tid)
  {
    var k := IndexOf(tmp, tid);
    RemoveAt(tmp, tid);
    ScanHit(tmp, 0, tid, k);
    OthersLeft(tmp, k);
  }

  lemma ScanFindsFree(tmp: seq<nat>, tid: nat)
    requires tid < 16 && tid in tmp && !AllUsed(tmp)
    ensures Scan(tmp, 0, tid) in tmp <==> HeadIsNext(tmp, tid)
  {
    var left := Remove(tmp, tid);
    FirstOff(tmp, tid);
    if left == [] {
      assert Scan(left, 1, Next(tid)) == Next(tid);
    } else {
      assert left == [left[0]] + left[1..];
      ScanReaches(tmp, tid, left[0], left[1..]);
    }
  }

  /** The label handed out is in use by a processed request exactly when all sixteen are, or when the one label the scan
      skips is the one it arrives at. */
  lemma ScanReusesIff(tmp: seq<nat>, tid: nat)
    requires tid < 16
    ensures Scan(tmp, 0, tid) in tmp <==> AllUsed(tmp) || HeadIsNext(tmp, tid)
  {
    ScanBound(tmp, 0, tid);
    if AllUsed(tmp) {
      assert Scan(tmp, 0, tid) in tmp;
    } else if tid !in tmp {
      assert tmp[0..] == tmp;
      ScanMiss(tmp, 0, tid);
    } else {
      ScanFindsFree(tmp, tid);
    }
  }

  /** So it is for the labels 5 and 6 with 5 the next one. */
  lemma ScanReusesLabel()
    ensures Scan([5, 6], 0, 5) == 6 && HeadIsNext([5, 6], 5)
  {
    assert [5, 6][..0] + [5, 6][0 + 1..] == [6];
    assert Scan([6], 1, 6) == 6;
    assert [5, 6][1..] == [6] && Remove([5, 6], 5) == [6] && [6][1..] == [];
    assert FirstFree([], 6, 0) && Up(6, 0) == 6;
  }

  /** The position of the first processed request with the label, |rs| if there is none. */
  function FirstMatch(rs: seq<Request>, transaction: nat): (k: nat)
    ensures k <= |rs| && (forall i :: 0 <= i < k ==> rs[i].transaction != transaction)
    ensures k < |rs| ==> rs[k].transaction == transaction
  {
    if rs == [] || rs[0].transaction == transaction then 0 else 1 + FirstMatch(rs[1..], transaction)
  }

  /** How often a request occurs in a list. */
  function Times(rs: seq<Request>, r: Request): (n: nat)
    ensures n > 0 <==> r in rs
  {
    if rs == [] then 0 else (if rs[0] == r then 1 else 0) + Times(rs[1..], r)
  }

  lemma {:induction false} TimesAppend(a: seq<Request>, b: seq<Request>, r: Request)
    ensures Times(a + b, r) == Times(a, r) + Times(b, r)
  {
    if a == [] {
      assert a + b == b;
    } else {
      TimesAppend(a[1..], b, r);
      assert (a + b)[1..] == a[1..] + b;
    }
  }

  lemma TimesRemove(rs: seq<Request>, k: nat, r: Request)
    requires k < |rs|
    ensures Times(rs, r) == Times(rs[..k] + rs[k + 1..], r) + Times([rs[k]], r)
  {
    assert rs == rs[..k] + ([rs[k]] + rs[k + 1..]);
    TimesAppend(rs[..k], [rs[k]] + rs[k + 1..], r);
    TimesAppend([rs[k]], rs[k + 1..], r);
    TimesAppend(rs[..k], rs[k + 1..], r);
  }

  lemma {:induction false} NumberedOnce(made: seq<Request>, r: Request)
    requires forall i :: 0 <= i < |made| ==> made[i].id == i
    ensures Times(made, r) == if r in made then 1 else 0
  {
    if made == [] {
    } else {
      var front, last := made[..|made| - 1], made[|made| - 1];
      NumberedOnce(front, r);
      TimesAppend(front, [last], r);
      assert made == front + [last];
      assert r in front ==> r.id < |front|;
    }
  }

  /** A channel, and what has become of the requests made so far: `tried` are those handed to their send function and
      `destroyed` those freed, each in order. */
  datatype State = State(transaction: nat, p: Option<Request>, queue: seq<Request>, processed: seq<Request>,
                         scheduled: bool, timers: set<nat>,
                         made: seq<Request>, tried: seq<Request>, destroyed: seq<Request>)
  {
    /** Requests are tried in the order they were made, and the queue holds those not tried yet. */
    ghost predicate InOrder() {
      tried + queue == made
    }

    function InSlot(r: Request): nat {
      if p == Some(r) then 1 else 0
    }

    /** The request, each time it was tried, is in the slot, processed or destroyed. */
    ghost predicate Counted(r: Request) {
      Times(tried, r) == InSlot(r) + Times(processed, r) + Times(destroyed, r)
    }

    ghost predicate Numbered(i: nat) {
      i < |made| ==> made[i].id == i && made[i].transaction < 16
    }

    ghost predicate Inv() {
      && transaction < 16 && InOrder()
      && (forall i {:trigger Numbered(i)} :: Numbered(i))
      && (forall r {:trigger Counted(r)} :: Counted(r))
      && timers == (if p.Some? then {p.value.id} else {})
      && (queue != [] && p.None? ==> scheduled)
    }

    /** avctp_send_req */
    function Sent(r: Request): State {
      this.(transaction := (r.transaction + 1) % 16, queue := queue + [r], made := made + [r], scheduled := true)
    }

    lemma SentInv(r: Request)
      requires Inv() && r.id == |made| && r.transaction < 16
      ensures Sent(r).Inv()
    {
      Associative(tried, queue, [r]);
      forall i: nat ensures Sent(r).Numbered(i) {
        assert Numbered(i);
      }
      forall q ensures Sent(r).Counted(q) {
        assert Counted(q);
      }
    }

    /** One round of process_queue. */
    function Tried(ok: bool): State
      requires queue != []
    {
      var r := queue[0];
      var g := this.(queue := queue[1..], tried := tried + [r]);
      if ok then g.(p := Some(r), timers := timers + {r.id})
      else g.(destroyed := destroyed + [r], timers := timers - {r.id})
    }

    lemma TriedInv(ok: bool)
      requires Inv() && queue != [] && p.None? && scheduled
      ensures Tried(ok).Inv()
    {
      var g := Tried(ok);
      Associative(tried, [queue[0]], queue[1..]);
      assert queue == [queue[0]] + queue[1..];
      forall i: nat ensures g.Numbered(i) {
        assert Numbered(i);
      }
      forall r ensures g.Counted(r) {
        assert Counted(r);
        TimesAppend(tried, [queue[0]], r);
        TimesAppend(destroyed, [queue[0]], r);
      }
    }

    /** process_queue is done. */
    lemma IdledInv()
      requires Inv() && (queue == [] || p.Some?)
      ensures this.(scheduled := false).Inv()
    {
      var g := this.(scheduled := false);
      forall i: nat ensures g.Numbered(i) {
        assert Numbered(i);
      }
      forall r ensures g.Counted(r) {
        assert Counted(r);
      }
    }

    /** A response to the request in flight. */
    function Settled(): State
      requires p.Some?
    {
      this.(p := None, timers := timers - {p.value.id}, processed := [p.value] + processed, scheduled := true)
    }

    lemma SettledInv()
      requires Inv() && p.Some?
      ensures Settled().Inv()
    {
      forall i: nat ensures Settled().Numbered(i) {
        assert Numbered(i);
      }
      forall r ensures Settled().Counted(r) {
        assert Counted(r);
        TimesAppend([p.value], processed, r);
      }
    }

    function Dropped(k: nat): State
      requires k < |processed|
    {
      this.(processed := processed[..k] + processed[k + 1..], destroyed := destroyed + [processed[k]],
            timers := timers - {processed[k].id})
    }

    lemma MadeOnce(r: Request)
      requires Inv()
      ensures Times(made, r) == if r in made then 1 else 0
      ensures Times(made, r) == Times(tried, r) + Times(queue, r)
    {
      TimesAppend(tried, queue, r);
      forall i | 0 <= i < |made| ensures made[i].id == i {
        assert Numbered(i);
      }
      NumberedOnce(made, r);
    }

    /** Until it is destroyed, a request is in exactly one of the queue, the slot and the processed list, once; and it
        is never destroyed twice. */
    lemma ExactlyOnePlace(r: Request)
      requires Inv()
      ensures Times(queue, r) + InSlot(r) + Times(processed, r) + Times(destroyed, r) == if r in made then 1 else 0
    {
      MadeOnce(r);
      assert Counted(r);
    }

    lemma InMade(r: Request)
      requires Inv() && r in made
      ensures r.id < |made| && made[r.id] == r && r.transaction < 16
    {
      var i :| 0 <= i < |made| && made[i] == r;
      assert Numbered(i);
    }

    /** A request anywhere has a label below 16, and a timer exactly when it is the one in flight. */
    lemma TimerOnlyInSlot(r: Request)
      requires Inv() && (r in queue || r in processed || p == Some(r))
      ensures r.transaction < 16 && (r.id in timers <==> p == Some(r))
    {
      ExactlyOnePlace(r);
      assert Numbered(r.id);
      InMade(r);
      if p.Some? {
        ExactlyOnePlace(p.value);
        InMade(p.value);
      }
    }

    lemma DroppedInv(k: nat)
      requires Inv() && k < |processed|
      ensures Dropped(k).Inv()
    {
      var d := processed[k];
      forall i: nat ensures Dropped(k).Numbered(i) {
        assert Numbered(i);
      }
      forall r ensures Dropped(k).Counted(r) {
        assert Counted(r);
        TimesRemove(processed, k, r);
        TimesAppend(destroyed, [d], r);
      }
      assert d in processed && Times(processed, d) > 0;
      TimerOnlyInSlot(d);
      ExactlyOnePlace(d);
    }

    function TimedOut(): State
      requires p.Some?
    {
      this.(p := None, timers := timers - {p.value.id}, destroyed := destroyed + [p.value], scheduled := true)
    }

    lemma TimedOutInv()
      requires Inv() && p.Some?
      ensures TimedOut().Inv()
    {
      forall i: nat ensures TimedOut().Numbered(i) {
        assert Numbered(i);
      }
      forall r ensures TimedOut().Counted(r) {
        assert Counted(r);
        TimesAppend(destroyed, [p.value], r);
      }
    }

    /** avctp_channel_destroy */
    function Closed(): State {
      this.(p := None, queue := [], processed := [], scheduled := false, timers := {},
            destroyed := destroyed + (if p.Some? then [p.value] else []) + queue + processed)
    }

    /** At the end every request ever made has been destroyed exactly once. */
    lemma ClosedDestroysAll(r: Request)
      requires Inv()
      ensures Times(Closed().destroyed, r) == if r in made then 1 else 0
    {
      var slot := if p.Some? then [p.value] else [];
      MadeOnce(r);
      assert Counted(r);
      TimesAppend(destroyed + slot + queue, processed, r);
      TimesAppend(destroyed + slot, queue, r);
      TimesAppend(destroyed, slot, r);
    }
  }

  /** Two requests of such a run share a label exactly when a multiple of sixteen lies between them. */
  lemma BurstLabels(tid: nat, i: nat, j: nat)
    requires i <= j
    ensures (tid + i) % 16 == (tid + j) % 16 <==> (j - i) % 16 == 0
  {
  }

  /** What happens to a channel. */
  datatype Event = Send(func: bool) | Idle | Answer(transaction: nat) | Timer

  /** A call of the response callback of a request: with a response or for its rejection. */
  datatype Call = Call(r: Request, rejection: bool, keep: bool)
  {
    predicate Last() {
      rejection || !keep
    }
  }

  /** A request whose callback wants no more, or has been told of the rejection, is destroyed and never called again. */
  ghost predicate LastWords(told: seq<Call>, destroyed: seq<Request>) {
    && (forall i :: 0 <= i < |told| && told[i].Last() ==> told[i].r in destroyed)
    && (forall i, j :: 0 <= i < j < |told| && told[i].r == told[j].r ==> !told[i].Last())
  }

  lemma LastWordsMore(told: seq<Call>, destroyed: seq<Request>, call: Call, now: seq<Request>)
    requires LastWords(told, destroyed) && call.r !in destroyed && destroyed <= now
    requires call.Last() ==> call.r in now
    ensures LastWords(told + [call], now)
  {
    assert forall r :: r in destroyed ==> r in now;
  }

  class Channel {
    var transaction: nat
    var p: Option<Request>
    var queue: seq<Request>
    var processed: seq<Request>
    /** An idle source for process_queue is installed (process_id). */
    var scheduled: bool
    /** The requests whose timer runs. */
    var timers: set<nat>
    /** How many requests have been allocated. */
    var count: nat

    ghost var made: seq<Request>
    ghost var tried: seq<Request>
    /** Those of them that went out. */
    ghost var sent: seq<Request>
    ghost var destroyed: seq<Request>
    /** The calls of response callbacks. */
    ghost var told: seq<Call>

    ghost function View(): State
      reads this
    {
      State(transaction, p, queue, processed, scheduled, timers, made, tried, destroyed)
    }

    ghost predicate Valid()
      reads this
    {
      View().Inv() && count == |made|
    }

    constructor ()
      ensures Valid() && made == [] && destroyed == [] && told == []
    {
      transaction, p, queue, processed, scheduled, timers := 0, None, [], [], false, {};
      count, made, tried, sent, destroyed, told := 0, [], [], [], [], [];
    }

    /** pending_create */
    method PendingCreate(func: bool) returns (r: Request)
      requires transaction < 16
      modifies this`transaction, this`count
      ensures r == Request(old(count), Scan(Labels(processed), 0, old(transaction)), func)
      ensures r.transaction < 16 && transaction == (r.transaction + 1) % 16 && count == old(count) + 1
      ensures (exists q <- processed :: q.transaction == r.transaction)
              <==> AllUsed(Labels(processed)) || HeadIsNext(Labels(processed), old(transaction))
    {
      var tmp, i := Labels(processed), 0;
      ScanBound(tmp, 0, transaction);
      ScanReusesIff(tmp, transaction);
      InLabels(processed, Scan(tmp, 0, transaction));
      while i < |tmp|
        invariant Scan(tmp, i, transaction) == Scan(Labels(processed), 0, old(transaction))
        invariant transaction < 16 && count == old(count)
        decreases |tmp|, |tmp| - i
      {
        if tmp[i] == transaction {
          transaction := (transaction + 1) % 16;
          tmp := tmp[..i] + tmp[i + 1..];
          i := 0;
        }
        i := i + 1;
      }
      r := Request(count, transaction, func);
      transaction, count := (transaction + 1) % 16, count + 1;
    }

    /** avctp_send_req on a connected channel */
    method SendReq(func: bool)
      requires Valid()
      modifies this`transaction, this`count, this`queue, this`scheduled, this`made
      ensures Valid()
      ensures View() == old(View()).Sent(Request(|old(made)|, Scan(Labels(processed), 0, old(transaction)), func))
    {
      ghost var g := View();
      var r := PendingCreate(func);
      queue, scheduled := queue + [r], true;
      made := made + [r];
      g.SentInv(r);
    }

    /** pending_destroy, but for the call of control_req_destroy: the timer of the request, if it runs, is removed. */
    method PendingDestroy(r: Request)
      modifies this`destroyed, this`timers
      ensures destroyed == old(destroyed) + [r] && timers == old(timers) - {r.id}
    {
      timers := timers - {r.id};
      destroyed := destroyed + [r];
    }

    /** The request is handed to its send function. */
    method Process(r: Request) returns (ok: bool)
      modifies this`tried, this`sent
      ensures tried == old(tried) + [r] && sent == old(sent) + if ok then [r] else []
    {
      ok := *;
      tried := tried + [r];
      if ok {
        sent := sent + [r];
      }
    }

    /** The head of the queue is tried. */
    method TryHead() returns (ok: bool)
      requires Valid() && p.None? && queue != [] && scheduled
      modifies this`queue, this`p, this`destroyed, this`tried, this`sent, this`timers
      ensures Valid() && View() == old(View()).Tried(ok)
      ensures sent == old(sent) + if ok then [old(queue)[0]] else []
    {
      View().TriedInv(true);
      View().TriedInv(false);
      var r := queue[0];
      queue := queue[1..];
      ok := Process(r);
      if ok {
        p, timers := Some(r), timers + {r.id};
      } else {
        PendingDestroy(r);
      }
    }

    /** process_queue: requests that cannot be sent are destroyed until one goes out or none is left. */
    method ProcessQueue()
      requires Valid() && scheduled
      modifies this`queue, this`p, this`destroyed, this`tried, this`sent, this`timers, this`scheduled
      ensures Valid() && !scheduled
      ensures sent == old(sent) + if old(p).None? && p.Some? then [p.value] else []
      ensures old(p).Some? ==> View() == old(View()).(scheduled := false)
      ensures old(p).None? ==>
                var k := |destroyed| - |old(destroyed)|;
                && 0 <= k <= |old(queue)| && destroyed == old(destroyed) + old(queue)[..k]
                && if k == |old(queue)| then p.None? && queue == []
                   else p == Some(old(queue)[k]) && queue == old(queue)[k + 1..]
    {
      if p.Some? {
        View().IdledInv();
        scheduled := false;
        return;
      }
      ghost var was, k := queue, 0;
      while queue != [] && p.None?
        invariant Valid() && scheduled
        invariant sent == old(sent) + if p.Some? then [p.value] else []
        invariant k <= |was| && destroyed == old(destroyed) + was[..k]
        invariant if p.None? then queue == was[k..]
                  else k < |was| && p == Some(was[k]) && queue == was[k + 1..]
        decreases |queue|
      {
        var ok := TryHead();
        if !ok {
          assert was[..k + 1] == was[..k] + [was[k]];
          Associative(old(destroyed), was[..k], [was[k]]);
          k := k + 1;
        }
      }
      View().IdledInv();
      scheduled := false;
    }

    /** What a response callback does: it may make new requests, and says whether it wants more responses. */
    method Func(r: Request, rejection: bool) returns (keep: bool)
      requires Valid()
      modifies this`transaction, this`count, this`queue, this`scheduled, this`made, this`told
      ensures Valid() && old(made) <= made && old(queue) <= queue && (old(scheduled) ==> scheduled)
      ensures told == old(told) + [Call(r, rejection, keep)]
    {
      keep := *;
      told := told + [Call(r, rejection, keep)];
      var more: bool := *;
      var n: int := *;
      while more && n > 0
        invariant Valid() && old(made) <= made && old(queue) <= queue && (old(scheduled) ==> scheduled)
        invariant told == old(told) + [Call(r, rejection, keep)]
        decreases n
      {
        var func: bool := *;
        SendReq(func);
        n := n - 1;
      }
    }

    /** The first half of control_response: a response to the request in flight frees the slot. */
    method Settle(answer: nat)
      requires Valid()
      modifies this`processed, this`p, this`scheduled, this`timers
      ensures Valid()
      ensures View() == if old(p).Some? && old(p).value.transaction == answer then old(View()).Settled()
                        else old(View())
    {
      if p.Some? && p.value.transaction == answer {
        View().SettledInv();
        processed := [p.value] + processed;
        timers := timers - {p.value.id};
        p, scheduled := None, true;
      }
    }

    /** What a response with the label `answer` does to the processed requests `ready`, when the callbacks had been
        called as in `before` and `gone` were destroyed: the first with the label, and no other, is called with it once;
        it stays if its callback wants more, and is destroyed if that does not or if there is none. */
    ghost predicate Answered(ready: seq<Request>, gone: seq<Request>, before: seq<Call>, answer: nat, keep: bool)
      reads this
    {
      var k := FirstMatch(ready, answer);
      && told == before + (if k < |ready| && ready[k].func then [Call(ready[k], false, keep)] else [])
      && if k == |ready| || (ready[k].func && keep) then processed == ready && destroyed == gone
         else processed == ready[..k] + ready[k + 1..] && destroyed == gone + [ready[k]]
    }

    method Drop(k: nat)
      requires Valid() && k < |processed|
      modifies this`processed, this`destroyed, this`timers
      ensures Valid() && View() == old(View()).Dropped(k)
    {
      View().DroppedInv(k);
      var r := processed[k];
      processed := processed[..k] + processed[k + 1..];
      PendingDestroy(r);
    }

    /** The loop of control_response; `keep` is what the callback says. */
    method Deliver(answer: nat) returns (ghost keep: bool)
      requires Valid()
      modifies this
      ensures Valid() && old(made) <= made && old(queue) <= queue && tried == old(tried)
      ensures p == old(p) && Answered(old(processed), old(destroyed), old(told), answer, keep)
    {
      keep := false;
      var k := FirstMatch(processed, answer);
      if k == |processed| {
        return;
      }
      if processed[k].func {
        var more := Func(processed[k], false);
        keep := more;
        if more {
          return;
        }
      }
      Drop(k);
    }

    /** Delivering a response leaves no callback to be called that has had its last word. */
    method DeliverLast(answer: nat) returns (ghost keep: bool)
      requires Valid()
      modifies this
      ensures Valid() && old(made) <= made && old(queue) <= queue && tried == old(tried)
      ensures p == old(p) && Answered(old(processed), old(destroyed), old(told), answer, keep)
      ensures LastWords(old(told), old(destroyed)) ==> LastWords(told, destroyed)
    {
      ghost var before, gone, ready, k := told, destroyed, processed, FirstMatch(processed, answer);
      if k < |ready| {
        View().ExactlyOnePlace(ready[k]);
      }
      keep := Deliver(answer);
      if k < |ready| && ready[k].func && LastWords(before, gone) {
        LastWordsMore(before, gone, Call(ready[k], false, keep), destroyed);
      }
    }

    /** control_response: the first processed request with the label gets the response, and is destroyed unless its
        callback wants more. */
    method ControlResponse(answer: nat) returns (ghost keep: bool)
      requires Valid()
      modifies this
      ensures Valid() && old(made) <= made && old(queue) <= queue && tried == old(tried)
      ensures var answered := old(p).Some? && old(p).value.transaction == answer;
              var ready := (if answered then [old(p).value] else []) + old(processed);
              && (answered ==> FirstMatch(ready, answer) == 0) && p == (if answered then None else old(p))
              && Answered(ready, old(destroyed), old(told), answer, keep)
      ensures LastWords(old(told), old(destroyed)) ==> LastWords(told, destroyed)
    {
      Settle(answer);
      assert processed == (if old(p).Some? && old(p).value.transaction == answer then [old(p).value] else [])
                          + old(processed);
      keep := DeliverLast(answer);
    }

    /** req_timeout: the request in flight is rejected, its callback may make new requests, and the next one will be
        tried. */
    method ReqTimeout() returns (ghost keep: bool)
      requires Valid() && p.Some?
      modifies this
      ensures Valid() && p.None? && scheduled && destroyed == old(destroyed) + [old(p).value]
      ensures old(made) <= made && old(queue) <= queue && tried == old(tried) && processed == old(processed)
      ensures told == old(told) + if old(p).value.func then [Call(old(p).value, true, keep)] else []
      ensures LastWords(old(told), old(destroyed)) ==> LastWords(told, destroyed)
    {
      keep := false;
      View().ExactlyOnePlace(p.value);
      if p.value.func {
        var more := Func(p.value, true);
        keep := more;
      }
      View().TimedOutInv();
      PendingDestroy(p.value);
      if p.value.func && LastWords(old(told), old(destroyed)) {
        LastWordsMore(old(told), old(destroyed), Call(p.value, true, keep), destroyed);
      }
      p, scheduled := None, true;
    }

    /** Requests made one after the other while none is processed carry consecutive labels: the scan does not look at
        the queue and the slot, so the label of the first comes back with the seventeenth, waiting or not. */
    method Burst(n: nat)
      requires Valid() && processed == []
      modifies this`transaction, this`count, this`queue, this`scheduled, this`made
      ensures Valid() && |queue| == |old(queue)| + n && old(queue) <= queue
      ensures forall j :: |old(queue)| <= j < |queue| ==>
                queue[j].transaction == (old(transaction) + (j - |old(queue)|)) % 16
    {
      for k := 0 to n
        invariant Valid() && |queue| == |old(queue)| + k && old(queue) <= queue
        invariant transaction == (old(transaction) + k) % 16
        invariant forall j :: |old(queue)| <= j < |queue| ==>
                    queue[j].transaction == (old(transaction) + (j - |old(queue)|)) % 16
      {
        assert Labels(processed) == [] && Scan([], 0, transaction) == transaction;
        SendReq(false);
      }
    }

    /** A list of requests is destroyed, front to back. */
    method DestroyAll(rs: seq<Request>)
      modifies this`destroyed, this`timers
      ensures destroyed == old(destroyed) + rs && timers <= old(timers)
    {
      for i := 0 to |rs|
        invariant destroyed == old(destroyed) + rs[..i] && timers <= old(timers)
      {
        assert rs[..i + 1] == rs[..i] + [rs[i]];
        Associative(old(destroyed), rs[..i], [rs[i]]);
        PendingDestroy(rs[i]);
      }
      assert rs[..|rs|] == rs;
    }

    /** avctp_channel_destroy: the request in flight, the queue, then the processed requests. Afterwards every request
        ever made has been destroyed once. */
    method Destroy()
      requires Valid()
      modifies this
      ensures View() == old(View()).Closed() && told == old(told) && old(destroyed) <= destroyed
      ensures forall r :: Times(destroyed, r) == if r in made then 1 else 0
    {
      ghost var g := View();
      if p.Some? {
        PendingDestroy(p.value);
      }
      scheduled := false;
      DestroyAll(queue);
      DestroyAll(processed);
      p, queue, processed := None, [], [];
      timers := {};
      assert destroyed == g.Closed().destroyed;
      forall r ensures Times(destroyed, r) == if r in made then 1 else 0 {
        g.ClosedDestroysAll(r);
      }
    }

    /** Any mix of requests, dispatches, responses and timeouts, and then the end of the channel. */
    method Run(es: seq<Event>)
      requires Valid() && LastWords(told, destroyed)
      modifies this
      ensures LastWords(told, destroyed)
      ensures old(made) <= made && forall r :: Times(destroyed, r) == if r in made then 1 else 0
      ensures p.None? && queue == [] && processed == [] && timers == {} && !scheduled
    {
      for i := 0 to |es|
        invariant Valid() && old(made) <= made && LastWords(told, destroyed)
      {
        match es[i]
        case Send(func) => SendReq(func);
        case Idle =>
          if scheduled {
            ProcessQueue();
          }
        case Answer(tid) => var _ := ControlResponse(tid);
        case Timer =>
          if p.Some? {
            var _ := ReqTimeout();
          }
      }
      ghost var gone := destroyed;
      Destroy();
      assert forall r :: r in gone ==> r in destroyed;
    }
  }
}
