/** Responses larger than the control channel's MTU (`avrcp_send_internal`, `request_continuing`,
    `abort_continuing`): each piece is sent when the peer asks for it, and what is left is kept in the session. */
module AvrcpContinuing {
  import opened Common

  const AVRCP_HEADER_LENGTH := 7
  const AVC_DATA_MTU := 512
  /** The AVCTP and AV/C headers avctp_send puts in front. */
  const LOWER_HEADERS := 6
  const AVRCP_ABORT_CONTINUING := 0x41

  const EINVAL := -22
  const EOVERFLOW := -75
  /** Whatever else makes sendmsg fail. */
  const EIO := -5

  datatype Type = SINGLE | START | CONTINUING | END

  datatype Packet = Packet(pduId: byte, kind: Type, params: seq<byte>)

  datatype Continuing = Continuing(pduId: byte, data: seq<byte>)

  /** The bytes of an iovec list. */
  function Flat(iov: seq<seq<byte>>): seq<byte>
    decreases |iov|
  {
    if iov == [] then [] else Flat(iov[..|iov| - 1]) + iov[|iov| - 1]
  }

  /** control_mtu for a channel of MTU `omtu`: AVC_DATA_OFFSET is `3 + 3` without parentheses, so 3 is subtracted
      and 3 added again. */
  function ControlMtu(omtu: nat): nat {
    Min(omtu - 3 + 3, AVC_DATA_MTU)
  }

  /** The packet type of a piece that does or does not end the response. */
  function KindOf(kind: Type, last: bool): Type {
    if kind == SINGLE then (if last then SINGLE else START) else (if last then END else CONTINUING)
  }

  function FirstPiece(pduId: byte, kind: Type, data: seq<byte>, cap: nat): Packet {
    Packet(pduId, KindOf(kind, |data| <= cap), if |data| <= cap then data else data[..cap])
  }

  function Remainder(pduId: byte, data: seq<byte>, cap: nat): Option<Continuing> {
    if |data| <= cap then None else Some(Continuing(pduId, data[cap..]))
  }

  predicate Unfinished(tried: seq<Packet>) {
    tried != [] && tried[|tried| - 1].kind in {START, CONTINUING}
  }

  /** The parameters of the packets since the response in hand was begun. */
  function Since(tried: seq<Packet>): seq<byte>
    decreases |tried|
  {
    if tried == [] then []
    else
      var last := tried[|tried| - 1];
      if last.kind in {SINGLE, START} then last.params else Since(tried[..|tried| - 1]) + last.params
  }

  lemma FlatNext(iov: seq<seq<byte>>, i: nat)
    requires i < |iov|
    ensures Flat(iov[..i + 1]) == Flat(iov[..i]) + iov[i]
  {
    assert iov[..i + 1][..i] == iov[..i];
  }

  lemma {:induction false} FlatPrefix(iov: seq<seq<byte>>, i: nat)
    requires i <= |iov|
    ensures |Flat(iov[..i])| <= |Flat(iov)|
    decreases |iov|
  {
    if i < |iov| {
      FlatPrefix(iov[..|iov| - 1], i);
      assert iov[..|iov| - 1][..i] == iov[..i];
    } else {
      assert iov[..i] == iov;
    }
  }

  /** Whether the last iovec is the only one that can overflow. */
  predicate OnlyLastOverflows(iov: seq<seq<byte>>, cap: int) {
    iov == [] || |Flat(iov[..|iov| - 1])| <= cap
  }

  lemma {:induction false} FlatAppend(a: seq<seq<byte>>, b: seq<seq<byte>>)
    ensures Flat(a + b) == Flat(a) + Flat(b)
    decreases |b|
  {
    if b == [] {
      assert a + b == a;
    } else {
      var front := b[..|b| - 1];
      FlatAppend(a, front);
      assert (a + b)[..|a + b| - 1] == a + front;
      Associative(Flat(a), Flat(front), b[|b| - 1]);
    }
  }

  /** The `i`-th iovec is the first that does not fit. */
  lemma OverflowsAt(iov: seq<seq<byte>>, i: nat, cap: nat)
    requires i < |iov| && |Flat(iov[..i])| <= cap < |Flat(iov[..i + 1])|
    ensures i == |iov| - 1 <==> OnlyLastOverflows(iov, cap)
    ensures Flat(iov) == Flat(iov[..i]) + iov[i] + Flat(iov[i + 1..])
  {
    if i < |iov| - 1 {
      assert iov[..|iov| - 1][..i + 1] == iov[..i + 1];
      FlatPrefix(iov[..|iov| - 1], i + 1);
    }
    FlatNext(iov, i);
    FlatAppend(iov[..i + 1], iov[i + 1..]);
    assert iov == iov[..i + 1] + iov[i + 1..];
  }

  lemma Regroup(params: seq<byte>, v: seq<byte>, room: nat, rest: seq<byte>)
    requires room <= |v|
    ensures params + v[..room] + (v[room..] + rest) == params + v + rest
  {
    assert v == v[..room] + v[room..];
  }

  /** The loop of avrcp_send_internal: what fits goes into the packet, the rest is kept (continuing_new). `unset` is the
      number of iovec slots that are handed to the socket without having been set. */
  method Fill(kind: Type, iov: seq<seq<byte>>, controlMtu: nat)
    returns (packetType: Type, params: seq<byte>, left: seq<byte>, unset: nat)
    requires controlMtu >= AVRCP_HEADER_LENGTH
    requires kind == SINGLE || (kind == CONTINUING && iov != [])
    ensures params + left == Flat(iov)
    ensures left != [] ==> |params| == controlMtu - AVRCP_HEADER_LENGTH
    ensures |params| <= controlMtu - AVRCP_HEADER_LENGTH && packetType == KindOf(kind, left == [])
    ensures unset == 0 <==> OnlyLastOverflows(iov, controlMtu - AVRCP_HEADER_LENGTH)
  {
    packetType, params, left, unset := kind, [], [], 0;
    var i := 0;
    while i < |iov|
      invariant i <= |iov| && params == Flat(iov[..i]) && |params| <= controlMtu - AVRCP_HEADER_LENGTH
      invariant packetType == if i == 0 then kind else KindOf(kind, true)
    {
      FlatNext(iov, i);
      if AVRCP_HEADER_LENGTH + |params| + |iov[i]| <= controlMtu {
        params := params + iov[i];
        if packetType != SINGLE {
          packetType := END;
        }
      } else {
        OverflowsAt(iov, i, controlMtu - AVRCP_HEADER_LENGTH);
        var room := controlMtu - (AVRCP_HEADER_LENGTH + |params|);
        Regroup(params, iov[i], room, Flat(iov[i + 1..]));
        left := iov[i][room..] + Flat(iov[i + 1..]);
        params := params + iov[i][..room];
        packetType := if packetType != SINGLE then CONTINUING else START;
        unset := |iov| - 1 - i;
        return;
      }
      i := i + 1;
    }
    assert iov[..i] == iov;
    if iov != [] {
      FlatPrefix(iov, |iov| - 1);
    }
  }

  lemma SinceNext(tried: seq<Packet>, p: Packet)
    ensures Since(tried + [p]) == if p.kind in {SINGLE, START} then p.params else Since(tried) + p.params
  {
    assert (tried + [p])[..|tried|] == tried;
  }

  lemma PieceOf(pduId: byte, kind: Type, params: seq<byte>, left: seq<byte>, cap: nat)
    requires |params| <= cap && (left != [] ==> |params| == cap)
    ensures FirstPiece(pduId, kind, params + left, cap) == Packet(pduId, KindOf(kind, left == []), params)
    ensures Remainder(pduId, params + left, cap) == if left == [] then None else Some(Continuing(pduId, left))
  {
    assert left == [] ==> params + left == params;
    assert left != [] ==> (params + left)[..cap] == params && (params + left)[cap..] == left;
  }

  // ---------------------------------------------------------------- the pieces of a response

  /** The packets that carry `data` when the peer asks for every piece. */
  function Pieces(pduId: byte, kind: Type, data: seq<byte>, cap: nat): seq<Packet>
    requires cap > 0
    decreases |data|
  {
    [FirstPiece(pduId, kind, data, cap)]
    + if |data| <= cap then [] else Pieces(pduId, CONTINUING, data[cap..], cap)
  }

  /** The packets that a remainder will still make. */
  function ToCome(left: Option<Continuing>, cap: nat): seq<Packet>
    requires cap > 0
  {
    if left.None? then [] else Pieces(left.value.pduId, CONTINUING, left.value.data, cap)
  }

  lemma PiecesStep(sent: seq<Packet>, pduId: byte, kind: Type, data: seq<byte>, cap: nat)
    requires cap > 0
    ensures sent + Pieces(pduId, kind, data, cap)
         == sent + [FirstPiece(pduId, kind, data, cap)] + ToCome(Remainder(pduId, data, cap), cap)
  {
  }

  class Session {
    const omtu: nat
    const controlMtu: nat
    var continuing: Option<Continuing>
    /** The packets handed to avctp_send, and those the socket took. */
    ghost var tried: seq<Packet>
    ghost var wire: seq<Packet>
    /** The response in hand. */
    ghost var whole: seq<byte>

    ghost function Rest(): seq<byte>
      reads this
    {
      if continuing.Some? then continuing.value.data else []
    }

    /** What every mix of responses, requests for more and aborts keeps: a remainder is stored exactly while the last
        piece was START or CONTINUING, and the pieces so far and the remainder are the response. */
    ghost predicate Valid()
      reads this
    {
      && controlMtu == ControlMtu(omtu) && controlMtu > AVRCP_HEADER_LENGTH
      && (continuing.Some? <==> Unfinished(tried))
      && (continuing.Some? ==> continuing.value.data != [] && tried[|tried| - 1].pduId == continuing.value.pduId)
      && Since(tried) + Rest() == whole
    }

    /** What a packet has room for after the AVRCP header. */
    function Cap(): nat
      requires controlMtu > AVRCP_HEADER_LENGTH
    {
      controlMtu - AVRCP_HEADER_LENGTH
    }

    constructor (omtu: nat)
      requires omtu > AVRCP_HEADER_LENGTH
      ensures Valid() && this.omtu == omtu && continuing == None && tried == wire == []
    {
      var offset := omtu - 3 + 3;
      this.omtu, controlMtu := omtu, if offset > AVC_DATA_MTU then AVC_DATA_MTU else offset;
      continuing, tried, wire, whole := None, [], [], [];
    }

    /** avctp_send_vendor: the length check of avctp_send, then the socket. What it does with slots that have not been
        set is undefined. */
    method AvctpSend(packet: Packet, unset: nat) returns (err: int)
      modifies this`tried, this`wire
      ensures tried == old(tried) + [packet] && err <= 0
      ensures unset == 0 ==>
                && wire == (if err == 0 then old(wire) + [packet] else old(wire))
                && (err == EOVERFLOW <==> omtu < LOWER_HEADERS + AVRCP_HEADER_LENGTH + |packet.params|)
    {
      tried := tried + [packet];
      if unset > 0 {
        wire := *;
        var undefined: int := *;
        return Min(undefined, 0);
      }
      if omtu < LOWER_HEADERS + AVRCP_HEADER_LENGTH + |packet.params| {
        return EOVERFLOW;
      }
      var ok: bool := *;
      if !ok {
        return EIO;
      }
      wire := wire + [packet];
      return 0;
    }

    /** avrcp_send_internal. The stored remainder is replaced before the send, and stays replaced when the send fails.
        `defined` is false when unset iovec slots go to the socket: exactly when an iovec before the last overflows. */
    method SendInternal(pduId: byte, kind: Type, iov: seq<seq<byte>>) returns (err: int, ghost defined: bool)
      requires controlMtu == ControlMtu(omtu) && controlMtu > AVRCP_HEADER_LENGTH
      requires kind == SINGLE
               || (Valid() && kind == CONTINUING && iov != [] && continuing == Some(Continuing(pduId, Flat(iov))))
      modifies this
      ensures Valid() && (defined <==> OnlyLastOverflows(iov, Cap()))
      ensures tried == old(tried) + [FirstPiece(pduId, kind, Flat(iov), Cap())]
      ensures continuing == Remainder(pduId, Flat(iov), Cap())
      ensures whole == if kind == SINGLE then Flat(iov) else old(whole)
      ensures err <= 0
      ensures defined ==>
                && wire == (if err == 0 then old(wire) + [FirstPiece(pduId, kind, Flat(iov), Cap())] else old(wire))
                && (err == EOVERFLOW <==> omtu < LOWER_HEADERS + AVRCP_HEADER_LENGTH + Min(|Flat(iov)|, Cap()))
    {
      var packetType, params, left, unset := Fill(kind, iov, controlMtu);
      if kind == SINGLE {
        whole := Flat(iov);
      }
      continuing := if left == [] then None else Some(Continuing(pduId, left));
      PieceOf(pduId, kind, params, left, Cap());
      Associative(Since(tried), params, left);
      SinceNext(tried, Packet(pduId, packetType, params));
      defined := unset == 0;
      err := AvctpSend(Packet(pduId, packetType, params), unset);
    }

    /** request_continuing */
    method RequestContinuing(params: seq<byte>) returns (err: int)
      requires Valid()
      modifies this
      ensures Valid() && err <= 0
      ensures var asked := |params| == 1 && old(continuing).Some? && old(continuing).value.pduId == params[0];
              if asked then
                var left := old(continuing).value.data;
                && tried == old(tried) + [FirstPiece(params[0], CONTINUING, left, Cap())]
                && continuing == Remainder(params[0], left, Cap()) && whole == old(whole)
                && wire == (if err == 0 then old(wire) + [FirstPiece(params[0], CONTINUING, left, Cap())]
                            else old(wire))
                && (omtu < LOWER_HEADERS + AVRCP_HEADER_LENGTH + Min(|left|, Cap()) ==> err < 0)
              else
                err == EINVAL && tried == old(tried) && wire == old(wire) && continuing == old(continuing)
    {
      if |params| != 1 || continuing.None? || continuing.value.pduId != params[0] {
        return EINVAL;
      }
      var iov := [continuing.value.data];
      assert iov[..0] == [] && Flat(iov) == continuing.value.data;
      ghost var defined;
      err, defined := SendInternal(params[0], CONTINUING, iov);
      if err < 0 {
        err := EINVAL;
      }
    }

    /** abort_continuing: the identifier is not looked at */
    method AbortContinuing(params: seq<byte>) returns (err: int)
      requires Valid()
      modifies this
      ensures Valid()
      ensures if |params| == 1 && old(continuing).Some? then
                err == 0 && continuing == None && whole == []
                && tried == old(tried) + [Packet(AVRCP_ABORT_CONTINUING, SINGLE, [])]
              else
                err == EINVAL && tried == old(tried) && continuing == old(continuing) && wire == old(wire)
    {
      if |params| != 1 || continuing.None? {
        return EINVAL;
      }
      continuing := None;
      var err', defined := SendInternal(AVRCP_ABORT_CONTINUING, SINGLE, []);
      return 0;
    }

    /** One request for more of the response in hand. */
    method RespondMore() returns (ok: bool)
      requires Valid() && continuing.Some?
      modifies this
      ensures Valid() && |Rest()| < old(|Rest()|)
      ensures continuing.Some? ==> continuing.value.pduId == old(continuing).value.pduId
      ensures if ok then wire + ToCome(continuing, Cap()) == old(wire) + ToCome(old(continuing), Cap())
              else wire == old(wire)
    {
      PiecesStep(wire, continuing.value.pduId, CONTINUING, continuing.value.data, Cap());
      var err := RequestContinuing([continuing.value.pduId]);
      ok := err == 0;
    }

    /** A response and the peer's requests for the rest of it, for as long as the sends succeed. */
    method Respond(pduId: byte, iov: seq<seq<byte>>) returns (ok: bool)
      requires Valid()
      modifies this
      ensures Valid() && (ok ==> continuing == None)
      ensures OnlyLastOverflows(iov, Cap()) ==>
                && (ok ==> wire == old(wire) + Pieces(pduId, SINGLE, Flat(iov), Cap()))
                && (|Flat(iov)| > Cap() && omtu < LOWER_HEADERS + controlMtu ==> !ok && wire == old(wire))
    {
      ghost var fine := OnlyLastOverflows(iov, Cap());
      var err, defined := SendInternal(pduId, SINGLE, iov);
      ok := err == 0;
      PiecesStep(old(wire), pduId, SINGLE, Flat(iov), Cap());
      ghost var all := old(wire) + Pieces(pduId, SINGLE, Flat(iov), Cap());
      while ok && continuing.Some?
        invariant Valid() && (continuing.Some? ==> continuing.value.pduId == pduId)
        invariant fine && ok ==> wire + ToCome(continuing, Cap()) == all
        invariant fine && |Flat(iov)| > Cap() && omtu < LOWER_HEADERS + controlMtu ==> !ok && wire == old(wire)
        decreases |Rest()|, ok
      {
        ok := RespondMore();
      }
    }
  }

  /** The receiver's side (AVRCP 1.5 section 6.8.1): a response is one SINGLE packet, or one START, any number of
      CONTINUING and one END packet of the same PDU. */
  function Rejoin(packets: seq<Packet>): Option<seq<byte>> {
    if packets == [] then None
    else if packets[0].kind == SINGLE then if |packets| == 1 then Some(packets[0].params) else None
    else if packets[0].kind == START then Rest(packets[0].pduId, packets[0].params, packets[1..])
    else None
  }

  function Rest(pduId: byte, got: seq<byte>, packets: seq<Packet>): Option<seq<byte>>
    decreases |packets|
  {
    if packets == [] || packets[0].pduId != pduId then None
    else if packets[0].kind == END then if |packets| == 1 then Some(got + packets[0].params) else None
    else if packets[0].kind == CONTINUING then Rest(pduId, got + packets[0].params, packets[1..])
    else None
  }

  lemma RestStep(pduId: byte, got: seq<byte>, first: Packet, tail: seq<Packet>)
    requires first.pduId == pduId && first.kind == CONTINUING
    ensures Rest(pduId, got, [first] + tail) == Rest(pduId, got + first.params, tail)
  {
    assert ([first] + tail)[1..] == tail;
  }

  lemma {:induction false} RestOfPieces(pduId: byte, got: seq<byte>, data: seq<byte>, cap: nat)
    requires cap > 0
    ensures Rest(pduId, got, Pieces(pduId, CONTINUING, data, cap)) == Some(got + data)
    decreases |data|
  {
    if |data| > cap {
      var first, tail := FirstPiece(pduId, CONTINUING, data, cap), Pieces(pduId, CONTINUING, data[cap..], cap);
      RestStep(pduId, got, first, tail);
      RestOfPieces(pduId, got + data[..cap], data[cap..], cap);
      Associative(got, data[..cap], data[cap..]);
      assert data == data[..cap] + data[cap..];
    } else {
      assert Pieces(pduId, CONTINUING, data, cap) == [Packet(pduId, END, data)];
    }
  }

  /** The peer gets the response back. */
  lemma RejoinPieces(pduId: byte, data: seq<byte>, cap: nat)
    requires cap > 0
    ensures Rejoin(Pieces(pduId, SINGLE, data, cap)) == Some(data)
  {
    if |data| > cap {
      var first, tail := FirstPiece(pduId, SINGLE, data, cap), Pieces(pduId, CONTINUING, data[cap..], cap);
      RestOfPieces(pduId, data[..cap], data[cap..], cap);
      assert Pieces(pduId, SINGLE, data, cap) == [first] + tail && ([first] + tail)[1..] == tail;
      assert data[..cap] + data[cap..] == data;
    }
  }

  /** There are ceil(|data| / cap) pieces, at least one; all but the last are full, none but the only piece of an empty
      response is empty. */
  lemma {:induction false} PieceCount(pduId: byte, kind: Type, data: seq<byte>, cap: nat)
    requires cap > 0
    ensures var ps := Pieces(pduId, kind, data, cap);
            && cap * (|ps| - 1) <= |data| <= cap * |ps|
            && (data != [] ==> cap * (|ps| - 1) < |data|) && (data == [] ==> |ps| == 1)
            && (forall i :: 0 <= i < |ps| - 1 ==> |ps[i].params| == cap)
            && (data != [] ==> forall i :: 0 <= i < |ps| ==> ps[i].params != [])
    decreases |data|
  {
    if |data| <= cap {
    } else {
      PieceCount(pduId, CONTINUING, data[cap..], cap);
      var tail := Pieces(pduId, CONTINUING, data[cap..], cap);
      assert cap * |tail| == cap * (|tail| - 1) + cap;
    }
  }

  /** The packet types of a whole response: one SINGLE; or one START, then CONTINUING, and one END. */
  predicate WellTyped(ps: seq<Packet>, pduId: byte, kind: Type) {
    forall i :: 0 <= i < |ps| ==>
      ps[i].pduId == pduId && ps[i].kind == KindOf(if i == 0 then kind else CONTINUING, i == |ps| - 1)
  }

  lemma {:induction false} PieceKinds(pduId: byte, kind: Type, data: seq<byte>, cap: nat)
    requires cap > 0
    ensures WellTyped(Pieces(pduId, kind, data, cap), pduId, kind)
    decreases |data|
  {
    if |data| <= cap {
    } else {
      PieceKinds(pduId, CONTINUING, data[cap..], cap);
      var tail := Pieces(pduId, CONTINUING, data[cap..], cap);
      var first := FirstPiece(pduId, kind, data, cap);
      assert tail != [] && first.kind == KindOf(kind, false) && Pieces(pduId, kind, data, cap) == [first] + tail;
      assert forall i :: 0 < i < |tail| + 1 ==> ([first] + tail)[i] == tail[i - 1];
    }
  }

  /** A full piece passes the length check of avctp_send exactly when the channel's MTU is at least 518: below that
      control_mtu leaves no room for the AVCTP and AV/C headers. */
  lemma FullPiecePasses(omtu: nat)
    ensures LOWER_HEADERS + ControlMtu(omtu) <= omtu <==> omtu >= 518
  {
  }

  lemma {:induction false} PieceSizes(pduId: byte, kind: Type, data: seq<byte>, cap: nat)
    requires cap > 0
    ensures forall p <- Pieces(pduId, kind, data, cap) :: |p.params| <= cap
    decreases |data|
  {
    if |data| <= cap {
    } else {
      PieceSizes(pduId, CONTINUING, data[cap..], cap);
    }
  }

  /** Every piece of a response passes the check exactly when the MTU is at least 518 or the response fits a packet of
      six bytes fewer than the MTU. */
  lemma EveryPiecePasses(pduId: byte, data: seq<byte>, omtu: nat)
    requires omtu > AVRCP_HEADER_LENGTH
    ensures var ps := Pieces(pduId, SINGLE, data, ControlMtu(omtu) - AVRCP_HEADER_LENGTH);
            (forall i :: 0 <= i < |ps| ==> LOWER_HEADERS + AVRCP_HEADER_LENGTH + |ps[i].params| <= omtu)
            <==> omtu >= 518 || LOWER_HEADERS + AVRCP_HEADER_LENGTH + |data| <= omtu
  {
    var cap := ControlMtu(omtu) - AVRCP_HEADER_LENGTH;
    var ps := Pieces(pduId, SINGLE, data, cap);
    PieceCount(pduId, SINGLE, data, cap);
    if |data| <= cap {
      assert ps[0].params == data;
    } else {
      assert |ps[0].params| == cap;
      PieceSizes(pduId, SINGLE, data, cap);
    }
  }
}
