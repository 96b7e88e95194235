/** AVDTP signalling messages on the wire (AVDTP 1.3, section 8.4): the fragmenter `avdtp_send`
    and the reassembler `avdtp_parse_data`, with their 8-bit counters. */
module AvdtpWire {
  import opened Common

  const PKT_SINGLE := 0
  const PKT_START := 1
  const PKT_CONTINUE := 2
  const PKT_END := 3

  /** sizeof(in_buf.buf) */
  const IN_BUF_SIZE := 1024

  type label4 = x: int | 0 <= x < 16
  type kind2 = x: int | 0 <= x < 4
  type signal6 = x: int | 0 <= x < 64

  datatype Message = Message(transaction: label4, kind: kind2, signal: signal6, payload: seq<byte>)

  /** A packet with its header taken apart; `Short` is one that ends inside its header. */
  datatype Frame =
    | Single(transaction: label4, kind: kind2, signal: signal6, payload: seq<byte>)
    | Start(transaction: label4, kind: kind2, count: byte, signal: signal6, payload: seq<byte>)
    | Continue(transaction: label4, kind: kind2, payload: seq<byte>)
    | End(transaction: label4, kind: kind2, payload: seq<byte>)
    | Short

  // ---------------------------------------------------------------- packet layout

  /** First octet of every packet: message type, packet type and transaction label. */
  function HeaderByte(transaction: label4, pkt: kind2, kind: kind2): byte {
    kind + 4 * pkt + 16 * transaction
  }

  function KindOf(b: byte): kind2 { b % 4 }

  function PktOf(b: byte): kind2 { b / 4 % 4 }

  function LabelOf(b: byte): label4 { b / 16 }

  function SignalOf(b: byte): signal6 { b % 64 }

  function Encode(f: Frame): seq<byte> {
    match f
    case Short => []
    case Single(t, k, s, p) => [HeaderByte(t, PKT_SINGLE, k), s] + p
    case Start(t, k, c, s, p) => [HeaderByte(t, PKT_START, k), c, s] + p
    case Continue(t, k, p) => [HeaderByte(t, PKT_CONTINUE, k)] + p
    case End(t, k, p) => [HeaderByte(t, PKT_END, k)] + p
  }

  function Decode(p: seq<byte>): Frame {
    if |p| < 1 then Short
    else if PktOf(p[0]) == PKT_SINGLE then
      if |p| < 2 then Short else Single(LabelOf(p[0]), KindOf(p[0]), SignalOf(p[1]), p[2..])
    else if PktOf(p[0]) == PKT_START then
      if |p| < 3 then Short else Start(LabelOf(p[0]), KindOf(p[0]), p[1], SignalOf(p[2]), p[3..])
    else if PktOf(p[0]) == PKT_CONTINUE then
      Continue(LabelOf(p[0]), KindOf(p[0]), p[1..])
    else
      End(LabelOf(p[0]), KindOf(p[0]), p[1..])
  }

  lemma HeaderFields(transaction: label4, pkt: kind2, kind: kind2)
    ensures var b := HeaderByte(transaction, pkt, kind);
            KindOf(b) == kind && PktOf(b) == pkt && LabelOf(b) == transaction
  {
  }

  /** The first octet, from the least significant bit: two bits of message type, two of packet type (SINGLE 0, START 1,
      CONTINUE 2, END 3) and the label; the number of packets follows in START, and the signal in SINGLE and START. */
  lemma Layout(f: Frame)
    ensures match f
            case Short => Encode(f) == []
            case Single(t, k, s, p) => Encode(f) == [16 * t + k, s] + p
            case Start(t, k, c, s, p) => Encode(f) == [16 * t + 4 + k, c, s] + p
            case Continue(t, k, p) => Encode(f) == [16 * t + 8 + k] + p
            case End(t, k, p) => Encode(f) == [16 * t + 12 + k] + p
  {
  }

  lemma DecodeEncode(f: Frame)
    ensures Decode(Encode(f)) == f
  {
    var p := Encode(f);
    match f
    case Short =>
    case Single(t, k, s, d) =>
      HeaderFields(t, PKT_SINGLE, k);
      assert p[2..] == d;
    case Start(t, k, c, s, d) =>
      HeaderFields(t, PKT_START, k);
      assert p[3..] == d;
    case Continue(t, k, d) =>
      HeaderFields(t, PKT_CONTINUE, k);
      assert p[1..] == d;
    case End(t, k, d) =>
      HeaderFields(t, PKT_END, k);
      assert p[1..] == d;
  }

  function EncodeAll(fs: seq<Frame>): (ps: seq<seq<byte>>)
    ensures |ps| == |fs|
  {
    if fs == [] then [] else [Encode(fs[0])] + EncodeAll(fs[1..])
  }

  function DecodeAll(ps: seq<seq<byte>>): (fs: seq<Frame>)
    ensures |fs| == |ps|
  {
    if ps == [] then [] else [Decode(ps[0])] + DecodeAll(ps[1..])
  }

  lemma {:induction false} DecodeEncodeAll(fs: seq<Frame>)
    ensures DecodeAll(EncodeAll(fs)) == fs
  {
    if fs == [] {
    } else {
      DecodeEncode(fs[0]);
      DecodeEncodeAll(fs[1..]);
      assert EncodeAll(fs)[1..] == EncodeAll(fs[1..]);
    }
  }

  lemma EncodeCons(f: Frame, fs: seq<Frame>)
    ensures EncodeAll([f] + fs) == [Encode(f)] + EncodeAll(fs)
  {
    assert ([f] + fs)[1..] == fs;
  }

  // ---------------------------------------------------------------- what the sender puts on the wire

  /** Number of packets the START header announces, before it is squeezed into its octet. */
  function AnnouncedCount(omtu: nat, len: nat): nat
    requires 3 <= omtu < len + 2
  {
    (len - (omtu - 3)) / (omtu - 1) + 2
  }

  /** How much of `left` octets the next fragment takes. */
  function NextFragment(omtu: nat, left: nat): (n: nat)
    requires 3 <= omtu
    ensures n <= left && (0 < left ==> 0 < n)
  {
    if left + 1 > omtu then omtu - 1 else left
  }

  /** The CONTINUE packets and the END packet that carry `rest`. */
  function TailFrames(omtu: nat, t: label4, k: kind2, rest: seq<byte>): seq<Frame>
    requires 3 <= omtu
    decreases |rest|
  {
    if |rest| == 0 then
      []
    else
      var n := NextFragment(omtu, |rest|);
      [if n < |rest| then Continue(t, k, rest[..n]) else End(t, k, rest[..n])]
      + TailFrames(omtu, t, k, rest[n..])
  }

  predicate Sendable(omtu: nat, m: Message) {
    |m.payload| + 2 <= omtu || 3 <= omtu
  }

  function StartFrame(omtu: nat, m: Message): Frame
    requires 3 <= omtu < |m.payload| + 2
  {
    Start(m.transaction, m.kind, AnnouncedCount(omtu, |m.payload|) % 256, m.signal, m.payload[..omtu - 3])
  }

  function Frames(omtu: nat, m: Message): seq<Frame>
    requires Sendable(omtu, m)
  {
    if |m.payload| + 2 <= omtu then
      [Single(m.transaction, m.kind, m.signal, m.payload)]
    else
      [StartFrame(omtu, m)] + TailFrames(omtu, m.transaction, m.kind, m.payload[omtu - 3..])
  }

  /** The packets avdtp_send makes of a message. */
  function Packets(omtu: nat, m: Message): seq<seq<byte>>
    requires Sendable(omtu, m)
  {
    EncodeAll(Frames(omtu, m))
  }

  /** The socket refused one of the `packets`: those before it went out, and it is the one in `lost`. */
  ghost predicate CutShort(before: seq<seq<byte>>, after: seq<seq<byte>>, packets: seq<seq<byte>>,
                           lost: seq<seq<byte>>) {
    exists k :: 0 <= k < |packets| && after == before + packets[..k] && lost == [packets[k]]
  }

  lemma PrefixIsCut(before: seq<seq<byte>>, after: seq<seq<byte>>, rest: seq<seq<byte>>, packets: seq<seq<byte>>)
    requires |before| <= |after| && rest != [] && after + rest == before + packets
    ensures CutShort(before, after, packets, [rest[0]])
  {
    var k := |after| - |before|;
    assert after == (before + packets)[..|after|] == before + packets[..k];
    assert rest[0] == (after + rest)[|after|] == packets[k];
  }

  lemma CutLater(before: seq<seq<byte>>, mid: seq<seq<byte>>, after: seq<seq<byte>>,
                 head: seq<seq<byte>>, tail: seq<seq<byte>>, lost: seq<seq<byte>>)
    requires mid == before + head && CutShort(mid, after, tail, lost)
    ensures CutShort(before, after, head + tail, lost)
  {
    var k :| 0 <= k < |tail| && after == mid + tail[..k] && lost == [tail[k]];
    assert (head + tail)[..|head| + k] == head + tail[..k];
  }

  lemma NothingSent(before: seq<seq<byte>>, packets: seq<seq<byte>>)
    requires packets != []
    ensures CutShort(before, before, packets, [packets[0]])
  {
    assert before + packets[..0] == before;
  }

  /** The packets that are still to go out when the first `sent` octets of the payload have. */
  function Tail(omtu: nat, m: Message, sent: nat): seq<seq<byte>>
    requires 3 <= omtu && sent <= |m.payload|
  {
    EncodeAll(TailFrames(omtu, m.transaction, m.kind, m.payload[sent..]))
  }

  /** The packet of the loop's round that begins at `sent`. */
  function NextPacket(omtu: nat, m: Message, sent: nat): seq<byte>
    requires 3 <= omtu && sent < |m.payload|
  {
    var left := |m.payload| - sent;
    [HeaderByte(m.transaction, if left + 1 > omtu then PKT_CONTINUE else PKT_END, m.kind)]
    + m.payload[sent..sent + NextFragment(omtu, left)]
  }

  /** The next packet the loop sends is the head of what is still to go out. */
  lemma TailHead(omtu: nat, t: label4, k: kind2, rest: seq<byte>)
    requires 3 <= omtu && 0 < |rest|
    ensures EncodeAll(TailFrames(omtu, t, k, rest))
         == [[HeaderByte(t, if |rest| + 1 > omtu then PKT_CONTINUE else PKT_END, k)]
             + rest[..NextFragment(omtu, |rest|)]]
          + EncodeAll(TailFrames(omtu, t, k, rest[NextFragment(omtu, |rest|)..]))
  {
    var n := NextFragment(omtu, |rest|);
    EncodeCons(if n < |rest| then Continue(t, k, rest[..n]) else End(t, k, rest[..n]),
               TailFrames(omtu, t, k, rest[n..]));
  }

  lemma TailNext(omtu: nat, m: Message, sent: nat)
    requires 3 <= omtu && sent < |m.payload|
    ensures Tail(omtu, m, sent)
            == [NextPacket(omtu, m, sent)] + Tail(omtu, m, sent + NextFragment(omtu, |m.payload| - sent))
  {
    var next := sent + NextFragment(omtu, |m.payload| - sent);
    TailHead(omtu, m.transaction, m.kind, m.payload[sent..]);
    assert m.payload[sent..][..next - sent] == m.payload[sent..next];
    assert m.payload[sent..][next - sent..] == m.payload[next..];
  }

  /** The START packet and the packets of the rest. */
  lemma StartAndTail(omtu: nat, m: Message)
    requires 3 <= omtu < |m.payload| + 2
    ensures Packets(omtu, m)
            == [Encode(StartFrame(omtu, m))] + Tail(omtu, m, omtu - 3)
  {
    EncodeCons(StartFrame(omtu, m), TailFrames(omtu, m.transaction, m.kind, m.payload[omtu - 3..]));
  }

  /** The sending half of a session: `buf` is the staging buffer, `wire` the packets the socket took, `refused` those it
      did not. */
  class Sender {
    var io: bool
    const omtu: nat
    const buf: array<byte>
    ghost var wire: seq<seq<byte>>
    ghost var refused: seq<seq<byte>>

    ghost predicate Valid()
      reads this
    {
      omtu <= buf.Length
    }

    constructor (imtu: nat, omtu: nat)
      ensures Valid() && fresh(buf) && this.omtu == omtu && io && wire == refused == []
    {
      this.omtu := omtu;
      buf := new byte[Max(imtu, omtu)](_ => 0);
      io := true;
      wire, refused := [], [];
    }

    /** memcpy into the staging buffer */
    method Fill(at: nat, data: seq<byte>)
      requires at + |data| <= buf.Length
      modifies buf
      ensures buf[..at] == old(buf[..at])
      ensures buf[at..at + |data|] == data
    {
      for i := 0 to |data|
        invariant buf[..at] == old(buf[..at])
        invariant buf[at..at + i] == data[..i]
      {
        buf[at + i] := data[i];
      }
    }

    /** The packet has been handed to the socket. */
    ghost predicate Outcome(wireBefore: seq<seq<byte>>, refusedBefore: seq<seq<byte>>, packet: seq<byte>, ok: bool)
      reads this`wire, this`refused
    {
      wire == wireBefore + (if ok then [packet] else []) && refused == refusedBefore + if ok then [] else [packet]
    }

    /** The socket either takes the whole packet or reports an error. */
    method TrySend(n: nat) returns (ok: bool)
      requires n <= buf.Length
      modifies this`wire, this`refused
      ensures Outcome(old(wire), old(refused), buf[..n], ok)
    {
      ok := *;
      if ok {
        wire := wire + [buf[..n]];
      } else {
        refused := refused + [buf[..n]];
      }
    }

    /** Stages `header` followed by `data` and hands both to the socket as one packet. */
    method SendPacket(header: seq<byte>, data: seq<byte>) returns (ok: bool)
      requires Valid() && |header| + |data| <= omtu
      modifies this`wire, this`refused, buf
      ensures Outcome(old(wire), old(refused), header + data, ok)
    {
      Fill(0, header);
      assert buf[..|header|] == buf[0..|header|] == header;
      Fill(|header|, data);
      assert buf[..|header| + |data|] == buf[..|header|] + buf[|header|..|header| + |data|];
      ok := TrySend(|header| + |data|);
    }

    /** The START packet of avdtp_send, with the number of fragments cut to its octet. */
    method SendStart(m: Message) returns (ok: bool)
      requires Valid() && 3 <= omtu < |m.payload| + 2
      modifies this`wire, this`refused, buf
      ensures Outcome(old(wire), old(refused), Encode(StartFrame(omtu, m)), ok)
    {
      var contFragments := (|m.payload| - (omtu - 3)) / (omtu - 1) + 1;
      ok := SendPacket([HeaderByte(m.transaction, PKT_START, m.kind), (contFragments + 1) % 256, m.signal],
                       m.payload[..omtu - 3]);
    }

    /** One round of the loop of avdtp_send. */
    method SendNext(m: Message, sent: nat) returns (ok: bool, next: nat)
      requires Valid() && 3 <= omtu && sent < |m.payload|
      modifies this`wire, this`refused, buf
      ensures sent < next <= |m.payload| && |old(wire)| <= |wire| && Tail(omtu, m, sent) != []
      ensures if ok then wire + Tail(omtu, m, next) == old(wire) + Tail(omtu, m, sent) && refused == old(refused)
              else wire == old(wire) && refused == old(refused) + [Tail(omtu, m, sent)[0]]
    {
      var left := |m.payload| - sent;
      var pkt, toCopy;
      if left + 1 > omtu {
        pkt, toCopy := PKT_CONTINUE, omtu - 1;
      } else {
        pkt, toCopy := PKT_END, left;
      }
      next := sent + toCopy;
      TailNext(omtu, m, sent);
      ok := SendPacket([HeaderByte(m.transaction, pkt, m.kind)], m.payload[sent..next]);
      if ok {
        Associative(old(wire), [NextPacket(omtu, m, sent)], Tail(omtu, m, next));
      }
    }

    /** All of the packets went out; or those before one that the socket refused did, and none after it was tried. */
    ghost predicate Ended(wireBefore: seq<seq<byte>>, refusedBefore: seq<seq<byte>>, packets: seq<seq<byte>>, ok: bool)
      reads this`wire, this`refused
    {
      if ok then wire == wireBefore + packets && refused == refusedBefore
      else refusedBefore <= refused && CutShort(wireBefore, wire, packets, refused[|refusedBefore|..])
    }

    /** The loop of avdtp_send over what the START packet left. */
    method SendTail(m: Message, from: nat) returns (ok: bool)
      requires Valid() && 3 <= omtu && from <= |m.payload|
      modifies this`wire, this`refused, buf
      ensures Ended(old(wire), old(refused), Tail(omtu, m, from), ok)
    {
      var sent := from;
      while sent < |m.payload|
        invariant sent <= |m.payload| && |old(wire)| <= |wire|
        invariant wire + Tail(omtu, m, sent) == old(wire) + Tail(omtu, m, from) && refused == old(refused)
      {
        ghost var rest := Tail(omtu, m, sent);
        var next;
        ok, next := SendNext(m, sent);
        if !ok {
          PrefixIsCut(old(wire), wire, rest, Tail(omtu, m, from));
          return;
        }
        sent := next;
      }
      return true;
    }

    /** What avdtp_send does with a message that does not fit one packet. */
    method SendFragmented(m: Message) returns (ok: bool)
      requires Valid() && 3 <= omtu < |m.payload| + 2
      modifies this`wire, this`refused, buf
      ensures Ended(old(wire), old(refused), Packets(omtu, m), ok)
    {
      StartAndTail(omtu, m);
      ghost var start := [Encode(StartFrame(omtu, m))];
      ghost var tail := Tail(omtu, m, omtu - 3);
      ok := SendStart(m);
      if !ok {
        NothingSent(wire, Packets(omtu, m));
        return;
      }
      ghost var started := wire;
      ok := SendTail(m, omtu - 3);
      if ok {
        Associative(old(wire), start, tail);
      } else {
        CutLater(old(wire), started, wire, start, tail, refused[|old(refused)|..]);
      }
    }

    /** avdtp_send */
    method Send(m: Message) returns (ok: bool)
      requires Valid()
      modifies this`wire, this`refused, buf
      ensures !io || !Sendable(omtu, m) ==> !ok && wire == old(wire) && refused == old(refused)
      ensures io && Sendable(omtu, m) ==> Ended(old(wire), old(refused), Packets(omtu, m), ok)
    {
      if !io {
        return false;
      }
      if 2 + |m.payload| <= omtu {
        ok := SendPacket([HeaderByte(m.transaction, PKT_SINGLE, m.kind), m.signal], m.payload);
        if !ok {
          NothingSent(wire, Packets(omtu, m));
        }
        return;
      }
      if omtu < 3 {
        return false;
      }
      ok := SendFragmented(m);
    }
  }

  // ---------------------------------------------------------------- the reassembler

  datatype ParseResult = PARSE_ERROR | PARSE_FRAGMENT | PARSE_SUCCESS

  /** Value of `struct in_buf`. */
  datatype InState = InState(active: bool, count: int, transaction: label4, kind: kind2, signal: signal6,
                             buf: seq<byte>, size: byte)
  {
    predicate Valid() {
      |buf| == IN_BUF_SIZE
    }

    function Received(): Message
      requires Valid()
    {
      Message(transaction, kind, signal, buf[..size])
    }

    /** The state on entry to the copy, or None when the header is refused. */
    function Opened(f: Frame): Option<InState> {
      match f
      case Short => None
      case Single(t, k, s, _) =>
        if active then None
        else Some(this.(active := true, size := 0, count := 1, transaction := t, kind := k, signal := s))
      case Start(t, k, c, s, _) =>
        if active then None
        else Some(this.(active := true, size := 0, count := c, transaction := t, kind := k, signal := s))
      case Continue(t, _, _) =>
        if !active || transaction != t || count <= 1 then None else Some(this)
      case End(t, _, _) =>
        if !active || transaction != t || count > 1 then None else Some(this)
    }

    function Copied(data: seq<byte>): InState
      requires Valid() && size + |data| <= IN_BUF_SIZE
    {
      this.(buf := buf[..size] + data + buf[size + |data|..], size := (size + |data|) % 256)
    }
  }

  /** One call of avdtp_parse_data. */
  function Parse(st: InState, f: Frame): (res: (InState, ParseResult))
    requires st.Valid()
    ensures res.0.Valid()
  {
    match st.Opened(f)
    case None => (st, PARSE_ERROR)
    case Some(o) =>
      if o.size + |f.payload| > IN_BUF_SIZE then
        (o, PARSE_ERROR)
      else
        var c := o.Copied(f.payload);
        if c.count > 1 then (c.(count := c.count - 1), PARSE_FRAGMENT)
        else (c.(active := false), PARSE_SUCCESS)
  }

  /** `struct in_buf` of a session, filled across calls. */
  class Reassembler {
    var active: bool
    var noOfPackets: int
    var transaction: label4
    var messageType: kind2
    var signalId: signal6
    const buf: array<byte>
    var dataSize: byte

    ghost predicate Valid()
      reads this
    {
      buf.Length == IN_BUF_SIZE
    }

    ghost function View(): InState
      reads this, buf
    {
      InState(active, noOfPackets, transaction, messageType, signalId, buf[..], dataSize)
    }

    constructor ()
      ensures Valid() && fresh(buf) && !View().active
    {
      buf := new byte[IN_BUF_SIZE](_ => 0);
      active, noOfPackets, transaction, messageType, signalId, dataSize := false, 0, 0, 0, 0, 0;
    }

    /** memcpy of one payload behind what is already there */
    method Append(data: seq<byte>)
      requires dataSize + |data| <= buf.Length
      modifies buf
      ensures buf[..] == old(buf[..dataSize]) + data + old(buf[dataSize + |data|..])
    {
      for i := 0 to |data|
        invariant forall j :: 0 <= j < i ==> buf[dataSize + j] == data[j]
        invariant forall j :: 0 <= j < dataSize || dataSize + i <= j < buf.Length ==> buf[j] == old(buf[j])
      {
        buf[dataSize + i] := data[i];
      }
    }

    /** The header checks of avdtp_parse_data: the payload, or None when the packet is refused. */
    method OpenPacket(p: seq<byte>) returns (payload: Option<seq<byte>>)
      requires Valid() && 1 <= |p|
      modifies this
      ensures var o := old(View()).Opened(Decode(p));
              if o.None? then payload.None? && View() == old(View())
              else payload == Some(Decode(p).payload) && View() == o.value
    {
      var pkt := PktOf(p[0]);
      if pkt == PKT_SINGLE {
        if |p| < 2 || active {
          return None;
        }
        active, dataSize, noOfPackets := true, 0, 1;
        transaction, messageType, signalId := LabelOf(p[0]), KindOf(p[0]), SignalOf(p[1]);
        return Some(p[2..]);
      } else if pkt == PKT_START {
        if |p| < 3 || active {
          return None;
        }
        active, dataSize, noOfPackets := true, 0, p[1];
        transaction, messageType, signalId := LabelOf(p[0]), KindOf(p[0]), SignalOf(p[2]);
        return Some(p[3..]);
      } else if pkt == PKT_CONTINUE {
        if !active || transaction != LabelOf(p[0]) || noOfPackets <= 1 {
          return None;
        }
        return Some(p[1..]);
      } else {
        if !active || transaction != LabelOf(p[0]) || noOfPackets > 1 {
          return None;
        }
        return Some(p[1..]);
      }
    }

    /** avdtp_parse_data; session_cb has already refused the empty packet */
    method ParseData(p: seq<byte>) returns (r: ParseResult)
      requires Valid() && 1 <= |p|
      modifies this, buf
      ensures (View(), r) == Parse(old(View()), Decode(p))
    {
      var data := OpenPacket(p);
      if data.None? || dataSize + |data.value| > IN_BUF_SIZE {
        return PARSE_ERROR;
      }
      ghost var before := View();
      Append(data.value);
      dataSize := (dataSize + |data.value|) % 256;
      assert View() == before.Copied(data.value);

      if noOfPackets > 1 {
        noOfPackets := noOfPackets - 1;
        return PARSE_FRAGMENT;
      }
      active := false;
      return PARSE_SUCCESS;
    }
  }

  // ---------------------------------------------------------------- runs of the reassembler

  /** Feeds `fs` one after the other: the verdict on the last frame, or an error as soon as the sequence
      is refused, or runs on past its end. */
  function Run(st: InState, fs: seq<Frame>): (res: (InState, ParseResult))
    requires st.Valid()
    ensures res.0.Valid()
    decreases |fs|
  {
    if |fs| == 0 then
      (st, PARSE_FRAGMENT)
    else
      var (next, r) := Parse(st, fs[0]);
      if |fs| == 1 then (next, r)
      else if r == PARSE_FRAGMENT then Run(next, fs[1..])
      else (next, PARSE_ERROR)
  }

  /** What may follow while `count` packets are still expected: CONTINUEs and one END, all with the label
      of the START. */
  predicate TailShape(count: int, t: label4, fs: seq<Frame>) {
    && 0 < |fs| == Max(count, 1)
    && (forall i :: 0 <= i < |fs| - 1 ==> fs[i].Continue? && fs[i].transaction == t)
    && fs[|fs| - 1].End? && fs[|fs| - 1].transaction == t
  }

  /** The packet sequences AVDTP 1.3 allows for one message. */
  predicate Shape(fs: seq<Frame>) {
    || (|fs| == 1 && fs[0].Single?)
    || (|fs| == 1 && fs[0].Start? && fs[0].count <= 1)
    || (1 < |fs| && fs[0].Start? && fs[0].count == |fs| && TailShape(|fs| - 1, fs[0].transaction, fs[1..]))
  }

  /** Every payload finds room behind the 8-bit fill level. */
  predicate Fits(fs: seq<Frame>, size: byte) {
    if |fs| == 0 then true
    else if fs[0].Short? then Fits(fs[1..], size)
    else size + |fs[0].payload| <= IN_BUF_SIZE && Fits(fs[1..], (size + |fs[0].payload|) % 256)
  }

  function Joined(fs: seq<Frame>): seq<byte> {
    if |fs| == 0 then [] else (if fs[0].Short? then [] else fs[0].payload) + Joined(fs[1..])
  }

  lemma ConsTail(f: Frame, fs: seq<Frame>, t: label4)
    requires 0 < |fs| && TailShape(|fs|, t, fs)
    ensures TailShape(|fs| + 1, t, [f] + fs) <==> f.Continue? && f.transaction == t
  {
    var all := [f] + fs;
    assert all[|all| - 1] == fs[|fs| - 1];
    assert forall i :: 1 <= i < |all| ==> all[i] == fs[i - 1];
    assert all[0] == f;
  }

  lemma TailOfTail(fs: seq<Frame>, t: label4)
    requires 1 < |fs| && TailShape(|fs|, t, fs)
    ensures fs[0].Continue? && fs[0].transaction == t && TailShape(|fs| - 1, t, fs[1..])
  {
    var rest := fs[1..];
    assert rest[|rest| - 1] == fs[|fs| - 1];
    assert forall i :: 0 <= i < |rest| ==> rest[i] == fs[i + 1];
  }

  lemma {:induction false} TailAccepted(st: InState, fs: seq<Frame>)
    requires st.Valid() && st.active && 0 < |fs|
    ensures Run(st, fs).1 == PARSE_SUCCESS <==> TailShape(st.count, st.transaction, fs) && Fits(fs, st.size)
    decreases |fs|
  {
    if |fs| <= 1 {
    } else {
      var (next, r) := Parse(st, fs[0]);
      var rest := fs[1..];
      if TailShape(st.count, st.transaction, fs) {
        TailOfTail(fs, st.transaction);
      }
      if r == PARSE_FRAGMENT {
        TailAccepted(next, rest);
        if TailShape(next.count, st.transaction, rest) {
          ConsTail(fs[0], rest, st.transaction);
          assert fs == [fs[0]] + rest;
        }
      }
    }
  }

  lemma FirstFrame(st: InState, f: Frame)
    requires st.Valid() && !st.active
    ensures var (next, r) := Parse(st, f);
            && (r == PARSE_FRAGMENT <==> f.Start? && 1 < f.count && |f.payload| <= IN_BUF_SIZE)
            && (r == PARSE_SUCCESS <==>
                  (f.Single? || (f.Start? && f.count <= 1)) && |f.payload| <= IN_BUF_SIZE)
            && (r == PARSE_FRAGMENT ==> next.active && next.count == f.count - 1
                                        && next.transaction == f.transaction && next.size == |f.payload| % 256)
  {
  }

  /** From idle, the reassembler completes a message on exactly the sequences of the grammar whose payloads
      find room. */
  lemma AcceptedSequences(st: InState, fs: seq<Frame>)
    requires st.Valid() && !st.active && 0 < |fs|
    ensures Run(st, fs).1 == PARSE_SUCCESS <==> Shape(fs) && Fits(fs, 0)
  {
    var (next, r) := Parse(st, fs[0]);
    FirstFrame(st, fs[0]);
    if |fs| > 1 && r == PARSE_FRAGMENT {
      TailAccepted(next, fs[1..]);
    }
  }

  /** The number of packets still expected is a termination measure: no message takes more than 255 packets. */
  lemma CountsDown(st: InState, f: Frame)
    requires st.Valid() && Parse(st, f).1 == PARSE_FRAGMENT
    ensures var next := Parse(st, f).0;
            && next.active && 1 <= next.count
            && (if st.active then next.count == st.count - 1 else next.count <= 254)
  {
  }

  lemma {:induction false} TailContents(st: InState, fs: seq<Frame>)
    requires st.Valid() && st.active && 0 < |fs|
    requires Run(st, fs).1 == PARSE_SUCCESS && st.size + |Joined(fs)| <= 255
    ensures var end := Run(st, fs).0;
            && !end.active
            && end.Received() == Message(st.transaction, st.kind, st.signal, st.buf[..st.size] + Joined(fs))
    decreases |fs|
  {
    var (next, r) := Parse(st, fs[0]);
    assert next.buf[..next.size] == st.buf[..st.size] + fs[0].payload;
    if |fs| > 1 {
      TailContents(next, fs[1..]);
      Associative(st.buf[..st.size], fs[0].payload, Joined(fs[1..]));
    } else {
      assert Joined(fs) == fs[0].payload;
    }
  }

  /** The first packet of a message leaves its fields and its payload. */
  lemma FirstParsed(st: InState, f: Frame)
    requires st.Valid() && !st.active && (f.Single? || f.Start?) && |f.payload| <= 255
    ensures var next := Parse(st, f).0;
            && next.Received() == Message(f.transaction, f.kind, f.signal, f.payload)
            && next.active == (f.Start? && f.count > 1)
  {
    var next := Parse(st, f).0;
    assert next.buf[..next.size] == f.payload;
  }

  /** A completed message carries the fields of its first packet and the joined payloads. */
  lemma Contents(st: InState, fs: seq<Frame>)
    requires st.Valid() && !st.active && 0 < |fs|
    requires Run(st, fs).1 == PARSE_SUCCESS && |Joined(fs)| <= 255
    ensures fs[0].Single? || fs[0].Start?
    ensures var end := Run(st, fs).0;
            && !end.active
            && end.Received() == Message(fs[0].transaction, fs[0].kind, fs[0].signal, Joined(fs))
  {
    var (next, r) := Parse(st, fs[0]);
    FirstParsed(st, fs[0]);
    if |fs| > 1 {
      TailContents(next, fs[1..]);
    } else {
      assert Joined(fs) == fs[0].payload;
    }
  }

  lemma {:induction false} SmallFits(fs: seq<Frame>, size: byte)
    requires size + |Joined(fs)| <= 255
    ensures Fits(fs, size)
    decreases |fs|
  {
    if |fs| == 0 {
    } else {
      SmallFits(fs[1..], size + if fs[0].Short? then 0 else |fs[0].payload|);
    }
  }

  // ---------------------------------------------------------------- the round trip

  /** Fragmentation happens and its last fragment is full: the count in the START header is one too large. */
  predicate Miscounted(omtu: nat, len: nat) {
    3 <= omtu < len + 2 && (len - (omtu - 3)) % (omtu - 1) == 0
  }

  lemma MulAtLeast(e: int, d: int)
    requires 1 <= e && 0 < d
    ensures e * d >= d
  {
    assert e * d == d + (e - 1) * d;
  }

  lemma DivUnique(x: int, d: int, q: int, r: int)
    requires x == q * d + r && 0 <= r < d
    ensures x / d == q && x % d == r
  {
    var e := x / d - q;
    assert e * d == r - x % d;
    if e >= 1 {
      MulAtLeast(e, d);
      assert false;
    } else if e <= -1 {
      MulAtLeast(-e, d);
      assert false;
    }
  }

  function CeilDiv(a: nat, d: nat): nat
    requires 0 < d
  {
    (a + d - 1) / d
  }

  lemma CeilDivStep(a: nat, d: nat)
    requires 0 < d <= a
    ensures CeilDiv(a, d) == CeilDiv(a - d, d) + 1
  {
    DivUnique(a + d - 1, d, (a - 1) / d + 1, (a - 1) % d);
  }

  lemma CeilDivSmall(a: nat, d: nat)
    requires a <= d && 0 < d
    ensures CeilDiv(a, d) == if a == 0 then 0 else 1
  {
    if a == 0 {
      DivUnique(d - 1, d, 0, d - 1);
    } else {
      DivUnique(a + d - 1, d, 1, a - 1);
    }
  }

  lemma QuotientOrCeiling(r: nat, d: nat)
    requires 0 < d
    ensures r / d + 1 == CeilDiv(r, d) + if r % d == 0 then 1 else 0
  {
    if r % d == 0 {
      DivUnique(r + d - 1, d, r / d, d - 1);
    } else {
      DivUnique(r + d - 1, d, r / d + 1, r % d - 1);
    }
  }

  lemma MulNonNegative(a: nat, b: nat)
    ensures a * b >= 0
  {
  }

  lemma QuotientHalf(r: nat, d: nat)
    requires 2 <= d
    ensures r / d * 2 <= r
  {
    var q := r / d;
    assert q * d == q * 2 + q * (d - 2);
    MulNonNegative(q, d - 2);
  }

  lemma SmallCount(omtu: nat, len: nat)
    requires 3 <= omtu < len + 2 && len <= 255
    ensures AnnouncedCount(omtu, len) % 256 == AnnouncedCount(omtu, len)
  {
    QuotientHalf(len - (omtu - 3), omtu - 1);
  }

  lemma {:induction false} TailCount(omtu: nat, t: label4, k: kind2, rest: seq<byte>)
    requires 3 <= omtu
    ensures |TailFrames(omtu, t, k, rest)| == CeilDiv(|rest|, omtu - 1)
    decreases |rest|
  {
    if |rest| < omtu {
      CeilDivSmall(|rest|, omtu - 1);
    } else {
      TailCount(omtu, t, k, rest[omtu - 1..]);
      CeilDivStep(|rest|, omtu - 1);
    }
  }

  lemma {:induction false} TailOf(omtu: nat, t: label4, k: kind2, rest: seq<byte>)
    requires 3 <= omtu
    ensures var fs := TailFrames(omtu, t, k, rest);
            Joined(fs) == rest && (0 < |rest| ==> TailShape(|fs|, t, fs))
    decreases |rest|
  {
    if |rest| == 0 {
    } else {
      var n := NextFragment(omtu, |rest|);
      var more := TailFrames(omtu, t, k, rest[n..]);
      var fs := TailFrames(omtu, t, k, rest);
      TailOf(omtu, t, k, rest[n..]);
      assert fs[1..] == more;
      assert rest == rest[..n] + rest[n..];
      if n < |rest| {
        assert fs == [Continue(t, k, rest[..n])] + more;
        ConsTail(fs[0], more, t);
      }
    }
  }

  /** The count in the START header is right exactly when the last fragment is not full. */
  lemma CountIsRight(omtu: nat, m: Message)
    requires 3 <= omtu < |m.payload| + 2
    ensures AnnouncedCount(omtu, |m.payload|)
         == |Packets(omtu, m)| + if Miscounted(omtu, |m.payload|) then 1 else 0
  {
    TailCount(omtu, m.transaction, m.kind, m.payload[omtu - 3..]);
    QuotientOrCeiling(|m.payload| - (omtu - 3), omtu - 1);
  }

  lemma FramesOf(omtu: nat, m: Message)
    requires Sendable(omtu, m)
    ensures var fs := Frames(omtu, m);
            && 0 < |fs| && Joined(fs) == m.payload && (fs[0].Single? || fs[0].Start?)
            && Message(fs[0].transaction, fs[0].kind, fs[0].signal, Joined(fs)) == m
            && (|m.payload| <= 255 ==> (Shape(fs) <==> !Miscounted(omtu, |m.payload|)))
  {
    var fs := Frames(omtu, m);
    if |m.payload| + 2 <= omtu {
      assert fs[1..] == [];
    } else {
      var rest := m.payload[omtu - 3..];
      TailOf(omtu, m.transaction, m.kind, rest);
      assert fs[1..] == TailFrames(omtu, m.transaction, m.kind, rest);
      assert m.payload == m.payload[..omtu - 3] + rest;
      CountIsRight(omtu, m);
      if |m.payload| <= 255 {
        SmallCount(omtu, |m.payload|);
      }
    }
  }

  /** What avdtp_send puts on the wire comes back as the same message from an idle reassembler exactly when
      the payload fits the 8-bit size and the fragment count is not one too large. */
  lemma RoundTrip(omtu: nat, m: Message, st: InState)
    requires Sendable(omtu, m) && st.Valid() && !st.active
    ensures var (end, r) := Run(st, DecodeAll(Packets(omtu, m)));
            r == PARSE_SUCCESS && end.Received() == m
            <==> |m.payload| <= 255 && !Miscounted(omtu, |m.payload|)
  {
    var fs := Frames(omtu, m);
    DecodeEncodeAll(fs);
    FramesOf(omtu, m);
    if |m.payload| <= 255 {
      SmallFits(fs, 0);
      AcceptedSequences(st, fs);
      if Run(st, fs).1 == PARSE_SUCCESS {
        Contents(st, fs);
      }
    } else {
      assert |Run(st, fs).0.Received().payload| <= 255;
    }
  }

  lemma {:induction false} EndRefused(st: InState, fs: seq<Frame>)
    requires st.Valid() && st.active && 0 < |fs| && st.count == |fs| + 1
    requires TailShape(|fs|, st.transaction, fs) && Fits(fs, st.size)
    ensures Run(st, fs).1 == PARSE_ERROR
    ensures Run(st, fs).0.active && Run(st, fs).0.count == 2
    decreases |fs|
  {
    if |fs| <= 1 {
    } else {
      TailOfTail(fs, st.transaction);
      EndRefused(Parse(st, fs[0]).0, fs[1..]);
    }
  }

  /** In the miscounted case the END packet comes while one more packet is expected, and is refused. */
  lemma MiscountRefused(omtu: nat, m: Message, st: InState)
    requires Miscounted(omtu, |m.payload|) && |m.payload| <= 255 && st.Valid() && !st.active
    ensures AnnouncedCount(omtu, |m.payload|) == |Packets(omtu, m)| + 1
    ensures var (end, r) := Run(st, DecodeAll(Packets(omtu, m)));
            r == PARSE_ERROR && end.active && end.count == 2
  {
    var fs := Frames(omtu, m);
    var rest := m.payload[omtu - 3..];
    DecodeEncodeAll(fs);
    FramesOf(omtu, m);
    CountIsRight(omtu, m);
    SmallCount(omtu, |m.payload|);
    TailOf(omtu, m.transaction, m.kind, rest);
    SmallFits(fs, 0);
    assert fs[1..] == TailFrames(omtu, m.transaction, m.kind, rest);
    EndRefused(Parse(st, fs[0]).0, fs[1..]);
  }
}
