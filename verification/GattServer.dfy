/** The GATT server's answers to requests that read several attributes: the reads complete one by one, in any order, and
    the response goes out when the last one has. */
module GattServer {
  import opened Common

  const ATT_OP_ERROR: byte := 0x01
  const ATT_ECODE_ATTR_NOT_FOUND: byte := 0x0A
  const ATT_ECODE_INVALID_HANDLE: byte := 0x01
  const ATT_ECODE_INSUFF_RESOURCES: byte := 0x11
  const ATT_ECODE_UNLIKELY: byte := 0x0E
  const ENOENT := 2
  const ENOMEM := 12

  type u16 = x: int | 0 <= x < 0x1_0000

  /** The requests that wait for attribute reads. */
  datatype Op = FIND_BY_TYPE | READ_BY_TYPE | READ | READ_BY_GROUP

  function ReqCode(op: Op): byte {
    match op
    case FIND_BY_TYPE => 0x06 case READ_BY_TYPE => 0x08 case READ => 0x0A case READ_BY_GROUP => 0x10
  }

  function RspCode(op: Op): byte {
    match op
    case FIND_BY_TYPE => 0x07 case READ_BY_TYPE => 0x09 case READ => 0x0B case READ_BY_GROUP => 0x11
  }

  /** An attribute: its handle, whether it is a service declaration, and the handles of its service. */
  datatype Attribute = Attribute(handle: u16, service: bool, start: u16, end: u16)

  /** struct pending_request */
  datatype Request = Request(attrib: Attribute, value: seq<byte>, filter: seq<byte>, completed: bool, error: byte)

  function Le16(n: u16): seq<byte> { [n % 256, n / 256] }

  /** An error of the read is an error for the client, and none is none. */
  function ErrToAtt(err: int): (code: byte)
    ensures code == 0 <==> err == 0
    ensures 0 <= err < 255 ==> code == err
    ensures err == -2 ==> code == 0x01
    ensures err == -12 ==> code == 0x11
    ensures (err < 0 && err !in {-2, -12}) || err >= 255 ==> code == 0x0E
  {
    if 0 <= err < 255 then err
    else if err == -ENOENT then ATT_ECODE_INVALID_HANDLE
    else if err == -ENOMEM then ATT_ECODE_INSUFF_RESOURCES
    else ATT_ECODE_UNLIKELY
  }

  /** attribute_read_cb */
  function Completed(r: Request, err: int, value: seq<byte>): Request {
    r.(value := value, error := ErrToAtt(err), completed := true)
  }

  // ---------------------------------------------------------------- the responses

  /** Whether a request extends the list begun by one whose value has `length` octets; Read By Group Type does not look
      at errors. */
  predicate Fits(op: Op, r: Request, length: nat) {
    |r.value| == length && (op == READ_BY_TYPE ==> r.error == 0)
  }

  /** The requests that go into the data list. */
  function Leading(op: Op, rs: seq<Request>, length: nat): seq<Request> {
    if rs == [] || !Fits(op, rs[0], length) then [] else [rs[0]] + Leading(op, rs[1..], length)
  }

  /** It is the longest prefix of the queue, in queue order, without an error and with values of one length. */
  lemma {:induction false} LeadingIsLongest(op: Op, rs: seq<Request>, length: nat, k: nat)
    requires k <= |rs|
    ensures Leading(op, rs, length) == rs[..k] <==>
              (forall i :: 0 <= i < k ==> Fits(op, rs[i], length)) && (k < |rs| ==> !Fits(op, rs[k], length))
  {
    if k == 0 || !Fits(op, rs[0], length) {
    } else {
      LeadingIsLongest(op, rs[1..], length, k - 1);
      assert rs[..k] == [rs[0]] + rs[1..][..k - 1];
      assert forall i :: 0 < i < |rs| ==> rs[i] == rs[1..][i - 1];
      assert Leading(op, rs, length) == [rs[0]] + Leading(op, rs[1..], length);
      assert Leading(op, rs, length)[1..] == Leading(op, rs[1..], length) && rs[..k][1..] == rs[1..][..k - 1];
      assert k < |rs| ==> rs[k] == rs[1..][k - 1];
    }
  }

  function EntryOf(op: Op, r: Request): seq<byte> {
    if op == READ_BY_GROUP then Le16(r.attrib.start) + Le16(r.attrib.end) + r.value
    else Le16(r.attrib.handle) + r.value
  }

  function Entries(op: Op, rs: seq<Request>): (list: seq<seq<byte>>)
    ensures |list| == |rs|
  {
    seq(|rs|, i requires 0 <= i < |rs| => EntryOf(op, rs[i]))
  }

  /** As many elements as fit into `room` octets, `l` octets of each. */
  function Packed(list: seq<seq<byte>>, l: nat, room: nat): seq<byte>
    requires l > 0 && forall e <- list :: l <= |e|
  {
    if list == [] || room < l then [] else list[0][..l] + Packed(list[1..], l, room - l)
  }

  /** Find By Type Value: the handle ranges of the attributes whose value is the one asked for. */
  function Range(a: Attribute): seq<byte> {
    Le16(a.handle) + Le16(if a.service then a.end else a.handle)
  }

  function Ranges(rs: seq<Request>): seq<seq<byte>> {
    if rs == [] then []
    else (if rs[0].value == rs[0].filter then [Range(rs[0].attrib)] else []) + Ranges(rs[1..])
  }

  function ErrorRsp(op: Op, error: byte): seq<byte> {
    [ATT_OP_ERROR, ReqCode(op), 0, 0, error]
  }

  /** att_data_list_alloc: a null pointer when the elements are longer than an octet can say. */
  function AttDataListAlloc(list: seq<seq<byte>>, len: nat): Option<seq<seq<byte>>> {
    if len > 255 then None else Some(list)
  }

  /** What the element of a data list holds besides the value. */
  function ElementHeader(op: Op): nat {
    if op == READ_BY_GROUP then 4 else 2
  }

  /** The value at the head of the queue, if it begins a data list, is not too long for one. */
  predicate Listable(op: Op, rs: seq<Request>) {
    rs != [] && rs[0].error == 0 && op in {READ_BY_TYPE, READ_BY_GROUP} ==> |rs[0].value| <= 255 - ElementHeader(op)
  }

  lemma {:induction false} LeadingFits(op: Op, rs: seq<Request>, length: nat)
    ensures forall r <- Leading(op, rs, length) :: Fits(op, r, length)
  {
    if rs == [] || !Fits(op, rs[0], length) {
    } else {
      LeadingFits(op, rs[1..], length);
    }
  }

  function ElementSize(op: Op, rs: seq<Request>): nat
    requires rs != []
  {
    ElementHeader(op) + |rs[0].value|
  }

  /** The elements of the data list begun by the head of the queue; they are all as long as the first. */
  function Elements(op: Op, rs: seq<Request>): (list: seq<seq<byte>>)
    requires rs != []
    ensures forall e <- list :: |e| == ElementSize(op, rs)
  {
    var leading := Leading(op, rs, |rs[0].value|);
    LeadingFits(op, rs, |rs[0].value|);
    assert forall i :: 0 <= i < |leading| ==> leading[i] in leading;
    Entries(op, leading)
  }

  lemma {:induction false} RangeSize(rs: seq<Request>)
    ensures forall e <- Ranges(rs) :: |e| == 4
  {
    if rs == [] {
    } else {
      RangeSize(rs[1..]);
    }
  }

  /** Read By Type cuts long elements to the MTU, Read By Group Type answers with an error that has no code. */
  function ListPdu(op: Op, list: seq<seq<byte>>, size: nat, mtu: nat): seq<byte>
    requires mtu >= 23 && 2 <= size <= 255 && forall e <- list :: |e| == size
  {
    var l := if op == READ_BY_TYPE then Min(mtu - 2, size) else size;
    if mtu < l + 2 then ErrorRsp(op, 0) else [RspCode(op), l] + Packed(list, l, mtu - 2)
  }

  function ListResponse(op: Op, rs: seq<Request>, mtu: nat): Option<seq<byte>>
    requires mtu >= 23 && rs != []
  {
    match AttDataListAlloc(Elements(op, rs), ElementSize(op, rs))
    case None => None
    case Some(list) => Some(ListPdu(op, list, ElementSize(op, rs), mtu))
  }

  function FindPdu(rs: seq<Request>, mtu: nat): seq<byte>
    requires mtu >= 23
  {
    RangeSize(rs);
    if Ranges(rs) == [] then ErrorRsp(FIND_BY_TYPE, ATT_ECODE_ATTR_NOT_FOUND)
    else [RspCode(FIND_BY_TYPE)] + Packed(Ranges(rs), 4, mtu - 1)
  }

  /** The response to a request whose reads, in the order of the queue, came out as `rs`; None when the data list is a
      null pointer, which the code goes on to use. */
  function Response(op: Op, rs: seq<Request>, mtu: nat): Option<seq<byte>>
    requires mtu >= 23 && rs != []
  {
    var head := rs[0];
    if head.error != 0 then Some(ErrorRsp(op, head.error))
    else
      match op
      case READ_BY_TYPE | READ_BY_GROUP =>
        ListResponse(op, rs, mtu)
      case FIND_BY_TYPE =>
        Some(FindPdu(rs, mtu))
      case READ =>
        Some([RspCode(op)] + head.value[..Min(|head.value|, mtu - 1)])
  }

  /** The null pointer comes up exactly when the value at the head is too long for a data list. */
  lemma NullListIff(op: Op, rs: seq<Request>, mtu: nat)
    requires mtu >= 23 && rs != []
    ensures Response(op, rs, mtu).None? <==> !Listable(op, rs)
  {
  }

  /** The client's side (dec_read_by_type_resp): elements of the announced size, one after the other. */
  function Unpack(pdu: seq<byte>, l: nat): seq<seq<byte>>
    requires l > 0
  {
    if |pdu| < l then [] else [pdu[..l]] + Unpack(pdu[l..], l)
  }

  lemma OneMore(n: nat, l: nat)
    ensures (n + 1) * l == n * l + l
  {
  }

  /** The client gets back the first elements of the list, cut to the announced size: all of them, or as many as there
      is room for. */
  lemma {:induction false} UnpackPacked(list: seq<seq<byte>>, l: nat, room: nat)
    requires l > 0 && forall e <- list :: l <= |e|
    ensures var got := Unpack(Packed(list, l, room), l);
            && |got| <= |list| && |got| * l <= room && (|got| < |list| ==> room < (|got| + 1) * l)
            && |Packed(list, l, room)| == |got| * l
            && forall i :: 0 <= i < |got| ==> got[i] == list[i][..l]
  {
    if list == [] || room < l {
    } else {
      UnpackPacked(list[1..], l, room - l);
      var head, rest := list[0][..l], Packed(list[1..], l, room - l);
      var more := Unpack(rest, l);
      assert (head + rest)[..l] == head && (head + rest)[l..] == rest;
      assert Unpack(head + rest, l) == [head] + more;
      OneMore(|more|, l);
      OneMore(|more| + 1, l);
    }
  }

  lemma {:induction false} PackedSize(list: seq<seq<byte>>, l: nat, room: nat)
    requires l > 0 && forall e <- list :: l <= |e|
    ensures |Packed(list, l, room)| <= room
  {
    if list == [] || room < l {
    } else {
      PackedSize(list[1..], l, room - l);
    }
  }

  lemma ListFits(op: Op, list: seq<seq<byte>>, size: nat, mtu: nat)
    requires mtu >= 23 && 2 <= size <= 255 && forall e <- list :: |e| == size
    ensures |ListPdu(op, list, size, mtu)| <= mtu
  {
    var l := if op == READ_BY_TYPE then Min(mtu - 2, size) else size;
    if mtu >= l + 2 {
      PackedSize(list, l, mtu - 2);
    }
  }

  /** A response fits the MTU. */
  lemma ResponseFits(op: Op, rs: seq<Request>, mtu: nat)
    requires mtu >= 23 && rs != [] && Listable(op, rs)
    ensures Response(op, rs, mtu).Some? && |Response(op, rs, mtu).value| <= mtu
  {
    NullListIff(op, rs, mtu);
    if rs[0].error == 0 {
      if op in {READ_BY_TYPE, READ_BY_GROUP} {
        ListFits(op, Elements(op, rs), ElementSize(op, rs), mtu);
      } else if op == FIND_BY_TYPE {
        RangeSize(rs);
        PackedSize(Ranges(rs), 4, mtu - 1);
      }
    }
  }

  // ---------------------------------------------------------------- what the client reads

  /** The elements lie one behind the other. */
  lemma {:induction false} UnpackAt(pdu: seq<byte>, l: nat, k: nat)
    requires l > 0 && k < |Unpack(pdu, l)|
    ensures (k + 1) * l <= |pdu| && Unpack(pdu, l)[k] == pdu[k * l..(k + 1) * l]
  {
    if k == 0 {
    } else {
      UnpackAt(pdu[l..], l, k - 1);
      OneMore(k - 1, l);
      OneMore(k, l);
      assert pdu[l..][(k - 1) * l..k * l] == pdu[k * l..(k + 1) * l];
    }
  }

  lemma {:induction false} PackedFours(list: seq<seq<byte>>, room: nat)
    requires forall e <- list :: |e| == 4
    ensures var body, n := Packed(list, 4, room), Min(|list|, room / 4);
            && |body| == 4 * n
            && forall k, o :: 0 <= k < n && 0 <= o < 4 ==> body[4 * k + o] == list[k][o]
  {
    if list == [] || room < 4 {
    } else {
      PackedFours(list[1..], room - 4);
      var n, rest := Min(|list|, room / 4), Packed(list[1..], 4, room - 4);
      assert list[0][..4] == list[0];
      forall k, o | 0 <= k < n && 0 <= o < 4 ensures (list[0] + rest)[4 * k + o] == list[k][o] {
        if k > 0 {
          assert (list[0] + rest)[4 * k + o] == rest[4 * (k - 1) + o];
        }
      }
    }
  }

  predicate Chosen(at: seq<nat>, i: nat) {
    exists k :: 0 <= k < |at| && at[k] == i
  }

  /** The reads from the `from`-th on that came out with the value asked for, in queue order. */
  ghost predicate Matching(rs: seq<Request>, from: nat, at: seq<nat>) {
    && (forall k :: 0 <= k < |at| ==> from <= at[k] < |rs| && rs[at[k]].value == rs[at[k]].filter)
    && (forall j, k :: 0 <= j < k < |at| ==> at[j] < at[k])
    && (forall i {:trigger Chosen(at, i)} :: from <= i < |rs| && rs[i].value == rs[i].filter ==> Chosen(at, i))
  }

  lemma MatchingMore(rs: seq<Request>, from: nat, at: seq<nat>)
    requires from < |rs| && rs[from].value == rs[from].filter && Matching(rs, from + 1, at)
    ensures Matching(rs, from, [from] + at)
  {
    var all := [from] + at;
    forall i | from <= i < |rs| && rs[i].value == rs[i].filter ensures Chosen(all, i) {
      if i == from {
        assert all[0] == i;
      } else {
        assert Chosen(at, i);
        var k :| 0 <= k < |at| && at[k] == i;
        assert all[k + 1] == i;
      }
    }
  }

  lemma MatchingSkip(rs: seq<Request>, from: nat, at: seq<nat>)
    requires from < |rs| && rs[from].value != rs[from].filter && Matching(rs, from + 1, at)
    ensures Matching(rs, from, at)
  {
  }

  lemma {:induction false} RangesMatch(rs: seq<Request>, from: nat) returns (at: seq<nat>)
    requires from <= |rs|
    ensures Matching(rs, from, at) && |Ranges(rs[from..])| == |at|
    ensures forall k :: 0 <= k < |at| ==> Ranges(rs[from..])[k] == Range(rs[at[k]].attrib)
    decreases |rs| - from
  {
    if from == |rs| {
      at := [];
    } else {
      at := RangesMatch(rs, from + 1);
      assert rs[from..][1..] == rs[from + 1..];
      if rs[from].value == rs[from].filter {
        MatchingMore(rs, from, at);
        assert Ranges(rs[from..]) == [Range(rs[from].attrib)] + Ranges(rs[from + 1..]);
        at := [from] + at;
      } else {
        MatchingSkip(rs, from, at);
        assert Ranges(rs[from..]) == Ranges(rs[from + 1..]);
      }
    }
  }

  /** get_le16 */
  function GetLe16(b: seq<byte>, i: nat): int
    requires i + 2 <= |b|
  {
    b[i] as int + 256 * b[i + 1] as int
  }

  /** At `i` the client reads the handle of the attribute, and the end of its service if it declares one. */
  predicate RangeAt(pdu: seq<byte>, i: nat, a: Attribute) {
    i + 4 <= |pdu| && GetLe16(pdu, i) == a.handle && GetLe16(pdu, i + 2) == if a.service then a.end else a.handle
  }

  lemma RangeReads(code: byte, body: seq<byte>, k: nat, a: Attribute)
    requires 4 * k + 4 <= |body| && forall o :: 0 <= o < 4 ==> body[4 * k + o] == Range(a)[o]
    ensures RangeAt([code] + body, 4 * k + 1, a)
  {
    var pdu, i := [code] + body, 4 * k;
    var r, end := Range(a), if a.service then a.end else a.handle;
    assert body[i + 0] == r[0] && body[i + 1] == r[1] && body[i + 2] == r[2] && body[i + 3] == r[3];
    assert pdu[i + 1] == a.handle % 256 && pdu[i + 2] == a.handle / 256;
    assert pdu[i + 3] == end % 256 && pdu[i + 4] == end / 256;
  }

  lemma RangesRead(rs: seq<Request>, at: seq<nat>, room: nat, code: byte)
    requires |Ranges(rs)| == |at| && forall e <- Ranges(rs) :: |e| == 4
    requires forall k :: 0 <= k < |at| ==> at[k] < |rs| && Ranges(rs)[k] == Range(rs[at[k]].attrib)
    ensures |Packed(Ranges(rs), 4, room)| == 4 * Min(|at|, room / 4)
    ensures forall k :: 0 <= k < Min(|at|, room / 4) ==>
              RangeAt([code] + Packed(Ranges(rs), 4, room), 4 * k + 1, rs[at[k]].attrib)
  {
    var body, list := Packed(Ranges(rs), 4, room), Ranges(rs);
    PackedFours(list, room);
    forall k | 0 <= k < Min(|at|, room / 4) ensures RangeAt([code] + body, 4 * k + 1, rs[at[k]].attrib) {
      assert forall o :: 0 <= o < 4 ==> body[4 * k + o] == list[k][o];
      RangeReads(code, body, k, rs[at[k]].attrib);
    }
  }

  /** What a Find By Type Value response says to the client. */
  ghost predicate FindSays(pdu: seq<byte>, rs: seq<Request>, at: seq<nat>, mtu: nat)
    requires mtu >= 23 && forall k :: 0 <= k < |at| ==> at[k] < |rs|
  {
    if at == [] then pdu == [0x01, 0x06, 0, 0, 0x0A]
    else
      && |pdu| == 1 + 4 * Min(|at|, (mtu - 1) / 4) && pdu[0] == 0x07
      && forall k :: 0 <= k < Min(|at|, (mtu - 1) / 4) ==> RangeAt(pdu, 4 * k + 1, rs[at[k]].attrib)
  }

  lemma FindPduSays(rs: seq<Request>, at: seq<nat>, mtu: nat)
    requires mtu >= 23 && |Ranges(rs)| == |at|
    requires forall k :: 0 <= k < |at| ==> at[k] < |rs| && Ranges(rs)[k] == Range(rs[at[k]].attrib)
    ensures FindSays(FindPdu(rs, mtu), rs, at, mtu)
  {
    RangeSize(rs);
    if at != [] {
      RangesRead(rs, at, mtu - 1, 0x07);
    }
  }

  /** Find By Type Value: the client reads the handles of the attributes that have the value asked for, in queue order
      and as many as fit, each with the end of its service if it declares one; without any there is an error. */
  lemma FindByTypeAnswer(rs: seq<Request>, mtu: nat) returns (at: seq<nat>)
    requires mtu >= 23 && rs != [] && rs[0].error == 0
    ensures Matching(rs, 0, at) && Response(FIND_BY_TYPE, rs, mtu).Some?
    ensures FindSays(Response(FIND_BY_TYPE, rs, mtu).value, rs, at, mtu)
  {
    at := RangesMatch(rs, 0);
    assert rs[0..] == rs;
    FindPduSays(rs, at, mtu);
  }

  /** `n` reads begin the data list: values as long as the first and, for Read By Type, no error; the next one is not
      like that. */
  ghost predicate Begin(op: Op, rs: seq<Request>, n: nat) {
    && 0 < n <= |rs|
    && (forall i :: 0 <= i < n ==> |rs[i].value| == |rs[0].value| && (op == READ_BY_TYPE ==> rs[i].error == 0))
    && (n < |rs| ==> |rs[n].value| != |rs[0].value| || (op == READ_BY_TYPE && rs[n].error != 0))
  }

  lemma {:induction false} LeadingPrefix(op: Op, rs: seq<Request>, length: nat)
    ensures Leading(op, rs, length) <= rs
  {
    if rs == [] || !Fits(op, rs[0], length) {
    } else {
      LeadingPrefix(op, rs[1..], length);
    }
  }

  lemma ElementsAt(op: Op, rs: seq<Request>) returns (n: nat)
    requires rs != [] && rs[0].error == 0
    ensures Begin(op, rs, n) && |Elements(op, rs)| == n
    ensures forall k :: 0 <= k < n ==> Elements(op, rs)[k] == EntryOf(op, rs[k])
  {
    var leading := Leading(op, rs, |rs[0].value|);
    n := |leading|;
    LeadingPrefix(op, rs, |rs[0].value|);
    LeadingIsLongest(op, rs, |rs[0].value|, n);
  }

  /** What an element says, cut to `l` octets: the handle, or the handles of the service, and the value. */
  ghost predicate Says(op: Op, element: seq<byte>, l: nat, r: Request) {
    |element| == l &&
    if op == READ_BY_GROUP then
      && 4 <= l <= 4 + |r.value| && GetLe16(element, 0) == r.attrib.start && GetLe16(element, 2) == r.attrib.end
      && element[4..] == r.value[..l - 4]
    else
      2 <= l <= 2 + |r.value| && GetLe16(element, 0) == r.attrib.handle && element[2..] == r.value[..l - 2]
  }

  lemma EntrySays(op: Op, r: Request, l: nat)
    requires ElementHeader(op) <= l <= ElementHeader(op) + |r.value|
    ensures l <= |EntryOf(op, r)| && Says(op, EntryOf(op, r)[..l], l, r)
  {
    var h := ElementHeader(op);
    assert EntryOf(op, r)[h..] == r.value;
    assert EntryOf(op, r)[..l][h..] == r.value[..l - h];
  }

  /** What the client splits behind the announced size: what the first of the reads say, as many as there is room
      for. */
  ghost predicate ListReads(op: Op, elements: seq<byte>, l: nat, rs: seq<Request>, n: nat, room: nat)
    requires l > 0 && n <= |rs|
  {
    var got := Unpack(elements, l);
    && |got| <= n && |elements| == |got| * l <= room && (|got| < n ==> room < (|got| + 1) * l)
    && forall k :: 0 <= k < |got| ==> Says(op, got[k], l, rs[k])
  }

  lemma PackedReads(op: Op, list: seq<seq<byte>>, rs: seq<Request>, l: nat, room: nat)
    requires l > 0 && |list| <= |rs| && forall e <- list :: l <= |e|
    requires forall k :: 0 <= k < |list| ==> Says(op, list[k][..l], l, rs[k])
    ensures ListReads(op, Packed(list, l, room), l, rs, |list|, room)
  {
    UnpackPacked(list, l, room);
  }

  lemma ElementsSay(op: Op, list: seq<seq<byte>>, rs: seq<Request>, length: nat, l: nat)
    requires |list| <= |rs| && ElementHeader(op) <= l <= ElementHeader(op) + length
    requires forall k :: 0 <= k < |list| ==> list[k] == EntryOf(op, rs[k]) && |rs[k].value| == length
    ensures forall k :: 0 <= k < |list| ==> l <= |list[k]| && Says(op, list[k][..l], l, rs[k])
  {
    forall k | 0 <= k < |list| ensures l <= |list[k]| && Says(op, list[k][..l], l, rs[k]) {
      EntrySays(op, rs[k], l);
    }
  }

  /** What a data list response says to the client. */
  ghost predicate ListSays(op: Op, pdu: seq<byte>, rs: seq<Request>, n: nat, mtu: nat)
    requires mtu >= 23 && rs != [] && n <= |rs|
  {
    var length := |rs[0].value|;
    if op == READ_BY_GROUP && mtu < length + 6 then pdu == [0x01, 0x10, 0, 0, 0]
    else
      && |pdu| >= 2 && pdu[0] == (if op == READ_BY_GROUP then 0x11 else 0x09)
      && pdu[1] == (if op == READ_BY_GROUP then length + 4 else Min(mtu - 2, length + 2))
      && ListReads(op, pdu[2..], pdu[1], rs, n, mtu - 2)
  }

  lemma ListPduSays(op: Op, list: seq<seq<byte>>, rs: seq<Request>, mtu: nat)
    requires mtu >= 23 && Begin(op, rs, |list|) && op in {READ_BY_TYPE, READ_BY_GROUP}
    requires ElementSize(op, rs) <= 255 && forall e <- list :: |e| == ElementSize(op, rs)
    requires forall k :: 0 <= k < |list| ==> list[k] == EntryOf(op, rs[k])
    ensures ListSays(op, ListPdu(op, list, ElementSize(op, rs), mtu), rs, |list|, mtu)
  {
    var size := ElementSize(op, rs);
    var l := if op == READ_BY_TYPE then Min(mtu - 2, size) else size;
    if mtu >= l + 2 {
      ElementsSay(op, list, rs, |rs[0].value|, l);
      PackedReads(op, list, rs, l, mtu - 2);
      var body := Packed(list, l, mtu - 2);
      assert ([RspCode(op), l] + body)[2..] == body;
    }
  }

  /** The two data lists: the client splits the octets behind the announced size and reads the first reads of the queue,
      as many as fit; all values are as long as the first, and cut to the MTU for Read By Type. */
  lemma DataListAnswer(op: Op, rs: seq<Request>, mtu: nat) returns (n: nat)
    requires mtu >= 23 && rs != [] && rs[0].error == 0 && op in {READ_BY_TYPE, READ_BY_GROUP}
    requires |rs[0].value| <= 255 - if op == READ_BY_GROUP then 4 else 2
    ensures Begin(op, rs, n) && Response(op, rs, mtu).Some?
    ensures ListSays(op, Response(op, rs, mtu).value, rs, n, mtu)
  {
    n := ElementsAt(op, rs);
    ListPduSays(op, Elements(op, rs), rs, mtu);
  }

  /** Read sends the value, cut to the MTU; an error at the head of the queue is all that is sent, with the opcode of
      the request. */
  lemma OtherAnswers(op: Op, rs: seq<Request>, mtu: nat)
    requires mtu >= 23 && rs != []
    ensures rs[0].error == 0 ==>
              && Response(READ, rs, mtu).Some? && |Response(READ, rs, mtu).value| == 1 + Min(|rs[0].value|, mtu - 1)
              && Response(READ, rs, mtu).value[0] == 0x0B && Response(READ, rs, mtu).value[1..] <= rs[0].value
    ensures rs[0].error != 0 ==>
              var code := match op case FIND_BY_TYPE => 0x06 case READ_BY_TYPE => 0x08 case READ => 0x0A
                                   case READ_BY_GROUP => 0x10;
              Response(op, rs, mtu) == Some([0x01, code, 0, 0, rs[0].error])
  {
  }

  /** The loop of enc_read_by_type_resp, enc_read_by_grp_resp and enc_find_by_type_resp */
  method Pack(list: seq<seq<byte>>, l: nat, room: nat) returns (body: seq<byte>)
    requires l > 0 && forall e <- list :: l <= |e|
    ensures body == Packed(list, l, room)
  {
    body := [];
    var i, w := 0, 0;
    while i < |list| && w + l <= room
      invariant i <= |list| && w <= room && body + Packed(list[i..], l, room - w) == Packed(list, l, room)
    {
      Associative(body, list[i][..l], Packed(list[i..][1..], l, room - w - l));
      assert list[i..][1..] == list[i + 1..];
      body := body + list[i][..l];
      i, w := i + 1, w + l;
    }
    assert body + [] == body;
  }

  /** How the read of one attribute starts: refused, done at once, or to be completed by an application. */
  datatype Outcome = Denied(error: byte) | Done(err: int, value: seq<byte>) | Later

  function Started(r: Request, o: Outcome): Request {
    match o
    case Denied(error) => r.(error := error, completed := true)
    case Done(err, value) => Completed(r, err, value)
    case Later => r
  }

  function AllStarted(rs: seq<Request>, outcomes: seq<Outcome>): (now: seq<Request>)
    requires |outcomes| == |rs|
    ensures |now| == |rs|
  {
    seq(|rs|, i requires 0 <= i < |rs| => Started(rs[i], outcomes[i]))
  }

  /** The first `n` reads have been started. */
  function Begun(rs: seq<Request>, outcomes: seq<Outcome>, n: nat): (now: seq<Request>)
    requires |outcomes| == |rs| && n <= |rs|
    ensures |now| == |rs|
  {
    seq(|rs|, i requires 0 <= i < |rs| => if i < n then Started(rs[i], outcomes[i]) else rs[i])
  }

  lemma BegunMore(rs: seq<Request>, outcomes: seq<Outcome>, n: nat)
    requires |outcomes| == |rs|
    ensures n < |rs| ==> Begun(rs, outcomes, n + 1)
                         == Begun(rs, outcomes, n)[n := Started(Begun(rs, outcomes, n)[n], outcomes[n])]
    ensures Begun(rs, outcomes, 0) == rs && Begun(rs, outcomes, |rs|) == AllStarted(rs, outcomes)
  {
  }

  // ---------------------------------------------------------------- how reads come to an end

  /** A transaction: a read that an application has been asked for, by the number of the client's request and the place
      of the read in it. */
  datatype Trans = Trans(request: nat, place: nat)

  /** An application answers a read (handle_server_send_response); or the attribute database gives up on it, after its
      timeout or because the attribute goes away, and nobody looks at the queue. */
  datatype Event = Answer(trans: Trans, err: int, value: seq<byte>) | Expired(trans: Trans, err: int)

  predicate AllCompleted(rs: seq<Request>) {
    forall i :: 0 <= i < |rs| ==> rs[i].completed
  }

  /** What an event makes of the read it ends. */
  function EndedBy(r: Request, e: Event): Request {
    Completed(r, e.err, if e.Answer? then e.value else [])
  }

  /** What an event makes of the reads of request `number`: the first one to end a read counts. */
  function Ended(number: nat, rs: seq<Request>, e: Event): (now: seq<Request>)
    ensures |now| == |rs|
  {
    if e.trans.request != number || e.trans.place >= |rs| || rs[e.trans.place].completed then rs
    else rs[e.trans.place := EndedBy(rs[e.trans.place], e)]
  }

  /** A request of the client: the reads it takes and how they start. */
  datatype Arrival = Arrival(op: Op, queue: seq<Request>, outcomes: seq<Outcome>)
  {
    ghost predicate Ok() {
      queue != [] && |outcomes| == |queue| && forall i :: 0 <= i < |queue| ==> !queue[i].completed
    }

    /** The `i`-th read is left to an application. */
    predicate Left(i: nat) {
      i < |outcomes| && outcomes[i] == Later
    }
  }

  /** The transactions that starting the first `n` reads makes. */
  function Asked(number: nat, op: Op, outcomes: seq<Outcome>, n: nat): map<Trans, Op>
    requires n <= |outcomes|
  {
    map i | 0 <= i < n && outcomes[i] == Later :: Trans(number, i) := op
  }

  lemma NoneAsked(before: map<Trans, Op>, number: nat, op: Op, outcomes: seq<Outcome>)
    ensures before + Asked(number, op, outcomes, 0) == before
  {
    assert Asked(number, op, outcomes, 0) == map[];
  }

  lemma AskedMore(before: map<Trans, Op>, number: nat, op: Op, outcomes: seq<Outcome>, n: nat)
    requires n < |outcomes|
    ensures before + Asked(number, op, outcomes, n + 1)
            == before + Asked(number, op, outcomes, n)
               + if outcomes[n] == Later then map[Trans(number, n) := op] else map[]
  {
  }

  /** The `number`-th request, the transactions that earlier ones have left behind, with their opcodes, and what happens
      from the arrival on. */
  datatype Exchange = Exchange(number: nat, request: Arrival, stale: map<Trans, Op>, events: seq<Event>)
  {
    ghost predicate Ok() {
      request.Ok() && forall t <- stale :: t.request < number
    }

    /** The reads after the first `n` events. */
    function Reads(n: nat): (now: seq<Request>)
      requires Ok() && n <= |events|
      ensures |now| == |request.queue|
    {
      if n == 0 then AllStarted(request.queue, request.outcomes) else Ended(number, Reads(n - 1), events[n - 1])
    }

    /** The transactions after the first `n` events (conn->transactions). */
    function Transactions(n: nat): map<Trans, Op>
      requires n <= |events|
    {
      if n == 0 then
        stale + Asked(number, request.op, request.outcomes, |request.outcomes|)
      else
        Transactions(n - 1) - if events[n - 1].Answer? then {events[n - 1].trans} else {}
    }

    /** One of the first `n` events ends the `i`-th read. */
    predicate Heard(n: nat, i: nat)
      requires n <= |events|
    {
      exists j :: 0 <= j < n && events[j].trans == Trans(number, i)
    }

    /** Every read that was left to an application has come to an end within the first `n` events. */
    ghost predicate AllHeard(n: nat)
      requires n <= |events|
    {
      forall i :: request.Left(i) ==> Heard(n, i)
    }

    /** The `k`-th event is an answer that somebody waits for, and all reads have come to an end by then. */
    ghost predicate DueAt(k: nat)
      requires k < |events|
    {
      events[k].Answer? && events[k].trans in Transactions(k) && AllHeard(k + 1)
    }

    /** The opcode with which the response goes out within the first `n` events, if it does: all reads are complete at
        once, or an answer arrives when they are. It is the opcode of that answer's transaction. */
    ghost function Replied(n: nat): Option<Op>
      requires n <= |events|
    {
      if n == 0 then if AllHeard(0) then Some(request.op) else None
      else if Replied(n - 1).None? && DueAt(n - 1) then Some(Transactions(n - 1)[events[n - 1].trans])
      else Replied(n - 1)
    }

    /** The transactions left behind. */
    function Rest(): map<Trans, Op> {
      Transactions(|events|)
    }

    /** A response goes out, and it does not need a data list with elements that are too long. */
    ghost predicate Served()
      requires Ok()
    {
      Replied(|events|).Some? && Listable(Replied(|events|).value, Reads(|events|))
    }

    ghost function Reply(mtu: nat): (rsp: seq<byte>)
      requires Ok() && Served() && mtu >= 23
      ensures |rsp| <= mtu
    {
      var op, rs := Replied(|events|).value, Reads(|events|);
      ResponseFits(op, rs, mtu);
      Response(op, rs, mtu).value
    }

    lemma {:induction false} FirstHeard(n: nat, i: nat) returns (j: nat)
      requires n <= |events| && Heard(n, i)
      ensures j < n && events[j].trans == Trans(number, i) && !Heard(j, i)
    {
      if Heard(n - 1, i) {
        j := FirstHeard(n - 1, i);
      } else {
        j := n - 1;
      }
    }

    /** A read is started once, and no event but its own changes it. */
    lemma {:induction false} UnheardStays(n: nat, i: nat)
      requires Ok() && n <= |events| && request.Left(i) && !Heard(n, i)
      ensures Reads(n)[i] == request.queue[i]
    {
      if n == 0 {
      } else {
        assert !Heard(n - 1, i) && events[n - 1].trans != Trans(number, i);
        UnheardStays(n - 1, i);
      }
    }

    /** The order in which the reads end does not matter for what they end as: for each it is its first event. */
    lemma {:induction false} FirstEventCounts(n: nat, i: nat, j: nat)
      requires Ok() && j < n <= |events| && request.Left(i) && events[j].trans == Trans(number, i) && !Heard(j, i)
      ensures Reads(n)[i] == request.queue[i].(value := if events[j].Answer? then events[j].value else [],
                                               error := ErrToAtt(events[j].err), completed := true)
    {
      if j == n - 1 {
        UnheardStays(j, i);
      } else {
        FirstEventCounts(n - 1, i, j);
      }
    }

    /** A read that was refused or done at once is not looked at again. */
    lemma {:induction false} DoneAtOnce(n: nat, i: nat)
      requires Ok() && n <= |events| && i < |request.queue|
      ensures match request.outcomes[i]
              case Later => true
              case Denied(error) =>
                Reads(n)[i] == request.queue[i].(error := error, completed := true)
              case Done(err, value) =>
                Reads(n)[i] == request.queue[i].(value := value, error := ErrToAtt(err), completed := true)
    {
      if n == 0 {
      } else {
        DoneAtOnce(n - 1, i);
      }
    }

    lemma {:induction false} CompletedStays(m: nat, n: nat, i: nat)
      requires Ok() && m <= n <= |events| && i < |request.queue| && Reads(m)[i].completed
      ensures Reads(n)[i] == Reads(m)[i]
    {
      if m >= n {
      } else {
        CompletedStays(m, n - 1, i);
      }
    }

    lemma CompletedIff(n: nat, i: nat)
      requires Ok() && n <= |events| && i < |request.queue|
      ensures Reads(n)[i].completed <==> (request.Left(i) ==> Heard(n, i))
    {
      if request.Left(i) {
        if Heard(n, i) {
          var j := FirstHeard(n, i);
          FirstEventCounts(n, i, j);
        } else {
          UnheardStays(n, i);
        }
      } else {
        CompletedStays(0, n, i);
      }
    }

    lemma CompletedWhenHeard(n: nat)
      requires Ok() && n <= |events|
      ensures AllCompleted(Reads(n)) <==> AllHeard(n)
    {
      var now := Reads(n);
      forall i | 0 <= i < |now| ensures now[i].completed <==> (request.Left(i) ==> Heard(n, i)) {
        CompletedIff(n, i);
      }
      if AllCompleted(now) {
        forall i: nat | request.Left(i) ensures Heard(n, i) {
          assert now[i].completed;
        }
      }
    }

    lemma {:induction false} RepliedWhenHeard(n: nat)
      requires n <= |events| && Replied(n).Some?
      ensures AllHeard(n)
    {
      if n == 0 || Replied(n - 1).None? {
      } else {
        RepliedWhenHeard(n - 1);
      }
    }

    lemma {:induction false} RepliedStays(m: nat, n: nat)
      requires m <= n <= |events| && Replied(m).Some?
      ensures Replied(n) == Replied(m)
    {
      if m >= n {
      } else {
        RepliedStays(m, n - 1);
      }
    }

    /** While reads only expire, nothing is sent. */
    lemma {:induction false} NothingSent(m: nat, n: nat)
      requires m <= n <= |events| && !AllHeard(m) && forall j :: m <= j < n ==> events[j].Expired?
      ensures Replied(n).None?
    {
      if m == n {
        if Replied(n).Some? {
          RepliedWhenHeard(n);
        }
      } else {
        NothingSent(m, n - 1);
      }
    }

    /** Once the response has gone out the reads are complete and stay what they are. */
    lemma RepliedMeansCompleted(m: nat, n: nat)
      requires Ok() && m <= n <= |events| && Replied(m).Some?
      ensures Replied(n) == Replied(m) && AllCompleted(Reads(m)) && Reads(n) == Reads(m)
    {
      RepliedStays(m, n);
      RepliedWhenHeard(m);
      CompletedWhenHeard(m);
      forall i | 0 <= i < |request.queue| ensures Reads(n)[i] == Reads(m)[i] {
        CompletedStays(m, n, i);
      }
    }

    /** A transaction is one of the request's own, with its opcode, or a stale one as it was left behind; those of the
        request's own reads that have not come to an end are all there. */
    lemma {:induction false} WhoseTransaction(n: nat, t: Trans)
      requires Ok() && n <= |events|
      ensures t in Transactions(n) ==>
                if t.request == number then request.Left(t.place) && Transactions(n)[t] == request.op
                else t in stale && Transactions(n)[t] == stale[t]
      ensures t.request == number && request.Left(t.place) && !Heard(n, t.place) ==> t in Transactions(n)
    {
      if n == 0 {
      } else {
        WhoseTransaction(n - 1, t);
      }
    }

    /** One more event: when it makes the response go out, and which events change nothing. */
    lemma StepReplied(k: nat)
      requires Ok() && k < |events|
      ensures var now, next := Reads(k), Reads(k + 1);
              var asked := events[k].Answer? && events[k].trans in Transactions(k);
              && Replied(k + 1) == (if Replied(k).Some? then Replied(k)
                                    else if asked && AllCompleted(next) then Some(Transactions(k)[events[k].trans])
                                    else None)
              && (Replied(k).Some? ==> AllCompleted(now) && next == now)
              && (events[k].Answer? && !asked ==> next == now)
    {
      CompletedWhenHeard(k + 1);
      if Replied(k).Some? {
        RepliedMeansCompleted(k, k + 1);
      }
      var t := events[k].trans;
      WhoseTransaction(k, t);
      if t.request == number && t.place < |request.queue| {
        CompletedIff(k, t.place);
      }
    }

    /** When applications answer all the reads left to them, the response goes out in every order of the answers. */
    lemma {:induction false} AnswersSuffice(n: nat)
      requires Ok() && n <= |events| && AllHeard(n) && forall j :: 0 <= j < n ==> events[j].Answer?
      ensures Replied(n).Some?
    {
      if n == 0 {
      } else if AllHeard(n - 1) {
        AnswersSuffice(n - 1);
      } else {
        var i: nat :| request.Left(i) && !Heard(n - 1, i);
        assert Heard(n, i) && events[n - 1].trans == Trans(number, i);
        WhoseTransaction(n - 1, Trans(number, i));
        assert DueAt(n - 1);
      }
    }

    lemma {:induction false} AnsweredIsClosed(n: nat, i: nat)
      requires n <= |events| && Heard(n, i) && forall j :: 0 <= j < n ==> events[j].Answer?
      ensures Trans(number, i) !in Transactions(n)
    {
      if Heard(n - 1, i) {
        AnsweredIsClosed(n - 1, i);
      }
    }

    /** Answers leave no transaction of the request behind. */
    lemma AnswersLeaveNothing(n: nat, t: Trans)
      requires Ok() && n <= |events| && AllHeard(n) && forall j :: 0 <= j < n ==> events[j].Answer?
      ensures t in Transactions(n) ==> t in stale
    {
      WhoseTransaction(n, t);
      if t in Transactions(n) && t.request == number {
        AnsweredIsClosed(n, t.place);
      }
    }

    /** A response that goes out while nothing stale has another opcode is of the kind asked for. */
    lemma {:induction false} RightKind(n: nat)
      requires Ok() && n <= |events| && (AllHeard(0) || forall t <- stale :: stale[t] == request.op)
      ensures Replied(n) in {None, Some(request.op)}
    {
      if n == 0 {
      } else {
        RightKind(n - 1);
        WhoseTransaction(n - 1, events[n - 1].trans);
        if AllHeard(0) {
          RepliedStays(0, n);
        }
      }
    }

    /** The response to a request whose reads are all answered. */
    lemma AllAnswered()
      requires Ok() && stale == map[] && AllHeard(|events|) && forall j :: 0 <= j < |events| ==> events[j].Answer?
      ensures Replied(|events|) == Some(request.op) && Rest() == map[]
    {
      AnswersSuffice(|events|);
      RightKind(|events|);
      forall t ensures t !in Rest() {
        AnswersLeaveNothing(|events|, t);
      }
    }

    ghost predicate RightIn(es: seq<Event>) {
      this.(events := es).Replied(|es|) in {None, Some(request.op)}
    }

    lemma {:induction false} OnlyExpiries(n: nat)
      requires n <= |events| && forall j :: 0 <= j < n ==> events[j].Expired?
      ensures Transactions(n) == Transactions(0)
    {
      if n == 0 {
      } else {
        OnlyExpiries(n - 1);
      }
    }

    /** Every read of the request expires, and then a stale transaction is answered. */
    function Expiring(t: Trans): Exchange {
      var expired := seq(|request.outcomes|, i requires 0 <= i < |request.outcomes| => Expired(Trans(number, i), 0));
      this.(events := expired + [Answer(t, 0, [])])
    }

    lemma ExpiringHeard(t: Trans)
      requires !AllHeard(0)
      ensures var x := Expiring(t); |x.events| == |request.outcomes| + 1 && !x.AllHeard(0) && x.AllHeard(|x.events|)
    {
      var x := Expiring(t);
      var i: nat :| request.Left(i) && !Heard(0, i);
      assert !x.Heard(0, i);
      forall i: nat | request.Left(i) ensures x.Heard(|x.events|, i) {
        assert x.events[i].trans == Trans(number, i);
      }
    }

    lemma WrongKind(t: Trans)
      requires Ok() && !AllHeard(0) && t in stale && stale[t] != request.op
      ensures var x := Expiring(t); x.Replied(|x.events|) == Some(stale[t])
    {
      var x := Expiring(t);
      ExpiringHeard(t);
      x.OnlyExpiries(|request.outcomes|);
      x.NothingSent(0, |request.outcomes|);
      x.WhoseTransaction(0, t);
      assert x.DueAt(|request.outcomes|);
    }

    /** The response is of the kind asked for in every run exactly if all reads are complete at once, or no transaction
        with another opcode has been left behind. */
    lemma RightKindIff()
      requires Ok()
      ensures (forall es {:trigger RightIn(es)} :: RightIn(es))
              <==> AllHeard(0) || forall t <- stale :: stale[t] == request.op
    {
      if AllHeard(0) || forall t <- stale :: stale[t] == request.op {
        forall es ensures RightIn(es) {
          var run := this.(events := es);
          assert AllHeard(0) ==> forall i: nat :: !request.Left(i);
          run.RightKind(|es|);
        }
      } else {
        var t :| t in stale && stale[t] != request.op;
        WrongKind(t);
        assert !RightIn(Expiring(t).events);
      }
    }
  }

  /** Requests that arrive one after the other, the first of them with the number `first`, and the events up to the next
      one. `stale` are the transactions left behind before. */
  datatype Session = Session(first: nat, stale: map<Trans, Op>, requests: seq<Arrival>, events: seq<seq<Event>>)
  {
    ghost predicate Ok() {
      && |events| == |requests| && (forall i :: 0 <= i < |requests| ==> requests[i].Ok())
      && forall t <- stale :: t.request < first
    }

    /** The transactions when `n` requests have been served. */
    function Transactions(n: nat): map<Trans, Op>
      requires n <= |requests| == |events|
      decreases n
    {
      if n == 0 then stale
      else Exchange(first + n - 1, requests[n - 1], Transactions(n - 1), events[n - 1]).Rest()
    }

    function At(i: nat): Exchange
      requires i < |requests| == |events|
    {
      Exchange(first + i, requests[i], Transactions(i), events[i])
    }

    lemma {:induction false} TransactionsSpec(n: nat)
      requires Ok() && n <= |requests|
      ensures forall t <- Transactions(n) :: t.request < first + n
    {
      if n == 0 {
      } else {
        TransactionsSpec(n - 1);
        forall t | t in Transactions(n) ensures t.request < first + n {
          At(n - 1).WhoseTransaction(|events[n - 1]|, t);
        }
      }
    }

    /** Each of the first `n` requests gets a response. */
    ghost predicate Served(n: nat) {
      |events| == |requests| && n <= |requests| && forall i :: 0 <= i < n ==> At(i).Ok() && At(i).Served()
    }

    ghost function Responses(n: nat, mtu: nat): seq<seq<byte>>
      requires Served(n) && mtu >= 23
    {
      seq(n, i requires 0 <= i < n => At(i).Reply(mtu))
    }

    lemma ServedMore(n: nat, mtu: nat)
      requires Served(n) && n < |requests| && At(n).Ok() && At(n).Served() && mtu >= 23
      ensures Served(n + 1) && Responses(n + 1, mtu) == Responses(n, mtu) + [At(n).Reply(mtu)]
    {
    }

    /** No read of the `i`-th request expires, and applications answer all that are left to them before the next
        request. */
    ghost predicate CleanAt(i: nat)
      requires i < |requests| == |events|
    {
      At(i).AllHeard(|events[i]|) && forall j :: 0 <= j < |events[i]| ==> events[i][j].Answer?
    }

    ghost predicate Clean() {
      Ok() && forall i {:trigger CleanAt(i)} :: 0 <= i < |requests| ==> CleanAt(i)
    }

    /** In a clean session every request is answered with a response of its kind, and nothing is left behind. */
    lemma {:induction false} CleanIsRight(i: nat)
      requires Clean() && stale == map[] && i < |requests|
      ensures At(i).Ok() && At(i).Replied(|events[i]|) == Some(requests[i].op)
      ensures Transactions(i + 1) == map[]
    {
      if i == 0 {
      } else {
        CleanIsRight(i - 1);
      }
      assert CleanAt(i);
      At(i).AllAnswered();
    }
  }

  /** A Read By Type request for two attributes of which the first read expires, then a Find By Type Value request of
      which the second read expires, and only now the first answer. */
  function LateAnswer(r: Request, err: int): Session {
    Session(0, map[],
            [Arrival(READ_BY_TYPE, [r, r], [Later, Later]), Arrival(FIND_BY_TYPE, [r, r], [Later, Later])],
            [[Expired(Trans(0, 0), err), Answer(Trans(0, 1), 0, [])],
             [Answer(Trans(1, 0), 0, []), Expired(Trans(1, 1), err), Answer(Trans(0, 0), 0, [])]])
  }

  lemma LateAnswerFirst(r: Request, err: int)
    requires !r.completed
    ensures var x := LateAnswer(r, err).At(0);
            && x.Ok() && x.Replied(2) == Some(READ_BY_TYPE) && x.Served()
            && Trans(0, 0) in x.Rest() && x.Rest()[Trans(0, 0)] == READ_BY_TYPE
  {
    var x := LateAnswer(r, err).At(0);
    assert x.request.Left(0) && !x.Heard(0, 0);
    assert x.events[0].trans == Trans(0, 0) && x.events[1].trans == Trans(0, 1);
    assert x.Heard(2, 0) && x.Heard(2, 1);
    assert !x.Heard(1, 1);
    assert x.request.Left(1) && !x.AllHeard(1);
    x.NothingSent(1, 1);
    x.WhoseTransaction(1, Trans(0, 1));
    assert Trans(0, 0) in x.Transactions(1);
    assert x.DueAt(1);
    x.FirstEventCounts(2, 0, 0);
  }

  lemma LateAnswerSecond(r: Request, err: int)
    requires !r.completed
    ensures var x := LateAnswer(r, err).At(1);
            x.Ok() && !x.AllHeard(1) && x.AllHeard(3)
            && Trans(0, 0) in x.Transactions(2) && x.Transactions(2)[Trans(0, 0)] == READ_BY_TYPE
  {
    LateAnswerFirst(r, err);
    LateAnswer(r, err).TransactionsSpec(1);
    var x := LateAnswer(r, err).At(1);
    assert x.request.Left(1) && !x.Heard(1, 1);
    assert x.events[0].trans == Trans(1, 0) && x.events[1].trans == Trans(1, 1);
    assert x.Heard(3, 0) && x.Heard(3, 1);
    assert Trans(0, 0) in x.Transactions(0) && Trans(0, 0) in x.Transactions(1);
    x.WhoseTransaction(2, Trans(0, 0));
  }

  lemma LateAnswerServed(r: Request, err: int)
    requires !r.completed
    ensures var x := LateAnswer(r, err).At(1);
            && x.Ok() && x.Replied(3) == Some(READ_BY_TYPE) && x.Served() && x.Reads(3)[0].error == 0
            && x.Reads(3)[0].value == []
  {
    LateAnswerSecond(r, err);
    var x := LateAnswer(r, err).At(1);
    x.NothingSent(1, 2);
    assert x.request.Left(0) && !x.Heard(0, 0);
    assert x.DueAt(2);
    x.FirstEventCounts(3, 0, 0);
  }

  lemma EmptyElements(rs: seq<Request>, mtu: nat)
    requires rs != [] && rs[0].error == 0 && rs[0].value == [] && mtu >= 23
    ensures Response(READ_BY_TYPE, rs, mtu).Some? && |Response(READ_BY_TYPE, rs, mtu).value| > 0
    ensures Response(READ_BY_TYPE, rs, mtu).value[0] == RspCode(READ_BY_TYPE)
  {
  }

  /** The client is sent a Read By Type response to its Find By Type Value request. */
  lemma LateAnswerKind(r: Request, err: int)
    requires !r.completed
    ensures var s := LateAnswer(r, err);
            s.Served(2) && |s.Responses(2, 23)[1]| > 0 && s.Responses(2, 23)[1][0] == RspCode(READ_BY_TYPE)
  {
    LateAnswerFirst(r, err);
    LateAnswerServed(r, err);
    EmptyElements(LateAnswer(r, err).At(1).Reads(3), 23);
  }

  /** A read times out and no answer comes after it: no response ever goes out. */
  lemma TimeoutIsSilent(op: Op, read: Request, err: int)
    requires !read.completed
    ensures var x := Exchange(0, Arrival(op, [read], [Later]), map[], [Expired(Trans(0, 0), err)]);
            x.Ok() && x.AllHeard(1) && AllCompleted(x.Reads(1)) && x.Replied(1).None?
  {
    var x := Exchange(0, Arrival(op, [read], [Later]), map[], [Expired(Trans(0, 0), err)]);
    assert x.events[0].trans == Trans(0, 0) && x.Heard(1, 0);
    assert x.request.Left(0) && !x.Heard(0, 0);
    x.NothingSent(0, 1);
    x.CompletedWhenHeard(1);
  }

  class Device {
    const mtu: nat
    var pending: seq<Request>
    /** The reads that applications have been asked for and have not answered, with the opcodes of the requests. */
    var transactions: map<Trans, Op>
    /** The number of the request that `pending` belongs to. */
    var number: nat
    /** What has been sent. */
    ghost var sent: seq<seq<byte>>

    constructor (mtu: nat)
      requires mtu >= 23
      ensures Idle() && transactions == map[] && number == 0 && sent == [] && this.mtu == mtu
    {
      this.mtu, pending, transactions, number, sent := mtu, [], map[], 0, [];
    }

    /** No request is being served. */
    ghost predicate Idle()
      reads this
    {
      mtu >= 23 && pending == [] && forall t <- transactions :: t.request < number
    }

    /** Pops the requests of the data list off the queue. */
    method PopLeading(op: Op, length: nat) returns (list: seq<Request>)
      modifies this`pending
      ensures list == Leading(op, old(pending), length)
      ensures |list| <= |old(pending)| && pending == old(pending)[|list|..]
    {
      list := [];
      while pending != [] && Fits(op, pending[0], length)
        invariant |list| <= |old(pending)| && pending == old(pending)[|list|..]
        invariant list + Leading(op, pending, length) == Leading(op, old(pending), length)
        decreases |pending|
      {
        Associative(list, [pending[0]], Leading(op, pending[1..], length));
        list := list + [pending[0]];
        pending := pending[1..];
      }
      assert list + [] == list;
    }

    /** The Find By Type Value branch pops all requests and keeps the ranges of those that match. */
    method PopRanges() returns (list: seq<seq<byte>>)
      modifies this`pending
      ensures pending == [] && list == Ranges(old(pending))
    {
      list := [];
      while pending != []
        invariant list + Ranges(pending) == Ranges(old(pending))
        decreases |pending|
      {
        var r := pending[0];
        if r.value == r.filter {
          Associative(list, [Range(r.attrib)], Ranges(pending[1..]));
          list := list + [Range(r.attrib)];
        }
        pending := pending[1..];
      }
    }

    /** enc_read_by_type_resp and enc_read_by_grp_resp */
    method EncodeListRsp(op: Op, list: seq<seq<byte>>, size: nat) returns (pdu: seq<byte>)
      requires mtu >= 23 && 2 <= size <= 255 && forall e <- list :: |e| == size
      ensures pdu == ListPdu(op, list, size, mtu)
    {
      var l := if op == READ_BY_TYPE then Min(mtu - 2, size) else size;
      if mtu < l + 2 {
        return ErrorRsp(op, 0);
      }
      var body := Pack(list, l, mtu - 2);
      return [RspCode(op), l] + body;
    }

    /** The Read By Type and Read By Group Type branches */
    method EncodeList(op: Op) returns (rsp: Option<seq<byte>>)
      requires mtu >= 23 && pending != [] && op in {READ_BY_TYPE, READ_BY_GROUP}
      modifies this`pending
      ensures rsp == ListResponse(op, old(pending), mtu)
    {
      var size := ElementSize(op, pending);
      ghost var elements := Elements(op, pending);
      var leading := PopLeading(op, |pending[0].value|);
      assert Entries(op, leading) == elements;
      var list := AttDataListAlloc(Entries(op, leading), size);
      if list.None? {
        return None;
      }
      var pdu := EncodeListRsp(op, list.value, size);
      return Some(pdu);
    }

    /** The encoding part of send_dev_complete_response */
    method Encode(op: Op) returns (rsp: Option<seq<byte>>)
      requires mtu >= 23 && pending != []
      modifies this`pending
      ensures rsp == Response(op, old(pending), mtu)
    {
      var head := pending[0];
      if head.error != 0 {
        return Some(ErrorRsp(op, head.error));
      }
      match op
      case READ_BY_TYPE | READ_BY_GROUP =>
        rsp := EncodeList(op);
      case FIND_BY_TYPE =>
        RangeSize(pending);
        var list := PopRanges();
        if list == [] {
          return Some(ErrorRsp(op, ATT_ECODE_ATTR_NOT_FOUND));
        }
        var body := Pack(list, 4, mtu - 1);
        return Some([RspCode(op)] + body);
      case READ =>
        return Some([RspCode(op)] + head.value[..Min(|head.value|, mtu - 1)]);
    }

    /** send_dev_complete_response: silent while a read is outstanding; otherwise one response, and the queue is
        emptied. `ok` is false when the daemon uses the null pointer of a data list it could not allocate. */
    method SendDevCompleteResponse(op: Op) returns (ok: bool)
      requires mtu >= 23
      modifies this`pending, this`sent
      ensures var due := old(pending) != [] && AllCompleted(old(pending));
              && (ok <==> !due || Listable(op, old(pending)))
              && (!due ==> pending == old(pending) && sent == old(sent))
              && (due && ok ==> pending == [] && Response(op, old(pending), mtu).Some?
                                && sent == old(sent) + [Response(op, old(pending), mtu).value])
              && (!ok ==> sent == old(sent))
    {
      if pending == [] || !AllCompleted(pending) {
        return true;
      }
      NullListIff(op, pending, mtu);
      var rsp := Encode(op);
      if rsp.None? {
        return false;
      }
      sent := sent + [rsp.value];
      pending := [];
      return true;
    }

    /** attribute_read_cb */
    method AttributeReadCb(i: nat, err: int, value: seq<byte>)
      requires i < |pending|
      modifies this`pending
      ensures pending == old(pending)[i := Completed(old(pending)[i], err, value)]
    {
      pending := pending[i := pending[i].(value := value, error := ErrToAtt(err), completed := true)];
    }

    /** The first `n` of the reads `was` have been started. */
    ghost predicate StartedUpTo(was: seq<Request>, before: map<Trans, Op>, op: Op, outcomes: seq<Outcome>, n: nat)
      requires |outcomes| == |was| && n <= |was|
      reads this`pending, this`transactions, this`number
    {
      && pending == Begun(was, outcomes, n)
      && transactions == before + Asked(number, op, outcomes, n)
    }

    /** read_requested_attributes; an application is asked by read_cb. */
    method ReadRequestedAttribute(i: nat, op: Op, o: Outcome)
      requires i < |pending|
      modifies this`pending, this`transactions
      ensures pending == old(pending)[i := Started(old(pending)[i], o)]
      ensures transactions == old(transactions) + if o == Later then map[Trans(number, i) := op] else map[]
    {
      match o
      case Denied(error) => pending := pending[i := pending[i].(error := error, completed := true)];
      case Done(err, value) => AttributeReadCb(i, err, value);
      case Later => transactions := transactions[Trans(number, i) := op];
    }

    method StartNext(op: Op, outcomes: seq<Outcome>, i: nat, ghost was: seq<Request>, ghost before: map<Trans, Op>)
      requires i < |outcomes| == |was| && StartedUpTo(was, before, op, outcomes, i)
      modifies this`pending, this`transactions
      ensures StartedUpTo(was, before, op, outcomes, i + 1)
    {
      AskedMore(before, number, op, outcomes, i);
      BegunMore(was, outcomes, i);
      ReadRequestedAttribute(i, op, outcomes[i]);
    }

    method Start(op: Op, outcomes: seq<Outcome>)
      requires |outcomes| == |pending|
      modifies this`pending, this`transactions
      ensures StartedUpTo(old(pending), old(transactions), op, outcomes, |outcomes|)
    {
      ghost var was, before := pending, transactions;
      BegunMore(pending, outcomes, 0);
      NoneAsked(transactions, number, op, outcomes);
      var i := 0;
      while i < |outcomes|
        invariant i <= |outcomes| == |was| && StartedUpTo(was, before, op, outcomes, i)
      {
        StartNext(op, outcomes, i, was, before);
        i := i + 1;
      }
    }

    /** process_dev_pending_requests: every read is started, and the response sent if that was all. */
    method ProcessDevPendingRequests(op: Op, outcomes: seq<Outcome>) returns (ok: bool)
      requires mtu >= 23 && |outcomes| == |pending|
      modifies this`pending, this`sent, this`transactions
      ensures var started := AllStarted(old(pending), outcomes);
              var due := started != [] && AllCompleted(started);
              && (ok <==> !due || Listable(op, started))
              && (!due ==> pending == started && sent == old(sent))
              && (due && ok ==> pending == [] && Response(op, started, mtu).Some?
                                && sent == old(sent) + [Response(op, started, mtu).value])
              && (!ok ==> sent == old(sent))
      ensures transactions == old(transactions) + Asked(number, op, outcomes, |outcomes|)
    {
      if pending == [] {
        return true;
      }
      BegunMore(pending, outcomes, 0);
      Start(op, outcomes);
      ok := SendDevCompleteResponse(op);
    }

    /** handle_server_send_response for a read. An answer nobody waits for is refused; one that comes after the read has
        expired changes nothing but still looks whether the response can go out, with the opcode of its transaction. */
    method HandleServerSendResponse(t: Trans, err: int, value: seq<byte>) returns (ok: bool)
      requires mtu >= 23
      modifies this`pending, this`sent, this`transactions
      ensures transactions == old(transactions) - {t}
      ensures t !in old(transactions) ==> ok && pending == old(pending) && sent == old(sent)
      ensures t in old(transactions) ==>
                var now, op := Ended(number, old(pending), Answer(t, err, value)), old(transactions)[t];
                var due := now != [] && AllCompleted(now);
                && (ok <==> !due || Listable(op, now))
                && (!due ==> pending == now && sent == old(sent))
                && (due && ok ==> pending == [] && Response(op, now, mtu).Some?
                                  && sent == old(sent) + [Response(op, now, mtu).value])
                && (!ok ==> sent == old(sent))
    {
      if t !in transactions {
        return true;
      }
      var op := transactions[t];
      transactions := transactions - {t};
      if t.request == number && t.place < |pending| && !pending[t.place].completed {
        AttributeReadCb(t.place, err, value);
      }
      ok := SendDevCompleteResponse(op);
    }

    /** read_timeout and pending_read_free: the read is over, and that is all. */
    method ReadExpired(t: Trans, err: int)
      modifies this`pending
      ensures pending == Ended(number, old(pending), Expired(t, err))
    {
      if t.request == number && t.place < |pending| && !pending[t.place].completed {
        AttributeReadCb(t.place, err, []);
      }
    }

    /** Where a request stands after `k` events. */
    ghost predicate Progress(x: Exchange, k: nat, ok: bool, before: seq<seq<byte>>)
      requires mtu >= 23 && x.Ok() && k <= |x.events|
      reads this
    {
      && number == x.number && transactions == x.Transactions(k)
      && match x.Replied(k)
         case None => ok && pending == x.Reads(k) && sent == before
         case Some(op) =>
           && (ok <==> Listable(op, x.Reads(k)))
           && (!ok ==> sent == before)
           && (ok ==> pending == [] && Response(op, x.Reads(k), mtu).Some?
                      && sent == before + [Response(op, x.Reads(k), mtu).value])
    }

    method Take(ghost x: Exchange, e: Event, ghost k: nat, ghost before: seq<seq<byte>>) returns (ok: bool)
      requires mtu >= 23 && x.Ok() && k < |x.events| && x.events[k] == e
      requires Progress(x, k, true, before)
      modifies this`pending, this`sent, this`transactions
      ensures Progress(x, k + 1, ok, before)
    {
      x.StepReplied(k);
      match e {
        case Answer(t, err, value) =>
          ok := HandleServerSendResponse(t, err, value);
        case Expired(t, err) =>
          ReadExpired(t, err);
          ok := true;
      }
    }

    /** The request arrives, and all its reads are started. */
    method Arrive(request: Arrival, ghost x: Exchange) returns (ok: bool)
      requires Idle() && x.Ok() && x.request == request && x.number == number && x.stale == transactions
      modifies this`pending, this`sent, this`transactions
      ensures Progress(x, 0, ok, old(sent))
    {
      pending := request.queue;
      x.CompletedWhenHeard(0);
      ok := ProcessDevPendingRequests(request.op, request.outcomes);
    }

    /** One request from its arrival on, with whatever happens to its reads. Exactly one response is sent if and only if
        all reads are complete at once or some answer, to this request or an earlier one, arrives when they are; it has
        the kind of the request that the answer is for, and the contents the reads call for in queue order. Otherwise
        nothing is ever sent, and the queue stays. `ok` is false when the response is due and needs a data list with
        elements that are too long. */
    method Serve(request: Arrival, events: seq<Event>) returns (ok: bool)
      requires Idle() && request.Ok()
      modifies this
      ensures var x := Exchange(old(number), request, old(transactions), events);
              && x.Ok() && (ok <==> x.Replied(|events|).None? || x.Served())
              && (ok ==> number == old(number) + 1 && transactions == x.Rest())
              && (x.Served() ==> pending == [] && sent == old(sent) + [x.Reply(mtu)])
              && (!x.Served() ==> sent == old(sent))
              && (x.Replied(|events|).None? ==> pending == x.Reads(|events|))
    {
      ghost var x := Exchange(number, request, transactions, events);
      ok := Arrive(request, x);
      var k := 0;
      while k < |events| && ok
        invariant k <= |events| && Progress(x, k, ok, old(sent))
        decreases |events| - k
      {
        ok := Take(x, events[k], k, old(sent));
        k := k + 1;
      }
      if x.Replied(k).Some? {
        x.RepliedMeansCompleted(k, |events|);
      }
      number := number + 1;
    }

    /** Requests that arrive one after the other, each when the one before has been answered: each gets its response, in
        order, up to the first that gets none. */
    method Run(s: Session) returns (n: nat)
      requires Idle() && s.Ok() && s.first == number && s.stale == transactions
      modifies this
      ensures s.Served(n) && sent == old(sent) + s.Responses(n, mtu)
      ensures n < |s.requests| ==> s.At(n).Ok() && !s.At(n).Served()
      ensures n == |s.requests| ==> Idle() && transactions == s.Transactions(n)
    {
      n := 0;
      while n < |s.requests|
        invariant s.Served(n) && sent == old(sent) + s.Responses(n, mtu)
        invariant Idle() && number == s.first + n && transactions == s.Transactions(n)
      {
        s.TransactionsSpec(n + 1);
        var ok := Serve(s.requests[n], s.events[n]);
        if !ok || pending != [] {
          return;
        }
        s.ServedMore(n, mtu);
        n := n + 1;
      }
    }
  }
}
