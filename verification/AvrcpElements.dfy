/** Media attributes: the target's writer of a Get Element Attributes response (`write_element_text`,
    `write_element_attrs`) and the controller's parser (`parse_pdu`, `parse_elements`, `parse_attribute_list`). */
module AvrcpElements {
  import opened Common
  import opened AvrcpContinuing

  const CHARSET_UTF8 := 106
  const AVRCP_MEDIA_ATTRIBUTE_LAST := 7
  const AVRCP_GET_ELEMENT_ATTRIBUTES := 0x20
  const IEEEID_BTSIG: seq<byte> := [0x00, 0x19, 0x58]
  const EPROTO := -71
  /** sizeof(struct media_item) */
  const ITEM_HEADER := 8

  type u16 = x: int | 0 <= x < 0x1_0000
  type u32 = x: int | 0 <= x < 0x1_0000_0000

  function Be16(n: u16): (r: seq<byte>) { [n / 256, n % 256] }

  function Be32(n: u32): (r: seq<byte>) { Be16(n / 0x1_0000) + Be16(n % 0x1_0000) }

  function FromBe16(b0: byte, b1: byte): u16 { (b0 as int) * 256 + b1 }

  function FromBe32(b0: byte, b1: byte, b2: byte, b3: byte): u32 {
    (FromBe16(b0, b1) as int) * 0x1_0000 + FromBe16(b2, b3)
  }

  lemma Be16ReadsBack(b0: byte, b1: byte)
    ensures Be16(FromBe16(b0, b1)) == [b0, b1]
  {
  }

  lemma Be32ReadsBack(b0: byte, b1: byte, b2: byte, b3: byte)
    ensures Be32(FromBe32(b0, b1, b2, b3)) == [b0, b1, b2, b3]
  {
    var high, low := FromBe16(b0, b1), FromBe16(b2, b3);
    Be16ReadsBack(b0, b1);
    Be16ReadsBack(b2, b3);
    assert FromBe32(b0, b1, b2, b3) / 0x1_0000 == high && FromBe32(b0, b1, b2, b3) % 0x1_0000 == low;
  }

  /** struct media_item */
  datatype Item = Item(attr: u32, charset: u16, data: Data)

  type Data = s: seq<byte> | |s| < 0x1_0000

  function Header(attr: u32, charset: u16, len: u16): (r: seq<byte>)
    ensures |r| == ITEM_HEADER
  {
    Be32(attr) + Be16(charset) + Be16(len)
  }

  function Encode(item: Item): seq<byte>
  {
    Header(item.attr, item.charset, |item.data|) + item.data
  }

  /** struct media_item is in network order: identifier, character set, length, and then the text. */
  lemma ItemLayout(item: Item)
    ensures var b := Encode(item);
            && |b| == 8 + |item.data| && b[8..] == item.data
            && 0x100_0000 * (b[0] as int) + 0x1_0000 * (b[1] as int) + 0x100 * (b[2] as int) + b[3] as int == item.attr
            && 0x100 * (b[4] as int) + b[5] as int == item.charset
            && 0x100 * (b[6] as int) + b[7] as int == |item.data|
  {
    var high, low := item.attr / 0x1_0000, item.attr % 0x1_0000;
    assert Be32(item.attr) == [high / 256, high % 256, low / 256, low % 256];
  }

  function EncodeAll(items: seq<Item>): seq<byte>
  {
    if items == [] then [] else Encode(items[0]) + EncodeAll(items[1..])
  }

  datatype Next = Next(item: Item, rest: seq<byte>)

  /** The item at the front of `b` and what follows it, unless its header promises more than is left. */
  function Peek(b: seq<byte>): Option<Next>
    requires |b| >= ITEM_HEADER
  {
    var end := ITEM_HEADER + FromBe16(b[6], b[7]) as int;
    if end > |b| then None
    else Some(Next(Item(FromBe32(b[0], b[1], b[2], b[3]), FromBe16(b[4], b[5]), b[ITEM_HEADER..end]), b[end..]))
  }

  lemma PeekEncode(item: Item, rest: seq<byte>)
    ensures Peek(Encode(item) + rest) == Some(Next(item, rest))
  {
    var b := Encode(item) + rest;
    assert b[ITEM_HEADER..ITEM_HEADER + |item.data|] == item.data;
    assert b[ITEM_HEADER + |item.data|..] == rest;
  }

  lemma HeaderReadsBack(b: seq<byte>)
    requires |b| >= ITEM_HEADER
    ensures Header(FromBe32(b[0], b[1], b[2], b[3]), FromBe16(b[4], b[5]), FromBe16(b[6], b[7])) == b[..ITEM_HEADER]
  {
    Be32ReadsBack(b[0], b[1], b[2], b[3]);
    Be16ReadsBack(b[4], b[5]);
    Be16ReadsBack(b[6], b[7]);
  }

  lemma EncodePeek(b: seq<byte>)
    requires |b| >= ITEM_HEADER && Peek(b).Some?
    ensures var next := Peek(b).value; Encode(next.item) + next.rest == b && |next.rest| < |b|
  {
    var item := Peek(b).value.item;
    HeaderReadsBack(b);
    assert b[..ITEM_HEADER] + item.data == b[..ITEM_HEADER + |item.data|];
  }

  function Then(items: seq<Item>, more: Option<seq<Item>>): Option<seq<Item>> {
    if more.None? then None else Some(items + more.value)
  }

  lemma ThenThen(items: seq<Item>, item: Item, more: Option<seq<Item>>)
    ensures Then(items, Then([item], more)) == Then(items + [item], more)
  {
    assert more.Some? ==> items + ([item] + more.value) == items + [item] + more.value;
  }

  lemma ThenNothing(more: Option<seq<Item>>)
    ensures Then([], more) == more
  {
    assert more.Some? ==> [] + more.value == more.value;
  }

  lemma ThenAll(items: seq<Item>, more: Option<seq<Item>>)
    requires items != []
    ensures Then([items[0]], Then(items[1..], more)) == Then(items, more)
  {
    assert more.Some? ==> [items[0]] + (items[1..] + more.value) == items + more.value;
  }

  /** What parse_attribute_list makes of at most `number` items: it stops, content, when less than a header is left,
      and gives up when an item is longer than what is left. */
  function Items(params: seq<byte>, number: nat): Option<seq<Item>>
    decreases number
  {
    if number == 0 || |params| < ITEM_HEADER then Some([])
    else
      match Peek(params)
      case None => None
      case Some(next) => Then([next.item], Items(next.rest, number - 1))
  }

  /** The bytes are `items`, as many as asked for or as there is room for, and something left over. */
  predicate Splits(params: seq<byte>, number: nat, items: seq<Item>, rest: seq<byte>) {
    && |items| <= number && params == EncodeAll(items) + rest
    && (|items| == number || |rest| < ITEM_HEADER)
  }

  /** After `items` a header promises more than is left. */
  predicate Breaks(params: seq<byte>, number: nat, items: seq<Item>, rest: seq<byte>) {
    && |items| < number && params == EncodeAll(items) + rest
    && |rest| >= ITEM_HEADER && Peek(rest).None?
  }

  lemma EncodePrepend(item: Item, items: seq<Item>, rest: seq<byte>)
    ensures EncodeAll([item] + items) + rest == Encode(item) + (EncodeAll(items) + rest)
  {
    assert ([item] + items)[1..] == items;
  }

  lemma Prepend(item: Item, tail: seq<byte>, number: nat, items: seq<Item>, rest: seq<byte>)
    requires number > 0
    ensures Splits(tail, number - 1, items, rest) ==> Splits(Encode(item) + tail, number, [item] + items, rest)
    ensures Breaks(tail, number - 1, items, rest) ==> Breaks(Encode(item) + tail, number, [item] + items, rest)
  {
    EncodePrepend(item, items, rest);
  }

  /** On every byte string: what parsing accepts is how the bytes split, and what it refuses breaks. */
  lemma {:induction false} ItemsSplit(params: seq<byte>, number: nat) returns (items: seq<Item>, rest: seq<byte>)
    ensures match Items(params, number)
            case Some(all) => items == all && Splits(params, number, items, rest)
            case None => Breaks(params, number, items, rest)
    decreases number
  {
    if number == 0 || |params| < ITEM_HEADER || Peek(params).None? {
      items, rest := [], params;
      assert params == EncodeAll(items) + rest;
    } else {
      var next := Peek(params).value;
      EncodePeek(params);
      items, rest := ItemsSplit(next.rest, number - 1);
      Prepend(next.item, next.rest, number, items, rest);
      items := [next.item] + items;
    }
  }

  lemma ItemsOfEncoding(number: nat, items: seq<Item>, rest: seq<byte>)
    requires items != [] && number > 0
    ensures Items(EncodeAll(items) + rest, number)
         == Then([items[0]], Items(EncodeAll(items[1..]) + rest, number - 1))
  {
    EncodePrepend(items[0], items[1..], rest);
    assert items == [items[0]] + items[1..];
    PeekEncode(items[0], EncodeAll(items[1..]) + rest);
  }

  lemma {:induction false} EncodingIsItems(number: nat, items: seq<Item>, rest: seq<byte>)
    requires |items| <= number
    ensures Items(EncodeAll(items) + rest, number) == Then(items, Items(rest, number - |items|))
    decreases number
  {
    ThenNothing(Items(rest, number));
    if items == [] {
      assert EncodeAll(items) + rest == rest;
    } else {
      ItemsOfEncoding(number, items, rest);
      EncodingIsItems(number - 1, items[1..], rest);
      ThenAll(items, Items(rest, number - |items|));
    }
  }

  /** There is no other way to split the bytes, and bytes that break are refused. */
  lemma SplitIsItems(params: seq<byte>, number: nat, items: seq<Item>, rest: seq<byte>)
    ensures Splits(params, number, items, rest) ==> Items(params, number) == Some(items)
    ensures Breaks(params, number, items, rest) ==> Items(params, number) == None
  {
    if |items| <= number {
      EncodingIsItems(number, items, rest);
      assert items + [] == items;
    }
  }

  // ---------------------------------------------------------------- the parser

  /** What the caller sees of an item: g_strndup stops at a NUL, and an empty text comes as attribute 0. */
  datatype Shown = Shown(attr: u32, text: Option<seq<byte>>)

  function CString(data: seq<byte>): seq<byte> {
    if data == [] || data[0] == 0 then [] else [data[0]] + CString(data[1..])
  }

  lemma {:induction false} CStringSpec(data: seq<byte>)
    ensures CString(data) <= data && 0 !in CString(data)
    ensures CString(data) == data <==> 0 !in data
  {
    if data == [] {
    } else {
      CStringSpec(data[1..]);
      assert data == [data[0]] + data[1..];
    }
  }

  function Show(item: Item): Shown {
    if item.data == [] then Shown(0, None) else Shown(item.attr, Some(CString(item.data)))
  }

  function ShowAll(items: seq<Item>): (r: seq<Shown>)
    ensures |r| == |items|
  {
    seq(|items|, i requires 0 <= i < |items| => Show(items[i]))
  }

  lemma ShowNext(items: seq<Item>, item: Item)
    ensures ShowAll(items + [item]) == ShowAll(items) + [Show(item)]
  {
  }

  /** The header of an item, and the octets behind it if they are all there. */
  method ReadItem(b: seq<byte>) returns (next: Option<Next>)
    requires |b| >= ITEM_HEADER
    ensures next == Peek(b)
  {
    var attr, charset, len := FromBe32(b[0], b[1], b[2], b[3]), FromBe16(b[4], b[5]), FromBe16(b[6], b[7]);
    if len > |b| - ITEM_HEADER {
      return None;
    }
    return Some(Next(Item(attr, charset, b[ITEM_HEADER..ITEM_HEADER + len]), b[ITEM_HEADER + len..]));
  }

  /** parse_attribute_list; the arrays `attrs` and `text` are returned as one list of what has been filled. */
  method ParseAttributeList(params: seq<byte>, number: byte) returns (err: int, shown: seq<Shown>)
    ensures number > AVRCP_MEDIA_ATTRIBUTE_LAST ==> err == EPROTO
    ensures number <= AVRCP_MEDIA_ATTRIBUTE_LAST ==>
              match Items(params, number)
              case None => err == EPROTO
              case Some(items) => err == 0 && shown == ShowAll(items)
  {
    shown := [];
    if number > AVRCP_MEDIA_ATTRIBUTE_LAST {
      return EPROTO, [];
    }
    var rest, i := params, 0;
    ghost var items := [];
    ThenNothing(Items(params, number));
    while i < number && |rest| >= ITEM_HEADER
      invariant 0 <= i <= number && shown == ShowAll(items)
      invariant Items(params, number) == Then(items, Items(rest, number - i))
    {
      var next := ReadItem(rest);
      if next.None? {
        return EPROTO, [];
      }
      var item := next.value.item;
      ThenThen(items, item, Items(next.value.rest, number - i - 1));
      ShowNext(items, item);
      shown := shown + if |item.data| > 0 then [Shown(item.attr, Some(CString(item.data)))] else [Shown(0, None)];
      items := items + [item];
      rest, i := next.value.rest, i + 1;
    }
    return 0, shown;
  }

  /** parse_elements: the number is the first octet */
  method ParseElements(params: seq<byte>) returns (err: int, number: byte, shown: seq<Shown>)
    ensures params == [] || params[0] > AVRCP_MEDIA_ATTRIBUTE_LAST ==> err == EPROTO
    ensures params != [] && params[0] <= AVRCP_MEDIA_ATTRIBUTE_LAST ==>
              match Items(params[1..], params[0])
              case None => err == EPROTO
              case Some(items) => err == 0 && number == params[0] && shown == ShowAll(items)
  {
    if |params| < 1 || params[0] > AVRCP_MEDIA_ATTRIBUTE_LAST {
      return EPROTO, 0, [];
    }
    number := params[0];
    err, shown := ParseAttributeList(params[1..], number);
  }

  // ---------------------------------------------------------------- the writer

  /** struct hal_avrcp_player_setting_text: identifier and text length are octets */
  datatype Entry = Entry(id: byte, text: Text)

  type Text = s: seq<byte> | |s| < 256

  function ItemOf(e: Entry): Item {
    Item(e.id, CHARSET_UTF8, e.text)
  }

  function ItemsOf(entries: seq<Entry>): (items: seq<Item>)
    ensures |items| == |entries|
  {
    seq(|entries|, i requires 0 <= i < |entries| => ItemOf(entries[i]))
  }

  function Written(entries: seq<Entry>): seq<byte>
    requires |entries| < 256
  {
    [|entries|] + EncodeAll(ItemsOf(entries))
  }

  lemma Extend(now: seq<byte>, len: nat, first: seq<byte>, done: seq<byte>, more: seq<byte>)
    requires len <= |now| && now[..len] == first + done && now[len..] == more
    ensures now == first + (done + more)
  {
    assert now == now[..len] + now[len..];
  }

  lemma {:induction false} EncodeAppend(a: seq<Item>, b: seq<Item>)
    ensures EncodeAll(a + b) == EncodeAll(a) + EncodeAll(b)
  {
    if a == [] {
      assert a + b == b;
    } else {
      EncodeAppend(a[1..], b);
      assert (a + b)[1..] == a[1..] + b && (a + b)[0] == a[0];
      Associative(Encode(a[0]), EncodeAll(a[1..]), EncodeAll(b));
    }
  }

  lemma EncodeNext(items: seq<Item>, i: nat)
    requires i < |items|
    ensures EncodeAll(items[..i + 1]) == EncodeAll(items[..i]) + Encode(items[i])
    ensures |EncodeAll(items[..i + 1])| <= |EncodeAll(items)|
  {
    EncodeAppend(items[..i], [items[i]]);
    assert items[..i + 1] == items[..i] + [items[i]];
    EncodeAppend(items[..i + 1], items[i + 1..]);
    assert items == items[..i + 1] + items[i + 1..];
  }

  /** write_element_text */
  method WriteElementText(e: Entry, pdu: array<byte>, at: nat) returns (len: nat)
    requires at + ITEM_HEADER + |e.text| <= pdu.Length
    modifies pdu
    ensures len == |Encode(ItemOf(e))| && at + len <= pdu.Length
    ensures pdu[..at] == old(pdu[..at]) && pdu[at..at + len] == Encode(ItemOf(e))
  {
    var header := Header(e.id, CHARSET_UTF8, |e.text|);
    len := 0;
    while len < ITEM_HEADER
      invariant len <= ITEM_HEADER && pdu[..at] == old(pdu[..at])
      invariant pdu[at..at + len] == header[..len]
    {
      pdu[at + len] := header[len];
      len := len + 1;
    }
    ghost var item := Encode(ItemOf(e));
    assert item == header + e.text;
    while len < ITEM_HEADER + |e.text|
      invariant ITEM_HEADER <= len <= ITEM_HEADER + |e.text| && pdu[..at] == old(pdu[..at])
      invariant pdu[at..at + len] == item[..len]
    {
      pdu[at + len] := e.text[len - ITEM_HEADER];
      len := len + 1;
    }
    assert item[..len] == item;
  }

  /** write_element_attrs. `inside` is false when the writes leave the buffer, which the code does not check: exactly
      when the buffer is too short. */
  method WriteElementAttrs(entries: seq<Entry>, pdu: array<byte>) returns (len: nat, inside: bool)
    requires |entries| < 256
    modifies pdu
    ensures inside <==> |Written(entries)| <= pdu.Length
    ensures inside ==> len == |Written(entries)| && pdu[..len] == Written(entries)
  {
    if pdu.Length < 1 {
      return 0, false;
    }
    pdu[0] := |entries|;
    len := 1;
    ghost var items := ItemsOf(entries);
    for i := 0 to |entries|
      invariant len == 1 + |EncodeAll(items[..i])| <= |Written(entries)|
      invariant len <= pdu.Length && pdu[..len] == [|entries|] + EncodeAll(items[..i])
    {
      EncodeNext(items, i);
      if pdu.Length < len + ITEM_HEADER + |entries[i].text| {
        return len, false;
      }
      var size := WriteElementText(entries[i], pdu, len);
      Extend(pdu[..len + size], len, [|entries|], EncodeAll(items[..i]), Encode(items[i]));
      len := len + size;
    }
    assert items[..|entries|] == items;
    inside := true;
  }

  // ---------------------------------------------------------------- round trips

  /** What the controller should see of what the target wrote. */
  function ShownOf(e: Entry): Shown {
    if e.text == [] then Shown(0, None) else Shown(e.id, Some(e.text))
  }

  predicate NulFree(entries: seq<Entry>) {
    forall i :: 0 <= i < |entries| ==> 0 !in entries[i].text
  }

  lemma WrittenReadsBack(entries: seq<Entry>)
    requires |entries| < 256
    ensures Items(Written(entries)[1..], |entries|) == Some(ItemsOf(entries))
    ensures NulFree(entries) <==> forall i :: 0 <= i < |entries| ==> Show(ItemsOf(entries)[i]) == ShownOf(entries[i])
  {
    var items := ItemsOf(entries);
    assert Written(entries)[1..] == EncodeAll(items) + [];
    SplitIsItems(Written(entries)[1..], |entries|, items, []);
    forall i | 0 <= i < |entries| ensures 0 !in entries[i].text <==> Show(items[i]) == ShownOf(entries[i]) {
      CStringSpec(entries[i].text);
    }
  }

  /** The target writes, the controller parses: a list of at most seven entries comes back whole, as it was exactly
      when no text holds a NUL; a longer list is refused. */
  method RoundTrip(entries: seq<Entry>, pdu: array<byte>)
    returns (err: int, number: byte, shown: seq<Shown>, inside: bool)
    requires |entries| < 256
    modifies pdu
    ensures inside <==> |Written(entries)| <= pdu.Length
    ensures inside ==> (err == 0 <==> |entries| <= AVRCP_MEDIA_ATTRIBUTE_LAST)
    ensures inside && err == 0 ==> number == |entries| == |shown|
    ensures inside && err == 0 ==>
              (NulFree(entries) <==> forall i :: 0 <= i < |entries| ==> shown[i] == ShownOf(entries[i]))
  {
    var len;
    len, inside := WriteElementAttrs(entries, pdu);
    if !inside {
      return 0, 0, [], false;
    }
    WrittenReadsBack(entries);
    err, number, shown := ParseElements(pdu[..len]);
  }

  /** The same when the response goes out in pieces and the controller joins them again. */
  lemma RoundTripInPieces(entries: seq<Entry>, cap: nat)
    requires |entries| < 256 && cap > 0
    ensures var got := Rejoin(Pieces(AVRCP_GET_ELEMENT_ATTRIBUTES, SINGLE, Written(entries), cap));
            && got == Some(Written(entries)) && got.value != [] && got.value[0] == |entries|
            && Items(got.value[1..], got.value[0]) == Some(ItemsOf(entries))
  {
    RejoinPieces(AVRCP_GET_ELEMENT_ATTRIBUTES, Written(entries), cap);
    WrittenReadsBack(entries);
  }

  // ---------------------------------------------------------------- the AVRCP header

  function TypeCode(kind: Type): byte {
    match kind
    case SINGLE => 0 case START => 1 case CONTINUING => 2 case END => 3
  }

  /** struct avrcp_header and its parameters as avrcp_send_internal lays them out */
  function EncodePacket(p: Packet): seq<byte>
    requires |p.params| < 0x1_0000
  {
    IEEEID_BTSIG + [p.pduId, TypeCode(p.kind)] + Be16(|p.params|) + p.params
  }

  /** parse_pdu: the length must be exact */
  function ParsePdu(operands: seq<byte>): Option<Packet> {
    if |operands| < AVRCP_HEADER_LENGTH then None
    else if |operands| != FromBe16(operands[5], operands[6]) as int + AVRCP_HEADER_LENGTH then None
    else
      var code := operands[4] % 4;
      var kind := if code == 0 then SINGLE else if code == 1 then START else if code == 2 then CONTINUING else END;
      Some(Packet(operands[3], kind, operands[AVRCP_HEADER_LENGTH..]))
  }

  /** A packet parses back, and none of its proper prefixes or extensions does. */
  lemma PacketReadsBack(p: Packet, operands: seq<byte>)
    requires |p.params| < 0x1_0000
    ensures ParsePdu(EncodePacket(p)) == Some(p)
    ensures operands <= EncodePacket(p) || EncodePacket(p) <= operands ==>
              (ParsePdu(operands).Some? <==> operands == EncodePacket(p))
  {
    var b := EncodePacket(p);
    assert b[AVRCP_HEADER_LENGTH..] == p.params;
  }
}
