/** AVDTP service capabilities (AVDTP 1.3, section 8.21): the list a Set Configuration request prints and
    the list `caps_to_list` reads back. */
module AvdtpCaps {
  import opened Common
  import Wire = AvdtpWire

  const MEDIA_TRANSPORT := 1
  const MEDIA_CODEC := 7
  const DELAY_REPORTING := 8
  /** sizeof(struct avdtp_media_codec_capability) */
  const CODEC_HEADER := 2
  const SET_CONFIGURATION := 3

  /** `length` is one octet, so a capability carries at most 255 octets. */
  datatype Capability = Capability(category: byte, data: seq<byte>)

  type Cap = c: Capability | |c.data| < 256 witness Capability(0, [])

  function Print(c: Cap): seq<byte> {
    [c.category, |c.data|] + c.data
  }

  function PrintAll(caps: seq<Cap>): seq<byte> {
    if caps == [] then [] else Print(caps[0]) + PrintAll(caps[1..])
  }

  lemma {:induction false} PrintAppend(a: seq<Cap>, b: seq<Cap>)
    ensures PrintAll(a + b) == PrintAll(a) + PrintAll(b)
  {
    if a == [] {
      assert a + b == b;
    } else {
      PrintAppend(a[1..], b);
      assert (a + b)[1..] == a[1..] + b;
    }
  }

  lemma PrintSize(caps: seq<Cap>)
    ensures caps == [] || 2 <= |PrintAll(caps)|
  {
  }

  /** No whole capability starts here. */
  predicate Stuck(rest: seq<byte>) {
    |rest| < 2 || 2 + rest[1] > |rest|
  }

  predicate IsCodec(c: Cap) {
    c.category == MEDIA_CODEC && CODEC_HEADER <= |c.data|
  }

  /** `codec` is the last media codec entry with a full codec header, or what it was before. */
  ghost predicate LastCodec(caps: seq<Cap>, before: Option<Cap>, codec: Option<Cap>) {
    if exists i :: 0 <= i < |caps| && IsCodec(caps[i]) then
      exists i :: 0 <= i < |caps| && IsCodec(caps[i]) && codec == Some(caps[i])
                  && forall j :: i < j < |caps| ==> !IsCodec(caps[j])
    else
      codec == before
  }

  /** What the loop of caps_to_list leaves: the capabilities that were whole, and where it stopped. */
  ghost predicate Reads(data: seq<byte>, caps: seq<Cap>) {
    var n := |PrintAll(caps)|;
    n <= |data| && data[..n] == PrintAll(caps) && Stuck(data[n..])
  }

  predicate HasDelay(caps: seq<Cap>) {
    exists i :: 0 <= i < |caps| && caps[i].category == DELAY_REPORTING
  }

  lemma OneMoreCap(caps: seq<Cap>, cap: Cap, before: Option<Cap>, codec: Option<Cap>)
    requires LastCodec(caps, before, codec)
    ensures LastCodec(caps + [cap], before, if IsCodec(cap) then Some(cap) else codec)
    ensures HasDelay(caps + [cap]) <==> HasDelay(caps) || cap.category == DELAY_REPORTING
  {
    var all := caps + [cap];
    assert all[|caps|] == cap && forall i :: 0 <= i < |caps| ==> all[i] == caps[i];
  }

  /** caps_to_list; `before` is what the caller's codec pointer holds. Every octet read is inside `data`. */
  method CapsToList(data: seq<byte>, before: Option<Cap>)
    returns (caps: seq<Cap>, codec: Option<Cap>, delayReporting: bool)
    ensures Reads(data, caps)
    ensures LastCodec(caps, before, codec)
    ensures delayReporting <==> HasDelay(caps)
  {
    var processed := 0;
    caps, codec, delayReporting := [], before, false;
    while processed + 2 <= |data|
      invariant 0 <= processed <= |data|
      invariant data[..processed] == PrintAll(caps)
      invariant LastCodec(caps, before, codec)
      invariant delayReporting <==> HasDelay(caps)
      decreases |data| - processed
    {
      var category, length := data[processed], data[processed + 1];
      if processed + 2 + length > |data| {
        break;
      }
      var cap: Cap := Capability(category, data[processed + 2..processed + 2 + length]);
      assert data[..processed + 2 + length] == data[..processed] + Print(cap);
      PrintAppend(caps, [cap]);
      assert PrintAll([cap]) == Print(cap) + PrintAll([]);
      processed := processed + 2 + length;
      OneMoreCap(caps, cap, before, codec);
      caps := caps + [cap];
      if category == MEDIA_CODEC && length >= CODEC_HEADER {
        codec := Some(cap);
      } else if category == DELAY_REPORTING {
        delayReporting := true;
      }
    }
  }

  lemma RestOf(data: seq<byte>, caps: seq<Cap>)
    requires caps != [] && |PrintAll(caps)| <= |data| && data[..|PrintAll(caps)|] == PrintAll(caps)
    ensures var rest := data[2 + |caps[0].data|..];
            |PrintAll(caps[1..])| <= |rest| && rest[..|PrintAll(caps[1..])|] == PrintAll(caps[1..])
  {
    var n := 2 + |caps[0].data|;
    assert PrintAll(caps)[n..] == PrintAll(caps[1..]);
    assert data[n..][..|PrintAll(caps[1..])|] == data[..|PrintAll(caps)|][n..];
  }

  /** The reading is the only one, and the longest: any list printed at the front of `data` is a prefix of it. */
  lemma {:induction false} LongestPrefix(data: seq<byte>, caps: seq<Cap>, other: seq<Cap>)
    requires Reads(data, caps)
    requires |PrintAll(other)| <= |data| && data[..|PrintAll(other)|] == PrintAll(other)
    ensures other <= caps
    decreases |other|
  {
    if other == [] {
    } else {
      var c := other[0];
      var n := 2 + |c.data|;
      assert PrintAll(other)[..n] == Print(c);
      assert data[..n] == Print(c);
      assert data[0] == c.category && data[1] == |c.data| && data[2..n] == c.data;
      if caps == [] {
        assert false;
      } else {
        var d := caps[0];
        assert PrintAll(caps)[..2 + |d.data|] == Print(d);
        assert data[..2 + |d.data|] == Print(d);
        assert data[0] == d.category && data[1] == |d.data| && data[2..2 + |d.data|] == d.data;
        assert c == d;
        RestOf(data, caps);
        RestOf(data, other);
        assert data[|PrintAll(caps)|..] == data[n..][|PrintAll(caps[1..])|..];
        LongestPrefix(data[n..], caps[1..], other[1..]);
        assert caps == [d] + caps[1..] && other == [c] + other[1..];
      }
    }
  }

  lemma ReadsBack(caps: seq<Cap>, read: seq<Cap>)
    requires Reads(PrintAll(caps), read)
    ensures read == caps
  {
    LongestPrefix(PrintAll(caps), read, caps);
    var more := read[|caps|..];
    assert read == caps + more;
    PrintAppend(caps, more);
    PrintSize(more);
  }

  lemma ReadsMore(data: seq<byte>, cap: Cap, caps: seq<Cap>)
    requires !Stuck(data) && cap == Capability(data[0], data[2..2 + data[1]])
    requires Reads(data[2 + data[1]..], caps)
    ensures Reads(data, [cap] + caps)
  {
    var n, m := 2 + data[1] as int, |PrintAll(caps)|;
    assert ([cap] + caps)[1..] == caps;
    assert data[..n] == Print(cap) && data[..n + m] == data[..n] + data[n..][..m];
    assert data[n + m..] == data[n..][m..];
  }

  /** The capabilities that are whole, as a function of the bytes. */
  function CapsOf(data: seq<byte>): (caps: seq<Cap>)
    ensures Reads(data, caps)
  {
    if Stuck(data) then
      assert data[0..] == data;
      []
    else
      var n := 2 + data[1] as int;
      var cap: Cap := Capability(data[0], data[2..n]);
      var caps := CapsOf(data[n..]);
      ReadsMore(data, cap, caps);
      [cap] + caps
  }

  /** There is one reading. */
  lemma ReadsUnique(data: seq<byte>, caps: seq<Cap>)
    requires Reads(data, caps)
    ensures caps == CapsOf(data)
  {
    LongestPrefix(data, caps, CapsOf(data));
    LongestPrefix(data, CapsOf(data), caps);
  }

  /** A Media Transport capability must be empty. */
  predicate BadTransport(caps: seq<Cap>) {
    exists i :: 0 <= i < |caps| && caps[i].category == MEDIA_TRANSPORT && caps[i].data != []
  }

  /** The check of avdtp_setconf_cmd */
  method CheckTransport(caps: seq<Cap>) returns (ok: bool)
    ensures ok <==> !BadTransport(caps)
  {
    for i := 0 to |caps|
      invariant forall k :: 0 <= k < i ==> !(caps[k].category == MEDIA_TRANSPORT && caps[k].data != [])
    {
      if caps[i].category == MEDIA_TRANSPORT && caps[i].data != [] {
        return false;
      }
    }
    return true;
  }

  // ---------------------------------------------------------------- the Set Configuration request

  type seid6 = x: int | 0 <= x < 64

  function WithDelay(caps: seq<Cap>, delay: bool): seq<Cap> {
    if delay then caps + [Capability(DELAY_REPORTING, [])] else caps
  }

  function SetConfiguration(acpSeid: seid6, intSeid: seid6, caps: seq<Cap>): seq<byte> {
    [4 * acpSeid, 4 * intSeid] + PrintAll(caps)
  }

  function SeidOf(b: byte): seid6 { b / 4 }

  /** The part of avdtp_set_configuration that builds the request. */
  method BuildRequest(rseid: seid6, lseid: seid6, caps: seq<Cap>, remoteDelay: bool, localDelay: bool)
    returns (req: seq<byte>, delayReporting: bool)
    ensures delayReporting == (remoteDelay && localDelay)
    ensures req == SetConfiguration(rseid, lseid, WithDelay(caps, delayReporting))
  {
    var all := caps;
    delayReporting := false;
    if remoteDelay && localDelay {
      all := caps + [Capability(DELAY_REPORTING, [])];
      delayReporting := true;
    }

    var i := 0;
    req := [4 * rseid, 4 * lseid];
    while i < |all|
      invariant 0 <= i <= |all|
      invariant req + PrintAll(all[i..]) == SetConfiguration(rseid, lseid, all)
    {
      assert PrintAll(all[i..]) == Print(all[i]) + PrintAll(all[i + 1..]) by {
        assert all[i..][1..] == all[i + 1..];
      }
      req := req + Print(all[i]);
      i := i + 1;
    }
    assert all[i..] == [];
  }

  datatype Configuration = Configuration(acpSeid: seid6, intSeid: seid6, caps: seq<Cap>, codec: Option<Cap>,
                                         delayReporting: bool)

  /** The part of avdtp_setconf_cmd that reads the request; None when it is too short. */
  method ReadRequest(req: seq<byte>) returns (conf: Option<Configuration>)
    ensures conf.None? <==> |req| < 2
    ensures conf.Some? ==>
              && conf.value.acpSeid == SeidOf(req[0]) && conf.value.intSeid == SeidOf(req[1])
              && Reads(req[2..], conf.value.caps)
              && LastCodec(conf.value.caps, None, conf.value.codec)
              && (conf.value.delayReporting <==> HasDelay(conf.value.caps))
  {
    if |req| < 2 {
      return None;
    }
    var caps, codec, delay := CapsToList(req[2..], None);
    return Some(Configuration(SeidOf(req[0]), SeidOf(req[1]), caps, codec, delay));
  }

  /** Reading a Set Configuration request gives back exactly what was printed. */
  lemma RequestReadsBack(acpSeid: seid6, intSeid: seid6, caps: seq<Cap>, read: seq<Cap>)
    requires Reads(SetConfiguration(acpSeid, intSeid, caps)[2..], read)
    ensures var req := SetConfiguration(acpSeid, intSeid, caps);
            && req[0] == 4 * acpSeid && req[1] == 4 * intSeid
            && SeidOf(req[0]) == acpSeid && SeidOf(req[1]) == intSeid && read == caps
  {
    assert SetConfiguration(acpSeid, intSeid, caps)[2..] == PrintAll(caps);
    ReadsBack(caps, read);
  }

  /** The same after the request went through the fragmenter and the reassembler. */
  lemma RequestCrossesTheWire(omtu: nat, transaction: Wire.label4, acpSeid: seid6, intSeid: seid6, caps: seq<Cap>,
                              st: Wire.InState, read: seq<Cap>)
    requires 3 <= omtu && st.Valid() && !st.active
    requires |SetConfiguration(acpSeid, intSeid, caps)| <= 255
    requires !Wire.Miscounted(omtu, |SetConfiguration(acpSeid, intSeid, caps)|)
    ensures var m := Wire.Message(transaction, 0, SET_CONFIGURATION, SetConfiguration(acpSeid, intSeid, caps));
            var (end, r) := Wire.Run(st, Wire.DecodeAll(Wire.Packets(omtu, m)));
            && r == Wire.PARSE_SUCCESS && |end.Received().payload| >= 2
            && SeidOf(end.Received().payload[0]) == acpSeid && SeidOf(end.Received().payload[1]) == intSeid
            && (Reads(end.Received().payload[2..], read) <==> read == caps)
  {
    var req := SetConfiguration(acpSeid, intSeid, caps);
    Wire.RoundTrip(omtu, Wire.Message(transaction, 0, SET_CONFIGURATION, req), st);
    assert req[2..] == PrintAll(caps);
    assert PrintAll(caps)[..|PrintAll(caps)|] == PrintAll(caps);
    if Reads(req[2..], read) {
      RequestReadsBack(acpSeid, intSeid, caps, read);
    }
  }
}
