/** The client's cache of the characteristics of a remote service, and the walk over it with continuation requests. */
module GattCharCache {
  import opened Common

  type u16 = x: int | 0 <= x < 0x1_0000

  /** struct characteristic: `instance` is one octet wide. */
  datatype Characteristic = Characteristic(handle: u16, endHandle: u16, instance: byte)

  /** What cache_all_srvc_chars makes of the `i`-th characteristic found: its range ends before the next one begins, the
      last one's with the service. */
  function CharAt(found: seq<u16>, end: u16, i: nat): Characteristic
    requires i < |found|
  {
    Characteristic(found[i], if i + 1 < |found| then (found[i + 1] - 1) % 0x1_0000 else end, (i + 1) % 0x100)
  }

  function CharsOf(found: seq<u16>, end: u16): (chars: seq<Characteristic>)
    ensures |chars| == |found|
  {
    seq(|found|, i requires 0 <= i < |found| => CharAt(found, end, i))
  }

  /** Ascending handles within the service, as discovery reports them. */
  predicate Ascending(found: seq<u16>, end: u16) {
    && (forall i, j :: 0 <= i < j < |found| ==> found[i] < found[j])
    && (found != [] ==> found[|found| - 1] <= end)
  }

  predicate In(c: Characteristic, handle: u16) {
    c.handle <= handle <= c.endHandle
  }

  /** Each range starts where the one before ends. */
  lemma RangesAdjacent(found: seq<u16>, end: u16)
    requires Ascending(found, end)
    ensures var chars := CharsOf(found, end);
            && (forall i :: 0 <= i < |chars| ==> chars[i].handle <= chars[i].endHandle)
            && (forall i :: 0 <= i < |chars| - 1 ==> chars[i].endHandle as int + 1 == chars[i + 1].handle)
            && (chars != [] ==> chars[|chars| - 1].endHandle == end)
  {
  }

  /** The position of the last characteristic whose handle is not above `handle`. */
  function Owner(found: seq<u16>, handle: u16): (k: nat)
    requires found != [] && found[0] <= handle && forall i, j :: 0 <= i < j < |found| ==> found[i] < found[j]
    ensures k < |found| && found[k] <= handle && (k + 1 < |found| ==> handle < found[k + 1])
  {
    if found[|found| - 1] <= handle then |found| - 1 else Owner(found[..|found| - 1], handle)
  }

  lemma InRange(found: seq<u16>, end: u16, i: nat, handle: u16)
    requires Ascending(found, end) && i < |found|
    ensures In(CharAt(found, end, i), handle)
            <==> found[i] <= handle && if i + 1 < |found| then handle < found[i + 1] else handle <= end
  {
  }

  /** The ranges are disjoint and cover everything from the first characteristic to the end of the service: every handle
      lies in exactly one of them, and no handle outside lies in any. */
  lemma RangesPartition(found: seq<u16>, end: u16, handle: u16)
    requires Ascending(found, end) && found != []
    ensures var chars := CharsOf(found, end);
            && (found[0] <= handle <= end ==>
                  forall i :: 0 <= i < |chars| ==> (In(chars[i], handle) <==> i == Owner(found, handle)))
            && (!(found[0] <= handle <= end) ==> forall i :: 0 <= i < |chars| ==> !In(chars[i], handle))
  {
    forall i | 0 <= i < |found|
      ensures if found[0] <= handle <= end then In(CharAt(found, end, i), handle) <==> i == Owner(found, handle)
              else !In(CharAt(found, end, i), handle)
    {
      InRange(found, end, i, handle);
      if found[0] <= handle <= end {
        var k := Owner(found, handle);
        assert i < k ==> found[i + 1] <= found[k];
        assert k < i ==> found[k + 1] <= found[i];
      }
    }
  }

  /** match_char_by_higher_inst_id over the queue: the first position, |chars| if there is none. */
  function Higher(chars: seq<Characteristic>, instance: byte): (k: nat)
    ensures k <= |chars| && (forall i :: 0 <= i < k ==> chars[i].instance <= instance)
    ensures k < |chars| ==> chars[k].instance > instance
  {
    if chars == [] || chars[0].instance > instance then 0 else 1 + Higher(chars[1..], instance)
  }

  lemma {:induction false} HigherIs(chars: seq<Characteristic>, instance: byte, k: nat)
    requires k <= |chars| && forall j :: 0 <= j < k ==> chars[j].instance <= instance
    requires k < |chars| ==> chars[k].instance > instance
    ensures Higher(chars, instance) == k
  {
    if k == 0 {
    } else {
      HigherIs(chars[1..], instance, k - 1);
    }
  }

  /** After the `i`-th of the first 255 characteristics comes the next one; after the 255th there is none, because the
      instance of the 256th has wrapped to 0. */
  lemma NextInstance(found: seq<u16>, end: u16, i: nat)
    requires i < |found| && i < 255
    ensures var chars := CharsOf(found, end);
            Higher(chars, chars[i].instance) == if i < 254 && i + 1 < |found| then i + 1 else |chars|
  {
    var chars := CharsOf(found, end);
    assert chars[i].instance == i + 1;
    if i < 254 && i + 1 < |found| {
      assert chars[i + 1].instance == i + 2;
      assert forall j :: 0 <= j < i + 1 ==> chars[j].instance == j + 1;
      HigherIs(chars, i + 1, i + 1);
    } else if i < 254 {
      assert forall j :: 0 <= j < |chars| ==> chars[j].instance == j + 1;
      HigherIs(chars, i + 1, |chars|);
    } else {
      HigherIs(chars, 255, |chars|);
    }
  }

  lemma OctetUp(x: nat)
    ensures (x + 1) % 0x100 == if x % 0x100 == 0xFF then 0 else x % 0x100 + 1
  {
  }

  /** The 16-bit counter wraps without disturbing the octet that is stored. */
  lemma InstanceWraps(instId: u16, i: nat)
    requires instId % 0x100 == i % 0x100
    ensures (instId + 1) % 0x1_0000 % 0x100 == (i + 1) % 0x100
  {
    OctetUp(i);
    OctetUp(instId);
    if instId == 0xFFFF {
      assert (instId + 1) % 0x1_0000 == 0;
    } else {
      assert (instId + 1) % 0x1_0000 == instId + 1;
    }
  }

  class Service {
    const primary: bool
    const primEnd: u16
    const inclEnd: u16
    var chars: seq<Characteristic>

    constructor (primary: bool, primEnd: u16, inclEnd: u16)
      ensures chars == [] && this.primary == primary && this.primEnd == primEnd && this.inclEnd == inclEnd
    {
      this.primary, this.primEnd, this.inclEnd, chars := primary, primEnd, inclEnd, [];
    }

    /** The last handle of the service: a primary one and an included one say it in different places. */
    function End(): (end: u16)
      ensures primary ==> end == primEnd
      ensures !primary ==> end == inclEnd
    {
      if primary then primEnd else inclEnd
    }

    /** cache_all_srvc_chars */
    method CacheAllSrvcChars(found: seq<u16>)
      modifies this
      ensures chars == old(chars) + CharsOf(found, End())
    {
      ghost var all := CharsOf(found, End());
      var instId, i := 0, 0;
      while i < |found|
        invariant i <= |found| && 0 <= instId < 0x1_0000 && instId % 0x100 == i % 0x100
        invariant chars == old(chars) + all[..i]
      {
        InstanceWraps(instId, i);
        instId := (instId + 1) % 0x1_0000;
        var end := if i + 1 < |found| then (found[i + 1] - 1) % 0x1_0000 else End();
        var ch := Characteristic(found[i], end, instId % 0x100);
        assert ch == all[i] && all[..i + 1] == all[..i] + [ch];
        Associative(old(chars), all[..i], [ch]);
        chars := chars + [ch];
        i := i + 1;
      }
      assert all[..i] == all;
    }

    /** discover_char_cb: what is found is cached unless something is already; the first characteristic is reported. */
    method DiscoverCharCb(failed: bool, found: seq<u16>) returns (notified: Option<Characteristic>)
      modifies this
      ensures failed ==> chars == old(chars) && notified == None
      ensures !failed ==> chars == (if old(chars) == [] then CharsOf(found, End()) else old(chars))
                          && notified == if chars == [] then None else Some(chars[0])
    {
      if failed {
        return None;
      }
      if chars == [] {
        CacheAllSrvcChars(found);
      }
      notified := if chars == [] then None else Some(chars[0]);
    }

    /** queue_find with match_char_by_higher_inst_id */
    method FindHigher(instance: byte) returns (found: Option<Characteristic>)
      ensures found == var k := Higher(chars, instance); if k == |chars| then None else Some(chars[k])
    {
      var i := 0;
      while i < |chars|
        invariant i <= |chars| && Higher(chars, instance) == i + Higher(chars[i..], instance)
      {
        if chars[i].instance > instance {
          return Some(chars[i]);
        }
        assert chars[i..][1..] == chars[i + 1..];
        i := i + 1;
      }
      return None;
    }

    /** handle_client_get_characteristic once something is cached: the characteristic reported, None for a failure */
    method GetCharacteristic(continuation: Option<byte>) returns (notified: Option<Characteristic>)
      requires chars != []
      ensures match continuation
              case None => notified == Some(chars[0])
              case Some(instance) =>
                notified == var k := Higher(chars, instance); if k == |chars| then None else Some(chars[k])
    {
      if continuation.Some? {
        notified := FindHigher(continuation.value);
      } else {
        notified := Some(chars[0]);
      }
    }

    /** The walk: a first request, then continuation requests with the instance reported last, until one fails. It
        visits the characteristics once each and in order; all of them exactly when there are at most 255. */
    method Walk(ghost found: seq<u16>) returns (visited: seq<Characteristic>)
      requires chars != [] && chars == CharsOf(found, End())
      ensures visited == chars[..Min(|chars|, 255)]
      ensures visited == chars <==> |chars| <= 255
    {
      var next := GetCharacteristic(None);
      visited := [];
      while next.Some?
        invariant |visited| <= |chars| && |visited| <= 255 && visited == chars[..|visited|]
        invariant match next
                  case Some(ch) => |visited| < |chars| && |visited| < 255 && ch == chars[|visited|]
                  case None => |visited| == |chars| || |visited| == 255
        decreases 256 - |visited| - if next.None? then 1 else 0
      {
        NextInstance(found, End(), |visited|);
        assert chars[..|visited| + 1] == chars[..|visited|] + [next.value];
        visited := visited + [next.value];
        next := GetCharacteristic(Some(next.value.instance));
      }
    }
  }
}
