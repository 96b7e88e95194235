/** Codec negotiation for A2DP: which stored preset fits a remote end point, and how a preset that does not quite fit is
    narrowed, in place, until it does. */
module A2dpPresets {
  import opened Common

  const EINVAL := -22
  const ERANGE := -34

  /** AAC_GET_BITRATE and AAC_SET_BITRATE keep 23 bits in three fields. */
  datatype Bitrate = Bitrate(b1: septet, b2: byte, b3: byte)

  type septet = x: int | 0 <= x < 128

  function GetBitrate(b: Bitrate): nat {
    b.b1 as int * 0x1_0000 + b.b2 as int * 0x100 + b.b3
  }

  function SetBitrate(rate: nat): Bitrate {
    Bitrate(rate / 0x1_0000 % 0x80, rate / 0x100 % 0x100, rate % 0x100)
  }

  lemma BitrateReadsBack(rate: nat)
    requires rate < 0x80_0000
    ensures GetBitrate(SetBitrate(rate)) == rate
  {
  }

  lemma BitrateBound(b: Bitrate)
    ensures GetBitrate(b) < 0x80_0000
  {
  }

  /** The codec information elements, one per size: a2dp_sbc_t, a2dp_aac_t and a2dp_aptx_t, whose vendor and codec
      identifiers are the aptX ones when `aptx` holds. Data of any other size is Other. */
  datatype Config =
    | Sbc(frequency: bv4, channelMode: bv4, blockLength: bv4, subbands: bv2, allocationMethod: bv2,
          minBitpool: byte, maxBitpool: byte)
    | Aac(objectType: bv8, aacFrequency: bv12, channels: bv2, vbr: bool, bitrate: Bitrate)
    | Aptx(aptx: bool, aptxFrequency: bv4, aptxChannelMode: bv4)
    | Other(data: seq<byte>)

  /** media_codec_type of a remote end point */
  datatype CodecType = SBC | MPEG24 | VENDOR | UNKNOWN

  datatype Codec = Codec(kind: CodecType, caps: Config)

  function SbcCheckConfig(cap: Config, config: Config): int {
    if !cap.Sbc? || !config.Sbc? then EINVAL
    else if cap.frequency & config.frequency == 0 then EINVAL
    else if cap.channelMode & config.channelMode == 0 then EINVAL
    else if cap.blockLength & config.blockLength == 0 then EINVAL
    else if cap.allocationMethod & config.allocationMethod == 0 then EINVAL
    else if config.maxBitpool < cap.minBitpool then EINVAL
    else if config.minBitpool > cap.maxBitpool then EINVAL
    else if config.maxBitpool > cap.maxBitpool then ERANGE
    else if config.minBitpool < cap.minBitpool then ERANGE
    else 0
  }

  function AacCheckConfig(cap: Config, config: Config): int {
    if !cap.Aac? || !config.Aac? then EINVAL
    else if cap.objectType & config.objectType == 0 then EINVAL
    else if cap.aacFrequency & config.aacFrequency == 0 then EINVAL
    else if cap.channels & config.channels == 0 then EINVAL
    else if !cap.vbr && config.vbr then EINVAL
    else if GetBitrate(cap.bitrate) < GetBitrate(config.bitrate) then ERANGE
    else 0
  }

  function AptxCheckConfig(cap: Config, config: Config): int {
    if !cap.Aptx? || !config.Aptx? then EINVAL
    else if cap.aptxFrequency & config.aptxFrequency == 0 then EINVAL
    else if cap.aptxChannelMode & config.aptxChannelMode == 0 then EINVAL
    else 0
  }

  function CheckCapabilities(preset: Config, codec: Codec): int {
    match codec.kind
    case SBC => SbcCheckConfig(codec.caps, preset)
    case MPEG24 => AacCheckConfig(codec.caps, preset)
    case VENDOR => if codec.caps.Aptx? && codec.caps.aptx then AptxCheckConfig(codec.caps, preset) else EINVAL
    case UNKNOWN => EINVAL
  }

  // ---------------------------------------------------------------- what the answers mean

  /** The bitpool values, or the bitrates, a configuration allows. */
  predicate Allows(c: Config, value: int) {
    match c
    case Sbc(_, _, _, _, _, min, max) => min <= value <= max
    case Aac(_, _, _, _, bitrate) => 0 <= value <= GetBitrate(bitrate)
    case _ => true
  }

  predicate NonEmpty(c: Config) {
    c.Sbc? ==> c.minBitpool <= c.maxBitpool
  }

  lemma NonEmptyAllows(c: Config)
    ensures NonEmpty(c) <==> exists v :: Allows(c, v)
  {
    if c.Sbc? && NonEmpty(c) {
      assert Allows(c, c.minBitpool);
    } else {
      assert !c.Sbc? ==> Allows(c, 0);
    }
  }

  /** Everything but the interval: same format, a common bit in every field of alternatives. */
  predicate Compatible(cap: Config, config: Config) {
    || (cap.Sbc? && config.Sbc? && cap.frequency & config.frequency != 0 && cap.channelMode & config.channelMode != 0
        && cap.blockLength & config.blockLength != 0 && cap.allocationMethod & config.allocationMethod != 0)
    || (cap.Aac? && config.Aac? && cap.objectType & config.objectType != 0
        && cap.aacFrequency & config.aacFrequency != 0 && cap.channels & config.channels != 0
        && (config.vbr ==> cap.vbr))
    || (cap.Aptx? && config.Aptx? && cap.aptx && cap.aptxFrequency & config.aptxFrequency != 0
        && cap.aptxChannelMode & config.aptxChannelMode != 0)
  }

  predicate Matches(codec: Codec) {
    match codec.kind
    case SBC => codec.caps.Sbc?
    case MPEG24 => codec.caps.Aac?
    case VENDOR => codec.caps.Aptx?
    case UNKNOWN => false
  }

  /** A compatible preset is accepted as it is exactly when the remote allows all it allows, and asks to be narrowed
      exactly when the two have some value in common but not that. Anything else is invalid. */
  lemma CheckMeaning(preset: Config, codec: Codec)
    requires NonEmpty(preset) && NonEmpty(codec.caps)
    ensures var err := CheckCapabilities(preset, codec);
            var fits := Matches(codec) && Compatible(codec.caps, preset);
            && (err == 0 <==> fits && forall v :: Allows(preset, v) ==> Allows(codec.caps, v))
            && (err == ERANGE <==> fits && (exists v :: Allows(preset, v) && Allows(codec.caps, v))
                                   && exists v :: Allows(preset, v) && !Allows(codec.caps, v))
            && err in {0, EINVAL, ERANGE}
  {
    var caps := codec.caps;
    if preset.Sbc? && caps.Sbc? {
      var low := Max(preset.minBitpool, caps.minBitpool);
      assert Allows(preset, preset.minBitpool) && Allows(preset, preset.maxBitpool);
      assert low <= Min(preset.maxBitpool, caps.maxBitpool) ==> Allows(preset, low) && Allows(caps, low);
    } else if preset.Aac? && caps.Aac? {
      assert Allows(preset, 0) && Allows(caps, 0);
      assert Allows(preset, GetBitrate(preset.bitrate));
    } else {
      assert Compatible(caps, preset) ==> Allows(preset, 0) && Allows(caps, 0);
    }
  }

  /** sbc_select_range and aac_select_range */
  function Narrowed(preset: Config, caps: Config): Config {
    if preset.Sbc? && caps.Sbc? then
      preset.(minBitpool := Max(preset.minBitpool, caps.minBitpool),
              maxBitpool := Min(preset.maxBitpool, caps.maxBitpool))
    else if preset.Aac? && caps.Aac? then
      preset.(bitrate := SetBitrate(Min(GetBitrate(caps.bitrate), GetBitrate(preset.bitrate))))
    else
      preset
  }

  predicate SameButRange(a: Config, b: Config) {
    if a.Sbc? && b.Sbc? then a.(minBitpool := 0, maxBitpool := 0) == b.(minBitpool := 0, maxBitpool := 0)
    else if a.Aac? && b.Aac? then a.(bitrate := b.bitrate) == b
    else a == b
  }

  /** A narrowed preset allows exactly what both sides allow, and differs in nothing else. */
  lemma NarrowedIsCommon(preset: Config, caps: Config)
    requires (preset.Sbc? && caps.Sbc?) || (preset.Aac? && caps.Aac?)
    ensures forall v :: Allows(Narrowed(preset, caps), v) <==> Allows(preset, v) && Allows(caps, v)
    ensures SameButRange(Narrowed(preset, caps), preset)
  {
    if preset.Aac? {
      BitrateBound(caps.bitrate);
      BitrateBound(preset.bitrate);
      BitrateReadsBack(Min(GetBitrate(caps.bitrate), GetBitrate(preset.bitrate)));
    }
  }

  /** A preset that was out of range is accepted by the same checker once it is narrowed, and still allows something,
      exactly when the remote's own interval is not empty. */
  lemma NarrowedPasses(preset: Config, codec: Codec)
    requires NonEmpty(preset) && CheckCapabilities(preset, codec) == ERANGE
    ensures var next := Narrowed(preset, codec.caps);
            && (NonEmpty(next) <==> NonEmpty(codec.caps))
            && (CheckCapabilities(next, codec) == 0 <==> NonEmpty(codec.caps))
  {
    if preset.Aac? && codec.caps.Aac? {
      BitrateBound(codec.caps.bitrate);
      BitrateBound(preset.bitrate);
      BitrateReadsBack(Min(GetBitrate(codec.caps.bitrate), GetBitrate(preset.bitrate)));
    }
  }

  /** A stored preset and the one it started as. */
  ghost predicate Inside(now: Config, was: Config) {
    SameButRange(now, was) && NonEmpty(now) && forall v :: Allows(now, v) ==> Allows(was, v)
  }

  lemma NarrowedInside(preset: Config, codec: Codec, was: Config)
    requires Inside(preset, was) && NonEmpty(codec.caps) && CheckCapabilities(preset, codec) == ERANGE
    ensures Inside(Narrowed(preset, codec.caps), was)
  {
    NarrowedPasses(preset, codec);
    NarrowedIsCommon(preset, codec.caps);
  }

  /** A remote does not turn a preset away exactly when the formats are compatible and some value suits both. */
  lemma NotInvalid(preset: Config, codec: Codec)
    requires NonEmpty(preset) && NonEmpty(codec.caps)
    ensures CheckCapabilities(preset, codec) != EINVAL <==>
              Matches(codec) && Compatible(codec.caps, preset)
              && exists v :: Allows(preset, v) && Allows(codec.caps, v)
  {
    CheckMeaning(preset, codec);
    NonEmptyAllows(preset);
  }

  lemma SameCompatible(a: Config, b: Config, caps: Config)
    requires SameButRange(a, b)
    ensures Compatible(caps, a) <==> Compatible(caps, b)
  {
  }

  /** The remotes that the `j`-th preset has served, in order. */
  ghost function Served(codecs: seq<Codec>, server: seq<nat>, j: nat): seq<Codec>
    requires |server| == |codecs|
  {
    if codecs == [] then []
    else
      var n := |codecs| - 1;
      Served(codecs[..n], server[..n], j) + if server[n] == j then [codecs[n]] else []
  }

  lemma ServedNext(codecs: seq<Codec>, server: seq<nat>, codec: Codec, i: nat, j: nat)
    requires |server| == |codecs|
    ensures Served(codecs + [codec], server + [i], j)
         == if i == j then Served(codecs, server, j) + [codec] else Served(codecs, server, j)
  {
    assert Served(codecs, server, j) + [] == Served(codecs, server, j);
    assert (codecs + [codec])[..|codecs|] == codecs && (server + [i])[..|codecs|] == server;
  }

  /** Every remote of the list allows the value. */
  ghost predicate AllAllow(codecs: seq<Codec>, v: int) {
    forall i :: 0 <= i < |codecs| ==> Allows(codecs[i].caps, v)
  }

  /** `now` is the preset `was` after it has been narrowed for the remotes `served`. */
  ghost predicate NarrowedFor(now: Config, was: Config, served: seq<Codec>) {
    SameButRange(now, was) && NonEmpty(now) && forall v :: Allows(now, v) <==> Allows(was, v) && AllAllow(served, v)
  }

  /** Narrowing sticks: after the remotes `served`, one more is not turned away exactly when the formats are compatible
      and some value suits it, the preset as it was, and every remote served before. */
  lemma LaterRemote(now: Config, was: Config, served: seq<Codec>, next: Codec)
    requires NarrowedFor(now, was, served) && NonEmpty(next.caps)
    ensures CheckCapabilities(now, next) != EINVAL <==>
              Matches(next) && Compatible(next.caps, was)
              && exists v :: Allows(was, v) && AllAllow(served, v) && Allows(next.caps, v)
  {
    NotInvalid(now, next);
    SameCompatible(now, was, next.caps);
    if v :| Allows(was, v) && AllAllow(served, v) && Allows(next.caps, v) {
      assert Allows(now, v);
    }
    if v :| Allows(now, v) && Allows(next.caps, v) {
      assert Allows(was, v) && AllAllow(served, v);
    }
  }

  /** The step from one remote to the next. */
  lemma NarrowedForNext(now: Config, was: Config, served: seq<Codec>, codec: Codec, next: Config)
    requires NarrowedFor(now, was, served) && SameButRange(next, now) && NonEmpty(next)
    requires forall v :: Allows(next, v) <==> Allows(now, v) && Allows(codec.caps, v)
    ensures NarrowedFor(next, was, served + [codec])
  {
    forall v ensures AllAllow(served + [codec], v) <==> AllAllow(served, v) && Allows(codec.caps, v) {
      var all := served + [codec];
      assert all[|served|] == codec && forall i :: 0 <= i < |served| ==> all[i] == served[i];
    }
  }

  /** For one remote before: the second is not turned away exactly when some value suits all three. */
  lemma NarrowingSticks(preset: Config, first: Codec, second: Codec)
    requires NonEmpty(preset) && NonEmpty(first.caps) && NonEmpty(second.caps)
    requires CheckCapabilities(preset, first) == ERANGE
    ensures CheckCapabilities(Narrowed(preset, first.caps), second) != EINVAL <==>
              Matches(second) && Compatible(second.caps, preset)
              && exists v :: Allows(preset, v) && Allows(first.caps, v) && Allows(second.caps, v)
  {
    var now := Narrowed(preset, first.caps);
    NarrowedIsCommon(preset, first.caps);
    NarrowedPasses(preset, first);
    NotInvalid(now, second);
    SameCompatible(now, preset, second.caps);
    if v :| Allows(preset, v) && Allows(first.caps, v) && Allows(second.caps, v) {
      assert Allows(now, v);
    }
    if v :| Allows(now, v) && Allows(second.caps, v) {
      assert Allows(preset, v) && Allows(first.caps, v);
    }
  }

  /** So a preset for bitpools 2 to 53, narrowed for a remote that allows 2 to 10, is useless for one that allows 20
      to 53, which it would have suited. */
  lemma NarrowedTooFar()
    ensures var preset := Sbc(2, 1, 1, 1, 1, 2, 53);
            var low := Codec(SBC, preset.(maxBitpool := 10));
            var high := Codec(SBC, preset.(minBitpool := 20));
            && CheckCapabilities(preset, low) == ERANGE && CheckCapabilities(preset, high) == ERANGE
            && CheckCapabilities(Narrowed(preset, low.caps), high) == EINVAL
  {
    var preset := Sbc(2, 1, 1, 1, 1, 2, 53);
    assert preset.frequency & preset.frequency != 0;
  }

  // ---------------------------------------------------------------- the endpoint

  /** struct a2dp_endpoint: its presets are changed in place. */
  class Endpoint {
    var presets: seq<Config>
    /** The presets as they were registered. */
    ghost const originals: seq<Config>

    ghost predicate Valid()
      reads this
    {
      |presets| == |originals| && forall i :: 0 <= i < |presets| ==> Inside(presets[i], originals[i])
    }

    constructor (presets: seq<Config>)
      requires forall i :: 0 <= i < |presets| ==> NonEmpty(presets[i])
      ensures Valid() && this.presets == presets && originals == presets
    {
      this.presets, originals := presets, presets;
    }

    /** select_preset_range for the `i`-th preset: SBC and AAC narrow the stored preset and hand out a copy. */
    method SelectPresetRange(i: nat, codec: Codec) returns (chosen: Option<Config>)
      requires i < |presets|
      modifies this
      ensures codec.kind in {SBC, MPEG24} ==>
                presets == old(presets)[i := Narrowed(old(presets[i]), codec.caps)] && chosen == Some(presets[i])
      ensures codec.kind !in {SBC, MPEG24} ==> presets == old(presets) && chosen == None
    {
      match codec.kind
      case SBC | MPEG24 =>
        presets := presets[i := Narrowed(presets[i], codec.caps)];
        return Some(presets[i]);
      case VENDOR | UNKNOWN =>
        return None;
    }

    /** select_preset: the first preset that is not invalid for the remote, narrowed if it is out of range. Everything
        before it was invalid, no other preset changes, and the chosen preset passes and is not empty exactly when the
        remote's own interval is not empty. */
    method SelectPreset(codec: Codec) returns (chosen: Option<Config>, ghost i: nat)
      requires Valid()
      modifies this
      ensures |presets| == |old(presets)| && (Valid() <==> chosen.None? || NonEmpty(codec.caps))
      ensures i <= |presets| && forall k :: 0 <= k < i ==> CheckCapabilities(old(presets)[k], codec) == EINVAL
      ensures chosen.None? <==> i == |presets|
      ensures chosen.None? ==> presets == old(presets)
      ensures chosen.Some? ==>
                && CheckCapabilities(old(presets)[i], codec) != EINVAL
                && (CheckCapabilities(chosen.value, codec) == 0 <==> NonEmpty(codec.caps))
                && (NonEmpty(chosen.value) <==> NonEmpty(codec.caps))
                && SameButRange(chosen.value, old(presets)[i])
                && (forall v :: Allows(chosen.value, v) <==> Allows(old(presets)[i], v) && Allows(codec.caps, v))
                && presets == old(presets)[i := chosen.value]
    {
      var k := 0;
      while k < |presets|
        invariant k <= |presets| && presets == old(presets)
        invariant forall j :: 0 <= j < k ==> CheckCapabilities(presets[j], codec) == EINVAL
      {
        var err := CheckCapabilities(presets[k], codec);
        if err == 0 {
          assert NonEmpty(codec.caps);
          CheckMeaning(presets[k], codec);
          return Some(presets[k]), k;
        }
        if err == ERANGE {
          if NonEmpty(codec.caps) {
            NarrowedInside(presets[k], codec, originals[k]);
          }
          NarrowedPasses(presets[k], codec);
          NarrowedIsCommon(presets[k], codec.caps);
          chosen := SelectPresetRange(k, codec);
          return chosen, k;
        }
        k := k + 1;
      }
      return None, k;
    }

    /** Any sequence of remote devices: `server[i]` is the preset the `i`-th is served by, past the end if
        none. Every choice passes, and each preset allows what it allowed before and all the remotes allow that it
        has served. */
    method Serve(codecs: seq<Codec>) returns (chosen: seq<Option<Config>>, ghost server: seq<nat>)
      requires Valid() && forall i :: 0 <= i < |codecs| ==> NonEmpty(codecs[i].caps)
      modifies this
      ensures Valid() && |chosen| == |server| == |codecs| && |presets| == |old(presets)|
      ensures forall i :: 0 <= i < |codecs| && chosen[i].Some? ==> CheckCapabilities(chosen[i].value, codecs[i]) == 0
      ensures forall i :: 0 <= i < |codecs| ==> (chosen[i].Some? <==> server[i] < |presets|)
      ensures forall j :: 0 <= j < |presets| ==> NarrowedFor(presets[j], old(presets)[j], Served(codecs, server, j))
    {
      chosen, server := [], [];
      ghost var was := presets;
      for k := 0 to |codecs|
        invariant Valid() && |chosen| == |server| == k && |presets| == |was|
        invariant forall i :: 0 <= i < k && chosen[i].Some? ==> CheckCapabilities(chosen[i].value, codecs[i]) == 0
        invariant forall i :: 0 <= i < k ==> (chosen[i].Some? <==> server[i] < |presets|)
        invariant forall j :: 0 <= j < |presets| ==> NarrowedFor(presets[j], was[j], Served(codecs[..k], server, j))
      {
        ghost var now := presets;
        var c, i := SelectPreset(codecs[k]);
        assert codecs[..k + 1] == codecs[..k] + [codecs[k]];
        if c.Some? {
          NarrowedForNext(now[i], was[i], Served(codecs[..k], server, i), codecs[k], c.value);
        }
        forall j | 0 <= j < |presets|
          ensures NarrowedFor(presets[j], was[j], Served(codecs[..k + 1], server + [i], j))
        {
          ServedNext(codecs[..k], server, codecs[k], i, j);
          assert j != i || c.None? ==> presets[j] == now[j];
          assert NarrowedFor(now[j], was[j], Served(codecs[..k], server, j));
        }
        chosen, server := chosen + [c], server + [i];
      }
      assert codecs[..|codecs|] == codecs;
    }
  }
}
