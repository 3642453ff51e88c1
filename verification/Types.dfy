/** Session types and audio configurations of the wireless HAL, with their validators. */
module Types {
  import opened Words

  datatype SessionType =
    | LeUnicastSoftwareEncoding
    | LeUnicastSoftwareDecoding
    | LeUnicastHardwareEncoding
    | LeUnicastHardwareDecoding
    | LeBroadcastSoftwareEncoding
    | LeBroadcastHardwareEncoding
  {
    predicate IsOffloaded() {
      LeUnicastHardwareEncoding? || LeUnicastHardwareDecoding? || LeBroadcastHardwareEncoding?
    }

    predicate IsBroadcast() {
      LeBroadcastSoftwareEncoding? || LeBroadcastHardwareEncoding?
    }

    predicate CarriesHostPayload() {
      !IsOffloaded()
    }
  }

  predicate SupportedRate(hz: u32) {
    hz in {8_000, 16_000, 24_000, 32_000, 44_100, 48_000}
  }

  // ---------------------------------------------------------------------------
  // PCM
  // ---------------------------------------------------------------------------

  datatype PcmConfiguration = PcmConfiguration(sampleRateHz: u32, bitsPerSample: u8, channels: u8, dataIntervalUs: u32)
  {
    predicate Valid() {
      SupportedRate(sampleRateHz) && bitsPerSample in {16, 24, 32} && 1 <= channels <= 8 && dataIntervalUs > 0
    }

    function BytesPerInterval(): (r: Option<nat>) {
      if !Valid() then None
      else
        var frames := sampleRateHz * dataIntervalUs;
        if frames >= WORD then None
        else if frames % 1_000_000 != 0 then None
        else Some(frames / 1_000_000 * channels * (bitsPerSample / 8))
    }
  }

  /** The interval arithmetic is exact, positive, and never meets its overflow branch. */
  lemma IntervalIsExact(c: PcmConfiguration)
    ensures c.BytesPerInterval().Some? <==> c.Valid() && (c.sampleRateHz * c.dataIntervalUs) % 1_000_000 == 0
    ensures c.BytesPerInterval().Some? ==>
              var b := c.BytesPerInterval().value;
              0 < b < WORD && b * 8_000_000 == c.sampleRateHz * c.dataIntervalUs * c.channels * c.bitsPerSample
  {
    if c.Valid() {
      var frames := c.sampleRateHz * c.dataIntervalUs;
      MulMono(c.sampleRateHz, 48_000, c.dataIntervalUs);
      assert 0 < frames < WORD;
      if frames % 1_000_000 == 0 {
        var units := frames / 1_000_000;
        assert 0 < units < WORD / 1_000;
        Scale(units, c.channels, c.bitsPerSample);
        assert frames == 1_000_000 * units;
      }
    }
  }

  lemma Scale(units: nat, channels: u8, bits: u8)
    requires 0 < units && 1 <= channels <= 8 && bits in {16, 24, 32}
    ensures units <= units * channels * (bits / 8) <= 32 * units
    ensures units * channels * (bits / 8) * 8_000_000 == (1_000_000 * units) * channels * bits
  {
    var n := units * channels;
    MulMono(1, channels, units);
    MulMono(channels, 8, units);
    assert n * (bits / 8) * 8_000_000 == (1_000_000 * n) * bits;
    assert (1_000_000 * units) * channels == 1_000_000 * n;
  }

  /** The ring is sized with `bytes as u32`. The cut loses nothing exactly when this product is small enough. */
  lemma RingSizeIsLosslessIff(c: PcmConfiguration)
    requires c.BytesPerInterval().Some?
    ensures var b := c.BytesPerInterval().value;
            b % U32_LIMIT == b <==>
              c.sampleRateHz * c.dataIntervalUs * c.channels * c.bitsPerSample < U32_LIMIT * 8_000_000
  {
    IntervalIsExact(c);
  }

  /** In particular for any accepted interval up to 2 796 202 666 us. */
  lemma RingSizeIsLossless(c: PcmConfiguration)
    requires c.BytesPerInterval().Some? && c.dataIntervalUs <= 2_796_202_666
    ensures c.BytesPerInterval().value < U32_LIMIT
  {
    MulMono(c.sampleRateHz, 48_000, c.dataIntervalUs);
    var frames := c.sampleRateHz * c.dataIntervalUs;
    assert frames <= 48_000 * 2_796_202_666;
    MulMono(1, c.dataIntervalUs, c.sampleRateHz);
    Scale(frames / 1_000_000, c.channels, c.bitsPerSample);
  }

  /** Past that, an accepted interval of more than four gigabytes can get a ring with 128-byte payloads. */
  lemma RingSizeCanTruncate()
    ensures var c := PcmConfiguration(48_000, 32, 8, 2_796_202_750);
            c.BytesPerInterval() == Some(U32_LIMIT + 128) && c.BytesPerInterval().value % U32_LIMIT == 128
  {
  }

  // ---------------------------------------------------------------------------
  // LC3, ASEs and unicast configurations
  // ---------------------------------------------------------------------------

  datatype Lc3Configuration = Lc3Configuration(
    samplingFrequencyHz: u32,
    frameDurationUs: u16,
    octetsPerCodecFrame: u16,
    codecFramesPerSdu: u8,
    audioChannelAllocation: u32)
  {
    predicate Valid() {
      && SupportedRate(samplingFrequencyHz) && frameDurationUs in {7_500, 10_000}
      && octetsPerCodecFrame > 0 && codecFramesPerSdu > 0
    }
  }

  datatype StreamDirection = Sink | Source

  datatype AudioContext =
    Unspecified | Conversational | Media | Game | Live | SoundEffects | Notifications | EmergencyAlarm

  datatype Framing = Unframed | Framed

  datatype Phy = Le1M | Le2M | LeCoded

  datatype Packing = Sequential | Interleaved

  datatype IsoQos = IsoQos(
    sduIntervalUs: u32,
    framing: Framing,
    phys: seq<Phy>,
    maxSdu: u16,
    retransmissionNumber: u8,
    maxTransportLatencyMs: u16,
    presentationDelayMinUs: u32,
    presentationDelayMaxUs: u32)
  {
    predicate Valid() {
      sduIntervalUs > 0 && phys != [] && maxSdu > 0 && presentationDelayMinUs <= presentationDelayMaxUs
    }
  }

  datatype DataPathConfiguration = DataPathConfiguration(
    dataPathId: u8,
    transparent: bool,
    controllerDelayUs: u32,
    codecConfiguration: seq<u8>,
    vendorConfiguration: seq<u8>)

  datatype AseConfiguration = AseConfiguration(
    aseId: u8,
    direction: StreamDirection,
    cisHandle: Option<u16>,
    lc3: Lc3Configuration,
    qos: IsoQos,
    dataPath: DataPathConfiguration)
  {
    predicate Valid() {
      && aseId != 0 && lc3.Valid() && qos.Valid()
      && lc3.octetsPerCodecFrame * lc3.codecFramesPerSdu <= qos.maxSdu
      && (dataPath.transparent ==> dataPath.codecConfiguration == [])
    }
  }

  datatype LeAudioConfiguration = LeAudioConfiguration(
    groupId: int,
    context: AudioContext,
    packing: Packing,
    pcm: PcmConfiguration,
    ases: seq<AseConfiguration>)
  {
    predicate Valid() {
      groupId >= 0 && pcm.Valid() && ases != [] && forall a | a in ases :: a.Valid()
    }
  }

  // ---------------------------------------------------------------------------
  // Broadcast configurations
  // ---------------------------------------------------------------------------

  datatype BisConfiguration = BisConfiguration(
    bisIndex: u8,
    streamHandle: Option<u16>,
    lc3: Lc3Configuration,
    dataPath: DataPathConfiguration)

  datatype BroadcastSubgroup = BroadcastSubgroup(codec: Lc3Configuration, metadata: seq<u8>, bis: seq<BisConfiguration>)
  {
    predicate Valid() {
      codec.Valid() && bis != [] && forall b | b in bis :: 1 <= b.bisIndex <= 31 && b.lc3 == codec
    }
  }

  datatype BroadcastConfiguration = BroadcastConfiguration(
    broadcastId: u32,
    encrypted: bool,
    presentationDelayUs: u32,
    pcm: PcmConfiguration,
    subgroups: seq<BroadcastSubgroup>)
  {
    /** What an acceptable broadcast is, without reference to how it is scanned. */
    predicate Valid() {
      && broadcastId <= 0x00ff_ffff && presentationDelayUs > 0 && pcm.Valid() && subgroups != []
      && (forall g | g in subgroups :: g.Valid())
      && Distinct(AllIndices(subgroups))
    }
  }

  predicate Distinct(s: seq<u8>) {
    forall i, j | 0 <= i < j < |s| :: s[i] != s[j]
  }

  function Indices(bis: seq<BisConfiguration>): (s: seq<u8>)
    ensures |s| == |bis| && forall i | 0 <= i < |bis| :: s[i] == bis[i].bisIndex
  {
    seq(|bis|, i requires 0 <= i < |bis| => bis[i].bisIndex)
  }

  /** The BIS indices of all subgroups, in the order they are met. */
  function AllIndices(groups: seq<BroadcastSubgroup>): (s: seq<u8>) {
    if groups == [] then [] else AllIndices(groups[..|groups| - 1]) + Indices(groups[|groups| - 1].bis)
  }

  lemma {:induction false} PrefixOfIndices(groups: seq<BroadcastSubgroup>, n: nat)
    requires n <= |groups|
    ensures AllIndices(groups[..n]) <= AllIndices(groups)
  {
    if n < |groups| {
      var init := groups[..|groups| - 1];
      PrefixOfIndices(init, n);
      assert init[..n] == groups[..n];
    } else {
      assert groups[..n] == groups;
    }
  }

  lemma DistinctPrefix(s: seq<u8>, t: seq<u8>)
    requires s <= t && Distinct(t)
    ensures Distinct(s)
  {
  }

  /** The table agrees with the indices met so far. */
  predicate Records(seen: seq<bool>, met: seq<u8>) {
    |seen| == 32 && forall x | 0 <= x < 32 :: seen[x] <==> x in met
  }

  /** The inner loop: scan one subgroup against the table of indices already used. */
  method ScanSubgroup(g: BroadcastSubgroup, seen: array<bool>, ghost met: seq<u8>) returns (ok: bool)
    requires Records(seen[..], met) && Distinct(met) && g.codec.Valid() && g.bis != []
    modifies seen
    ensures ok <==> g.Valid() && Distinct(met + Indices(g.bis))
    ensures ok ==> Records(seen[..], met + Indices(g.bis))
  {
    ghost var all := met + Indices(g.bis);
    var i := 0;
    while i < |g.bis|
      invariant 0 <= i <= |g.bis|
      invariant forall k | 0 <= k < i :: 1 <= g.bis[k].bisIndex <= 31 && g.bis[k].lc3 == g.codec
      invariant Records(seen[..], all[..|met| + i]) && Distinct(all[..|met| + i])
    {
      var bis := g.bis[i];
      ghost var at := |met| + i;
      assert all[at] == bis.bisIndex && all[..at + 1] == all[..at] + [bis.bisIndex];
      if !(1 <= bis.bisIndex <= 31) {
        return false;
      }
      if seen[bis.bisIndex] {
        assert bis.bisIndex in all[..at];
        return false;
      }
      seen[bis.bisIndex] := true;
      if !bis.lc3.Valid() || bis.lc3 != g.codec {
        return false;
      }
      i := i + 1;
    }
    assert all[..|met| + i] == all;
    return true;
  }

  /** The scan with its table of used indices accepts exactly the valid broadcasts. */
  method ValidateBroadcast(b: BroadcastConfiguration) returns (ok: bool)
    ensures ok <==> b.Valid()
  {
    if b.broadcastId > 0x00ff_ffff || b.presentationDelayUs == 0 || !b.pcm.Valid() || b.subgroups == [] {
      return false;
    }
    var seen := new bool[32](_ => false);
    var i := 0;
    while i < |b.subgroups|
      invariant 0 <= i <= |b.subgroups| && fresh(seen)
      invariant forall k | 0 <= k < i :: b.subgroups[k].Valid()
      invariant Records(seen[..], AllIndices(b.subgroups[..i])) && Distinct(AllIndices(b.subgroups[..i]))
    {
      var g := b.subgroups[i];
      assert g in b.subgroups;
      if !g.codec.Valid() || g.bis == [] {
        return false;
      }
      ghost var met := AllIndices(b.subgroups[..i]);
      assert b.subgroups[..i + 1][..i] == b.subgroups[..i];
      assert AllIndices(b.subgroups[..i + 1]) == met + Indices(g.bis);
      PrefixOfIndices(b.subgroups, i + 1);
      var fits := ScanSubgroup(g, seen, met);
      if !fits {
        if Distinct(AllIndices(b.subgroups)) {
          DistinctPrefix(met + Indices(g.bis), AllIndices(b.subgroups));
        }
        return false;
      }
      i := i + 1;
    }
    assert b.subgroups[..i] == b.subgroups;
    return true;
  }

  // ---------------------------------------------------------------------------
  // Pigeonhole
  // ---------------------------------------------------------------------------

  lemma {:induction false} DistinctCount(s: seq<u8>, top: nat)
    requires Distinct(s) && forall i | 0 <= i < |s| :: 1 <= s[i] <= top
    ensures |s| <= top
    decreases top
  {
    if s == [] {
    } else if k :| 0 <= k < |s| && s[k] == top {
      var rest := s[..k] + s[k + 1..];
      forall i | 0 <= i < |rest|
        ensures 1 <= rest[i] <= top - 1
      {
      }
      DistinctCount(rest, top - 1);
    } else {
      assert 1 <= s[0] <= top;
      DistinctCount(s, top - 1);
    }
  }

  lemma {:induction false} IndicesInRange(groups: seq<BroadcastSubgroup>)
    requires forall g | g in groups :: g.Valid()
    ensures |groups| <= |AllIndices(groups)|
    ensures forall i | 0 <= i < |AllIndices(groups)| :: 1 <= AllIndices(groups)[i] <= 31
  {
    if groups != [] {
      IndicesInRange(groups[..|groups| - 1]);
      var last := groups[|groups| - 1];
      assert last in groups;
    }
  }

  /** An accepted broadcast has pairwise distinct BIS indices, so at most 31 of them in at most 31 subgroups. */
  lemma BroadcastIsSmall(b: BroadcastConfiguration)
    requires b.Valid()
    ensures Distinct(AllIndices(b.subgroups))
    ensures 1 <= |b.subgroups| <= |AllIndices(b.subgroups)| <= 31
  {
    IndicesInRange(b.subgroups);
    DistinctCount(AllIndices(b.subgroups), 31);
  }

  // ---------------------------------------------------------------------------
  // Configurations by session type
  // ---------------------------------------------------------------------------

  datatype AudioConfiguration =
    | Pcm(pcm: PcmConfiguration)
    | LeAudio(le: LeAudioConfiguration)
    | LeBroadcast(broadcast: BroadcastConfiguration)
  {
    predicate ValidFor(t: SessionType) {
      match this
      case Pcm(c) => c.Valid() && !t.IsOffloaded()
      case LeAudio(c) => !t.IsBroadcast() && c.Valid()
      case LeBroadcast(c) => t.IsBroadcast() && c.Valid()
    }
  }

  predicate PcmFields(c: PcmConfiguration) {
    && (c.sampleRateHz == 8_000 || c.sampleRateHz == 16_000 || c.sampleRateHz == 24_000
        || c.sampleRateHz == 32_000 || c.sampleRateHz == 44_100 || c.sampleRateHz == 48_000)
    && (c.bitsPerSample == 16 || c.bitsPerSample == 24 || c.bitsPerSample == 32)
    && c.channels != 0 && c.channels <= 8 && c.dataIntervalUs != 0
  }

  predicate Lc3Fields(c: Lc3Configuration) {
    && (c.samplingFrequencyHz == 8_000 || c.samplingFrequencyHz == 16_000 || c.samplingFrequencyHz == 24_000
        || c.samplingFrequencyHz == 32_000 || c.samplingFrequencyHz == 44_100 || c.samplingFrequencyHz == 48_000)
    && (c.frameDurationUs == 7_500 || c.frameDurationUs == 10_000)
    && c.octetsPerCodecFrame != 0 && c.codecFramesPerSdu != 0
  }

  predicate AseFields(a: AseConfiguration) {
    && a.aseId != 0 && Lc3Fields(a.lc3)
    && a.qos.sduIntervalUs != 0 && |a.qos.phys| > 0 && a.qos.maxSdu != 0
    && a.qos.presentationDelayMinUs <= a.qos.presentationDelayMaxUs
    && a.lc3.octetsPerCodecFrame * a.lc3.codecFramesPerSdu <= a.qos.maxSdu
    && (|a.dataPath.codecConfiguration| > 0 ==> !a.dataPath.transparent)
  }

  /** What a software session of either direction accepts as plain PCM: any valid format, whatever the transport. */
  lemma PcmAcceptedIff(t: SessionType, c: PcmConfiguration)
    ensures Pcm(c).ValidFor(t) <==>
            PcmFields(c) && (t == LeUnicastSoftwareEncoding || t == LeUnicastSoftwareDecoding
                             || t == LeBroadcastSoftwareEncoding)
  {
  }

  lemma AseValidIff(a: AseConfiguration)
    ensures AseFields(a) <==> a.Valid()
  {
  }

  /** Unicast configurations go to unicast sessions, software or offloaded. */
  lemma LeAudioAcceptedIff(t: SessionType, c: LeAudioConfiguration)
    ensures LeAudio(c).ValidFor(t) <==>
            && c.groupId >= 0 && PcmFields(c.pcm) && |c.ases| > 0
            && (forall i | 0 <= i < |c.ases| :: AseFields(c.ases[i]))
            && t != LeBroadcastSoftwareEncoding && t != LeBroadcastHardwareEncoding
  {
    forall i | 0 <= i < |c.ases|
      ensures AseFields(c.ases[i]) <==> c.ases[i].Valid()
    {
      AseValidIff(c.ases[i]);
    }
  }

  /** Broadcast configurations go to broadcast sessions, software or offloaded. */
  lemma BroadcastAcceptedIff(t: SessionType, c: BroadcastConfiguration)
    ensures LeBroadcast(c).ValidFor(t) <==>
            && c.broadcastId < 0x0100_0000 && c.presentationDelayUs != 0 && PcmFields(c.pcm) && |c.subgroups| > 0
            && (forall i | 0 <= i < |c.subgroups| :: SubgroupFields(c.subgroups[i]))
            && Distinct(AllIndices(c.subgroups))
            && (t == LeBroadcastSoftwareEncoding || t == LeBroadcastHardwareEncoding)
  {
    forall i | 0 <= i < |c.subgroups|
      ensures SubgroupFields(c.subgroups[i]) <==> c.subgroups[i].Valid()
    {
      SubgroupValidIff(c.subgroups[i]);
    }
  }

  predicate SubgroupFields(g: BroadcastSubgroup) {
    && Lc3Fields(g.codec) && |g.bis| > 0
    && forall i | 0 <= i < |g.bis| :: 0 < g.bis[i].bisIndex < 32 && g.bis[i].lc3 == g.codec
  }

  lemma SubgroupValidIff(g: BroadcastSubgroup)
    ensures SubgroupFields(g) <==> g.Valid()
  {
  }

  datatype PresentationPosition = PresentationPosition(remoteDelayNs: u64, transmittedOctets: u64, monotonicTimeNs: u64)

  const START_POSITION := PresentationPosition(0, 0, 0)
}
