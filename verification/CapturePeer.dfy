/** The capture loop of the LE Audio smoke test: one thread that publishes into a ring and reads its own frames back. */
module CapturePeer {
  import opened Words
  import opened Frames
  import opened RingLayout
  import opened RingMemory
  import opened Types

  datatype Outcome =
    | Captured
    | BadConfiguration    // no whole number of bytes per interval
    | CreateFailed
    | SliceOutOfRange     // panic: the interval does not fit the slot it was truncated to
    | Overrun
    | ShortRead
    | CommitFailed        // a hard eventfd error
    | NotVisible          // the frame just published could not be acquired

  const CAPTURE_SLOTS: u32 := 8

  /** Fill, stamp and publish one interval. */
  method PublishInterval(ring: SharedRing, lease: u64, descriptor: FrameDescriptor, chunk: seq<u8>, signalOk: bool)
    returns (ok: bool)
    requires ring.Valid() && ring.Contents() == [] && ring.Unwrapped() && lease == ring.head
    requires |chunk| <= ring.header.payloadCapacity
    modifies ring`head, ring`event, ring.mem
    ensures ring.Valid() && ok == signalOk
    ensures ring.Contents() == [RawFrame(StampedBytes(descriptor, |chunk|), chunk)]
  {
    ring.Fill(lease, chunk);
    var c := ring.Commit(lease, descriptor, |chunk|, signalOk);
    return c.Committed?;
  }

  /** Lease the only frame, copy its payload out and give it back. */
  method TakeInterval(ring: SharedRing) returns (visible: bool, read: seq<u8>)
    requires ring.Valid() && |ring.Contents()| == 1
    modifies ring`tail
    ensures ring.Valid() && ring.Contents() == []
    ensures visible && read == old(ring.Contents())[0].payload
  {
    var frame := ring.TryAcquire();
    if !frame.Lease? {
      return false, [];
    }
    read := ring.ReadPayload(frame);
    ring.Release(frame);
    visible := true;
  }

  /**
    One turn of the loop: reserve, read one interval of `bytes` bytes into the
    slot, publish it and read it back through a lease.
   */
  method RoundTrip(ring: SharedRing, descriptor: FrameDescriptor, input: seq<u8>, bytes: nat, signalOk: bool)
    returns (o: Outcome, read: seq<u8>)
    requires ring.Valid() && ring.Contents() == [] && ring.header.slotCount == CAPTURE_SLOTS
    modifies ring`head, ring`tail, ring`event, ring`dropped, ring.mem
    ensures ring.Valid() && ring.dropped == old(ring.dropped)
    ensures o == if bytes > ring.header.payloadCapacity then SliceOutOfRange
                 else if |input| < bytes then ShortRead
                 else if signalOk then Captured else CommitFailed
    ensures o.Captured? ==> read == input[..bytes] && ring.Contents() == []
  {
    read := [];
    var lease := ring.TryReserve();
    if lease.None? {
      return Overrun, read;
    }
    var h := ring.ReadHeader();
    if bytes > h.payloadCapacity {
      return SliceOutOfRange, read;
    }
    if |input| < bytes {
      return ShortRead, read;
    }
    var ok := PublishInterval(ring, lease.value, descriptor, input[..bytes], signalOk);
    if !ok {
      return CommitFailed, read;
    }
    var visible;
    visible, read := TakeInterval(ring);
    return if visible then Captured else NotVisible, read;
  }

  function Describe(pcm: PcmConfiguration, sequence: u64, now: u64): (d: FrameDescriptor) {
    NewDescriptor(PAYLOAD_KIND_PCM, sequence).(
      sampleRateHz := pcm.sampleRateHz,
      channels := pcm.channels,
      bitsPerSample := pcm.bitsPerSample,
      captureTimeNs := now)
  }

  /** Turn `k` is the first whose signal fails hard. */
  ghost predicate FailsAt(signalOk: nat -> bool, intervals: u64, k: nat) {
    k < intervals && !signalOk(k) && forall j: nat | j < k :: signalOk(j)
  }

  /** `bytes as u32` is a capacity that `create` accepts. */
  predicate Creatable(bytes: nat) {
    1 <= bytes % U32_LIMIT <= 0xffff_ff80
  }

  /**
    Eight slots of one interval each. Whatever arrives, the loop never overruns
    and never misses the frame it just published. It fails to start exactly when
    the interval, cut to 32 bits, is no ring capacity, and panics in its first
    turn exactly when the cut lost something. Otherwise it ends early only on a
    short read or a hard eventfd error, and what it has written is a prefix of
    the input.
   */
  method Capture(input: seq<u8>, pcm: PcmConfiguration, intervals: u64, clock: nat -> u64, signalOk: nat -> bool)
    returns (o: Outcome, captured: seq<u8>, dropped: u64)
    ensures o.BadConfiguration? <==> pcm.BytesPerInterval().None?
    ensures pcm.BytesPerInterval().Some? ==>
              var bytes := pcm.BytesPerInterval().value;
              && (o.CreateFailed? <==> !Creatable(bytes))
              && (o.SliceOutOfRange? <==> Creatable(bytes) && bytes >= U32_LIMIT && 0 < intervals)
              && (o.ShortRead? ==> |input| < intervals * bytes && |input| < |captured| + bytes)
              && (o.Captured? ==> |captured| == intervals * bytes)
              && (o.CommitFailed? ==> exists k: nat :: FailsAt(signalOk, intervals, k) && |captured| == k * bytes)
    ensures !o.Overrun? && !o.NotVisible? && dropped == 0 && captured <= input
    ensures o.Captured? ==> forall k: nat | k < intervals :: signalOk(k)
  {
    captured, dropped := [], 0;
    var size := pcm.BytesPerInterval();
    if size.None? {
      return BadConfiguration, captured, dropped;
    }
    IntervalIsExact(pcm);
    TimesIsProduct(intervals, size.value);
    o, captured, dropped := CaptureIntervals(input, pcm, size.value, intervals, clock, signalOk);
    if o.CommitFailed? {
      ghost var k: nat :| FailsAt(signalOk, intervals, k) && |captured| == Times(k, size.value);
      TimesIsProduct(k, size.value);
    }
  }

  method CaptureIntervals(input: seq<u8>, pcm: PcmConfiguration, bytes: nat, intervals: u64,
                          clock: nat -> u64, signalOk: nat -> bool)
    returns (o: Outcome, captured: seq<u8>, dropped: u64)
    requires 0 < bytes
    ensures o.CreateFailed? <==> !Creatable(bytes)
    ensures o.SliceOutOfRange? <==> Creatable(bytes) && bytes >= U32_LIMIT && 0 < intervals
    ensures !o.BadConfiguration? && !o.Overrun? && !o.NotVisible? && dropped == 0 && captured <= input
    ensures o.ShortRead? ==> |input| < Times(intervals, bytes) && |input| < |captured| + bytes
    ensures o.CommitFailed? ==> exists k: nat :: FailsAt(signalOk, intervals, k) && |captured| == Times(k, bytes)
    ensures o.Captured? ==> |captured| == Times(intervals, bytes) && forall k: nat | k < intervals :: signalOk(k)
  {
    captured, dropped := [], 0;
    var plan := PlanRing(CAPTURE_SLOTS, bytes % U32_LIMIT);
    CreateAcceptsIff(CAPTURE_SLOTS, bytes % U32_LIMIT);
    if plan.Refused? {
      return CreateFailed, captured, dropped;
    }
    var ring := new SharedRing(plan);
    o, captured := CaptureLoop(ring, input, pcm, bytes, intervals, clock, signalOk);
    dropped := ring.dropped;
  }

  method CaptureLoop(ring: SharedRing, input: seq<u8>, pcm: PcmConfiguration, bytes: nat, intervals: u64,
                     clock: nat -> u64, signalOk: nat -> bool)
    returns (o: Outcome, captured: seq<u8>)
    requires ring.Valid() && ring.Contents() == [] && ring.header.slotCount == CAPTURE_SLOTS
    requires 0 < bytes && ring.header.payloadCapacity == bytes % U32_LIMIT
    modifies ring`head, ring`tail, ring`event, ring`dropped, ring.mem
    ensures ring.dropped == old(ring.dropped) && captured <= input
    ensures o.SliceOutOfRange? <==> bytes >= U32_LIMIT && 0 < intervals
    ensures o.SliceOutOfRange? || o.ShortRead? || o.CommitFailed? || o.Captured?
    ensures o.ShortRead? ==> |input| < Times(intervals, bytes) && |input| < |captured| + bytes
    ensures o.CommitFailed? ==> exists k: nat :: FailsAt(signalOk, intervals, k) && |captured| == Times(k, bytes)
    ensures o.Captured? ==> |captured| == Times(intervals, bytes) && forall k: nat | k < intervals :: signalOk(k)
  {
    captured := [];
    var i: u64 := 0;
    while i < intervals
      invariant 0 <= i <= intervals
      invariant ring.Valid() && ring.Contents() == [] && ring.dropped == old(ring.dropped)
      invariant 0 < i ==> bytes < U32_LIMIT
      invariant forall k: nat | k < i :: signalOk(k)
      invariant |captured| == Times(i, bytes) <= |input| && captured == input[..|captured|]
    {
      TimesGrows(i + 1, intervals, bytes);
      var read;
      o, read := RoundTrip(ring, Describe(pcm, i, clock(i)), input[|captured|..], bytes, signalOk(i));
      if !o.Captured? {
        assert o.CommitFailed? ==> FailsAt(signalOk, intervals, i);
        return;
      }
      captured := captured + read;
      i := i + 1;
    }
    o := Captured;
  }
}
