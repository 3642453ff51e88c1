/**
  The frame descriptor stored in front of every ring payload, with its
  fixed 64-byte process ABI (two gaps of four padding bytes included).
 */
module Frames {
  import opened Words

  const ABI_VERSION: u16 := 1
  const DESCRIPTOR_BYTES: u16 := 64
  const PAYLOAD_KIND_PCM: u8 := 1

  datatype FrameDescriptor = FrameDescriptor(
    abiVersion: u16,
    headerBytes: u16,
    payloadKind: u8,
    isoStatus: u8,
    flags: u16,
    payloadBytes: u32,
    sequence: u64,
    streamHandle: u32,
    sampleRateHz: u32,
    channels: u16,
    bitsPerSample: u16,
    captureTimeNs: u64,
    presentationTimeNs: u64,
    deadlineNs: u64)

  function NewDescriptor(kind: u8, sequence: u64): (d: FrameDescriptor) {
    FrameDescriptor(ABI_VERSION, DESCRIPTOR_BYTES, kind, 0, 0, 0, sequence, 0, 0, 0, 0, 0, 0, 0)
  }

  /** The three fields `commit` overwrites whatever the caller put there. */
  function Stamp(d: FrameDescriptor, payloadBytes: u32): (r: FrameDescriptor) {
    d.(abiVersion := ABI_VERSION, headerBytes := DESCRIPTOR_BYTES, payloadBytes := payloadBytes)
  }

  /** The bytes of a descriptor; the padding is whatever the compiler leaves there. */
  function Encode(d: FrameDescriptor, pad: seq<u8>): (image: seq<u8>)
    requires |pad| == 8
    ensures |image| == 64
  {
    Le(d.abiVersion, 2) + Le(d.headerBytes, 2) + Le(d.payloadKind, 1) + Le(d.isoStatus, 1) + Le(d.flags, 2)
    + Le(d.payloadBytes, 4) + pad[..4] + Le(d.sequence, 8) + Le(d.streamHandle, 4) + Le(d.sampleRateHz, 4)
    + Le(d.channels, 2) + Le(d.bitsPerSample, 2) + pad[4..] + Le(d.captureTimeNs, 8)
    + Le(d.presentationTimeNs, 8) + Le(d.deadlineNs, 8)
  }

  function Read16(s: seq<u8>, at: nat): (r: u16)
    requires at + 2 <= |s|
  {
    assert Pow256(2) == 0x1_0000;
    FromLe(s[at..at + 2])
  }

  function Read32(s: seq<u8>, at: nat): (r: u32)
    requires at + 4 <= |s|
  {
    assert Pow256(4) == 0x1_0000_0000;
    FromLe(s[at..at + 4])
  }

  function Read64(s: seq<u8>, at: nat): (r: u64)
    requires at + 8 <= |s|
  {
    assert Pow256(8) == WORD;
    FromLe(s[at..at + 8])
  }

  function Decode(image: seq<u8>): (d: FrameDescriptor)
    requires |image| == 64
  {
    FrameDescriptor(
      Read16(image, 0), Read16(image, 2), image[4], image[5], Read16(image, 6), Read32(image, 8),
      Read64(image, 16), Read32(image, 24), Read32(image, 28), Read16(image, 32), Read16(image, 34),
      Read64(image, 40), Read64(image, 48), Read64(image, 56))
  }

  /** A frame as it lies in memory: the 64 descriptor bytes, padding included, and the payload. */
  datatype RawFrame = RawFrame(image: seq<u8>, payload: seq<u8>)

  /** The checks `try_acquire` makes on a descriptor it has copied out. */
  predicate Acceptable(image: seq<u8>, capacity: nat) {
    && |image| == 64 && Read16(image, 0) == ABI_VERSION && Read16(image, 2) == DESCRIPTOR_BYTES
    && Read32(image, 8) <= capacity
  }

  predicate WellFormed(f: RawFrame, capacity: nat) {
    Acceptable(f.image, capacity) && |f.payload| == Read32(f.image, 8)
  }

  /** A descriptor stamped by `commit` is acceptable to `try_acquire`, and only a stamped one is. */
  lemma StampedIsAcceptable(d: FrameDescriptor, n: u32, image: seq<u8>, capacity: nat)
    requires |image| == 64 && Decode(image) == d
    ensures d == Stamp(d, n) && n <= capacity <==> Acceptable(image, capacity) && n == Read32(image, 8)
  {
  }

  lemma FieldRoundTrip(n: nat, width: nat)
    requires n < Pow256(width)
    ensures FromLe(Le(n, width)) == n
  {
    LeTruncates(n, width);
  }

  /** Any descriptor survives the trip through its 64-byte image, whatever the padding holds. */
  lemma DecodeEncode(d: FrameDescriptor, pad: seq<u8>)
    requires |pad| == 8
    ensures Decode(Encode(d, pad)) == d
  {
    var image := Encode(d, pad);
    assert Pow256(2) == 0x1_0000 && Pow256(4) == 0x1_0000_0000 && Pow256(8) == WORD;
    FieldRoundTrip(d.abiVersion, 2);
    FieldRoundTrip(d.headerBytes, 2);
    FieldRoundTrip(d.flags, 2);
    FieldRoundTrip(d.payloadBytes, 4);
    FieldRoundTrip(d.sequence, 8);
    FieldRoundTrip(d.streamHandle, 4);
    FieldRoundTrip(d.sampleRateHz, 4);
    FieldRoundTrip(d.channels, 2);
    FieldRoundTrip(d.bitsPerSample, 2);
    FieldRoundTrip(d.captureTimeNs, 8);
    FieldRoundTrip(d.presentationTimeNs, 8);
    FieldRoundTrip(d.deadlineNs, 8);
    FrontFields(d, pad);
    BackFields(d, pad);
  }

  lemma FrontFields(d: FrameDescriptor, pad: seq<u8>)
    requires |pad| == 8
    ensures var image := Encode(d, pad);
            image[0..2] == Le(d.abiVersion, 2) && image[2..4] == Le(d.headerBytes, 2)
            && image[4] == d.payloadKind && image[5] == d.isoStatus
            && image[6..8] == Le(d.flags, 2) && image[8..12] == Le(d.payloadBytes, 4)
            && image[16..24] == Le(d.sequence, 8) && image[24..28] == Le(d.streamHandle, 4)
  {
  }

  lemma BackFields(d: FrameDescriptor, pad: seq<u8>)
    requires |pad| == 8
    ensures var image := Encode(d, pad);
            image[28..32] == Le(d.sampleRateHz, 4) && image[32..34] == Le(d.channels, 2)
            && image[34..36] == Le(d.bitsPerSample, 2) && image[40..48] == Le(d.captureTimeNs, 8)
            && image[48..56] == Le(d.presentationTimeNs, 8) && image[56..64] == Le(d.deadlineNs, 8)
  {
  }
}
