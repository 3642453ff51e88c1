/** The shape of the shared mapping: what `create` accepts, and where each slot lies. */
module RingLayout {
  import opened Words
  import opened Cursors
  import opened Frames

  const RING_MAGIC: u32 := 0x474e_5244
  const HEADER_BYTES: nat := 256
  const CACHE_LINE: nat := 64

  datatype RingHeader = RingHeader(
    magic: u32,
    abiVersion: u16,
    headerBytes: u16,
    slotCount: u32,
    slotStride: u32,
    payloadCapacity: u32)

  datatype CreateError = TooFewSlots | NoCapacity | SizeOverflow | StrideExceedsAbi

  datatype Plan = Planned(header: RingHeader, mapLength: nat) | Refused(error: CreateError)

  /** Round up to a whole number of cache lines; clearing the low six bits subtracts the remainder. */
  function AlignUp(value: nat): (r: nat)
    ensures value <= r < value + CACHE_LINE && r % CACHE_LINE == 0
  {
    var raised := value + CACHE_LINE - 1;
    raised - raised % CACHE_LINE
  }

  /** The arithmetic of `RingPair::create`, with its overflow checks on a 64-bit `usize`. */
  function PlanRing(slotCount: u32, capacity: u32): (r: Plan) {
    if slotCount < 2 then Refused(TooFewSlots)
    else if capacity == 0 then Refused(NoCapacity)
    else
      var stride := AlignUp(64 + capacity);
      if stride * slotCount >= WORD || HEADER_BYTES + stride * slotCount >= WORD then Refused(SizeOverflow)
      else if stride >= U32_LIMIT then Refused(StrideExceedsAbi)
      else Planned(RingHeader(RING_MAGIC, ABI_VERSION, HEADER_BYTES, slotCount, stride, capacity),
                   HEADER_BYTES + stride * slotCount)
  }

  predicate ValidateHeader(h: RingHeader, mapLength: nat) {
    && h.magic == RING_MAGIC && h.abiVersion == ABI_VERSION && h.headerBytes == HEADER_BYTES
    && h.slotCount >= 2 && h.slotStride % CACHE_LINE == 0
    && HEADER_BYTES + h.slotStride * h.slotCount == mapLength
  }

  /** A header fit to run a ring over: `validate_header` plus the fact only `create` establishes. */
  predicate Sound(h: RingHeader, mapLength: nat) {
    ValidateHeader(h, mapLength) && 0 < h.payloadCapacity && 64 + h.payloadCapacity <= h.slotStride
  }

  // ---------------------------------------------------------------------------
  // The header in memory
  // ---------------------------------------------------------------------------

  const HEADER_FIELDS: nat := 20

  /** The shape fields at the start of the mapping; cursors and counters follow in later cache lines. */
  function EncodeHeader(h: RingHeader): (s: seq<u8>)
    ensures |s| == HEADER_FIELDS
  {
    Le(h.magic, 4) + Le(h.abiVersion, 2) + Le(h.headerBytes, 2)
    + Le(h.slotCount, 4) + Le(h.slotStride, 4) + Le(h.payloadCapacity, 4)
  }

  function DecodeHeader(s: seq<u8>): (h: RingHeader)
    requires HEADER_FIELDS <= |s|
  {
    RingHeader(Read32(s, 0), Read16(s, 4), Read16(s, 6), Read32(s, 8), Read32(s, 12), Read32(s, 16))
  }

  lemma HeaderFields(h: RingHeader, s: seq<u8>)
    requires HEADER_FIELDS <= |s| && s[..HEADER_FIELDS] == EncodeHeader(h)
    ensures s[0..4] == Le(h.magic, 4) && s[4..6] == Le(h.abiVersion, 2) && s[6..8] == Le(h.headerBytes, 2)
    ensures s[8..12] == Le(h.slotCount, 4) && s[12..16] == Le(h.slotStride, 4) && s[16..20] == Le(h.payloadCapacity, 4)
  {
    var e := EncodeHeader(h);
    assert s[0..4] == e[0..4] && s[4..6] == e[4..6] && s[6..8] == e[6..8];
    assert s[8..12] == e[8..12] && s[12..16] == e[12..16] && s[16..20] == e[16..20];
  }

  /** Whoever maps the ring reads back the header that `create` wrote. */
  lemma DecodeEncodeHeader(h: RingHeader, s: seq<u8>)
    requires HEADER_FIELDS <= |s| && s[..HEADER_FIELDS] == EncodeHeader(h)
    ensures DecodeHeader(s) == h
  {
    HeaderFields(h, s);
    assert Pow256(2) == 0x1_0000 && Pow256(4) == 0x1_0000_0000;
    FieldRoundTrip(h.magic, 4);
    FieldRoundTrip(h.abiVersion, 2);
    FieldRoundTrip(h.headerBytes, 2);
    FieldRoundTrip(h.slotCount, 4);
    FieldRoundTrip(h.slotStride, 4);
    FieldRoundTrip(h.payloadCapacity, 4);
  }

  /** Only the first twenty bytes matter. */
  lemma HeaderKept(s: seq<u8>, t: seq<u8>)
    requires HEADER_FIELDS <= |s| && HEADER_FIELDS <= |t| && s[..HEADER_FIELDS] == t[..HEADER_FIELDS]
    ensures DecodeHeader(s) == DecodeHeader(t)
  {
    FieldsOf(s);
    FieldsOf(t);
  }

  lemma FieldsOf(s: seq<u8>)
    requires HEADER_FIELDS <= |s|
    ensures DecodeHeader(s) == DecodeHeader(s[0..HEADER_FIELDS])
    ensures s[0..HEADER_FIELDS] == s[..HEADER_FIELDS]
  {
    SliceOfSlice(s, 0, HEADER_FIELDS, 0, 4);
    SliceOfSlice(s, 0, HEADER_FIELDS, 4, 6);
    SliceOfSlice(s, 0, HEADER_FIELDS, 6, 8);
    SliceOfSlice(s, 0, HEADER_FIELDS, 8, 12);
    SliceOfSlice(s, 0, HEADER_FIELDS, 12, 16);
    SliceOfSlice(s, 0, HEADER_FIELDS, 16, 20);
  }

  // ---------------------------------------------------------------------------
  // Creation
  // ---------------------------------------------------------------------------

  lemma ProductBelow(a: nat, b: nat, m: nat)
    requires a < m && b < m
    ensures a * b <= (m - 1) * (m - 1)
  {
    MulMono(a, m - 1, b);
    MulMono(b, m - 1, m - 1);
  }

  /** `create` succeeds exactly on two or more slots whose stride fits the 32-bit field, and then the shape is sound. */
  lemma CreateAcceptsIff(slotCount: u32, capacity: u32)
    ensures PlanRing(slotCount, capacity).Planned? <==> slotCount >= 2 && 0 < capacity <= 0xffff_ff80
    ensures var r := PlanRing(slotCount, capacity);
            r.Planned? ==> Sound(r.header, r.mapLength)
                           && r.header.slotCount == slotCount && r.header.payloadCapacity == capacity
                           && r.header.slotStride < 128 + capacity
  {
    var stride := AlignUp(64 + capacity);
    if capacity <= 0xffff_ff80 {
      StrideFits(64 + capacity);
      ProductBelow(stride, slotCount, U32_LIMIT);
    }
  }

  lemma StrideFits(value: nat)
    requires value <= 0xffff_ffc0
    ensures AlignUp(value) < U32_LIMIT
  {
    assert AlignUp(value) % CACHE_LINE == 0;
  }

  /** `Mapping::slot`: the byte offset of the slot a cursor selects. */
  function SlotStart(h: RingHeader, cursor: u64): (r: nat)
    requires h.slotCount >= 2
  {
    HEADER_BYTES + SlotOf(cursor, h.slotCount) * h.slotStride
  }

  lemma MultipleOfAligned(k: nat, stride: nat)
    requires stride % CACHE_LINE == 0
    ensures (k * stride) % CACHE_LINE == 0
  {
    var lines := stride / CACHE_LINE;
    assert stride == CACHE_LINE * lines;
    assert k * (CACHE_LINE * lines) == CACHE_LINE * (k * lines);
    UniqueRemainder(k * stride, CACHE_LINE, k * lines, 0);
  }

  lemma BlockBound(k: nat, n: nat, stride: nat)
    requires k < n
    ensures k * stride + stride <= stride * n
  {
    MulMono(k + 1, n, stride);
    assert (k + 1) * stride == k * stride + stride;
  }

  lemma SlotInside(h: RingHeader, mapLength: nat, cursor: u64)
    requires Sound(h, mapLength)
    ensures HEADER_BYTES <= SlotStart(h, cursor)
    ensures SlotStart(h, cursor) + 64 + h.payloadCapacity <= SlotStart(h, cursor) + h.slotStride <= mapLength
    ensures SlotStart(h, cursor) % CACHE_LINE == 0
  {
    var k := SlotOf(cursor, h.slotCount);
    BlockBound(k, h.slotCount, h.slotStride);
    MultipleOfAligned(k, h.slotStride);
  }

  lemma SlotsDisjoint(h: RingHeader, a: u64, b: u64)
    requires h.slotCount >= 2 && SlotOf(a, h.slotCount) < SlotOf(b, h.slotCount)
    ensures SlotStart(h, a) + h.slotStride <= SlotStart(h, b)
  {
    var i, j := SlotOf(a, h.slotCount), SlotOf(b, h.slotCount);
    BlockBound(i, j, h.slotStride);
  }

  // ---------------------------------------------------------------------------
  // What the header check does not see
  // ---------------------------------------------------------------------------

  /** Every slot a cursor can select has its descriptor and full payload inside the mapping. */
  ghost predicate SlotsInside(h: RingHeader, mapLength: nat)
    requires h.slotCount >= 2
  {
    forall c: u64 :: SlotStart(h, c) + 64 + h.payloadCapacity <= mapLength
  }

  /** Frames of different slots never share a byte. */
  ghost predicate SlotsApartInMemory(h: RingHeader)
    requires h.slotCount >= 2
  {
    forall a: u64, b: u64 | SlotOf(a, h.slotCount) < SlotOf(b, h.slotCount) ::
      SlotStart(h, a) + 64 + h.payloadCapacity <= SlotStart(h, b)
  }

  lemma LastSlot(h: RingHeader, mapLength: nat) returns (c: u64)
    requires ValidateHeader(h, mapLength)
    ensures SlotStart(h, c) + h.slotStride == mapLength
  {
    c := h.slotCount - 1;
    assert (h.slotCount - 1) * h.slotStride + h.slotStride == h.slotStride * h.slotCount;
  }

  lemma FittingSlots(h: RingHeader, mapLength: nat)
    requires ValidateHeader(h, mapLength) && 64 + h.payloadCapacity <= h.slotStride
    ensures SlotsInside(h, mapLength) && SlotsApartInMemory(h)
  {
    forall c: u64
      ensures SlotStart(h, c) + 64 + h.payloadCapacity <= mapLength
    {
      BlockBound(SlotOf(c, h.slotCount), h.slotCount, h.slotStride);
    }
    forall a: u64, b: u64 | SlotOf(a, h.slotCount) < SlotOf(b, h.slotCount)
      ensures SlotStart(h, a) + 64 + h.payloadCapacity <= SlotStart(h, b)
    {
      SlotsDisjoint(h, a, b);
    }
  }

  lemma FirstTwoSlots(h: RingHeader)
    requires h.slotCount >= 2
    ensures SlotOf(0, h.slotCount) == 0 && SlotOf(1, h.slotCount) == 1
    ensures SlotStart(h, 1) == SlotStart(h, 0) + h.slotStride
  {
  }

  /**
    `validate_header` accepts a mapping without comparing the payload capacity
    with the stride. Slots of an accepted header stay inside the mapping exactly
    when the comparison would have succeeded, and are disjoint exactly then.
   */
  lemma AcceptedSlotsFitIff(h: RingHeader, mapLength: nat)
    requires ValidateHeader(h, mapLength)
    ensures SlotsInside(h, mapLength) <==> 64 + h.payloadCapacity <= h.slotStride
    ensures SlotsApartInMemory(h) <==> 64 + h.payloadCapacity <= h.slotStride
  {
    if 64 + h.payloadCapacity <= h.slotStride {
      FittingSlots(h, mapLength);
    } else {
      var last := LastSlot(h, mapLength);
      FirstTwoSlots(h);
    }
  }

  /** Two slots of 64 bytes that claim one payload byte each: accepted, yet the last slot ends outside the mapping. */
  lemma AcceptedHeaderOverflows()
    ensures var h := RingHeader(RING_MAGIC, ABI_VERSION, HEADER_BYTES, 2, 64, 1);
            ValidateHeader(h, 384) && SlotStart(h, 1) + 64 + h.payloadCapacity == 385 && !SlotsApartInMemory(h)
  {
    AcceptedSlotsFitIff(RingHeader(RING_MAGIC, ABI_VERSION, HEADER_BYTES, 2, 64, 1), 384);
  }

  /** Every planned ring has aligned, disjoint slots inside the mapping, each with room for a full frame. */
  lemma PlannedSlots(slotCount: u32, capacity: u32, a: u64, b: u64)
    requires PlanRing(slotCount, capacity).Planned?
    ensures var r := PlanRing(slotCount, capacity);
            var h := r.header;
            ValidateHeader(h, r.mapLength)
            && SlotStart(h, a) % CACHE_LINE == 0
            && HEADER_BYTES <= SlotStart(h, a) && SlotStart(h, a) + h.slotStride <= r.mapLength
            && 64 + capacity <= h.slotStride
            && (SlotOf(a, slotCount) != SlotOf(b, slotCount) ==>
                  || SlotStart(h, a) + h.slotStride <= SlotStart(h, b)
                  || SlotStart(h, b) + h.slotStride <= SlotStart(h, a))
  {
    var r := PlanRing(slotCount, capacity);
    CreateAcceptsIff(slotCount, capacity);
    SlotInside(r.header, r.mapLength, a);
    if SlotOf(a, slotCount) < SlotOf(b, slotCount) {
      SlotsDisjoint(r.header, a, b);
    } else if SlotOf(b, slotCount) < SlotOf(a, slotCount) {
      SlotsDisjoint(r.header, b, a);
    }
  }
}
