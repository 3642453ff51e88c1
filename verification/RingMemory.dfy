/** The ring over the bytes of its mapping, operation by operation. */
module RingMemory {
  import opened Words
  import opened Cursors
  import opened Frames
  import opened RingLayout
  import RingProtocol
  import RingFifo

  // ---------------------------------------------------------------------------
  // What a mapping denotes
  // ---------------------------------------------------------------------------

  /** The descriptor and payload bytes of the slot a cursor selects. */
  function SlotBytes(h: RingHeader, m: seq<u8>, cursor: u64): (s: seq<u8>)
    requires Sound(h, |m|)
    ensures |s| == 64 + h.payloadCapacity
  {
    SlotInside(h, |m|, cursor);
    m[SlotStart(h, cursor)..SlotStart(h, cursor) + 64 + h.payloadCapacity]
  }

  /** The k-th slot from `tail` on. */
  function Entry(h: RingHeader, m: seq<u8>, tail: u64, k: nat): (s: seq<u8>)
    requires Sound(h, |m|)
    ensures |s| == 64 + h.payloadCapacity
  {
    SlotBytes(h, m, Wrap(tail + k))
  }

  function QueueIn(h: RingHeader, m: seq<u8>, tail: u64, n: nat): (q: seq<RawFrame>)
    requires Sound(h, |m|)
    ensures |q| == n
  {
    seq(n, (k: nat) => RingFifo.FrameIn(Entry(h, m, tail, k)))
  }

  /** The two cursors are at most a ring apart, and every cursor between them has a slot to itself. */
  predicate InStep(h: RingHeader, head: u64, tail: u64) {
    && h.slotCount >= 2 && WrappingSub(head, tail) <= h.slotCount
    && (WORD % h.slotCount == 0 || tail <= head)
  }

  predicate AllAcceptable(h: RingHeader, m: seq<u8>, tail: u64, n: nat)
    requires Sound(h, |m|)
  {
    forall k: nat | k < n :: Acceptable(Entry(h, m, tail, k)[..64], h.payloadCapacity)
  }

  /** Outside the slot of `cursor`, nothing changed. */
  predicate SameElsewhere(h: RingHeader, m: seq<u8>, m': seq<u8>, cursor: u64)
    requires Sound(h, |m|)
  {
    var start := SlotStart(h, cursor);
    |m'| == |m| && forall i | 0 <= i < |m| && !(start <= i < start + 64 + h.payloadCapacity) :: m'[i] == m[i]
  }

  lemma CursorAhead(head: u64, tail: u64)
    ensures head == Wrap(tail + WrappingSub(head, tail))
    ensures WrappingSub(head, tail) == if tail <= head then head - tail else head + WORD - tail
  {
    if tail <= head {
      UniqueRemainder(head - tail, WORD, 0, head - tail);
    } else {
      UniqueRemainder(head - tail, WORD, -1, head + WORD - tail);
      UniqueRemainder(head + WORD, WORD, 1, head);
    }
  }

  /** The slot about to be written is none of the queued ones. */
  lemma FreeSlotApart(h: RingHeader, head: u64, tail: u64, k: nat)
    requires InStep(h, head, tail) && k < WrappingSub(head, tail) < h.slotCount
    ensures SlotOf(Wrap(tail + k), h.slotCount) != SlotOf(head, h.slotCount)
  {
    CursorAhead(head, tail);
    SlotsApart(h.slotCount, tail + k, tail + WrappingSub(head, tail));
  }

  lemma OtherSlotKept(h: RingHeader, m: seq<u8>, m': seq<u8>, written: u64, other: u64)
    requires Sound(h, |m|) && SameElsewhere(h, m, m', written)
    requires SlotOf(written, h.slotCount) != SlotOf(other, h.slotCount)
    ensures SlotBytes(h, m', other) == SlotBytes(h, m, other)
  {
    SlotInside(h, |m|, written);
    SlotInside(h, |m|, other);
    if SlotOf(written, h.slotCount) < SlotOf(other, h.slotCount) {
      SlotsDisjoint(h, written, other);
    } else {
      SlotsDisjoint(h, other, written);
    }
  }

  /** Writing the reserved slot leaves every queued frame as it was. */
  lemma QueueKept(h: RingHeader, m: seq<u8>, m': seq<u8>, head: u64, tail: u64)
    requires Sound(h, |m|) && InStep(h, head, tail) && WrappingSub(head, tail) < h.slotCount
    requires SameElsewhere(h, m, m', head)
    ensures var n := WrappingSub(head, tail);
            QueueIn(h, m', tail, n) == QueueIn(h, m, tail, n)
            && (AllAcceptable(h, m, tail, n) ==> AllAcceptable(h, m', tail, n))
  {
    var n := WrappingSub(head, tail);
    forall k: nat | k < n
      ensures Entry(h, m', tail, k) == Entry(h, m, tail, k)
    {
      FreeSlotApart(h, head, tail, k);
      OtherSlotKept(h, m, m', head, Wrap(tail + k));
    }
    assert forall k: nat | k < n :: QueueIn(h, m', tail, n)[k] == QueueIn(h, m, tail, n)[k];
  }

  lemma AdvanceHead(h: RingHeader, head: u64, tail: u64)
    requires InStep(h, head, tail) && WrappingSub(head, tail) < h.slotCount
    requires WORD % h.slotCount == 0 || head + 1 < WORD
    ensures InStep(h, WrappingAdd(head, 1), tail)
    ensures WrappingSub(WrappingAdd(head, 1), tail) == WrappingSub(head, tail) + 1
  {
    CursorAhead(head, tail);
    CursorAhead(WrappingAdd(head, 1), tail);
  }

  lemma AdvanceTail(h: RingHeader, head: u64, tail: u64)
    requires InStep(h, head, tail) && 0 < WrappingSub(head, tail)
    ensures InStep(h, head, WrappingAdd(tail, 1))
    ensures WrappingSub(head, WrappingAdd(tail, 1)) == WrappingSub(head, tail) - 1
  {
    CursorAhead(head, tail);
    CursorAhead(head, WrappingAdd(tail, 1));
  }

  /** One more slot in the window appends its frame. */
  lemma QueueAppends(h: RingHeader, m: seq<u8>, tail: u64, n: nat)
    requires Sound(h, |m|) && AllAcceptable(h, m, tail, n) && Acceptable(Entry(h, m, tail, n)[..64], h.payloadCapacity)
    ensures QueueIn(h, m, tail, n + 1) == QueueIn(h, m, tail, n) + [RingFifo.FrameIn(Entry(h, m, tail, n))]
    ensures AllAcceptable(h, m, tail, n + 1)
  {
  }

  /** Moving the window up by one removes the first frame. */
  lemma QueueDrops(h: RingHeader, m: seq<u8>, tail: u64, n: nat)
    requires Sound(h, |m|) && 0 < n && AllAcceptable(h, m, tail, n)
    ensures QueueIn(h, m, WrappingAdd(tail, 1), n - 1) == QueueIn(h, m, tail, n)[1..]
    ensures AllAcceptable(h, m, WrappingAdd(tail, 1), n - 1)
  {
    var next := WrappingAdd(tail, 1);
    forall k: nat | k < n - 1
      ensures Entry(h, m, next, k) == Entry(h, m, tail, k + 1)
    {
      RingFifo.WrapAgain(tail + 1, k);
      assert Wrap(next + k) == Wrap(tail + (k + 1));
    }
    assert forall k: nat | k < n - 1 :: QueueIn(h, m, next, n - 1)[k] == QueueIn(h, m, tail, n)[1..][k];
  }

  // ---------------------------------------------------------------------------
  // The same queue as in the step system
  // ---------------------------------------------------------------------------

  function SlotsOf(h: RingHeader, m: seq<u8>): (slots: seq<seq<u8>>)
    requires Sound(h, |m|)
    ensures |slots| == h.slotCount && forall i | 0 <= i < |slots| :: |slots[i]| == 64 + h.payloadCapacity
  {
    seq(h.slotCount, i requires 0 <= i < h.slotCount => SlotBytes(h, m, i))
  }

  /** The slots of the step system lie in the mapping one after the other, and the two readings of the queue agree. */
  lemma SameQueue(h: RingHeader, m: seq<u8>, s: RingProtocol.State)
    requires Sound(h, |m|) && s.slots == SlotsOf(h, m)
    ensures var p := RingProtocol.Params(h.slotCount, h.payloadCapacity);
            && RingProtocol.ValidParams(p) && RingProtocol.Shape(p, s)
            && RingFifo.Queue(p, s) == QueueIn(h, m, s.tail, WrappingSub(s.head, s.tail))
  {
    var p := RingProtocol.Params(h.slotCount, h.payloadCapacity);
    forall k: nat | k < RingFifo.Occupancy(s)
      ensures RingProtocol.SlotAt(p, s, Wrap(s.tail + k)) == Entry(h, m, s.tail, k)
    {
      SameSlot(h, m, Wrap(s.tail + k));
    }
    assert forall k: nat | k < RingFifo.Occupancy(s) ::
        RingFifo.Queue(p, s)[k] == QueueIn(h, m, s.tail, WrappingSub(s.head, s.tail))[k];
  }

  lemma SameSlot(h: RingHeader, m: seq<u8>, cursor: u64)
    requires Sound(h, |m|)
    ensures SlotsOf(h, m)[SlotOf(cursor, h.slotCount)] == SlotBytes(h, m, cursor)
  {
    var k: u64 := SlotOf(cursor, h.slotCount);
    UniqueRemainder(k, h.slotCount, 0, k);
    assert SlotStart(h, k) == SlotStart(h, cursor);
  }

  // ---------------------------------------------------------------------------
  // The operations
  // ---------------------------------------------------------------------------

  const NO_PADDING: seq<u8> := [0, 0, 0, 0, 0, 0, 0, 0]

  /** The descriptor bytes `commit` stores for a payload of `n` bytes. */
  function StampedBytes(d: FrameDescriptor, n: nat): (image: seq<u8>)
    requires n < U32_LIMIT
    ensures |image| == 64
  {
    Encode(Stamp(d, n), NO_PADDING)
  }

  datatype CommitResult = Committed | PayloadTooLarge | SignalFailed

  datatype Acquired = Nothing | Lease(tail: u64, image: seq<u8>) | Corrupt

  datatype Pushed = Accepted | RingFull | TooLarge | NotSignalled

  /**
    The mapping and its cursors. The shape lives in the first bytes of the
    mapping, and every operation reads it from there; `header` names the value
    those bytes keep for the life of the ring.
   */
  class SharedRing {
    ghost const header: RingHeader
    const mem: array<u8>
    var head: u64
    var tail: u64
    var dropped: u64
    var event: nat

    /** Mapping and cursors fit together. */
    ghost predicate Shaped()
      reads this`head, this`tail, mem
    {
      && HEADER_BYTES <= mem.Length && DecodeHeader(mem[..]) == header && Sound(header, mem.Length)
      && InStep(header, head, tail) && AllAcceptable(header, mem[..], tail, WrappingSub(head, tail))
    }

    ghost predicate Valid()
      reads this, mem
    {
      Shaped() && event <= RingProtocol.EVENT_MAX
    }

    function Occupancy(): (n: u64)
      reads this`head, this`tail
    {
      WrappingSub(head, tail)
    }

    /** The header block in front of the slots. */
    ghost function HeaderBytes(): (s: seq<u8>)
      reads mem
    {
      if HEADER_BYTES <= mem.Length then mem[..HEADER_BYTES] else []
    }

    /** One more commit stays clear of the cursor wrap, or the wrap does no harm. */
    ghost predicate Unwrapped()
      reads this`head
    {
      header.slotCount > 0 && (WORD % header.slotCount == 0 || head + 1 < WORD)
    }

    /** The queued frames, read off the mapping. */
    ghost function Contents(): (q: seq<RawFrame>)
      requires Shaped()
      reads this`head, this`tail, mem
      ensures |q| == Occupancy() <= header.slotCount
    {
      QueueIn(header, mem[..], tail, WrappingSub(head, tail))
    }

    /** The payload area of a reservation. */
    ghost function Reserved(lease: u64): (s: seq<u8>)
      requires Shaped()
      reads this`head, this`tail, mem
      ensures |s| == header.payloadCapacity
    {
      SlotBytes(header, mem[..], lease)[64..]
    }

    constructor (plan: Plan)
      requires plan.Planned? && Sound(plan.header, plan.mapLength)
      ensures Valid() && header == plan.header && mem.Length == plan.mapLength && fresh(mem)
      ensures Contents() == [] && dropped == 0 && head == 0 && event == 0
    {
      header := plan.header;
      var fields := EncodeHeader(plan.header);
      mem := new u8[plan.mapLength](i => if 0 <= i < HEADER_FIELDS then fields[i] else 0);
      head, tail, dropped, event := 0, 0, 0, 0;
      new;
      FreshHeader(header, mem[..]);
    }

    /**
      What an endpoint does after a descriptor transfer: read the shape from the
      shared bytes and check it. On a ring that was created here and used through
      these operations, the bytes are those `create` wrote and the check succeeds.
     */
    method Reattach() returns (ok: bool, h: RingHeader)
      requires Valid()
      ensures ok && h == header
    {
      h := DecodeHeader(mem[..]);
      ok := ValidateHeader(h, mem.Length);
    }

    /** The shape, as every operation reads it. */
    method ReadHeader() returns (h: RingHeader)
      requires Valid()
      ensures h == header
    {
      h := DecodeHeader(mem[..]);
    }

    method QueuedFrames() returns (n: u64)
      requires Valid()
      ensures n == |Contents()|
    {
      n := WrappingSub(head, tail);
    }

    method TryReserve() returns (lease: Option<u64>)
      requires Valid()
      modifies this`dropped
      ensures Valid() && Contents() == old(Contents())
      ensures lease.None? <==> |Contents()| == header.slotCount
      ensures lease.Some? ==> lease.value == head && dropped == old(dropped)
      ensures lease.None? ==> dropped == WrappingAdd(old(dropped), 1)
    {
      var h := ReadHeader();
      if WrappingSub(head, tail) >= h.slotCount {
        dropped := WrappingAdd(dropped, 1);
        return None;
      }
      return Some(head);
    }

    /** Copy bytes into the reservation, from `at` on, one at a time. */
    method Store(lease: u64, at: nat, data: seq<u8>)
      requires Valid() && lease == head && |Contents()| < header.slotCount && at + |data| <= 64 + header.payloadCapacity
      modifies mem
      ensures Valid() && Contents() == old(Contents())
      ensures HeaderBytes() == old(HeaderBytes())
      ensures SlotBytes(header, mem[..], lease)
              == old(SlotBytes(header, mem[..], lease)[..at]) + data
                 + old(SlotBytes(header, mem[..], lease)[at + |data|..])
    {
      SlotInside(header, mem.Length, lease);
      var h := ReadHeader();
      var start := SlotStart(h, lease);
      ghost var before := mem[..];
      var i := 0;
      while i < |data|
        invariant 0 <= i <= |data|
        invariant mem.Length == |before|
        invariant forall j | 0 <= j < i :: mem[start + at + j] == data[j]
        invariant forall j | 0 <= j < mem.Length && !(start + at <= j < start + at + i) :: mem[j] == before[j]
      {
        mem[start + at + i] := data[i];
        i := i + 1;
      }
      assert mem[..HEADER_BYTES] == before[..HEADER_BYTES];
      SameHeader(before, mem[..]);
      assert SameElsewhere(header, before, mem[..], head);
      QueueKept(header, before, mem[..], head, tail);
      StoredBytes(header, before, mem[..], lease, at, data);
    }

    /** Copy a payload into the front of the reservation. */
    method Fill(lease: u64, payload: seq<u8>)
      requires Valid() && lease == head && |Contents()| < header.slotCount && |payload| <= header.payloadCapacity
      modifies mem
      ensures Valid() && Contents() == old(Contents()) && HeaderBytes() == old(HeaderBytes())
      ensures Reserved(lease)[..|payload|] == payload
    {
      ghost var slot := SlotBytes(header, mem[..], lease);
      Store(lease, 64, payload);
      assert (slot[..64] + payload + slot[64 + |payload|..])[64..][..|payload|] == payload;
    }

    /** The body of `commit` from the descriptor store on, for a descriptor image already stamped. */
    method PublishImage(lease: u64, image: seq<u8>)
      requires Valid() && lease == head && |Contents()| < header.slotCount
      requires Acceptable(image, header.payloadCapacity)
      modifies this`head, mem
      ensures head == WrappingAdd(old(head), 1) && HeaderBytes() == old(HeaderBytes())
      ensures SlotBytes(header, mem[..], lease) == image + old(Reserved(lease))
      ensures old(Unwrapped()) ==> Valid()
      ensures old(Unwrapped()) ==>
                Contents() == old(Contents()) + [RawFrame(image, old(Reserved(lease)[..Read32(image, 8)]))]
    {
      ghost var slot := SlotBytes(header, mem[..], lease);
      Store(lease, 0, image);
      assert slot[..0] + image + slot[64..] == image + slot[64..];
      AppendImage(header, mem[..], head, tail, image, slot[64..]);
      if Unwrapped() {
        AdvanceHead(header, head, tail);
      }
      head := WrappingAdd(head, 1);
    }

    /** The same for a descriptor yet to be stamped. */
    method PublishStamped(lease: u64, descriptor: FrameDescriptor, payloadBytes: nat)
      requires Valid() && lease == head && |Contents()| < header.slotCount && payloadBytes <= header.payloadCapacity
      modifies this`head, mem
      ensures head == WrappingAdd(old(head), 1) && HeaderBytes() == old(HeaderBytes())
      ensures SlotBytes(header, mem[..], lease) == StampedBytes(descriptor, payloadBytes) + old(Reserved(lease))
      ensures old(Unwrapped()) ==> Shaped()
      ensures old(Unwrapped()) ==>
                Contents() == old(Contents())
                  + [RawFrame(StampedBytes(descriptor, payloadBytes), old(Reserved(lease)[..payloadBytes]))]
    {
      StampedImage(descriptor, payloadBytes, header.payloadCapacity);
      PublishImage(lease, StampedBytes(descriptor, payloadBytes));
    }

    /** `signal_eventfd`: one more wakeup, unless the counter is saturated. */
    method Signal()
      requires event <= RingProtocol.EVENT_MAX
      modifies this`event
      ensures event == if old(event) < RingProtocol.EVENT_MAX then old(event) + 1 else old(event)
    {
      event := if event < RingProtocol.EVENT_MAX then event + 1 else event;
    }

    /**
      `commit`: stamp and store the descriptor, advance `head`, then signal. The
      slot is written in any case; that it joins the queue at its end is promised
      unless this very commit wraps the cursor of a ring whose slot count does
      not divide 2^64.
     */
    method Commit(lease: u64, descriptor: FrameDescriptor, payloadBytes: nat, signalOk: bool) returns (r: CommitResult)
      requires Valid() && lease == head && |Contents()| < header.slotCount
      modifies this`head, this`event, mem
      ensures HeaderBytes() == old(HeaderBytes())
      ensures r.PayloadTooLarge? <==> payloadBytes > header.payloadCapacity
      ensures r.PayloadTooLarge? ==> Valid() && head == old(head) && event == old(event) && mem[..] == old(mem[..])
      ensures !r.PayloadTooLarge? ==>
                && head == WrappingAdd(old(head), 1)
                && SlotBytes(header, mem[..], lease) == StampedBytes(descriptor, payloadBytes) + old(Reserved(lease))
      ensures old(Unwrapped()) ==> Valid()
      ensures old(Unwrapped()) && !r.PayloadTooLarge? ==>
                Contents() == old(Contents())
                  + [RawFrame(StampedBytes(descriptor, payloadBytes), old(Reserved(lease)[..payloadBytes]))]
      ensures r.Committed? <==> payloadBytes <= header.payloadCapacity && signalOk
      ensures event == if r.Committed? && old(event) < RingProtocol.EVENT_MAX then old(event) + 1 else old(event)
    {
      var h := ReadHeader();
      if payloadBytes > h.payloadCapacity {
        return PayloadTooLarge;
      }
      PublishStamped(lease, descriptor, payloadBytes);
      if !signalOk {
        return SignalFailed;
      }
      Signal();
      return Committed;
    }

    /** `try_push_copy`: reserve, copy, commit. An oversized payload costs the reservation and nothing else. */
    method TryPushCopy(descriptor: FrameDescriptor, payload: seq<u8>, signalOk: bool) returns (r: Pushed)
      requires Valid()
      modifies this`head, this`event, this`dropped, mem
      ensures HeaderBytes() == old(HeaderBytes())
      ensures r.RingFull? <==> |old(Contents())| == header.slotCount
      ensures r.TooLarge? <==> !r.RingFull? && |payload| > header.payloadCapacity
      ensures r.Accepted? <==> !r.RingFull? && !r.TooLarge? && signalOk
      ensures r.NotSignalled? <==> !r.RingFull? && !r.TooLarge? && !signalOk
      ensures event == if r.Accepted? && old(event) < RingProtocol.EVENT_MAX then old(event) + 1 else old(event)
      ensures dropped == if r.RingFull? then WrappingAdd(old(dropped), 1) else old(dropped)
      ensures old(Unwrapped()) || r.RingFull? || r.TooLarge? ==> Valid()
      ensures r.RingFull? || r.TooLarge? ==> Contents() == old(Contents())
      ensures old(Unwrapped()) && (r.Accepted? || r.NotSignalled?) ==>
                Contents() == old(Contents()) + [RawFrame(StampedBytes(descriptor, |payload|), payload)]
    {
      var lease := TryReserve();
      if lease.None? {
        return RingFull;
      }
      var h := ReadHeader();
      if |payload| > h.payloadCapacity {
        return TooLarge;
      }
      Fill(lease.value, payload);
      var c := Commit(lease.value, descriptor, |payload|, signalOk);
      return if c.Committed? then Accepted else NotSignalled;
    }

    /** `try_acquire`: the checks on the descriptor never fail on a ring written through `Commit`. */
    method TryAcquire() returns (r: Acquired)
      requires Valid()
      ensures !r.Corrupt?
      ensures r.Nothing? <==> Contents() == []
      ensures r.Lease? ==> r.tail == tail && r.image == Contents()[0].image
      ensures r.Lease? ==> Acceptable(r.image, header.payloadCapacity)
    {
      CursorAhead(head, tail);
      if tail == head {
        return Nothing;
      }
      FirstEntry(header, mem[..], tail);
      var h := ReadHeader();
      var start := SlotStart(h, tail);
      var image := mem[start..start + 64];
      if !Acceptable(image, h.payloadCapacity) {
        return Corrupt;
      }
      return Lease(tail, image);
    }

    /** The immutable payload slice of a frame lease. */
    method ReadPayload(lease: Acquired) returns (bytes: seq<u8>)
      requires Valid() && lease.Lease? && lease.tail == tail && Contents() != []
      requires lease.image == Contents()[0].image && Acceptable(lease.image, header.payloadCapacity)
      ensures bytes == Contents()[0].payload && |bytes| == Read32(lease.image, 8)
    {
      SlotInside(header, mem.Length, tail);
      var h := ReadHeader();
      var start := SlotStart(h, tail);
      bytes := mem[start + 64..start + 64 + Read32(lease.image, 8)];
      LeasedPayload(header, mem[..], tail, WrappingSub(head, tail));
    }

    /** Dropping the lease. */
    method Release(lease: Acquired)
      requires Valid() && lease.Lease? && lease.tail == tail && Contents() != []
      modifies this`tail
      ensures Valid() && Contents() == old(Contents())[1..]
    {
      QueueDrops(header, mem[..], tail, WrappingSub(head, tail));
      AdvanceTail(header, head, tail);
      tail := WrappingAdd(lease.tail, 1);
    }
  }

  lemma FreshHeader(h: RingHeader, m: seq<u8>)
    requires HEADER_BYTES <= |m| && forall i | 0 <= i < HEADER_FIELDS :: m[i] == EncodeHeader(h)[i]
    ensures DecodeHeader(m) == h
  {
    assert m[..HEADER_FIELDS] == EncodeHeader(h);
    DecodeEncodeHeader(h, m);
  }

  lemma SameHeader(m: seq<u8>, m': seq<u8>)
    requires HEADER_BYTES <= |m| == |m'| && m[..HEADER_BYTES] == m'[..HEADER_BYTES]
    ensures DecodeHeader(m) == DecodeHeader(m')
  {
    assert m[..HEADER_FIELDS] == m[..HEADER_BYTES][..HEADER_FIELDS];
    assert m'[..HEADER_FIELDS] == m'[..HEADER_BYTES][..HEADER_FIELDS];
    HeaderKept(m, m');
  }

  lemma StoredBytes(h: RingHeader, m: seq<u8>, m': seq<u8>, cursor: u64, at: nat, data: seq<u8>)
    requires Sound(h, |m|) && |m'| == |m| && at + |data| <= 64 + h.payloadCapacity
    requires SlotStart(h, cursor) + 64 + h.payloadCapacity <= |m|
    requires forall j | 0 <= j < |data| :: m'[SlotStart(h, cursor) + at + j] == data[j]
    requires var start := SlotStart(h, cursor) + at;
             forall j | 0 <= j < |m| && !(start <= j < start + |data|) :: m'[j] == m[j]
    ensures SlotBytes(h, m', cursor) == SlotBytes(h, m, cursor)[..at] + data + SlotBytes(h, m, cursor)[at + |data|..]
  {
    var start := SlotStart(h, cursor);
    var goal := SlotBytes(h, m, cursor)[..at] + data + SlotBytes(h, m, cursor)[at + |data|..];
    forall j | 0 <= j < 64 + h.payloadCapacity
      ensures SlotBytes(h, m', cursor)[j] == goal[j]
    {
      assert SlotBytes(h, m', cursor)[j] == m'[start + j];
      if at <= j < at + |data| {
        assert m'[start + at + (j - at)] == data[j - at];
      }
    }
  }

  lemma StampedImage(d: FrameDescriptor, n: nat, capacity: nat)
    requires n <= capacity < U32_LIMIT
    ensures Acceptable(StampedBytes(d, n), capacity) && Read32(StampedBytes(d, n), 8) == n
  {
    var e := Stamp(d, n);
    DecodeEncode(e, NO_PADDING);
    StampedIsAcceptable(e, n, Encode(e, NO_PADDING), capacity);
  }

  lemma FrameInParts(image: seq<u8>, payload: seq<u8>)
    requires Acceptable(image, |payload|)
    ensures RingFifo.FrameIn(image + payload) == RawFrame(image, payload[..Read32(image, 8)])
    ensures (image + payload)[..64] == image
  {
    var slot := image + payload;
    var n := Read32(image, 8);
    assert slot[8..12] == image[8..12];
    assert slot[64..64 + n] == payload[..n];
  }

  /** A slot holding a whole frame, taken into the window. */
  lemma AppendImage(h: RingHeader, m: seq<u8>, head: u64, tail: u64, image: seq<u8>, payload: seq<u8>)
    requires Sound(h, |m|) && |payload| == h.payloadCapacity && Acceptable(image, h.payloadCapacity)
    requires SlotBytes(h, m, head) == image + payload && AllAcceptable(h, m, tail, WrappingSub(head, tail))
    ensures var n := WrappingSub(head, tail);
            QueueIn(h, m, tail, n + 1) == QueueIn(h, m, tail, n) + [RawFrame(image, payload[..Read32(image, 8)])]
            && AllAcceptable(h, m, tail, n + 1)
  {
    var n := WrappingSub(head, tail);
    CursorAhead(head, tail);
    assert Entry(h, m, tail, n) == image + payload;
    FrameInParts(image, payload);
    QueueAppends(h, m, tail, n);
  }

  lemma SlotPayload(h: RingHeader, m: seq<u8>, cursor: u64, n: nat)
    requires Sound(h, |m|) && n <= h.payloadCapacity
    ensures var start := SlotStart(h, cursor);
            start + 64 + n <= |m| && SlotBytes(h, m, cursor)[64..64 + n] == m[start + 64..start + 64 + n]
  {
    SlotInside(h, |m|, cursor);
    SliceOfSlice(m, SlotStart(h, cursor), 64 + h.payloadCapacity, 64, 64 + n);
  }

  /** The first 64 bytes of the oldest slot are its descriptor image. */
  lemma FirstEntry(h: RingHeader, m: seq<u8>, tail: u64)
    requires Sound(h, |m|)
    ensures SlotStart(h, tail) + 64 <= |m|
    ensures Entry(h, m, tail, 0)[..64] == m[SlotStart(h, tail)..SlotStart(h, tail) + 64]
  {
    SlotInside(h, |m|, tail);
    SliceOfSlice(m, SlotStart(h, tail), 64 + h.payloadCapacity, 0, 64);
  }

  lemma LeasedPayload(h: RingHeader, m: seq<u8>, tail: u64, n: nat)
    requires Sound(h, |m|) && 0 < n && AllAcceptable(h, m, tail, n)
    ensures var start := SlotStart(h, tail);
            var f := QueueIn(h, m, tail, n)[0];
            Acceptable(f.image, h.payloadCapacity)
            && start + 64 + Read32(f.image, 8) <= |m|
            && f.payload == m[start + 64..start + 64 + Read32(f.image, 8)]
  {
    var slot := Entry(h, m, tail, 0);
    assert slot == SlotBytes(h, m, tail);
    assert Acceptable(slot[..64], h.payloadCapacity);
    assert slot[..64][8..12] == slot[8..12];
    SlotPayload(h, m, tail, Read32(slot, 8));
  }
}
