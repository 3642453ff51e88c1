/**
  The two PipeWire pump loops as programs over the ring of sixteen slots that
  they create: one feeds peer PCM into a ring, the other empties a ring into
  the host stream. The other endpoint of each ring is arbitrary, and so is the
  interleaving with it.
 */
module RingPumps {
  import opened Words
  import opened Cursors
  import opened Frames
  import opened RingProtocol
  import opened RingFifo

  const PUMP_SLOTS: nat := 16

  function Joined(blocks: seq<seq<u8>>): (s: seq<u8>) {
    if blocks == [] then [] else blocks[0] + Joined(blocks[1..])
  }

  // ---------------------------------------------------------------------------
  // The consumer of a ring
  // ---------------------------------------------------------------------------

  /** The lease's payload was read from end to end. */
  predicate ReadInFull(r: Received) {
    |r.image| == 64 && forall i: nat | i < Read32(r.image, 8) :: i in r.seen
  }

  function PayloadOf(r: Received): (s: seq<u8>)
    requires ReadInFull(r)
  {
    seq(Read32(r.image, 8), (i: nat) requires i < Read32(r.image, 8) => r.seen[i])
  }

  /** What a consumer that copies out every payload has written. */
  function Written(rs: seq<Received>): (s: seq<u8>)
    requires forall r | r in rs :: ReadInFull(r)
  {
    if rs == [] then [] else PayloadOf(rs[0]) + Written(rs[1..])
  }

  /** The consumer gives no frame back before it has read all of it. */
  ghost predicate ReadsAll(trace: seq<State>, steps: seq<Step>) {
    |trace| == |steps| + 1 &&
    forall i | 0 <= i < |steps| && steps[i].Release? ::
      trace[i].consumer.Holding? && ReadInFull(Received(trace[i].consumer.image, trace[i].consumer.seen))
  }

  lemma {:induction false} AllRead(p: Params, trace: seq<State>, steps: seq<Step>, i: nat)
    requires Run(p, trace, steps) && ReadsAll(trace, steps) && i < |trace|
    ensures forall r | r in trace[i].delivered :: ReadInFull(r)
  {
    if i > 0 {
      AllRead(p, trace, steps, i - 1);
    }
  }

  lemma FullReadIsPayload(r: Received, f: RawFrame, capacity: nat)
    requires ReadInFull(r) && Faithful(r, f) && WellFormed(f, capacity)
    ensures PayloadOf(r) == f.payload
  {
  }

  function Payloads(frames: seq<RawFrame>): (s: seq<seq<u8>>)
    ensures |s| == |frames|
  {
    seq(|frames|, i requires 0 <= i < |frames| => frames[i].payload)
  }

  predicate Carries(r: Received, f: RawFrame) {
    ReadInFull(r) && PayloadOf(r) == f.payload
  }

  lemma {:induction false} WrittenIsJoined(rs: seq<Received>, fs: seq<RawFrame>)
    requires |rs| <= |fs| && (forall r | r in rs :: ReadInFull(r))
    requires forall k | 0 <= k < |rs| :: Carries(rs[k], fs[k])
    ensures Written(rs) <= Joined(Payloads(fs))
  {
    if rs != [] {
      assert Carries(rs[0], fs[0]);
      WrittenIsJoined(rs[1..], fs[1..]);
      assert Payloads(fs)[1..] == Payloads(fs[1..]);
    }
  }

  /** Sixteen divides 2^64, so no run of a pump has to stop short of the wrap. */
  lemma PumpsNeverWrapBadly(p: Params, trace: seq<State>)
    requires p.slots == PUMP_SLOTS
    ensures RunCoherent(p, trace)
  {
  }

  /**
    `pump_ring_to_host`: the host stream is a prefix of the committed payloads,
    end to end, whoever commits them and however the two sides interleave; and
    the descriptor it checks before each write is that of the frame due next.
   */
  lemma HostStreamIsPrefix(p: Params, trace: seq<State>, steps: seq<Step>, i: nat)
    requires Run(p, trace, steps) && p.slots == PUMP_SLOTS && ReadsAll(trace, steps) && i < |trace|
    ensures forall r | r in trace[i].delivered :: ReadInFull(r)
    ensures Written(trace[i].delivered) <= Joined(Payloads(trace[i].committed))
    ensures trace[i].consumer.Holding? ==>
              |trace[i].delivered| < |trace[i].committed|
              && trace[i].consumer.image == trace[i].committed[|trace[i].delivered|].image
  {
    var s := trace[i];
    PumpsNeverWrapBadly(p, trace);
    RunInv(p, trace, steps, i);
    AllRead(p, trace, steps, i);
    forall k | 0 <= k < |s.delivered|
      ensures Carries(s.delivered[k], s.committed[k])
    {
      assert Faithful(s.delivered[k], s.committed[k]);
      FullReadIsPayload(s.delivered[k], s.committed[k], p.capacity);
    }
    WrittenIsJoined(s.delivered, s.committed);
  }

  // ---------------------------------------------------------------------------
  // The producer of a ring
  // ---------------------------------------------------------------------------

  /** The local state of `pump_peer_to_ring`. */
  datatype Pump = Pump(
    sequence: u64,
    consumed: nat,    // bytes taken from the peer's socket
    filled: nat,      // of these, bytes stored in the slot now reserved
    ended: bool)      // overrun, read error or commit error: the loop has returned

  const PUMP_START := Pump(0, 0, 0, false)

  datatype Pumping = Pumping(ring: State, pump: Pump)

  /**
    What the program lets its endpoint do next; `bytes` is the interval and
    `peer` all the peer will ever send. An interval longer than a slot panics
    before anything is read into it.
   */
  predicate PumpAllows(p: Params, bytes: nat, peer: seq<u8>, u: Pump, step: Step) {
    match step
    case LoadHead => !u.ended
    case WriteByte(offset, value) =>
      bytes <= p.capacity && offset == u.filled < bytes && u.consumed < |peer| && value == peer[u.consumed]
    case Commit(d, n, _) =>
      && bytes <= p.capacity && u.filled == bytes && n == bytes
      && d.payloadKind == PAYLOAD_KIND_PCM && d.sequence == u.sequence
    case _ => true
  }

  function PumpAfter(u: Pump, step: Step): (v: Pump) {
    match step
    case LoadHead => u.(filled := 0)
    case CountDrop => u.(ended := true)
    case WriteByte(_, _) => u.(consumed := u.consumed + 1, filled := u.filled + 1)
    case Abandon => u.(ended := true)
    case Signal(ok) => if ok then u.(sequence := WrappingAdd(u.sequence, 1)) else u.(ended := true)
    case _ => u
  }

  /** Each step of the ring taken while the pump runs on its producer side. */
  predicate PumpStep(p: Params, bytes: nat, peer: seq<u8>, s: Pumping, step: Step, t: Pumping) {
    && Enabled(p, s.ring, step) && PumpAllows(p, bytes, peer, s.pump, step)
    && t == Pumping(Apply(p, s.ring, step), PumpAfter(s.pump, step))
  }

  ghost predicate PumpRun(p: Params, bytes: nat, peer: seq<u8>, trace: seq<Pumping>, steps: seq<Step>) {
    && |trace| == |steps| + 1 && Init(p, trace[0].ring) && trace[0].pump == PUMP_START
    && forall i | 0 <= i < |steps| :: PumpStep(p, bytes, peer, trace[i], steps[i], trace[i + 1])
  }

  function Rings(trace: seq<Pumping>): (r: seq<State>)
    ensures |r| == |trace| && forall i | 0 <= i < |trace| :: r[i] == trace[i].ring
  {
    seq(|trace|, i requires 0 <= i < |trace| => trace[i].ring)
  }

  /** A frame the pump announces as number k. */
  predicate IsNumber(f: RawFrame, k: nat, bytes: nat) {
    && |f.image| == 64 && |f.payload| == bytes
    && Decode(f.image).payloadKind == PAYLOAD_KIND_PCM && Decode(f.image).sequence == Wrap(k)
  }

  predicate Numbered(s: State, bytes: nat) {
    && (forall k | 0 <= k < |s.committed| :: IsNumber(s.committed[k], k, bytes))
    && (s.producer.Describing? ==> IsNumber(s.producer.frame, |s.committed|, bytes))
  }

  /** The local counter is the number of the frame the pump is at. */
  predicate Counting(s: State, u: Pump) {
    && (u.ended ==> s.producer.Free?)
    && (!u.ended ==> (if s.producer.Published? then WrappingAdd(u.sequence, 1) else u.sequence) == Wrap(|s.committed|))
  }

  /** The bytes committed so far. */
  function Sent(s: State): (b: seq<u8>) {
    Joined(Payloads(s.committed))
  }

  /** What the pump has taken from the peer is what it has committed, then what lies in the slot it is at. */
  predicate Streaming(p: Params, bytes: nat, peer: seq<u8>, s: State, u: Pump)
    requires ValidParams(p) && Shape(p, s)
  {
    var sent := Sent(s);
    && sent <= peer && |sent| <= u.consumed <= |peer| && u.consumed <= |sent| + bytes
    && u.filled <= bytes && u.filled <= p.capacity
    && match s.producer
       case HeadLoaded(_) => u.filled == 0 && u.consumed == |sent|
       case Leased(h) => peer[|sent|..u.consumed] == SlotAt(p, s, h)[64..64 + u.filled]
       case Describing(h, f, _) => peer[|sent|..u.consumed] == f.payload
       case _ => !u.ended ==> u.consumed == |sent|
  }

  predicate PumpInv(p: Params, bytes: nat, peer: seq<u8>, s: Pumping) {
    && ValidParams(p) && Shape(p, s.ring)
    && Numbered(s.ring, bytes) && Counting(s.ring, s.pump) && Streaming(p, bytes, peer, s.ring, s.pump)
  }

  lemma StepNumbered(p: Params, bytes: nat, peer: seq<u8>, s: Pumping, step: Step, t: Pumping)
    requires PumpStep(p, bytes, peer, s, step, t)
    requires Numbered(s.ring, bytes) && Counting(s.ring, s.pump)
    ensures Numbered(t.ring, bytes) && Counting(t.ring, t.pump)
  {
    if step.Publish? {
      NextNumber(s.pump.sequence, |s.ring.committed|);
    } else if !step.Commit? && !step.DescribeByte? {
      assert !t.ring.producer.Describing? || t.ring.producer == s.ring.producer;
    }
  }

  lemma NextNumber(sequence: u64, k: nat)
    requires sequence == Wrap(k)
    ensures WrappingAdd(sequence, 1) == Wrap(k + 1)
  {
    NextCursor(k);
  }

  lemma {:induction false} JoinedOneMore(blocks: seq<seq<u8>>, block: seq<u8>)
    ensures Joined(blocks + [block]) == Joined(blocks) + block
  {
    if blocks == [] {
      assert blocks + [block] == [block];
      assert Joined([block][1..]) == [];
    } else {
      JoinedOneMore(blocks[1..], block);
      assert (blocks + [block])[1..] == blocks[1..] + [block];
    }
  }

  lemma SentOneMore(s: State, f: RawFrame)
    ensures Joined(Payloads(s.committed + [f])) == Sent(s) + f.payload
  {
    assert Payloads(s.committed + [f]) == Payloads(s.committed) + [f.payload];
    JoinedOneMore(Payloads(s.committed), f.payload);
  }

  /** The byte just read goes behind those already in the slot. */
  lemma FillOne(slot: seq<u8>, filled: nat, value: u8)
    requires 64 + filled < |slot|
    ensures slot[64 + filled := value][64..64 + (filled + 1)] == slot[64..64 + filled] + [value]
  {
  }

  lemma StepFills(p: Params, bytes: nat, peer: seq<u8>, s: Pumping, step: Step, t: Pumping)
    requires PumpStep(p, bytes, peer, s, step, t) && step.WriteByte?
    requires Streaming(p, bytes, peer, s.ring, s.pump)
    ensures Streaming(p, bytes, peer, t.ring, t.pump)
  {
    var slot := SlotAt(p, s.ring, s.ring.producer.head);
    var u := s.pump;
    var from := |Sent(s.ring)|;
    FillOne(slot, u.filled, step.value);
    assert SlotAt(p, t.ring, s.ring.producer.head) == slot[64 + u.filled := step.value];
    assert peer[from..u.consumed + 1] == peer[from..u.consumed] + [peer[u.consumed]];
    assert |peer[from..u.consumed]| == u.filled;
  }

  lemma StepSends(p: Params, bytes: nat, peer: seq<u8>, s: Pumping, t: Pumping)
    requires PumpStep(p, bytes, peer, s, Publish, t)
    requires Streaming(p, bytes, peer, s.ring, s.pump)
    ensures Streaming(p, bytes, peer, t.ring, t.pump)
  {
    var f := s.ring.producer.frame;
    var from := |Sent(s.ring)|;
    SentOneMore(s.ring, f);
    assert Sent(t.ring) == Sent(s.ring) + f.payload;
    assert peer[..s.pump.consumed] == peer[..from] + peer[from..s.pump.consumed];
  }

  /** Every other step leaves the committed bytes and the slot in hand alone. */
  lemma StepKeepsStream(p: Params, bytes: nat, peer: seq<u8>, s: Pumping, step: Step, t: Pumping)
    requires PumpStep(p, bytes, peer, s, step, t) && !step.WriteByte? && !step.Publish?
    requires Streaming(p, bytes, peer, s.ring, s.pump) && (s.pump.ended ==> s.ring.producer.Free?)
    ensures Streaming(p, bytes, peer, t.ring, t.pump)
  {
    assert Sent(t.ring) == Sent(s.ring);
    if !step.DescribeByte? {
      assert t.ring.slots == s.ring.slots;
    }
  }

  lemma StepStreams(p: Params, bytes: nat, peer: seq<u8>, s: Pumping, step: Step, t: Pumping)
    requires PumpStep(p, bytes, peer, s, step, t) && PumpInv(p, bytes, peer, s)
    ensures Streaming(p, bytes, peer, t.ring, t.pump)
  {
    if step.WriteByte? {
      StepFills(p, bytes, peer, s, step, t);
    } else if step.Publish? {
      StepSends(p, bytes, peer, s, t);
    } else {
      StepKeepsStream(p, bytes, peer, s, step, t);
    }
  }

  lemma PumpStart(p: Params, bytes: nat, peer: seq<u8>, s: Pumping)
    requires Init(p, s.ring) && s.pump == PUMP_START
    ensures PumpInv(p, bytes, peer, s)
  {
  }

  lemma StepShape(p: Params, s: State, step: Step)
    requires Enabled(p, s, step)
    ensures ValidParams(p) && Shape(p, Apply(p, s, step))
  {
  }

  lemma StepPumps(p: Params, bytes: nat, peer: seq<u8>, s: Pumping, step: Step, t: Pumping)
    requires PumpStep(p, bytes, peer, s, step, t) && PumpInv(p, bytes, peer, s)
    ensures PumpInv(p, bytes, peer, t)
  {
    StepShape(p, s.ring, step);
    StepNumbered(p, bytes, peer, s, step, t);
    StepStreams(p, bytes, peer, s, step, t);
  }

  lemma {:induction false} RunPumps(p: Params, bytes: nat, peer: seq<u8>, trace: seq<Pumping>, steps: seq<Step>, i: nat)
    requires PumpRun(p, bytes, peer, trace, steps) && i < |trace|
    ensures PumpInv(p, bytes, peer, trace[i])
  {
    if i == 0 {
      PumpStart(p, bytes, peer, trace[0]);
    } else {
      RunPumps(p, bytes, peer, trace, steps, i - 1);
      StepPumps(p, bytes, peer, trace[i - 1], steps[i - 1], trace[i]);
    }
  }

  lemma RingsRun(p: Params, bytes: nat, peer: seq<u8>, trace: seq<Pumping>, steps: seq<Step>)
    requires PumpRun(p, bytes, peer, trace, steps)
    ensures Run(p, Rings(trace), steps)
  {
    var rings := Rings(trace);
    forall i | 0 <= i < |steps|
      ensures Enabled(p, rings[i], steps[i]) && rings[i + 1] == Apply(p, rings[i], steps[i])
    {
      assert PumpStep(p, bytes, peer, trace[i], steps[i], trace[i + 1]);
    }
  }

  /** The k-th lease of a consumer fed by the pump: PCM, and number k. */
  predicate InSequence(r: Received, k: nat) {
    |r.image| == 64 && Decode(r.image).sequence == Wrap(k) && Decode(r.image).payloadKind == PAYLOAD_KIND_PCM
  }

  lemma DeliveredInSequence(p: Params, s: State, bytes: nat, k: nat)
    requires DeliversPrefix(p, s) && Numbered(s, bytes) && k < |s.delivered|
    ensures InSequence(s.delivered[k], k)
  {
    assert Faithful(s.delivered[k], s.committed[k]);
    assert IsNumber(s.committed[k], k, bytes);
  }

  /**
    From the peer's socket to the consumer: a consumer that reads its leases in
    full receives a prefix of the peer's byte stream, in PCM frames numbered
    0, 1, 2, ... without a gap; and the ring holds all the pump has taken from
    the socket but at most one interval.
   */
  lemma PeerStreamArrives(p: Params, bytes: nat, peer: seq<u8>, trace: seq<Pumping>, steps: seq<Step>, i: nat)
    requires PumpRun(p, bytes, peer, trace, steps) && p.slots == PUMP_SLOTS && i < |trace|
    requires ReadsAll(Rings(trace), steps)
    ensures forall r | r in trace[i].ring.delivered :: ReadInFull(r)
    ensures Written(trace[i].ring.delivered) <= Sent(trace[i].ring) <= peer
    ensures |Sent(trace[i].ring)| <= trace[i].pump.consumed <= |Sent(trace[i].ring)| + bytes
    ensures forall k | 0 <= k < |trace[i].ring.delivered| :: InSequence(trace[i].ring.delivered[k], k)
  {
    var rings := Rings(trace);
    RingsRun(p, bytes, peer, trace, steps);
    HostStreamIsPrefix(p, rings, steps, i);
    RunPumps(p, bytes, peer, trace, steps, i);
    PumpsNeverWrapBadly(p, rings);
    RunDeliversPrefix(p, rings, steps, i);
    forall k | 0 <= k < |rings[i].delivered|
      ensures InSequence(rings[i].delivered[k], k)
    {
      DeliveredInSequence(p, rings[i], bytes, k);
    }
  }
}
