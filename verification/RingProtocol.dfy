/**
  The lock-free single-producer/single-consumer ring as an interleaved step
  system. Every cursor load, every byte of payload or descriptor, every cursor
  store, the eventfd signal and the eventfd drain is a step of its own, and the
  two sides may be scheduled in any order.

  A cursor load may be stale: it returns any value the other side's cursor has
  held, provided it is no older than what the loading side has already seen.
  Draining the eventfd shows the consumer every cursor store that was signalled.
 */
module RingProtocol {
  import opened Words
  import opened Cursors
  import opened Frames

  const EVENT_MAX: nat := WORD - 2

  datatype Params = Params(slots: nat, capacity: nat)

  predicate ValidParams(p: Params) {
    2 <= p.slots < U32_LIMIT && 0 < p.capacity < U32_LIMIT
  }

  datatype ProducerPc =
    | Free                                                      // no reservation
    | HeadLoaded(head: u64)                                     // try_reserve has read its own cursor
    | Full                                                      // decided to drop, counter not yet bumped
    | Leased(head: u64)                                         // holds a writable slot
    | Describing(head: u64, frame: RawFrame, done: nat)           // commit is writing the descriptor
    | Published                                                 // head stored, eventfd not yet signalled

  datatype ConsumerPc =
    | Ready
    | TailLoaded(tail: u64)
    | Empty                                                     // try_acquire saw equal cursors
    | Reading(tail: u64, image: seq<u8>)                        // copying the descriptor out
    | Holding(tail: u64, image: seq<u8>, seen: map<nat, u8>)    // a frame lease and the payload bytes looked at
    | Waiting(checked: bool)                                    // in wait_readable; checked: straight from Empty

  /** What the reader of one lease observed: the descriptor and the payload bytes it looked at. */
  datatype Received = Received(image: seq<u8>, seen: map<nat, u8>)

  /**
    Shared memory and the two program counters, followed by history. History
    says which cursor values a load may return: `LoadTail(k)` loads the value
    the tail had after k releases, `LoadPublished(k)` the head after k commits,
    and neither falls behind what that side has already seen.
   */
  datatype State = State(
    slots: seq<seq<u8>>,
    head: u64,
    tail: u64,
    dropped: u64,
    event: nat,
    producer: ProducerPc,
    consumer: ConsumerPc,
    committed: seq<RawFrame>,
    delivered: seq<Received>,
    producerSaw: nat,       // releases the producer has observed
    consumerSaw: nat,       // commits the consumer has observed
    signalled: nat,         // commits announced on the eventfd
    attempts: nat,
    refused: nat,
    abandoned: nat,
    signalErrors: nat,
    acquireErrors: nat)

  datatype Step =
    | LoadHead
    | LoadTail(releases: nat)
    | CountDrop
    | WriteByte(offset: nat, value: u8)
    | Abandon
    | Commit(descriptor: FrameDescriptor, payloadBytes: nat, image: seq<u8>)
    | DescribeByte
    | Publish
    | Signal(ok: bool)
    | LoadOwnTail
    | LoadPublished(commits: nat)
    | ReadDescriptorByte
    | CheckDescriptor
    | ReadPayloadByte(offset: nat)
    | Release
    | GiveUp
    | Wait
    | Drain

  predicate Shape(p: Params, s: State) {
    |s.slots| == p.slots && forall i | 0 <= i < |s.slots| :: |s.slots[i]| == 64 + p.capacity
  }

  ghost predicate Init(p: Params, s: State) {
    ValidParams(p) && Shape(p, s) && s == State(s.slots, 0, 0, 0, 0, Free, Ready, [], [], 0, 0, 0, 0, 0, 0, 0, 0)
  }

  function SlotAt(p: Params, s: State, cursor: u64): (slot: seq<u8>)
    requires ValidParams(p) && Shape(p, s)
    ensures |slot| == 64 + p.capacity
  {
    s.slots[SlotOf(cursor, p.slots)]
  }

  function Poke(p: Params, s: State, cursor: u64, at: nat, value: u8): (t: State)
    requires ValidParams(p) && Shape(p, s) && at < 64 + p.capacity
    ensures Shape(p, t)
  {
    var k := SlotOf(cursor, p.slots);
    var slot: seq<u8> := s.slots[k][at := value];
    s.(slots := s.slots[k := slot])
  }

  predicate Enabled(p: Params, s: State, step: Step) {
    ValidParams(p) && Shape(p, s) &&
    match step
    case LoadHead => s.producer.Free?
    case LoadTail(k) => s.producer.HeadLoaded? && s.producerSaw <= k <= |s.delivered|
    case CountDrop => s.producer.Full?
    case WriteByte(offset, _) => s.producer.Leased? && offset < p.capacity
    case Abandon => s.producer.Leased?
    case Commit(d, n, image) =>
      s.producer.Leased? && |image| == 64 && (n <= p.capacity ==> Decode(image) == Stamp(d, n))
    case DescribeByte => s.producer.Describing? && s.producer.done < 64 && |s.producer.frame.image| == 64
    case Publish => s.producer.Describing? && s.producer.done == 64
    case Signal(_) => s.producer.Published?
    case LoadOwnTail => s.consumer.Ready?
    case LoadPublished(k) => s.consumer.TailLoaded? && s.consumerSaw <= k <= |s.committed|
    case ReadDescriptorByte => s.consumer.Reading? && |s.consumer.image| < 64
    case CheckDescriptor => s.consumer.Reading? && |s.consumer.image| == 64
    case ReadPayloadByte(offset) =>
      s.consumer.Holding? && Acceptable(s.consumer.image, p.capacity) && offset < Read32(s.consumer.image, 8)
    case Release => s.consumer.Holding?
    case GiveUp => s.consumer.Empty?
    case Wait => s.consumer.Empty? || s.consumer.Ready?
    case Drain => s.consumer.Waiting? && s.event > 0
  }

  /** The release store of `head` in `commit`: the one point of publication. */
  function AfterPublish(s: State): (t: State)
    requires s.producer.Describing?
  {
    s.(producer := Published, head := WrappingAdd(s.producer.head, 1), committed := s.committed + [s.producer.frame])
  }

  /** Dropping the frame lease gives its slot back. */
  function AfterRelease(s: State): (t: State)
    requires s.consumer.Holding?
  {
    var pc := s.consumer;
    s.(consumer := Ready, tail := WrappingAdd(pc.tail, 1), delivered := s.delivered + [Received(pc.image, pc.seen)])
  }

  function Apply(p: Params, s: State, step: Step): (t: State)
    requires Enabled(p, s, step)
  {
    match step
    case LoadHead => s.(producer := HeadLoaded(s.head), attempts := s.attempts + 1)
    case LoadTail(k) =>
      var head := s.producer.head;
      if WrappingSub(head, Wrap(k)) >= p.slots
      then s.(producer := Full, producerSaw := k)
      else s.(producer := Leased(head), producerSaw := k)
    case CountDrop => s.(producer := Free, dropped := WrappingAdd(s.dropped, 1), refused := s.refused + 1)
    case WriteByte(offset, value) => Poke(p, s, s.producer.head, 64 + offset, value)
    case Abandon => s.(producer := Free, abandoned := s.abandoned + 1)
    case Commit(_, n, image) =>
      if n > p.capacity then s.(producer := Free, abandoned := s.abandoned + 1)
      else
        var payload := SlotAt(p, s, s.producer.head)[64..64 + n];
        s.(producer := Describing(s.producer.head, RawFrame(image, payload), 0))
    case DescribeByte =>
      var pc := s.producer;
      Poke(p, s, pc.head, pc.done, pc.frame.image[pc.done]).(producer := Describing(pc.head, pc.frame, pc.done + 1))
    case Publish => AfterPublish(s)
    case Signal(ok) =>
      if ok
      then s.(producer := Free, signalled := |s.committed|,
              event := if s.event < EVENT_MAX then s.event + 1 else s.event)
      else s.(producer := Free, signalErrors := s.signalErrors + 1)
    case LoadOwnTail => s.(consumer := TailLoaded(s.tail))
    case LoadPublished(k) =>
      var tail := s.consumer.tail;
      s.(consumer := if tail == Wrap(k) then Empty else Reading(tail, []), consumerSaw := k)
    case ReadDescriptorByte =>
      var pc := s.consumer;
      s.(consumer := Reading(pc.tail, pc.image + [SlotAt(p, s, pc.tail)[|pc.image|]]))
    case CheckDescriptor =>
      if Acceptable(s.consumer.image, p.capacity)
      then s.(consumer := Holding(s.consumer.tail, s.consumer.image, map[]))
      else s.(consumer := Ready, acquireErrors := s.acquireErrors + 1)
    case ReadPayloadByte(offset) =>
      var pc := s.consumer;
      s.(consumer := Holding(pc.tail, pc.image, pc.seen[offset := SlotAt(p, s, pc.tail)[64 + offset]]))
    case Release => AfterRelease(s)
    case GiveUp => s.(consumer := Ready)
    case Wait => s.(consumer := Waiting(s.consumer.Empty?))
    case Drain =>
      s.(consumer := Ready, event := 0,
         consumerSaw := if s.signalled > s.consumerSaw then s.signalled else s.consumerSaw)
  }

  // ---------------------------------------------------------------------------
  // The invariant
  // ---------------------------------------------------------------------------

  /** Slot bytes that hold exactly the frame `f`. */
  predicate Holds(slot: seq<u8>, f: RawFrame) {
    |f.image| == 64 && 64 + |f.payload| <= |slot| && slot[..64] == f.image && slot[64..64 + |f.payload|] == f.payload
  }

  /** Everything the reader looked at is what was committed. */
  predicate Faithful(r: Received, f: RawFrame) {
    r.image == f.image && forall i | i in r.seen :: i < |f.payload| && r.seen[i] == f.payload[i]
  }

  predicate Counts(p: Params, s: State) {
    && s.head == Wrap(|s.committed|) && s.tail == Wrap(|s.delivered|)
    && s.producerSaw <= |s.delivered| <= s.consumerSaw <= |s.committed| <= s.producerSaw + p.slots
  }

  /** Committed frames not yet released are intact in their slots. */
  predicate Unread(p: Params, s: State)
    requires ValidParams(p) && Shape(p, s)
  {
    forall k | |s.delivered| <= k < |s.committed| :: Holds(SlotAt(p, s, Wrap(k)), s.committed[k])
  }

  predicate AllWellFormed(p: Params, s: State) {
    forall k | 0 <= k < |s.committed| :: WellFormed(s.committed[k], p.capacity)
  }

  predicate AllFaithful(s: State) {
    |s.delivered| <= |s.committed| && forall k | 0 <= k < |s.delivered| :: Faithful(s.delivered[k], s.committed[k])
  }

  predicate ProducerOk(p: Params, s: State)
    requires ValidParams(p) && Shape(p, s)
  {
    match s.producer
    case HeadLoaded(h) => h == s.head
    case Leased(h) => h == s.head && |s.committed| < s.producerSaw + p.slots
    case Describing(h, f, done) =>
      && h == s.head && |s.committed| < s.producerSaw + p.slots
      && WellFormed(f, p.capacity) && done <= 64
      && SlotAt(p, s, h)[..done] == f.image[..done] && SlotAt(p, s, h)[64..64 + |f.payload|] == f.payload
    case _ => true
  }

  predicate ConsumerOk(p: Params, s: State)
    requires ValidParams(p) && Shape(p, s)
  {
    var next := |s.delivered|;
    match s.consumer
    case TailLoaded(t) => t == s.tail
    case Reading(t, image) =>
      t == s.tail && next < s.consumerSaw && |image| <= 64 && image == SlotAt(p, s, t)[..|image|]
    case Holding(t, image, seen) =>
      t == s.tail && next < s.consumerSaw <= |s.committed| && Faithful(Received(image, seen), s.committed[next])
    case Empty => s.consumerSaw == next
    case Waiting(checked) => checked ==> s.consumerSaw == next
    case _ => true
  }

  function InFlight(s: State): (n: nat) {
    if s.producer.Free? || s.producer.Published? then 0 else 1
  }

  predicate Accounts(s: State) {
    && s.attempts == |s.committed| + s.abandoned + s.refused + InFlight(s)
    && s.dropped == Wrap(s.refused)
    && s.acquireErrors == 0
  }

  predicate Wakeups(s: State) {
    && s.event <= EVENT_MAX && s.signalled <= |s.committed|
    && (s.event == 0 ==> s.signalled <= s.consumerSaw)
    && (s.signalErrors == 0 ==> s.signalled == |s.committed| - if s.producer.Published? then 1 else 0)
  }

  predicate Memory(p: Params, s: State) {
    ValidParams(p) && Shape(p, s) && Counts(p, s) && Unread(p, s) && AllWellFormed(p, s) && AllFaithful(s)
  }

  predicate Control(p: Params, s: State)
    requires ValidParams(p) && Shape(p, s)
  {
    ProducerOk(p, s) && ConsumerOk(p, s)
  }

  predicate Inv(p: Params, s: State) {
    Memory(p, s) && Control(p, s) && Accounts(s) && Wakeups(s)
  }

  // ---------------------------------------------------------------------------
  // One step keeps the invariant
  // ---------------------------------------------------------------------------

  lemma InitInv(p: Params, s: State)
    requires Init(p, s)
    ensures Inv(p, s)
  {
  }

  /** The distance between two counts survives the wrap. */
  lemma WrappedDistance(a: nat, b: nat)
    requires b <= a < b + WORD
    ensures WrappingSub(Wrap(a), Wrap(b)) == a - b
    ensures Wrap(a) == Wrap(b) <==> a == b
  {
    var qa, qb := a / WORD, b / WORD;
    assert Wrap(a) - Wrap(b) == WORD * (qb - qa) + (a - b);
    UniqueRemainder(Wrap(a) - Wrap(b), WORD, qb - qa, a - b);
  }

  lemma NextCursor(k: nat)
    ensures WrappingAdd(Wrap(k), 1) == Wrap(k + 1)
  {
  }

  /**
    Slot exclusion: between reserve and commit or abandon, the producer's slot is
    none of the slots that are unread or on lease to the consumer.
   */
  lemma SlotExclusion(p: Params, s: State, k: nat)
    requires Inv(p, s) && Coherent(p.slots, |s.committed|)
    requires s.producer.Leased? || s.producer.Describing?
    requires |s.delivered| <= k < |s.committed|
    ensures SlotOf(s.producer.head, p.slots) != SlotOf(Wrap(k), p.slots)
  {
    SlotsApart(p.slots, k, |s.committed|);
  }

  /** A write into the reserved slot leaves the unread frames and the consumer's view alone. */
  lemma PokeKeepsReaders(p: Params, s: State, at: nat, value: u8)
    requires Inv(p, s) && Coherent(p.slots, |s.committed|) && at < 64 + p.capacity
    requires s.producer.Leased? || s.producer.Describing?
    ensures var t := Poke(p, s, s.producer.head, at, value);
            Unread(p, t) && ConsumerOk(p, t)
            && SlotAt(p, t, s.producer.head) == SlotAt(p, s, s.producer.head)[at := value]
  {
    var t := Poke(p, s, s.producer.head, at, value);
    forall k | |s.delivered| <= k < |s.committed|
      ensures SlotAt(p, t, Wrap(k)) == SlotAt(p, s, Wrap(k))
    {
      SlotExclusion(p, s, k);
    }
  }

  lemma StepDescribeByte(p: Params, s: State)
    requires Inv(p, s) && Enabled(p, s, DescribeByte) && Coherent(p.slots, |s.committed|)
    ensures Memory(p, Apply(p, s, DescribeByte)) && Control(p, Apply(p, s, DescribeByte))
  {
    var t := Apply(p, s, DescribeByte);
    var pc := s.producer;
    var image := pc.frame.image;
    var before, after := SlotAt(p, s, pc.head), SlotAt(p, t, pc.head);
    PokeKeepsReaders(p, s, pc.done, image[pc.done]);
    assert after == before[pc.done := image[pc.done]];
    assert after[..pc.done + 1] == before[..pc.done] + [image[pc.done]];
    assert image[..pc.done + 1] == image[..pc.done] + [image[pc.done]];
    assert after[64..64 + |pc.frame.payload|] == before[64..64 + |pc.frame.payload|];
  }

  lemma PublishKeepsUnread(p: Params, s: State)
    requires ValidParams(p) && Shape(p, s) && Unread(p, s) && ProducerOk(p, s) && s.head == Wrap(|s.committed|)
    requires s.producer.Describing? && s.producer.done == 64
    ensures Unread(p, AfterPublish(s))
  {
    var t := AfterPublish(s);
    assert s.producer.frame.image[..64] == s.producer.frame.image;
    forall k | |t.delivered| <= k < |t.committed|
      ensures Holds(SlotAt(p, t, Wrap(k)), t.committed[k])
    {
      if k == |s.committed| {
        assert Holds(SlotAt(p, s, s.head), s.producer.frame);
      } else {
        assert Holds(SlotAt(p, s, Wrap(k)), s.committed[k]);
      }
    }
  }

  lemma PublishKeepsPast(p: Params, s: State)
    requires Inv(p, s) && s.producer.Describing? && s.producer.done == 64
    ensures AllFaithful(AfterPublish(s)) && AllWellFormed(p, AfterPublish(s))
  {
    var t := AfterPublish(s);
    forall k | 0 <= k < |t.delivered|
      ensures Faithful(t.delivered[k], t.committed[k])
    {
      assert Faithful(s.delivered[k], s.committed[k]);
    }
  }

  lemma StepPublish(p: Params, s: State)
    requires Inv(p, s) && s.producer.Describing? && s.producer.done == 64
    ensures Memory(p, AfterPublish(s)) && Control(p, AfterPublish(s))
  {
    PublishKeepsUnread(p, s);
    PublishKeepsPast(p, s);
    NextCursor(|s.committed|);
    assert ConsumerOk(p, AfterPublish(s));
  }

  lemma StepCommit(p: Params, s: State, step: Step)
    requires Inv(p, s) && Enabled(p, s, step) && step.Commit?
    ensures Memory(p, Apply(p, s, step)) && Control(p, Apply(p, s, step))
  {
    if step.payloadBytes <= p.capacity {
      StampedIsAcceptable(Stamp(step.descriptor, step.payloadBytes), step.payloadBytes, step.image, p.capacity);
    }
  }

  lemma StepWriteByte(p: Params, s: State, step: Step)
    requires Inv(p, s) && Enabled(p, s, step) && step.WriteByte? && Coherent(p.slots, |s.committed|)
    ensures Memory(p, Apply(p, s, step)) && Control(p, Apply(p, s, step))
  {
    PokeKeepsReaders(p, s, 64 + step.offset, step.value);
  }

  /** Steps that only move a program counter or a statistic carry the frame facts over. */
  lemma SameFrames(p: Params, s: State, t: State)
    requires ValidParams(p) && Shape(p, s) && Unread(p, s) && AllWellFormed(p, s) && AllFaithful(s)
    requires t.slots == s.slots && t.committed == s.committed && t.delivered == s.delivered
    ensures Shape(p, t) && Unread(p, t) && AllWellFormed(p, t) && AllFaithful(t)
  {
  }

  lemma StepReserve(p: Params, s: State, step: Step)
    requires Inv(p, s) && Enabled(p, s, step)
    requires step.LoadHead? || step.LoadTail?
    ensures Memory(p, Apply(p, s, step)) && Control(p, Apply(p, s, step))
  {
    SameFrames(p, s, Apply(p, s, step));
    if step.LoadTail? {
      WrappedDistance(|s.committed|, step.releases);
    }
  }

  lemma StepFinish(p: Params, s: State, step: Step)
    requires Inv(p, s) && Enabled(p, s, step)
    requires step.CountDrop? || step.Abandon? || step.Signal?
    ensures Memory(p, Apply(p, s, step)) && Control(p, Apply(p, s, step))
  {
    SameFrames(p, s, Apply(p, s, step));
  }

  lemma StepLoadPublished(p: Params, s: State, step: Step)
    requires Inv(p, s) && Enabled(p, s, step) && step.LoadPublished?
    ensures Memory(p, Apply(p, s, step)) && Control(p, Apply(p, s, step))
  {
    SameFrames(p, s, Apply(p, s, step));
    WrappedDistance(step.commits, |s.delivered|);
  }

  lemma StepConsumer(p: Params, s: State, step: Step)
    requires Inv(p, s) && Enabled(p, s, step)
    requires step.LoadOwnTail? || step.GiveUp? || step.Wait? || step.Drain?
    ensures Memory(p, Apply(p, s, step)) && Control(p, Apply(p, s, step))
  {
    SameFrames(p, s, Apply(p, s, step));
  }

  lemma StepReadPayload(p: Params, s: State, step: Step)
    requires Inv(p, s) && Enabled(p, s, step) && step.ReadPayloadByte?
    ensures Memory(p, Apply(p, s, step)) && Control(p, Apply(p, s, step))
  {
    var next := |s.delivered|;
    var f := s.committed[next];
    assert Holds(SlotAt(p, s, Wrap(next)), f);
    assert WellFormed(f, p.capacity);
    assert SlotAt(p, s, s.tail)[64 + step.offset] == SlotAt(p, s, s.tail)[64..64 + |f.payload|][step.offset];
  }

  lemma StepReadDescriptor(p: Params, s: State)
    requires Inv(p, s) && Enabled(p, s, ReadDescriptorByte)
    ensures Memory(p, Apply(p, s, ReadDescriptorByte)) && Control(p, Apply(p, s, ReadDescriptorByte))
  {
    var image := s.consumer.image;
    var slot := SlotAt(p, s, s.tail);
    assert image + [slot[|image|]] == slot[..|image| + 1];
  }

  /** Whatever bytes the descriptor copy took and whenever, it passes the three checks. */
  lemma StepCheck(p: Params, s: State)
    requires Inv(p, s) && Enabled(p, s, CheckDescriptor)
    ensures Memory(p, Apply(p, s, CheckDescriptor)) && Control(p, Apply(p, s, CheckDescriptor))
    ensures Apply(p, s, CheckDescriptor).consumer.Holding?
  {
    var next := |s.delivered|;
    assert Holds(SlotAt(p, s, Wrap(next)), s.committed[next]);
    assert WellFormed(s.committed[next], p.capacity);
  }

  lemma ReleaseKeepsFaithful(p: Params, s: State)
    requires Inv(p, s) && s.consumer.Holding?
    ensures AllFaithful(AfterRelease(s))
  {
    var t := AfterRelease(s);
    forall k | 0 <= k < |t.delivered|
      ensures Faithful(t.delivered[k], t.committed[k])
    {
      if k < |s.delivered| {
        assert Faithful(s.delivered[k], s.committed[k]);
      }
    }
  }

  lemma StepRelease(p: Params, s: State)
    requires Inv(p, s) && s.consumer.Holding?
    ensures Memory(p, AfterRelease(s)) && Control(p, AfterRelease(s))
  {
    var t := AfterRelease(s);
    ReleaseKeepsFaithful(p, s);
    assert Counts(p, t) by {
      NextCursor(|s.delivered|);
    }
    assert Unread(p, t);
    assert ProducerOk(p, t);
  }

  lemma StepAccounts(p: Params, s: State, step: Step)
    requires Inv(p, s) && Enabled(p, s, step)
    ensures Accounts(Apply(p, s, step))
  {
    if step.CountDrop? {
      NextCursor(s.refused);
    } else if step.CheckDescriptor? {
      StepCheck(p, s);
    }
  }

  lemma StepWakeups(p: Params, s: State, step: Step)
    requires Counts(p, s) && Wakeups(s) && Enabled(p, s, step)
    ensures Wakeups(Apply(p, s, step))
  {
  }

  lemma StepConsumerSide(p: Params, s: State, step: Step)
    requires Inv(p, s) && Enabled(p, s, step)
    requires step.ReadDescriptorByte? || step.CheckDescriptor? || step.ReadPayloadByte? || step.Release?
             || step.LoadPublished? || step.LoadOwnTail? || step.GiveUp? || step.Wait? || step.Drain?
    ensures Memory(p, Apply(p, s, step)) && Control(p, Apply(p, s, step))
  {
    match step
    case ReadDescriptorByte => StepReadDescriptor(p, s);
    case CheckDescriptor => StepCheck(p, s);
    case ReadPayloadByte(_) => StepReadPayload(p, s, step);
    case Release => StepRelease(p, s);
    case LoadPublished(_) => StepLoadPublished(p, s, step);
    case _ => StepConsumer(p, s, step);
  }

  lemma StepProducerSide(p: Params, s: State, step: Step)
    requires Inv(p, s) && Enabled(p, s, step) && Coherent(p.slots, |s.committed|)
    requires step.DescribeByte? || step.Publish? || step.Commit? || step.WriteByte? || step.LoadHead? || step.LoadTail?
             || step.CountDrop? || step.Abandon? || step.Signal?
    ensures Memory(p, Apply(p, s, step)) && Control(p, Apply(p, s, step))
  {
    match step
    case DescribeByte => StepDescribeByte(p, s);
    case Publish => StepPublish(p, s);
    case Commit(_, _, _) => StepCommit(p, s, step);
    case WriteByte(_, _) => StepWriteByte(p, s, step);
    case LoadHead | LoadTail(_) => StepReserve(p, s, step);
    case _ => StepFinish(p, s, step);
  }

  lemma StepInv(p: Params, s: State, step: Step)
    requires Inv(p, s) && Enabled(p, s, step) && Coherent(p.slots, |s.committed|)
    ensures Inv(p, Apply(p, s, step))
  {
    StepAccounts(p, s, step);
    StepWakeups(p, s, step);
    if step.LoadHead? || step.LoadTail? || step.CountDrop? || step.WriteByte? || step.Abandon? || step.Commit?
       || step.DescribeByte? || step.Publish? || step.Signal?
    {
      StepProducerSide(p, s, step);
    } else {
      StepConsumerSide(p, s, step);
    }
  }
}
