/** Every interleaving of the ring's steps behaves as one bounded FIFO queue of frames. */
module RingFifo {
  import opened Words
  import opened Cursors
  import opened Frames
  import opened RingProtocol

  /** `queued_frames`, computed from the two shared cursors. */
  function Occupancy(s: State): (n: u64) {
    WrappingSub(s.head, s.tail)
  }

  function FrameIn(slot: seq<u8>): (f: RawFrame)
    requires 64 <= |slot|
  {
    var n := Read32(slot, 8);
    RawFrame(slot[..64], if 64 + n <= |slot| then slot[64..64 + n] else slot[64..])
  }

  /** The queue that the shared memory denotes, read off the bytes and the cursors alone. */
  function Queue(p: Params, s: State): (q: seq<RawFrame>)
    requires ValidParams(p) && Shape(p, s)
  {
    seq(Occupancy(s), (k: nat) => FrameIn(SlotAt(p, s, Wrap(s.tail + k))))
  }

  datatype Action = Internal | Enqueue(frame: RawFrame) | Dequeue(received: Received)

  /** The specification: a FIFO queue with room for `bound` frames. */
  predicate FifoNext(bound: nat, q: seq<RawFrame>, a: Action, q': seq<RawFrame>) {
    match a
    case Internal => q' == q
    case Enqueue(f) => |q| < bound && q' == q + [f]
    case Dequeue(r) => q != [] && Faithful(r, q[0]) && q' == q[1..]
  }

  function ActionOf(s: State, step: Step): (a: Action)
    requires step.Publish? ==> s.producer.Describing?
    requires step.Release? ==> s.consumer.Holding?
  {
    match step
    case Publish => Enqueue(s.producer.frame)
    case Release => Dequeue(Received(s.consumer.image, s.consumer.seen))
    case _ => Internal
  }

  lemma HeldFrame(slot: seq<u8>, f: RawFrame, capacity: nat)
    requires |slot| == 64 + capacity && Holds(slot, f) && WellFormed(f, capacity)
    ensures FrameIn(slot) == f
  {
    assert slot[8..12] == slot[..64][8..12];
  }

  lemma WrapAgain(a: nat, k: nat)
    ensures Wrap(Wrap(a) + k) == Wrap(a + k)
  {
    var q := a / WORD;
    assert a + k == WORD * q + (Wrap(a) + k);
    var r := Wrap(a) + k;
    assert a + k == WORD * (q + r / WORD) + r % WORD;
    UniqueRemainder(a + k, WORD, q + r / WORD, r % WORD);
  }

  lemma QueueEntry(p: Params, s: State, k: nat)
    requires ValidParams(p) && Shape(p, s) && Unread(p, s) && AllWellFormed(p, s)
    requires s.tail == Wrap(|s.delivered|) && |s.delivered| + k < |s.committed|
    ensures FrameIn(SlotAt(p, s, Wrap(s.tail + k))) == s.committed[|s.delivered| + k]
  {
    var at := |s.delivered| + k;
    WrapAgain(|s.delivered|, k);
    assert Holds(SlotAt(p, s, Wrap(at)), s.committed[at]);
    HeldFrame(SlotAt(p, s, Wrap(at)), s.committed[at], p.capacity);
  }

  /** The queue in memory is the committed frames not yet released, so occupancy is never above the slot count. */
  lemma QueueIsUnread(p: Params, s: State)
    requires Memory(p, s)
    ensures Queue(p, s) == s.committed[|s.delivered|..]
    ensures |Queue(p, s)| <= p.slots
  {
    WrappedDistance(|s.committed|, |s.delivered|);
    forall k: nat | k < |s.committed| - |s.delivered|
      ensures Queue(p, s)[k] == s.committed[|s.delivered| + k]
    {
      QueueEntry(p, s, k);
    }
  }

  lemma HistoryOfInternal(p: Params, s: State, step: Step)
    requires Enabled(p, s, step) && ActionOf(s, step).Internal?
    ensures var t := Apply(p, s, step); t.committed == s.committed && t.delivered == s.delivered
  {
  }

  /** The same refinement, told by the history. */
  lemma StepMovesHistory(p: Params, s: State, step: Step)
    requires Inv(p, s) && Enabled(p, s, step)
    ensures var t := Apply(p, s, step);
            |s.delivered| <= |s.committed| && |t.delivered| <= |t.committed|
            && FifoNext(p.slots, s.committed[|s.delivered|..], ActionOf(s, step), t.committed[|t.delivered|..])
  {
    var t := Apply(p, s, step);
    if ActionOf(s, step).Internal? {
      HistoryOfInternal(p, s, step);
    } else if step.Publish? {
      assert t.committed[|t.delivered|..] == s.committed[|s.delivered|..] + [s.producer.frame];
    } else {
      assert t.committed[|t.delivered|..] == s.committed[|s.delivered|..][1..];
    }
  }

  /** Refinement: each step of either side is one queue action on the memory, and most are none. */
  lemma StepRefines(p: Params, s: State, step: Step)
    requires Inv(p, s) && Enabled(p, s, step) && Coherent(p.slots, |s.committed|)
    ensures Inv(p, Apply(p, s, step))
    ensures FifoNext(p.slots, Queue(p, s), ActionOf(s, step), Queue(p, Apply(p, s, step)))
  {
    StepInv(p, s, step);
    StepMovesHistory(p, s, step);
    QueueIsUnread(p, s);
    QueueIsUnread(p, Apply(p, s, step));
  }

  // ---------------------------------------------------------------------------
  // Whole runs
  // ---------------------------------------------------------------------------

  ghost predicate Run(p: Params, trace: seq<State>, steps: seq<Step>) {
    && |trace| == |steps| + 1 && Init(p, trace[0])
    && forall i | 0 <= i < |steps| :: Enabled(p, trace[i], steps[i]) && trace[i + 1] == Apply(p, trace[i], steps[i])
  }

  /** Either the slot count hides the cursor wrap or the run commits fewer than 2^64 frames. */
  predicate RunCoherent(p: Params, trace: seq<State>) {
    0 < p.slots && forall i | 0 <= i < |trace| :: Coherent(p.slots, |trace[i].committed|)
  }

  lemma {:induction false} RunInv(p: Params, trace: seq<State>, steps: seq<Step>, i: nat)
    requires Run(p, trace, steps) && RunCoherent(p, trace) && i < |trace|
    ensures Inv(p, trace[i])
  {
    if i == 0 {
      InitInv(p, trace[0]);
    } else {
      RunInv(p, trace, steps, i - 1);
      StepInv(p, trace[i - 1], steps[i - 1]);
    }
  }

  ghost predicate FifoStep(p: Params, s: State, step: Step, t: State) {
    && Enabled(p, s, step) && Shape(p, t)
    && FifoNext(p.slots, Queue(p, s), ActionOf(s, step), Queue(p, t))
  }

  /** The main theorem: every run is a run of the bounded queue, starting empty. */
  lemma RunRefinesFifo(p: Params, trace: seq<State>, steps: seq<Step>)
    requires Run(p, trace, steps) && RunCoherent(p, trace)
    ensures Queue(p, trace[0]) == []
    ensures forall i | 0 <= i < |steps| :: FifoStep(p, trace[i], steps[i], trace[i + 1])
  {
    forall i | 0 <= i < |steps|
      ensures FifoStep(p, trace[i], steps[i], trace[i + 1])
    {
      RunInv(p, trace, steps, i);
      StepRefines(p, trace[i], steps[i]);
    }
  }

  /** What has been delivered is a prefix, in order and unaltered, of what has been committed. */
  ghost predicate DeliversPrefix(p: Params, s: State) {
    && |s.delivered| <= |s.committed| <= |s.delivered| + p.slots
    && s.acquireErrors == 0
    && forall k | 0 <= k < |s.delivered| :: Faithful(s.delivered[k], s.committed[k])
  }

  lemma RunDeliversPrefix(p: Params, trace: seq<State>, steps: seq<Step>, i: nat)
    requires Run(p, trace, steps) && RunCoherent(p, trace) && i < |trace|
    ensures DeliversPrefix(p, trace[i])
  {
    RunInv(p, trace, steps, i);
  }

  /** Reservation attempts are commits, abandoned reservations, drops, or the one in progress. */
  lemma RunAccounts(p: Params, trace: seq<State>, steps: seq<Step>, i: nat)
    requires Run(p, trace, steps) && RunCoherent(p, trace) && i < |trace|
    ensures var s := trace[i];
            s.dropped == Wrap(s.attempts - |s.committed| - s.abandoned - InFlight(s))
  {
    RunInv(p, trace, steps, i);
  }

  /**
    No lost wakeup: a consumer that went to sleep straight after seeing an empty
    ring is never asleep on a non-empty one unless a wakeup is pending, the
    producer is about to send one, or the eventfd has failed hard.
   */
  lemma NoLostWakeup(p: Params, trace: seq<State>, steps: seq<Step>, i: nat)
    requires Run(p, trace, steps) && RunCoherent(p, trace) && i < |trace|
    requires trace[i].consumer == Waiting(true) && |trace[i].delivered| < |trace[i].committed|
    ensures Enabled(p, trace[i], Drain) || trace[i].producer.Published? || trace[i].signalErrors > 0
  {
    RunInv(p, trace, steps, i);
  }

  /** Stale loads err only towards "full" and "empty". */
  lemma StaleLoadsAreConservative(p: Params, s: State, step: Step)
    requires Inv(p, s) && Enabled(p, s, step)
    ensures var t := Apply(p, s, step);
            && (step.LoadTail? && Occupancy(s) == p.slots ==> t.producer.Full?)
            && (step.LoadTail? && t.producer.Leased? ==> Occupancy(s) < p.slots)
            && (step.LoadPublished? && Occupancy(s) == 0 ==> t.consumer.Empty?)
            && (step.LoadPublished? && t.consumer.Reading? ==> 0 < Occupancy(s))
  {
    WrappedDistance(|s.committed|, |s.delivered|);
    if step.LoadTail? {
      WrappedDistance(|s.committed|, step.releases);
    } else if step.LoadPublished? {
      WrappedDistance(step.commits, |s.delivered|);
    }
  }

  /** `queued_frames` read by the consumer is at most the true occupancy, whatever head value it loads. */
  lemma QueuedFramesIsABound(p: Params, s: State, commits: nat)
    requires Inv(p, s) && s.consumerSaw <= commits <= |s.committed|
    ensures WrappingSub(Wrap(commits), s.tail) == commits - |s.delivered| <= Occupancy(s) <= p.slots
  {
    WrappedDistance(|s.committed|, |s.delivered|);
    WrappedDistance(commits, |s.delivered|);
  }

  /** A hard eventfd error comes after publication: `commit` reports it, and the frame is in the queue all the same. */
  lemma SignalErrorKeepsFrame(p: Params, s: State)
    requires Inv(p, s) && Enabled(p, s, Publish) && Coherent(p.slots, |s.committed| + 1)
    requires Coherent(p.slots, |s.committed|)
    ensures var t := Apply(p, s, Publish);
            var u := Apply(p, t, Signal(false));
            Queue(p, u) == Queue(p, s) + [s.producer.frame] && u.producer.Free? && u.signalErrors > 0
  {
    var t := Apply(p, s, Publish);
    StepRefines(p, s, Publish);
    StepRefines(p, t, Signal(false));
  }
}
