/**
  `create` accepts every slot count from two up, but the ring is a FIFO on all
  runs exactly when the slot count divides 2^64. The converse is proved by
  driving the ring to the cursor wrap and delivering a frame that was committed
  later than the one due.
 */
module RingWrap {
  import opened Words
  import opened Cursors
  import opened Frames
  import opened RingProtocol
  import opened RingFifo

  ghost predicate AlwaysFifo(p: Params) {
    forall trace: seq<State>, steps: seq<Step> | Run(p, trace, steps) :: DeliversPrefix(p, trace[|trace| - 1])
  }

  ghost predicate Reachable(p: Params, s: State) {
    exists trace: seq<State>, steps: seq<Step> :: Run(p, trace, steps) && trace[|trace| - 1] == s
  }

  lemma ReachInit(p: Params, s: State)
    requires Init(p, s)
    ensures Reachable(p, s)
  {
    assert Run(p, [s], []);
  }

  lemma ReachStep(p: Params, s: State, step: Step)
    requires Reachable(p, s) && Enabled(p, s, step)
    ensures Reachable(p, Apply(p, s, step))
  {
    var trace: seq<State>, steps: seq<Step> :| Run(p, trace, steps) && trace[|trace| - 1] == s;
    var trace', steps' := trace + [Apply(p, s, step)], steps + [step];
    assert Run(p, trace', steps');
    assert trace'[|trace'| - 1] == Apply(p, s, step);
  }

  /** Reachable, with both sides between calls. */
  ghost predicate Quiet(p: Params, s: State) {
    && Reachable(p, s) && ValidParams(p) && Shape(p, s) && s.producer.Free? && s.consumer.Ready?
    && s.head == Wrap(|s.committed|) && s.tail == Wrap(|s.delivered|)
    && s.producerSaw <= |s.delivered| <= |s.committed| <= |s.delivered| + p.slots && s.consumerSaw <= |s.committed|
  }

  /** A frame without payload. */
  predicate IsProbe(f: RawFrame) {
    Acceptable(f.image, 0) && f.payload == []
  }

  lemma TwoProbes() returns (a: RawFrame, b: RawFrame)
    ensures IsProbe(a) && IsProbe(b) && a.image != b.image
  {
    a := ProbeOf(NewDescriptor(PAYLOAD_KIND_PCM, 0));
    b := ProbeOf(NewDescriptor(PAYLOAD_KIND_PCM, 1));
  }

  lemma ProbeOf(d: FrameDescriptor) returns (f: RawFrame)
    ensures IsProbe(f) && Decode(f.image) == Stamp(d, 0)
  {
    var e := Stamp(d, 0);
    var image := Encode(e, [0, 0, 0, 0, 0, 0, 0, 0]);
    DecodeEncode(e, [0, 0, 0, 0, 0, 0, 0, 0]);
    StampedIsAcceptable(e, 0, image, 0);
    f := RawFrame(image, []);
  }

  function Overwritten(slot: seq<u8>, image: seq<u8>, done: nat): (r: seq<u8>)
    requires done <= 64 == |image| <= |slot|
    ensures |r| == |slot|
  {
    slot[..done] + image[done..] + slot[64..]
  }

  /** Finishing the descriptor write. */
  lemma {:induction false} DescribeAll(p: Params, s: State)
    requires Reachable(p, s) && ValidParams(p) && Shape(p, s)
    requires s.producer.Describing? && s.producer.done <= 64 == |s.producer.frame.image|
    ensures var pc := s.producer;
            var k := SlotOf(pc.head, p.slots);
            Reachable(p, s.(producer := Describing(pc.head, pc.frame, 64),
                            slots := s.slots[k := Overwritten(s.slots[k], pc.frame.image, pc.done)]))
    decreases 64 - s.producer.done
  {
    var pc := s.producer;
    var k := SlotOf(pc.head, p.slots);
    var goal := Overwritten(s.slots[k], pc.frame.image, pc.done);
    if pc.done == 64 {
      assert goal == s.slots[k];
      assert s.slots[k := goal] == s.slots;
      assert s == s.(producer := Describing(pc.head, pc.frame, 64), slots := s.slots[k := goal]);
    } else {
      var t := Apply(p, s, DescribeByte);
      ReachStep(p, s, DescribeByte);
      DescribeAll(p, t);
      assert Overwritten(t.slots[k], pc.frame.image, pc.done + 1) == goal;
      assert t.slots[k := goal] == s.slots[k := goal];
    }
  }

  lemma Reserve(p: Params, s: State) returns (t: State)
    requires Quiet(p, s) && |s.committed| < |s.delivered| + p.slots
    ensures Reachable(p, t)
    ensures t == s.(producer := Leased(s.head), producerSaw := |s.delivered|, attempts := s.attempts + 1)
  {
    ReachStep(p, s, LoadHead);
    var u := Apply(p, s, LoadHead);
    WrappedDistance(|s.committed|, |s.delivered|);
    ReachStep(p, u, LoadTail(|s.delivered|));
    t := Apply(p, u, LoadTail(|s.delivered|));
  }

  lemma Describe(p: Params, s: State, f: RawFrame) returns (t: State)
    requires Reachable(p, s) && ValidParams(p) && Shape(p, s) && s.producer.Leased? && IsProbe(f)
    ensures Reachable(p, t) && Shape(p, t)
    ensures t == s.(producer := Describing(s.producer.head, f, 64), slots := t.slots)
    ensures SlotAt(p, t, s.producer.head)[..64] == f.image
  {
    var d := Decode(f.image);
    StampedIsAcceptable(d, 0, f.image, 0);
    ReachStep(p, s, Commit(d, 0, f.image));
    var s1 := Apply(p, s, Commit(d, 0, f.image));
    assert s1.producer == Describing(s.producer.head, f, 0);
    DescribeAll(p, s1);
    var k := SlotOf(s.producer.head, p.slots);
    var written := Overwritten(s.slots[k], f.image, 0);
    t := s1.(producer := Describing(s.producer.head, f, 64), slots := s.slots[k := written]);
    assert t.slots[k][..64] == f.image;
  }

  lemma Announce(p: Params, s: State) returns (t: State)
    requires Reachable(p, s) && ValidParams(p) && Shape(p, s) && s.producer.Describing? && s.producer.done == 64
    ensures Reachable(p, t) && t.slots == s.slots && t.producer.Free? && t.consumer == s.consumer
    ensures t.committed == s.committed + [s.producer.frame] && t.delivered == s.delivered
    ensures t.head == WrappingAdd(s.producer.head, 1) && t.tail == s.tail
    ensures t.producerSaw == s.producerSaw && t.consumerSaw == s.consumerSaw
  {
    ReachStep(p, s, Publish);
    var u := Apply(p, s, Publish);
    ReachStep(p, u, Signal(true));
    t := Apply(p, u, Signal(true));
  }

  lemma Push(p: Params, s: State, f: RawFrame) returns (t: State)
    requires Quiet(p, s) && |s.committed| < |s.delivered| + p.slots && IsProbe(f)
    ensures Quiet(p, t) && t.committed == s.committed + [f] && t.delivered == s.delivered
    ensures SlotAt(p, t, s.head)[..64] == f.image
  {
    var leased := Reserve(p, s);
    var described := Describe(p, leased, f);
    t := Announce(p, described);
    NextCursor(|s.committed|);
  }

  /** Finishing the descriptor copy. */
  lemma {:induction false} ReadAll(p: Params, s: State)
    requires Reachable(p, s) && ValidParams(p) && Shape(p, s)
    requires s.consumer.Reading? && |s.consumer.image| <= 64
    requires s.consumer.image == SlotAt(p, s, s.consumer.tail)[..|s.consumer.image|]
    ensures Reachable(p, s.(consumer := Reading(s.consumer.tail, SlotAt(p, s, s.consumer.tail)[..64])))
    decreases 64 - |s.consumer.image|
  {
    var pc := s.consumer;
    var slot := SlotAt(p, s, pc.tail);
    if |pc.image| < 64 {
      ReachStep(p, s, ReadDescriptorByte);
      var t := Apply(p, s, ReadDescriptorByte);
      assert pc.image + [slot[|pc.image|]] == slot[..|pc.image| + 1];
      ReadAll(p, t);
    } else {
      assert s == s.(consumer := Reading(pc.tail, slot[..64]));
    }
  }

  lemma Acquire(p: Params, s: State) returns (t: State)
    requires Quiet(p, s) && |s.delivered| < |s.committed| && Acceptable(SlotAt(p, s, s.tail)[..64], p.capacity)
    ensures Reachable(p, t)
    ensures t == s.(consumer := Holding(s.tail, SlotAt(p, s, s.tail)[..64], map[]), consumerSaw := |s.committed|)
  {
    ReachStep(p, s, LoadOwnTail);
    var s1 := Apply(p, s, LoadOwnTail);
    WrappedDistance(|s.committed|, |s.delivered|);
    ReachStep(p, s1, LoadPublished(|s.committed|));
    var s2 := Apply(p, s1, LoadPublished(|s.committed|));
    ReadAll(p, s2);
    var s3 := s2.(consumer := Reading(s.tail, SlotAt(p, s, s.tail)[..64]));
    ReachStep(p, s3, CheckDescriptor);
    t := Apply(p, s3, CheckDescriptor);
  }

  lemma Pop(p: Params, s: State) returns (t: State)
    requires Quiet(p, s) && |s.delivered| < |s.committed| && Acceptable(SlotAt(p, s, s.tail)[..64], p.capacity)
    ensures Quiet(p, t) && t.committed == s.committed
    ensures t.delivered == s.delivered + [Received(SlotAt(p, s, s.tail)[..64], map[])]
  {
    var held := Acquire(p, s);
    ReachStep(p, held, Release);
    t := Apply(p, held, Release);
    NextCursor(|s.delivered|);
  }

  lemma Blank(p: Params) returns (t: State)
    requires ValidParams(p)
    ensures Quiet(p, t) && t.committed == [] && t.delivered == []
  {
    var blank: seq<u8> := seq(64 + p.capacity, _ => 0);
    t := State(seq(p.slots, _ => blank), 0, 0, 0, 0, Free, Ready, [], [], 0, 0, 0, 0, 0, 0, 0, 0);
    ReachInit(p, t);
  }

  /** Any number of frames can be pushed and popped one at a time. */
  lemma {:induction false} Cycle(p: Params, k: nat, f: RawFrame) returns (t: State)
    requires ValidParams(p) && IsProbe(f)
    ensures Quiet(p, t) && |t.committed| == |t.delivered| == k
    decreases k
  {
    if k == 0 {
      t := Blank(p);
    } else {
      var s := Cycle(p, k - 1, f);
      var u := Push(p, s, f);
      t := Pop(p, u);
    }
  }

  lemma {:induction false} PushMany(p: Params, s: State, m: nat, f: RawFrame) returns (t: State)
    requires Quiet(p, s) && |s.committed| + m <= |s.delivered| + p.slots && IsProbe(f)
    ensures Quiet(p, t) && s.committed <= t.committed && |t.committed| == |s.committed| + m
    ensures t.delivered == s.delivered
    ensures m > 0 ==> SlotAt(p, t, Wrap(|s.committed| + m - 1))[..64] == f.image
  {
    if m == 0 {
      t := s;
    } else {
      var u := PushMany(p, s, m - 1, f);
      t := Push(p, u, f);
    }
  }

  /** The frames `a`, then enough `b`s to reach the count 2^64, over a ring emptied just short of it. */
  lemma FillToWrap(p: Params, a: RawFrame, b: RawFrame) returns (t: State)
    requires ValidParams(p) && WORD % p.slots != 0 && IsProbe(a) && IsProbe(b)
    ensures var early := WORD - WORD % p.slots;
            Quiet(p, t) && |t.delivered| == early && |t.committed| == WORD + 1
            && t.committed[early] == a && SlotAt(p, t, Wrap(WORD))[..64] == b.image
  {
    var r := WORD % p.slots;
    var s := Cycle(p, WORD - r, a);
    var first := Push(p, s, a);
    t := PushMany(p, first, r, b);
  }

  /** At the wrap, a slot count that does not divide 2^64 delivers the wrong frame. */
  lemma WrapBreaks(p: Params) returns (u: State)
    requires ValidParams(p) && WORD % p.slots != 0
    ensures Reachable(p, u) && !DeliversPrefix(p, u)
    ensures |u.committed| == WORD + 1
  {
    var a, b := TwoProbes();
    var t := FillToWrap(p, a, b);
    CollisionAtWrap(p.slots);
    assert SlotAt(p, t, t.tail)[..64] == b.image;
    u := Pop(p, t);
    var early := |t.delivered|;
    assert u.delivered[early] == Received(b.image, map[]);
    assert !Faithful(u.delivered[early], u.committed[early]);
  }

  /** The exact condition under which the ring keeps its promise on every run. */
  lemma AlwaysFifoIff(p: Params)
    requires ValidParams(p)
    ensures AlwaysFifo(p) <==> WORD % p.slots == 0
  {
    if WORD % p.slots == 0 {
      forall trace: seq<State>, steps: seq<Step> | Run(p, trace, steps)
        ensures DeliversPrefix(p, trace[|trace| - 1])
      {
        RunDeliversPrefix(p, trace, steps, |trace| - 1);
      }
    } else {
      var u := WrapBreaks(p);
    }
  }
}
