/** The microphone loopback of the HFP smoke test: attenuation, a circular delay line, and the paced drain. */
module Loopback {
  import opened Words

  type i16 = x: int | -0x8000 <= x < 0x8000

  /** A gain: any total map on 16-bit samples. `Scaled` is the one the program computes. */
  type Gain = i16 -> i16

  /** A gain acting on the two bytes of a little-endian sample. */
  type Stage = (u8, u8) -> (u8, u8)

  function Signed16(lo: u8, hi: u8): (v: i16) {
    var n := lo + 256 * hi;
    if n < 0x8000 then n else n - 0x1_0000
  }

  function Bytes16(v: i16): (r: (u8, u8)) {
    (v % 256, v / 256 % 256)
  }

  function StageOf(g: Gain): (f: Stage) {
    (lo: u8, hi: u8) => Bytes16(g(Signed16(lo, hi)))
  }

  /** One frame, sample by sample; a trailing odd byte passes unchanged. */
  function Attenuate(f: Stage, frame: seq<u8>): (r: seq<u8>)
    ensures |r| == |frame|
  {
    if |frame| < 2 then frame
    else [f(frame[0], frame[1]).0, f(frame[0], frame[1]).1] + Attenuate(f, frame[2..])
  }

  function Concat(chunks: seq<seq<u8>>): (s: seq<u8>) {
    if chunks == [] then [] else Concat(chunks[..|chunks| - 1]) + chunks[|chunks| - 1]
  }

  /** Every frame attenuated on its own, end to end. */
  function Echo(f: Stage, frames: seq<seq<u8>>): (s: seq<u8>) {
    if frames == [] then [] else Echo(f, frames[..|frames| - 1]) + Attenuate(f, frames[|frames| - 1])
  }

  function Zeros(n: nat): (s: seq<u8>)
    ensures |s| == n
  {
    seq(n, _ => 0)
  }

  lemma ConcatOneMore(chunks: seq<seq<u8>>, c: seq<u8>)
    ensures Concat(chunks + [c]) == Concat(chunks) + c
  {
    assert (chunks + [c])[..|chunks|] == chunks;
  }

  // ---------------------------------------------------------------------------
  // The code, in place
  // ---------------------------------------------------------------------------

  lemma {:induction false} AttenuateSplit(f: Stage, head: seq<u8>, rest: seq<u8>)
    requires |head| % 2 == 0
    ensures Attenuate(f, head + rest) == Attenuate(f, head) + Attenuate(f, rest)
  {
    if head == [] {
      assert head + rest == rest;
    } else {
      AttenuateSplit(f, head[2..], rest);
      var whole := head + rest;
      assert whole[0] == head[0] && whole[1] == head[1] && whole[2..] == head[2..] + rest;
      var out := f(head[0], head[1]);
      assert [out.0, out.1] + Attenuate(f, head[2..]) + Attenuate(f, rest)
          == [out.0, out.1] + (Attenuate(f, head[2..]) + Attenuate(f, rest));
    }
  }

  lemma AttenuateNext(f: Stage, was: seq<u8>, i: nat)
    requires i + 1 < |was| && i % 2 == 0
    ensures var out := f(was[i], was[i + 1]);
            Attenuate(f, was[..i + 2]) == Attenuate(f, was[..i]) + [out.0, out.1]
  {
    var two := was[i..i + 2];
    assert was[..i + 2] == was[..i] + two;
    AttenuateSplit(f, was[..i], two);
    assert two[2..] == [];
  }

  lemma AttenuateStep(f: Stage, was: seq<u8>, frame: seq<u8>, i: nat)
    requires i + 1 < |was| && i % 2 == 0 && frame == Attenuate(f, was[..i]) + was[i..]
    ensures frame[i] == was[i] && frame[i + 1] == was[i + 1]
    ensures var out := f(was[i], was[i + 1]);
            var after: seq<u8> := frame[i := out.0];
            after[i + 1 := out.1] == Attenuate(f, was[..i + 2]) + was[i + 2..]
  {
    AttenuateNext(f, was, i);
  }

  method AttenuateInPlace(frame: array<u8>, f: Stage)
    modifies frame
    ensures frame[..] == Attenuate(f, old(frame[..]))
  {
    ghost var was := frame[..];
    var i := 0;
    while i + 1 < frame.Length
      invariant 0 <= i <= frame.Length && i % 2 == 0
      invariant frame[..] == Attenuate(f, was[..i]) + was[i..]
    {
      ghost var before := frame[..];
      AttenuateStep(f, was, before, i);
      var out := f(frame[i], frame[i + 1]);
      frame[i], frame[i + 1] := out.0, out.1;
      ghost var first: seq<u8> := before[i := out.0];
      assert frame[..] == first[i + 1 := out.1];
      i := i + 2;
    }
    AttenuateSplit(f, was[..i], was[i..]);
    assert was == was[..i] + was[i..];
  }

  /** What the circular line still owes, oldest byte first. */
  ghost function Pending(line: seq<u8>, cursor: nat): (s: seq<u8>)
    requires cursor <= |line|
    ensures |s| == |line|
  {
    line[cursor..] + line[..cursor]
  }

  function Advance(cursor: nat, length: nat): (r: nat)
    requires cursor < length
    ensures r < length
  {
    if cursor + 1 == length then 0 else cursor + 1
  }

  /** Replacing the oldest byte moves the line on by one. */
  lemma RotateOne(line: seq<u8>, cursor: nat, b: u8)
    requires cursor < |line|
    ensures var next: seq<u8> := line[cursor := b];
            [line[cursor]] + Pending(next, Advance(cursor, |line|)) == Pending(line, cursor) + [b]
  {
  }

  lemma SwapNext(done: seq<u8>, owed: seq<u8>, was: seq<u8>, line: seq<u8>, cursor: nat, b: u8)
    requires cursor < |line| && done + Pending(line, cursor) == owed + was
    ensures var next: seq<u8> := line[cursor := b];
            done + [line[cursor]] + Pending(next, Advance(cursor, |line|)) == owed + (was + [b])
  {
    RotateOne(line, cursor, b);
    var next: seq<u8> := line[cursor := b];
    var after := Pending(next, Advance(cursor, |line|));
    assert done + [line[cursor]] + after == done + ([line[cursor]] + after);
    assert done + (Pending(line, cursor) + [b]) == (done + Pending(line, cursor)) + [b];
  }

  /** Swap every byte of the frame with the byte that left the microphone one line length earlier. */
  method SwapThrough(frame: array<u8>, line: array<u8>, start: nat) returns (cursor: nat)
    requires frame != line && start < line.Length
    modifies frame, line
    ensures cursor < line.Length
    ensures frame[..] + Pending(line[..], cursor) == old(Pending(line[..], start)) + old(frame[..])
  {
    ghost var was := frame[..];
    ghost var owed := Pending(line[..], start);
    cursor := start;
    var i := 0;
    while i < frame.Length
      invariant 0 <= i <= frame.Length && cursor < line.Length
      invariant frame[i..] == was[i..]
      invariant frame[..i] + Pending(line[..], cursor) == owed + was[..i]
    {
      ghost var before := line[..];
      var b := frame[i];
      assert b == was[i];
      SwapNext(frame[..i], owed, was[..i], before, cursor, b);
      frame[i], line[cursor] := line[cursor], b;
      assert line[..] == before[cursor := b];
      assert frame[..i + 1] == frame[..i] + [before[cursor]];
      assert was[..i + 1] == was[..i] + [b];
      cursor := Advance(cursor, line.Length);
      i := i + 1;
    }
    assert was[..i] == was;
    assert frame[..i] == frame[..];
  }

  lemma ReadNext(line: seq<u8>, cursor: nat, owed: seq<u8>, n: nat)
    requires cursor < |line| && n < |owed| && Pending(line, cursor) == owed[n..] + owed[..n]
    ensures line[cursor] == owed[n]
    ensures Pending(line, Advance(cursor, |line|)) == owed[n + 1..] + owed[..n + 1]
  {
    assert line[cursor] == Pending(line, cursor)[0];
    RotateOne(line, cursor, line[cursor]);
    assert line[cursor := line[cursor]] == line;
    assert Pending(line, Advance(cursor, |line|)) == (Pending(line, cursor) + [owed[n]])[1..];
    assert (owed[n..] + owed[..n] + [owed[n]])[1..] == owed[n + 1..] + owed[..n + 1];
  }

  /** Copy the next `length` bytes out of a line that still owes `remaining`. */
  method ReadOut(line: array<u8>, start: nat, length: nat, ghost remaining: nat) returns (frame: seq<u8>, cursor: nat)
    requires start < line.Length && length <= remaining <= line.Length
    ensures cursor < line.Length && |frame| == length
    ensures frame + Pending(line[..], cursor)[..remaining - length] == Pending(line[..], start)[..remaining]
  {
    frame, cursor := [], start;
    ghost var owed := Pending(line[..], start);
    while |frame| < length
      invariant |frame| <= length && cursor < line.Length
      invariant frame == owed[..|frame|]
      invariant Pending(line[..], cursor) == owed[|frame|..] + owed[..|frame|]
    {
      ReadNext(line[..], cursor, owed, |frame|);
      frame := frame + [line[cursor]];
      cursor := Advance(cursor, line.Length);
    }
    ReadDone(owed, Pending(line[..], cursor), length, remaining);
  }

  lemma ReadDone(owed: seq<u8>, p: seq<u8>, length: nat, remaining: nat)
    requires length <= remaining <= |owed| && p == owed[length..] + owed[..length]
    ensures owed[..length] + p[..remaining - length] == owed[..remaining]
  {
    assert p[..remaining - length] == owed[length..remaining];
  }

  lemma DrainTurn(writes: seq<seq<u8>>, owes: seq<u8>, frame: seq<u8>, rest: seq<u8>, owed: seq<u8>)
    requires Concat(writes) + owes == owed && frame + rest == owes
    ensures Concat(writes + [frame]) + rest == owed
  {
    ConcatOneMore(writes, frame);
    assert (Concat(writes) + frame) + rest == Concat(writes) + (frame + rest);
  }

  /** Every write is one full frame. */
  predicate FullFrames(writes: seq<seq<u8>>, frameBytes: nat) {
    forall i | 0 <= i < |writes| :: |writes[i]| == frameBytes
  }

  /** Read the line out once round, in equal frames. */
  method Drain(line: array<u8>, start: nat, frameBytes: nat, frames: nat) returns (writes: seq<seq<u8>>)
    requires start < line.Length == Times(frames, frameBytes) && 0 < frameBytes
    ensures Concat(writes) == Pending(line[..], start)
    ensures |writes| == frames && FullFrames(writes, frameBytes)
  {
    writes := [];
    var cursor: nat := start;
    var remaining: nat := line.Length;
    ghost var owed := Pending(line[..], start);
    ghost var left := frames;
    while remaining != 0
      invariant cursor < line.Length && remaining <= line.Length && |writes| + left == frames
      invariant remaining == Times(left, frameBytes)
      invariant Concat(writes) + Pending(line[..], cursor)[..remaining] == owed
      invariant FullFrames(writes, frameBytes)
    {
      ghost var fewer := Times(left - 1, frameBytes);
      assert remaining == frameBytes + fewer;
      var length := if remaining < frameBytes then remaining else frameBytes;
      assert length == frameBytes && remaining - length == fewer;
      ghost var owes := Pending(line[..], cursor)[..remaining];
      var frame, next := ReadOut(line, cursor, length, remaining);
      DrainTurn(writes, owes, frame, Pending(line[..], next)[..fewer], owed);
      writes := writes + [frame];
      cursor, remaining := next, remaining - length;
      left := left - 1;
    }
  }

  // ---------------------------------------------------------------------------
  // The playback task
  // ---------------------------------------------------------------------------

  lemma EchoOneMore(f: Stage, frames: seq<seq<u8>>, n: nat)
    requires n < |frames|
    ensures Echo(f, frames[..n + 1]) == Echo(f, frames[..n]) + Attenuate(f, frames[n])
  {
    assert frames[..n + 1][..n] == frames[..n];
  }

  /** One received frame through gain and delay line. */
  method PlayFrame(received: seq<u8>, f: Stage, line: array<u8>, start: nat) returns (write: seq<u8>, cursor: nat)
    requires line.Length == 0 || start < line.Length
    modifies line
    ensures line.Length == 0 ==> write == Attenuate(f, received)
    ensures line.Length > 0 ==> cursor < line.Length
    ensures line.Length > 0 ==>
              write + Pending(line[..], cursor) == old(Pending(line[..], start)) + Attenuate(f, received)
    ensures |write| == |received|
  {
    var frame := new u8[|received|](i requires 0 <= i < |received| => received[i]);
    assert frame[..] == received;
    AttenuateInPlace(frame, f);
    cursor := start;
    if line.Length > 0 {
      cursor := SwapThrough(frame, line, start);
    }
    write := frame[..];
  }

  lemma PlayTurn(written: seq<u8>, write: seq<u8>, pending: seq<u8>, next: seq<u8>,
                 silence: seq<u8>, echo: seq<u8>, one: seq<u8>)
    requires written + pending == silence + echo && write + next == pending + one
    ensures (written + write) + next == silence + (echo + one)
  {
    assert (written + write) + next == written + (write + next);
    assert written + (pending + one) == (written + pending) + one;
    assert silence + (echo + one) == (silence + echo) + one;
  }

  /** The receive loop: frame after frame through the delay line until the capture side hangs up. */
  method Relay(frames: seq<seq<u8>>, f: Stage, line: array<u8>) returns (writes: seq<seq<u8>>, bytes: nat, cursor: nat)
    modifies line
    ensures if line.Length == 0 then cursor == 0 else cursor < line.Length
    ensures Concat(writes) + Pending(line[..], cursor) == old(line[..]) + Echo(f, frames)
    ensures bytes == |Concat(writes)| && |writes| == |frames|
    ensures forall k | 0 <= k < |frames| :: |writes[k]| == |frames[k]|
  {
    ghost var silence := line[..];
    assert Pending(line[..], 0) == silence;
    cursor := 0;
    writes, bytes := [], 0;
    var i := 0;
    while i < |frames|
      invariant 0 <= i <= |frames| && |writes| == i
      invariant if line.Length == 0 then cursor == 0 else cursor < line.Length
      invariant Concat(writes) + Pending(line[..], cursor) == silence + Echo(f, frames[..i])
      invariant bytes == |Concat(writes)|
      invariant forall k | 0 <= k < i :: |writes[k]| == |frames[k]|
    {
      ghost var before := Pending(line[..], cursor);
      var write, next := PlayFrame(frames[i], f, line, cursor);
      cursor := if line.Length == 0 then 0 else next;
      EchoOneMore(f, frames, i);
      ConcatOneMore(writes, write);
      PlayTurn(Concat(writes), write, before, Pending(line[..], cursor),
               silence, Echo(f, frames[..i]), Attenuate(f, frames[i]));
      writes := writes + [write];
      bytes := bytes + |write|;
      i := i + 1;
    }
    assert frames[..i] == frames;
  }

  /**
    The whole task, for any sequence of received frames. What reaches the
    headset is the delay in silence followed by the attenuated microphone
    stream: nothing lost, nothing repeated. The drain is 100 full 10 ms frames
    per second of delay.
   */
  method Playback(frames: seq<seq<u8>>, f: Stage, sampleRate: nat, delaySeconds: nat)
    returns (writes: seq<seq<u8>>, bytes: nat)
    requires 0 < sampleRate && sampleRate % 100 == 0
    ensures Concat(writes) == Zeros(sampleRate * 2 * delaySeconds) + Echo(f, frames)
    ensures bytes == |Concat(writes)| == sampleRate * 2 * delaySeconds + |Concat(frames)|
    ensures |writes| == |frames| + 100 * delaySeconds
    ensures forall i | 0 <= i < |frames| :: |writes[i]| == |frames[i]|
    ensures forall i | |frames| <= i < |writes| :: |writes[i]| == sampleRate / 100 * 2
  {
    var delayBytes := sampleRate * 2 * delaySeconds;
    DelayInFrames(sampleRate, delaySeconds);
    var line := new u8[delayBytes](_ => 0);
    assert line[..] == Zeros(delayBytes);
    EchoLength(f, frames);
    var cursor;
    writes, bytes, cursor := Relay(frames, f, line);
    if line.Length > 0 {
      var tail := Drain(line, cursor, sampleRate / 100 * 2, 100 * delaySeconds);
      ConcatAppend(writes, tail);
      bytes := bytes + |Concat(tail)|;
      writes := writes + tail;
    } else {
      NoDelay(sampleRate, delaySeconds);
    }
  }

  lemma {:induction false} ConcatAppend(a: seq<seq<u8>>, b: seq<seq<u8>>)
    ensures Concat(a + b) == Concat(a) + Concat(b)
  {
    if b == [] {
      assert a + b == a;
    } else {
      var init, last := b[..|b| - 1], b[|b| - 1];
      ConcatAppend(a, init);
      assert a + b == (a + init) + [last];
      ConcatOneMore(a + init, last);
      assert (Concat(a) + Concat(init)) + last == Concat(a) + (Concat(init) + last);
    }
  }

  /** The delay is a whole number of drain frames. */
  lemma DelayInFrames(sampleRate: nat, seconds: nat)
    requires sampleRate % 100 == 0
    ensures sampleRate * 2 * seconds == Times(100 * seconds, sampleRate / 100 * 2)
  {
    var r := sampleRate / 100;
    TimesIsProduct(100 * seconds, r * 2);
    assert sampleRate == 100 * r;
    assert (100 * r) * 2 * seconds == (100 * seconds) * (r * 2);
  }

  lemma NoDelay(sampleRate: nat, seconds: nat)
    requires 0 < sampleRate && sampleRate * 2 * seconds == 0
    ensures seconds == 0
  {
    if seconds >= 1 {
      MulAtLeast(sampleRate * 2, seconds);
    }
  }

  // ---------------------------------------------------------------------------
  // Chunking
  // ---------------------------------------------------------------------------

  lemma {:induction false} EchoLength(f: Stage, frames: seq<seq<u8>>)
    ensures |Echo(f, frames)| == |Concat(frames)|
  {
    if frames != [] {
      EchoLength(f, frames[..|frames| - 1]);
    }
  }

  function Lengths(chunks: seq<seq<u8>>): (ls: seq<nat>)
    ensures |ls| == |chunks| && forall i | 0 <= i < |chunks| :: ls[i] == |chunks[i]|
  {
    seq(|chunks|, i requires 0 <= i < |chunks| => |chunks[i]|)
  }

  /** Every frame that is followed by more data holds whole samples. */
  predicate Aligned(ls: seq<nat>) {
    forall i, j | 0 <= i < j < |ls| && ls[j] != 0 :: ls[i] % 2 == 0
  }

  lemma {:induction false} EvenConcat(chunks: seq<seq<u8>>)
    requires forall i | 0 <= i < |chunks| :: |chunks[i]| % 2 == 0
    ensures |Concat(chunks)| % 2 == 0
  {
    if chunks != [] {
      EvenConcat(chunks[..|chunks| - 1]);
    }
  }

  /** Aligned frames may be cut anywhere: the gain acts on the stream as a whole. */
  lemma {:induction false} AlignedEcho(f: Stage, chunks: seq<seq<u8>>)
    requires Aligned(Lengths(chunks))
    ensures Echo(f, chunks) == Attenuate(f, Concat(chunks))
  {
    if chunks != [] {
      var init, last := chunks[..|chunks| - 1], chunks[|chunks| - 1];
      var ls := Lengths(chunks);
      forall i, j | 0 <= i < j < |init| && |init[j]| != 0
        ensures |init[i]| % 2 == 0
      {
        assert ls[i] % 2 == 0 && ls[j] == |init[j]|;
      }
      AlignedEcho(f, init);
      if last != [] {
        assert forall i | 0 <= i < |init| :: ls[i] % 2 == 0 && |init[i]| == ls[i];
        EvenConcat(init);
        AttenuateSplit(f, Concat(init), last);
      } else {
        assert Concat(chunks) == Concat(init);
      }
    }
  }

  lemma {:induction false} AttenuateAt(f: Stage, s: seq<u8>, x: nat)
    requires x < |s| && x % 2 == 0
    ensures Attenuate(f, s)[x] == if x + 1 < |s| then f(s[x], s[x + 1]).0 else s[x]
    ensures x + 1 < |s| ==> Attenuate(f, s)[x + 1] == f(s[x], s[x + 1]).1
  {
    if x >= 2 {
      AttenuateAt(f, s[2..], x - 2);
    }
  }

  lemma {:induction false} StreamPrefix(f: Stage, chunks: seq<seq<u8>>, n: nat)
    requires n <= |chunks|
    ensures Concat(chunks[..n]) <= Concat(chunks) && Echo(f, chunks[..n]) <= Echo(f, chunks)
  {
    if n < |chunks| {
      var init := chunks[..|chunks| - 1];
      StreamPrefix(f, init, n);
      assert init[..n] == chunks[..n];
    } else {
      assert chunks[..n] == chunks;
    }
  }

  lemma FirstOdd(chunks: seq<seq<u8>>, i: nat, j: nat) returns (k: nat)
    requires i < j < |chunks| && chunks[j] != [] && |chunks[i]| % 2 == 1
    ensures k < j && |chunks[k]| % 2 == 1
    ensures forall m | 0 <= m < k :: |chunks[m]| % 2 == 0
    decreases i
  {
    if m :| 0 <= m < i && |chunks[m]| % 2 == 1 {
      k := FirstOdd(chunks, m, j);
    } else {
      k := i;
    }
  }

  lemma OddTail(f: Stage, chunks: seq<seq<u8>>, k: nat)
    requires k < |chunks| && |chunks[k]| % 2 == 1
    ensures var x := |Concat(chunks[..k])| + |chunks[k]| - 1;
            && x + 1 == |Concat(chunks[..k + 1])| <= |Concat(chunks)| == |Echo(f, chunks)|
            && Echo(f, chunks)[x] == Concat(chunks)[x]
  {
    var before := Concat(chunks[..k]);
    var x := |before| + |chunks[k]| - 1;
    EchoLength(f, chunks);
    EchoLength(f, chunks[..k]);
    StreamPrefix(f, chunks, k + 1);
    EchoOneMore(f, chunks, k);
    assert chunks[..k + 1][..k] == chunks[..k];
    assert Concat(chunks[..k + 1]) == before + chunks[k];
    AttenuateAt(f, chunks[k], |chunks[k]| - 1);
    assert Echo(f, chunks)[x] == Echo(f, chunks[..k + 1])[x] == chunks[k][|chunks[k]| - 1];
    assert Concat(chunks)[x] == (before + chunks[k])[x];
  }

  /** The stage never changes the first byte of a sample. */
  ghost predicate KeepsFirst(f: Stage) {
    forall lo: u8, hi: u8 :: f(lo, hi).0 == lo
  }

  /** Such a stage lets the first byte of every frame pass. */
  lemma FirstOfFrame(f: Stage, chunks: seq<seq<u8>>, m: nat)
    requires KeepsFirst(f) && m < |chunks| && chunks[m] != []
    ensures var x := |Concat(chunks[..m])|;
            x < |Concat(chunks)| == |Echo(f, chunks)| && Echo(f, chunks)[x] == Concat(chunks)[x]
  {
    EchoLength(f, chunks);
    EchoLength(f, chunks[..m]);
    StreamPrefix(f, chunks, m + 1);
    EchoOneMore(f, chunks, m);
    assert chunks[..m + 1][..m] == chunks[..m];
    var x := |Concat(chunks[..m])|;
    AttenuateAt(f, chunks[m], 0);
    assert Echo(f, chunks)[x] == Echo(f, chunks[..m + 1])[x] == chunks[m][0];
    assert Concat(chunks)[x] == (Concat(chunks[..m]) + chunks[m])[x];
  }

  /** The first frame from `n` on that is not empty starts where the frames before `n` end. */
  lemma NextFrameWithData(chunks: seq<seq<u8>>, n: nat, j: nat) returns (m: nat)
    requires n <= j < |chunks| && chunks[j] != []
    ensures n <= m <= j && chunks[m] != [] && |Concat(chunks[..m])| == |Concat(chunks[..n])|
    decreases j - n
  {
    if chunks[n] != [] {
      m := n;
    } else {
      m := NextFrameWithData(chunks, n + 1, j);
      assert chunks[..n + 1][..n] == chunks[..n];
    }
  }

  /**
    An odd frame with more data behind it leaves the two bytes of one sample of
    the stream in different frames. The first passes as it is; the second does
    too, if the stage never changes first bytes.
   */
  lemma MisalignedSample(f: Stage, chunks: seq<seq<u8>>, k: nat, j: nat) returns (x: nat)
    requires k < j < |chunks| && chunks[j] != [] && |chunks[k]| % 2 == 1
    requires forall m | 0 <= m < k :: |chunks[m]| % 2 == 0
    ensures x % 2 == 0 && x + 1 < |Concat(chunks)| == |Echo(f, chunks)|
    ensures Echo(f, chunks)[x] == Concat(chunks)[x]
    ensures KeepsFirst(f) ==> Echo(f, chunks)[x + 1] == Concat(chunks)[x + 1]
  {
    OddTail(f, chunks, k);
    EvenConcat(chunks[..k]);
    x := |Concat(chunks[..k])| + |chunks[k]| - 1;
    var m := NextFrameWithData(chunks, k + 1, j);
    LaterByte(f, chunks, k + 1, j);
    if KeepsFirst(f) {
      FirstOfFrame(f, chunks, m);
    }
  }

  lemma LaterByte(f: Stage, chunks: seq<seq<u8>>, n: nat, j: nat)
    requires n <= j < |chunks| && chunks[j] != []
    ensures |Concat(chunks[..n])| < |Concat(chunks)|
  {
    StreamPrefix(f, chunks[..j], n);
    assert chunks[..j][..n] == chunks[..n];
    StreamPrefix(f, chunks, j + 1);
    assert chunks[..j + 1][..j] == chunks[..j];
  }

  function Sum(ls: seq<nat>): (n: nat) {
    if ls == [] then 0 else Sum(ls[..|ls| - 1]) + ls[|ls| - 1]
  }

  /** A stream cut into frames of the given lengths. */
  function Cut(stream: seq<u8>, ls: seq<nat>): (chunks: seq<seq<u8>>)
    requires |stream| == Sum(ls)
    ensures Lengths(chunks) == ls
    decreases |ls|
  {
    if ls == [] then []
    else
      var at := Sum(ls[..|ls| - 1]);
      Cut(stream[..at], ls[..|ls| - 1]) + [stream[at..]]
  }

  lemma {:induction false} ConcatOfCut(stream: seq<u8>, ls: seq<nat>)
    requires |stream| == Sum(ls)
    ensures Concat(Cut(stream, ls)) == stream
    decreases |ls|
  {
    if ls != [] {
      var at := Sum(ls[..|ls| - 1]);
      ConcatOfCut(stream[..at], ls[..|ls| - 1]);
      ConcatOneMore(Cut(stream[..at], ls[..|ls| - 1]), stream[at..]);
      assert stream[..at] + stream[at..] == stream;
    }
  }

  ghost predicate IsIdentity(f: Stage) {
    forall lo: u8, hi: u8 :: f(lo, hi) == (lo, hi)
  }

  lemma {:induction false} IdentityAttenuates(f: Stage, s: seq<u8>)
    requires IsIdentity(f)
    ensures Attenuate(f, s) == s
  {
    if |s| >= 2 {
      IdentityAttenuates(f, s[2..]);
    }
  }

  lemma {:induction false} IdentityEchoes(f: Stage, chunks: seq<seq<u8>>)
    requires IsIdentity(f)
    ensures Echo(f, chunks) == Concat(chunks)
  {
    if chunks != [] {
      IdentityEchoes(f, chunks[..|chunks| - 1]);
      IdentityAttenuates(f, chunks[|chunks| - 1]);
    }
  }

  /** Whatever the reads of these lengths contain, the stage might as well have acted on the whole stream. */
  ghost predicate Invisible(f: Stage, ls: seq<nat>) {
    forall chunks: seq<seq<u8>> | Lengths(chunks) == ls :: Echo(f, chunks) == Attenuate(f, Concat(chunks))
  }

  /** A stream in which every sample is (lo, hi). */
  function Stripes(n: nat, lo: u8, hi: u8): (s: seq<u8>)
    ensures |s| == n
  {
    if n == 0 then [] else if n == 1 then [lo] else [lo, hi] + Stripes(n - 2, lo, hi)
  }

  lemma {:induction false} StripesAt(n: nat, lo: u8, hi: u8, x: nat)
    requires x + 1 < n && x % 2 == 0
    ensures Stripes(n, lo, hi)[x] == lo && Stripes(n, lo, hi)[x + 1] == hi
  {
    if x >= 2 {
      StripesAt(n - 2, lo, hi, x - 2);
    }
  }

  lemma MisalignedIsHeard(f: Stage, ls: seq<nat>, i: nat, j: nat, lo: u8, hi: u8) returns (chunks: seq<seq<u8>>)
    requires i < j < |ls| && ls[j] != 0 && ls[i] % 2 == 1
    requires f(lo, hi).0 != lo || (KeepsFirst(f) && f(lo, hi).1 != hi)
    ensures Lengths(chunks) == ls && Echo(f, chunks) != Attenuate(f, Concat(chunks))
  {
    var stream := Stripes(Sum(ls), lo, hi);
    chunks := Cut(stream, ls);
    ConcatOfCut(stream, ls);
    var k := FirstOdd(chunks, i, j);
    var x := MisalignedSample(f, chunks, k, j);
    StripesAt(Sum(ls), lo, hi, x);
    AttenuateAt(f, stream, x);
  }

  /**
    How reads cut the stream cannot be heard, whatever they contain, exactly when
    every cut keeps samples whole or the stage changes nothing at all.
   */
  lemma ChunkingIsInvisibleIff(f: Stage, ls: seq<nat>)
    ensures Invisible(f, ls) <==> Aligned(ls) || IsIdentity(f)
  {
    if Aligned(ls) || IsIdentity(f) {
      forall chunks: seq<seq<u8>> | Lengths(chunks) == ls
        ensures Echo(f, chunks) == Attenuate(f, Concat(chunks))
      {
        if Aligned(ls) {
          AlignedEcho(f, chunks);
        } else {
          IdentityEchoes(f, chunks);
          IdentityAttenuates(f, Concat(chunks));
        }
      }
    } else {
      var i, j :| 0 <= i < j < |ls| && ls[j] != 0 && ls[i] % 2 != 0;
      var lo: u8, hi: u8 :| f(lo, hi).0 != lo || (KeepsFirst(f) && f(lo, hi).1 != hi);
      var chunks := MisalignedIsHeard(f, ls, i, j, lo, hi);
    }
  }

  // ---------------------------------------------------------------------------
  // The gain of the program
  // ---------------------------------------------------------------------------

  /** `f32::round`: to the nearest integer, halves away from zero. */
  function Rounded(x: real): (n: int) {
    if x >= 0.0 then (x + 0.5).Floor else -(0.5 - x).Floor
  }

  function Clamped(n: int): (v: i16) {
    if n < -0x8000 then -0x8000 else if n > 0x7fff then 0x7fff else n
  }

  /** One sample attenuated by `--loopback-gain`, with the product taken exactly. */
  function Scale(v: i16, gain: real): (r: i16) {
    Clamped(Rounded(v as real * gain))
  }

  function Scaled(gain: real): (g: Gain)
    ensures forall v: i16 :: g(v) == Scale(v, gain)
  {
    (v: i16) => Scale(v, gain)
  }

  function Magnitude(v: int): (m: nat) {
    if v < 0 then -v else v
  }

  /** What the attenuation takes off a sample of magnitude `m`, before rounding. */
  function Loss(m: nat, gain: real): (r: real) {
    m as real * (1.0 - gain)
  }

  lemma LossBounds(m: nat, gain: real)
    requires 0.0 < gain <= 1.0
    ensures 0.0 <= Loss(m, gain) <= m as real && (m > 0 ==> Loss(m, gain) < m as real)
  {
    assert m as real * gain >= 0.0 && (m > 0 ==> m as real * gain > 0.0);
    assert Loss(m, gain) == m as real - m as real * gain;
  }

  /** The exact product, by magnitude and loss. */
  function Shrunk(v: i16, loss: real): (x: real) {
    if v < 0 then loss - Magnitude(v) as real else Magnitude(v) as real - loss
  }

  lemma ProductIsShrunk(v: i16, gain: real)
    ensures v as real * gain == Shrunk(v, Loss(Magnitude(v), gain))
  {
    var m := Magnitude(v);
    assert Loss(m, gain) == m as real - m as real * gain;
    assert v < 0 ==> v as real == -(m as real);
  }

  lemma FloorIs(x: real, m: int)
    requires x < m as real + 1.0
    ensures x.Floor <= m && (x.Floor == m <==> m as real <= x)
  {
    assert x.Floor as real <= x < x.Floor as real + 1.0;
  }

  lemma RoundsBackIff(v: i16, loss: real)
    requires 0.0 <= loss <= Magnitude(v) as real && (v < 0 ==> loss < Magnitude(v) as real)
    ensures Clamped(Rounded(Shrunk(v, loss))) == v <==> loss <= 0.5
  {
    var y := Magnitude(v) as real - loss;
    FloorIs(y + 0.5, Magnitude(v));
    assert (0.5 + y).Floor == (y + 0.5).Floor >= 0;
  }

  /** A sample is unchanged exactly when it loses at most one half. */
  lemma UnchangedIff(gain: real, v: i16, loss: real)
    requires 0.0 < gain <= 1.0 && loss == Loss(Magnitude(v), gain)
    ensures Scale(v, gain) == v <==> loss <= 0.5
  {
    LossBounds(Magnitude(v), gain);
    RoundsBackIff(v, loss);
    ProductIsShrunk(v, gain);
  }

  /** The attenuated sample is an integer nearest the exact product, no louder than before and of the same sign. */
  lemma ScaledIsNearest(gain: real, v: i16)
    requires 0.0 < gain <= 1.0
    ensures -0.5 <= Scale(v, gain) as real - v as real * gain <= 0.5
    ensures if v < 0 then v <= Scale(v, gain) <= 0 else 0 <= Scale(v, gain) <= v
  {
    var loss := Loss(Magnitude(v), gain);
    LossBounds(Magnitude(v), gain);
    ProductIsShrunk(v, gain);
    NearestOf(v, loss, Shrunk(v, loss));
  }

  lemma NearestOf(v: i16, loss: real, x: real)
    requires 0.0 <= loss <= Magnitude(v) as real && x == Shrunk(v, loss)
    ensures -0.5 <= Clamped(Rounded(x)) as real - x <= 0.5
    ensures if v < 0 then v <= Clamped(Rounded(x)) <= 0 else 0 <= Clamped(Rounded(x)) <= v
  {
    var y := Magnitude(v) as real - loss;
    FloorIs(y + 0.5, Magnitude(v));
    assert (y + 0.5).Floor as real <= y + 0.5 < (y + 0.5).Floor as real + 1.0;
    assert (0.5 + y).Floor == (y + 0.5).Floor >= 0;
  }

  /** No sample is changed exactly at gains within 2^-16 of one. */
  lemma ScaledIsIdentityIff(gain: real)
    requires 0.0 < gain <= 1.0
    ensures (forall v: i16 :: Scaled(gain)(v) == v) <==> gain >= 65535.0 / 65536.0
  {
    var lowest: i16 := -0x8000;
    UnchangedIff(gain, lowest, Loss(0x8000, gain));
    assert Scaled(gain)(lowest) == Scale(lowest, gain);
    if gain >= 65535.0 / 65536.0 {
      forall v: i16
        ensures Scaled(gain)(v) == v
      {
        UnchangedIff(gain, v, Loss(Magnitude(v), gain));
        LossGrows(Magnitude(v), 0x8000, gain);
      }
    }
  }

  lemma LossGrows(a: nat, b: nat, gain: real)
    requires a <= b && gain <= 1.0
    ensures Loss(a, gain) <= Loss(b, gain)
  {
    assert (b as real - a as real) * (1.0 - gain) >= 0.0;
  }

  lemma BytesOfSample(v: i16)
    ensures Signed16(Bytes16(v).0, Bytes16(v).1) == v
  {
  }

  lemma SampleOfBytes(lo: u8, hi: u8)
    ensures Bytes16(Signed16(lo, hi)) == (lo, hi)
  {
    var h := if hi < 128 then hi else hi - 256;
    UniqueRemainder(lo + 256 * h, 256, h, lo);
    UniqueRemainder(h, 256, if hi < 128 then 0 else -1, hi);
    assert Signed16(lo, hi) == lo + 256 * h;
  }

  /** A gain changes no bytes exactly when it changes no sample. */
  lemma StageIsIdentityIff(g: Gain)
    ensures IsIdentity(StageOf(g)) <==> forall v: i16 :: g(v) == v
  {
    if IsIdentity(StageOf(g)) {
      forall v: i16
        ensures g(v) == v
      {
        BytesOfSample(v);
        BytesOfSample(g(v));
        assert StageOf(g)(Bytes16(v).0, Bytes16(v).1) == (Bytes16(v).0, Bytes16(v).1);
      }
    }
    if forall v: i16 :: g(v) == v {
      forall lo: u8, hi: u8
        ensures StageOf(g)(lo, hi) == (lo, hi)
      {
        SampleOfBytes(lo, hi);
      }
    }
  }

  /** For every gain the program accepts, cuts are inaudible exactly when they are aligned or the gain rounds to one. */
  lemma GainHearsCutsIff(gain: real, ls: seq<nat>)
    requires 0.0 < gain <= 1.0
    ensures Invisible(StageOf(Scaled(gain)), ls) <==> Aligned(ls) || gain >= 65535.0 / 65536.0
  {
    ChunkingIsInvisibleIff(StageOf(Scaled(gain)), ls);
    StageIsIdentityIff(Scaled(gain));
    ScaledIsIdentityIff(gain);
  }

  /** The sample 1 cut in two, at the default gain: heard as 1 instead of 0. */
  lemma CutSampleIsHeard()
    ensures var f := StageOf(Scaled(0.35));
            Echo(f, [[1], [0]]) == [1, 0] && Attenuate(f, Concat([[1], [0]])) == [0, 0]
  {
    var f := StageOf(Scaled(0.35));
    var chunks: seq<seq<u8>> := [[1], [0]];
    assert chunks[..1] == [[1]] && chunks[..1][..0] == [];
    assert Concat(chunks) == [1, 0];
    var one: i16 := 1;
    assert one as real * 0.35 + 0.5 == 0.85;
    assert Scale(one, 0.35) == 0;
    assert Signed16(1, 0) == one && f(1, 0) == Bytes16(0) == (0, 0);
  }

  // ---------------------------------------------------------------------------
  // The capture task
  // ---------------------------------------------------------------------------

  datatype SendOutcome = Sent | DeadlineFirst | PlaybackGone

  /** What one turn of the capture loop meets. `late`: the capture deadline has passed when the read is examined. */
  datatype Tick = Deadline | ReadFailed | EndOfStream | Data(bytes: seq<u8>, late: bool, send: SendOutcome)

  predicate PastDeadline(t: Tick) {
    t.Deadline? || (t.Data? && (t.late || t.send.DeadlineFirst?))
  }

  /** The clock does not run backwards: past the capture deadline, every read is late. Reads fill at most 640 bytes. */
  predicate Clocked(ticks: seq<Tick>) {
    && (forall i, j | 0 <= i < j < |ticks| && PastDeadline(ticks[i]) && ticks[j].Data? :: ticks[j].late)
    && (forall i | 0 <= i < |ticks| && ticks[i].Data? :: 0 < |ticks[i].bytes| <= 640)
  }

  predicate OnTime(t: Tick) {
    t.Data? && !t.late
  }

  /** The reads made before the capture deadline, end to end. */
  function Heard(ticks: seq<Tick>): (s: seq<u8>) {
    if ticks == [] then []
    else
      var last := ticks[|ticks| - 1];
      Heard(ticks[..|ticks| - 1]) + if OnTime(last) then last.bytes else []
  }

  /** The reads handed to the playback task, one frame each. */
  function Forwarded(ticks: seq<Tick>): (s: seq<seq<u8>>) {
    if ticks == [] then []
    else
      var last := ticks[|ticks| - 1];
      Forwarded(ticks[..|ticks| - 1]) + if OnTime(last) && last.send.Sent? then [last.bytes] else []
  }

  /** Turn `i` is the last: the stream failed or ended, playback is gone, or no phase follows the deadline just met. */
  predicate Last(ticks: seq<Tick>, i: nat, hasDrain: bool)
    requires i < |ticks|
  {
    match ticks[i]
    case Deadline => !hasDrain || exists k :: 0 <= k < i && PastDeadline(ticks[k])
    case Data(_, late, send) => !late && send.PlaybackGone?
    case _ => true
  }

  lemma HeardNext(ticks: seq<Tick>, i: nat)
    requires i < |ticks|
    ensures Heard(ticks[..i + 1]) == Heard(ticks[..i]) + if OnTime(ticks[i]) then ticks[i].bytes else []
    ensures Forwarded(ticks[..i + 1])
         == Forwarded(ticks[..i]) + if OnTime(ticks[i]) && ticks[i].send.Sent? then [ticks[i].bytes] else []
  {
    assert ticks[..i + 1][..i] == ticks[..i];
  }

  /** Forwarding follows recording, at most one read behind. */
  lemma {:induction false} ForwardedIsHeard(ticks: seq<Tick>, n: nat, hasDrain: bool)
    requires Clocked(ticks) && n <= |ticks| && forall i | 0 <= i < n - 1 :: !Last(ticks, i, hasDrain)
    ensures var heard, sent := Heard(ticks[..n]), Concat(Forwarded(ticks[..n]));
            && sent <= heard && |heard| - |sent| <= 640
            && ((forall i | 0 <= i < n && OnTime(ticks[i]) :: ticks[i].send.Sent?) ==> sent == heard)
    decreases n
  {
    if n > 0 {
      var last := ticks[n - 1];
      ForwardedIsHeard(ticks, n - 1, hasDrain);
      HeardNext(ticks, n - 1);
      if OnTime(last) {
        forall i | 0 <= i < n - 1 && OnTime(ticks[i])
          ensures ticks[i].send.Sent?
        {
          assert !Last(ticks, i, hasDrain) && !PastDeadline(ticks[i]);
        }
        ConcatOneMore(Forwarded(ticks[..n - 1]), last.bytes);
      }
      assert Heard(ticks[..n - 1]) + [] == Heard(ticks[..n - 1]);
      assert Forwarded(ticks[..n - 1]) + [] == Forwarded(ticks[..n - 1]);
    }
  }

  /**
    The capture task records exactly the reads that beat the deadline, forwards
    them in order, and goes on until its last turn. It forwards all it records,
    except that the deadline or a vanished playback task can catch one read
    before it is sent. The sender is always there when it is needed.
   */
  method Capture(ticks: seq<Tick>, hasDrain: bool)
    returns (failed: bool, recorded: seq<u8>, sent: seq<seq<u8>>, senderMissing: bool, turns: nat)
    requires Clocked(ticks)
    ensures !senderMissing
    ensures turns <= |ticks| && recorded == Heard(ticks[..turns]) && sent == Forwarded(ticks[..turns])
    ensures forall i | 0 <= i < turns - 1 :: !Last(ticks, i, hasDrain)
    ensures turns < |ticks| ==> 0 < turns && Last(ticks, turns - 1, hasDrain)
    ensures failed <==> 0 < turns && ticks[turns - 1].ReadFailed?
    ensures Concat(sent) <= recorded && |recorded| - |Concat(sent)| <= 640
    ensures (forall i | 0 <= i < turns && OnTime(ticks[i]) :: ticks[i].send.Sent?) ==> Concat(sent) == recorded
  {
    failed, recorded, sent, senderMissing, turns := false, [], [], false, 0;
    var tx := true;
    while turns < |ticks|
      invariant turns <= |ticks| && !failed && !senderMissing
      invariant recorded == Heard(ticks[..turns]) && sent == Forwarded(ticks[..turns])
      invariant tx <==> forall k | 0 <= k < turns :: !PastDeadline(ticks[k])
      invariant forall k | 0 <= k < turns :: !Last(ticks, k, hasDrain)
    {
      var tick := ticks[turns];
      HeardNext(ticks, turns);
      turns := turns + 1;
      match tick {
        case Deadline =>
          var had := tx;
          tx := false;
          if had && hasDrain {
            continue;
          }
          break;
        case ReadFailed =>
          failed := true;
          break;
        case EndOfStream =>
          break;
        case Data(bytes, late, send) =>
          if late {
            tx := false;
            continue;
          }
          recorded := recorded + bytes;
          if !tx {
            senderMissing := true;
            break;
          }
          match send {
            case DeadlineFirst =>
              tx := false;
            case PlaybackGone =>
              break;
            case Sent =>
              sent := sent + [bytes];
          }
      }
    }
    assert 0 < turns && ticks[turns - 1].ReadFailed? ==> Last(ticks, turns - 1, hasDrain);
    ForwardedIsHeard(ticks, turns, hasDrain);
  }

  // ---------------------------------------------------------------------------
  // From the microphone to the headset
  // ---------------------------------------------------------------------------

  /** The drain deadline lies behind the capture deadline. */
  predicate HasDrain(delaySeconds: nat) {
    delaySeconds > 0
  }

  /** Every read made in time holds whole samples. */
  predicate WholeReads(ticks: seq<Tick>) {
    forall i | 0 <= i < |ticks| && OnTime(ticks[i]) :: |ticks[i].bytes| % 2 == 0
  }

  lemma {:induction false} ForwardedWhole(ticks: seq<Tick>)
    requires WholeReads(ticks)
    ensures forall i | 0 <= i < |Forwarded(ticks)| :: |Forwarded(ticks)[i]| % 2 == 0
  {
    if ticks != [] {
      ForwardedWhole(ticks[..|ticks| - 1]);
    }
  }

  /**
    Both halves of the exercise, joined by the channel that carries each
    forwarded read to the playback side. Unless a read fails, the headset gets
    the delay in silence and then what was recorded, attenuated, short of at
    most one read; frame boundaries leave no trace if reads hold whole samples.
   */
  method ExerciseLoopback(ticks: seq<Tick>, f: Stage, sampleRate: nat, delaySeconds: nat)
    returns (failed: bool, recorded: seq<u8>, writes: seq<seq<u8>>, turns: nat, forwarded: nat)
    requires Clocked(ticks) && 0 < sampleRate && sampleRate % 100 == 0
    ensures turns <= |ticks| && recorded == Heard(ticks[..turns])
    ensures forall i | 0 <= i < turns - 1 :: !Last(ticks, i, HasDrain(delaySeconds))
    ensures turns < |ticks| ==> 0 < turns && Last(ticks, turns - 1, HasDrain(delaySeconds))
    ensures failed <==> 0 < turns && ticks[turns - 1].ReadFailed?
    ensures forwarded == |Concat(Forwarded(ticks[..turns]))| <= |recorded| <= forwarded + 640
    ensures !failed ==>
              Concat(writes) == Zeros(sampleRate * 2 * delaySeconds) + Echo(f, Forwarded(ticks[..turns]))
    ensures !failed && WholeReads(ticks) ==>
              Concat(writes) == Zeros(sampleRate * 2 * delaySeconds) + Attenuate(f, recorded[..forwarded])
  {
    var sent, senderMissing, bytes;
    failed, recorded, sent, senderMissing, turns := Capture(ticks, HasDrain(delaySeconds));
    forwarded := |Concat(sent)|;
    if failed {
      writes := [];
      return;
    }
    writes, bytes := Playback(sent, f, sampleRate, delaySeconds);
    if WholeReads(ticks) {
      ForwardedWhole(ticks[..turns]);
      AlignedEcho(f, sent);
      assert Concat(sent) == recorded[..forwarded];
    }
  }

  // ---------------------------------------------------------------------------
  // Capture statistics
  // ---------------------------------------------------------------------------

  function Samples(pcm: seq<u8>): (s: seq<i16>)
    ensures |s| == |pcm| / 2
  {
    seq(|pcm| / 2, i requires 0 <= i < |pcm| / 2 => Signed16(pcm[2 * i], pcm[2 * i + 1]))
  }

  /** `i16::saturating_abs`. */
  function SaturatingAbs(v: i16): (r: i16) {
    if v == -0x8000 then 0x7fff else if v < 0 then -v else v
  }

  class CaptureStats {
    var bytes: nat
    var samples: nat
    var peak: i16

    constructor ()
      ensures bytes == 0 && samples == 0 && peak == 0
    {
      bytes, samples, peak := 0, 0, 0;
    }

    /** The peak is the largest magnitude met, so it stays zero exactly while every sample is zero. */
    method Account(pcm: seq<u8>)
      requires peak >= 0
      modifies this
      ensures bytes == old(bytes) + |pcm| && samples == old(samples) + |pcm| / 2
      ensures peak >= old(peak) && forall v | v in Samples(pcm) :: SaturatingAbs(v) <= peak
      ensures peak == old(peak) || exists v :: v in Samples(pcm) && peak == SaturatingAbs(v)
      ensures peak == 0 <==> old(peak) == 0 && forall v | v in Samples(pcm) :: v == 0
    {
      bytes := bytes + |pcm|;
      ghost var all := Samples(pcm);
      var i := 0;
      while i < |pcm| / 2
        invariant 0 <= i <= |all| && samples == old(samples) + i && bytes == old(bytes) + |pcm|
        invariant peak >= old(peak) && forall k | 0 <= k < i :: SaturatingAbs(all[k]) <= peak
        invariant peak == old(peak) || exists k :: 0 <= k < i && peak == SaturatingAbs(all[k])
      {
        var value := Signed16(pcm[2 * i], pcm[2 * i + 1]);
        assert value == all[i];
        samples := samples + 1;
        if peak < SaturatingAbs(value) {
          peak := SaturatingAbs(value);
        }
        i := i + 1;
      }
      assert forall k | 0 <= k < |all| :: all[k] in all;
    }
  }
}
