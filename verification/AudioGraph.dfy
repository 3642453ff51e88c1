/**
  The four-actor audio graph before shutdown: controller proxy, microphone,
  voice-activity actor and playback sink over bounded edges of any positive
  capacity. Frames are identities, timestamps and the speech decision arbitrary.
 */
module AudioGraph {
  import opened Words

  type Pcm = nat
  type MicFrame = nat

  /** A played frame with the receipt the hardware gave for it. */
  datatype Echo = Echo(pcm: Pcm, sequence: nat, presentedAt: nat)

  datatype Utterance = Utterance(id: nat, frames: seq<Pcm>)

  datatype Capacities = Capacities(capture: nat, playback: nat, mic: nat, echo: nat, barge: nat, command: nat)

  predicate Positive(c: Capacities) {
    c.capture > 0 && c.playback > 0 && c.mic > 0 && c.echo > 0 && c.barge > 0 && c.command > 0
  }

  datatype MicPc =
    | MicWaiting                     // for the clock
    | MicRequesting                  // sending a capture request
    | MicAwaiting                    // for the proxy's answer
    | MicSending(frame: MicFrame)    // to the voice-activity actor
    | MicStopped                     // the hardware failed a capture

  datatype SinkPc =
    | SinkSelecting
    | SinkSubmitting(pcm: Pcm)
    | SinkAwaiting(pcm: Pcm)
    | SinkEchoing(echo: Echo)

  /** How the playing of an utterance came to its end, if it has. */
  datatype Ending = Open | Complete | Interrupted | Replaced

  datatype State = State(
    captureInbox: nat,
    captureReply: Option<Option<MicFrame>>,
    playbackInbox: seq<(Pcm, nat)>,
    playbackReply: Option<(nat, nat)>,
    micChannel: seq<MicFrame>,
    echoChannel: seq<Echo>,
    bargeChannel: seq<MicFrame>,
    commandChannel: seq<Utterance>,
    mic: MicPc,
    sink: SinkPc,
    current: Option<Utterance>,
    sequence: nat,
    latestEcho: Option<Echo>,
    speechActive: bool,
    captured: seq<MicFrame>,    // history: frames the hardware captured
    heard: seq<MicFrame>,       // history: frames the voice-activity actor took
    played: seq<Echo>,          // history: frames the hardware played
    mirrored: seq<Echo>,        // history: echoes the voice-activity actor took
    taken: seq<Utterance>,      // history: utterances the sink took up
    parts: seq<seq<Pcm>>,       // history: of each of these, the frames the sink has popped
    endings: seq<Ending>)       // history: and how it ended

  const AT_START :=
    State(0, None, [], None, [], [], [], [], MicWaiting, SinkSelecting, None, 0, None, false,
          [], [], [], [], [], [], [])

  datatype Step =
    | MicTick
    | MicRequest
    | MicReceive
    | MicSend
    | ProxyPlay(presentedAt: nat)
    | ProxyCapture(result: Option<MicFrame>)
    | VadEcho
    | VadFrame(speaking: bool, aligned: bool)
    | SinkInterrupt
    | SinkCommand
    | SinkTick
    | SinkSubmit
    | SinkReceive
    | SinkEcho
    | Command(utterance: Utterance)

  predicate Enabled(c: Capacities, s: State, step: Step) {
    match step
    case MicTick => s.mic.MicWaiting?
    case MicRequest => s.mic.MicRequesting? && s.captureInbox < c.capture
    case MicReceive => s.mic.MicAwaiting? && s.captureReply.Some?
    case MicSend => s.mic.MicSending? && |s.micChannel| < c.mic
    case ProxyPlay(_) => s.playbackInbox != []
    case ProxyCapture(_) => s.playbackInbox == [] && s.captureInbox > 0
    case VadEcho => s.echoChannel != []
    case VadFrame(_, aligned) => s.echoChannel == [] && s.micChannel != [] && (aligned ==> s.latestEcho.Some?)
    case SinkInterrupt => s.sink.SinkSelecting? && s.bargeChannel != []
    case SinkCommand => s.sink.SinkSelecting? && s.bargeChannel == [] && s.commandChannel != []
    case SinkTick => s.sink.SinkSelecting? && s.bargeChannel == [] && s.commandChannel == [] && s.current.Some?
    case SinkSubmit => s.sink.SinkSubmitting? && |s.playbackInbox| < c.playback
    case SinkReceive => s.sink.SinkAwaiting? && s.playbackReply.Some?
    case SinkEcho => s.sink.SinkEchoing? && |s.echoChannel| < c.echo
    case Command(_) => |s.commandChannel| < c.command
  }

  /** The endings, with that of the current utterance, if there is one, filled in. */
  function Ended(s: State, how: Ending): (e: seq<Ending>)
    ensures |e| == |s.endings|
  {
    if s.current.Some? && s.endings != [] then s.endings[|s.endings| - 1 := how] else s.endings
  }

  /** One more frame popped from the current utterance. */
  function Popped(parts: seq<seq<Pcm>>, pcm: Pcm): (r: seq<seq<Pcm>>)
    ensures |r| == |parts|
  {
    if parts == [] then parts else parts[|parts| - 1 := parts[|parts| - 1] + [pcm]]
  }

  function Apply(c: Capacities, s: State, step: Step): (t: State)
    requires Enabled(c, s, step)
  {
    match step
    case MicTick => s.(mic := MicRequesting)
    case MicRequest => s.(mic := MicAwaiting, captureInbox := s.captureInbox + 1)
    case MicReceive =>
      s.(captureReply := None,
         mic := if s.captureReply.value.Some? then MicSending(s.captureReply.value.value) else MicStopped)
    case MicSend => s.(mic := MicWaiting, micChannel := s.micChannel + [s.mic.frame])
    case ProxyPlay(time) =>
      var (pcm, sequence) := s.playbackInbox[0];
      s.(playbackInbox := s.playbackInbox[1..], playbackReply := Some((sequence, time)),
         played := s.played + [Echo(pcm, sequence, time)])
    case ProxyCapture(result) =>
      s.(captureInbox := s.captureInbox - 1, captureReply := Some(result),
         captured := if result.Some? then s.captured + [result.value] else s.captured)
    case VadEcho =>
      s.(echoChannel := s.echoChannel[1..], latestEcho := Some(s.echoChannel[0]),
         mirrored := s.mirrored + [s.echoChannel[0]])
    case VadFrame(speaking, aligned) =>
      var frame := s.micChannel[0];
      var interrupts := speaking && !s.speechActive && aligned && |s.bargeChannel| < c.barge;
      s.(micChannel := s.micChannel[1..], heard := s.heard + [frame], speechActive := speaking,
         bargeChannel := if interrupts then s.bargeChannel + [frame] else s.bargeChannel)
    case SinkInterrupt => s.(bargeChannel := s.bargeChannel[1..], current := None, endings := Ended(s, Interrupted))
    case SinkCommand =>
      s.(commandChannel := s.commandChannel[1..], current := Some(s.commandChannel[0]),
         taken := s.taken + [s.commandChannel[0]], parts := s.parts + [[]], endings := Ended(s, Replaced) + [Open])
    case SinkTick =>
      var u := s.current.value;
      if u.frames == [] then s.(current := None, endings := Ended(s, Complete))
      else
        s.(current := Some(Utterance(u.id, u.frames[1..])), sink := SinkSubmitting(u.frames[0]),
           parts := Popped(s.parts, u.frames[0]))
    case SinkSubmit =>
      s.(sink := SinkAwaiting(s.sink.pcm), playbackInbox := s.playbackInbox + [(s.sink.pcm, s.sequence)])
    case SinkReceive =>
      var (sequence, time) := s.playbackReply.value;
      s.(sink := SinkEchoing(Echo(s.sink.pcm, sequence, time)), playbackReply := None)
    case SinkEcho => s.(sink := SinkSelecting, echoChannel := s.echoChannel + [s.sink.echo], sequence := s.sequence + 1)
    case Command(u) => s.(commandChannel := s.commandChannel + [u])
  }

  // ---------------------------------------------------------------------------
  // The invariant
  // ---------------------------------------------------------------------------

  predicate Bounded(c: Capacities, s: State) {
    && |s.micChannel| <= c.mic && |s.echoChannel| <= c.echo
    && |s.bargeChannel| <= c.barge && |s.commandChannel| <= c.command
  }

  /** At most one capture request exists, and exactly while the microphone awaits it. */
  predicate CaptureCall(s: State) {
    s.captureInbox + (if s.captureReply.Some? then 1 else 0) == if s.mic.MicAwaiting? then 1 else 0
  }

  /** The same for playback, and the request carries the sink's own frame and number. */
  predicate PlaybackCall(s: State) {
    && |s.playbackInbox| + (if s.playbackReply.Some? then 1 else 0) == (if s.sink.SinkAwaiting? then 1 else 0)
    && (s.playbackInbox != [] ==> s.sink.SinkAwaiting? && s.playbackInbox[0] == (s.sink.pcm, s.sequence))
  }

  /** The captured frame on its way to the microphone channel. */
  function FrameInFlight(s: State): (f: seq<MicFrame>) {
    if s.mic.MicSending? then [s.mic.frame]
    else if s.captureReply.Some? && s.captureReply.value.Some? then [s.captureReply.value.value]
    else []
  }

  /** The played frame on its way to the echo channel. */
  function EchoInFlight(s: State): (e: seq<Echo>) {
    if s.sink.SinkEchoing? then [s.sink.echo]
    else if s.sink.SinkAwaiting? && s.playbackReply.Some?
    then [Echo(s.sink.pcm, s.playbackReply.value.0, s.playbackReply.value.1)]
    else []
  }

  predicate MicOrder(s: State) {
    s.heard + s.micChannel + FrameInFlight(s) == s.captured
  }

  predicate EchoOrder(s: State) {
    && s.mirrored + s.echoChannel + EchoInFlight(s) == s.played
    && |s.mirrored| + |s.echoChannel| == s.sequence
    && (forall k | 0 <= k < |s.played| :: s.played[k].sequence == k)
    && s.latestEcho == if s.mirrored == [] then None else Some(s.mirrored[|s.mirrored| - 1])
  }

  function Joined(parts: seq<seq<Pcm>>): (s: seq<Pcm>) {
    if parts == [] then [] else Joined(parts[..|parts| - 1]) + parts[|parts| - 1]
  }

  function Pcms(echoes: seq<Echo>): (s: seq<Pcm>)
    ensures |s| == |echoes|
  {
    seq(|echoes|, i requires 0 <= i < |echoes| => echoes[i].pcm)
  }

  /** The frame popped but not yet played. */
  function InHand(s: State): (f: seq<Pcm>) {
    if s.sink.SinkSubmitting? then [s.sink.pcm]
    else if s.sink.SinkAwaiting? && s.playbackReply.None? then [s.sink.pcm]
    else []
  }

  /** What the hardware has played, and the frame in hand, are the popped frames of all utterances, end to end. */
  predicate PlayOrder(s: State) {
    Joined(s.parts) == Pcms(s.played) + InHand(s)
  }

  /** Of every utterance taken, an initial part has been popped. */
  predicate PartOk(s: State, k: nat)
    requires k < |s.taken| && |s.taken| == |s.parts| == |s.endings|
  {
    && s.parts[k] <= s.taken[k].frames
    && (s.endings[k].Complete? ==> s.parts[k] == s.taken[k].frames)
    && (s.endings[k].Open? <==> k == |s.taken| - 1 && s.current.Some?)
  }

  /** The rest of the current utterance is what has not been popped of it. */
  predicate CurrentOk(s: State)
    requires |s.taken| == |s.parts|
  {
    s.current.Some? ==>
      && s.taken != [] && s.current.value.id == s.taken[|s.taken| - 1].id
      && s.parts[|s.parts| - 1] + s.current.value.frames == s.taken[|s.taken| - 1].frames
  }

  predicate Utterances(s: State) {
    && |s.taken| == |s.parts| == |s.endings| && CurrentOk(s)
    && forall k | 0 <= k < |s.taken| :: PartOk(s, k)
  }

  predicate Inv(c: Capacities, s: State) {
    && Positive(c) && Bounded(c, s) && CaptureCall(s) && PlaybackCall(s) && MicOrder(s) && EchoOrder(s)
    && PlayOrder(s) && Utterances(s)
  }

  lemma StepMicOrder(c: Capacities, s: State, step: Step)
    requires MicOrder(s) && CaptureCall(s) && Enabled(c, s, step)
    ensures MicOrder(Apply(c, s, step)) && CaptureCall(Apply(c, s, step))
  {
    var t := Apply(c, s, step);
    if step.MicSend? {
      assert s.heard + s.micChannel + [s.mic.frame] == t.heard + t.micChannel + [];
    } else if step.VadFrame? {
      assert s.heard + s.micChannel == t.heard + t.micChannel;
    } else if step.ProxyCapture? {
      assert FrameInFlight(s) == [];
    }
  }

  lemma StepPlaybackCall(c: Capacities, s: State, step: Step)
    requires PlaybackCall(s) && Enabled(c, s, step)
    ensures PlaybackCall(Apply(c, s, step))
  {
  }

  /** The steps that move a played frame towards the voice-activity actor. */
  predicate MovesEcho(step: Step) {
    step.ProxyPlay? || step.SinkReceive? || step.SinkEcho? || step.VadEcho?
  }

  lemma EchoMoves(c: Capacities, s: State, step: Step)
    requires EchoOrder(s) && PlaybackCall(s) && Enabled(c, s, step) && MovesEcho(step)
    ensures EchoOrder(Apply(c, s, step))
  {
    var t := Apply(c, s, step);
    if step.SinkEcho? {
      assert s.mirrored + s.echoChannel + [s.sink.echo] == t.mirrored + t.echoChannel + [];
    } else if step.VadEcho? {
      assert s.mirrored + s.echoChannel == t.mirrored + t.echoChannel;
    } else if step.ProxyPlay? {
      assert EchoInFlight(s) == [] && |s.played| == s.sequence;
    }
  }

  lemma StepEchoOrder(c: Capacities, s: State, step: Step)
    requires EchoOrder(s) && PlaybackCall(s) && Enabled(c, s, step)
    ensures EchoOrder(Apply(c, s, step)) && PlaybackCall(Apply(c, s, step))
  {
    StepPlaybackCall(c, s, step);
    if MovesEcho(step) {
      EchoMoves(c, s, step);
    } else {
      assert EchoInFlight(Apply(c, s, step)) == EchoInFlight(s);
    }
  }

  lemma StepBounded(c: Capacities, s: State, step: Step)
    requires Bounded(c, s) && Enabled(c, s, step)
    ensures Bounded(c, Apply(c, s, step))
  {
  }

  lemma JoinedPopped(parts: seq<seq<Pcm>>, pcm: Pcm)
    requires parts != []
    ensures Joined(Popped(parts, pcm)) == Joined(parts) + [pcm]
  {
    var r := Popped(parts, pcm);
    assert r[..|r| - 1] == parts[..|parts| - 1];
  }

  lemma JoinedEmpty(parts: seq<seq<Pcm>>)
    ensures Joined(parts + [[]]) == Joined(parts)
  {
    assert (parts + [[]])[..|parts|] == parts;
  }

  lemma StepPlayOrder(c: Capacities, s: State, step: Step)
    requires PlayOrder(s) && PlaybackCall(s) && Enabled(c, s, step)
    requires |s.taken| == |s.parts| && CurrentOk(s)
    ensures PlayOrder(Apply(c, s, step))
  {
    var t := Apply(c, s, step);
    if step.SinkTick? && s.current.value.frames != [] {
      JoinedPopped(s.parts, s.current.value.frames[0]);
      assert InHand(s) == [];
    } else if step.SinkCommand? {
      JoinedEmpty(s.parts);
    } else if step.ProxyPlay? {
      assert Pcms(t.played) == Pcms(s.played) + [s.sink.pcm];
      assert InHand(s) == [s.sink.pcm] && InHand(t) == [];
    } else {
      assert InHand(t) == InHand(s);
    }
  }

  /** The steps that take up, pop from or end an utterance. */
  predicate MovesUtterance(step: Step) {
    step.SinkInterrupt? || step.SinkCommand? || step.SinkTick?
  }

  lemma StepPart(c: Capacities, s: State, step: Step, k: nat)
    requires Utterances(s) && Enabled(c, s, step) && MovesUtterance(step) && k < |Apply(c, s, step).taken|
    ensures PartOk(Apply(c, s, step), k)
  {
    if k < |s.taken| {
      assert PartOk(s, k);
    }
  }

  lemma StepCurrent(c: Capacities, s: State, step: Step)
    requires Utterances(s) && Enabled(c, s, step) && MovesUtterance(step)
    ensures |Apply(c, s, step).taken| == |Apply(c, s, step).parts| == |Apply(c, s, step).endings|
    ensures CurrentOk(Apply(c, s, step))
  {
    if step.SinkTick? && s.current.value.frames != [] {
      var u, part := s.current.value, s.parts[|s.parts| - 1];
      assert (part + [u.frames[0]]) + u.frames[1..] == part + u.frames;
    }
  }

  lemma StepUtterances(c: Capacities, s: State, step: Step)
    requires Utterances(s) && Enabled(c, s, step)
    ensures Utterances(Apply(c, s, step))
  {
    var t := Apply(c, s, step);
    if MovesUtterance(step) {
      StepCurrent(c, s, step);
      forall k | 0 <= k < |t.taken|
        ensures PartOk(t, k)
      {
        StepPart(c, s, step, k);
      }
    } else {
      forall k | 0 <= k < |t.taken|
        ensures PartOk(t, k)
      {
        assert PartOk(s, k);
      }
    }
  }

  lemma StepInv(c: Capacities, s: State, step: Step)
    requires Inv(c, s) && Enabled(c, s, step)
    ensures Inv(c, Apply(c, s, step))
  {
    StepBounded(c, s, step);
    StepMicOrder(c, s, step);
    StepEchoOrder(c, s, step);
    StepPlayOrder(c, s, step);
    StepUtterances(c, s, step);
  }

  // ---------------------------------------------------------------------------
  // Runs
  // ---------------------------------------------------------------------------

  ghost predicate Run(c: Capacities, trace: seq<State>, steps: seq<Step>) {
    && Positive(c) && |trace| == |steps| + 1 && trace[0] == AT_START
    && forall i | 0 <= i < |steps| :: Enabled(c, trace[i], steps[i]) && trace[i + 1] == Apply(c, trace[i], steps[i])
  }

  lemma {:induction false} RunInv(c: Capacities, trace: seq<State>, steps: seq<Step>, i: nat)
    requires Run(c, trace, steps) && i < |trace|
    ensures Inv(c, trace[i])
  {
    if i > 0 {
      RunInv(c, trace, steps, i - 1);
      StepInv(c, trace[i - 1], steps[i - 1]);
    }
  }

  /**
    Echo correspondence: what the voice-activity actor has taken from the echo
    edge is exactly the first frames the hardware played, in order, numbered
    from zero, each with its own receipt; and it lags by no more than the edge
    and the one frame in hand. The microphone edge loses and reorders nothing.
   */
  lemma EchoMirrorsPlayback(c: Capacities, trace: seq<State>, steps: seq<Step>, i: nat)
    requires Run(c, trace, steps) && i < |trace|
    ensures var s := trace[i];
            && s.mirrored <= s.played && |s.played| - |s.mirrored| <= c.echo + 1
            && (forall k | 0 <= k < |s.played| :: s.played[k].sequence == k)
            && (s.latestEcho.Some? ==> |s.mirrored| > 0 && s.latestEcho.value == s.played[|s.mirrored| - 1])
            && s.heard <= s.captured && |s.captured| - |s.heard| <= c.mic + 1
  {
    RunInv(c, trace, steps, i);
  }

  // ---------------------------------------------------------------------------
  // Utterances and interrupts
  // ---------------------------------------------------------------------------

  /** The utterances commanded in a stretch of steps. */
  function Commanded(steps: seq<Step>): (us: seq<Utterance>) {
    if steps == [] then []
    else
      var last := steps[|steps| - 1];
      Commanded(steps[..|steps| - 1]) + if last.Command? then [last.utterance] else []
  }

  lemma StepTaken(c: Capacities, s: State, step: Step)
    requires Enabled(c, s, step)
    ensures var t := Apply(c, s, step);
            t.taken + t.commandChannel == s.taken + s.commandChannel + if step.Command? then [step.utterance] else []
  {
    var t := Apply(c, s, step);
    if step.SinkCommand? {
      assert s.commandChannel == [s.commandChannel[0]] + t.commandChannel;
    } else if step.Command? {
      assert t.taken == s.taken && t.commandChannel == s.commandChannel + [step.utterance];
    } else {
      assert t.taken == s.taken && t.commandChannel == s.commandChannel;
    }
  }

  lemma {:induction false} TakenInOrder(c: Capacities, trace: seq<State>, steps: seq<Step>, i: nat)
    requires Run(c, trace, steps) && i < |trace|
    ensures trace[i].taken + trace[i].commandChannel == Commanded(steps[..i])
  {
    if i > 0 {
      TakenInOrder(c, trace, steps, i - 1);
      assert steps[..i][..i - 1] == steps[..i - 1];
      StepTaken(c, trace[i - 1], steps[i - 1]);
    }
  }

  /**
    What is played: utterances are taken up in the order they were commanded, of
    each one an initial part is popped, and these parts end to end are what the
    hardware has played, up to one frame in hand. A completed utterance was
    popped to its end, and what is left of the one being played is its rest.
   */
  lemma PlaysUtterances(c: Capacities, trace: seq<State>, steps: seq<Step>, i: nat)
    requires Run(c, trace, steps) && i < |trace|
    ensures var s := trace[i];
            && s.taken + s.commandChannel == Commanded(steps[..i])
            && |s.taken| == |s.parts| == |s.endings|
            && Joined(s.parts) == Pcms(s.played) + InHand(s) && |InHand(s)| <= 1
            && CurrentOk(s) && forall k | 0 <= k < |s.taken| :: PartOk(s, k)
  {
    RunInv(c, trace, steps, i);
    TakenInOrder(c, trace, steps, i);
  }

  /** An utterance stops being played only by running out of frames, by an interrupt or by the next command. */
  lemma EndsOnlyBy(c: Capacities, trace: seq<State>, steps: seq<Step>, i: nat, k: nat)
    requires Run(c, trace, steps) && i < |steps| && k < |trace[i].endings| && trace[i].endings[k].Open?
    ensures k < |trace[i].parts| && k < |trace[i].taken| && k < |trace[i + 1].endings|
    ensures match trace[i + 1].endings[k]
            case Open => true
            case Complete => steps[i].SinkTick? && trace[i].parts[k] == trace[i].taken[k].frames
            case Interrupted => steps[i].SinkInterrupt?
            case Replaced => steps[i].SinkCommand?
    ensures steps[i].SinkInterrupt? ==> trace[i + 1].endings[k].Interrupted? && trace[i + 1].current.None?
  {
    RunInv(c, trace, steps, i);
    assert PartOk(trace[i], k);
  }

  /** Every tick pops the next frame of the utterance being played, or finds it complete. */
  lemma TickAdvances(c: Capacities, trace: seq<State>, steps: seq<Step>, i: nat)
    requires Run(c, trace, steps) && i < |steps| && steps[i].SinkTick?
    ensures var s, t := trace[i], trace[i + 1];
            var k := |s.taken| - 1;
            && 0 <= k < |s.parts| == |t.parts| == |t.endings| && t.taken == s.taken
            && var n := |s.parts[k]|;
               if n < |s.taken[k].frames|
               then t.parts[k] == s.taken[k].frames[..n + 1] && t.sink == SinkSubmitting(s.taken[k].frames[n])
               else t.endings[k].Complete? && t.current.None?
  {
    var s := trace[i];
    RunInv(c, trace, steps, i);
    var k := |s.taken| - 1;
    var whole, n := s.taken[k].frames, |s.parts[k]|;
    assert whole == s.parts[k] + s.current.value.frames;
    if n < |whole| {
      assert whole[n] == s.current.value.frames[0] && whole[..n + 1] == whole[..n] + [whole[n]];
      assert whole[..n] == s.parts[k];
    }
  }

  lemma StepEnded(c: Capacities, s: State, step: Step, k: nat)
    requires Utterances(s) && Enabled(c, s, step) && k < |s.endings| && !s.endings[k].Open?
    ensures var t := Apply(c, s, step);
            k < |t.endings| && k < |t.parts| && t.endings[k] == s.endings[k] && t.parts[k] == s.parts[k]
  {
    assert PartOk(s, k);
    if MovesUtterance(step) {
      assert s.current.Some? ==> k < |s.taken| - 1;
    }
  }

  /** Once ended, no further frame of it is ever popped. */
  lemma {:induction false} EndedForGood(c: Capacities, trace: seq<State>, steps: seq<Step>, i: nat, j: nat, k: nat)
    requires Run(c, trace, steps) && i <= j < |trace| && k < |trace[i].endings| && !trace[i].endings[k].Open?
    ensures k < |trace[j].endings| && k < |trace[j].parts| && k < |trace[i].parts|
    ensures trace[j].endings[k] == trace[i].endings[k] && trace[j].parts[k] == trace[i].parts[k]
    decreases j
  {
    if i == j {
      RunInv(c, trace, steps, i);
    } else {
      EndedForGood(c, trace, steps, i, j - 1, k);
      RunInv(c, trace, steps, j - 1);
      StepEnded(c, trace[j - 1], steps[j - 1], k);
    }
  }

  /** The speech decision on the last microphone frame judged, if any. */
  function LastDecision(steps: seq<Step>): (speaking: bool) {
    if steps == [] then false
    else
      var last := steps[|steps| - 1];
      if last.VadFrame? then last.speaking else LastDecision(steps[..|steps| - 1])
  }

  lemma {:induction false} SpeechFollows(c: Capacities, trace: seq<State>, steps: seq<Step>, i: nat)
    requires Run(c, trace, steps) && i < |trace|
    ensures trace[i].speechActive == LastDecision(steps[..i])
  {
    if i > 0 {
      SpeechFollows(c, trace, steps, i - 1);
      assert steps[..i][..i - 1] == steps[..i - 1];
    }
  }

  /** The judged frame opens a stretch of speech over an echo it is aligned with, and the interrupt fits its edge. */
  predicate Interrupts(c: Capacities, s: State, before: seq<Step>, step: Step) {
    step.VadFrame? && step.speaking && step.aligned && !LastDecision(before) && |s.bargeChannel| < c.barge
  }

  /** An interrupt is raised exactly by such frames, and carries the frame that raised it. */
  lemma InterruptRaisedIff(c: Capacities, trace: seq<State>, steps: seq<Step>, i: nat)
    requires Run(c, trace, steps) && i < |steps|
    ensures var s, t := trace[i], trace[i + 1];
            if Interrupts(c, s, steps[..i], steps[i])
            then s.micChannel != [] && s.latestEcho.Some? && t.bargeChannel == s.bargeChannel + [s.micChannel[0]]
            else t.bargeChannel == (if steps[i].SinkInterrupt? then s.bargeChannel[1..] else s.bargeChannel)
  {
    SpeechFollows(c, trace, steps, i);
  }

  // ---------------------------------------------------------------------------
  // No deadlock
  // ---------------------------------------------------------------------------

  datatype Actor = Proxy | Microphone | Vad | Sink

  /** Actor `a` is in the middle of an operation that only a step of `b` can let it finish. */
  predicate WaitsFor(c: Capacities, s: State, a: Actor, b: Actor) {
    match a
    case Microphone =>
      || (b.Proxy? && s.mic.MicRequesting? && s.captureInbox >= c.capture)
      || (b.Proxy? && s.mic.MicAwaiting? && s.captureReply.None?)
      || (b.Vad? && s.mic.MicSending? && |s.micChannel| >= c.mic)
    case Sink =>
      || (b.Proxy? && s.sink.SinkSubmitting? && |s.playbackInbox| >= c.playback)
      || (b.Proxy? && s.sink.SinkAwaiting? && s.playbackReply.None?)
      || (b.Vad? && s.sink.SinkEchoing? && |s.echoChannel| >= c.echo)
    case _ => false
  }

  function OwnerOf(step: Step): (a: Option<Actor>) {
    match step
    case MicTick | MicRequest | MicReceive | MicSend => Some(Microphone)
    case ProxyPlay(_) | ProxyCapture(_) => Some(Proxy)
    case VadEcho | VadFrame(_, _) => Some(Vad)
    case Command(_) => None
    case _ => Some(Sink)
  }

  /**
    Whoever is waited for is itself able to step at once. Proxy and voice-activity
    actor make no send that can block, so by the definition of waiting the
    relation has no second link, and no cycle.
   */
  lemma WaitsAreServed(c: Capacities, trace: seq<State>, steps: seq<Step>, i: nat, a: Actor, b: Actor)
    requires Run(c, trace, steps) && i < |trace| && WaitsFor(c, trace[i], a, b)
    ensures exists step: Step :: OwnerOf(step) == Some(b) && Enabled(c, trace[i], step)
    ensures forall x: Actor :: !WaitsFor(c, trace[i], b, x)
  {
    RunInv(c, trace, steps, i);
    var s := trace[i];
    if b.Vad? {
      var step := if s.echoChannel != [] then VadEcho else VadFrame(false, false);
      assert OwnerOf(step) == Some(b) && Enabled(c, s, step);
    } else {
      var step := if s.playbackInbox != [] then ProxyPlay(0) else ProxyCapture(None);
      assert OwnerOf(step) == Some(b) && Enabled(c, s, step);
    }
  }

  /** Steps that need neither the 10 ms clock nor a command from outside. */
  predicate Internal(step: Step) {
    !step.MicTick? && !step.SinkTick? && !step.Command?
  }

  /** Nothing is in progress anywhere: both clocked actors at their select, every edge empty. */
  predicate AtRest(s: State) {
    && (s.mic.MicWaiting? || s.mic.MicStopped?) && s.sink.SinkSelecting?
    && s.captureInbox == 0 && s.captureReply.None? && s.playbackInbox == [] && s.playbackReply.None?
    && s.micChannel == [] && s.echoChannel == [] && s.bargeChannel == [] && s.commandChannel == []
  }

  function MicWork(pc: MicPc): (n: nat) {
    match pc
    case MicRequesting => 8
    case MicAwaiting => 4
    case MicSending(_) => 4
    case _ => 0
  }

  function SinkWork(pc: SinkPc): (n: nat) {
    match pc
    case SinkSelecting => 0
    case SinkSubmitting(_) => 8
    case SinkAwaiting(_) => 4
    case SinkEchoing(_) => 4
  }

  /** How much internal work is left. */
  function Work(s: State): (n: nat) {
    MicWork(s.mic) + SinkWork(s.sink) + 2 * s.captureInbox + 2 * |s.playbackInbox|
    + (if s.captureReply.Some? then 1 else 0) + (if s.playbackReply.Some? then 1 else 0)
    + 3 * |s.micChannel| + 3 * |s.echoChannel| + 2 * |s.bargeChannel| + |s.commandChannel|
  }

  lemma InternalStepWorks(c: Capacities, s: State, step: Step)
    requires Inv(c, s) && Enabled(c, s, step) && Internal(step)
    ensures Work(Apply(c, s, step)) < Work(s)
  {
  }

  /** A state in which no internal step is possible is a state of rest, so no set of actors is ever stuck on itself. */
  lemma RestOrStep(c: Capacities, s: State) returns (step: Step)
    requires Inv(c, s) && !AtRest(s)
    ensures Internal(step) && Enabled(c, s, step)
  {
    if s.playbackInbox != [] {
      step := ProxyPlay(0);
    } else if s.captureInbox > 0 {
      step := ProxyCapture(None);
    } else if s.echoChannel != [] {
      step := VadEcho;
    } else if s.micChannel != [] {
      step := VadFrame(false, false);
    } else if !s.sink.SinkSelecting? {
      step := if s.sink.SinkSubmitting? then SinkSubmit else if s.sink.SinkAwaiting? then SinkReceive else SinkEcho;
    } else if s.bargeChannel != [] {
      step := SinkInterrupt;
    } else if s.commandChannel != [] {
      step := SinkCommand;
    } else {
      step := if s.mic.MicRequesting? then MicRequest else if s.mic.MicAwaiting? then MicReceive else MicSend;
    }
  }

  /** All steps of `trace` from `i` to `j` are internal. */
  ghost predicate InternalStretch(steps: seq<Step>, i: nat, j: nat) {
    i <= j <= |steps| && forall k | i <= k < j :: Internal(steps[k])
  }

  lemma {:induction false} StretchWorks(c: Capacities, trace: seq<State>, steps: seq<Step>, i: nat, j: nat)
    requires Run(c, trace, steps) && InternalStretch(steps, i, j)
    ensures Work(trace[j]) + (j - i) <= Work(trace[i])
    decreases j
  {
    if i < j {
      StretchWorks(c, trace, steps, i, j - 1);
      RunInv(c, trace, steps, j - 1);
      InternalStepWorks(c, trace[j - 1], steps[j - 1]);
    }
  }

  /**
    No deadlock and no livelock, for any positive capacities: between clock
    ticks and commands the graph takes at most `Work` steps, and it can only
    stop stepping when everything in progress has been finished.
   */
  lemma GraphComesToRest(c: Capacities, trace: seq<State>, steps: seq<Step>, i: nat, j: nat)
    requires Run(c, trace, steps) && InternalStretch(steps, i, j)
    ensures j - i <= Work(trace[i])
    ensures (forall step: Step | Internal(step) :: !Enabled(c, trace[j], step)) <==> AtRest(trace[j])
  {
    StretchWorks(c, trace, steps, i, j);
    RunInv(c, trace, steps, j);
    if !AtRest(trace[j]) {
      var step := RestOrStep(c, trace[j]);
    }
  }
}
