/** The session actor: one owner of the session state, fed by commands and reporting by events. */
module Session {
  import opened Words
  import opened Types

  datatype SessionState = Idle | Configured | Streaming | Suspended | Closed

  datatype Event =
    | StateChanged(state: SessionState)
    | ConfigurationChanged(configuration: AudioConfiguration)
    | PositionChanged(position: PresentationPosition)

  datatype Command =
    | Configure(configuration: AudioConfiguration)
    | Start
    | Suspend
    | Stop
    | UpdatePosition(position: PresentationPosition)
    | GetPosition
    | Close

  datatype SessionError =
    | CannotConfigure | InvalidConfiguration | NoConfiguration | CannotStart | CannotSuspend | CannotStop
    | NotStreaming | ClockBackwards | OctetsBackwards | OffloadOctets

  datatype Reply = Done | Failed(error: SessionError) | At(position: PresentationPosition)

  datatype SessionData = SessionData(
    state: SessionState,
    configuration: Option<AudioConfiguration>,
    position: PresentationPosition)

  const FRESH := SessionData(Idle, None, START_POSITION)

  datatype Outcome = Outcome(next: SessionData, reply: Reply, events: seq<Event>)

  function Rejected(s: SessionData, e: SessionError): (o: Outcome) {
    Outcome(s, Failed(e), [])
  }

  function MoveTo(s: SessionData, state: SessionState): (o: Outcome) {
    Outcome(s.(state := state), Done, [StateChanged(state)])
  }

  /** Why a position report is refused, if it is. */
  function PositionProblem(t: SessionType, s: SessionData, next: PresentationPosition): (e: Option<SessionError>) {
    if s.state != Streaming then Some(NotStreaming)
    else if next.monotonicTimeNs < s.position.monotonicTimeNs then Some(ClockBackwards)
    else if t.CarriesHostPayload() && next.transmittedOctets < s.position.transmittedOctets then Some(OctetsBackwards)
    else if !t.CarriesHostPayload() && next.transmittedOctets != 0 then Some(OffloadOctets)
    else None
  }

  /** One command, as a function of the session it finds. */
  function Handle(t: SessionType, s: SessionData, c: Command): (o: Outcome) {
    match c
    case Configure(next) =>
      if s.state !in {Idle, Configured, Suspended} then Rejected(s, CannotConfigure)
      else if !next.ValidFor(t) then Rejected(s, InvalidConfiguration)
      else Outcome(s.(state := Configured, configuration := Some(next)), Done,
                   [ConfigurationChanged(next), StateChanged(Configured)])
    case Start =>
      if s.configuration.None? then Rejected(s, NoConfiguration)
      else if s.state !in {Configured, Suspended} then Rejected(s, CannotStart)
      else MoveTo(s, Streaming)
    case Suspend =>
      if s.state != Streaming then Rejected(s, CannotSuspend) else MoveTo(s, Suspended)
    case Stop =>
      if s.state in {Idle, Closed} then Rejected(s, CannotStop)
      else Outcome(FRESH, Done, [StateChanged(Idle)])
    case UpdatePosition(next) =>
      var problem := PositionProblem(t, s, next);
      if problem.Some? then Rejected(s, problem.value)
      else Outcome(s.(position := next), Done, [PositionChanged(next)])
    case GetPosition => Outcome(s, At(s.position), [])
    case Close => MoveTo(s, Closed)
  }

  // ---------------------------------------------------------------------------
  // Whole runs
  // ---------------------------------------------------------------------------

  /** The session after a run of commands. */
  function After(t: SessionType, cs: seq<Command>): (s: SessionData) {
    if cs == [] then FRESH else Handle(t, After(t, cs[..|cs| - 1]), cs[|cs| - 1]).next
  }

  /** All events a run has emitted, in order. */
  function EventsOf(t: SessionType, cs: seq<Command>): (es: seq<Event>) {
    if cs == [] then []
    else EventsOf(t, cs[..|cs| - 1]) + Handle(t, After(t, cs[..|cs| - 1]), cs[|cs| - 1]).events
  }

  function ReplyAt(t: SessionType, cs: seq<Command>, i: nat): (r: Reply)
    requires i < |cs|
  {
    Handle(t, After(t, cs[..i]), cs[i]).reply
  }

  lemma AfterOneMore(t: SessionType, cs: seq<Command>, c: Command)
    ensures After(t, cs + [c]) == Handle(t, After(t, cs), c).next
    ensures EventsOf(t, cs + [c]) == EventsOf(t, cs) + Handle(t, After(t, cs), c).events
    ensures ReplyAt(t, cs + [c], |cs|) == Handle(t, After(t, cs), c).reply
    ensures forall i | 0 <= i < |cs| :: ReplyAt(t, cs + [c], i) == ReplyAt(t, cs, i)
  {
    assert (cs + [c])[..|cs|] == cs;
    forall i | 0 <= i < |cs|
      ensures ReplyAt(t, cs + [c], i) == ReplyAt(t, cs, i)
    {
      assert (cs + [c])[..i] == cs[..i];
    }
  }

  lemma AfterNext(t: SessionType, cs: seq<Command>, i: nat)
    requires i < |cs|
    ensures After(t, cs[..i + 1]) == Handle(t, After(t, cs[..i]), cs[i]).next
    ensures EventsOf(t, cs[..i + 1]) == EventsOf(t, cs[..i]) + Handle(t, After(t, cs[..i]), cs[i]).events
  {
    assert cs[..i + 1] == cs[..i] + [cs[i]];
    AfterOneMore(t, cs[..i], cs[i]);
  }

  // ---------------------------------------------------------------------------
  // Events tell the whole story
  // ---------------------------------------------------------------------------

  /** What a listener that sees only events makes of one of them. */
  function Observe(s: SessionData, e: Event): (r: SessionData) {
    match e
    case StateChanged(Idle) => FRESH
    case StateChanged(state) => s.(state := state)
    case ConfigurationChanged(c) => s.(configuration := Some(c))
    case PositionChanged(p) => s.(position := p)
  }

  function Replay(es: seq<Event>): (s: SessionData) {
    if es == [] then FRESH else Observe(Replay(es[..|es| - 1]), es[|es| - 1])
  }

  /** Observing a list of events one after the other. */
  function ObserveAll(s: SessionData, es: seq<Event>): (r: SessionData) {
    if es == [] then s else Observe(ObserveAll(s, es[..|es| - 1]), es[|es| - 1])
  }

  lemma {:induction false} ReplayContinues(es: seq<Event>, more: seq<Event>)
    ensures Replay(es + more) == ObserveAll(Replay(es), more)
  {
    if more == [] {
      assert es + more == es;
    } else {
      ReplayContinues(es, more[..|more| - 1]);
      assert (es + more)[..|es + more| - 1] == es + more[..|more| - 1];
    }
  }

  /** The events of one command carry all it changed. */
  lemma EventsCarryChange(t: SessionType, s: SessionData, c: Command)
    ensures ObserveAll(s, Handle(t, s, c).events) == Handle(t, s, c).next
  {
    if c.Configure? {
      var first := [ConfigurationChanged(c.configuration)];
      assert ObserveAll(s, first) == Observe(s, first[0]) by {
        assert first[..0] == [];
      }
      assert [first[0], StateChanged(Configured)][..1] == first;
    }
  }

  /** Replaying the events alone reconstructs state, configuration and position at every command boundary. */
  lemma {:induction false} ReplayReconstructs(t: SessionType, cs: seq<Command>)
    ensures Replay(EventsOf(t, cs)) == After(t, cs)
  {
    if cs != [] {
      var before, last := cs[..|cs| - 1], cs[|cs| - 1];
      ReplayReconstructs(t, before);
      ReplayContinues(EventsOf(t, before), Handle(t, After(t, before), last).events);
      EventsCarryChange(t, After(t, before), last);
    }
  }

  /** A command is refused exactly when it is not a query and leaves no event; then nothing has changed. */
  lemma RefusedIffSilent(t: SessionType, s: SessionData, c: Command)
    ensures var o := Handle(t, s, c);
            (o.reply.Failed? <==> o.events == [] && !c.GetPosition?) && (o.events == [] ==> o.next == s)
  {
  }

  // ---------------------------------------------------------------------------
  // Reachable sessions
  // ---------------------------------------------------------------------------

  predicate Coherent(t: SessionType, s: SessionData) {
    && (s.state != Closed ==> (s.state == Idle <==> s.configuration.None?))
    && (s.configuration.Some? ==> s.configuration.value.ValidFor(t))
    && (s.configuration.None? ==> s.position == START_POSITION)
    && (t.IsOffloaded() ==> s.position.transmittedOctets == 0)
  }

  lemma {:induction false} ReachableCoherent(t: SessionType, cs: seq<Command>)
    ensures Coherent(t, After(t, cs))
  {
    if cs != [] {
      ReachableCoherent(t, cs[..|cs| - 1]);
    }
  }

  /** The session diagram: which commands succeed in which state, told without the configuration. */
  predicate Allowed(t: SessionType, s: SessionData, c: Command) {
    match c
    case Configure(next) => s.state in {Idle, Configured, Suspended} && next.ValidFor(t)
    case Start => s.state in {Configured, Suspended}
    case Suspend => s.state == Streaming
    case Stop => s.state in {Configured, Streaming, Suspended}
    case UpdatePosition(next) =>
      && s.state == Streaming && s.position.monotonicTimeNs <= next.monotonicTimeNs
      && if t.IsOffloaded() then next.transmittedOctets == 0 else s.position.transmittedOctets <= next.transmittedOctets
    case GetPosition => true
    case Close => true
  }

  /**
    After any run a command succeeds exactly when the diagram allows it. The
    configuration Start looks for is never missing in a state that allows it.
   */
  lemma SucceedsIffAllowed(t: SessionType, cs: seq<Command>, c: Command)
    ensures !ReplyAt(t, cs + [c], |cs|).Failed? <==> Allowed(t, After(t, cs), c)
    ensures ReplyAt(t, cs + [c], |cs|) == Failed(NoConfiguration) <==> c.Start? && After(t, cs).configuration.None?
  {
    ReachableCoherent(t, cs);
    AfterOneMore(t, cs, c);
  }

  /** Where a successful command leads. */
  function Target(s: SessionData, c: Command): (r: SessionData) {
    match c
    case Configure(next) => SessionData(Configured, Some(next), s.position)
    case Start => SessionData(Streaming, s.configuration, s.position)
    case Suspend => SessionData(Suspended, s.configuration, s.position)
    case Stop => FRESH
    case UpdatePosition(next) => SessionData(s.state, s.configuration, next)
    case GetPosition => s
    case Close => SessionData(Closed, s.configuration, s.position)
  }

  /** What a successful command tells the listener, in this order. */
  function Announced(c: Command): (es: seq<Event>) {
    match c
    case Configure(next) => [ConfigurationChanged(next), StateChanged(Configured)]
    case Start => [StateChanged(Streaming)]
    case Suspend => [StateChanged(Suspended)]
    case Stop => [StateChanged(Idle)]
    case UpdatePosition(next) => [PositionChanged(next)]
    case GetPosition => []
    case Close => [StateChanged(Closed)]
  }

  /** The reason given for a command that the diagram does not allow. */
  predicate Reason(t: SessionType, s: SessionData, c: Command, e: SessionError) {
    match e
    case CannotConfigure => c.Configure? && s.state in {Streaming, Closed}
    case InvalidConfiguration => c.Configure? && s.state !in {Streaming, Closed} && !c.configuration.ValidFor(t)
    case NoConfiguration => c.Start? && s.configuration.None?
    case CannotStart => c.Start? && s.configuration.Some? && s.state in {Streaming, Closed}
    case CannotSuspend => c.Suspend? && s.state != Streaming
    case CannotStop => c.Stop? && s.state in {Idle, Closed}
    case NotStreaming => c.UpdatePosition? && s.state != Streaming
    case ClockBackwards =>
      c.UpdatePosition? && s.state == Streaming && c.position.monotonicTimeNs < s.position.monotonicTimeNs
    case OctetsBackwards =>
      && c.UpdatePosition? && s.state == Streaming && s.position.monotonicTimeNs <= c.position.monotonicTimeNs
      && !t.IsOffloaded() && c.position.transmittedOctets < s.position.transmittedOctets
    case OffloadOctets =>
      && c.UpdatePosition? && s.state == Streaming && s.position.monotonicTimeNs <= c.position.monotonicTimeNs
      && t.IsOffloaded() && c.position.transmittedOctets > 0
  }

  lemma HandleAllowed(t: SessionType, s: SessionData, c: Command)
    requires Coherent(t, s) && Allowed(t, s, c)
    ensures Handle(t, s, c) == Outcome(Target(s, c), if c.GetPosition? then At(s.position) else Done, Announced(c))
  {
  }

  lemma HandleRefused(t: SessionType, s: SessionData, c: Command)
    requires Coherent(t, s) && !Allowed(t, s, c)
    ensures Handle(t, s, c).next == s && Handle(t, s, c).events == [] && Handle(t, s, c).reply.Failed?
  {
  }

  lemma HandleReason(t: SessionType, s: SessionData, c: Command, e: SessionError)
    requires Coherent(t, s) && !Allowed(t, s, c)
    ensures Reason(t, s, c, e) <==> Handle(t, s, c).reply == Failed(e)
  {
  }

  /**
    The next session, its new events and the reply, after any run and for any
    command that the diagram allows.
   */
  lemma NextSession(t: SessionType, cs: seq<Command>, c: Command)
    requires Allowed(t, After(t, cs), c)
    ensures After(t, cs + [c]) == Target(After(t, cs), c)
    ensures EventsOf(t, cs + [c]) == EventsOf(t, cs) + Announced(c)
    ensures ReplyAt(t, cs + [c], |cs|) == if c.GetPosition? then At(After(t, cs).position) else Done
  {
    ReachableCoherent(t, cs);
    HandleAllowed(t, After(t, cs), c);
    AfterOneMore(t, cs, c);
  }

  /** Any other command changes nothing, says nothing, and is refused for the one reason that applies. */
  lemma RefusedCommand(t: SessionType, cs: seq<Command>, c: Command)
    requires !Allowed(t, After(t, cs), c)
    ensures After(t, cs + [c]) == After(t, cs) && EventsOf(t, cs + [c]) == EventsOf(t, cs)
    ensures forall e: SessionError ::
              Reason(t, After(t, cs), c, e) <==> ReplyAt(t, cs + [c], |cs|) == Failed(e)
  {
    ReachableCoherent(t, cs);
    HandleRefused(t, After(t, cs), c);
    AfterOneMore(t, cs, c);
    forall e: SessionError
      ensures Reason(t, After(t, cs), c, e) <==> ReplyAt(t, cs + [c], |cs|) == Failed(e)
    {
      HandleReason(t, After(t, cs), c, e);
    }
  }

  /** Command `k` of the run was accepted and set or reset the position. */
  predicate MovesPosition(t: SessionType, cs: seq<Command>, k: nat) {
    k < |cs| && (cs[k].UpdatePosition? || cs[k].Stop?) && !ReplyAt(t, cs, k).Failed?
  }

  /** It was the last to do so. */
  ghost predicate LastMove(t: SessionType, cs: seq<Command>, k: nat) {
    MovesPosition(t, cs, k) && forall j | k < j < |cs| :: !MovesPosition(t, cs, j)
  }

  lemma MovesBefore(t: SessionType, cs: seq<Command>, c: Command, k: nat)
    requires k < |cs|
    ensures MovesPosition(t, cs + [c], k) <==> MovesPosition(t, cs, k)
  {
    AfterOneMore(t, cs, c);
  }

  /** The position, read off the history: the last one accepted since the last accepted stop, or the start. */
  lemma {:induction false} PositionFromHistory(t: SessionType, cs: seq<Command>)
    ensures forall k: nat | LastMove(t, cs, k) ::
              After(t, cs).position == if cs[k].Stop? then START_POSITION else cs[k].position
    ensures (forall k: nat | k < |cs| :: !MovesPosition(t, cs, k)) ==> After(t, cs).position == START_POSITION
  {
    if cs != [] {
      var init, last := cs[..|cs| - 1], cs[|cs| - 1];
      assert cs == init + [last];
      PositionFromHistory(t, init);
      if Allowed(t, After(t, init), last) {
        NextSession(t, init, last);
      } else {
        RefusedCommand(t, init, last);
      }
      SucceedsIffAllowed(t, init, last);
      forall k: nat | k < |init|
        ensures MovesPosition(t, cs, k) <==> MovesPosition(t, init, k)
      {
        MovesBefore(t, init, last, k);
      }
      forall k: nat | LastMove(t, cs, k)
        ensures After(t, cs).position == if cs[k].Stop? then START_POSITION else cs[k].position
      {
        if k < |init| {
          assert LastMove(t, init, k) && !MovesPosition(t, cs, |init|);
        }
      }
      if forall k: nat | k < |cs| :: !MovesPosition(t, cs, k) {
        assert !MovesPosition(t, cs, |init|);
      }
    }
  }

  /** A query after any run answers with that position. */
  lemma QueryAnswers(t: SessionType, cs: seq<Command>, k: nat)
    requires LastMove(t, cs, k)
    ensures ReplyAt(t, cs + [GetPosition], |cs|)
         == At(if cs[k].Stop? then START_POSITION else cs[k].position)
  {
    PositionFromHistory(t, cs);
    NextSession(t, cs, GetPosition);
  }

  /** A session can be configured and started, and then reports the position it was given. */
  lemma StreamingReports(t: SessionType, next: AudioConfiguration, p: PresentationPosition)
    requires next.ValidFor(t) && (t.IsOffloaded() ==> p.transmittedOctets == 0)
    ensures var cs := [Configure(next), Start, UpdatePosition(p)];
            After(t, cs) == SessionData(Streaming, Some(next), p)
            && ReplyAt(t, cs + [GetPosition], 3) == At(p)
  {
    NextSession(t, [], Configure(next));
    assert [] + [Configure(next)] == [Configure(next)];
    NextSession(t, [Configure(next)], Start);
    assert [Configure(next)] + [Start] == [Configure(next), Start];
    NextSession(t, [Configure(next), Start], UpdatePosition(p));
    var cs := [Configure(next), Start, UpdatePosition(p)];
    assert [Configure(next), Start] + [UpdatePosition(p)] == cs;
    NextSession(t, cs, GetPosition);
  }

  /** What an offloaded session can hold, in any state it can reach. */
  lemma OffloadedConfigurations(t: SessionType, cs: seq<Command>)
    requires t.IsOffloaded()
    ensures var s := After(t, cs);
            && s.position.transmittedOctets == 0
            && (s.configuration.Some? && t.IsBroadcast() ==>
                  var c := s.configuration.value;
                  c.LeBroadcast? && 1 <= |c.broadcast.subgroups| <= |AllIndices(c.broadcast.subgroups)| <= 31)
            && (s.configuration.Some? && !t.IsBroadcast() ==>
                  var c := s.configuration.value;
                  c.LeAudio? && c.le.ases != []
                  && forall a | a in c.le.ases ::
                       0 < a.lc3.octetsPerCodecFrame * a.lc3.codecFramesPerSdu <= a.qos.maxSdu)
  {
    ReachableCoherent(t, cs);
    var s := After(t, cs);
    if s.configuration.Some? {
      var c := s.configuration.value;
      if t.IsBroadcast() {
        BroadcastIsSmall(c.broadcast);
      } else {
        forall a | a in c.le.ases
          ensures 0 < a.lc3.octetsPerCodecFrame * a.lc3.codecFramesPerSdu <= a.qos.maxSdu
        {
          assert a.Valid();
          MulMono(1, a.lc3.codecFramesPerSdu, a.lc3.octetsPerCodecFrame);
        }
      }
    }
  }

  /** No command in `cs[i..j]` stopped the session. */
  predicate NoStopBetween(t: SessionType, cs: seq<Command>, i: nat, j: nat) {
    i <= j <= |cs| && forall k | i <= k < j :: cs[k].Stop? ==> ReplyAt(t, cs, k).Failed?
  }

  /** Within one epoch the presentation clock never runs backwards, and host octet counts never shrink. */
  lemma {:induction false} ClockIsMonotone(t: SessionType, cs: seq<Command>, i: nat, j: nat)
    requires NoStopBetween(t, cs, i, j)
    ensures var a, b := After(t, cs[..i]).position, After(t, cs[..j]).position;
            a.monotonicTimeNs <= b.monotonicTimeNs
            && (t.CarriesHostPayload() ==> a.transmittedOctets <= b.transmittedOctets)
    decreases j
  {
    if i < j {
      ClockIsMonotone(t, cs, i, j - 1);
      assert cs[..j][..j - 1] == cs[..j - 1];
      assert cs[j - 1].Stop? ==> ReplyAt(t, cs, j - 1).Failed?;
      RefusedIffSilent(t, After(t, cs[..j - 1]), cs[j - 1]);
    }
  }

  // ---------------------------------------------------------------------------
  // The actor itself
  // ---------------------------------------------------------------------------

  /** How many commands the loop takes before it ends: all of them, or up to and including the first Close. */
  function Served(cs: seq<Command>): (n: nat)
    ensures n <= |cs|
    ensures forall i | 0 <= i < n - 1 :: !cs[i].Close?
    ensures n < |cs| ==> 0 < n && cs[n - 1].Close?
  {
    if cs == [] then 0 else if cs[0].Close? then 1 else 1 + Served(cs[1..])
  }

  class SessionActor {
    const sessionType: SessionType
    var state: SessionState
    var configuration: Option<AudioConfiguration>
    var position: PresentationPosition
    var events: seq<Event>

    function Data(): (s: SessionData)
      reads this
    {
      SessionData(state, configuration, position)
    }

    constructor (t: SessionType)
      ensures sessionType == t && Data() == FRESH && events == []
    {
      sessionType := t;
      state, configuration, position, events := Idle, None, START_POSITION, [];
    }

    method Emit(e: Event)
      modifies this`events
      ensures events == old(events) + [e]
    {
      events := events + [e];
    }

    method SetState(next: SessionState)
      modifies this`state, this`events
      ensures state == next && events == old(events) + [StateChanged(next)]
    {
      state := next;
      Emit(StateChanged(state));
    }

    /** One turn of the actor loop. */
    method Process(command: Command) returns (reply: Reply)
      modifies this
      ensures var o := Handle(sessionType, old(Data()), command);
              Data() == o.next && reply == o.reply && events == old(events) + o.events
    {
      match command {
        case Configure(next) =>
          if state != Idle && state != Configured && state != Suspended {
            return Failed(CannotConfigure);
          }
          if !next.ValidFor(sessionType) {
            return Failed(InvalidConfiguration);
          }
          configuration := Some(next);
          Emit(ConfigurationChanged(next));
          SetState(Configured);
          return Done;
        case Start =>
          if configuration.None? {
            return Failed(NoConfiguration);
          }
          if state != Configured && state != Suspended {
            return Failed(CannotStart);
          }
          SetState(Streaming);
          return Done;
        case Suspend =>
          if state != Streaming {
            return Failed(CannotSuspend);
          }
          SetState(Suspended);
          return Done;
        case Stop =>
          if state == Idle || state == Closed {
            return Failed(CannotStop);
          }
          configuration := None;
          position := START_POSITION;
          SetState(Idle);
          return Done;
        case UpdatePosition(next) =>
          if state != Streaming {
            return Failed(NotStreaming);
          }
          if next.monotonicTimeNs < position.monotonicTimeNs {
            return Failed(ClockBackwards);
          }
          if sessionType.CarriesHostPayload() {
            if next.transmittedOctets < position.transmittedOctets {
              return Failed(OctetsBackwards);
            }
          } else if next.transmittedOctets != 0 {
            return Failed(OffloadOctets);
          }
          position := next;
          Emit(PositionChanged(next));
          return Done;
        case GetPosition =>
          return At(position);
        case Close =>
          SetState(Closed);
          return Done;
      }
    }

    /** What the actor has done once it has answered the first n commands of the inbox. */
    ghost predicate Answered(commands: seq<Command>, n: nat, replies: seq<Reply>)
      requires n <= |commands|
      reads this
    {
      && Data() == After(sessionType, commands[..n]) && events == EventsOf(sessionType, commands[..n])
      && |replies| == n && (forall i | 0 <= i < n :: replies[i] == ReplyAt(sessionType, commands, i))
    }

    /** The turn that answers the next command. */
    method Turn(commands: seq<Command>, i: nat, replies: seq<Reply>) returns (more: seq<Reply>)
      requires i < |commands| && state != Closed && Answered(commands, i, replies)
      modifies this
      ensures Answered(commands, i + 1, more)
      ensures state == Closed <==> commands[i].Close?
    {
      var reply := Process(commands[i]);
      AfterNext(sessionType, commands, i);
      more := replies + [reply];
    }

    /** The actor loop: serve commands in order until the inbox ends or a Close has been answered. */
    method Serve(commands: seq<Command>) returns (replies: seq<Reply>)
      requires Data() == FRESH && events == []
      modifies this
      ensures Answered(commands, Served(commands), replies)
      ensures state == Closed <==> 0 < Served(commands) && commands[Served(commands) - 1].Close?
    {
      replies := [];
      var i := 0;
      while i < |commands|
        invariant 0 <= i <= |commands| && Answered(commands, i, replies)
        invariant forall k | 0 <= k < i :: !commands[k].Close?
        invariant state != Closed
      {
        replies := Turn(commands, i, replies);
        i := i + 1;
        if commands[i - 1].Close? {
          break;
        }
      }
      ServedIs(commands, i);
    }
  }

  lemma {:induction false} ServedIs(cs: seq<Command>, n: nat)
    requires n <= |cs| && (forall i | 0 <= i < n - 1 :: !cs[i].Close?)
    requires (n < |cs| ==> 0 < n) && (n == |cs| || cs[n - 1].Close?)
    ensures Served(cs) == n
  {
    if 1 < n {
      ServedIs(cs[1..], n - 1);
    }
  }
}
