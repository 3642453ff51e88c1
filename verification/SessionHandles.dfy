/**
  Any number of cloned session handles calling one actor through its bounded
  inbox, interleaved step by step: invoke, enqueue, receive, emit each event
  into the bounded event channel, reply, return. The event consumer may lag or
  go away; the actor may close.
 */
module SessionHandles {
  import opened Words
  import opened Types
  import opened Session

  const CHANNEL_BOUND: nat := 16

  datatype Result = Replied(turn: nat, reply: Reply) | SessionStopped | ReplyDropped

  datatype Phase =
    | Sending                            // the command is waiting for room in the inbox
    | Queued
    | Processing(turn: nat)              // received as number `turn`
    | Answered(turn: nat, reply: Reply)  // the reply has been sent but not yet picked up
    | Returned(result: Result, at: nat)

  datatype Op = Op(command: Command, invokedAt: nat, phase: Phase)

  datatype ActorPc =
    | Receiving
    | Emitting(op: nat, pending: seq<Event>, reply: Reply)
    | Leaving    // the loop is over, the inbox still accepts commands
    | Stopped    // the inbox is gone, and with it whatever was queued

  datatype Taken = Taken(op: nat, command: Command, at: nat)

  datatype State = State(
    now: nat,
    ops: map<nat, Op>,
    inbox: seq<nat>,
    actor: ActorPc,
    session: SessionData,
    eventQueue: seq<Event>,
    eventsOpen: bool,
    consumed: seq<Event>,   // history: events the consumer has received
    taken: seq<Taken>)      // history: commands in the order the actor received them

  datatype Step =
    | Invoke(op: nat, command: Command)
    | Enqueue(op: nat)
    | SendFails(op: nat)
    | Receive
    | EmitEvent
    | EmitFails
    | SendReply
    | Return(op: nat)
    | ReturnDropped(op: nat)
    | ConsumeEvent
    | DropEventConsumer
    | AllHandlesDropped
    | DropInbox

  const INITIAL := State(0, map[], [], Receiving, FRESH, [], true, [], [])

  predicate Enabled(s: State, step: Step) {
    match step
    case Invoke(id, _) => id !in s.ops
    case Enqueue(id) => id in s.ops && s.ops[id].phase.Sending? && !s.actor.Stopped? && |s.inbox| < CHANNEL_BOUND
    case SendFails(id) => id in s.ops && s.ops[id].phase.Sending? && s.actor.Stopped?
    case Receive => s.actor.Receiving? && s.inbox != [] && s.inbox[0] in s.ops
    case EmitEvent =>
      s.actor.Emitting? && s.actor.pending != [] && s.eventsOpen && |s.eventQueue| < CHANNEL_BOUND
    case EmitFails => s.actor.Emitting? && s.actor.pending != [] && !s.eventsOpen
    case SendReply =>
      s.actor.Emitting? && s.actor.pending == [] && s.actor.op in s.ops && s.ops[s.actor.op].phase.Processing?
    case Return(id) => id in s.ops && s.ops[id].phase.Answered?
    case ReturnDropped(id) =>
      && id in s.ops
      && ((s.ops[id].phase.Queued? && s.actor.Stopped?)
          || (s.ops[id].phase.Processing? && (s.actor.Stopped? || s.actor.Leaving?)))
    case ConsumeEvent => s.eventQueue != [] && s.eventsOpen
    case DropEventConsumer => s.eventsOpen
    case AllHandlesDropped =>
      s.actor.Receiving? && s.inbox == [] && forall id | id in s.ops :: s.ops[id].phase.Returned?
    case DropInbox => s.actor.Leaving?
  }

  function SetPhase(s: State, id: nat, phase: Phase): (t: State)
    requires id in s.ops
  {
    s.(ops := s.ops[id := s.ops[id].(phase := phase)])
  }

  function Act(t: SessionType, s: State, step: Step): (r: State)
    requires Enabled(s, step)
  {
    match step
    case Invoke(id, c) => s.(ops := s.ops[id := Op(c, s.now, Sending)])
    case Enqueue(id) => SetPhase(s, id, Queued).(inbox := s.inbox + [id])
    case SendFails(id) => SetPhase(s, id, Returned(SessionStopped, s.now))
    case Receive =>
      var id := s.inbox[0];
      var c := s.ops[id].command;
      var o := Handle(t, s.session, c);
      SetPhase(s, id, Processing(|s.taken|)).(
        inbox := s.inbox[1..], session := o.next, actor := Emitting(id, o.events, o.reply),
        taken := s.taken + [Taken(id, c, s.now)])
    case EmitEvent =>
      s.(eventQueue := s.eventQueue + [s.actor.pending[0]],
         actor := Emitting(s.actor.op, s.actor.pending[1..], s.actor.reply))
    case EmitFails => s.(actor := Leaving)
    case SendReply =>
      var id := s.actor.op;
      var turn := s.ops[id].phase.turn;
      var r := SetPhase(s, id, Answered(turn, s.actor.reply));
      r.(actor := if s.ops[id].command.Close? then Leaving else Receiving)
    case Return(id) =>
      var phase := s.ops[id].phase;
      SetPhase(s, id, Returned(Replied(phase.turn, phase.reply), s.now))
    case ReturnDropped(id) => SetPhase(s, id, Returned(ReplyDropped, s.now))
    case ConsumeEvent => s.(eventQueue := s.eventQueue[1..], consumed := s.consumed + [s.eventQueue[0]])
    case DropEventConsumer => s.(eventsOpen := false)
    case AllHandlesDropped => s.(actor := Leaving)
    case DropInbox => s.(actor := Stopped, inbox := [])
  }

  function Apply(t: SessionType, s: State, step: Step): (r: State)
    requires Enabled(s, step)
  {
    Act(t, s, step).(now := s.now + 1)
  }

  // ---------------------------------------------------------------------------
  // The invariant
  // ---------------------------------------------------------------------------

  function Commands(taken: seq<Taken>): (cs: seq<Command>)
    ensures |cs| == |taken|
  {
    seq(|taken|, i requires 0 <= i < |taken| => taken[i].command)
  }

  /** Every event sent so far, delivered or still in the channel. */
  function Log(s: State): (es: seq<Event>) {
    s.consumed + s.eventQueue
  }

  /** The turn a phase belongs to, if the command has been received and its reply not lost. */
  function TurnOf(p: Phase): (k: Option<nat>) {
    match p
    case Processing(k) => Some(k)
    case Answered(k, _) => Some(k)
    case Returned(Replied(k, _), _) => Some(k)
    case _ => None
  }

  function ReplyIn(p: Phase): (r: Option<Reply>) {
    match p
    case Answered(_, r) => Some(r)
    case Returned(Replied(_, r), _) => Some(r)
    case _ => None
  }

  /** Operation `id` agrees with the receive order. */
  predicate OpOk(s: State, id: nat)
    requires id in s.ops
  {
    var op := s.ops[id];
    && op.invokedAt < s.now
    && (op.phase.Returned? ==> op.phase.at < s.now)
    && (TurnOf(op.phase).Some? ==> TurnOf(op.phase).value < |s.taken| && s.taken[TurnOf(op.phase).value].op == id)
  }

  /** Turn `k` agrees with its operation. */
  predicate TurnOk(s: State, k: nat)
    requires k < |s.taken|
  {
    var turn := s.taken[k];
    && turn.op in s.ops && turn.at < s.now
    && var op := s.ops[turn.op];
       && op.command == turn.command && op.invokedAt < turn.at
       && (op.phase.Returned? ==> turn.at < op.phase.at)
       && (TurnOf(op.phase) == Some(k) || (op.phase.Returned? && op.phase.result.ReplyDropped?))
  }

  predicate ReplyOk(t: SessionType, s: State, k: nat)
    requires k < |s.taken| && s.taken[k].op in s.ops
  {
    var r := ReplyIn(s.ops[s.taken[k].op].phase);
    r.Some? ==> r.value == ReplyAt(t, Commands(s.taken), k) && EventsOf(t, Commands(s.taken)[..k + 1]) <= Log(s)
  }

  predicate Bookkeeping(s: State) {
    && (forall id | id in s.ops :: OpOk(s, id))
    && (forall k | 0 <= k < |s.taken| :: TurnOk(s, k))
    && (forall i, j | 0 <= i < j < |s.taken| :: s.taken[i].at < s.taken[j].at && s.taken[i].op != s.taken[j].op)
  }

  predicate Mailbox(s: State) {
    && |s.inbox| <= CHANNEL_BOUND && |s.eventQueue| <= CHANNEL_BOUND
    && (forall id | id in s.inbox :: id in s.ops && s.ops[id].phase.Queued?)
    && (forall i, j | 0 <= i < j < |s.inbox| :: s.inbox[i] != s.inbox[j])
    && (s.actor.Stopped? ==> s.inbox == [])
  }

  predicate Replies(t: SessionType, s: State) {
    forall k | 0 <= k < |s.taken| :: s.taken[k].op in s.ops && ReplyOk(t, s, k)
  }

  predicate ActorOk(t: SessionType, s: State) {
    var cs := Commands(s.taken);
    && s.session == After(t, cs)
    && (forall k | 0 <= k < |cs| - 1 :: !cs[k].Close?)
    && match s.actor
       case Receiving => Log(s) == EventsOf(t, cs) && (cs != [] ==> !cs[|cs| - 1].Close?)
       case Emitting(id, pending, reply) =>
         && Log(s) + pending == EventsOf(t, cs)
         && cs != [] && s.taken[|cs| - 1].op == id && id in s.ops && s.ops[id].phase == Processing(|cs| - 1)
         && s.ops[id].command == cs[|cs| - 1] && reply == ReplyAt(t, cs, |cs| - 1)
       case _ => Log(s) <= EventsOf(t, cs)
  }

  predicate Inv(t: SessionType, s: State) {
    Bookkeeping(s) && Mailbox(s) && Replies(t, s) && ActorOk(t, s)
  }

  // ---------------------------------------------------------------------------
  // One step keeps the invariant
  // ---------------------------------------------------------------------------

  lemma InitialInv(t: SessionType)
    ensures Inv(t, INITIAL)
  {
  }

  lemma CommandsGrow(taken: seq<Taken>, one: Taken)
    ensures Commands(taken + [one]) == Commands(taken) + [one.command]
  {
  }

  /** The step moves one operation to a new phase (or starts it) and leaves the receive history alone. */
  predicate IsPhaseStep(step: Step) {
    step.Invoke? || step.Enqueue? || step.SendFails? || step.Return? || step.ReturnDropped?
  }

  lemma PhaseOp(t: SessionType, s: State, step: Step, id: nat)
    requires Enabled(s, step) && IsPhaseStep(step) && id in Apply(t, s, step).ops && (id in s.ops ==> OpOk(s, id))
    ensures OpOk(Apply(t, s, step), id)
  {
  }

  lemma PhaseTurn(t: SessionType, s: State, step: Step, k: nat)
    requires Enabled(s, step) && IsPhaseStep(step) && k < |s.taken| && TurnOk(s, k)
    ensures TurnOk(Apply(t, s, step), k)
  {
  }

  lemma PhaseBookkeeping(t: SessionType, s: State, step: Step)
    requires Bookkeeping(s) && Enabled(s, step) && IsPhaseStep(step)
    ensures Bookkeeping(Apply(t, s, step))
  {
    var r := Apply(t, s, step);
    forall id | id in r.ops
      ensures OpOk(r, id)
    {
      PhaseOp(t, s, step, id);
    }
    forall k | 0 <= k < |r.taken|
      ensures TurnOk(r, k)
    {
      PhaseTurn(t, s, step, k);
    }
  }

  lemma PhaseReplies(t: SessionType, s: State, step: Step)
    requires Bookkeeping(s) && Replies(t, s) && Enabled(s, step) && IsPhaseStep(step)
    ensures Replies(t, Apply(t, s, step))
  {
    var r := Apply(t, s, step);
    forall k | 0 <= k < |r.taken|
      ensures r.taken[k].op in r.ops && ReplyOk(t, r, k)
    {
      assert ReplyOk(t, s, k) && TurnOk(s, k);
    }
  }

  lemma PhaseMailbox(t: SessionType, s: State, step: Step)
    requires Mailbox(s) && Enabled(s, step) && IsPhaseStep(step)
    ensures Mailbox(Apply(t, s, step))
  {
    var r := Apply(t, s, step);
    if step.Enqueue? {
      assert step.op !in s.inbox;
    }
    forall id | id in r.inbox
      ensures id in r.ops && r.ops[id].phase.Queued?
    {
      assert (step.Enqueue? && id == step.op) || id in s.inbox;
    }
  }

  lemma PhaseActor(t: SessionType, s: State, step: Step)
    requires ActorOk(t, s) && Enabled(s, step) && IsPhaseStep(step)
    ensures ActorOk(t, Apply(t, s, step))
  {
  }

  lemma PhaseStep(t: SessionType, s: State, step: Step)
    requires Inv(t, s) && Enabled(s, step) && IsPhaseStep(step)
    ensures Inv(t, Apply(t, s, step))
  {
    PhaseBookkeeping(t, s, step);
    PhaseReplies(t, s, step);
    PhaseMailbox(t, s, step);
    PhaseActor(t, s, step);
  }

  /** The step only moves events, or ends the actor. */
  predicate IsChannelStep(step: Step) {
    || step.EmitEvent? || step.EmitFails? || step.ConsumeEvent? || step.DropEventConsumer?
    || step.AllHandlesDropped? || step.DropInbox?
  }

  lemma ChannelLog(t: SessionType, s: State, step: Step)
    requires Enabled(s, step) && IsChannelStep(step)
    ensures var r := Apply(t, s, step);
            Log(s) <= Log(r) && (step.EmitEvent? ==> Log(r) + r.actor.pending == Log(s) + s.actor.pending)
            && (!step.EmitEvent? ==> Log(r) == Log(s))
  {
  }

  lemma ChannelHistory(t: SessionType, s: State, step: Step)
    requires Bookkeeping(s) && Replies(t, s) && Enabled(s, step) && IsChannelStep(step)
    ensures Bookkeeping(Apply(t, s, step)) && Replies(t, Apply(t, s, step))
  {
    var r := Apply(t, s, step);
    ChannelLog(t, s, step);
    forall k | 0 <= k < |r.taken|
      ensures TurnOk(r, k) && ReplyOk(t, r, k)
    {
      assert TurnOk(s, k) && ReplyOk(t, s, k);
    }
    forall id | id in r.ops
      ensures OpOk(r, id)
    {
      assert OpOk(s, id);
    }
  }

  lemma ChannelActor(t: SessionType, s: State, step: Step)
    requires ActorOk(t, s) && Enabled(s, step) && IsChannelStep(step)
    ensures ActorOk(t, Apply(t, s, step))
  {
    ChannelLog(t, s, step);
  }

  lemma ChannelMailbox(t: SessionType, s: State, step: Step)
    requires Mailbox(s) && Enabled(s, step) && IsChannelStep(step)
    ensures Mailbox(Apply(t, s, step))
  {
  }

  lemma ChannelStep(t: SessionType, s: State, step: Step)
    requires Inv(t, s) && Enabled(s, step) && IsChannelStep(step)
    ensures Inv(t, Apply(t, s, step))
  {
    ChannelHistory(t, s, step);
    ChannelActor(t, s, step);
    ChannelMailbox(t, s, step);
  }

  lemma ReceiveBookkeeping(t: SessionType, s: State)
    requires Bookkeeping(s) && Mailbox(s) && Enabled(s, Receive)
    ensures Bookkeeping(Apply(t, s, Receive))
  {
    var r := Apply(t, s, Receive);
    var id := s.inbox[0];
    assert id in s.inbox && OpOk(s, id);
    forall k | 0 <= k < |r.taken|
      ensures TurnOk(r, k)
    {
      if k < |s.taken| {
        assert TurnOk(s, k);
      }
    }
    forall i, j | 0 <= i < j < |r.taken|
      ensures r.taken[i].at < r.taken[j].at && r.taken[i].op != r.taken[j].op
    {
      assert TurnOk(s, i);
    }
    forall other | other in r.ops
      ensures OpOk(r, other)
    {
      assert OpOk(s, other);
    }
  }

  lemma ReceiveReplies(t: SessionType, s: State)
    requires Bookkeeping(s) && Mailbox(s) && Replies(t, s) && Enabled(s, Receive)
    ensures Replies(t, Apply(t, s, Receive))
  {
    var r := Apply(t, s, Receive);
    var id := s.inbox[0];
    assert id in s.inbox;
    var cs := Commands(s.taken);
    CommandsGrow(s.taken, Taken(id, s.ops[id].command, s.now));
    AfterOneMore(t, cs, s.ops[id].command);
    forall k | 0 <= k < |r.taken|
      ensures r.taken[k].op in r.ops && ReplyOk(t, r, k)
    {
      if k < |s.taken| {
        assert TurnOk(s, k) && ReplyOk(t, s, k);
        assert Commands(r.taken)[..k + 1] == cs[..k + 1];
      }
    }
  }

  lemma ReceiveMailbox(t: SessionType, s: State)
    requires Mailbox(s) && Enabled(s, Receive)
    ensures Mailbox(Apply(t, s, Receive))
  {
    var r := Apply(t, s, Receive);
    forall other | other in r.inbox
      ensures other in r.ops && r.ops[other].phase.Queued?
    {
      assert other in s.inbox;
    }
  }

  lemma ReceiveActor(t: SessionType, s: State)
    requires ActorOk(t, s) && Enabled(s, Receive)
    ensures ActorOk(t, Apply(t, s, Receive))
  {
    var id := s.inbox[0];
    CommandsGrow(s.taken, Taken(id, s.ops[id].command, s.now));
    AfterOneMore(t, Commands(s.taken), s.ops[id].command);
  }

  lemma ReceiveStep(t: SessionType, s: State)
    requires Inv(t, s) && Enabled(s, Receive)
    ensures Inv(t, Apply(t, s, Receive))
  {
    ReceiveBookkeeping(t, s);
    ReceiveReplies(t, s);
    ReceiveMailbox(t, s);
    ReceiveActor(t, s);
  }

  lemma ReplyOp(t: SessionType, s: State, id: nat)
    requires Enabled(s, SendReply) && id in s.ops && OpOk(s, id)
    ensures id in Apply(t, s, SendReply).ops && OpOk(Apply(t, s, SendReply), id)
  {
  }

  lemma ReplyKeepsTurn(t: SessionType, s: State, k: nat)
    requires Enabled(s, SendReply) && k < |s.taken| && TurnOk(s, k)
    ensures TurnOk(Apply(t, s, SendReply), k)
  {
  }

  lemma ReplyBookkeeping(t: SessionType, s: State)
    requires Bookkeeping(s) && Enabled(s, SendReply)
    ensures Bookkeeping(Apply(t, s, SendReply))
  {
    var r := Apply(t, s, SendReply);
    forall k | 0 <= k < |r.taken|
      ensures TurnOk(r, k)
    {
      ReplyKeepsTurn(t, s, k);
    }
    forall id | id in r.ops
      ensures OpOk(r, id)
    {
      ReplyOp(t, s, id);
    }
  }

  /** Before a reply is sent, all events of its command are in the channel. */
  lemma ReplyTurn(t: SessionType, s: State, k: nat)
    requires ActorOk(t, s) && Enabled(s, SendReply) && k < |s.taken| && TurnOk(s, k) && ReplyOk(t, s, k)
    ensures ReplyOk(t, Apply(t, s, SendReply), k)
  {
    var cs := Commands(s.taken);
    if s.taken[k].op == s.actor.op {
      assert k == |cs| - 1;
      assert cs[..|cs|] == cs;
      assert Log(s) + s.actor.pending == Log(s);
    }
  }

  lemma ReplyReplies(t: SessionType, s: State)
    requires Bookkeeping(s) && Replies(t, s) && ActorOk(t, s) && Enabled(s, SendReply)
    ensures Replies(t, Apply(t, s, SendReply))
  {
    var r := Apply(t, s, SendReply);
    forall k | 0 <= k < |r.taken|
      ensures r.taken[k].op in r.ops && ReplyOk(t, r, k)
    {
      assert TurnOk(s, k) && ReplyOk(t, s, k);
      ReplyTurn(t, s, k);
    }
  }

  lemma ReplyActor(t: SessionType, s: State)
    requires ActorOk(t, s) && Mailbox(s) && Enabled(s, SendReply)
    ensures ActorOk(t, Apply(t, s, SendReply)) && Mailbox(Apply(t, s, SendReply))
  {
    assert Log(s) + s.actor.pending == Log(s);
  }

  lemma ReplyStep(t: SessionType, s: State)
    requires Inv(t, s) && Enabled(s, SendReply)
    ensures Inv(t, Apply(t, s, SendReply))
  {
    ReplyBookkeeping(t, s);
    ReplyReplies(t, s);
    ReplyActor(t, s);
  }

  lemma StepInv(t: SessionType, s: State, step: Step)
    requires Inv(t, s) && Enabled(s, step)
    ensures Inv(t, Apply(t, s, step))
  {
    match step
    case Receive => ReceiveStep(t, s);
    case SendReply => ReplyStep(t, s);
    case Invoke(_, _) | Enqueue(_) | SendFails(_) | Return(_) | ReturnDropped(_) => PhaseStep(t, s, step);
    case _ => ChannelStep(t, s, step);
  }

  // ---------------------------------------------------------------------------
  // Linearizability
  // ---------------------------------------------------------------------------

  ghost predicate Run(t: SessionType, trace: seq<State>, steps: seq<Step>) {
    && |trace| == |steps| + 1 && trace[0] == INITIAL
    && forall i | 0 <= i < |steps| :: Enabled(trace[i], steps[i]) && trace[i + 1] == Apply(t, trace[i], steps[i])
  }

  lemma {:induction false} RunInv(t: SessionType, trace: seq<State>, steps: seq<Step>, i: nat)
    requires Run(t, trace, steps) && i < |trace|
    ensures Inv(t, trace[i])
  {
    if i == 0 {
      InitialInv(t);
    } else {
      RunInv(t, trace, steps, i - 1);
      StepInv(t, trace[i - 1], steps[i - 1]);
    }
  }

  /** Every call is received at most once. */
  ghost predicate ReceivedOnce(s: State) {
    forall i, j | 0 <= i < j < |s.taken| :: s.taken[i].op != s.taken[j].op
  }

  /** Replies are those of one sequential session served in receive order. */
  ghost predicate AgreesWithSequential(t: SessionType, s: State) {
    var cs := Commands(s.taken);
    && s.session == After(t, cs)
    && forall id | id in s.ops && ReplyIn(s.ops[id].phase).Some? ::
         exists k: nat :: k < |cs| && s.taken[k].op == id && s.taken[k].command == s.ops[id].command
           && ReplyIn(s.ops[id].phase).value == ReplyAt(t, cs, k)
           && EventsOf(t, cs[..k + 1]) <= Log(s)
  }

  /** An operation that returned before another was invoked was received before it. */
  ghost predicate RespectsRealTime(s: State) {
    forall i, j | 0 <= i < |s.taken| && 0 <= j < |s.taken|
      && s.taken[i].op in s.ops && s.taken[j].op in s.ops && s.ops[s.taken[i].op].phase.Returned?
      && s.ops[s.taken[i].op].phase.at < s.ops[s.taken[j].op].invokedAt :: i < j
  }

  /** Nothing is received after a Close, and a call that found the session stopped was never received at all. */
  ghost predicate NothingAfterClose(s: State) {
    && (forall i | 0 <= i < |s.taken| :: s.taken[i].command.Close? ==> i == |s.taken| - 1 && !s.actor.Receiving?)
    && (forall i | 0 <= i < |s.taken| && s.taken[i].op in s.ops && s.ops[s.taken[i].op].phase.Returned? ::
          !s.ops[s.taken[i].op].phase.result.SessionStopped?)
  }

  lemma InvAgrees(t: SessionType, s: State)
    requires Inv(t, s)
    ensures AgreesWithSequential(t, s)
  {
    var cs := Commands(s.taken);
    forall id | id in s.ops && ReplyIn(s.ops[id].phase).Some?
      ensures exists k: nat :: k < |cs| && s.taken[k].op == id && s.taken[k].command == s.ops[id].command
                && ReplyIn(s.ops[id].phase).value == ReplyAt(t, cs, k)
                && EventsOf(t, cs[..k + 1]) <= Log(s)
    {
      assert OpOk(s, id);
      var k := TurnOf(s.ops[id].phase).value;
      assert TurnOk(s, k) && ReplyOk(t, s, k);
    }
  }

  lemma InvRealTime(s: State)
    requires Bookkeeping(s)
    ensures RespectsRealTime(s)
  {
    forall i, j | 0 <= i < |s.taken| && 0 <= j < |s.taken|
      && s.taken[i].op in s.ops && s.taken[j].op in s.ops && s.ops[s.taken[i].op].phase.Returned?
      && s.ops[s.taken[i].op].phase.at < s.ops[s.taken[j].op].invokedAt
      ensures i < j
    {
      assert TurnOk(s, i) && TurnOk(s, j);
      assert s.taken[i].at < s.taken[j].at;
    }
  }

  lemma InvClose(t: SessionType, s: State)
    requires Bookkeeping(s) && ActorOk(t, s)
    ensures NothingAfterClose(s)
  {
    var cs := Commands(s.taken);
    forall i | 0 <= i < |s.taken|
      ensures s.taken[i].command.Close? ==> i == |s.taken| - 1 && !s.actor.Receiving?
      ensures TurnOk(s, i)
    {
      assert TurnOk(s, i);
      assert cs[i] == s.taken[i].command;
    }
  }

  /**
    Linearizability: in every state of every interleaving, each call is received
    at most once, answered calls agree with one sequential session run in receive
    order, that order respects real time, a command's events are in the channel
    before its reply, and nothing takes effect after Close.
   */
  lemma Linearizable(t: SessionType, trace: seq<State>, steps: seq<Step>, i: nat)
    requires Run(t, trace, steps) && i < |trace|
    ensures ReceivedOnce(trace[i]) && AgreesWithSequential(t, trace[i])
    ensures RespectsRealTime(trace[i]) && NothingAfterClose(trace[i])
  {
    RunInv(t, trace, steps, i);
    InvAgrees(t, trace[i]);
    InvRealTime(trace[i]);
    InvClose(t, trace[i]);
  }

  /**
    The consumer sees a prefix of the sequential event stream, and when the
    actor is between commands what it replays is the session.
   */
  lemma ConsumerFollows(t: SessionType, trace: seq<State>, steps: seq<Step>, i: nat)
    requires Run(t, trace, steps) && i < |trace|
    ensures var s := trace[i];
            s.consumed <= EventsOf(t, Commands(s.taken))
            && (s.actor.Receiving? && s.eventQueue == [] ==> Replay(s.consumed) == s.session)
  {
    var s := trace[i];
    RunInv(t, trace, steps, i);
    ReplayReconstructs(t, Commands(s.taken));
    assert s.consumed <= Log(s);
    if s.eventQueue == [] {
      assert Log(s) == s.consumed;
    }
  }

  // ---------------------------------------------------------------------------
  // Calls do complete
  // ---------------------------------------------------------------------------

  /** `r` is what the steps, taken one after the other, make of `s`. */
  predicate Follows(t: SessionType, s: State, steps: seq<Step>, r: State)
    decreases |steps|
  {
    if steps == [] then s == r else Enabled(s, steps[0]) && Follows(t, Apply(t, s, steps[0]), steps[1..], r)
  }

  lemma {:induction false} FollowsOn(t: SessionType, s: State, steps: seq<Step>, r: State, more: seq<Step>, q: State)
    requires Follows(t, s, steps, r) && Follows(t, r, more, q)
    ensures Follows(t, s, steps + more, q)
    decreases |steps|
  {
    if steps == [] {
      assert steps + more == more;
    } else {
      FollowsOn(t, Apply(t, s, steps[0]), steps[1..], r, more, q);
      assert (steps + more)[1..] == steps[1..] + more;
    }
  }

  lemma OneStep(t: SessionType, s: State, step: Step)
    requires Enabled(s, step)
    ensures Follows(t, s, [step], Apply(t, s, step))
  {
    assert [step][1..] == [];
  }

  lemma Then(t: SessionType, s: State, steps: seq<Step>, r: State, step: Step) returns (steps': seq<Step>, r': State)
    requires Follows(t, s, steps, r) && Enabled(r, step)
    ensures steps' == steps + [step] && r' == Apply(t, r, step) && Follows(t, s, steps', r')
  {
    OneStep(t, r, step);
    steps', r' := steps + [step], Apply(t, r, step);
    FollowsOn(t, s, steps, r, [step], r');
  }

  /** All pending events go into a channel with room for them. */
  lemma {:induction false} EmitAll(t: SessionType, s: State, steps: seq<Step>, r: State)
    returns (steps': seq<Step>, r': State)
    requires Follows(t, s, steps, r) && r.actor.Emitting? && r.eventsOpen
    requires |r.eventQueue| + |r.actor.pending| <= CHANNEL_BOUND
    ensures Follows(t, s, steps', r') && r'.actor == Emitting(r.actor.op, [], r.actor.reply)
    ensures r'.ops == r.ops && r'.session == r.session && r'.eventQueue == r.eventQueue + r.actor.pending
    decreases |r.actor.pending|
  {
    if r.actor.pending == [] {
      steps', r' := steps, r;
    } else {
      var more, q := Then(t, s, steps, r, EmitEvent);
      steps', r' := EmitAll(t, s, more, q);
      assert r.eventQueue + [r.actor.pending[0]] + r.actor.pending[1..] == r.eventQueue + r.actor.pending;
    }
  }

  lemma EventCount(t: SessionType, s: SessionData, c: Command)
    ensures |Handle(t, s, c).events| <= 2
  {
  }

  /** Called, queued and received. */
  lemma CallIsReceived(t: SessionType, s: State, id: nat, c: Command) returns (steps: seq<Step>, r: State)
    requires s.actor.Receiving? && s.inbox == [] && id !in s.ops
    ensures Follows(t, s, steps, r) && id in r.ops && r.ops[id].phase == Processing(|s.taken|)
    ensures r.actor == Emitting(id, Handle(t, s.session, c).events, Handle(t, s.session, c).reply)
    ensures r.session == Handle(t, s.session, c).next && r.eventQueue == s.eventQueue && r.eventsOpen == s.eventsOpen
  {
    assert Follows(t, s, [], s);
    steps, r := Then(t, s, [], s, Invoke(id, c));
    steps, r := Then(t, s, steps, r, Enqueue(id));
    steps, r := Then(t, s, steps, r, Receive);
  }

  /**
    From any state in which the actor is waiting and the consumer is not behind,
    a new call of any handle can run to its end, and returns what the session
    machine replies; the session has moved and the events are on their way.
   */
  lemma CallCompletes(t: SessionType, s: State, id: nat, c: Command) returns (steps: seq<Step>, r: State)
    requires s.actor.Receiving? && s.inbox == [] && id !in s.ops && s.eventsOpen && |s.eventQueue| + 2 <= CHANNEL_BOUND
    ensures Follows(t, s, steps, r) && id in r.ops && r.ops[id].phase.Returned?
    ensures r.ops[id].phase.result == Replied(|s.taken|, Handle(t, s.session, c).reply)
    ensures r.session == Handle(t, s.session, c).next
    ensures r.eventQueue == s.eventQueue + Handle(t, s.session, c).events
  {
    EventCount(t, s.session, c);
    steps, r := CallIsReceived(t, s, id, c);
    steps, r := EmitAll(t, s, steps, r);
    steps, r := Then(t, s, steps, r, SendReply);
    steps, r := Then(t, s, steps, r, Return(id));
  }
}
