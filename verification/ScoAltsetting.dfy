/**
  SCO transmit against USB alternate-setting changes, serialised by the
  per-device mutex. Any number of kernel threads run submits, switches and
  anchor kills, interleaved statement by statement; completions and the
  clearing of the running flag on close happen at any time, without the lock.

  A URB is live from a successful `usb_submit_urb` to its completion or kill,
  whether or not it is anchored; a kill reaches only what is anchored.
 */
module ScoAltsetting {
  import opened Words

  datatype Pc =
    | SubmitLock | SubmitCheck | SubmitAlloc | SubmitAnchor(id: nat) | SubmitUrb(id: nat)
    | SwitchLock(alts: nat) | SwitchCompare(alts: nat) | SwitchClear(alts: nat) | SwitchKill(alts: nat)
    | SwitchSet(alts: nat) | SwitchZero(alts: nat) | SwitchZeroKill | SwitchStart(alts: nat)
    | KillLock | KillAnchor
    | Unlock
    | Finished

  datatype State = State(
    owner: Option<nat>,
    threads: map<nat, Pc>,
    altsetting: nat,
    running: bool,
    built: map<nat, nat>,   // every URB allocated so far, with the altsetting whose endpoint it was built for
    anchor: set<nat>,       // URBs on the transmit anchor
    live: set<nat>)         // URBs handed to the controller and not yet given back

  /** Outcomes that are the hardware's or the allocator's to decide are parameters of the step. */
  datatype Step =
    | Spawn(thread: nat, pc: Pc)
    | Acquire(thread: nat)
    | CheckRunning(thread: nat)
    | Alloc(thread: nat, id: nat, ok: bool)
    | Anchor(thread: nat)
    | Submit(thread: nat, ok: bool)
    | Compare(thread: nat)
    | ClearRunning(thread: nat)
    | KillBeforeSet(thread: nat)
    | SetInterface(thread: nat, ok: bool, left: nat)
    | TestZero(thread: nat)
    | KillAtZero(thread: nat)
    | StartReceive(thread: nat, ok: bool)
    | Kill(thread: nat)
    | Release(thread: nat)
    | Complete(id: nat)
    | CloseClears

  predicate At(s: State, thread: nat, pc: Pc) {
    thread in s.threads && s.threads[thread] == pc
  }

  predicate Waiting(pc: Pc) {
    pc.SubmitLock? || pc.SwitchLock? || pc.KillLock?
  }

  /** Between taking and giving back the mutex. */
  predicate Critical(pc: Pc) {
    !Waiting(pc) && !pc.Finished?
  }

  predicate Enabled(s: State, step: Step) {
    match step
    case Spawn(t, pc) => t !in s.threads && Waiting(pc)
    case Acquire(t) => t in s.threads && Waiting(s.threads[t]) && s.owner.None?
    case CheckRunning(t) => At(s, t, SubmitCheck)
    case Alloc(t, id, _) => At(s, t, SubmitAlloc) && id !in s.built
    case Anchor(t) => t in s.threads && s.threads[t].SubmitAnchor?
    case Submit(t, _) => t in s.threads && s.threads[t].SubmitUrb?
    case Compare(t) => t in s.threads && s.threads[t].SwitchCompare?
    case ClearRunning(t) => t in s.threads && s.threads[t].SwitchClear?
    case KillBeforeSet(t) => t in s.threads && s.threads[t].SwitchKill?
    case SetInterface(t, _, _) => t in s.threads && s.threads[t].SwitchSet?
    case TestZero(t) => t in s.threads && s.threads[t].SwitchZero?
    case KillAtZero(t) => At(s, t, SwitchZeroKill)
    case StartReceive(t, _) => t in s.threads && s.threads[t].SwitchStart?
    case Kill(t) => At(s, t, KillAnchor)
    case Release(t) => At(s, t, Unlock)
    case Complete(id) => id in s.live
    case CloseClears => true
  }

  function Go(s: State, t: nat, pc: Pc): (r: State) {
    s.(threads := s.threads[t := pc])
  }

  function Entered(pc: Pc): (r: Pc) {
    match pc
    case SubmitLock => SubmitCheck
    case SwitchLock(a) => SwitchCompare(a)
    case _ => KillAnchor
  }

  /** `usb_kill_anchored_urbs`: what is anchored is cancelled and leaves the anchor; nothing else is touched. */
  function KillAnchored(s: State): (r: State) {
    s.(live := s.live - s.anchor, anchor := {})
  }

  function Apply(s: State, step: Step): (r: State)
    requires Enabled(s, step)
  {
    match step
    case Spawn(t, pc) => Go(s, t, pc)
    case Acquire(t) => Go(s, t, Entered(s.threads[t])).(owner := Some(t))
    case CheckRunning(t) => Go(s, t, if s.running then SubmitAlloc else Unlock)
    case Alloc(t, id, ok) =>
      if ok then Go(s, t, SubmitAnchor(id)).(built := s.built[id := s.altsetting]) else Go(s, t, Unlock)
    case Anchor(t) => Go(s, t, SubmitUrb(s.threads[t].id)).(anchor := s.anchor + {s.threads[t].id})
    case Submit(t, ok) =>
      var id := s.threads[t].id;
      if ok then Go(s, t, Unlock).(live := s.live + {id}) else Go(s, t, Unlock).(anchor := s.anchor - {id})
    case Compare(t) =>
      var alts := s.threads[t].alts;
      Go(s, t, if s.altsetting != alts then SwitchClear(alts) else SwitchZero(alts))
    case ClearRunning(t) => Go(s, t, SwitchKill(s.threads[t].alts)).(running := false)
    case KillBeforeSet(t) => KillAnchored(Go(s, t, SwitchSet(s.threads[t].alts)))
    case SetInterface(t, ok, left) =>
      var alts := s.threads[t].alts;
      Go(s, t, if ok then SwitchZero(alts) else Unlock).(altsetting := if ok then alts else left)
    case TestZero(t) =>
      var alts := s.threads[t].alts;
      if alts == 0 then Go(s, t, SwitchZeroKill).(running := false) else Go(s, t, SwitchStart(alts))
    case KillAtZero(t) => KillAnchored(Go(s, t, Unlock))
    case StartReceive(t, ok) => Go(s, t, Unlock).(running := s.running || ok)
    case Kill(t) => KillAnchored(Go(s, t, Unlock))
    case Release(t) => Go(s, t, Finished).(owner := None)
    case Complete(id) => s.(live := s.live - {id}, anchor := s.anchor - {id})
    case CloseClears => s.(running := false)
  }

  // ---------------------------------------------------------------------------
  // Safety
  // ---------------------------------------------------------------------------

  predicate MutualExclusion(s: State) {
    && (s.owner.Some? ==> s.owner.value in s.threads)
    && (forall t | t in s.threads :: Critical(s.threads[t]) <==> s.owner == Some(t))
  }

  /** The URB was built for the altsetting in force, which has endpoints. */
  predicate Current(s: State, id: nat) {
    id in s.built && s.built[id] == s.altsetting && s.altsetting != 0
  }

  /** What each statement inside the lock relies on. */
  predicate LocallyOk(s: State, pc: Pc) {
    match pc
    case SubmitAlloc => s.altsetting != 0
    case SubmitAnchor(id) => Current(s, id) && id !in s.anchor && id !in s.live
    case SubmitUrb(id) => Current(s, id) && id in s.anchor && id !in s.live
    case SwitchKill(_) => !s.running
    case SwitchSet(_) => !s.running && s.anchor == {}
    case SwitchZero(alts) => s.altsetting == alts
    case SwitchZeroKill => !s.running && s.altsetting == 0
    case SwitchStart(alts) => s.altsetting == alts && alts != 0
    case _ => true
  }

  /** Every live URB is within reach of a kill, and everything anchored is current. */
  predicate AnchorOk(s: State) {
    s.live <= s.anchor && forall id | id in s.anchor :: Current(s, id)
  }

  predicate Inv(s: State) {
    && MutualExclusion(s)
    && (forall t | t in s.threads :: LocallyOk(s, s.threads[t]))
    && AnchorOk(s)
    && (s.running ==> s.altsetting != 0)
  }

  const PROBED := State(None, map[], 0, false, map[], {}, {})

  function ActorOf(step: Step): (t: Option<nat>) {
    match step
    case Spawn(_, _) => None
    case Complete(_) => None
    case CloseClears => None
    case _ => Some(step.thread)
  }

  lemma StepExclusion(s: State, step: Step)
    requires MutualExclusion(s) && Enabled(s, step)
    ensures MutualExclusion(Apply(s, step))
  {
  }

  lemma StepAnchor(s: State, step: Step)
    requires Inv(s) && Enabled(s, step)
    ensures AnchorOk(Apply(s, step)) && (Apply(s, step).running ==> Apply(s, step).altsetting != 0)
  {
    if ActorOf(step).Some? && ActorOf(step).value in s.threads {
      assert LocallyOk(s, s.threads[ActorOf(step).value]);
    }
    var r := Apply(s, step);
    forall id | id in r.anchor
      ensures Current(r, id)
    {
      assert id in s.anchor ==> Current(s, id);
    }
  }

  lemma StepOwnThread(s: State, step: Step, t: nat)
    requires Inv(s) && Enabled(s, step) && ActorOf(step) == Some(t) && t in s.threads
    ensures LocallyOk(Apply(s, step), Apply(s, step).threads[t])
  {
    assert LocallyOk(s, s.threads[t]);
  }

  lemma StepOtherThread(s: State, step: Step, t: nat)
    requires Inv(s) && Enabled(s, step) && ActorOf(step) != Some(t) && t in s.threads
    ensures LocallyOk(Apply(s, step), s.threads[t])
  {
    assert LocallyOk(s, s.threads[t]);
    if Critical(s.threads[t]) {
      assert step.Spawn? || step.Complete? || step.CloseClears?;
    }
  }

  lemma StepLocal(s: State, step: Step, t: nat)
    requires Inv(s) && Enabled(s, step) && t in Apply(s, step).threads
    ensures LocallyOk(Apply(s, step), Apply(s, step).threads[t])
  {
    if ActorOf(step) == Some(t) {
      StepOwnThread(s, step, t);
    } else if t in s.threads {
      StepOtherThread(s, step, t);
    }
  }

  lemma StepInv(s: State, step: Step)
    requires Inv(s) && Enabled(s, step)
    ensures Inv(Apply(s, step))
  {
    var r := Apply(s, step);
    StepExclusion(s, step);
    StepAnchor(s, step);
    forall t | t in r.threads
      ensures LocallyOk(r, r.threads[t])
    {
      StepLocal(s, step, t);
    }
  }

  ghost predicate Run(trace: seq<State>, steps: seq<Step>) {
    && |trace| == |steps| + 1 && trace[0] == PROBED
    && forall i | 0 <= i < |steps| :: Enabled(trace[i], steps[i]) && trace[i + 1] == Apply(trace[i], steps[i])
  }

  lemma {:induction false} RunInv(trace: seq<State>, steps: seq<Step>, i: nat)
    requires Run(trace, steps) && i < |trace|
    ensures Inv(trace[i])
  {
    if i > 0 {
      RunInv(trace, steps, i - 1);
      StepInv(trace[i - 1], steps[i - 1]);
    }
  }

  /**
    In every state of every interleaving, each live SCO transmit URB is still
    anchored, so that the next kill reaches it, and belongs to the altsetting now
    selected; that altsetting is not zero, and the running flag is never up at
    altsetting zero.
   */
  lemma LiveUrbsAreCurrent(trace: seq<State>, steps: seq<Step>, i: nat)
    requires Run(trace, steps) && i < |trace|
    ensures forall id | id in trace[i].live :: id in trace[i].anchor && Current(trace[i], id)
    ensures trace[i].running ==> trace[i].altsetting != 0
  {
    RunInv(trace, steps, i);
  }

  /** What is handed to the controller is an anchored URB of the current non-zero altsetting, not handed over before. */
  lemma SubmitsAreCurrent(trace: seq<State>, steps: seq<Step>, i: nat)
    requires Run(trace, steps) && i < |steps| && steps[i].Submit?
    ensures var id := trace[i].threads[steps[i].thread].id;
            id in trace[i].anchor && id !in trace[i].live && Current(trace[i], id)
  {
    RunInv(trace, steps, i);
    assert LocallyOk(trace[i], trace[i].threads[steps[i].thread]);
  }

  /** When the interface changes, or fails to, no transmit URB is live or anchored and none can be started. */
  lemma InterfaceChangesOnEmptyAnchor(trace: seq<State>, steps: seq<Step>, i: nat)
    requires Run(trace, steps) && i < |steps|
    requires steps[i].SetInterface? || trace[i + 1].altsetting != trace[i].altsetting
    ensures trace[i].anchor == {} && trace[i].live == {} && !trace[i].running
    ensures trace[i + 1].anchor == {} && trace[i + 1].live == {}
    ensures forall t | t in trace[i].threads && t != steps[i].thread :: !Critical(trace[i].threads[t])
  {
    RunInv(trace, steps, i);
    assert steps[i].SetInterface?;
    assert LocallyOk(trace[i], trace[i].threads[steps[i].thread]);
  }

  /** At altsetting zero nothing is live or anchored, and no thread is past the running test of a submit. */
  lemma ZeroIsQuiet(trace: seq<State>, steps: seq<Step>, i: nat)
    requires Run(trace, steps) && i < |trace| && trace[i].altsetting == 0
    ensures trace[i].anchor == {} && trace[i].live == {} && !trace[i].running
    ensures forall t | t in trace[i].threads ::
              var pc := trace[i].threads[t]; !pc.SubmitAlloc? && !pc.SubmitAnchor? && !pc.SubmitUrb?
  {
    RunInv(trace, steps, i);
    assert forall id | id in trace[i].anchor :: Current(trace[i], id);
    forall t | t in trace[i].threads
      ensures var pc := trace[i].threads[t]; !pc.SubmitAlloc? && !pc.SubmitAnchor? && !pc.SubmitUrb?
    {
      assert LocallyOk(trace[i], trace[i].threads[t]);
    }
  }

  // ---------------------------------------------------------------------------
  // Something is transmitted
  // ---------------------------------------------------------------------------

  /** A submit that finds the flag up, gets its URB and has it accepted puts that URB on the air. */
  lemma SubmitTransmits(s: State, t: nat, id: nat) returns (steps: seq<Step>, r: State)
    requires Inv(s) && At(s, t, SubmitCheck) && s.running && id !in s.built
    ensures steps == [CheckRunning(t), Alloc(t, id, true), Anchor(t), Submit(t, true)] && Follows(s, steps, r)
    ensures id in r.live && Current(r, id) && At(r, t, Unlock)
  {
    var a := Apply(s, CheckRunning(t));
    var b := Apply(a, Alloc(t, id, true));
    var c := Apply(b, Anchor(t));
    r := Apply(c, Submit(t, true));
    steps := [CheckRunning(t), Alloc(t, id, true), Anchor(t), Submit(t, true)];
    LocalStep(s, t);
    FollowsFour(s, a, b, c, r, steps);
  }

  lemma LocalStep(s: State, t: nat)
    requires Inv(s) && t in s.threads
    ensures LocallyOk(s, s.threads[t]) && (s.running ==> s.altsetting != 0)
  {
  }

  /** `r` is what the steps, taken one after the other, make of `s`. */
  predicate Follows(s: State, steps: seq<Step>, r: State)
    decreases |steps|
  {
    if steps == [] then s == r else Enabled(s, steps[0]) && Follows(Apply(s, steps[0]), steps[1..], r)
  }

  lemma FollowsFour(s: State, a: State, b: State, c: State, r: State, steps: seq<Step>)
    requires |steps| == 4 && Enabled(s, steps[0]) && a == Apply(s, steps[0]) && Enabled(a, steps[1])
    requires b == Apply(a, steps[1]) && Enabled(b, steps[2]) && c == Apply(b, steps[2])
    requires Enabled(c, steps[3]) && r == Apply(c, steps[3])
    ensures Follows(s, steps, r)
  {
    var s1, s2, s3 := steps[1..], steps[2..], steps[3..];
    assert s1[1..] == s2 && s2[1..] == s3 && s3[1..] == [];
    assert Follows(c, s3, r);
    assert Follows(b, s2, r);
    assert Follows(a, s1, r);
  }

  /** While one thread is about to unlock, only spawns, completions and closes can come before its release. */
  lemma BeforeRelease(s: State, t: nat, step: Step)
    requires Inv(s) && At(s, t, Unlock) && Enabled(s, step) && step != Release(t)
    ensures step.Spawn? || step.Complete? || step.CloseClears?
    ensures At(Apply(s, step), t, Unlock) && Apply(s, step).altsetting == s.altsetting
    ensures step.CloseClears? || Apply(s, step).running == s.running
  {
    assert s.owner == Some(t);
  }

  /** No close clears the flag between `i` and `j`. */
  predicate NoClose(steps: seq<Step>, i: nat, j: nat) {
    i <= j <= |steps| && forall k | i <= k < j :: !steps[k].CloseClears?
  }

  /** Thread `t` does not give the mutex back between `i` and `j`. */
  predicate KeepsLock(steps: seq<Step>, t: nat, i: nat, j: nat) {
    i <= j <= |steps| && forall k | i <= k < j :: steps[k] != Release(t)
  }

  lemma {:induction false} FlagHolds(trace: seq<State>, steps: seq<Step>, t: nat, i: nat, j: nat)
    requires Run(trace, steps) && NoClose(steps, i, j) && KeepsLock(steps, t, i, j)
    requires At(trace[i], t, Unlock) && trace[i].running
    ensures At(trace[j], t, Unlock) && trace[j].running && trace[j].altsetting == trace[i].altsetting
    decreases j
  {
    if i < j {
      FlagHolds(trace, steps, t, i, j - 1);
      RunInv(trace, steps, j - 1);
      BeforeRelease(trace[j - 1], t, steps[j - 1]);
    }
  }

  /**
    A switch to a non-zero altsetting whose receive URBs could be started (or
    were running) gives the mutex back with that altsetting selected and the
    running flag up, unless a close has cleared it meanwhile.
   */
  lemma SwitchTurnsOn(trace: seq<State>, steps: seq<Step>, t: nat, i: nat, j: nat)
    requires Run(trace, steps) && i < j < |steps| && steps[i] == StartReceive(t, true) && steps[j] == Release(t)
    requires NoClose(steps, i + 1, j) && KeepsLock(steps, t, i + 1, j)
    ensures var alts := trace[i].threads[t].alts;
            alts != 0 && trace[j + 1].altsetting == alts && trace[j + 1].running
  {
    RunInv(trace, steps, i);
    assert LocallyOk(trace[i], trace[i].threads[t]);
    FlagHolds(trace, steps, t, i + 1, j);
  }

  ghost predicate Reachable(s: State) {
    exists trace: seq<State>, steps: seq<Step> :: Run(trace, steps) && trace[|trace| - 1] == s
  }

  lemma ReachStep(s: State, step: Step)
    requires Reachable(s) && Enabled(s, step)
    ensures Reachable(Apply(s, step))
  {
    var trace: seq<State>, steps: seq<Step> :| Run(trace, steps) && trace[|trace| - 1] == s;
    var trace', steps' := trace + [Apply(s, step)], steps + [step];
    assert Run(trace', steps');
    assert trace'[|trace'| - 1] == Apply(s, step);
  }

  lemma SwitchedOver(alts: nat) returns (s: State)
    requires alts != 0
    ensures Reachable(s) && s == State(Some(0), map[0 := SwitchZero(alts)], alts, false, map[], {}, {})
  {
    assert Run([PROBED], []);
    s := PROBED;
    s := Take(s, Spawn(0, SwitchLock(alts)));
    s := Take(s, Acquire(0));
    s := Take(s, Compare(0));
    s := Take(s, ClearRunning(0));
    s := Take(s, KillBeforeSet(0));
    s := Take(s, SetInterface(0, true, 0));
  }

  /** A probed device, switched to a non-zero altsetting with everything going well. */
  lemma SwitchedOn(alts: nat) returns (s: State)
    requires alts != 0
    ensures Reachable(s) && s == State(None, map[0 := Finished], alts, true, map[], {}, {})
  {
    s := SwitchedOver(alts);
    s := Take(s, TestZero(0));
    s := Take(s, StartReceive(0, true));
    s := Take(s, Release(0));
  }

  lemma Take(s: State, step: Step) returns (r: State)
    requires Reachable(s) && Enabled(s, step)
    ensures Reachable(r) && r == Apply(s, step)
  {
    ReachStep(s, step);
    r := Apply(s, step);
  }

  /** The device does transmit: at every non-zero altsetting, a state with a live URB is reachable. */
  lemma TransmissionIsReachable(alts: nat) returns (s: State)
    requires alts != 0
    ensures Reachable(s) && s.altsetting == alts && s.live == {7} && s.built == map[7 := alts]
  {
    s := SwitchedOn(alts);
    s := Take(s, Spawn(1, SubmitLock));
    s := Take(s, Acquire(1));
    s := Take(s, CheckRunning(1));
    s := Take(s, Alloc(1, 7, true));
    s := Take(s, Anchor(1));
    s := Take(s, Submit(1, true));
  }

  /**
    Why stop and flush take the mutex: a kill without it, between a thread's
    anchoring and submitting, strands a live URB outside the anchor, where no
    later kill finds it.
   */
  lemma UnlockedKillStrands(s: State, t: nat)
    requires Inv(s) && t in s.threads && s.threads[t].SubmitUrb?
    ensures var id := s.threads[t].id;
            var u := Apply(KillAnchored(s), Submit(t, true));
            id in u.live && id !in u.anchor && !Inv(u) && id in KillAnchored(u).live
  {
  }
}
