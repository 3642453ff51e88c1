/**
  Starting software unicast against an arbitrary daemon: which requests are
  sent, in which order, and what is undone when a later one fails.
 */
module FlossUnicast {
  import opened Words
  import opened Types

  datatype Directions = Directions(hostToPeer: bool, peerToHost: bool)

  datatype Request = SetActive | SourceMetadata | SinkMetadata | StartHost | StartPeer | StopHost | StopPeer

  datatype Answer = Yes | No | BusError

  /** What a PCM property map amounts to, if the daemon returned one at all. */
  datatype ConfigAnswer = NoConfig | Malformed | Config(pcm: PcmConfiguration)

  /** One round of polling: a status of 1 means started, None a failed call. */
  datatype Poll = Poll(host: Option<int>, peer: Option<int>, expired: bool)

  /** Everything the daemon and the socket will answer. */
  datatype Daemon = Daemon(
    reachable: bool,
    setActive: bool,
    sourceMetadata: Answer,
    sinkMetadata: Answer,
    hostStart: Answer,
    peerStart: Answer,
    polls: seq<Poll>,
    hostConfig: ConfigAnswer,
    peerConfig: ConfigAnswer,
    connects: bool)

  datatype Stage =
    BadDirections | BadGroup | NoDaemon | NotActivated | MetadataRefused | NotStarted | PcmUnreadable | NotConnected

  datatype Result =
    | Started(hostPcm: Option<PcmConfiguration>, peerPcm: Option<PcmConfiguration>)
    | Failed(stage: Stage)

  datatype Outcome = Outcome(result: Result, sent: seq<Request>)

  // ---------------------------------------------------------------------------
  // The transaction as a function of the daemon
  // ---------------------------------------------------------------------------

  /** `wait_started`: poll until both selected directions report 1, a call fails, or the deadline passes. */
  function Confirmed(d: Directions, polls: seq<Poll>): (ok: bool) {
    if polls == [] then false
    else
      var p := polls[0];
      if d.hostToPeer && p.host.None? then false
      else if d.peerToHost && p.peer.None? then false
      else if (d.hostToPeer ==> p.host == Some(1)) && (d.peerToHost ==> p.peer == Some(1)) then true
      else if p.expired then false
      else Confirmed(d, polls[1..])
  }

  /** Both selected directions report started. */
  predicate BothUp(d: Directions, p: Poll) {
    (d.hostToPeer ==> p.host == Some(1)) && (d.peerToHost ==> p.peer == Some(1))
  }

  /** This round lets polling go on: every selected status was readable and time is left. */
  predicate KeepsPolling(d: Directions, p: Poll) {
    (d.hostToPeer ==> p.host.Some?) && (d.peerToHost ==> p.peer.Some?) && !p.expired
  }

  /**
    Confirmation means one round in which both directions are up, after rounds
    that each let polling go on; the deadline is not consulted in that round.
   */
  lemma {:induction false} ConfirmedIff(d: Directions, polls: seq<Poll>)
    ensures Confirmed(d, polls) <==>
            exists k :: 0 <= k < |polls| && BothUp(d, polls[k]) && forall j | 0 <= j < k :: KeepsPolling(d, polls[j])
  {
    if polls != [] {
      var rest := polls[1..];
      ConfirmedIff(d, rest);
      if BothUp(d, polls[0]) {
        assert Confirmed(d, polls);
      } else if KeepsPolling(d, polls[0]) {
        if k :| 0 <= k < |rest| && BothUp(d, rest[k]) && forall j | 0 <= j < k :: KeepsPolling(d, rest[j]) {
          forall j | 0 <= j < k + 1
            ensures KeepsPolling(d, polls[j])
          {
            assert j > 0 ==> polls[j] == rest[j - 1];
          }
          assert BothUp(d, polls[k + 1]);
        }
        if k :| 0 <= k < |polls| && BothUp(d, polls[k]) && forall j | 0 <= j < k :: KeepsPolling(d, polls[j]) {
          assert BothUp(d, rest[k - 1]);
          assert forall j | 0 <= j < k - 1 :: rest[j] == polls[j + 1];
        }
      }
    }
  }

  predicate Readable(a: ConfigAnswer) {
    a.Config? && a.pcm.BytesPerInterval().Some?
  }

  function Announce(d: Directions): (sent: seq<Request>) {
    [SetActive] + (if d.hostToPeer then [SourceMetadata] else []) + (if d.peerToHost then [SinkMetadata] else [])
  }

  function Starts(d: Directions): (sent: seq<Request>) {
    (if d.hostToPeer then [StartHost] else []) + (if d.peerToHost then [StartPeer] else [])
  }

  /** `stop_directions`: the peer first, then the host. */
  function Stops(host: bool, peer: bool): (sent: seq<Request>) {
    (if peer then [StopPeer] else []) + (if host then [StopHost] else [])
  }

  /** The start requests went through and were confirmed. */
  predicate StartsUp(d: Directions, m: Daemon) {
    && (d.hostToPeer ==> m.hostStart.Yes?) && (d.peerToHost ==> m.peerStart.Yes?) && Confirmed(d, m.polls)
  }

  predicate ConfigsReadable(d: Directions, m: Daemon) {
    (d.hostToPeer ==> Readable(m.hostConfig)) && (d.peerToHost ==> Readable(m.peerConfig))
  }

  /** From the first start request on: the requests sent, with the rollback where there is one. */
  function StartAndConnect(d: Directions, m: Daemon): (o: Outcome) {
    if d.hostToPeer && !m.hostStart.Yes? then Outcome(Failed(NotStarted), [StartHost])
    else if d.peerToHost && !m.peerStart.Yes? then Outcome(Failed(NotStarted), Starts(d) + Stops(d.hostToPeer, false))
    else if !Confirmed(d, m.polls) then Outcome(Failed(NotStarted), Starts(d) + Stops(d.hostToPeer, d.peerToHost))
    else if !ConfigsReadable(d, m) then Outcome(Failed(PcmUnreadable), Starts(d))
    else if !m.connects then Outcome(Failed(NotConnected), Starts(d) + Stops(d.hostToPeer, d.peerToHost))
    else Outcome(Started(if d.hostToPeer then Some(m.hostConfig.pcm) else None,
                         if d.peerToHost then Some(m.peerConfig.pcm) else None), Starts(d))
  }

  function Attempt(d: Directions, group: int, m: Daemon): (o: Outcome) {
    if !d.hostToPeer && !d.peerToHost then Outcome(Failed(BadDirections), [])
    else if group < 0 then Outcome(Failed(BadGroup), [])
    else if !m.reachable then Outcome(Failed(NoDaemon), [])
    else if !m.setActive then Outcome(Failed(NotActivated), [SetActive])
    else if d.hostToPeer && !m.sourceMetadata.Yes? then Outcome(Failed(MetadataRefused), [SetActive, SourceMetadata])
    else if d.peerToHost && !m.sinkMetadata.Yes? then Outcome(Failed(MetadataRefused), Announce(d))
    else
      var rest := StartAndConnect(d, m);
      Outcome(rest.result, Announce(d) + rest.sent)
  }

  // ---------------------------------------------------------------------------
  // Rollback
  // ---------------------------------------------------------------------------

  /** The daemon accepted this start request. */
  predicate AcceptedStart(m: Daemon, sent: seq<Request>, start: Request) {
    start in sent && ((start.StartHost? && m.hostStart.Yes?) || (start.StartPeer? && m.peerStart.Yes?))
  }

  function StopOf(start: Request): (r: Request) {
    if start.StartHost? then StopHost else StopPeer
  }

  /** Every start the daemon accepted is followed by its stop. */
  ghost predicate RolledBack(m: Daemon, sent: seq<Request>) {
    forall i | 0 <= i < |sent| && AcceptedStart(m, sent, sent[i]) ::
      exists j :: i < j < |sent| && sent[j] == StopOf(sent[i])
  }

  /** Everything asked of the daemon up to the start requests went well. */
  predicate ReachesStart(d: Directions, group: int, m: Daemon) {
    && (d.hostToPeer || d.peerToHost) && group >= 0 && m.reachable && m.setActive
    && (d.hostToPeer ==> m.sourceMetadata.Yes?) && (d.peerToHost ==> m.sinkMetadata.Yes?)
  }

  lemma LogShapes(d: Directions)
    ensures Starts(d) + Stops(d.hostToPeer, d.peerToHost) ==
            if d.hostToPeer && d.peerToHost then [StartHost, StartPeer, StopPeer, StopHost]
            else if d.hostToPeer then [StartHost, StopHost]
            else if d.peerToHost then [StartPeer, StopPeer] else []
    ensures Starts(d) == if d.hostToPeer && d.peerToHost then [StartHost, StartPeer]
                         else if d.hostToPeer then [StartHost] else if d.peerToHost then [StartPeer] else []
  {
  }

  lemma StartRolledBack(d: Directions, m: Daemon)
    requires d.hostToPeer || d.peerToHost
    ensures var o := StartAndConnect(d, m);
            o.result.Failed? ==> (RolledBack(m, o.sent) <==> !(StartsUp(d, m) && !ConfigsReadable(d, m)))
  {
    var o := StartAndConnect(d, m);
    FailureLog(d, m);
    LogShapes(d);
    if StartsUp(d, m) && !ConfigsReadable(d, m) {
      assert AcceptedStart(m, o.sent, o.sent[0]);
    } else if o.result.Failed? {
      forall i | 0 <= i < |o.sent| && AcceptedStart(m, o.sent, o.sent[i])
        ensures exists j :: i < j < |o.sent| && o.sent[j] == StopOf(o.sent[i])
      {
        var j := |o.sent| - 1 - if o.sent[i].StartPeer? && d.hostToPeer then 1 else 0;
        assert i < j < |o.sent| && o.sent[j] == StopOf(o.sent[i]);
      }
    }
  }

  /** The logs a failed start can leave, other than by an unreadable configuration. */
  lemma FailureLog(d: Directions, m: Daemon)
    requires d.hostToPeer || d.peerToHost
    ensures var o := StartAndConnect(d, m);
            o.result.Failed? && !o.result.stage.PcmUnreadable? ==>
              || o.sent == [StartHost, StartPeer, StopPeer, StopHost] || o.sent == [StartHost, StopHost]
              || o.sent == [StartPeer, StopPeer] || (o.sent == [StartHost] && !m.hostStart.Yes?)
              || (o.sent == [StartPeer] && !m.peerStart.Yes?)
              || (o.sent == [StartHost, StartPeer, StopHost] && !m.peerStart.Yes?)
  {
    LogShapes(d);
  }

  lemma RolledBackSuffix(m: Daemon, head: seq<Request>, rest: seq<Request>)
    requires forall r | r in head :: !r.StartHost? && !r.StartPeer?
    ensures RolledBack(m, head + rest) <==> RolledBack(m, rest)
  {
    var all := head + rest;
    assert forall i | 0 <= i < |head| :: all[i] == head[i] && head[i] in head;
    if RolledBack(m, rest) {
      forall i | 0 <= i < |all| && AcceptedStart(m, all, all[i])
        ensures exists j :: i < j < |all| && all[j] == StopOf(all[i])
      {
        var k := i - |head|;
        assert AcceptedStart(m, rest, rest[k]);
        var j :| k < j < |rest| && rest[j] == StopOf(rest[k]);
        assert all[j + |head|] == StopOf(all[i]);
      }
    }
    if RolledBack(m, all) {
      forall k | 0 <= k < |rest| && AcceptedStart(m, rest, rest[k])
        ensures exists j :: k < j < |rest| && rest[j] == StopOf(rest[k])
      {
        assert all[k + |head|] == rest[k] && AcceptedStart(m, all, all[k + |head|]);
        var j :| k + |head| < j < |all| && all[j] == StopOf(all[k + |head|]);
        assert rest[j - |head|] == StopOf(rest[k]);
      }
    }
  }

  /**
    The documented promise is that every partial failure stops what was
    started. It is kept by a failed attempt exactly when it is not the case
    that the streams started and a negotiated PCM configuration then could not
    be read: that branch returns without stopping anything.
   */
  lemma RolledBackIff(d: Directions, group: int, m: Daemon)
    requires Attempt(d, group, m).result.Failed?
    ensures RolledBack(m, Attempt(d, group, m).sent)
            <==> !(ReachesStart(d, group, m) && StartsUp(d, m) && !ConfigsReadable(d, m))
  {
    var o := Attempt(d, group, m);
    if ReachesStart(d, group, m) {
      StartRolledBack(d, m);
      RolledBackSuffix(m, Announce(d), StartAndConnect(d, m).sent);
    } else {
      assert forall r | r in o.sent :: !r.StartHost? && !r.StartPeer?;
    }
  }

  /** The failing family has a member: a daemon that starts the host stream and has no PCM configuration for it. */
  lemma UnreadableConfigLeavesStream()
    ensures var d := Directions(true, false);
            var m := Daemon(true, true, Yes, Yes, Yes, Yes, [Poll(Some(1), None, false)], NoConfig, NoConfig, true);
            Attempt(d, 0, m) == Outcome(Failed(PcmUnreadable), [SetActive, SourceMetadata, StartHost])
            && !RolledBack(m, Attempt(d, 0, m).sent)
  {
    var d := Directions(true, false);
    var m := Daemon(true, true, Yes, Yes, Yes, Yes, [Poll(Some(1), None, false)], NoConfig, NoConfig, true);
    var o := Attempt(d, 0, m);
    assert o.sent == [SetActive, SourceMetadata, StartHost];
    RolledBackIff(d, 0, m);
  }

  // ---------------------------------------------------------------------------
  // What the caller learns
  // ---------------------------------------------------------------------------

  /** The start succeeds exactly when everything did, and each direction comes with the configuration read for it. */
  lemma StartedIff(d: Directions, group: int, m: Daemon)
    ensures var r := Attempt(d, group, m).result;
            && (r.Started? <==> ReachesStart(d, group, m) && StartsUp(d, m) && ConfigsReadable(d, m) && m.connects)
            && (r.Started? ==> (r.hostPcm.Some? <==> d.hostToPeer) && (r.peerPcm.Some? <==> d.peerToHost))
            && (r.Started? && d.hostToPeer ==> m.hostConfig == Config(r.hostPcm.value))
            && (r.Started? && d.peerToHost ==> m.peerConfig == Config(r.peerPcm.value))
  {
  }

  /** The daemon was asked to select the group and did. */
  predicate Selected(d: Directions, group: int, m: Daemon) {
    (d.hostToPeer || d.peerToHost) && group >= 0 && m.reachable && m.setActive
  }

  /** Each failure stage, by what the daemon answered. */
  predicate FailsWith(d: Directions, group: int, m: Daemon, stage: Stage) {
    match stage
    case BadDirections => !d.hostToPeer && !d.peerToHost
    case BadGroup => (d.hostToPeer || d.peerToHost) && group < 0
    case NoDaemon => (d.hostToPeer || d.peerToHost) && group >= 0 && !m.reachable
    case NotActivated => (d.hostToPeer || d.peerToHost) && group >= 0 && m.reachable && !m.setActive
    case MetadataRefused => Selected(d, group, m) && !ReachesStart(d, group, m)
    case NotStarted => ReachesStart(d, group, m) && !StartsUp(d, m)
    case PcmUnreadable => ReachesStart(d, group, m) && StartsUp(d, m) && !ConfigsReadable(d, m)
    case NotConnected => ReachesStart(d, group, m) && StartsUp(d, m) && ConfigsReadable(d, m) && !m.connects
  }

  lemma FailedIff(d: Directions, group: int, m: Daemon, stage: Stage)
    ensures Attempt(d, group, m).result == Failed(stage) <==> FailsWith(d, group, m, stage)
  {
  }

  /** The place of a request in any attempt: the group, metadata, host then peer start, peer then host stop. */
  function Rank(r: Request): (n: nat) {
    match r
    case SetActive => 0
    case SourceMetadata => 1
    case SinkMetadata => 2
    case StartHost => 3
    case StartPeer => 4
    case StopPeer => 5
    case StopHost => 6
  }

  predicate InOrder(sent: seq<Request>) {
    forall i, j | 0 <= i < j < |sent| :: Rank(sent[i]) < Rank(sent[j])
  }

  predicate From(sent: seq<Request>, low: nat) {
    forall i | 0 <= i < |sent| :: low <= Rank(sent[i])
  }

  predicate Below(sent: seq<Request>, high: nat) {
    forall i | 0 <= i < |sent| :: Rank(sent[i]) < high
  }

  lemma OrderedParts(a: seq<Request>, b: seq<Request>, rank: nat)
    requires InOrder(a) && InOrder(b) && Below(a, rank) && From(b, rank)
    ensures InOrder(a + b)
  {
  }

  lemma AnnounceInOrder(d: Directions)
    ensures InOrder(Announce(d)) && Below(Announce(d), 3)
  {
    assert Announce(d) == if d.hostToPeer && d.peerToHost then [SetActive, SourceMetadata, SinkMetadata]
                          else if d.hostToPeer then [SetActive, SourceMetadata]
                          else if d.peerToHost then [SetActive, SinkMetadata] else [SetActive];
  }

  lemma StartsInOrder(d: Directions)
    ensures InOrder(Starts(d)) && From(Starts(d), 3) && Below(Starts(d), 5)
  {
    LogShapes(d);
  }

  lemma StopsInOrder(host: bool, peer: bool)
    ensures InOrder(Stops(host, peer)) && From(Stops(host, peer), 5)
  {
  }

  lemma StartsThenStops(d: Directions, host: bool, peer: bool)
    ensures InOrder(Starts(d) + Stops(host, peer)) && From(Starts(d) + Stops(host, peer), 3)
  {
    StartsInOrder(d);
    StopsInOrder(host, peer);
    OrderedParts(Starts(d), Stops(host, peer), 5);
  }

  /** The four logs the start can leave. */
  lemma StartLogIs(d: Directions, m: Daemon)
    ensures var sent := StartAndConnect(d, m).sent;
            || sent == [StartHost] || sent == Starts(d) || sent == Starts(d) + Stops(d.hostToPeer, false)
            || sent == Starts(d) + Stops(d.hostToPeer, d.peerToHost)
  {
  }

  lemma StartLogInOrder(d: Directions, m: Daemon)
    ensures InOrder(StartAndConnect(d, m).sent) && From(StartAndConnect(d, m).sent, 3)
  {
    StartLogIs(d, m);
    StartsInOrder(d);
    StartsThenStops(d, d.hostToPeer, false);
    StartsThenStops(d, d.hostToPeer, d.peerToHost);
  }

  /** Whatever happens, requests are sent in this order and none twice. */
  lemma RequestsInOrder(d: Directions, group: int, m: Daemon)
    ensures InOrder(Attempt(d, group, m).sent)
  {
    AnnounceInOrder(d);
    StartLogInOrder(d, m);
    OrderedParts(Announce(d), StartAndConnect(d, m).sent, 3);
  }

  /** The direction a request is for. */
  predicate AskedFor(d: Directions, r: Request) {
    && (r in {SourceMetadata, StartHost, StopHost} ==> d.hostToPeer)
    && (r in {SinkMetadata, StartPeer, StopPeer} ==> d.peerToHost)
  }

  /** Nothing is requested for a direction that was not selected. */
  lemma OnlyAskedFor(d: Directions, group: int, m: Daemon, r: Request)
    requires r in Attempt(d, group, m).sent
    ensures AskedFor(d, r)
  {
  }

  /** A successful start has sent every request of its directions, and no stop. */
  lemma StartedRequests(d: Directions, group: int, m: Daemon, r: Request)
    requires Attempt(d, group, m).result.Started?
    ensures r in Attempt(d, group, m).sent <==> AskedFor(d, r) && !r.StopPeer? && !r.StopHost?
  {
    StartIndices(d, group, m);
  }

  // ---------------------------------------------------------------------------
  // Stopping a running path
  // ---------------------------------------------------------------------------

  datatype StopResult = Stopped | NoProxy | StopError(first: Request)

  /** `FlossLeDataPath::stop`: both directions are asked to stop even if the first fails; the first error is kept. */
  method StopPath(d: Directions, proxyOk: bool, peerStopOk: bool, hostStopOk: bool)
    returns (sent: seq<Request>, r: StopResult)
    ensures sent == if proxyOk then Stops(d.hostToPeer, d.peerToHost) else []
    ensures r.Stopped? <==> proxyOk && (d.peerToHost ==> peerStopOk) && (d.hostToPeer ==> hostStopOk)
    ensures r.StopError? ==> r.first in sent && (r.first.StopHost? ==> !d.peerToHost || peerStopOk)
  {
    sent := [];
    if !proxyOk {
      return sent, NoProxy;
    }
    var firstError: Option<Request> := None;
    if d.peerToHost {
      sent := sent + [StopPeer];
      if !peerStopOk {
        firstError := Some(StopPeer);
      }
    }
    if d.hostToPeer {
      sent := sent + [StopHost];
      if !hostStopOk && firstError.None? {
        firstError := Some(StopHost);
      }
    }
    return sent, if firstError.Some? then StopError(firstError.value) else Stopped;
  }

  lemma StartIndices(d: Directions, group: int, m: Daemon)
    requires Attempt(d, group, m).result.Started?
    ensures Attempt(d, group, m).sent == Announce(d) + Starts(d) && ReachesStart(d, group, m)
    ensures StartsUp(d, m) && ConfigsReadable(d, m)
  {
  }

  /** A path started and then stopped has every accepted start undone, and its PCM intervals are usable. */
  lemma StartThenStop(d: Directions, group: int, m: Daemon)
    requires Attempt(d, group, m).result.Started?
    ensures var o := Attempt(d, group, m);
            && RolledBack(m, o.sent + Stops(d.hostToPeer, d.peerToHost))
            && (o.result.hostPcm.Some? <==> d.hostToPeer) && (o.result.peerPcm.Some? <==> d.peerToHost)
            && (d.hostToPeer ==> m.hostConfig == Config(o.result.hostPcm.value)
                                 && o.result.hostPcm.value.BytesPerInterval().Some?)
            && (d.peerToHost ==> m.peerConfig == Config(o.result.peerPcm.value)
                                 && o.result.peerPcm.value.BytesPerInterval().Some?)
  {
    var o := Attempt(d, group, m);
    StartIndices(d, group, m);
    var rest := Starts(d) + Stops(d.hostToPeer, d.peerToHost);
    LogShapes(d);
    assert RolledBack(m, rest) by {
      forall i | 0 <= i < |rest| && AcceptedStart(m, rest, rest[i])
        ensures exists j :: i < j < |rest| && rest[j] == StopOf(rest[i])
      {
        var j := |rest| - 1 - i;
        assert i < j && rest[j] == StopOf(rest[i]);
      }
    }
    RolledBackSuffix(m, Announce(d), rest);
    assert o.sent + Stops(d.hostToPeer, d.peerToHost) == Announce(d) + rest;
  }

  // ---------------------------------------------------------------------------
  // The code
  // ---------------------------------------------------------------------------

  method WaitStarted(d: Directions, polls: seq<Poll>) returns (ok: bool)
    ensures ok == Confirmed(d, polls)
  {
    var i := 0;
    while i < |polls|
      invariant 0 <= i <= |polls| && Confirmed(d, polls) == Confirmed(d, polls[i..])
    {
      var p := polls[i];
      assert polls[i..][1..] == polls[i + 1..];
      if d.hostToPeer && p.host.None? {
        return false;
      }
      var host := !d.hostToPeer || p.host == Some(1);
      if d.peerToHost && p.peer.None? {
        return false;
      }
      var peer := !d.peerToHost || p.peer == Some(1);
      if host && peer {
        return true;
      }
      if p.expired {
        return false;
      }
      i := i + 1;
    }
    return false;
  }

  /** `start_software_unicast`, request by request, with its two started flags. */
  method StartSoftwareUnicast(d: Directions, group: int, m: Daemon) returns (result: Result, sent: seq<Request>)
    ensures Outcome(result, sent) == Attempt(d, group, m)
  {
    sent := [];
    if !d.hostToPeer && !d.peerToHost {
      return Failed(BadDirections), sent;
    }
    if group < 0 {
      return Failed(BadGroup), sent;
    }
    if !m.reachable {
      return Failed(NoDaemon), sent;
    }
    sent := sent + [SetActive];
    if !m.setActive {
      return Failed(NotActivated), sent;
    }
    if d.hostToPeer {
      sent := sent + [SourceMetadata];
      if !m.sourceMetadata.Yes? {
        return Failed(MetadataRefused), sent;
      }
    }
    if d.peerToHost {
      sent := sent + [SinkMetadata];
      if !m.sinkMetadata.Yes? {
        return Failed(MetadataRefused), sent;
      }
    }
    assert sent == Announce(d);
    var rest;
    result, rest := StartAndConnectCode(d, m);
    sent := sent + rest;
  }

  method StartAndConnectCode(d: Directions, m: Daemon) returns (result: Result, sent: seq<Request>)
    requires d.hostToPeer || d.peerToHost
    ensures Outcome(result, sent) == StartAndConnect(d, m)
  {
    sent := [];
    var hostStarted, peerStarted, failed := false, false, false;
    if d.hostToPeer {
      sent := sent + [StartHost];
      if m.hostStart.Yes? {
        hostStarted := true;
      } else {
        failed := true;
      }
    }
    if !failed && d.peerToHost {
      sent := sent + [StartPeer];
      if m.peerStart.Yes? {
        peerStarted := true;
      } else {
        failed := true;
      }
    }
    if !failed {
      var ok := WaitStarted(d, m.polls);
      failed := !ok;
    }
    if failed {
      sent := sent + Stops(hostStarted, peerStarted);
      return Failed(NotStarted), sent;
    }
    if (d.hostToPeer && !Readable(m.hostConfig)) || (d.peerToHost && !Readable(m.peerConfig)) {
      return Failed(PcmUnreadable), sent;
    }
    var hostPcm := if d.hostToPeer then Some(m.hostConfig.pcm) else None;
    var peerPcm := if d.peerToHost then Some(m.peerConfig.pcm) else None;
    if !m.connects {
      sent := sent + Stops(hostStarted, peerStarted);
      return Failed(NotConnected), sent;
    }
    return Started(hostPcm, peerPcm), sent;
  }
}
