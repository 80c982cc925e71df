/** The guest agent: one command at a time, dispatched to the network and the process runtime. */
module GuestAgent {
  import opened Protocol
  import opened Traces
  import opened Regimes
  import opened Machine
  import opened GuestRuntime
  import opened Courtesy
  import opened Manners
  import Assertions

  /** Why a command is refused. */
  datatype Refusal =
    | WrongProfile | AlreadyConfigured | NotConfigured | WrongPeer | OutageActive | OutageNotActive
    | StopDuringOutage | BadRequest | BadInput(judgement: Judgement) | EndRefused

  datatype Outcome = Carried(goOn: bool) | Refused(refusal: Refusal) | Broken

  /** The refusals a well-driven command stream must never meet. */
  predicate AgainstRegime(refusal: Refusal) {
    match refusal
    case BadInput(judgement) => judgement.Unreadable? || judgement.EmptyFrame? || judgement.NotContiguous?
    case BadRequest => false
    case EndRefused => false
    case _ => true
  }

  const PEER_CIDR := FIXTURE_PEER + "/32"
  const MAX_REQUEST_DATA_LENGTH: nat := 64 * 1024

  predicate RequestName(s: string) {
    forall i | 0 <= i < |s| :: 'a' <= s[i] <= 'z' || 'A' <= s[i] <= 'Z' || '0' <= s[i] <= '9' || s[i] == '-'
  }

  /** A request within the bounds of the fixture: a plain identifier, and no more data than a frame holds. */
  predicate GoodRequest(requestId: string, payload: string) {
    && |requestId| > 0 && |requestId| + |payload| <= 65536
    && forall c | c in requestId :: 'a' <= c <= 'z' || 'A' <= c <= 'Z' || '0' <= c <= '9' || c == '-'
  }

  lemma PlainName(s: string)
    ensures RequestName(s) <==> forall c | c in s :: 'a' <= c <= 'z' || 'A' <= c <= 'Z' || '0' <= c <= '9' || c == '-'
  {
    assert forall i | 0 <= i < |s| :: s[i] in s;
  }

  datatype Exchanged = Fetched(responseId: string, responsePayload: string) | NotFetched(errno: Option<int>,
                                                                                         malformed: bool)

  lemma KeptNext(emitted: seq<EventFrame>, frame: EventFrame)
    ensures Assertions.Kept(emitted + [frame]) == Assertions.Kept(emitted)
            + if Assertions.IsAssertionEvent(frame.event) then [frame] else []
  {
    assert (emitted + [frame])[..|emitted|] == emitted;
  }

  lemma FramedNext(more: seq<Event>, i: nat, next: nat, command: nat)
    requires i < |more|
    ensures Framed(more[..i + 1], next, command) ==
            Framed(more[..i], next, command) + [EventFrame(PROTOCOL_VERSION, next + i, command, more[i],
                                                           NO_DIAGNOSTICS)]
  {}

  lemma FramedNothing(next: nat, command: nat)
    ensures Framed([], next, command) == []
  {}

  predicate WrongValues(command: Command)
    requires command.ConfigureNetwork?
  {
    !(command.iface == NETWORK_INTERFACE && command.guestCidr == GUEST_CIDR && command.gateway == FIXTURE_PEER)
  }

  /** A switch of the network that comes with the wrong profile or peer, or out of turn. */
  predicate OutOfTurn(command: Command, configured: bool, outage: bool) {
    match command
    case ConfigureNetwork(iface, cidr, gateway) =>
      configured || !(iface == NETWORK_INTERFACE && cidr == GUEST_CIDR && gateway == FIXTURE_PEER)
    case ActivateOutage(peer) => !configured || peer != PEER_CIDR || outage
    case RestoreNetwork(peer) => !configured || peer != PEER_CIDR || !outage
    case _ => false
  }

  class Agent {
    const runtime: ProcessRuntime
    var networkConfigured: bool
    var outageActive: bool
    var nextEventId: nat
    /** The events kept for the network report. */
    var events: seq<EventFrame>
    /** Every command carried out, and every frame emitted. */
    ghost var handled: seq<CommandFrame>
    ghost var emitted: seq<EventFrame>

    /** The runtime agrees with a regime about input: the active invocation expects what comes next,
        and nothing was sent beyond the last invocation taken. */
    ghost predicate InputAgrees(regime: Regime)
      reads runtime, runtime.Footprint(), runtime.journal.ledger, runtime.journal.tally
    {
      && this !in runtime.Footprint() && runtime.Valid()
         && runtime.journal.limits.inputFrameBytes == MAX_STDIN_FRAME_BYTES
      && (runtime.active != null ==> runtime.active.inputOffset == regime.Offset(runtime.active.id))
      && (forall k | k in regime.offsets :: runtime.lastInvocation.Some? && k <= runtime.lastInvocation.value)
    }

    ghost predicate Numbered()
      reads this`emitted, this`nextEventId, this`events
    {
      Sequential(emitted) && nextEventId == |emitted| + 1 && events == Assertions.Kept(emitted)
    }

    /** Between two commands the ledger holds everything emitted; and frames that answer a well-driven
        stream keep the promises of the host. */
    ghost predicate Settled()
      reads this`emitted, this`handled, runtime.journal, runtime.journal.ledger
    {
      && runtime.journal.ledger.frames == emitted && runtime.journal.ledger.mark == |runtime.journal.log|
      && (WellDriven(handled) ==> Mannerly(emitted, Follow(handled), |handled|))
    }

    /** The agent stands where the commands it carried out have brought it: the network flags are the
        regime's, and the active invocation expects input exactly where the host left off. */
    ghost predicate Valid()
      reads this, runtime, runtime.Footprint(), runtime.journal.ledger, runtime.journal.tally
    {
      && InputAgrees(Follow(handled)) && Numbered() && Settled()
      && networkConfigured == Follow(handled).configured && outageActive == Follow(handled).outage
    }

    constructor (runtime: ProcessRuntime)
      requires runtime.Valid() && runtime.State() == IDLE
               && runtime.journal.limits.inputFrameBytes == MAX_STDIN_FRAME_BYTES
      requires runtime.journal.log == [] && runtime.journal.ledger.frames == [] && runtime.journal.ledger.mark == 0
      ensures Valid() && this.runtime == runtime && handled == [] && emitted == []
    {
      this.runtime := runtime;
      networkConfigured, outageActive, nextEventId, events := false, false, 1, [];
      handled, emitted := [], [];
      NothingIsMannerly();
    }

    /** Whatever it has answered to a well-driven stream, the checker finds nothing wrong with it but lines
        that are too long. */
    lemma EmitsCleanly()
      requires Valid() && WellDriven(handled)
      ensures OnlyLongLines(Fold(emitted))
    {
      hide Journal.Holds, ProcessRuntime.State, WellDriven, Fold, StandsFor, Courteous;
      runtime.journal.Counts();
      assert runtime.journal.log[|runtime.journal.log|..] == [];
      FramedNone(|emitted| + 1, runtime.journal.ledger.command);
      assert emitted + [] == emitted;
      StandingIsClean(emitted, runtime.journal.state, runtime.journal.sha);
    }

    /** Number events on, under one command, keeping those the network report needs. */
    method Emit(commandId: nat, more: seq<Event>)
      requires Numbered()
      modifies this`nextEventId, this`events, this`emitted
      ensures Numbered()
      ensures emitted == old(emitted) + Framed(more, old(|emitted|) + 1, commandId)
    {
      hide Framed, Assertions.Kept;
      FramedNothing(old(|emitted|) + 1, commandId);
      for i := 0 to |more|
        invariant Numbered()
        invariant emitted == old(emitted) + Framed(more[..i], old(|emitted|) + 1, commandId)
      {
        var frame := EventFrame(PROTOCOL_VERSION, nextEventId, commandId, more[i], NO_DIAGNOSTICS);
        nextEventId := nextEventId + 1;
        KeptNext(emitted, frame);
        FramedNext(more, i, old(|emitted|) + 1, commandId);
        emitted := emitted + [frame];
        if Assertions.IsAssertionEvent(frame.event) {
          events := events + [frame];
        }
      }
      assert more[..|more|] == more;
    }

    /** Nothing stands against carrying the command out, as far as it lies with the agent and the
        command. */
    ghost predicate Admits(command: Command)
      reads this, runtime, runtime.active
    {
      match command
      case Start(_, _) => true
      case StdinWrite(invocation, offset, hex) =>
        runtime.Judged(invocation, offset, Unhex(hex, runtime.journal.limits.inputFrameBytes)) == Accepted
      case StdinEof(invocation) => runtime.MayEnd(invocation)
      case Terminate(invocation) => runtime.MayTerminate(invocation)
      case Shutdown => !outageActive
      case Request(requestId, payload, _) => networkConfigured && GoodRequest(requestId, payload)
      case Check(_, _) => true
      case _ => !OutOfTurn(command, networkConfigured, outageActive)
    }

    /** Configure, activate, restore: at most one event, and the flags of the regime. */
    method Switch(command: Command) returns (outcome: Outcome, more: seq<Event>)
      requires this !in runtime.Footprint()
      requires runtime.Valid() && (command.ConfigureNetwork? || command.ActivateOutage? || command.RestoreNetwork?)
      modifies this`networkConfigured, this`outageActive, runtime.kernel`failures
      ensures runtime.Valid()
      ensures runtime.kernel.failures >= old(runtime.kernel.failures)
      ensures outcome.Broken? ==> runtime.kernel.failures > old(runtime.kernel.failures)
      ensures match outcome
              case Carried(goOn) =>
                && goOn && more == SwitchReport(command)
                && networkConfigured == (command.ConfigureNetwork? || old(networkConfigured))
                && outageActive == (if command.ActivateOutage? then true else if command.RestoreNetwork? then false
                                    else old(outageActive))
              case _ => networkConfigured == old(networkConfigured) && outageActive == old(outageActive) && more == []
      ensures outcome.Refused? <==> OutOfTurn(command, old(networkConfigured), old(outageActive))
      ensures outcome.Refused? ==>
                outcome.refusal == if command.ConfigureNetwork?
                                   then (if WrongValues(command) then WrongProfile else AlreadyConfigured)
                                   else if !old(networkConfigured) then NotConfigured
                                   else if command.peerCidr != PEER_CIDR then WrongPeer
                                   else if command.ActivateOutage? then OutageActive else OutageNotActive
    {
      hide ProcessRuntime.Valid;
      more := [];
      var works := runtime.AskSystem();
      match command
      case ConfigureNetwork(iface, cidr, gateway) =>
        if iface != NETWORK_INTERFACE || cidr != GUEST_CIDR || gateway != FIXTURE_PEER {
          return Refused(WrongProfile), [];
        }
        if networkConfigured {
          return Refused(AlreadyConfigured), [];
        }
        if !works {
          return Broken, [];
        }
        networkConfigured := true;
        return Carried(true), [NetworkConfigured(iface, cidr, gateway)];
      case ActivateOutage(peer) =>
        if !networkConfigured {
          return Refused(NotConfigured), [];
        }
        if peer != PEER_CIDR {
          return Refused(WrongPeer), [];
        }
        if outageActive {
          return Refused(OutageActive), [];
        }
        if !works {
          return Broken, [];
        }
        outageActive := true;
        return Carried(true), [OutageActivated(peer, ProhibitRule(PEER_CIDR))];
      case RestoreNetwork(peer) =>
        if !networkConfigured {
          return Refused(NotConfigured), [];
        }
        if peer != PEER_CIDR {
          return Refused(WrongPeer), [];
        }
        if !outageActive {
          return Refused(OutageNotActive), [];
        }
        if !works {
          return Broken, [];
        }
        outageActive := false;
        return Carried(true), [NetworkRestored(peer)];
    }

    /** The exchange with the fixture, with whatever outcome the network gives. */
    method Exchange() returns (r: Exchanged)
    {
      var answered: bool, id: string, payload: string, errno: Option<int>, malformed: bool := *, *, *, *, *;
      r := if answered then Fetched(id, payload) else NotFetched(errno, malformed);
    }

    /** One network request. It is refused exactly without a network or outside the fixture's bounds; a
        failed exchange is prohibited exactly when the system says so. */
    method Fetch(requestId: string, payload: string, phase: RequestPhase)
      returns (outcome: Outcome, more: seq<Event>, ghost result: Exchanged)
      ensures outcome == Refused(NotConfigured) <==> !networkConfigured
      ensures outcome == Refused(BadRequest) <==> networkConfigured && !GoodRequest(requestId, payload)
      ensures outcome == Carried(true) <==> networkConfigured && GoodRequest(requestId, payload)
      ensures outcome.Refused? || outcome == Carried(true)
      ensures outcome.Carried? ==> |more| == 2 && more[0] == RequestAttempted(requestId, payload, phase)
      ensures outcome.Carried? ==>
                match result
                case Fetched(id, data) => more[1] == RequestSucceeded(requestId, payload, id, data, phase)
                case NotFetched(errno, malformed) =>
                  && more[1].RequestUnavailable? && more[1].requestId == requestId && more[1].phase == phase
                  && more[1].errno == errno
                  && (more[1].error == AdministrativeProhibited <==> errno == Some(13))
                  && (more[1].error == InvalidResponse <==> errno != Some(13) && malformed)
    {
      PlainName(requestId);
      more := [];
      result := NotFetched(None, false);
      if !networkConfigured {
        return Refused(NotConfigured), [], result;
      }
      if requestId == "" || !RequestName(requestId) || |requestId| + |payload| > MAX_REQUEST_DATA_LENGTH {
        return Refused(BadRequest), [], result;
      }
      var exchanged := Exchange();
      outcome, result := Carried(true), exchanged;
      more := [RequestAttempted(requestId, payload, phase)];
      match exchanged
      case Fetched(id, data) =>
        more := more + [RequestSucceeded(requestId, payload, id, data, phase)];
      case NotFetched(errno, malformed) =>
        var error := if errno == Some(Assertions.EACCES) then AdministrativeProhibited
                     else if malformed then InvalidResponse else Transport;
        more := more + [RequestUnavailable(requestId, phase, error, errno)];
    }

    /** Start an invocation. A fresh one has been sent nothing yet. */
    method StartInvocation(invocation: nat, launch: LaunchIdentity, ghost regime: Regime) returns (more: seq<Event>)
      requires InputAgrees(regime)
      modifies runtime, runtime.journal, runtime.journal.tally, runtime.kernel`failures
      ensures InputAgrees(regime) && runtime.journal.log == old(runtime.journal.log) + more
      ensures AnswersTo(Start(invocation, launch), more)
      ensures runtime.kernel.failures >= old(runtime.kernel.failures)
      ensures fresh(runtime.Footprint() - old(runtime.Footprint()))
    {
      hide Journal.Holds;
      var event;
      ghost var judgement;
      event, judgement := runtime.Start(invocation, launch);
      more := [event];
    }

    /** One input frame. The runtime refuses it as unreadable, empty or out of place only when the
        command stream itself is at fault. */
    method WriteInput(invocation: nat, offset: nat, hex: string, ghost regime: Regime)
      returns (outcome: Outcome, more: seq<Event>)
      requires InputAgrees(regime)
      modifies runtime.Footprint() - {runtime}, runtime.journal.tally
      ensures outcome.Carried? ==> outcome == Carried(true)
                                   && InputAgrees(regime.After(StdinWrite(invocation, offset, hex)))
      ensures outcome.Carried? ==> AnswersTo(StdinWrite(invocation, offset, hex), more)
      ensures outcome.Carried? ==> regime.Insists(StdinWrite(invocation, offset, hex))
      ensures outcome.Carried? ==> runtime.journal.log == old(runtime.journal.log) + more
      ensures outcome.Refused? ==> outcome.refusal.BadInput?
      ensures runtime.kernel.failures >= old(runtime.kernel.failures)
      ensures outcome.Carried? ==> old(Admits(StdinWrite(invocation, offset, hex)))
      ensures old(Admits(StdinWrite(invocation, offset, hex))) ==>
                !outcome.Refused? || runtime.kernel.failures > old(runtime.kernel.failures)
      ensures outcome.Broken? ==> runtime.kernel.failures > old(runtime.kernel.failures)
      ensures outcome.Refused? ==> !Admits(StdinWrite(invocation, offset, hex))
                                   || runtime.kernel.failures > old(runtime.kernel.failures)
      ensures fresh(runtime.Footprint() - old(runtime.Footprint()))
      ensures regime.Permits(StdinWrite(invocation, offset, hex)) ==>
                !(outcome.Refused? && AgainstRegime(outcome.refusal))
    {
      hide Journal.Holds, Unhex, Hex;
      runtime.journal.IsOrderly();
      var judgement, ok;
      judgement, ok, more := runtime.StdinWrite(invocation, offset, hex);
      outcome := if judgement != Accepted then Refused(BadInput(judgement)) else if ok then Carried(true) else Broken;
    }

    /** End of input or termination. */
    method EndInput(invocation: nat, kill: bool, ghost regime: Regime) returns (outcome: Outcome, more: seq<Event>)
      requires InputAgrees(regime)
      modifies runtime.Footprint() - {runtime}, runtime.journal.tally
      ensures outcome.Carried? ==> outcome == Carried(true) && InputAgrees(regime)
      ensures outcome.Carried? ==> AnswersTo(if kill then Terminate(invocation) else StdinEof(invocation), more)
      ensures outcome.Carried? ==> runtime.journal.log == old(runtime.journal.log) + more
      ensures outcome.Refused? ==> outcome.refusal == EndRefused
      ensures runtime.kernel.failures >= old(runtime.kernel.failures)
      ensures outcome.Carried? ==> old(Admits(if kill then Terminate(invocation) else StdinEof(invocation)))
      ensures old(Admits(if kill then Terminate(invocation) else StdinEof(invocation))) ==>
                !outcome.Refused? || runtime.kernel.failures > old(runtime.kernel.failures)
      ensures outcome.Broken? ==> runtime.kernel.failures > old(runtime.kernel.failures)
      ensures outcome.Refused? ==> !Admits(if kill then Terminate(invocation) else StdinEof(invocation))
                                   || runtime.kernel.failures > old(runtime.kernel.failures)
      ensures fresh(runtime.Footprint() - old(runtime.Footprint()))
    {
      hide Journal.Holds;
      var ok;
      if kill {
        ok, more := runtime.Terminate(invocation);
      } else {
        ok, more := runtime.StdinEof(invocation);
      }
      outcome := if ok then Carried(true) else Refused(EndRefused);
    }

    /** Stop, unless the outage is still in force. */
    method Stop(ghost regime: Regime) returns (outcome: Outcome, more: seq<Event>)
      requires InputAgrees(regime)
      modifies runtime, runtime.Footprint()
      ensures outcome.Carried? ==> outcome == Carried(false) && InputAgrees(regime) && !outageActive
                                   && runtime.active == null
      ensures outcome.Carried? ==> && |more| > 0 && more[|more| - 1] == AgentStopped
                                   && runtime.journal.log == old(runtime.journal.log) + more[..|more| - 1]
      ensures outcome.Carried? ==> AnswersTo(Shutdown, more)
      ensures outcome.Refused? <==> old(outageActive)
      ensures runtime.kernel.failures >= old(runtime.kernel.failures)
      ensures outcome.Broken? ==> runtime.kernel.failures > old(runtime.kernel.failures) || runtime.Overrun()
      ensures fresh(runtime.Footprint() - old(runtime.Footprint()))
    {
      hide Journal.Holds;
      more := [];
      if outageActive {
        return Refused(StopDuringOutage), [];
      }
      var ticks: nat := *;
      var ok;
      ok, more := runtime.Shutdown(ticks);
      more := more + [AgentStopped];
      outcome := if ok then Carried(false) else Broken;
    }

    /** Emit what the runtime reported of its own accord. */
    method Deliver(commandId: nat, reported: seq<Event>, ghost before: seq<Event>)
      requires Numbered() && this !in runtime.Footprint() && runtime.Valid() && Unasked(reported)
      requires runtime.journal.log == before + reported && runtime.journal.ledger.mark == |before|
      requires runtime.journal.ledger.frames == emitted && runtime.journal.ledger.command == commandId
      requires WellDriven(handled) ==> Mannerly(emitted, Follow(handled), |handled|)
      modifies this`nextEventId, this`events, this`emitted, runtime.journal.ledger
      ensures Numbered() && runtime.Valid() && Settled()
      ensures emitted == old(emitted) + Framed(reported, old(|emitted|) + 1, commandId)
    {
      hide Journal.Holds, Journal.Frames, Follow, Framed, WellDriven, Mannerly, Unasked, Assertions.Kept, Sequential;
      Emit(commandId, reported);
      FramesAre(before, reported);
      runtime.Settle([]);
      FramedNone(|emitted| + 1, commandId);
      assert emitted + [] == emitted;
      if WellDriven(handled) {
        QuietIsMannerly(old(emitted), reported, Follow(handled), |handled|, commandId);
      }
    }

    /** Service the runtime between commands; its events are numbered under the last command. */
    method Service(commandId: nat) returns (ok: bool, ghost more: seq<Event>)
      requires Valid()
      modifies this`nextEventId, this`events, this`emitted, runtime, runtime.Footprint(), runtime.journal.ledger
      ensures runtime.journal.log == old(runtime.journal.log) + more
      ensures emitted == if ok then old(emitted) + Framed(more, old(|emitted|) + 1, commandId) else old(emitted)
      ensures ok ==> Valid() && handled == old(handled)
      ensures runtime.kernel.failures >= old(runtime.kernel.failures)
              && (!ok ==> runtime.kernel.failures > old(runtime.kernel.failures) || runtime.Overrun())
      ensures old(runtime.active) == null ==> ok && more == []
      ensures fresh(runtime.Footprint() - old(runtime.Footprint()))
    {
      hide Journal.Holds, Journal.Frames, Follow, Framed, WellDriven, Mannerly, Unasked, Assertions.Kept, Sequential,
           ProcessRuntime.Overrun, GuestInvocation.Attended, EndsWithBarrier, Numbered, ProcessRuntime.Valid;
      var ticks: nat := *;
      var reported;
      runtime.TakeCommand(commandId);
      ok, reported := runtime.Poll(ticks);
      more := reported;
      if ok {
        Deliver(commandId, reported, old(runtime.journal.log));
      }
    }

    /** The frames of the command under way. */
    lemma FramesAre(before: seq<Event>, more: seq<Event>)
      requires runtime.journal.log == before + more && runtime.journal.ledger.mark == |before|
      ensures var ledger := runtime.journal.ledger;
              runtime.journal.Frames() == ledger.frames + Framed(more, |ledger.frames| + 1, ledger.command)
    {
      assert (before + more)[|before|..] == more;
    }

    predicate ForRuntime(command: Command) {
      command.Start? || command.StdinWrite? || command.StdinEof? || command.Terminate? || command.Shutdown?
    }

    /** Commands for the process runtime. */
    method PerformProcess(command: Command, ghost regime: Regime) returns (outcome: Outcome, more: seq<Event>)
      requires ForRuntime(command)
      requires InputAgrees(regime) && networkConfigured == regime.configured && outageActive == regime.outage
      modifies runtime, runtime.Footprint(), runtime.journal.tally
      ensures outcome.Carried? ==> AnswersTo(command, more)
      ensures outcome.Carried? ==> && InputAgrees(regime.After(command))
                                   && networkConfigured == regime.After(command).configured
                                   && outageActive == regime.After(command).outage
      ensures outcome.Carried? ==> if command.Shutdown? then
                                     && |more| > 0 && more[|more| - 1] == AgentStopped
                                     && runtime.journal.log == old(runtime.journal.log) + more[..|more| - 1]
                                   else runtime.journal.log == old(runtime.journal.log) + more
      ensures fresh(runtime.Footprint() - old(runtime.Footprint()))
      ensures outcome == Carried(false) ==> command.Shutdown?
      ensures outcome.Carried? ==> regime.Insists(command)
      ensures regime.Permits(command) ==> !(outcome.Refused? && AgainstRegime(outcome.refusal))
      ensures runtime.kernel.failures >= old(runtime.kernel.failures)
      ensures outcome.Carried? ==> old(Admits(command))
      ensures old(Admits(command)) ==> !outcome.Refused? || runtime.kernel.failures > old(runtime.kernel.failures)
      ensures outcome.Broken? ==> runtime.kernel.failures > old(runtime.kernel.failures) || runtime.Overrun()
      ensures outcome.Refused? ==> !Admits(command) || runtime.kernel.failures > old(runtime.kernel.failures)
    {
      hide Journal.Holds, Unhex, ProcessRuntime.Valid, ProcessRuntime.Overrun, GoodRequest, OutOfTurn,
           ProcessRuntime.Judged, ProcessRuntime.MayEnd, ProcessRuntime.MayTerminate;
      match command
      case Start(invocation, launch) =>
        more := StartInvocation(invocation, launch, regime);
        outcome := Carried(true);
      case StdinWrite(invocation, offset, hex) =>
        outcome, more := WriteInput(invocation, offset, hex, regime);
      case StdinEof(invocation) =>
        outcome, more := EndInput(invocation, false, regime);
      case Terminate(invocation) =>
        outcome, more := EndInput(invocation, true, regime);
      case Shutdown =>
        outcome, more := Stop(regime);
    }

    /** The events of a carried network command: what a switch confirms, an attempt and its outcome, or the
        report on the history kept so far. */
    predicate NetworkReported(command: Command, more: seq<Event>)
      reads this`events
    {
      match command
      case Request(requestId, payload, phase) =>
        && |more| == 2 && more[0] == RequestAttempted(requestId, payload, phase)
        && (more[1].RequestSucceeded? || more[1].RequestUnavailable?)
        && more[1].requestId == requestId && more[1].phase == phase
        && (more[1].RequestSucceeded? ==> more[1].requestPayload == payload)
        && (more[1].RequestUnavailable? ==> (more[1].error == AdministrativeProhibited <==> more[1].errno == Some(13)))
      case Check(outageBound, livenessBound) =>
        more == [AssertionsEvaluated(Assertions.Evaluate(events, outageBound, livenessBound))]
      case _ => more == SwitchReport(command)
    }

    /** Commands for the network and its report. */
    method PerformNetwork(command: Command, ghost regime: Regime) returns (outcome: Outcome, more: seq<Event>)
      requires !ForRuntime(command)
      requires InputAgrees(regime) && networkConfigured == regime.configured && outageActive == regime.outage
      modifies this`networkConfigured, this`outageActive, runtime.kernel`failures
      ensures outcome.Carried? ==> && InputAgrees(regime.After(command))
                                   && networkConfigured == regime.After(command).configured
                                   && outageActive == regime.After(command).outage
      ensures outcome.Carried? ==> NetworkReported(command, more)
      ensures outcome == Carried(false) ==> command.Shutdown?
      ensures outcome.Carried? ==> regime.Insists(command)
      ensures regime.Permits(command) ==> !(outcome.Refused? && AgainstRegime(outcome.refusal))
      ensures runtime.kernel.failures >= old(runtime.kernel.failures)
      ensures outcome.Carried? ==> old(Admits(command))
      ensures old(Admits(command)) ==> !outcome.Refused? || runtime.kernel.failures > old(runtime.kernel.failures)
      ensures outcome.Broken? ==> runtime.kernel.failures > old(runtime.kernel.failures)
      ensures outcome.Refused? ==> !Admits(command) || runtime.kernel.failures > old(runtime.kernel.failures)
    {
      hide Journal.Holds, Unhex, ProcessRuntime.Valid, Assertions.Evaluate;
      if command.Request? {
        ghost var result;
        outcome, more, result := Fetch(command.requestId, command.payload, command.phase);
      } else if command.Check? {
        more := [AssertionsEvaluated(Assertions.Evaluate(events, command.outageEventBound,
                                                         command.livenessEventBound))];
        outcome := Carried(true);
      } else {
        outcome, more := Switch(command);
      }
    }

    /** What the runtime itself reported of a command; the rest is the network's or the agent's. */
    ghost function Own(command: Command, reported: seq<Event>): seq<Event>
      requires command.Shutdown? ==> reported != []
    {
      if !ForRuntime(command) then [] else if command.Shutdown? then reported[..|reported| - 1] else reported
    }

    lemma OwnIsFirst(command: Command, reported: seq<Event>)
      requires command.Shutdown? ==> reported != [] && reported[|reported| - 1] == AgentStopped
      requires !ForRuntime(command) ==> forall i | 0 <= i < |reported| :: OfNetwork(reported[i])
      ensures var own := Own(command, reported);
              && |own| <= |reported| && reported == own + reported[|own|..]
              && forall i | 0 <= i < |reported[|own|..]| :: OfNetwork(reported[|own|..][i])
    {}

    lemma OwnIsLogged(before: seq<Event>, own: seq<Event>)
      requires runtime.journal.log == before + own && runtime.journal.ledger.mark == |before|
      ensures own == runtime.journal.log[runtime.journal.ledger.mark..]
    {}

    /** A network command reports events of the network, and a permitted one those of its switch. */
    lemma NetworkAnswers(command: Command, more: seq<Event>, regime: Regime)
      requires !ForRuntime(command) && NetworkReported(command, more)
      ensures forall i | 0 <= i < |more| :: OfNetwork(more[i])
      ensures regime.Permits(command) ==> AnswersTo(command, more)
    {
      hide Assertions.Evaluate;
    }

    /** Carry a command out: by the runtime, or by the network and the agent themselves. */
    method Perform(command: Command, ghost regime: Regime)
      returns (outcome: Outcome, more: seq<Event>, ghost own: seq<Event>)
      requires InputAgrees(regime) && networkConfigured == regime.configured && outageActive == regime.outage
      modifies this`networkConfigured, this`outageActive, runtime, runtime.Footprint(), runtime.journal.tally
      ensures outcome.Carried? ==> && InputAgrees(regime.After(command))
                                   && networkConfigured == regime.After(command).configured
                                   && outageActive == regime.After(command).outage && regime.Insists(command)
      ensures outcome.Carried? ==> && runtime.journal.log == old(runtime.journal.log) + own && |own| <= |more|
                                   && more == own + more[|own|..]
                                   && (forall i | 0 <= i < |more[|own|..]| :: OfNetwork(more[|own|..][i]))
      ensures outcome.Carried? && regime.Permits(command) ==> AnswersTo(command, more)
      ensures outcome.Carried? && !ForRuntime(command) ==> NetworkReported(command, more)
      ensures outcome.Carried? && ForRuntime(command) && !command.Shutdown? ==> own == more
      ensures outcome.Carried? && command.Shutdown? ==> more != [] && more[|more| - 1] == AgentStopped
      ensures outcome == Carried(false) ==> command.Shutdown?
      ensures regime.Permits(command) ==> !(outcome.Refused? && AgainstRegime(outcome.refusal))
      ensures fresh(runtime.Footprint() - old(runtime.Footprint()))
      ensures runtime.kernel.failures >= old(runtime.kernel.failures)
      ensures outcome.Carried? ==> old(Admits(command))
      ensures old(Admits(command)) ==> !outcome.Refused? || runtime.kernel.failures > old(runtime.kernel.failures)
      ensures outcome.Broken? ==> runtime.kernel.failures > old(runtime.kernel.failures) || runtime.Overrun()
      ensures outcome.Refused? ==> !Admits(command) || runtime.kernel.failures > old(runtime.kernel.failures)
    {
      hide Journal.Holds, Regime.Permits, Regime.Insists, Regime.After, NetworkReported, ProcessRuntime.Valid,
           AnswersTo, OfNetwork, GuestInvocation.Valid, Admits, ProcessRuntime.Overrun;
      own := [];
      if ForRuntime(command) {
        outcome, more := PerformProcess(command, regime);
      } else {
        outcome, more := PerformNetwork(command, regime);
        if outcome.Carried? {
          NetworkAnswers(command, more, regime);
        }
      }
      if outcome.Carried? {
        own := Own(command, more);
        OwnIsFirst(command, more);
      }
    }

    /** Emit what a command reported, and be done with it. */
    method Conclude(frame: CommandFrame, reported: seq<Event>, ghost own: seq<Event>, ghost tail: seq<Event>)
      requires Numbered() && this !in runtime.Footprint() && runtime.Valid()
      requires runtime.journal.ledger.mark <= |runtime.journal.log|
               && own == runtime.journal.log[runtime.journal.ledger.mark..]
      requires runtime.journal.ledger.frames == emitted && runtime.journal.ledger.command == frame.commandId
      requires reported == own + tail && forall i | 0 <= i < |tail| :: OfNetwork(tail[i])
      requires WellDriven(handled) ==> Mannerly(emitted, Follow(handled), |handled|)
      requires Follow(handled).Permits(frame.command) ==> AnswersTo(frame.command, reported)
      modifies this`nextEventId, this`events, this`emitted, this`handled, runtime.journal.ledger
      ensures Numbered() && runtime.Valid() && Settled() && handled == old(handled) + [frame]
      ensures emitted == old(emitted) + Framed(reported, old(|emitted|) + 1, frame.commandId)
    {
      hide Journal.Holds, Follow, Framed, WellDriven, Mannerly, Assertions.Kept, Sequential, Regime.Permits,
           Regime.After, AnswersTo, OfNetwork;
      FramesGrow(emitted, own, tail, frame.commandId);
      FollowAppend(handled, frame);
      Emit(frame.commandId, reported);
      runtime.Settle(tail);
      if WellDriven(handled + [frame]) {
        WellDrivenLast(handled, frame);
        AnswerIsMannerly(old(emitted), reported, Follow(handled), frame.command, frame.commandId);
      }
      handled := handled + [frame];
    }

    /** Handle one command. On a command stream that respects its regime, none of the refusals that
        guard the regime is ever reached; a command carried out is one the agent had to accept, and
        leaves the agent where the regime goes. */
    method Dispatch(frame: CommandFrame) returns (outcome: Outcome, ghost more: seq<Event>)
      requires Valid()
      modifies this, runtime, runtime.Footprint(), runtime.journal.ledger, runtime.journal.tally
      ensures emitted == if outcome.Carried? then old(emitted) + Framed(more, old(|emitted|) + 1, frame.commandId)
              else old(emitted)
      ensures outcome.Carried? && !ForRuntime(frame.command) ==> old(NetworkReported(frame.command, more))
      ensures outcome.Carried? && ForRuntime(frame.command) && !frame.command.Shutdown? ==>
                runtime.journal.log == old(runtime.journal.log) + more
      ensures outcome.Carried? && frame.command.Shutdown? ==> more != [] && more[|more| - 1] == AgentStopped
      ensures if outcome.Carried? then Valid() && handled == old(handled) + [frame] else handled == old(handled)
      ensures fresh(runtime.Footprint() - old(runtime.Footprint()))
      ensures outcome == Carried(false) ==> frame.command.Shutdown?
      ensures outcome.Carried? ==> Follow(old(handled)).Insists(frame.command)
      ensures Follow(old(handled)).Permits(frame.command) ==> !(outcome.Refused? && AgainstRegime(outcome.refusal))
      ensures runtime.kernel.failures >= old(runtime.kernel.failures)
      ensures outcome.Carried? ==> old(Admits(frame.command))
      ensures old(Admits(frame.command)) ==> !outcome.Refused? || runtime.kernel.failures > old(runtime.kernel.failures)
      ensures outcome.Broken? ==> runtime.kernel.failures > old(runtime.kernel.failures) || runtime.Overrun()
      ensures outcome.Refused? ==> !Admits(frame.command) || runtime.kernel.failures > old(runtime.kernel.failures)
    {
      hide Journal.Holds, Journal.Frames, Framed, Regime.Permits, Regime.Insists, Regime.After, Assertions.Kept,
           NetworkReported, ProcessRuntime.Valid, WellDriven, Mannerly, AnswersTo, Sequential, OfNetwork,
           GuestInvocation.Valid, Admits, ProcessRuntime.Overrun, Follow, AgainstRegime, ForRuntime, Numbered;
      ghost var regime := Follow(handled);
      FollowAppend(handled, frame);
      runtime.TakeCommand(frame.commandId);
      var reported;
      ghost var own;
      outcome, reported, own := Perform(frame.command, regime);
      more := reported;
      if outcome.Carried? {
        OwnIsLogged(old(runtime.journal.log), own);
        Conclude(frame, reported, own, reported[|own|..]);
      }
    }
  }

  /** Serve the runtime as often as the loop comes round, perhaps not at all. */
  method Attend(agent: Agent, commandId: nat) returns (ok: bool)
    requires agent.Valid() && WellDriven(agent.handled)
    modifies agent, agent.runtime, agent.runtime.Footprint(), agent.runtime.journal.ledger
    ensures agent.handled == old(agent.handled) && (ok ==> agent.Valid())
    ensures agent.runtime.kernel.failures >= old(agent.runtime.kernel.failures)
            && (!ok ==> agent.runtime.kernel.failures > old(agent.runtime.kernel.failures) || agent.runtime.Overrun())
    ensures OnlyLongLines(Fold(agent.emitted))
    ensures fresh(agent.runtime.Footprint() - old(agent.runtime.Footprint()))
  {
    hide Journal.Holds, Follow, ProcessRuntime.Valid, Agent.Valid, GuestInvocation.Valid, WellDriven, OnlyLongLines,
         Fold;
    var rounds: nat :| 0 <= rounds;
    agent.EmitsCleanly();
    ok := true;
    for i := 0 to rounds
      invariant ok && agent.Valid() && agent.handled == old(agent.handled) && OnlyLongLines(Fold(agent.emitted))
      invariant agent.runtime.kernel.failures >= old(agent.runtime.kernel.failures)
      invariant fresh(agent.runtime.Footprint() - old(agent.runtime.Footprint()))
    {
      ghost var more;
      ok, more := agent.Service(commandId);
      if !ok {
        return;
      }
      agent.EmitsCleanly();
    }
  }

  /** Serve the runtime, then the next command of a stream. */
  method ServeNext(agent: Agent, sent: seq<CommandFrame>, k: nat) returns (outcome: Outcome)
    requires k < |sent| && agent.Valid() && agent.handled == sent[..k] && WellDriven(sent)
    modifies agent, agent.runtime, agent.runtime.Footprint(), agent.runtime.journal.ledger, agent.runtime.journal.tally
    ensures !(outcome.Refused? && AgainstRegime(outcome.refusal))
    ensures outcome.Carried? ==> agent.Valid() && agent.handled == sent[..k + 1]
    ensures outcome == Carried(false) ==> sent[k].command.Shutdown?
    ensures agent.runtime.kernel.failures >= old(agent.runtime.kernel.failures)
    ensures outcome.Broken? ==> agent.runtime.kernel.failures > old(agent.runtime.kernel.failures)
                                || agent.runtime.Overrun()
    ensures outcome.Refused? ==>
              !agent.Admits(sent[k].command) || agent.runtime.kernel.failures > old(agent.runtime.kernel.failures)
    ensures !outcome.Carried? ==> agent.handled == sent[..k]
    ensures OnlyLongLines(Fold(agent.emitted))
    ensures fresh(agent.runtime.Footprint() - old(agent.runtime.Footprint()))
  {
    hide Journal.Holds, Follow, Regime.Permits, Regime.Insists, ProcessRuntime.Valid, Agent.Valid,
         GuestInvocation.Valid, OnlyLongLines, Fold;
    WellDrivenBefore(sent, k);
    WellDrivenBefore(sent, k + 1);
    assert sent[..k + 1] == sent[..k] + [sent[k]];
    var ok := Attend(agent, if k == 0 then 0 else sent[k - 1].commandId);
    if !ok {
      return Broken;
    }
    ghost var more;
    outcome, more := agent.Dispatch(sent[k]);
    if outcome.Carried? {
      agent.EmitsCleanly();
    }
  }

  /** The control loop over a command stream, until it ends or something goes wrong. A stream that
      respects its regime never meets a refusal that guards the regime; and whatever the workload and
      the kernel do, the checker finds nothing wrong with the emitted events but lines that are too
      long. */
  method Serve(agent: Agent, sent: seq<CommandFrame>) returns (outcome: Outcome)
    requires agent.Valid() && agent.handled == [] && WellDriven(sent)
    modifies agent, agent.runtime, agent.runtime.Footprint(), agent.runtime.journal.ledger, agent.runtime.journal.tally
    ensures !(outcome.Refused? && AgainstRegime(outcome.refusal))
    ensures outcome == Carried(true) ==> agent.handled == sent
    ensures outcome == Carried(false) ==> exists k | 0 < k <= |sent| ::
              agent.handled == sent[..k] && sent[k - 1].command.Shutdown?
    ensures outcome.Broken? ==> agent.runtime.kernel.failures > old(agent.runtime.kernel.failures)
                                || agent.runtime.Overrun()
    ensures outcome.Refused? ==>
              || agent.runtime.kernel.failures > old(agent.runtime.kernel.failures)
              || (exists k | 0 <= k < |sent| :: agent.handled == sent[..k] && !agent.Admits(sent[k].command))
    ensures OnlyLongLines(Fold(agent.emitted))
  {
    hide Journal.Holds, WellDriven, ProcessRuntime.Valid, Agent.Valid, GuestInvocation.Valid, OnlyLongLines, Fold;
    outcome := Carried(true);
    WellDrivenBefore(sent, 0);
    agent.EmitsCleanly();
    for k := 0 to |sent|
      invariant outcome == Carried(true) && agent.Valid() && agent.handled == sent[..k]
                && OnlyLongLines(Fold(agent.emitted))
                   && agent.runtime.kernel.failures >= old(agent.runtime.kernel.failures)
      invariant fresh(agent.runtime.Footprint() - old(agent.runtime.Footprint()))
    {
      outcome := ServeNext(agent, sent, k);
      if outcome != Carried(true) {
        return;
      }
    }
  }
}
