/** The process and byte facts of one workload run, rebuilt from the event stream alone. */
module Traces {
  import opened Protocol
  import opened Streams

  datatype StartRecord = StartRecord(invocation: nat, launch: LaunchIdentity, eventId: nat)
  datatype ExitRecord = ExitRecord(
    invocation: nat, exit: ProcessExit, stdoutBytes: nat, stdoutSha256: string,
    stderrBytes: nat, stderrSha256: string, frames: nat, eventId: nat)
  datatype TerminationRecord = TerminationRecord(invocation: nat, signal: int, eventId: nat)
  datatype CleanupRecord = CleanupRecord(invocation: nat, reaped: nat, eventId: nat)
  datatype LaunchFailureRecord = LaunchFailureRecord(invocation: nat, failure: LaunchFailure)
  datatype RouteRecord = RouteRecord(peerCidr: string, eventId: nat)
  datatype ConfiguredRecord = ConfiguredRecord(gateway: string, eventId: nat)

  function ProhibitRule(peerCidr: string): string {
    "prohibit " + peerCidr
  }

  datatype Trace = Trace(
    starts: seq<StartRecord>, exits: seq<ExitRecord>, terminations: seq<TerminationRecord>,
    cleanups: seq<CleanupRecord>, launchFailures: seq<LaunchFailureRecord>,
    activations: seq<RouteRecord>, restorations: seq<RouteRecord>, configured: Option<ConfiguredRecord>,
    invocations: map<nat, InvocationStreams>, violations: seq<Violation>)
  {
    predicate Started(invocation: nat) {
      exists i | 0 <= i < |starts| :: starts[i].invocation == invocation
    }

    predicate HasExited(invocation: nat) {
      exists i | 0 <= i < |exits| :: exits[i].invocation == invocation
    }

    predicate HasTerminated(invocation: nat) {
      exists i | 0 <= i < |terminations| :: terminations[i].invocation == invocation
    }

    predicate HasCleanedUp(invocation: nat) {
      exists i | 0 <= i < |cleanups| :: cleanups[i].invocation == invocation
    }

    predicate HasLaunchFailed(invocation: nat) {
      exists i | 0 <= i < |launchFailures| :: launchFailures[i].invocation == invocation
    }

    function StreamsOf(invocation: nat): InvocationStreams {
      if invocation in invocations then invocations[invocation] else NO_STREAMS
    }

    /** No structural fault anywhere. */
    predicate Clean() {
      violations == [] && forall k | k in invocations :: invocations[k].violations == []
    }

    function Fault(violation: Violation): Trace {
      this.(violations := violations + [violation])
    }

    function PushStart(event: nat, invocation: nat, launch: LaunchIdentity): Trace {
      this.(starts := starts + [StartRecord(invocation, launch, event)],
            violations := violations + If(Started(invocation), StartedTwice))
    }

    function PushExit(exit: ExitRecord): Trace {
      if !Started(exit.invocation) then Fault(ExitBeforeStart)
      else if HasExited(exit.invocation) then Fault(ExitedTwice)
      else this.(exits := exits + [exit])
    }

    function PushTermination(event: nat, invocation: nat, signal: int): Trace {
      if !Started(invocation) then Fault(TerminatedBeforeStart)
      else if HasExited(invocation) then Fault(TerminatedAfterExit)
      else if HasTerminated(invocation) then Fault(TerminatedTwice)
      else this.(terminations := terminations + [TerminationRecord(invocation, signal, event)])
    }

    /** The first exit record of the invocation has a later event identifier. */
    predicate ExitRecordedAfter(invocation: nat, event: nat) {
      exists i | 0 <= i < |exits| ::
        && exits[i].invocation == invocation && exits[i].eventId > event
        && forall j | 0 <= j < i :: exits[j].invocation != invocation
    }

    function PushCleanup(event: nat, invocation: nat, reaped: nat): Trace {
      if !Started(invocation) then Fault(CleanupBeforeStart)
      else if HasCleanedUp(invocation) then Fault(CleanedTwice)
      else if !HasExited(invocation) then Fault(CleanupBeforeExit)
      else if ExitRecordedAfter(invocation, event) then Fault(CleanupBeforeExitRecord)
      else if reaped == 0 then Fault(NothingReaped)
      else this.(cleanups := cleanups + [CleanupRecord(invocation, reaped, event)])
    }

    function PushLaunchFailure(invocation: nat, failure: LaunchFailure): Trace {
      if HasLaunchFailed(invocation) then Fault(LaunchFailedTwice)
      else if HasExited(invocation) then Fault(LaunchFailedAfterExit)
      else this.(launchFailures := launchFailures + [LaunchFailureRecord(invocation, failure)])
    }

    function PushConfigured(event: nat, iface: string, guestCidr: string, gateway: string): Trace {
      if configured.Some? then Fault(SecondConfiguration)
      else if iface != NETWORK_INTERFACE || guestCidr != GUEST_CIDR || gateway != FIXTURE_PEER then
        Fault(WrongConfiguration)
      else this.(configured := Some(ConfiguredRecord(gateway, event)))
    }

    function PushActivation(event: nat, peerCidr: string, rule: string): Trace {
      if activations != [] then Fault(SecondActivation)
      else if rule != ProhibitRule(peerCidr) then Fault(WrongRule)
      else this.(activations := activations + [RouteRecord(peerCidr, event)])
    }

    function PushRestoration(event: nat, peerCidr: string): Trace {
      if restorations != [] then Fault(SecondRestoration)
      else this.(restorations := restorations + [RouteRecord(peerCidr, event)])
    }

    function PushOutput(event: nat, invocation: nat, stream: Stream, offset: nat, sequence: nat, hex: string): Trace {
      if !Started(invocation) then Fault(OutputBeforeStart)
      else if HasExited(invocation) then Fault(OutputAfterExit)
      else
        match Unhex(hex, MAX_OUTPUT_FRAME_BYTES)
        case None => Fault(UnreadableOutput)
        case Some(data) =>
          this.(invocations := invocations[
                  invocation := StreamsOf(invocation).PushOutput(event, stream, offset, sequence, data)])
    }

    function PushInput(event: nat, command: nat, invocation: nat, offset: nat, bytes: nat, eof: bool): Trace {
      if !Started(invocation) then Fault(InputBeforeStart)
      else if HasExited(invocation) then Fault(InputAfterExit)
      else if HasTerminated(invocation) then Fault(InputAfterTermination)
      else
        this.(invocations := invocations[
                invocation := StreamsOf(invocation).PushInput(event, command, offset, bytes, eof)])
    }

    /** Fold one received frame. */
    function Push(frame: EventFrame): Trace {
      var id := frame.eventId;
      match frame.event
      case WorkloadStarted(invocation, launch) => PushStart(id, invocation, launch)
      case WorkloadExited(invocation, exit, ob, od, eb, ed, frames) =>
        PushExit(ExitRecord(invocation, exit, ob, od, eb, ed, frames, id))
      case TerminationRequested(invocation, signal) => PushTermination(id, invocation, signal)
      case CleanupComplete(invocation, reaped) => PushCleanup(id, invocation, reaped)
      case LaunchFailed(invocation, failure) => PushLaunchFailure(invocation, failure)
      case NetworkConfigured(iface, cidr, gateway) => PushConfigured(id, iface, cidr, gateway)
      case OutageActivated(peerCidr, rule) => PushActivation(id, peerCidr, rule)
      case NetworkRestored(peerCidr) => PushRestoration(id, peerCidr)
      case WorkloadOutput(invocation, stream, offset, sequence, hex) =>
        PushOutput(id, invocation, stream, offset, sequence, hex)
      case InputAccepted(invocation, offset, bytes, eof) =>
        PushInput(id, frame.commandId, invocation, offset, bytes, eof)
      case _ => this
    }

    // What the driver asks of the trace.

    function StdoutLineCount(invocation: nat): nat {
      |StreamsOf(invocation).stdout.lines|
    }

    function StderrBytes(invocation: nat): nat {
      |StreamsOf(invocation).stderr.bytes| + |StreamsOf(invocation).stderr.pending|
    }

    predicate OverBoundLine(invocation: nat) {
      StreamsOf(invocation).overBound || StreamsOf(invocation).overBoundSeen
    }

    predicate StdoutPending(invocation: nat) {
      StreamsOf(invocation).stdout.pending != ""
    }
  }

  /** The trace after one invocation's streams change. */
  function With(t: Trace, k: nat, s: InvocationStreams): Trace {
    t.(invocations := t.invocations[k := s])
  }

  const EMPTY_TRACE := Trace([], [], [], [], [], [], [], None, map[], [])

  /** The trace of a whole event stream. */
  function Fold(events: seq<EventFrame>): Trace {
    if events == [] then EMPTY_TRACE
    else Fold(events[..|events| - 1]).Push(events[|events| - 1])
  }

  function FoldOn(t: Trace, frames: seq<EventFrame>): Trace {
    if frames == [] then t else FoldOn(t, frames[..|frames| - 1]).Push(frames[|frames| - 1])
  }

  lemma {:induction false} FoldSplits(a: seq<EventFrame>, b: seq<EventFrame>)
    ensures Fold(a + b) == FoldOn(Fold(a), b)
    decreases |b|
  {
    if b == [] {
      assert a + b == a;
    } else {
      var n := |b| - 1;
      FoldSplits(a, b[..n]);
      assert (a + b)[..|a| + n] == a + b[..n] && (a + b)[|a| + n] == b[n];
    }
  }

  lemma FoldOne(t: Trace, event: Event, next: nat, command: nat)
    ensures FoldOn(t, Framed([event], next, command)) ==
            t.Push(EventFrame(PROTOCOL_VERSION, next, command, event, NO_DIAGNOSTICS))
  {
    var f := Framed([event], next, command);
    assert f[..0] == [];
    assert FoldOn(t, f[..0]) == t;
  }

  lemma FoldTwo(t: Trace, e1: Event, e2: Event, next: nat, command: nat)
    ensures FoldOn(t, Framed([e1, e2], next, command)) ==
            t.Push(EventFrame(PROTOCOL_VERSION, next, command, e1, NO_DIAGNOSTICS))
             .Push(EventFrame(PROTOCOL_VERSION, next + 1, command, e2, NO_DIAGNOSTICS))
  {
    var f := Framed([e1, e2], next, command);
    assert f[..1] == Framed([e1], next, command);
    FoldOne(t, e1, next, command);
  }

  /** The trace as the checker keeps it: fields that every received frame updates in place. */
  class WorkloadTrace {
    var starts: seq<StartRecord>
    var exits: seq<ExitRecord>
    var terminations: seq<TerminationRecord>
    var cleanups: seq<CleanupRecord>
    var launchFailures: seq<LaunchFailureRecord>
    var activations: seq<RouteRecord>
    var restorations: seq<RouteRecord>
    var configured: Option<ConfiguredRecord>
    var invocations: map<nat, InvocationStreams>
    var violations: seq<Violation>

    function State(): Trace
      reads this
    {
      Trace(starts, exits, terminations, cleanups, launchFailures, activations, restorations,
            configured, invocations, violations)
    }

    constructor ()
      ensures State() == EMPTY_TRACE
    {
      starts, exits, terminations, cleanups, launchFailures := [], [], [], [], [];
      activations, restorations, configured, invocations, violations := [], [], None, map[], [];
    }

    method Fault(violation: Violation)
      modifies this`violations
      ensures State() == old(State()).Fault(violation)
    {
      violations := violations + [violation];
    }

    method PushOutput(event: nat, invocation: nat, stream: Stream, offset: nat, sequence: nat, hex: string)
      modifies this`violations, this`invocations
      ensures State() == old(State()).PushOutput(event, invocation, stream, offset, sequence, hex)
    {
      if !State().Started(invocation) {
        Fault(OutputBeforeStart);
        return;
      }
      if State().HasExited(invocation) {
        Fault(OutputAfterExit);
        return;
      }
      var data := DecodeBytes(hex, MAX_OUTPUT_FRAME_BYTES);
      if data.None? {
        Fault(UnreadableOutput);
        return;
      }
      var streams := PushFrame(State().StreamsOf(invocation), event, stream, offset, sequence, data.value);
      invocations := invocations[invocation := streams];
    }

    method PushInput(event: nat, command: nat, invocation: nat, offset: nat, bytes: nat, eof: bool)
      modifies this`violations, this`invocations
      ensures State() == old(State()).PushInput(event, command, invocation, offset, bytes, eof)
    {
      if !State().Started(invocation) {
        Fault(InputBeforeStart);
      } else if State().HasExited(invocation) {
        Fault(InputAfterExit);
      } else if State().HasTerminated(invocation) {
        Fault(InputAfterTermination);
      } else {
        var streams := State().StreamsOf(invocation).PushInput(event, command, offset, bytes, eof);
        invocations := invocations[invocation := streams];
      }
    }

    method PushLifecycle(frame: EventFrame)
      requires frame.event.WorkloadExited? || frame.event.TerminationRequested? || frame.event.CleanupComplete?
      modifies this`violations, this`exits, this`terminations, this`cleanups
      ensures State() == old(State()).Push(frame)
    {
      var id, invocation := frame.eventId, frame.event.invocation;
      match frame.event
      case WorkloadExited(_, exit, ob, od, eb, ed, frames) =>
        if !State().Started(invocation) {
          Fault(ExitBeforeStart);
        } else if State().HasExited(invocation) {
          Fault(ExitedTwice);
        } else {
          exits := exits + [ExitRecord(invocation, exit, ob, od, eb, ed, frames, id)];
        }
      case TerminationRequested(_, signal) =>
        if !State().Started(invocation) {
          Fault(TerminatedBeforeStart);
        } else if State().HasExited(invocation) {
          Fault(TerminatedAfterExit);
        } else if State().HasTerminated(invocation) {
          Fault(TerminatedTwice);
        } else {
          terminations := terminations + [TerminationRecord(invocation, signal, id)];
        }
      case CleanupComplete(_, reaped) =>
        if !State().Started(invocation) {
          Fault(CleanupBeforeStart);
        } else if State().HasCleanedUp(invocation) {
          Fault(CleanedTwice);
        } else if !State().HasExited(invocation) {
          Fault(CleanupBeforeExit);
        } else if State().ExitRecordedAfter(invocation, id) {
          Fault(CleanupBeforeExitRecord);
        } else if reaped == 0 {
          Fault(NothingReaped);
        } else {
          cleanups := cleanups + [CleanupRecord(invocation, reaped, id)];
        }
    }

    method PushNetwork(frame: EventFrame)
      requires frame.event.NetworkConfigured? || frame.event.OutageActivated? || frame.event.NetworkRestored?
      modifies this`violations, this`configured, this`activations, this`restorations
      ensures State() == old(State()).Push(frame)
    {
      var id := frame.eventId;
      match frame.event
      case NetworkConfigured(iface, cidr, gateway) =>
        if configured.Some? {
          Fault(SecondConfiguration);
        } else if iface != NETWORK_INTERFACE || cidr != GUEST_CIDR || gateway != FIXTURE_PEER {
          Fault(WrongConfiguration);
        } else {
          configured := Some(ConfiguredRecord(gateway, id));
        }
      case OutageActivated(peerCidr, rule) =>
        if activations != [] {
          Fault(SecondActivation);
        } else if rule != ProhibitRule(peerCidr) {
          Fault(WrongRule);
        } else {
          activations := activations + [RouteRecord(peerCidr, id)];
        }
      case NetworkRestored(peerCidr) =>
        if restorations != [] {
          Fault(SecondRestoration);
        } else {
          restorations := restorations + [RouteRecord(peerCidr, id)];
        }
    }

    /** Fold one received frame into the trace. */
    method Push(frame: EventFrame)
      modifies this
      ensures State() == old(State()).Push(frame)
    {
      var id := frame.eventId;
      match frame.event
      case WorkloadStarted(invocation, launch) =>
        violations := violations + If(State().Started(invocation), StartedTwice);
        starts := starts + [StartRecord(invocation, launch, id)];
      case WorkloadExited(_, _, _, _, _, _, _) =>
        PushLifecycle(frame);
      case TerminationRequested(_, _) =>
        PushLifecycle(frame);
      case CleanupComplete(_, _) =>
        PushLifecycle(frame);
      case LaunchFailed(invocation, failure) =>
        if State().HasLaunchFailed(invocation) {
          Fault(LaunchFailedTwice);
        } else if State().HasExited(invocation) {
          Fault(LaunchFailedAfterExit);
        } else {
          launchFailures := launchFailures + [LaunchFailureRecord(invocation, failure)];
        }
      case NetworkConfigured(_, _, _) =>
        PushNetwork(frame);
      case OutageActivated(_, _) =>
        PushNetwork(frame);
      case NetworkRestored(_) =>
        PushNetwork(frame);
      case WorkloadOutput(invocation, stream, offset, sequence, hex) =>
        PushOutput(id, invocation, stream, offset, sequence, hex);
      case InputAccepted(invocation, offset, bytes, eof) =>
        PushInput(id, frame.commandId, invocation, offset, bytes, eof);
      case _ =>
    }
  }
}
