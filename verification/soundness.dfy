/** What a passing report says about the recorded event stream itself. */
module Soundness {
  import opened Protocol
  import opened Lines
  import opened Streams
  import opened Traces
  import opened Scenarios
  import opened Checker

  // ---- Facts read straight off the event stream --------------------------------

  /** The bytes one event carries for one stream of one invocation. */
  function Carried(frame: EventFrame, invocation: nat, stream: Stream): seq<Tagged> {
    match frame.event
    case WorkloadOutput(i, s, _, _, hex) =>
      if i == invocation && s == stream && Unhex(hex, MAX_OUTPUT_FRAME_BYTES).Some? then
        Tag(Unhex(hex, MAX_OUTPUT_FRAME_BYTES).value, frame.eventId)
      else []
    case _ => []
  }

  /** Every byte one invocation wrote to one stream, in order. */
  function OutputBytes(events: seq<EventFrame>, invocation: nat, stream: Stream): seq<Tagged> {
    if events == [] then []
    else OutputBytes(events[..|events| - 1], invocation, stream) + Carried(events[|events| - 1], invocation, stream)
  }

  /** The acknowledgements of data input, in order. */
  function DataAcks(events: seq<EventFrame>, invocation: nat): seq<nat> {
    if events == [] then []
    else
      var last := events[|events| - 1];
      DataAcks(events[..|events| - 1], invocation)
      + if last.event.InputAccepted? && last.event.invocation == invocation && !last.event.eof
        then [last.eventId] else []
  }

  /** How often the end of input was acknowledged. */
  function EndsOfInput(events: seq<EventFrame>, invocation: nat): nat {
    if events == [] then 0
    else
      var last := events[|events| - 1].event;
      EndsOfInput(events[..|events| - 1], invocation)
      + if last.InputAccepted? && last.invocation == invocation && last.eof then 1 else 0
  }

  predicate EventAt(events: seq<EventFrame>, id: nat, event: Event) {
    1 <= id <= |events| && events[id - 1].event == event
  }

  // ---- A clean trace is a faithful summary ---------------------------------------

  lemma StreamFaultsStay(streams: InvocationStreams, frame: EventFrame)
    ensures match frame.event
            case WorkloadOutput(_, stream, offset, sequence, hex) =>
              Unhex(hex, MAX_OUTPUT_FRAME_BYTES).Some? &&
              streams.PushOutput(frame.eventId, stream, offset, sequence,
                                 Unhex(hex, MAX_OUTPUT_FRAME_BYTES).value).violations == []
              ==> streams.violations == []
            case InputAccepted(_, offset, bytes, eof) =>
              streams.PushInput(frame.eventId, frame.commandId, offset, bytes, eof).violations == [] ==>
                  streams.violations == []
            case _ => true
  {
    hide Unhex, LongLines, LineState.Push, LineState.Completed;
  }

  lemma CleanBefore(trace: Trace, frame: EventFrame)
    requires trace.Push(frame).Clean()
    ensures trace.Clean()
  {
    hide InvocationStreams.PushOutput, InvocationStreams.PushInput, Unhex, Trace.Started, Trace.HasExited,
         Trace.HasTerminated, Trace.HasCleanedUp, Trace.HasLaunchFailed, Trace.ExitRecordedAfter;
    var after := trace.Push(frame);
    forall k | k in trace.invocations ensures trace.invocations[k].violations == [] {
      assert k in after.invocations && after.invocations[k].violations == [];
      StreamFaultsStay(trace.StreamsOf(k), frame);
    }
  }

  predicate Summarizes(streams: InvocationStreams, events: seq<EventFrame>, invocation: nat) {
    && BothRepresent(streams, OutputBytes(events, invocation, Stdout), OutputBytes(events, invocation, Stderr))
    && BoundsExact(streams)
    && streams.dataInputEvents == DataAcks(events, invocation) && streams.eofInputs == EndsOfInput(events, invocation)
  }

  lemma PushKeepsOthers(trace: Trace, frame: EventFrame, invocation: nat)
    requires !frame.event.WorkloadOutput? && !frame.event.InputAccepted?
    ensures trace.Push(frame).invocations == trace.invocations
  {
    hide Unhex, Trace.Started, Trace.HasExited, Trace.ExitRecordedAfter, InvocationStreams.PushOutput,
         InvocationStreams.PushInput;
  }

  lemma CleanOutput(trace: Trace, frame: EventFrame)
    requires frame.event.WorkloadOutput? && trace.Push(frame).Clean()
    ensures Unhex(frame.event.hex, MAX_OUTPUT_FRAME_BYTES).Some?
    ensures trace.Push(frame).invocations ==
            var e := frame.event;
            var data := Unhex(e.hex, MAX_OUTPUT_FRAME_BYTES).value;
            trace.invocations[e.invocation := trace.StreamsOf(e.invocation).PushOutput(
              frame.eventId, e.stream, e.offset, e.sequence, data)]
  {
    assert trace.Push(frame).violations == [];
  }

  lemma CleanInput(trace: Trace, frame: EventFrame)
    requires frame.event.InputAccepted? && trace.Push(frame).Clean()
    ensures trace.Push(frame).invocations ==
            var e := frame.event;
            trace.invocations[e.invocation := trace.StreamsOf(e.invocation).PushInput(
              frame.eventId, frame.commandId, e.offset, e.bytes, e.eof)]
  {
    assert trace.Push(frame).violations == [];
  }

  lemma Append(init: seq<EventFrame>, last: EventFrame, invocation: nat)
    ensures forall s :: OutputBytes(init + [last], invocation, s) ==
                        OutputBytes(init, invocation, s) + Carried(last, invocation, s)
    ensures DataAcks(init + [last], invocation) ==
            if last.event.InputAccepted? && last.event.invocation == invocation && !last.event.eof
            then DataAcks(init, invocation) + [last.eventId] else DataAcks(init, invocation)
    ensures EndsOfInput(init + [last], invocation) ==
            EndsOfInput(init, invocation) + if last.event.InputAccepted? && last.event.invocation == invocation
              && last.event.eof then 1 else 0
  {
    assert (init + [last])[..|init|] == init;
  }

  lemma OutputKeepsAcks(streams: InvocationStreams, event: nat, stream: Stream, offset: nat, sequence: nat,
                        data: string)
    ensures streams.PushOutput(event, stream, offset, sequence, data).dataInputEvents == streams.dataInputEvents
    ensures streams.PushOutput(event, stream, offset, sequence, data).eofInputs == streams.eofInputs
  {}

  lemma OutputStep(before: Trace, init: seq<EventFrame>, last: EventFrame, invocation: nat)
    requires last.event.WorkloadOutput? && before.Push(last).Clean()
    requires Summarizes(before.StreamsOf(invocation), init, invocation)
    ensures Summarizes(before.Push(last).StreamsOf(invocation), init + [last], invocation)
  {
    hide Unhex, BoundsExact, Tag, Represents, InvocationStreams.PushOutput, Trace.Clean, Trace.Push, OutputBytes,
         DataAcks, EndsOfInput;
    Append(init, last, invocation);
    CleanOutput(before, last);
    var out, err := OutputBytes(init, invocation, Stdout), OutputBytes(init, invocation, Stderr);
    assert out + [] == out && err + [] == err;
    var e := last.event;
    var data := Unhex(e.hex, MAX_OUTPUT_FRAME_BYTES).value;
    var streams, after := before.StreamsOf(invocation), before.Push(last).StreamsOf(invocation);
    if e.invocation == invocation {
      PushOutputExact(streams, out, err, last.eventId, e.stream, e.offset, e.sequence, data);
      OutputKeepsAcks(streams, last.eventId, e.stream, e.offset, e.sequence, data);
      assert after == streams.PushOutput(last.eventId, e.stream, e.offset, e.sequence, data);
      if e.stream.Stdout? {
        assert Carried(last, invocation, Stdout) == Tag(data, last.eventId) && Carried(last, invocation, Stderr) == [];
      } else {
        assert Carried(last, invocation, Stderr) == Tag(data, last.eventId) && Carried(last, invocation, Stdout) == [];
      }
    } else {
      assert after == streams;
    }
  }

  lemma OtherStep(before: Trace, init: seq<EventFrame>, last: EventFrame, invocation: nat)
    requires !last.event.WorkloadOutput? && !last.event.InputAccepted?
    requires Summarizes(before.StreamsOf(invocation), init, invocation)
    ensures Summarizes(before.Push(last).StreamsOf(invocation), init + [last], invocation)
  {
    Append(init, last, invocation);
    var out, err := OutputBytes(init, invocation, Stdout), OutputBytes(init, invocation, Stderr);
    assert out + [] == out && err + [] == err;
    PushKeepsOthers(before, last, invocation);
  }

  lemma InputStep(before: Trace, init: seq<EventFrame>, last: EventFrame, invocation: nat)
    requires last.event.InputAccepted? && before.Push(last).Clean()
    requires Summarizes(before.StreamsOf(invocation), init, invocation)
    ensures Summarizes(before.Push(last).StreamsOf(invocation), init + [last], invocation)
  {
    hide BoundsExact, Represents, Trace.Push, Trace.Clean, OutputBytes, DataAcks, EndsOfInput, Unhex;
    Append(init, last, invocation);
    var out, err := OutputBytes(init, invocation, Stdout), OutputBytes(init, invocation, Stderr);
    assert out + [] == out && err + [] == err;
    CleanInput(before, last);
    var e := last.event;
    var streams := before.StreamsOf(invocation);
    if e.invocation == invocation {
      InputKeepsBounds(streams, last.eventId, last.commandId, e.offset, e.bytes, e.eof);
      assert before.Push(last).StreamsOf(invocation) ==
             streams.PushInput(last.eventId, last.commandId, e.offset, e.bytes, e.eof);
    } else {
      assert before.Push(last).StreamsOf(invocation) == streams;
    }
  }

  lemma NothingYet(invocation: nat)
    ensures Summarizes(Fold([]).StreamsOf(invocation), [], invocation)
  {
    assert Represents(NO_LINES, []);
  }

  lemma StreamsStep(init: seq<EventFrame>, last: EventFrame, invocation: nat)
    requires Fold(init + [last]).Clean()
    requires Summarizes(Fold(init).StreamsOf(invocation), init, invocation)
    ensures Summarizes(Fold(init + [last]).StreamsOf(invocation), init + [last], invocation)
  {
    FoldAppend(init, last);
    if last.event.WorkloadOutput? {
      OutputStep(Fold(init), init, last, invocation);
    } else if last.event.InputAccepted? {
      InputStep(Fold(init), init, last, invocation);
    } else {
      OtherStep(Fold(init), init, last, invocation);
    }
  }

  lemma FoldAppend(init: seq<EventFrame>, last: EventFrame)
    ensures Fold(init + [last]) == Fold(init).Push(last)
  {
    assert (init + [last])[..|init|] == init;
  }

  /** A clean trace holds, for every invocation, exactly the split of its recorded bytes. */
  lemma {:induction false} StreamsFaithful(events: seq<EventFrame>, invocation: nat)
    requires Fold(events).Clean()
    ensures Summarizes(Fold(events).StreamsOf(invocation), events, invocation)
  {
    if events == [] {
      NothingYet(invocation);
    } else {
      var n := |events| - 1;
      assert events == events[..n] + [events[n]];
      FoldAppend(events[..n], events[n]);
      CleanBefore(Fold(events[..n]), events[n]);
      StreamsFaithful(events[..n], invocation);
      StreamsStep(events[..n], events[n], invocation);
    }
  }

  lemma InputKeepsBounds(streams: InvocationStreams, event: nat, command: nat, offset: nat, bytes: nat, eof: bool)
    requires BoundsExact(streams)
    ensures BoundsExact(streams.PushInput(event, command, offset, bytes, eof))
  {
    var after := streams.PushInput(event, command, offset, bytes, eof);
    assert after.stdout == streams.stdout && after.stderr == streams.stderr;
  }

  // Every record of a trace is an event of the stream, at the record's identifier.

  function StartEvent(r: StartRecord): Event { WorkloadStarted(r.invocation, r.launch) }
  function ExitEvent(r: ExitRecord): Event {
    WorkloadExited(r.invocation, r.exit, r.stdoutBytes, r.stdoutSha256, r.stderrBytes, r.stderrSha256, r.frames)
  }
  function KillEvent(r: TerminationRecord): Event { TerminationRequested(r.invocation, r.signal) }
  function CleanupEvent(r: CleanupRecord): Event { CleanupComplete(r.invocation, r.reaped) }
  function ActivationEvent(r: RouteRecord): Event { OutageActivated(r.peerCidr, ProhibitRule(r.peerCidr)) }
  function RestorationEvent(r: RouteRecord): Event { NetworkRestored(r.peerCidr) }

  predicate ProcessRecords(trace: Trace, events: seq<EventFrame>) {
    && (forall r | r in trace.starts :: EventAt(events, r.eventId, StartEvent(r)))
    && (forall r | r in trace.terminations :: EventAt(events, r.eventId, KillEvent(r)))
  }

  predicate EndRecords(trace: Trace, events: seq<EventFrame>) {
    && (forall r | r in trace.exits :: EventAt(events, r.eventId, ExitEvent(r)))
    && (forall r | r in trace.cleanups :: EventAt(events, r.eventId, CleanupEvent(r)))
  }

  predicate RouteRecords(trace: Trace, events: seq<EventFrame>) {
    && (forall r | r in trace.activations :: EventAt(events, r.eventId, ActivationEvent(r)))
    && (forall r | r in trace.restorations :: EventAt(events, r.eventId, RestorationEvent(r)))
  }

  lemma MoreEvents(trace: Trace, events: seq<EventFrame>, frame: EventFrame)
    requires ProcessRecords(trace, events) && EndRecords(trace, events) && RouteRecords(trace, events)
    ensures var all := events + [frame];
            ProcessRecords(trace, all) && EndRecords(trace, all) && RouteRecords(trace, all)
  {
    forall id, e | EventAt(events, id, e) ensures EventAt(events + [frame], id, e) {}
  }

  lemma PushProcessRecords(trace: Trace, all: seq<EventFrame>, frame: EventFrame)
    requires ProcessRecords(trace, all) && EventAt(all, frame.eventId, frame.event)
    ensures ProcessRecords(trace.Push(frame), all)
  {
    hide InvocationStreams.PushOutput, InvocationStreams.PushInput, Unhex, Trace.Started, Trace.HasExited,
         Trace.HasTerminated, Trace.HasCleanedUp, Trace.HasLaunchFailed, Trace.ExitRecordedAfter, EventAt;
    var after := trace.Push(frame);
    match frame.event
    case WorkloadStarted(k, launch) =>
      assert forall r | r in after.starts :: r in trace.starts || r == StartRecord(k, launch, frame.eventId);
    case TerminationRequested(k, signal) =>
      assert forall r | r in after.terminations ::
          r in trace.terminations || r == TerminationRecord(k, signal, frame.eventId);
    case _ =>
      assert after.starts == trace.starts && after.terminations == trace.terminations;
  }

  lemma PushEndRecords(trace: Trace, all: seq<EventFrame>, frame: EventFrame)
    requires EndRecords(trace, all) && EventAt(all, frame.eventId, frame.event)
    ensures EndRecords(trace.Push(frame), all)
  {
    hide InvocationStreams.PushOutput, InvocationStreams.PushInput, Unhex, Trace.Started, Trace.HasExited,
         Trace.HasTerminated, Trace.HasCleanedUp, Trace.HasLaunchFailed, Trace.ExitRecordedAfter, EventAt;
    var after := trace.Push(frame);
    match frame.event
    case WorkloadExited(k, exit, ob, od, eb, ed, frames) =>
      assert forall r | r in after.exits ::
          r in trace.exits || r == ExitRecord(k, exit, ob, od, eb, ed, frames, frame.eventId);
    case CleanupComplete(k, reaped) =>
      assert forall r | r in after.cleanups :: r in trace.cleanups || r == CleanupRecord(k, reaped, frame.eventId);
    case _ =>
      assert after.exits == trace.exits && after.cleanups == trace.cleanups;
  }

  lemma PushRouteRecords(trace: Trace, all: seq<EventFrame>, frame: EventFrame)
    requires RouteRecords(trace, all) && EventAt(all, frame.eventId, frame.event)
    ensures RouteRecords(trace.Push(frame), all)
  {
    hide InvocationStreams.PushOutput, InvocationStreams.PushInput, Unhex, Trace.Started, Trace.HasExited,
         Trace.HasTerminated, Trace.HasCleanedUp, Trace.HasLaunchFailed, Trace.ExitRecordedAfter, EventAt;
    var after := trace.Push(frame);
    match frame.event
    case OutageActivated(peer, rule) =>
      assert forall r | r in after.activations ::
          r in trace.activations || (r == RouteRecord(peer, frame.eventId) && rule == ProhibitRule(peer));
    case NetworkRestored(peer) =>
      assert forall r | r in after.restorations :: r in trace.restorations || r == RouteRecord(peer, frame.eventId);
    case _ =>
  }

  lemma {:induction false} RecordsFaithful(events: seq<EventFrame>)
    requires Sequential(events)
    ensures ProcessRecords(Fold(events), events) && EndRecords(Fold(events), events)
    ensures RouteRecords(Fold(events), events)
  {
    if events != [] {
      var n := |events| - 1;
      RecordsFaithful(events[..n]);
      MoreEvents(Fold(events[..n]), events[..n], events[n]);
      assert events[..n] + [events[n]] == events;
      PushProcessRecords(Fold(events[..n]), events, events[n]);
      PushEndRecords(Fold(events[..n]), events, events[n]);
      PushRouteRecords(Fold(events[..n]), events, events[n]);
    }
  }

  /** In a clean trace no kill and no start of the stream was dropped. */
  predicate KillsRecorded(trace: Trace, events: seq<EventFrame>) {
    forall i | 0 <= i < |events| && events[i].event.TerminationRequested? ::
      TerminationRecord(events[i].event.invocation, events[i].event.signal, i + 1) in trace.terminations
  }

  predicate StartsRecorded(trace: Trace, events: seq<EventFrame>) {
    forall i | 0 <= i < |events| && events[i].event.WorkloadStarted? ::
      StartRecord(events[i].event.invocation, events[i].event.launch, i + 1) in trace.starts
  }

  lemma KillsGrow(trace: Trace, frame: EventFrame)
    requires trace.Push(frame).violations == []
    ensures forall r | r in trace.terminations :: r in trace.Push(frame).terminations
    ensures frame.event.TerminationRequested? ==>
            TerminationRecord(frame.event.invocation, frame.event.signal,
                              frame.eventId) in trace.Push(frame).terminations
  {
    if !frame.event.TerminationRequested? { assert trace.Push(frame).terminations == trace.terminations; }
  }

  lemma StartsGrow(trace: Trace, frame: EventFrame)
    ensures forall r | r in trace.starts :: r in trace.Push(frame).starts
    ensures frame.event.WorkloadStarted? ==>
            StartRecord(frame.event.invocation, frame.event.launch, frame.eventId) in trace.Push(frame).starts
  {
    if !frame.event.WorkloadStarted? { assert trace.Push(frame).starts == trace.starts; }
  }

  lemma {:induction false} NothingDropped(events: seq<EventFrame>)
    requires Sequential(events) && Fold(events).Clean()
    ensures KillsRecorded(Fold(events), events) && StartsRecorded(Fold(events), events)
  {
    if events != [] {
      var n := |events| - 1;
      CleanBefore(Fold(events[..n]), events[n]);
      NothingDropped(events[..n]);
      KillsGrow(Fold(events[..n]), events[n]);
      StartsGrow(Fold(events[..n]), events[n]);
      assert forall i | 0 <= i < n :: events[..n][i] == events[i];
    }
  }

  // ---- The order of the records ------------------------------------------------------

  predicate StartedBefore(trace: Trace, invocation: nat, id: nat) {
    exists r | r in trace.starts :: r.invocation == invocation && r.eventId < id
  }

  predicate ExitedBefore(trace: Trace, invocation: nat, id: nat) {
    exists r | r in trace.exits :: r.invocation == invocation && r.eventId < id
  }

  predicate KillsOrdered(trace: Trace) {
    forall r | r in trace.terminations :: StartedBefore(trace, r.invocation, r.eventId)
  }

  predicate ExitsOrdered(trace: Trace) {
    && (forall r | r in trace.exits :: StartedBefore(trace, r.invocation, r.eventId))
    && (forall r, q | r in trace.exits && q in trace.exits && r.invocation == q.invocation :: r == q)
  }

  predicate CleanupsOrdered(trace: Trace) {
    forall r | r in trace.cleanups :: r.reaped >= 1 && ExitedBefore(trace, r.invocation, r.eventId)
  }

  /** Kills and exits follow a start, each invocation exits at most once, and a cleanup follows the exit and
      counts at least one process. */
  predicate Ordered(trace: Trace) {
    KillsOrdered(trace) && ExitsOrdered(trace) && CleanupsOrdered(trace)
  }

  lemma StartedLater(trace: Trace, after: Trace, frame: EventFrame)
    requires after == trace.Push(frame)
    ensures forall k, id | StartedBefore(trace, k, id) :: StartedBefore(after, k, id)
    ensures forall k, id | ExitedBefore(trace, k, id) :: ExitedBefore(after, k, id)
  {
    hide Unhex, Trace.Started, Trace.HasExited, Trace.HasTerminated, Trace.HasCleanedUp, Trace.HasLaunchFailed,
         Trace.ExitRecordedAfter;
    assert forall r | r in trace.starts :: r in after.starts;
    assert forall r | r in trace.exits :: r in after.exits;
  }

  lemma StartedIsBefore(trace: Trace, invocation: nat, id: nat)
    requires trace.Started(invocation) && forall r | r in trace.starts :: r.eventId < id
    ensures StartedBefore(trace, invocation, id)
  {
    var i :| 0 <= i < |trace.starts| && trace.starts[i].invocation == invocation;
    assert trace.starts[i] in trace.starts;
  }

  lemma ExitedIsBefore(trace: Trace, invocation: nat, id: nat)
    requires trace.HasExited(invocation) && forall r | r in trace.exits :: r.eventId < id
    ensures ExitedBefore(trace, invocation, id)
  {
    var i :| 0 <= i < |trace.exits| && trace.exits[i].invocation == invocation;
    assert trace.exits[i] in trace.exits;
  }

  /** Every record so far is older than the event. */
  predicate AllBefore(trace: Trace, id: nat) {
    (forall r | r in trace.starts :: r.eventId < id) && (forall r | r in trace.exits :: r.eventId < id)
  }

  lemma PushKeepsKills(trace: Trace, frame: EventFrame)
    requires KillsOrdered(trace) && AllBefore(trace, frame.eventId)
    ensures KillsOrdered(trace.Push(frame))
  {
    hide Unhex, StartedBefore, Trace.Started, Trace.HasExited, Trace.HasTerminated, Trace.HasCleanedUp,
         Trace.HasLaunchFailed, Trace.ExitRecordedAfter;
    var after, id := trace.Push(frame), frame.eventId;
    StartedLater(trace, after, frame);
    if frame.event.TerminationRequested? {
      var k := frame.event.invocation;
      if trace.Started(k) { StartedIsBefore(trace, k, id); }
      assert forall r | r in after.terminations ::
          r in trace.terminations || (trace.Started(k) && r == TerminationRecord(k, frame.event.signal, id));
    } else {
      assert after.terminations == trace.terminations;
    }
  }

  lemma PushKeepsExits(trace: Trace, frame: EventFrame)
    requires ExitsOrdered(trace) && AllBefore(trace, frame.eventId)
    ensures ExitsOrdered(trace.Push(frame))
  {
    hide Unhex, StartedBefore, Trace.Started, Trace.HasTerminated, Trace.HasCleanedUp, Trace.HasLaunchFailed,
         Trace.ExitRecordedAfter;
    var after, id := trace.Push(frame), frame.eventId;
    StartedLater(trace, after, frame);
    if frame.event.WorkloadExited? {
      var k := frame.event.invocation;
      if trace.Started(k) { StartedIsBefore(trace, k, id); }
      assert forall r | r in after.exits ::
          r in trace.exits || (trace.Started(k) && !trace.HasExited(k) && r.invocation == k && r.eventId == id
                               && r == after.exits[|trace.exits|]);
    } else {
      assert after.exits == trace.exits;
    }
  }

  lemma PushKeepsCleanups(trace: Trace, frame: EventFrame)
    requires CleanupsOrdered(trace) && AllBefore(trace, frame.eventId)
    ensures CleanupsOrdered(trace.Push(frame))
  {
    hide Unhex, ExitedBefore, Trace.Started, Trace.HasExited, Trace.HasTerminated, Trace.HasCleanedUp,
         Trace.HasLaunchFailed, Trace.ExitRecordedAfter;
    var after, id := trace.Push(frame), frame.eventId;
    StartedLater(trace, after, frame);
    if frame.event.CleanupComplete? {
      var k, reaped := frame.event.invocation, frame.event.reaped;
      if trace.HasExited(k) { ExitedIsBefore(trace, k, id); }
      assert forall r | r in after.cleanups ::
          r in trace.cleanups || (trace.HasExited(k) && reaped >= 1 && r == CleanupRecord(k, reaped, id));
    } else {
      assert after.cleanups == trace.cleanups;
    }
  }

  /** Whatever the stream, its records come in order. */
  lemma {:induction false} RecordsAreOrdered(events: seq<EventFrame>)
    requires Sequential(events)
    ensures Ordered(Fold(events))
  {
    hide StartedBefore, ExitedBefore, Trace.Push;
    if events != [] {
      var n := |events| - 1;
      var trace := Fold(events[..n]);
      RecordsAreOrdered(events[..n]);
      RecordsFaithful(events[..n]);
      assert AllBefore(trace, events[n].eventId);
      PushKeepsKills(trace, events[n]);
      PushKeepsExits(trace, events[n]);
      PushKeepsCleanups(trace, events[n]);
    }
  }

  // ---- What passing means ----------------------------------------------------------

  lemma {:induction false} FoundExit(exits: seq<ExitRecord>, invocation: nat)
    requires FindExit(exits, invocation).Some?
    ensures FindExit(exits, invocation).value in exits
    ensures FindExit(exits, invocation).value.invocation == invocation
  {
    if exits[0].invocation != invocation { FoundExit(exits[1..], invocation); }
  }

  lemma {:induction false} FoundCleanup(cleanups: seq<CleanupRecord>, invocation: nat)
    requires FindCleanup(cleanups, invocation).Some?
    ensures FindCleanup(cleanups, invocation).value in cleanups
    ensures FindCleanup(cleanups, invocation).value.invocation == invocation
  {
    if cleanups[0].invocation != invocation { FoundCleanup(cleanups[1..], invocation); }
  }

  lemma {:induction false} FoundRoute(routes: seq<RouteRecord>, peerCidr: string, after: nat)
    requires FindRoute(routes, peerCidr, after).Some?
    ensures var r := FindRoute(routes, peerCidr, after).value;
            r in routes && r.peerCidr == peerCidr && r.eventId > after
  {
    if !(routes[0].peerCidr == peerCidr && routes[0].eventId > after) { FoundRoute(routes[1..], peerCidr, after); }
  }

  /** The numbers of the events that mark the course of the two invocations. */
  datatype Course = Course(started: nat, killed: nat, exited: nat, cleaned: nat, restarted: nat, ended: nat,
                           settled: nat)

  predicate ExitAt(events: seq<EventFrame>, id: nat, invocation: nat, exit: ProcessExit) {
    && 1 <= id <= |events| && events[id - 1].event.WorkloadExited?
    && events[id - 1].event.invocation == invocation && events[id - 1].event.exit == exit
  }

  predicate CleanupAt(events: seq<EventFrame>, id: nat, invocation: nat, atLeast: nat) {
    && 1 <= id <= |events| && events[id - 1].event.CleanupComplete?
    && events[id - 1].event.invocation == invocation && events[id - 1].event.reaped >= atLeast
  }

  /** The first invocation starts, is killed, exits, is cleaned up together with its descendant, and only then
      the second starts, which exits by itself and is cleaned up; nothing else starts or is killed. */
  predicate KilledThenRestarted(events: seq<EventFrame>, launch: LaunchIdentity, c: Course) {
    && c.started < c.killed < c.exited < c.cleaned < c.restarted < c.ended < c.settled
    && EventAt(events, c.started, WorkloadStarted(1, launch))
    && EventAt(events, c.killed, TerminationRequested(1, TERMINATION_SIGNAL))
    && ExitAt(events, c.exited, 1, Signaled(TERMINATION_SIGNAL)) && CleanupAt(events, c.cleaned, 1, 2)
    && EventAt(events, c.restarted, WorkloadStarted(2, launch))
    && ExitAt(events, c.ended, 2, Exited(0)) && CleanupAt(events, c.settled, 2, 1)
    && (forall i | 0 <= i < |events| && events[i].event.TerminationRequested? :: i + 1 == c.killed)
    && (forall i | 0 <= i < |events| && events[i].event.WorkloadStarted? :: i + 1 == c.started || i + 1 == c.restarted)
  }

  lemma TwoStartsOneKill(trace: Trace, plan: WorkloadChoicePlan, launch: LaunchIdentity)
    requires ProcessSafetyHolds(trace, plan, launch)
    ensures trace.Clean() && |trace.starts| == 2 && |trace.terminations| == 1
    ensures StartEvent(trace.starts[0]) == WorkloadStarted(1, launch)
            && StartEvent(trace.starts[1]) == WorkloadStarted(2, launch)
    ensures KillEvent(trace.terminations[0]) == TerminationRequested(1, TERMINATION_SIGNAL)
  {
    hide FindExit, FindCleanup, AnyStdoutLine, KeyOrder, CountLine, StaleLine, Trace.Clean, Trace.StreamsOf;
  }

  /** The starts and the kill of a passing trace. */
  lemma {:induction false} PassingStarts(events: seq<EventFrame>, plan: WorkloadChoicePlan, launch: LaunchIdentity)
    requires Sequential(events) && ProcessSafetyHolds(Fold(events), plan, launch)
    ensures var t := Fold(events);
            var started, restarted, killed := t.starts[0].eventId, t.starts[1].eventId, t.terminations[0].eventId;
            && EventAt(events, started, WorkloadStarted(1, launch))
               && EventAt(events, restarted, WorkloadStarted(2, launch))
            && EventAt(events, killed, TerminationRequested(1, TERMINATION_SIGNAL)) && started < killed
            && (forall i | 0 <= i < |events| && events[i].event.TerminationRequested? :: i + 1 == killed)
            && (forall i | 0 <= i < |events| && events[i].event.WorkloadStarted? ::
                  i + 1 == started || i + 1 == restarted)
  {
    hide Fold, ProcessSafetyHolds, Trace.Clean, RouteRecords, EndRecords, ExitsOrdered, CleanupsOrdered, Sequential;
    var trace := Fold(events);
    TwoStartsOneKill(trace, plan, launch);
    RecordsFaithful(events);
    RecordsAreOrdered(events);
    NothingDropped(events);
    var killed, started, restarted := trace.terminations[0], trace.starts[0], trace.starts[1];
    assert killed in trace.terminations && restarted in trace.starts && started in trace.starts;
    assert forall r | r in trace.terminations :: r == killed;
    assert forall r | r in trace.starts :: r == started || r == restarted;
    assert StartedBefore(trace, 1, killed.eventId);
  }

  /** The two ends of a passing trace. */
  lemma {:induction false} PassingEnds(events: seq<EventFrame>, plan: WorkloadChoicePlan, launch: LaunchIdentity)
    returns (exited: nat, cleaned: nat, ended: nat, settled: nat)
    requires Sequential(events) && ProcessSafetyHolds(Fold(events), plan, launch)
    ensures var t := Fold(events);
            && t.terminations[0].eventId < exited < cleaned < t.starts[1].eventId < ended < settled
            && ExitAt(events, exited, 1, Signaled(TERMINATION_SIGNAL)) && CleanupAt(events, cleaned, 1, 2)
            && ExitAt(events, ended, 2, Exited(0)) && CleanupAt(events, settled, 2, 1)
  {
    hide Fold, FindExit, FindCleanup, AnyStdoutLine, KeyOrder, CountLine, StaleLine, Trace.Clean, Trace.StreamsOf,
         RouteRecords, ProcessRecords, KillsOrdered;
    var trace := Fold(events);
    RecordsFaithful(events);
    RecordsAreOrdered(events);
    FoundExit(trace.exits, 1);
    FoundExit(trace.exits, 2);
    FoundCleanup(trace.cleanups, 1);
    FoundCleanup(trace.cleanups, 2);
    var exit, cleanup := FindExit(trace.exits, 1).value, FindCleanup(trace.cleanups, 1).value;
    var end, settle := FindExit(trace.exits, 2).value, FindCleanup(trace.cleanups, 2).value;
    assert EventAt(events, exit.eventId, ExitEvent(exit)) && EventAt(events, cleanup.eventId, CleanupEvent(cleanup));
    assert EventAt(events, end.eventId, ExitEvent(end)) && EventAt(events, settle.eventId, CleanupEvent(settle));
    assert forall r | r in trace.starts :: r == trace.starts[0] || r == trace.starts[1];
    assert StartedBefore(trace, 2, end.eventId) && ExitedBefore(trace, 2, settle.eventId);
    exited, cleaned, ended, settled := exit.eventId, cleanup.eventId, end.eventId, settle.eventId;
  }

  lemma {:induction false} PassingProcess(events: seq<EventFrame>, plan: WorkloadChoicePlan, launch: LaunchIdentity)
    returns (c: Course)
    requires Sequential(events) && ProcessSafetyHolds(Fold(events), plan, launch)
    ensures KilledThenRestarted(events, launch, c)
    ensures c.killed == Fold(events).terminations[0].eventId && c.restarted == Fold(events).starts[1].eventId
  {
    hide Fold, EventAt, ExitAt, CleanupAt, FindExit, FindCleanup, AnyStdoutLine, KeyOrder, CountLine, StaleLine,
         Trace.Clean;
    PassingStarts(events, plan, launch);
    var exited, cleaned, ended, settled := PassingEnds(events, plan, launch);
    var t := Fold(events);
    c := Course(t.starts[0].eventId, t.terminations[0].eventId, exited, cleaned, t.starts[1].eventId, ended, settled);
  }

  /** Invocation `k` printed this text in one of its lines, completed in event `id`. */
  predicate PrintedIn(events: seq<EventFrame>, k: nat, text: string, id: nat) {
    var lines := SplitLines(OutputBytes(events, k, Stdout));
    exists i | 0 <= i < |lines| :: lines[i].text == text && lines[i].eventId == id
  }

  lemma {:induction false} FoundLine(lines: seq<CompletedLine>, wanted: string) returns (i: nat)
    requires FindLine(lines, wanted).Some?
    ensures i < |lines| && lines[i] == FindLine(lines, wanted).value && lines[i].text == wanted
  {
    if lines[0].text == wanted {
      i := 0;
    } else {
      i := FoundLine(lines[1..], wanted);
      i := i + 1;
    }
  }

  lemma {:induction false} LineIsPrinted(events: seq<EventFrame>, k: nat, wanted: string)
    requires Fold(events).Clean() && FindLine(Fold(events).StreamsOf(k).stdout.lines, wanted).Some?
    ensures PrintedIn(events, k, wanted, FindLine(Fold(events).StreamsOf(k).stdout.lines, wanted).value.eventId)
  {
    var i := FoundLine(Fold(events).StreamsOf(k).stdout.lines, wanted);
    StreamsFaithful(events, k);
    assert SplitLines(OutputBytes(events, k, Stdout))[i].text == wanted;
  }

  lemma {:induction false} AnyLineIsPrinted(events: seq<EventFrame>, keys: seq<nat>, wanted: string) returns (k: nat)
    requires Fold(events).Clean() && AnyStdoutLine(Fold(events), keys, wanted).Some?
    ensures PrintedIn(events, k, wanted, AnyStdoutLine(Fold(events), keys, wanted).value.eventId)
    decreases |keys|
  {
    if FindLine(Fold(events).StreamsOf(keys[0]).stdout.lines, wanted).Some? {
      k := keys[0];
      LineIsPrinted(events, k, wanted);
    } else {
      k := AnyLineIsPrinted(events, keys[1..], wanted);
    }
  }

  /** The descendant escaped before the kill, and the restarted invocation echoed within the bound. */
  ghost predicate EscapedAndEchoed(events: seq<EventFrame>, plan: WorkloadChoicePlan, bound: nat, c: Course) {
    && (exists k, id: nat :: PrintedIn(events, k, ESCAPED_DESCENDANT_LINE, id) && id <= c.killed)
    && (exists id: nat :: PrintedIn(events, 2, EchoLine(plan.seed, 2), id) && c.restarted < id <= c.restarted + bound)
  }

  lemma {:induction false} PassingLines(events: seq<EventFrame>, scenario: WorkloadScenario, plan: WorkloadChoicePlan,
                                        launch: LaunchIdentity, c: Course)
    requires ProcessSafetyHolds(Fold(events), plan, launch) && BoundedRecoveryHolds(Fold(events), scenario, plan)
    requires c.killed == Fold(events).terminations[0].eventId && c.restarted == Fold(events).starts[1].eventId
    ensures EscapedAndEchoed(events, plan, scenario.livenessEventBound, c)
  {
    hide Fold, FindExit, FindCleanup, CountLine, StaleLine, Trace.Clean, AnyStdoutLine, KeyOrder, FindLine, PrintedIn,
         Restored, PhaseAnswer, EchoLine;
    var trace := Fold(events);
    var k := AnyLineIsPrinted(events, KeyOrder(trace.invocations.Keys), ESCAPED_DESCENDANT_LINE);
    LineIsPrinted(events, 2, EchoLine(plan.seed, 2));
    assert trace.starts[1..][0] == trace.starts[1];
    assert FindStart(trace.starts, 2) == Some(trace.starts[1]);
  }

  /** One invocation's whole standard output is its expected lines, its standard error is empty, each
      response begins after the acknowledgement of the input it answers, and the end of its input was
      acknowledged `eofs` times. */
  predicate Answered(events: seq<EventFrame>, invocation: nat, expected: seq<string>, eofs: nat) {
    var out, acks := OutputBytes(events, invocation, Stdout), DataAcks(events, invocation);
    && Text(out) == Unlines(expected)
    && OutputBytes(events, invocation, Stderr) == []
    && |SplitLines(out)| == |expected| == |acks| + 1 && EndsOfInput(events, invocation) == eofs
    && forall k | 0 <= k < |acks| :: SplitLines(out)[k + 1].firstEventId > acks[k]
  }

  lemma {:induction false} PassingStreams(events: seq<EventFrame>, invocation: nat, expected: seq<string>, eofs: nat,
                                          sha: string -> string)
    requires Fold(events).Clean() && |expected| >= 1
    requires ResponsesMatch(Fold(events).StreamsOf(invocation), expected, eofs)
    requires exists exit :: ExitMatches(exit, Fold(events).StreamsOf(invocation), sha)
    ensures Answered(events, invocation, expected, eofs)
  {
    StreamsFaithful(events, invocation);
    var out := OutputBytes(events, invocation, Stdout);
    SplitIsWhole(out);
    assert Text(SplitRest(out)) == "";
    assert Texts(SplitLines(out)) == expected;
    assert Unlines(expected) + "" == Unlines(expected);
    assert |Text(OutputBytes(events, invocation, Stderr))| == 0;
  }

  /** The response lines among a list of lines. */
  function Answers(lines: seq<string>): seq<string> {
    if lines == [] then []
    else (if "network " <= lines[0] then [lines[0]] else []) + Answers(lines[1..])
  }

  lemma {:induction false} AnswersConcat(a: seq<string>, b: seq<string>)
    ensures Answers(a + b) == Answers(a) + Answers(b)
    decreases |a|
  {
    if a == [] {
      assert a + b == b;
    } else {
      assert (a + b)[1..] == a[1..] + b;
      AnswersConcat(a[1..], b);
    }
  }

  lemma {:induction false} AnswersAll(lines: seq<string>)
    requires forall i | 0 <= i < |lines| :: "network " <= lines[i]
    ensures Answers(lines) == lines
    decreases |lines|
  {
    if lines != [] { AnswersAll(lines[1..]); }
  }

  lemma NetworkLineStarts(plan: WorkloadChoicePlan, index: nat)
    requires index < |plan.requests|
    ensures "network " <= NetworkLine(plan, index)
  {
    var id := plan.requests[index].requestId;
    assert ("network state=unavailable request=" + id + " errno=13")[..8] == "network ";
    assert ("network state=ok request=" + id)[..8] == "network ";
  }

  lemma AnswersOfHead(plan: WorkloadChoicePlan, invocation: nat)
    ensures Answers([READY_LINE, EchoLine(plan.seed, invocation), FRESH_STATE_LINE]) == []
  {
    assert READY_LINE[0] == 'r' && EchoLine(plan.seed, invocation)[0] == 'e' && FRESH_STATE_LINE[0] == 's';
    assert Answers([FRESH_STATE_LINE]) == [];
    var two: seq<string> := [EchoLine(plan.seed, invocation), FRESH_STATE_LINE];
    assert two[1..] == [FRESH_STATE_LINE];
    assert Answers(two) == [];
    var three: seq<string> := [READY_LINE, EchoLine(plan.seed, invocation), FRESH_STATE_LINE];
    assert three[1..] == two;
  }

  lemma AnswersOfTail()
    ensures Answers([ESCAPED_DESCENDANT_LINE]) == []
  {
    assert ESCAPED_DESCENDANT_LINE[0] == 'd';
  }

  /** Across the two invocations every planned request is answered exactly once, in plan order. */
  lemma AnsweredOnceInOrder(plan: WorkloadChoicePlan)
    requires plan.faultIndex <= |plan.requests|
    ensures Answers(Expected(plan, 1)) + Answers(Expected(plan, 2)) == NetworkLines(plan, 0, |plan.requests|)
  {
    hide NetworkLine, Answers, EchoLine;
    var n, f := |plan.requests|, plan.faultIndex;
    forall i | 0 <= i < n ensures "network " <= NetworkLine(plan, i) { NetworkLineStarts(plan, i); }
    AnswersAll(NetworkLines(plan, 0, f));
    AnswersAll(NetworkLines(plan, f, n));
    AnswersOfHead(plan, 1);
    AnswersOfHead(plan, 2);
    var head1: seq<string> := [READY_LINE, EchoLine(plan.seed, 1), FRESH_STATE_LINE];
    var head2: seq<string> := [READY_LINE, EchoLine(plan.seed, 2), FRESH_STATE_LINE];
    AnswersConcat(head1, NetworkLines(plan, 0, f));
    AnswersConcat(head1 + NetworkLines(plan, 0, f), [ESCAPED_DESCENDANT_LINE]);
    AnswersConcat(head2, NetworkLines(plan, f, n));
    AnswersOfTail();
    assert NetworkLines(plan, 0, f) + NetworkLines(plan, f, n) == NetworkLines(plan, 0, n);
  }

  /** Invocation `k` answered line `i` with this text, after its acknowledgement. */
  predicate AnswerAt(events: seq<EventFrame>, k: nat, i: nat, wanted: string, answer: Answer) {
    var lines, acks := SplitLines(OutputBytes(events, k, Stdout)), DataAcks(events, k);
    1 <= i < |lines| && i <= |acks| && lines[i] == answer.line && answer.line.text == wanted
    && acks[i - 1] == answer.acknowledged
  }

  lemma {:induction false} FoundAnswerFrom(lines: seq<CompletedLine>, acks: seq<nat>, index: nat, wanted: string)
    returns (i: nat)
    requires AnswerFrom(lines, acks, index, wanted).Some?
    ensures 1 <= i < |lines| && i <= |acks| && lines[i].text == wanted
    ensures AnswerFrom(lines, acks, index, wanted).value == Answer(lines[i], acks[i - 1])
    decreases |lines| - index
  {
    if lines[index].text == wanted && 1 <= index <= |acks| {
      i := index;
    } else {
      i := FoundAnswerFrom(lines, acks, index + 1, wanted);
    }
  }

  lemma {:induction false} FoundAnswer(events: seq<EventFrame>, keys: seq<nat>, wanted: string)
    requires Fold(events).Clean() && AnyAnswer(Fold(events), keys, wanted).Some?
    ensures exists k, i :: AnswerAt(events, k, i, wanted, AnyAnswer(Fold(events), keys, wanted).value)
    decreases |keys|
  {
    var streams := Fold(events).StreamsOf(keys[0]);
    if AnswerFrom(streams.stdout.lines, streams.dataInputEvents, 0, wanted).Some? {
      var i := FoundAnswerFrom(streams.stdout.lines, streams.dataInputEvents, 0, wanted);
      StreamsFaithful(events, keys[0]);
      assert AnswerAt(events, keys[0], i, wanted, AnyAnswer(Fold(events), keys, wanted).value);
    } else {
      FoundAnswer(events, keys[1..], wanted);
    }
  }

  /** The fault window: the outage is activated, the first request of its phase is sent and answered
      inside the bound before the restoration, and the first request after it likewise. */
  ghost predicate FaultWindow(events: seq<EventFrame>, scenario: WorkloadScenario, plan: WorkloadChoicePlan,
                        activated: nat, restored: nat, denied: Answer, recovered: Answer) {
    var peer := scenario.PeerCidr();
    && EventAt(events, activated, OutageActivated(peer, ProhibitRule(peer)))
    && EventAt(events, restored, NetworkRestored(peer))
    && activated < denied.acknowledged && activated < denied.line.eventId < restored
    && denied.line.eventId <= activated + scenario.outageEventBound
    && restored < recovered.acknowledged && restored < recovered.line.eventId
    && recovered.line.eventId <= restored + scenario.livenessEventBound
    && FirstInPhase(plan, Outage, 0).Some? && FirstInPhase(plan, Recovery, 0).Some?
    && (exists k, i :: AnswerAt(events, k, i,
                                ExpectedNetworkLine(plan.requests[FirstInPhase(plan, Outage, 0).value], Outage),
                                  denied))
    && (exists k, i :: AnswerAt(events, k, i,
                                ExpectedNetworkLine(plan.requests[FirstInPhase(plan, Recovery, 0).value], Recovery),
                                  recovered))
  }

  lemma {:induction false} PassingFaults(events: seq<EventFrame>, scenario: WorkloadScenario, plan: WorkloadChoicePlan)
    requires Sequential(events) && Fold(events).Clean()
    requires ControlledOutageHolds(Fold(events), scenario, plan) && BoundedRecoveryHolds(Fold(events), scenario, plan)
    ensures exists activated, restored, denied, recovered ::
              FaultWindow(events, scenario, plan, activated, restored, denied, recovered)
  {
    var trace := Fold(events);
    RecordsFaithful(events);
    var keys := KeyOrder(trace.invocations.Keys);
    var activation, restored := Activation(trace, scenario).value, Restored(trace, scenario).value;
    FoundRoute(trace.activations, scenario.PeerCidr(), trace.configured.value.eventId);
    FoundRoute(trace.restorations, activation.peerCidr, activation.eventId);
    var denied, recovered := PhaseAnswer(trace, plan, Outage).value, PhaseAnswer(trace, plan, Recovery).value;
    FoundAnswer(events, keys, ExpectedNetworkLine(plan.requests[FirstInPhase(plan, Outage, 0).value], Outage));
    FoundAnswer(events, keys, ExpectedNetworkLine(plan.requests[FirstInPhase(plan, Recovery, 0).value], Recovery));
    assert FaultWindow(events, scenario, plan, activation.eventId, restored.eventId, denied, recovered);
  }

  /** A passing report on any event stream numbered from one. */
  lemma {:induction false} PassingReportMeans(events: seq<EventFrame>, scenario: WorkloadScenario,
                                              plan: WorkloadChoicePlan,
                           launch: LaunchIdentity, sha: string -> string)
    requires Sequential(events) && plan.faultIndex <= |plan.requests|
    requires EvaluateWorkload(events, scenario, plan, launch, sha).passed
    ensures Answered(events, 1, Expected(plan, 1), 0) && Answered(events, 2, Expected(plan, 2), 1)
    ensures Answers(Expected(plan, 1)) + Answers(Expected(plan, 2)) == NetworkLines(plan, 0, |plan.requests|)
    ensures exists c :: KilledThenRestarted(events, launch, c)
                        && EscapedAndEchoed(events, plan, scenario.livenessEventBound, c)
    ensures exists activated, restored, denied, recovered ::
              FaultWindow(events, scenario, plan, activated, restored, denied, recovered)
  {
    hide KilledThenRestarted, EscapedAndEchoed;
    var trace := Fold(events);
    var c := PassingProcess(events, plan, launch);
    PassingLines(events, scenario, plan, launch, c);
    FoundExit(trace.exits, 1);
    FoundExit(trace.exits, 2);
    var one, two := FindExit(trace.exits, 1).value, FindExit(trace.exits, 2).value;
    assert ExitMatches(one, trace.StreamsOf(1), sha);
    assert ExitMatches(two, trace.StreamsOf(2), sha);
    PassingStreams(events, 1, Expected(plan, 1), 0, sha);
    PassingStreams(events, 2, Expected(plan, 2), 1, sha);
    AnsweredOnceInOrder(plan);
    PassingFaults(events, scenario, plan);
  }
}
