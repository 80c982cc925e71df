/** When the checker finds no structural fault, said of the events themselves: each event is in order after
    those before it. */
module Faultless {
  import opened Protocol
  import opened Lines
  import opened Streams
  import opened Traces
  import opened Checker
  import opened Soundness

  // ---- Facts read straight off the event stream ---------------------------------------------

  predicate StartedIn(events: seq<EventFrame>, k: nat) {
    exists i | 0 <= i < |events| :: events[i].event.WorkloadStarted? && events[i].event.invocation == k
  }

  predicate ExitedIn(events: seq<EventFrame>, k: nat) {
    exists i | 0 <= i < |events| :: events[i].event.WorkloadExited? && events[i].event.invocation == k
  }

  predicate KilledIn(events: seq<EventFrame>, k: nat) {
    exists i | 0 <= i < |events| :: events[i].event.TerminationRequested? && events[i].event.invocation == k
  }

  predicate CleanedIn(events: seq<EventFrame>, k: nat) {
    exists i | 0 <= i < |events| :: events[i].event.CleanupComplete? && events[i].event.invocation == k
  }

  predicate FailedIn(events: seq<EventFrame>, k: nat) {
    exists i | 0 <= i < |events| :: events[i].event.LaunchFailed? && events[i].event.invocation == k
  }

  predicate ConfiguredIn(events: seq<EventFrame>) {
    exists i | 0 <= i < |events| :: events[i].event.NetworkConfigured?
  }

  predicate ActivatedIn(events: seq<EventFrame>) {
    exists i | 0 <= i < |events| :: events[i].event.OutageActivated?
  }

  predicate RestoredIn(events: seq<EventFrame>) {
    exists i | 0 <= i < |events| :: events[i].event.NetworkRestored?
  }

  predicate IsOutputOf(f: EventFrame, k: nat) {
    f.event.WorkloadOutput? && f.event.invocation == k
  }

  predicate IsInputOf(f: EventFrame, k: nat) {
    f.event.InputAccepted? && f.event.invocation == k
  }

  /** How many output frames an invocation has. */
  function OutputFrames(events: seq<EventFrame>, k: nat): nat {
    if events == [] then 0
    else OutputFrames(events[..|events| - 1], k) + if IsOutputOf(events[|events| - 1], k) then 1 else 0
  }

  /** How many input bytes were acknowledged. */
  function InputBytes(events: seq<EventFrame>, k: nat): nat {
    if events == [] then 0
    else
      var last := events[|events| - 1];
      InputBytes(events[..|events| - 1], k) + if IsInputOf(last, k) then last.event.bytes else 0
  }

  /** The largest 64-bit value at most. */
  function Clamp(n: nat): nat {
    if n <= U64_MAX then n else U64_MAX
  }

  /** No line of the stream is too long, nor what is pending on standard output. */
  predicate LinesFit(bytes: seq<Tagged>, stream: Stream) {
    && (forall i | 0 <= i < |SplitLines(bytes)| :: |SplitLines(bytes)[i].text| <= 1024)
    && (stream.Stdout? ==> |SplitRest(bytes)| <= 1024)
  }

  // ---- Each event in order after those before it ----------------------------------------------

  /** What the event needs of the lives of the invocations and of the network. */
  predicate InOrder(before: seq<EventFrame>, f: EventFrame) {
    match f.event
    case WorkloadStarted(k, _) => !StartedIn(before, k)
    case WorkloadExited(k, _, _, _, _, _, _) => StartedIn(before, k) && !ExitedIn(before, k)
    case TerminationRequested(k, _) => StartedIn(before, k) && !ExitedIn(before, k) && !KilledIn(before, k)
    case CleanupComplete(k, reaped) =>
      StartedIn(before, k) && ExitedIn(before, k) && !CleanedIn(before, k) && reaped > 0
    case LaunchFailed(k, _) => !FailedIn(before, k) && !ExitedIn(before, k)
    case NetworkConfigured(iface, cidr, gateway) =>
      !ConfiguredIn(before) && iface == NETWORK_INTERFACE && cidr == GUEST_CIDR && gateway == FIXTURE_PEER
    case OutageActivated(peer, rule) => !ActivatedIn(before) && rule == "prohibit " + peer
    case NetworkRestored(_) => !RestoredIn(before)
    case WorkloadOutput(k, _, _, _, hex) =>
      StartedIn(before, k) && !ExitedIn(before, k) && Unhex(hex, MAX_OUTPUT_FRAME_BYTES).Some?
    case InputAccepted(k, _, _, _) => StartedIn(before, k) && !ExitedIn(before, k) && !KilledIn(before, k)
    case _ => true
  }

  /** What it needs of the bytes before it: output frames are numbered from one and continue their stream
      within the bound; input continues where it stood, ends once, and is acknowledged under growing
      commands. */
  predicate Continues(before: seq<EventFrame>, f: EventFrame) {
    match f.event
    case WorkloadOutput(k, stream, offset, sequence, _) =>
      && sequence == OutputFrames(before, k) + 1 && offset == Clamp(|OutputBytes(before, k, stream)|)
      && LinesFit(OutputBytes(before, k, stream) + Carried(f, k, stream), stream)
    case InputAccepted(k, offset, bytes, eof) =>
      && offset == InputBytes(before, k) + bytes && (eof <==> bytes == 0) && EndsOfInput(before, k) == 0
      && forall i | 0 <= i < |before| && IsInputOf(before[i], k) :: before[i].commandId < f.commandId
    case _ => true
  }

  predicate Flawless(events: seq<EventFrame>) {
    forall i | 0 <= i < |events| :: InOrder(events[..i], events[i]) && Continues(events[..i], events[i])
  }

  // ---- What a trace without faults holds -----------------------------------------------------

  /** The records of one kind, in order. */
  function Picked<R>(events: seq<EventFrame>, pick: EventFrame -> Option<R>): seq<R> {
    if events == [] then []
    else
      var last := pick(events[|events| - 1]);
      Picked(events[..|events| - 1], pick) + if last.Some? then [last.value] else []
  }

  function StartOf(f: EventFrame): Option<StartRecord> {
    if f.event.WorkloadStarted? then Some(StartRecord(f.event.invocation, f.event.launch, f.eventId)) else None
  }

  function ExitOf(f: EventFrame): Option<ExitRecord> {
    var e := f.event;
    if e.WorkloadExited? then
      Some(ExitRecord(e.invocation, e.exit, e.stdoutBytes, e.stdoutSha256, e.stderrBytes, e.stderrSha256, e.frames,
                      f.eventId))
    else None
  }

  function KillOf(f: EventFrame): Option<TerminationRecord> {
    if f.event.TerminationRequested? then Some(TerminationRecord(f.event.invocation, f.event.signal, f.eventId))
      else None
  }

  function CleanupOf(f: EventFrame): Option<CleanupRecord> {
    if f.event.CleanupComplete? then Some(CleanupRecord(f.event.invocation, f.event.reaped, f.eventId)) else None
  }

  function FailureOf(f: EventFrame): Option<LaunchFailureRecord> {
    if f.event.LaunchFailed? then Some(LaunchFailureRecord(f.event.invocation, f.event.failure)) else None
  }

  function ActivationOf(f: EventFrame): Option<RouteRecord> {
    if f.event.OutageActivated? then Some(RouteRecord(f.event.peerCidr, f.eventId)) else None
  }

  function RestorationOf(f: EventFrame): Option<RouteRecord> {
    if f.event.NetworkRestored? then Some(RouteRecord(f.event.peerCidr, f.eventId)) else None
  }

  function ConfigurationOf(f: EventFrame): Option<ConfiguredRecord> {
    if f.event.NetworkConfigured? then Some(ConfiguredRecord(f.event.gateway, f.eventId)) else None
  }

  ghost predicate LivesRecorded(t: Trace, events: seq<EventFrame>) {
    && t.starts == Picked(events, StartOf) && t.exits == Picked(events, ExitOf)
    && t.terminations == Picked(events, KillOf) && t.cleanups == Picked(events, CleanupOf)
    && t.launchFailures == Picked(events, FailureOf)
  }

  ghost predicate NetworkRecorded(t: Trace, events: seq<EventFrame>) {
    && t.activations == Picked(events, ActivationOf) && t.restorations == Picked(events, RestorationOf)
    && Picked(events, ConfigurationOf) == if t.configured.Some? then [t.configured.value] else []
  }

  /** The trace records every event of its kind, and only those. */
  ghost predicate RecordsAll(t: Trace, events: seq<EventFrame>) {
    LivesRecorded(t, events) && NetworkRecorded(t, events)
  }

  /** The counters of one invocation's streams are those of its events. */
  ghost predicate CountsAll(s: InvocationStreams, events: seq<EventFrame>, k: nat) {
    && s.sequence == OutputFrames(events, k) && s.frames == OutputFrames(events, k)
    && s.stdout.offset == Clamp(|OutputBytes(events, k, Stdout)|)
    && s.stderr.offset == Clamp(|OutputBytes(events, k, Stderr)|)
    && s.inputOffset == InputBytes(events, k) && s.inputEof == (EndsOfInput(events, k) > 0)
    && (s.inputCommands == [] ==> forall i | 0 <= i < |events| :: !IsInputOf(events[i], k))
    && (s.inputCommands != [] ==>
          var last := s.inputCommands[|s.inputCommands| - 1];
          && (forall i | 0 <= i < |events| && IsInputOf(events[i], k) :: events[i].commandId <= last)
          && (exists i | 0 <= i < |events| && IsInputOf(events[i], k) :: events[i].commandId == last))
  }

  lemma {:induction false} PickedIn<R>(events: seq<EventFrame>, pick: EventFrame -> Option<R>, r: R)
    ensures r in Picked(events, pick) <==> exists i | 0 <= i < |events| :: pick(events[i]) == Some(r)
  {
    if events != [] {
      var n := |events| - 1;
      PickedIn(events[..n], pick, r);
      if pick(events[n]) == Some(r) {
        assert r in Picked(events, pick);
      }
      if i :| 0 <= i < |events| && pick(events[i]) == Some(r) && i < n {
        assert events[..n][i] == events[i];
      }
      if r in Picked(events[..n], pick) {
        var i :| 0 <= i < n && pick(events[..n][i]) == Some(r);
        assert events[i] == events[..n][i];
      }
    }
  }

  lemma {:induction false} PickedLast<R>(events: seq<EventFrame>, f: EventFrame, pick: EventFrame -> Option<R>)
    ensures Picked(events + [f], pick) == Picked(events, pick) + if pick(f).Some? then [pick(f).value] else []
  {
    assert (events + [f])[..|events|] == events;
  }

  // ---- The order of events ---------------------------------------------------------------------

  lemma {:induction false} StartsAgree(t: Trace, events: seq<EventFrame>, k: nat)
    requires RecordsAll(t, events)
    ensures t.Started(k) <==> StartedIn(events, k)
  {
    if t.Started(k) {
      var i :| 0 <= i < |t.starts| && t.starts[i].invocation == k;
      PickedIn(events, StartOf, t.starts[i]);
    }
    if StartedIn(events, k) {
      var i :| 0 <= i < |events| && events[i].event.WorkloadStarted? && events[i].event.invocation == k;
      PickedIn(events, StartOf, StartOf(events[i]).value);
    }
  }

  lemma {:induction false} ExitsAgree(t: Trace, events: seq<EventFrame>, k: nat)
    requires RecordsAll(t, events)
    ensures t.HasExited(k) <==> ExitedIn(events, k)
  {
    if t.HasExited(k) {
      var i :| 0 <= i < |t.exits| && t.exits[i].invocation == k;
      PickedIn(events, ExitOf, t.exits[i]);
    }
    if ExitedIn(events, k) {
      var i :| 0 <= i < |events| && events[i].event.WorkloadExited? && events[i].event.invocation == k;
      PickedIn(events, ExitOf, ExitOf(events[i]).value);
    }
  }

  lemma {:induction false} KillsAgree(t: Trace, events: seq<EventFrame>, k: nat)
    requires RecordsAll(t, events)
    ensures t.HasTerminated(k) <==> KilledIn(events, k)
  {
    if t.HasTerminated(k) {
      var i :| 0 <= i < |t.terminations| && t.terminations[i].invocation == k;
      PickedIn(events, KillOf, t.terminations[i]);
    }
    if KilledIn(events, k) {
      var i :| 0 <= i < |events| && events[i].event.TerminationRequested? && events[i].event.invocation == k;
      PickedIn(events, KillOf, KillOf(events[i]).value);
    }
  }

  lemma {:induction false} CleanupsAgree(t: Trace, events: seq<EventFrame>, k: nat)
    requires RecordsAll(t, events)
    ensures t.HasCleanedUp(k) <==> CleanedIn(events, k)
  {
    if t.HasCleanedUp(k) {
      var i :| 0 <= i < |t.cleanups| && t.cleanups[i].invocation == k;
      PickedIn(events, CleanupOf, t.cleanups[i]);
    }
    if CleanedIn(events, k) {
      var i :| 0 <= i < |events| && events[i].event.CleanupComplete? && events[i].event.invocation == k;
      PickedIn(events, CleanupOf, CleanupOf(events[i]).value);
    }
  }

  lemma {:induction false} FailuresAgree(t: Trace, events: seq<EventFrame>, k: nat)
    requires RecordsAll(t, events)
    ensures t.HasLaunchFailed(k) <==> FailedIn(events, k)
  {
    if t.HasLaunchFailed(k) {
      var i :| 0 <= i < |t.launchFailures| && t.launchFailures[i].invocation == k;
      PickedIn(events, FailureOf, t.launchFailures[i]);
    }
    if FailedIn(events, k) {
      var i :| 0 <= i < |events| && events[i].event.LaunchFailed? && events[i].event.invocation == k;
      PickedIn(events, FailureOf, FailureOf(events[i]).value);
    }
  }

  lemma {:induction false} PickedNone<R>(events: seq<EventFrame>, pick: EventFrame -> Option<R>)
    ensures Picked(events, pick) == [] <==> forall i | 0 <= i < |events| :: pick(events[i]).None?
  {
    if Picked(events, pick) == [] {
      forall i | 0 <= i < |events| ensures pick(events[i]).None? {
        if pick(events[i]).Some? {
          PickedIn(events, pick, pick(events[i]).value);
        }
      }
    } else {
      var r := Picked(events, pick)[0];
      assert r in Picked(events, pick);
      PickedIn(events, pick, r);
    }
  }

  lemma {:induction false} NetworkAgrees(t: Trace, events: seq<EventFrame>)
    requires RecordsAll(t, events)
    ensures t.configured.Some? <==> ConfiguredIn(events)
    ensures t.activations != [] <==> ActivatedIn(events)
    ensures t.restorations != [] <==> RestoredIn(events)
  {
    PickedNone(events, ConfigurationOf);
    PickedNone(events, ActivationOf);
    PickedNone(events, RestorationOf);
  }

  /** Every record is older than the next event. */
  lemma {:induction false} ExitsAreEarlier(t: Trace, events: seq<EventFrame>, k: nat)
    requires RecordsAll(t, events) && Sequential(events)
    ensures !t.ExitRecordedAfter(k, |events| + 1)
  {
    forall i | 0 <= i < |t.exits| ensures t.exits[i].eventId <= |events| {
      PickedIn(events, ExitOf, t.exits[i]);
    }
  }

  /** A trace-level fault is an event out of order. */
  lemma {:induction false} OrderExact(t: Trace, events: seq<EventFrame>, f: EventFrame)
    requires RecordsAll(t, events) && t.violations == [] && Sequential(events) && f.eventId == |events| + 1
    ensures t.Push(f).violations == [] <==> InOrder(events, f)
  {
    hide RecordsAll, Picked, StartedIn, ExitedIn, KilledIn, CleanedIn, FailedIn, ConfiguredIn, ActivatedIn, RestoredIn,
         Trace.Started, Trace.HasExited, Trace.HasTerminated, Trace.HasCleanedUp, Trace.HasLaunchFailed,
         Trace.ExitRecordedAfter, Unhex, InvocationStreams.PushOutput, InvocationStreams.PushInput;
    forall k ensures t.Started(k) <==> StartedIn(events, k) { StartsAgree(t, events, k); }
    forall k ensures t.HasExited(k) <==> ExitedIn(events, k) { ExitsAgree(t, events, k); }
    forall k ensures t.HasTerminated(k) <==> KilledIn(events, k) { KillsAgree(t, events, k); }
    forall k ensures t.HasCleanedUp(k) <==> CleanedIn(events, k) { CleanupsAgree(t, events, k); }
    forall k ensures t.HasLaunchFailed(k) <==> FailedIn(events, k) { FailuresAgree(t, events, k); }
    var n := f.eventId;
    forall k ensures !t.ExitRecordedAfter(k, n) { ExitsAreEarlier(t, events, k); }
    NetworkAgrees(t, events);
  }

  lemma {:induction false} LivesNext(t: Trace, events: seq<EventFrame>, f: EventFrame)
    requires LivesRecorded(t, events) && t.Push(f).violations == []
    ensures LivesRecorded(t.Push(f), events + [f])
  {
    hide Picked, Trace.Started, Trace.HasExited, Trace.HasTerminated, Trace.HasCleanedUp, Trace.HasLaunchFailed,
         Trace.ExitRecordedAfter, Unhex, InvocationStreams.PushOutput, InvocationStreams.PushInput,
         Trace.PushConfigured, Trace.PushActivation, Trace.PushRestoration;
    PickedLast(events, f, StartOf);
    PickedLast(events, f, ExitOf);
    PickedLast(events, f, KillOf);
    PickedLast(events, f, CleanupOf);
    PickedLast(events, f, FailureOf);
    if !f.event.WorkloadStarted? && !f.event.WorkloadExited? && !f.event.TerminationRequested?
       && !f.event.CleanupComplete? && !f.event.LaunchFailed?
    {
      OtherLives(t, f);
    }
  }

  lemma {:induction false} OtherLives(t: Trace, f: EventFrame)
    requires !f.event.WorkloadStarted? && !f.event.WorkloadExited? && !f.event.TerminationRequested?
    requires !f.event.CleanupComplete? && !f.event.LaunchFailed?
    ensures var u := t.Push(f);
            && u.starts == t.starts && u.exits == t.exits && u.terminations == t.terminations
            && u.cleanups == t.cleanups && u.launchFailures == t.launchFailures
  {
    hide Trace.Started, Trace.HasExited, Trace.HasTerminated, Unhex, InvocationStreams.PushOutput,
         InvocationStreams.PushInput;
  }

  lemma {:induction false} NetworkNext(t: Trace, events: seq<EventFrame>, f: EventFrame)
    requires NetworkRecorded(t, events) && t.Push(f).violations == []
    ensures NetworkRecorded(t.Push(f), events + [f])
  {
    hide Picked, Trace.Started, Trace.HasExited, Trace.HasTerminated, Trace.HasCleanedUp, Trace.HasLaunchFailed,
         Trace.ExitRecordedAfter, Unhex, InvocationStreams.PushOutput, InvocationStreams.PushInput;
    PickedLast(events, f, ActivationOf);
    PickedLast(events, f, RestorationOf);
    PickedLast(events, f, ConfigurationOf);
    if !f.event.NetworkConfigured? && !f.event.OutageActivated? && !f.event.NetworkRestored? {
      OtherNetwork(t, f);
    }
  }

  lemma {:induction false} OtherNetwork(t: Trace, f: EventFrame)
    requires !f.event.NetworkConfigured? && !f.event.OutageActivated? && !f.event.NetworkRestored?
    ensures var u := t.Push(f);
            u.activations == t.activations && u.restorations == t.restorations && u.configured == t.configured
  {
    hide Trace.Started, Trace.HasExited, Trace.HasTerminated, Trace.HasCleanedUp, Trace.HasLaunchFailed,
         Trace.ExitRecordedAfter, Unhex, InvocationStreams.PushOutput, InvocationStreams.PushInput;
  }

  // ---- The bytes ---------------------------------------------------------------------------------

  /** Everything a trace without faults says of one invocation's streams. */
  ghost predicate StreamsTold(s: InvocationStreams, events: seq<EventFrame>, k: nat) {
    CountsAll(s, events, k) && Summarizes(s, events, k)
  }

  lemma {:induction false} CountsLast(events: seq<EventFrame>, f: EventFrame, k: nat)
    ensures OutputFrames(events + [f], k) == OutputFrames(events, k) + if IsOutputOf(f, k) then 1 else 0
    ensures InputBytes(events + [f], k) == InputBytes(events, k) + if IsInputOf(f, k) then f.event.bytes else 0
  {
    assert (events + [f])[..|events|] == events;
  }

  /** An event that does not concern the invocation changes none of its counts. */
  lemma {:induction false} CountsStay(s: InvocationStreams, events: seq<EventFrame>, f: EventFrame, k: nat)
    requires CountsAll(s, events, k) && !IsOutputOf(f, k) && !IsInputOf(f, k)
    ensures CountsAll(s, events + [f], k)
  {
    hide OutputFrames, InputBytes, OutputBytes, EndsOfInput, DataAcks, Clamp;
    CountsLast(events, f, k);
    Append(events, f, k);
    var all := events + [f];
    assert forall stream :: OutputBytes(events, k, stream) + [] == OutputBytes(events, k, stream);
    assert forall i | 0 <= i < |events| :: all[i] == events[i];
    if s.inputCommands != [] {
      var i :| 0 <= i < |events| && IsInputOf(events[i], k)
               && events[i].commandId == s.inputCommands[|s.inputCommands| - 1];
      assert all[i] == events[i];
    }
  }

  /** The lines that fit are those without a bound violation. */
  lemma {:induction false} LinesExact(s: InvocationStreams, out: seq<Tagged>, err: seq<Tagged>, event: nat,
                                      stream: Stream,
                                      offset: nat, sequence: nat, data: string)
    requires BothRepresent(s, out, err) && BoundsExact(s) && s.violations == []
    ensures var bytes := (if stream.Stdout? then out else err) + Tag(data, event);
            s.PushOutput(event, stream, offset, sequence, data).violations == [] <==>
            s.sequence + 1 == sequence && offset == s.Line(stream).offset && LinesFit(bytes, stream)
  {
    hide Complete, Leftover, LineState.Completed, SplitLines, SplitRest;
    var history := if stream.Stdout? then out else err;
    var bytes := history + Tag(data, event);
    var before := s.Line(stream);
    var done := before.Completed(data, event);
    PushRepresents(before, history, offset, data, event);
    var after := before.Push(offset, data, event);
    assert after.lines == before.lines + done && after.lines == SplitLines(bytes)
           && |after.pending| == |SplitRest(bytes)|;
    LongLinesExact(done, stream);
    assert forall i | 0 <= i < |before.lines| :: after.lines[i] == before.lines[i];
    assert forall i | 0 <= i < |done| :: after.lines[|before.lines| + i] == done[i];
    assert forall i | |before.lines| <= i < |after.lines| :: after.lines[i] == done[i - |before.lines|];
    assert LineOverBound(Stdout) !in s.violations && LineOverBound(Stderr) !in s.violations;
    assert !s.overBound && forall i | 0 <= i < |before.lines| :: !TooLong(before.lines[i]);
  }

  lemma {:induction false} OutputNext(s: InvocationStreams, events: seq<EventFrame>, f: EventFrame, k: nat)
    requires StreamsTold(s, events, k) && s.violations == [] && IsOutputOf(f, k)
    requires Unhex(f.event.hex, MAX_OUTPUT_FRAME_BYTES).Some?
    ensures var e, data := f.event, Unhex(f.event.hex, MAX_OUTPUT_FRAME_BYTES).value;
            var s' := s.PushOutput(f.eventId, e.stream, e.offset, e.sequence, data);
            && (s'.violations == [] <==> Continues(events, f))
            && (s'.violations == [] ==> CountsAll(s', events + [f], k))
  {
    hide OutputFrames, InputBytes, OutputBytes, EndsOfInput, DataAcks, Unhex, LinesFit, BothRepresent, BoundsExact;
    var e, data := f.event, Unhex(f.event.hex, MAX_OUTPUT_FRAME_BYTES).value;
    LinesExact(s, OutputBytes(events, k, Stdout), OutputBytes(events, k, Stderr), f.eventId, e.stream, e.offset,
               e.sequence, data);
    assert Carried(f, k, e.stream) == Tag(data, f.eventId);
    var s' := s.PushOutput(f.eventId, e.stream, e.offset, e.sequence, data);
    if s'.violations == [] {
      OutputCounts(s, s', events, f, k, data);
    }
  }

  lemma {:induction false} OutputCounts(s: InvocationStreams, s': InvocationStreams, events: seq<EventFrame>,
                                        f: EventFrame,
                                        k: nat, data: string)
    requires CountsAll(s, events, k) && IsOutputOf(f, k) && Unhex(f.event.hex, MAX_OUTPUT_FRAME_BYTES) == Some(data)
    requires s' == s.PushOutput(f.eventId, f.event.stream, f.event.offset, f.event.sequence, data)
    requires f.event.sequence == s.sequence + 1 && f.event.offset == s.Line(f.event.stream).offset
    ensures CountsAll(s', events + [f], k)
  {
    hide OutputFrames, InputBytes, OutputBytes, EndsOfInput, DataAcks, Unhex, LineState.Completed, Leftover, LongLines;
    CountsLast(events, f, k);
    Append(events, f, k);
    var all, stream := events + [f], f.event.stream;
    var other := if stream.Stdout? then Stderr else Stdout;
    assert OutputBytes(all, k, stream) == OutputBytes(events, k, stream) + Tag(data, f.eventId);
    assert OutputBytes(all, k, other) == OutputBytes(events, k, other) + [];
    assert |Tag(data, f.eventId)| == |data|;
    assert s'.inputCommands == s.inputCommands && s'.inputOffset == s.inputOffset && s'.inputEof == s.inputEof;
    assert forall i | 0 <= i < |events| :: all[i] == events[i];
    if s.inputCommands != [] {
      var i :| 0 <= i < |events| && IsInputOf(events[i], k)
               && events[i].commandId == s.inputCommands[|s.inputCommands| - 1];
      assert all[i] == events[i];
    }
  }

  lemma {:induction false} InputNext(s: InvocationStreams, events: seq<EventFrame>, f: EventFrame, k: nat)
    requires CountsAll(s, events, k) && s.violations == [] && IsInputOf(f, k)
    ensures var e := f.event;
            var s' := s.PushInput(f.eventId, f.commandId, e.offset, e.bytes, e.eof);
            && (s'.violations == [] <==> Continues(events, f))
            && (s'.violations == [] ==> CountsAll(s', events + [f], k))
  {
    hide OutputFrames, InputBytes, OutputBytes, EndsOfInput, DataAcks;
    var e := f.event;
    var s' := s.PushInput(f.eventId, f.commandId, e.offset, e.bytes, e.eof);
    CountsLast(events, f, k);
    Append(events, f, k);
    var all := events + [f];
    assert forall stream :: OutputBytes(events, k, stream) + [] == OutputBytes(events, k, stream);
    assert forall i | 0 <= i < |events| :: all[i] == events[i];
    assert all[|events|] == f;
  }

  // ---- No fault exactly when flawless --------------------------------------------------------------

  /** The trace of the events has no fault and tells all of them. */
  ghost predicate TellsAll(t: Trace, events: seq<EventFrame>) {
    RecordsAll(t, events) && forall k :: CountsAll(t.StreamsOf(k), events, k)
  }

  lemma {:induction false} FlawlessLast(events: seq<EventFrame>, f: EventFrame)
    ensures Flawless(events + [f]) <==> Flawless(events) && InOrder(events, f) && Continues(events, f)
  {
    hide InOrder, Continues;
    var all := events + [f];
    assert all[..|events|] == events && all[|events|] == f;
    assert forall i | 0 <= i < |events| :: all[..i] == events[..i] && all[i] == events[i];
  }

  /** An event in order, folded: it is without fault exactly when it continues the bytes. */
  lemma {:induction false} CleanNext(t: Trace, events: seq<EventFrame>, f: EventFrame)
    requires t.Clean() && TellsAll(t, events) && (forall k :: Summarizes(t.StreamsOf(k), events, k))
    requires InOrder(events, f) && t.Push(f).violations == []
    ensures t.Push(f).Clean() <==> Continues(events, f)
    ensures t.Push(f).Clean() ==> forall k :: CountsAll(t.Push(f).StreamsOf(k), events + [f], k)
  {
    hide CountsAll, Summarizes, Continues, Unhex, InvocationStreams.PushOutput, InvocationStreams.PushInput, RecordsAll,
         StartedIn, ExitedIn, KilledIn;
    var u := t.Push(f);
    if f.event.WorkloadOutput? || f.event.InputAccepted? {
      var k := f.event.invocation;
      assert t.StreamsOf(k).violations == [];
      assert CountsAll(t.StreamsOf(k), events, k) && Summarizes(t.StreamsOf(k), events, k);
      StreamsChange(t, f);
      if f.event.WorkloadOutput? {
        OutputNext(t.StreamsOf(k), events, f, k);
      } else {
        InputNext(t.StreamsOf(k), events, f, k);
      }
      forall j | j != k ensures CountsAll(u.StreamsOf(j), events + [f], j) {
        assert CountsAll(t.StreamsOf(j), events, j);
        CountsStay(t.StreamsOf(j), events, f, j);
      }
      assert u.StreamsOf(k) == u.invocations[k];
    } else {
      PushKeepsOthers(t, f, 0);
      assert Continues(events, f) by { OthersContinue(events, f); }
      forall j ensures CountsAll(u.StreamsOf(j), events + [f], j) {
        assert CountsAll(t.StreamsOf(j), events, j);
        CountsStay(t.StreamsOf(j), events, f, j);
      }
    }
  }

  lemma {:induction false} OthersContinue(events: seq<EventFrame>, f: EventFrame)
    requires !f.event.WorkloadOutput? && !f.event.InputAccepted?
    ensures Continues(events, f)
  {}

  /** A frame in order changes the streams of its own invocation alone. */
  lemma {:induction false} StreamsChange(t: Trace, f: EventFrame)
    requires (f.event.WorkloadOutput? || f.event.InputAccepted?) && t.violations == [] && t.Push(f).violations == []
    ensures f.event.WorkloadOutput? ==> Unhex(f.event.hex, MAX_OUTPUT_FRAME_BYTES).Some?
    ensures var k, e := f.event.invocation, f.event;
            t.Push(f).invocations ==
            t.invocations[k := if e.WorkloadOutput?
                               then t.StreamsOf(k).PushOutput(f.eventId, e.stream, e.offset, e.sequence,
                                                              Unhex(e.hex, MAX_OUTPUT_FRAME_BYTES).value)
                               else t.StreamsOf(k).PushInput(f.eventId, f.commandId, e.offset, e.bytes, e.eof)]
  {
    hide Unhex, InvocationStreams.PushOutput, InvocationStreams.PushInput, Trace.Started, Trace.HasExited,
         Trace.HasTerminated;
  }

  lemma {:induction false} NothingTold()
    ensures TellsAll(EMPTY_TRACE, []) && EMPTY_TRACE.Clean()
  {}

  /** The checker finds no structural fault exactly when every event is in order and continues the bytes
      before it; and then its trace tells all of them. */
  lemma {:induction false} CleanExactly(events: seq<EventFrame>)
    requires Sequential(events)
    ensures Fold(events).Clean() <==> Flawless(events)
    ensures Fold(events).Clean() ==> TellsAll(Fold(events), events)
  {
    hide TellsAll, Trace.Clean, Trace.Push, InOrder, Continues, Flawless, Summarizes;
    if events == [] {
      NothingTold();
      assert Flawless(events) by { NothingFlawed(); }
    } else {
      var n := |events| - 1;
      var init, f := events[..n], events[n];
      assert events == init + [f];
      var t := Fold(init);
      CleanExactly(init);
      FlawlessLast(init, f);
      if t.Push(f).Clean() {
        CleanBefore(t, f);
      }
      if t.Clean() {
        forall k ensures Summarizes(t.StreamsOf(k), init, k) { StreamsFaithful(init, k); }
        StepExactly(t, init, f);
      }
    }
  }

  lemma {:induction false} NothingFlawed()
    ensures Flawless([])
  {}

  lemma {:induction false} StepExactly(t: Trace, events: seq<EventFrame>, f: EventFrame)
    requires t.Clean() && TellsAll(t, events) && (forall k :: Summarizes(t.StreamsOf(k), events, k))
    requires Sequential(events) && f.eventId == |events| + 1
    ensures t.Push(f).Clean() <==> InOrder(events, f) && Continues(events, f)
    ensures t.Push(f).Clean() ==> TellsAll(t.Push(f), events + [f])
  {
    hide CountsAll, Summarizes, Continues, InOrder, Trace.Push, LivesRecorded, NetworkRecorded;
    OrderExact(t, events, f);
    if t.Push(f).violations == [] {
      CleanNext(t, events, f);
      LivesNext(t, events, f);
      NetworkNext(t, events, f);
    }
  }
}
