/** Each step of the schedule against the honest guest: it goes smoothly, its effect on the trace is an
    explicit update, and guest and trace stay in agreement. */
module Honesty {
  import opened Protocol
  import opened Lines
  import opened Streams
  import opened Traces
  import opened Scenarios
  import opened Checker
  import opened Controller
  import opened Driver
  import opened Driving
  import opened Fixture
  import opened Conversation
  import opened Mirror
  import HonestGuest
  import Machine
  import Refinement

  /** One run's constants. */
  datatype World = World(scenario: WorkloadScenario, plan: WorkloadChoicePlan, launch: LaunchIdentity,
                         sha: string -> string)
  {
    predicate Valid() {
      scenario.Valid() && plan.Valid()
    }

    /** What the fixture serves in this run. */
    function Files(): map<string, string> {
      FixtureEntries(plan.requests, scenario.corruptResponses, |plan.requests|)
    }
  }

  // ---- The trace, step by step ---------------------------------------------------------

  /** The exit record of an invocation, as an honest guest reports it. */
  function ExitOf(t: Trace, k: nat, exit: ProcessExit, n: nat, sha: string -> string): ExitRecord {
    var s := t.StreamsOf(k);
    ExitRecord(k, exit, |s.stdout.bytes|, sha(s.stdout.bytes), |s.stderr.bytes|, sha(s.stderr.bytes), s.frames, n)
  }

  function Closed(s: InvocationStreams, command: nat): InvocationStreams {
    s.(inputCommands := s.inputCommands + [command], eofInputs := s.eofInputs + 1, inputEof := true)
  }

  function Ended(w: World, t: Trace, k: nat, exit: ProcessExit, members: nat, n: nat): Trace {
    t.(exits := t.exits + [ExitOf(t, k, exit, n, w.sha)], cleanups := t.cleanups + [CleanupRecord(k, members, n + 1)])
  }

  /** The trace after a step whose first event is number `n`, under the given command. */
  function TraceAfter(w: World, t: Trace, n: nat, command: nat, step: WorkloadStep): Trace
    requires InPlan(step, w.plan)
  {
    match step
    case StartStep(k) =>
      With(t.(starts := t.starts + [StartRecord(k, w.launch, n)]), k, Printed(t.StreamsOf(k), n + 1, READY_LINE))
    case TerminateStep(k) =>
      Ended(w, t.(terminations := t.terminations + [TerminationRecord(k, TERMINATION_SIGNAL, n)]), k,
            Signaled(TERMINATION_SIGNAL), 2, n + 1)
    case EofStep(k) => Ended(w, With(t, k, Closed(t.StreamsOf(k), command)), k, Exited(0), 1, n + 1)
    case ActivateStep => t.(activations := t.activations + [RouteRecord(w.scenario.PeerCidr(), n)])
    case RestoreStep => t.(restorations := t.restorations + [RouteRecord(w.scenario.PeerCidr(), n)])
    case _ =>
      With(t, step.invocation, Spoken(t.StreamsOf(step.invocation), n, command, |InputText(w.plan, step)|,
                                      ExpectedLine(w.plan, step)))
  }

  function EventsIn(step: WorkloadStep): nat {
    if step.ActivateStep? || step.RestoreStep? then 1 else if PrintsLine(step) then 2 else 3
  }

  /** A live invocation in good order. */
  predicate Alive(t: Trace, k: nat, command: nat) {
    && Running(t, k) && !t.HasCleanedUp(k)
    && Speaking(t.StreamsOf(k), Texts(t.StreamsOf(k).stdout.lines), command)
    && |t.StreamsOf(k).stdout.lines| < 1024
  }

  /** What each step relies on. */
  predicate Ready(w: World, t: Trace, p: Program, command: nat, step: WorkloadStep)
    requires InPlan(step, w.plan)
  {
    match step
    case StartStep(k) =>
      && !t.Started(k) && !t.HasExited(k) && !t.HasTerminated(k) && !t.HasLaunchFailed(k) && k !in t.invocations
      && Current(t).None? && (LastStart(t).Some? ==> LastStart(t).value < k)
    case ActivateStep => t.activations == [] && t.restorations == []
    case RestoreStep => |t.activations| == 1 && t.restorations == []
    case TerminateStep(k) => Alive(t, k, command) && Current(t) == Some(k) && p.spawned
    case EofStep(k) => Alive(t, k, command) && Current(t) == Some(k) && !p.spawned
    case _ =>
      && Alive(t, step.invocation, command) && Current(t) == Some(step.invocation)
      && Prepared(w.plan, p, step, InOutage(t), w.Files())
  }

  // ---- Folding the replies ----------------------------------------------------------------

  lemma HealthyWhenTidy(t: Trace, k: nat, count: nat, command: nat)
    requires Running(t, k) && Tidy(t.StreamsOf(k), count, command)
    ensures Healthy(t, k) && !t.StdoutPending(k)
  {}

  lemma ExchangeFolds(t: Trace, k: nat, n: nat, command: nat, size: nat, line: Bytes)
    requires Alive(t, k, command) && 0 < size <= MAX_STDIN_FRAME_BYTES && NoNewline(line)
             && |line| <= MAX_RESPONSE_LINE_BYTES
    ensures var t1 := t.Push(EventFrame(PROTOCOL_VERSION, n, command,
                                        InputAccepted(k, t.StreamsOf(k).inputOffset + size, size, false),
                                          NO_DIAGNOSTICS));
            var t2 := t1.Push(EventFrame(PROTOCOL_VERSION, n + 1, command, PrintedLine(t, k, line), NO_DIAGNOSTICS));
            && t2 == With(t, k, Spoken(t.StreamsOf(k), n, command, size, line))
            && Prints(t1, t2, k, |t.StreamsOf(k).stdout.lines|, line) && Healthy(t, k)
  {
    hide InvocationStreams.PushOutput, InvocationStreams.PushInput, Unhex, Hex, Healthy;
    var s, count := t.StreamsOf(k), |t.StreamsOf(k).stdout.lines|;
    PushAcked(t, k, count, command, n, size);
    var t1 := With(t, k, Acked(s, n, command, size));
    assert t1.StreamsOf(k) == Acked(s, n, command, size);
    assert Running(t1, k) && Tidy(t1.StreamsOf(k), count, command + 1);
    assert PrintedLine(t1, k, line) == PrintedLine(t, k, line);
    PushPrintedUnder(t1, k, count, command + 1, command, n + 1, line);
    var t2 := With(t, k, Spoken(s, n, command, size, line));
    assert With(t1, k, Printed(t1.StreamsOf(k), n + 1, line)) == t2;
    SpokenSpeaks(s, Texts(s.stdout.lines), n, command, size, line);
    assert t2.StreamsOf(k) == Spoken(s, n, command, size, line) && Running(t2, k);
    HealthyWhenTidy(t, k, count, command);
    HealthyWhenTidy(t1, k, count, command + 1);
    HealthyWhenTidy(t2, k, count + 1, command + 1);
  }

  /** The command a frame is reported under plays no part in printing. */
  lemma PushPrintedUnder(t: Trace, k: nat, count: nat, command: nat, under: nat, n: nat, line: Bytes)
    requires Running(t, k) && Tidy(t.StreamsOf(k), count, command) && NoNewline(line)
             && |line| <= MAX_RESPONSE_LINE_BYTES
    ensures t.Push(EventFrame(PROTOCOL_VERSION, n, under, PrintedLine(t, k, line), NO_DIAGNOSTICS)) ==
            With(t, k, Printed(t.StreamsOf(k), n, line))
  {
    hide InvocationStreams.PushOutput, Unhex, Hex, Printed, Tidy;
    PushPrinted(t, k, count, command, n, line);
  }

  function FrameOf(n: nat, command: nat, event: Event): EventFrame {
    EventFrame(PROTOCOL_VERSION, n, command, event, NO_DIAGNOSTICS)
  }

  lemma StartFolds(w: World, t: Trace, k: nat, n: nat, command: nat)
    requires Ready(w, t, NEW_PROGRAM, command, StartStep(k))
    ensures var t1 := t.Push(FrameOf(n, command, WorkloadStarted(k, w.launch)));
            var t2 := t1.Push(FrameOf(n + 1, command, PrintedLine(t, k, READY_LINE)));
            t2 == TraceAfter(w, t, n, command, StartStep(k)) && Prints(t1, t2, k, 0, READY_LINE)
  {
    hide InvocationStreams.PushOutput, Unhex, Hex, Healthy, Tidy, LastStart, Current;
    var t1 := t.(starts := t.starts + [StartRecord(k, w.launch, n)]);
    assert t1.starts[|t.starts|].invocation == k;
    assert Running(t1, k) && t1.StreamsOf(k) == NO_STREAMS;
    FreshIsTidy(command);
    PushPrintedUnder(t1, k, 0, command, command, n + 1, READY_LINE);
    var t2 := With(t1, k, Printed(NO_STREAMS, n + 1, READY_LINE));
    assert t2.StreamsOf(k) == Printed(NO_STREAMS, n + 1, READY_LINE) && Running(t2, k);
    ReadySpeaks(n + 1, command);
    HealthyWhenTidy(t1, k, 0, command);
    HealthyWhenTidy(t2, k, 1, command);
  }

  lemma FreshIsTidy(command: nat)
    ensures Tidy(NO_STREAMS, 0, command)
  {}

  lemma ReadySpeaks(n: nat, command: nat)
    ensures Speaking(Printed(NO_STREAMS, n, READY_LINE), [READY_LINE], command)
            && Tidy(Printed(NO_STREAMS, n, READY_LINE), 1, command)
  {
    assert Texts(Printed(NO_STREAMS, n, READY_LINE).stdout.lines) == [READY_LINE];
  }

  /** The exit and its cleanup, after the invocation was killed or its input closed. */
  lemma EndFolds(w: World, t: Trace, k: nat, exit: ProcessExit, members: nat, n: nat, command: nat)
    requires members >= 1 && t.Started(k) && !t.HasExited(k) && !t.HasCleanedUp(k)
    ensures var t1 := t.Push(FrameOf(n, command, MatchingExit(t, k, exit, w.sha)));
            t1.Push(FrameOf(n + 1, command, CleanupComplete(k, members))) == Ended(w, t, k, exit, members, n)
  {
    var record := ExitOf(t, k, exit, n, w.sha);
    var t1 := t.(exits := t.exits + [record]);
    assert t1.exits[|t.exits|] == record;
    assert forall i | 0 <= i < |t.exits| :: t1.exits[i] == t.exits[i];
    assert !t1.ExitRecordedAfter(k, n + 1);
  }

  lemma KillFolds(w: World, t: Trace, k: nat, n: nat, command: nat)
    requires Alive(t, k, command)
    ensures var t1 := t.Push(FrameOf(n, command, TerminationRequested(k, TERMINATION_SIGNAL)));
            var t2 := t1.Push(FrameOf(n + 1, command, MatchingExit(t, k, Signaled(TERMINATION_SIGNAL), w.sha)));
            && t2.Push(FrameOf(n + 2, command, CleanupComplete(k, 2))) == TraceAfter(w, t, n, command, TerminateStep(k))
            && Quiet(t1, k, |t.StreamsOf(k).stdout.lines|) && Healthy(t, k)
  {
    hide Speaking, Tidy, Healthy;
    var t1 := t.(terminations := t.terminations + [TerminationRecord(k, TERMINATION_SIGNAL, n)]);
    var count := |t.StreamsOf(k).stdout.lines|;
    assert t1.StreamsOf(k) == t.StreamsOf(k);
    assert MatchingExit(t1, k, Signaled(TERMINATION_SIGNAL), w.sha) ==
           MatchingExit(t, k, Signaled(TERMINATION_SIGNAL), w.sha);
    EndFolds(w, t1, k, Signaled(TERMINATION_SIGNAL), 2, n + 1, command);
    AliveIsHealthy(t, k, command);
    SameHealth(t, t1, k);
  }

  lemma AliveIsHealthy(t: Trace, k: nat, command: nat)
    requires Alive(t, k, command)
    ensures Healthy(t, k) && !t.StdoutPending(k)
  {
    HealthyWhenTidy(t, k, |t.StreamsOf(k).stdout.lines|, command);
  }

  lemma SameHealth(t: Trace, u: Trace, k: nat)
    requires t.exits == u.exits && t.launchFailures == u.launchFailures && Healthy(t, k)
    requires t.StreamsOf(k).stderr == u.StreamsOf(k).stderr && t.StreamsOf(k).overBound == u.StreamsOf(k).overBound
    requires t.StreamsOf(k).overBoundSeen == u.StreamsOf(k).overBoundSeen
    ensures Healthy(u, k)
  {}

  lemma CloseOne(s: InvocationStreams, count: nat, command: nat, n: nat)
    requires Tidy(s, count, command)
    ensures s.PushInput(n, command, s.inputOffset, 0, true) == Closed(s, command)
  {}

  lemma CloseFolds(w: World, t: Trace, k: nat, n: nat, command: nat)
    requires Alive(t, k, command)
    ensures var t1 := t.Push(FrameOf(n, command, InputAccepted(k, t.StreamsOf(k).inputOffset, 0, true)));
            var t2 := t1.Push(FrameOf(n + 1, command, MatchingExit(t, k, Exited(0), w.sha)));
            && t2.Push(FrameOf(n + 2, command, CleanupComplete(k, 1))) == TraceAfter(w, t, n, command, EofStep(k))
            && Quiet(t1, k, |t.StreamsOf(k).stdout.lines|) && Healthy(t, k)
  {
    hide Tidy, Healthy, InvocationStreams.PushInput;
    var s := t.StreamsOf(k);
    CloseOne(s, |s.stdout.lines|, command, n);
    var t1 := With(t, k, Closed(s, command));
    assert t1.StreamsOf(k) == Closed(s, command);
    assert MatchingExit(t1, k, Exited(0), w.sha) == MatchingExit(t, k, Exited(0), w.sha);
    EndFolds(w, t1, k, Exited(0), 1, n + 1, command);
    AliveIsHealthy(t, k, command);
    SameHealth(t, t1, k);
  }

  // ---- Replies as frames ------------------------------------------------------------------

  lemma OneEvent(raw: seq<EventFrame>, e: Event, command: nat)
    ensures var reply := Framed([e], |raw| + 1, command);
            && |reply| == 1 && Continues(reply, raw, command) && reply[0].event == e
            && Fold(raw + reply) == Fold(raw).Push(FrameOf(|raw| + 1, command, e))
  {
    FoldSplits(raw, Framed([e], |raw| + 1, command));
    FoldOne(Fold(raw), e, |raw| + 1, command);
  }

  lemma TwoEvents(raw: seq<EventFrame>, e: Event, f: Event, command: nat)
    ensures var reply := Framed([e, f], |raw| + 1, command);
            && |reply| == 2 && Continues(reply, raw, command) && reply[0].event == e && reply[1].event == f
            && Fold(raw + reply[..1]) == Fold(raw).Push(FrameOf(|raw| + 1, command, e))
            && Fold(raw + reply) == Fold(raw + reply[..1]).Push(FrameOf(|raw| + 2, command, f))
  {
    hide Trace.Push, Fold, FoldOn;
    var n := |raw| + 1;
    var reply := Framed([e, f], n, command);
    assert reply[..1] == Framed([e], n, command);
    OneEvent(raw, e, command);
    FoldSplits(raw, reply);
    FoldTwo(Fold(raw), e, f, n, command);
  }

  lemma ThreeEvents(raw: seq<EventFrame>, e: Event, f: Event, g: Event, command: nat)
    ensures var reply := Framed([e, f, g], |raw| + 1, command);
            && |reply| == 3 && Continues(reply, raw, command)
            && reply[0].event == e && reply[1].event == f && reply[2].event == g
            && Fold(raw + reply[..1]) == Fold(raw).Push(FrameOf(|raw| + 1, command, e))
            && Fold(raw + reply) == Fold(raw + reply[..1]).Push(FrameOf(|raw| + 2, command, f)).Push(FrameOf(|raw| + 3,
                command, g))
  {
    hide Trace.Push, FoldOn;
    var n := |raw| + 1;
    var reply := Framed([e, f, g], n, command);
    assert reply[..2] == Framed([e, f], n, command) && reply[..1] == Framed([e, f], n, command)[..1];
    TwoEvents(raw, e, f, command);
    assert raw + reply == (raw + reply[..2]) + [FrameOf(n + 2, command, g)];
    FoldLast(raw + reply[..2], FrameOf(n + 2, command, g));
  }

  lemma FoldLast(raw: seq<EventFrame>, frame: EventFrame)
    ensures Fold(raw + [frame]) == Fold(raw).Push(frame)
  {
    assert (raw + [frame])[..|raw|] == raw;
  }

  // ---- Each reply --------------------------------------------------------------------------------

  /** The reply goes smoothly and makes of the trace what the step says. */
  predicate StepHolds(w: World, raw: seq<EventFrame>, events: seq<Event>, command: nat, step: WorkloadStep, offset: nat,
                      count: nat)
    requires InPlan(step, w.plan)
  {
    var reply := Framed(events, |raw| + 1, command);
    && Smooth(raw, reply, command, w.scenario, w.plan, step, offset, count)
    && Fold(raw + reply) == TraceAfter(w, Fold(raw), |raw| + 1, command, step)
    && |events| == EventsIn(step)
  }

  lemma InputHolds(w: World, raw: seq<EventFrame>, p: Program, command: nat, step: WorkloadStep)
    requires w.Valid() && IsInput(step) && Scheduled(step, w.plan) && Ready(w, Fold(raw), p, command, step)
    ensures var t, k := Fold(raw), step.invocation;
            var s, size := t.StreamsOf(k), |InputText(w.plan, step)|;
            StepHolds(w, raw, [InputAccepted(k, s.inputOffset + size, size, false),
                               PrintedLine(t, k, ExpectedLine(w.plan, step))],
                      command, step, s.inputOffset, |s.stdout.lines|)
  {
    hide Trace.Push, InputText, ExpectedLine, Spoken, Healthy, Fold, PrintedLine, Continues, Prints, Framed, Prepared,
         Current, Smooth, TraceAfter, Alive, World.Files, WorkloadScenario.Valid, WorkloadChoicePlan.Valid;
    var t, k := Fold(raw), step.invocation;
    var s := t.StreamsOf(k);
    var text, line := InputText(w.plan, step), ExpectedLine(w.plan, step);
    TextFits(w.plan, step);
    LineIsShort(w.plan, step);
    ExchangeFolds(t, k, |raw| + 1, command, |text|, line);
    var e, f := InputAccepted(k, s.inputOffset + |text|, |text|, false), PrintedLine(t, k, line);
    TwoEvents(raw, e, f, command);
    InputIsSmooth(w, raw, Framed([e, f], |raw| + 1, command), command, step, s.inputOffset, |s.stdout.lines|);
    InputTrace(w, t, |raw| + 1, command, step);
  }

  lemma InputIsSmooth(w: World, raw: seq<EventFrame>, reply: seq<EventFrame>, command: nat, step: WorkloadStep,
                      offset: nat, count: nat)
    requires IsInput(step) && InPlan(step, w.plan) && Continues(reply, raw, command) && |reply| == 2
    requires Healthy(Fold(raw), step.invocation)
    requires var size := |InputText(w.plan, step)|;
             reply[0].event == InputAccepted(step.invocation, offset + size, size, false)
    requires Prints(Fold(raw + reply[..1]), Fold(raw + reply), step.invocation, count, ExpectedLine(w.plan, step))
    ensures Smooth(raw, reply, command, w.scenario, w.plan, step, offset, count)
  {
    hide Continues, Healthy, Fold, Prints, InputText, ExpectedLine;
  }

  lemma InputTrace(w: World, t: Trace, n: nat, command: nat, step: WorkloadStep)
    requires IsInput(step) && InPlan(step, w.plan)
    ensures TraceAfter(w, t, n, command, step) ==
            With(t, step.invocation, Spoken(t.StreamsOf(step.invocation), n, command, |InputText(w.plan, step)|,
                                            ExpectedLine(w.plan, step)))
  {
    hide InputText, ExpectedLine, Spoken;
  }

  lemma StartHolds(w: World, raw: seq<EventFrame>, p: Program, command: nat, k: nat)
    requires w.Valid() && Ready(w, Fold(raw), p, command, StartStep(k))
    ensures StepHolds(w, raw, [WorkloadStarted(k, w.launch), PrintedLine(Fold(raw), k, READY_LINE)], command,
                      StartStep(k), 0, 0)
  {
    hide Trace.Push, Healthy, Fold, PrintedLine, Continues, Prints, TraceAfter, Framed;
    var t := Fold(raw);
    StartFolds(w, t, k, |raw| + 1, command);
    TwoEvents(raw, WorkloadStarted(k, w.launch), PrintedLine(t, k, READY_LINE), command);
  }

  lemma KillHolds(w: World, raw: seq<EventFrame>, p: Program, command: nat, k: nat)
    requires w.Valid() && Ready(w, Fold(raw), p, command, TerminateStep(k))
    ensures var s := Fold(raw).StreamsOf(k);
            StepHolds(w, raw, [TerminationRequested(k, TERMINATION_SIGNAL)]
                              + [MatchingExit(Fold(raw), k, Signaled(TERMINATION_SIGNAL), w.sha),
                                 CleanupComplete(k, 2)],
                      command, TerminateStep(k), s.inputOffset, |s.stdout.lines|)
  {
    hide Trace.Push, Healthy, Fold, Continues, Quiet, TraceAfter, Framed, Alive, Trace.StreamsOf;
    var t := Fold(raw);
    var a, b, c := TerminationRequested(k, TERMINATION_SIGNAL), MatchingExit(t, k, Signaled(TERMINATION_SIGNAL), w.sha),
      CleanupComplete(k, 2);
    KillFolds(w, t, k, |raw| + 1, command);
    ThreeEvents(raw, a, b, c, command);
    assert [a] + [b, c] == [a, b, c];
  }

  lemma CloseHolds(w: World, raw: seq<EventFrame>, p: Program, command: nat, k: nat)
    requires w.Valid() && Ready(w, Fold(raw), p, command, EofStep(k))
    ensures var s := Fold(raw).StreamsOf(k);
            StepHolds(w, raw, [InputAccepted(k, s.inputOffset, 0, true)]
                              + [MatchingExit(Fold(raw), k, Exited(0), w.sha), CleanupComplete(k, 1)],
                      command, EofStep(k), s.inputOffset, |s.stdout.lines|)
  {
    hide Trace.Push, Healthy, Fold, Continues, Quiet, TraceAfter, Framed, Alive, Trace.StreamsOf;
    var t := Fold(raw);
    var a, b, c := InputAccepted(k, t.StreamsOf(k).inputOffset, 0, true), MatchingExit(t, k, Exited(0), w.sha),
      CleanupComplete(k, 1);
    CloseFolds(w, t, k, |raw| + 1, command);
    ThreeEvents(raw, a, b, c, command);
    assert [a] + [b, c] == [a, b, c];
  }

  lemma SwitchHolds(w: World, raw: seq<EventFrame>, p: Program, command: nat, step: WorkloadStep, offset: nat,
                    count: nat)
    requires w.Valid() && (step.ActivateStep? || step.RestoreStep?) && Ready(w, Fold(raw), p, command, step)
    ensures var events := HonestGuest.AgentEvents(StepCommand(w.scenario, w.plan, w.launch, step, offset));
            StepHolds(w, raw, events, command, step, offset, count)
  {
    hide Fold, Continues, Framed;
    var peer := w.scenario.PeerCidr();
    OneEvent(raw, if step.ActivateStep? then OutageActivated(peer, ProhibitRule(peer)) else NetworkRestored(peer),
             command);
  }

  // ---- Agreement after each reply ------------------------------------------------------------------

  lemma {:induction false} NothingNamed(steps: seq<Machine.Step>)
    requires forall i | 0 <= i < |steps| :: !steps[i].Begin? && !steps[i].Refuse?
    ensures Named(steps) == {}
    decreases |steps|
  {
    if steps != [] { NothingNamed(steps[1..]); }
  }

  /** Commands for the runtime: the steps of the machine carry the agreement over. */
  lemma AgreesAfter(w: World, g: HonestGuest.Guest, t: Trace, id: nat, n: nat, command: Command, events: seq<Event>,
                    r': Machine.Runtime, t': Trace)
    requires id >= 1 && InAgreement(g, t, id - 1, w.sha)
             && Does(g, command, w.Files(), w.sha, t, id - 1, id, events, r')
    requires t' == FoldOn(t, Framed(events, n, id)) && Mirrors(r', t') && InOutage(t') == InOutage(t)
    requires StartedIn(t') == StartedIn(t) + Named(HonestGuest.StepsFor(g, command, w.Files()))
    requires !command.ActivateOutage? && !command.RestoreNetwork?
    ensures InAgreement(HonestGuest.GuestAfter(g, command, w.Files(), w.sha), t', id, w.sha)
  {
    hide Refinement.Simulates, Machine.Orderly, FoldOn, Framed, Mirrors, HonestGuest.StepsFor, HonestGuest.Perform,
         Polished, InOutage, Named, StartedIn;
    PerformSimulates(g.runtime, t, HonestGuest.StepsFor(g, command, w.Files()), n, id, StartedIn(t), id - 1, w.sha);
  }

  lemma FoldedOn(raw: seq<EventFrame>, events: seq<Event>, command: nat)
    ensures Fold(raw + Framed(events, |raw| + 1, command)) == FoldOn(Fold(raw), Framed(events, |raw| + 1, command))
  {
    FoldSplits(raw, Framed(events, |raw| + 1, command));
  }

  /** What one command leads to: the reply holds, and guest and trace still agree. */
  predicate Carries(w: World, raw: seq<EventFrame>, g: HonestGuest.Guest, id: nat, step: WorkloadStep, offset: nat,
                    count: nat)
    requires InPlan(step, w.plan)
  {
    var command := StepCommand(w.scenario, w.plan, w.launch, step, offset);
    var g' := HonestGuest.GuestAfter(g, command, w.Files(), w.sha);
    && StepHolds(w, raw, HonestGuest.Reply(g, command, w.Files(), w.sha), id, step, offset, count)
    && InAgreement(g', TraceAfter(w, Fold(raw), |raw| + 1, id, step), id, w.sha)
    && g'.program == ProgramAfter(g.program, step)
  }

  lemma StartCarries(w: World, raw: seq<EventFrame>, g: HonestGuest.Guest, id: nat, k: nat, offset: nat)
    requires w.Valid() && id >= 1 && InAgreement(g, Fold(raw), id - 1, w.sha)
             && Ready(w, Fold(raw), g.program, id, StartStep(k))
    ensures Carries(w, raw, g, id, StartStep(k), 0, 0)
  {
    hide Fold, FoldOn, Framed, HonestGuest.Perform, Polished, InAgreement, StepHolds, PrintedLine, Printed, Serving;
    var t, command := Fold(raw), Start(k, w.launch);
    var t' := TraceAfter(w, t, |raw| + 1, id, StartStep(k));
    var events := [WorkloadStarted(k, w.launch), PrintedLine(t, k, READY_LINE)];
    StartHolds(w, raw, g.program, id, k);
    StepHoldsMeans(w, raw, events, id, StartStep(k), 0, 0);
    assert k !in StartedIn(t);
    var r' := StartReports(g, t, id - 1, w.sha, w.Files(), k, w.launch, id);
    assert [] + events == events;
    FoldedOn(raw, events, id);
    var steps := HonestGuest.StepsFor(g, command, w.Files());
    assert steps[1..] == [steps[1]];
    NothingNamed(steps[1..]);
    assert Named(steps) == {k} + Named(steps[1..]);
    StartedGrows(t, t', StartRecord(k, w.launch, |raw| + 1));
    assert t'.exits == t.exits && LastStart(t') == Some(k);
    AgreesAfter(w, g, t, id, |raw| + 1, command, events, r', t');
  }

  lemma StepHoldsMeans(w: World, raw: seq<EventFrame>, events: seq<Event>, id: nat, step: WorkloadStep, offset: nat,
                       count: nat)
    requires InPlan(step, w.plan) && StepHolds(w, raw, events, id, step, offset, count)
    ensures Fold(raw + Framed(events, |raw| + 1, id)) == TraceAfter(w, Fold(raw), |raw| + 1, id, step)
  {}

  lemma StartedGrows(t: Trace, t': Trace, record: StartRecord)
    requires t'.starts == t.starts + [record]
    ensures StartedIn(t') == StartedIn(t) + {record.invocation}
  {
    assert forall i | 0 <= i < |t.starts| :: t'.starts[i] == t.starts[i];
    assert t'.starts[|t.starts|] == record;
    forall k | k in StartedIn(t) ensures k in StartedIn(t') {
      var i :| 0 <= i < |t.starts| && t.starts[i].invocation == k;
      assert t'.starts[i].invocation == k;
    }
  }

  /** The guest takes the line and prints the expected one. */
  lemma InputReplies(w: World, t: Trace, g: HonestGuest.Guest, id: nat, step: WorkloadStep)
    returns (r': Machine.Runtime)
    requires w.Valid() && id >= 1 && IsInput(step) && Scheduled(step, w.plan)
    requires InAgreement(g, t, id - 1, w.sha) && Ready(w, t, g.program, id, step)
    ensures var s, size := t.StreamsOf(step.invocation), |InputText(w.plan, step)|;
            var command := StepCommand(w.scenario, w.plan, w.launch, step, s.inputOffset);
            && Does(g, command, w.Files(), w.sha, t, id - 1, id,
                    [InputAccepted(step.invocation, s.inputOffset + size, size, false),
                     PrintedLine(t, step.invocation, ExpectedLine(w.plan, step))], r')
            && HonestGuest.LineOf(g, command) == Some(CommandLine(w.plan, step)) && command.StdinWrite?
    ensures r'.active.Some? && r'.active.value.id == step.invocation && Serving(r'.active.value)
    ensures r'.last == g.runtime.last && r'.pendingRemoval.None?
  {
    hide InAgreement, PrintedLine, Serving, Speaking, CommandLine, InputText, ExpectedLine, Hex, Does, Running,
         Prepared, StepCommand, World.Files, WorkloadScenario.Valid, WorkloadChoicePlan.Valid, Respond,
         HonestGuest.LineOf;
    var k := step.invocation;
    var s := t.StreamsOf(k);
    InputCommand(w, step, s.inputOffset);
    var line, out := CommandLine(w.plan, step), ExpectedLine(w.plan, step);
    TextFits(w.plan, step);
    InputIsALine(w.plan, step);
    LineIsShort(w.plan, step);
    AgreesOnOutage(g, t, id - 1, w.sha);
    RespondsAsPlanned(w.plan, g.program, step, g.outage, w.Files());
    r' := InputReports(g, t, id - 1, w.sha, w.Files(), k, Texts(s.stdout.lines), line, out, id);
  }

  lemma InputCarries(w: World, raw: seq<EventFrame>, g: HonestGuest.Guest, id: nat, step: WorkloadStep)
    requires w.Valid() && id >= 1 && IsInput(step) && Scheduled(step, w.plan)
    requires InAgreement(g, Fold(raw), id - 1, w.sha) && Ready(w, Fold(raw), g.program, id, step)
    ensures var s := Fold(raw).StreamsOf(step.invocation);
            Carries(w, raw, g, id, step, s.inputOffset, |s.stdout.lines|)
  {
    hide Fold, FoldOn, Framed, HonestGuest.Perform, Polished, InAgreement, StepHolds, PrintedLine, Spoken, Serving,
         CommandLine, InputText, ExpectedLine, HonestGuest.StepsFor, Running, Prepared, StepCommand, World.Files, Alive,
         WorkloadScenario.Valid, WorkloadChoicePlan.Valid, AfterLine, ProgramAfter, HonestGuest.LineOf;
    var t, k := Fold(raw), step.invocation;
    var s, t' := t.StreamsOf(k), TraceAfter(w, t, |raw| + 1, id, step);
    var size := |InputText(w.plan, step)|;
    InputHolds(w, raw, g.program, id, step);
    AgreesOnOutage(g, t, id - 1, w.sha);
    StepsReachProgram(g.program, w.plan, step);
    var command := StepCommand(w.scenario, w.plan, w.launch, step, s.inputOffset);
    var events := [InputAccepted(k, s.inputOffset + size, size, false), PrintedLine(t, k, ExpectedLine(w.plan, step))];
    StepHoldsMeans(w, raw, events, id, step, s.inputOffset, |s.stdout.lines|);
    var r' := InputReplies(w, t, g, id, step);
    assert [] + events == events;
    FoldedOn(raw, events, id);
    InputNames(g, command, w.Files());
    AgreesAfter(w, g, t, id, |raw| + 1, command, events, r', t');
  }

  lemma InputCommand(w: World, step: WorkloadStep, offset: nat)
    requires IsInput(step) && InPlan(step, w.plan)
    ensures StepCommand(w.scenario, w.plan, w.launch, step, offset) ==
            StdinWrite(step.invocation, offset, Hex(CommandLine(w.plan, step) + "\n"))
  {
    hide CommandLine, InputText, Hex;
    InputIsALine(w.plan, step);
  }

  lemma AgreesOnOutage(g: HonestGuest.Guest, t: Trace, lastInput: nat, sha: string -> string)
    requires InAgreement(g, t, lastInput, sha)
    ensures g.outage == InOutage(t) && g.runtime.last == LastStart(t)
  {}

  lemma InputNames(g: HonestGuest.Guest, command: Command, served: map<string, string>)
    requires !command.Start?
    ensures Named(HonestGuest.StepsFor(g, command, served)) == {}
  {
    hide Unhex, Respond;
    NothingNamed(HonestGuest.StepsFor(g, command, served));
  }

  lemma EndCarries(w: World, raw: seq<EventFrame>, g: HonestGuest.Guest, id: nat, step: WorkloadStep)
    requires w.Valid() && id >= 1 && (step.TerminateStep? || step.EofStep?) && Scheduled(step, w.plan)
    requires InAgreement(g, Fold(raw), id - 1, w.sha) && Ready(w, Fold(raw), g.program, id, step)
    ensures var s := Fold(raw).StreamsOf(step.invocation);
            Carries(w, raw, g, id, step, s.inputOffset, |s.stdout.lines|)
  {
    hide Fold, FoldOn, Framed, HonestGuest.Perform, Polished, InAgreement, StepHolds, MatchingExit, Speaking, Running,
         HonestGuest.StepsFor, Closed;
    var t, k := Fold(raw), step.invocation;
    var s, t' := t.StreamsOf(k), TraceAfter(w, t, |raw| + 1, id, step);
    var command := if step.TerminateStep? then Terminate(k) else StdinEof(k);
    var events, r';
    AgreesOnOutage(g, t, id - 1, w.sha);
    if step.TerminateStep? {
      KillHolds(w, raw, g.program, id, k);
      r' := KillReports(g, t, id - 1, w.sha, w.Files(), k, Texts(s.stdout.lines), id);
      events := [TerminationRequested(k, TERMINATION_SIGNAL)]
        + [MatchingExit(t, k, Signaled(TERMINATION_SIGNAL), w.sha), CleanupComplete(k, 2)];
    } else {
      CloseHolds(w, raw, g.program, id, k);
      r' := CloseReports(g, t, id - 1, w.sha, w.Files(), k, Texts(s.stdout.lines), id);
      events := [InputAccepted(k, s.inputOffset, 0, true)]
        + [MatchingExit(t, k, Exited(0), w.sha), CleanupComplete(k, 1)];
    }
    StepHoldsMeans(w, raw, events, id, step, s.inputOffset, |s.stdout.lines|);
    assert [] + events == events;
    FoldedOn(raw, events, id);
    InputNames(g, command, w.Files());
    assert t'.exits[|t.exits|].invocation == k && t'.starts == t.starts;
    assert Current(t').None? && LastStart(t') == LastStart(t);
    AgreesAfter(w, g, t, id, |raw| + 1, command, events, r', t');
  }

  /** The network's switches do not concern the runtime. */
  lemma SwitchCarries(w: World, raw: seq<EventFrame>, g: HonestGuest.Guest, id: nat, step: WorkloadStep, offset: nat,
                      count: nat)
    requires w.Valid() && id >= 1 && (step.ActivateStep? || step.RestoreStep?)
    requires InAgreement(g, Fold(raw), id - 1, w.sha) && Ready(w, Fold(raw), g.program, id, step)
    ensures Carries(w, raw, g, id, step, offset, count)
  {
    hide Fold, StepHolds, Refinement.KnownOnly, Refinement.Bounded, Refinement.TotalsMatch, Refinement.StreamsAgree;
    var t := Fold(raw);
    var t' := TraceAfter(w, t, |raw| + 1, id, step);
    var command := StepCommand(w.scenario, w.plan, w.launch, step, offset);
    SwitchHolds(w, raw, g.program, id, step, offset, count);
    assert HonestGuest.AgentEvents(command) + [] == HonestGuest.AgentEvents(command);
    LaterInput(g.runtime, t, StartedIn(t), id - 1, id, w.sha);
    assert StartedIn(t') == StartedIn(t) && LastStart(t') == LastStart(t) && Current(t') == Current(t);
    Refinement.NetworkSimulates(g.runtime, t, t', StartedIn(t), id, w.sha);
  }

  // ---- The view along an honest run ----------------------------------------------------------

  predicate Addressed(step: WorkloadStep) {
    step.ActivateStep? || step.RestoreStep? || 1 <= step.invocation
  }

  /** Whatever the step, the honest reply is the one hoped for, has its explicit effect, and leaves guest
      and trace in agreement. */
  lemma EveryStepCarries(w: World, raw: seq<EventFrame>, g: HonestGuest.Guest, id: nat, step: WorkloadStep, offset: nat,
                         count: nat)
    requires w.Valid() && id >= 1 && Scheduled(step, w.plan) && Addressed(step)
    requires InAgreement(g, Fold(raw), id - 1, w.sha) && Ready(w, Fold(raw), g.program, id, step)
    requires var s := Fold(raw).StreamsOf(Subject(step)); offset == s.inputOffset && count == |s.stdout.lines|
    ensures Carries(w, raw, g, id, step, offset, count)
  {
    hide Fold, InAgreement, Carries;
    match step
    case StartStep(k) => StartCarries(w, raw, g, id, k, offset);
    case TerminateStep(_) => EndCarries(w, raw, g, id, step);
    case EofStep(_) => EndCarries(w, raw, g, id, step);
    case ActivateStep => SwitchCarries(w, raw, g, id, step, offset, count);
    case RestoreStep => SwitchCarries(w, raw, g, id, step, offset, count);
    case _ => InputCarries(w, raw, g, id, step);
  }

  /** The driver's counters agree with the trace. */
  predicate Matches(view: View, offsets: map<nat, nat>, t: Trace, k: nat) {
    view.Count(k) == |t.StreamsOf(k).stdout.lines| && OffsetIn(offsets, k) == t.StreamsOf(k).inputOffset
  }

  /** Driver, guest and trace between two commands. */
  ghost predicate InStep(w: World, view: View, offsets: map<nat, nat>) {
    && view.queue == [] && view.raw == HonestGuest.HonestRun(view.sent, w.Files(), w.sha)
    && (forall k :: Matches(view, offsets, Fold(view.raw), k))
    && InAgreement(GuestOf(w, view), Fold(view.raw), |view.sent|, w.sha)
  }

  function GuestOf(w: World, view: View): HonestGuest.Guest {
    HonestGuest.Stands(view.sent, w.Files(), w.sha)
  }

  lemma NextReply(w: World, sent: seq<CommandFrame>, command: Command)
    ensures var before, g := HonestGuest.HonestRun(sent, w.Files(), w.sha), HonestGuest.Stands(sent, w.Files(), w.sha);
            var reply := Framed(HonestGuest.Reply(g, command, w.Files(), w.sha), |before| + 1, |sent| + 1);
            && HonestGuest.HonestReply(Sent(sent, command), w.Files(), w.sha) == reply
            && HonestGuest.HonestRun(Sent(sent, command), w.Files(), w.sha) == before + reply
            && HonestGuest.Stands(Sent(sent, command), w.Files(), w.sha) ==
               HonestGuest.GuestAfter(g, command, w.Files(), w.sha)
  {
    hide HonestGuest.Reply, HonestGuest.GuestAfter, Fold, Framed, World.Files;
    var all := Sent(sent, command);
    assert all[..|all| - 1] == sent;
  }

  /** A step moves the driver's counters as it moves the trace. */
  lemma CountersMove(w: World, t: Trace, n: nat, command: nat, step: WorkloadStep, view: View, view': View,
                     offsets: map<nat, nat>, k: nat)
    requires InPlan(step, w.plan) && Matches(view, offsets, t, k)
    requires view'.consumed == if PrintsLine(step) then view.consumed[Subject(step) := view.Count(Subject(step)) + 1]
             else view.consumed
    ensures Matches(view', Advanced(offsets, w.plan, step), TraceAfter(w, t, n, command, step), k)
  {
    hide InputText, ExpectedLine;
  }

  /** The honest run stays in step with the driver. */
  lemma StepKeepsInStep(w: World, view: View, offsets: map<nat, nat>, step: WorkloadStep) returns (view': View)
    requires w.Valid() && Scheduled(step, w.plan) && Addressed(step)
    requires InStep(w, view, offsets) && Ready(w, Fold(view.raw), GuestOf(w, view).program, |view.sent| + 1, step)
    ensures var command := StepCommand(w.scenario, w.plan, w.launch, step, OffsetIn(offsets, Subject(step)));
            var reply := HonestGuest.HonestReply(Sent(view.sent, command), w.Files(), w.sha);
            && view' == view.Took(command, reply, step)
            && Smooth(view.raw, reply, |view.sent| + 1, w.scenario, w.plan, step, OffsetIn(offsets, Subject(step)),
                      view.Count(Subject(step)))
    ensures InStep(w, view', Advanced(offsets, w.plan, step))
    ensures Fold(view'.raw) == TraceAfter(w, Fold(view.raw), |view.raw| + 1, |view.sent| + 1, step)
    ensures GuestOf(w, view').program == ProgramAfter(GuestOf(w, view).program, step)
    ensures |view'.raw| == |view.raw| + EventsIn(step) && |view'.sent| == |view.sent| + 1
  {
    hide Fold, HonestGuest.Reply, Smooth, Ready, TraceAfter, HonestGuest.HonestReply, HonestGuest.HonestRun,
         HonestGuest.Stands, HonestGuest.GuestAfter, StepCommand, Advanced, InAgreement, World.Files, ProgramAfter;
    var k := Subject(step);
    assert Matches(view, offsets, Fold(view.raw), k);
    var offset, count := OffsetIn(offsets, k), view.Count(k);
    var command := StepCommand(w.scenario, w.plan, w.launch, step, offset);
    NextReply(w, view.sent, command);
    EveryStepCarries(w, view.raw, GuestOf(w, view), |view.sent| + 1, step, offset, count);
    view' := view.Took(command, HonestGuest.HonestReply(Sent(view.sent, command), w.Files(), w.sha), step);
    forall j ensures Matches(view', Advanced(offsets, w.plan, step), Fold(view'.raw), j) {
      assert Matches(view, offsets, Fold(view.raw), j);
      CountersMove(w, Fold(view.raw), |view.raw| + 1, |view.sent| + 1, step, view, view', offsets, j);
    }
  }
}
