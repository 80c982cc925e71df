/** The whole schedule against the honest guest, and what the checker makes of it. */
module Completeness {
  import opened Protocol
  import opened Traces
  import opened Scenarios
  import opened Checker
  import opened Driver
  import opened Driving
  import opened Fixture
  import opened Conversation
  import opened Mirror
  import opened Honesty

  /** A point of the run: the trace, the numbers of the next event and the next command, and what the
      program remembers. */
  datatype Moment = Moment(trace: Trace, n: nat, command: nat, program: Program)

  function Next(w: World, m: Moment, step: WorkloadStep): Moment
    requires InPlan(step, w.plan)
  {
    Moment(TraceAfter(w, m.trace, m.n, m.command, step), m.n + EventsIn(step), m.command + 1,
           ProgramAfter(m.program, step))
  }

  predicate IsReady(w: World, m: Moment, step: WorkloadStep)
    requires InPlan(step, w.plan)
  {
    Ready(w, m.trace, m.program, m.command, step)
  }

  // ---- The two lives of the workload ------------------------------------------------------

  predicate Undisturbed(t: Trace) {
    t.launchFailures == [] && t.violations == [] && t.configured == Some(ConfiguredRecord(FIXTURE_PEER, 1))
  }

  /** The first invocation lives and has printed `texts`. */
  predicate First(w: World, m: Moment, texts: seq<string>) {
    var t := m.trace;
    && Undisturbed(t) && m.n >= 4 && |texts| >= 1
    && t.starts == [StartRecord(1, w.launch, 2)] && t.exits == [] && t.terminations == [] && t.cleanups == []
    && t.invocations.Keys == {1} && Speaking(t.StreamsOf(1), texts, m.command)
    && t.StreamsOf(1).stdout.lines[|texts| - 1].eventId < m.n
  }

  /** The first invocation printed `texts`, was killed, reaped and cleaned up right before event `e`. */
  predicate Over(w: World, t: Trace, texts: seq<string>, e: nat, command: nat) {
    && Undisturbed(t) && e >= 7
    && t.terminations == [TerminationRecord(1, TERMINATION_SIGNAL, e - 3)]
    && |t.exits| >= 1 && t.exits[0] == ExitOf(t, 1, Signaled(TERMINATION_SIGNAL), e - 2, w.sha)
    && |t.cleanups| >= 1 && t.cleanups[0] == CleanupRecord(1, 2, e - 1)
    && Speaking(t.StreamsOf(1), texts, command)
    && t.StreamsOf(1).stdout.lines[|texts| - 1].eventId < e - 3
  }

  predicate Dead(w: World, m: Moment, texts: seq<string>) {
    var t := m.trace;
    && |texts| >= 1 && Over(w, t, texts, m.n, m.command)
    && t.starts == [StartRecord(1, w.launch, 2)] && |t.exits| == 1 && |t.cleanups| == 1 && t.invocations.Keys == {1}
  }

  /** The second invocation, started in event `e`, lives and has printed `more`. */
  predicate Second(w: World, m: Moment, texts: seq<string>, e: nat, more: seq<string>) {
    var t := m.trace;
    && |texts| >= 1 && |more| >= 1 && Over(w, t, texts, e, m.command)
    && t.starts == [StartRecord(1, w.launch, 2), StartRecord(2, w.launch, e)] && |t.exits| == 1 && |t.cleanups| == 1
    && t.invocations.Keys == {1, 2} && Speaking(t.StreamsOf(2), more, m.command)
    && m.n >= e + 2 && (if |more| == 1 then m.n == e + 2 else t.StreamsOf(2).stdout.lines[1].eventId == e + 3)
  }

  lemma FirstIsAlive(w: World, m: Moment, texts: seq<string>)
    requires First(w, m, texts) && |texts| < 1024
    ensures Alive(m.trace, 1, m.command) && Current(m.trace) == Some(1)
  {
    assert m.trace.starts[0].invocation == 1;
  }

  lemma SecondIsAlive(w: World, m: Moment, texts: seq<string>, e: nat, more: seq<string>)
    requires Second(w, m, texts, e, more) && |more| < 1024
    ensures Alive(m.trace, 2, m.command) && Current(m.trace) == Some(2)
  {
    assert m.trace.starts[1].invocation == 2;
  }

  predicate Talks(w: World, m: Moment, step: WorkloadStep, k: nat) {
    && w.Valid() && IsInput(step) && Scheduled(step, w.plan) && step.invocation == k
    && Prepared(w.plan, m.program, step, InOutage(m.trace), w.Files())
  }

  lemma FirstTalks(w: World, m: Moment, texts: seq<string>, step: WorkloadStep)
    requires First(w, m, texts) && |texts| < 1023 && Talks(w, m, step, 1)
    ensures IsReady(w, m, step) && First(w, Next(w, m, step), texts + [ExpectedLine(w.plan, step)])
  {
    hide ExpectedLine, InputText, Hex, Unhex, Prepared, World.Files;
    FirstIsAlive(w, m, texts);
    LineIsShort(w.plan, step);
    TextFits(w.plan, step);
    SpokenSpeaks(m.trace.StreamsOf(1), texts, m.n, m.command, |InputText(w.plan, step)|, ExpectedLine(w.plan, step));
  }

  lemma SecondTalks(w: World, m: Moment, texts: seq<string>, e: nat, more: seq<string>, step: WorkloadStep)
    requires Second(w, m, texts, e, more) && |more| < 1023 && Talks(w, m, step, 2)
    ensures IsReady(w, m, step) && Second(w, Next(w, m, step), texts, e, more + [ExpectedLine(w.plan, step)])
  {
    hide ExpectedLine, InputText, Hex, Unhex, Prepared, World.Files;
    SecondIsAlive(w, m, texts, e, more);
    LineIsShort(w.plan, step);
    TextFits(w.plan, step);
    LaterCommand(m.trace.StreamsOf(1), texts, m.command, m.command + 1);
    SpokenSpeaks(m.trace.StreamsOf(2), more, m.n, m.command, |InputText(w.plan, step)|, ExpectedLine(w.plan, step));
  }

  const START := Moment(EMPTY_TRACE.(configured := Some(ConfiguredRecord(FIXTURE_PEER, 1))), 2, 2, NEW_PROGRAM)

  lemma FirstStarts(w: World)
    requires w.Valid()
    ensures IsReady(w, START, StartStep(1)) && First(w, Next(w, START, StartStep(1)), [READY_LINE])
  {
    hide Speaking;
    ReadySpeaks(3, 3);
  }

  lemma FirstDies(w: World, m: Moment, texts: seq<string>)
    requires w.Valid() && First(w, m, texts) && |texts| < 1024 && m.program.spawned
    ensures IsReady(w, m, TerminateStep(1)) && Dead(w, Next(w, m, TerminateStep(1)), texts)
  {
    hide Speaking;
    FirstIsAlive(w, m, texts);
    LaterCommand(m.trace.StreamsOf(1), texts, m.command, m.command + 1);
  }

  lemma SecondStarts(w: World, m: Moment, texts: seq<string>)
    requires w.Valid() && Dead(w, m, texts)
    ensures IsReady(w, m, StartStep(2)) && Second(w, Next(w, m, StartStep(2)), texts, m.n, [READY_LINE])
  {
    hide Speaking, Printed;
    ReadySpeaks(m.n + 1, m.command + 1);
    LaterCommand(m.trace.StreamsOf(1), texts, m.command, m.command + 1);
  }

  predicate IsSwitch(step: WorkloadStep) {
    step.ActivateStep? || step.RestoreStep?
  }

  lemma FirstSwitches(w: World, m: Moment, texts: seq<string>, step: WorkloadStep)
    requires First(w, m, texts) && IsSwitch(step)
    ensures First(w, Next(w, m, step), texts)
  {
    hide Speaking;
    LaterCommand(m.trace.StreamsOf(1), texts, m.command, m.command + 1);
  }

  lemma SecondSwitches(w: World, m: Moment, texts: seq<string>, e: nat, more: seq<string>, step: WorkloadStep)
    requires Second(w, m, texts, e, more) && |more| > 1 && IsSwitch(step)
    ensures Second(w, Next(w, m, step), texts, e, more)
  {
    LaterCommand(m.trace.StreamsOf(1), texts, m.command, m.command + 1);
    LaterCommand(m.trace.StreamsOf(2), more, m.command, m.command + 1);
  }

  // ---- The network fault ----------------------------------------------------------------------

  /** The place of a request's answer among its invocation's lines. */
  function Position(plan: WorkloadChoicePlan, index: nat): nat {
    3 + if index < plan.faultIndex then index else index - plan.faultIndex
  }

  /** The request is answered two events after `e`, and acknowledged in between. */
  predicate AnsweredAfter(w: World, t: Trace, index: nat, e: nat) {
    var s, p := t.StreamsOf(Server(w.plan, index)), Position(w.plan, index);
    && p < |s.stdout.lines| && p <= |s.dataInputEvents|
    && s.stdout.lines[p].eventId == e + 2 && s.dataInputEvents[p - 1] == e + 1
  }

  /** Lines and acknowledgements only grow. */
  predicate Extends(t: Trace, t': Trace, k: nat) {
    && t.StreamsOf(k).stdout.lines <= t'.StreamsOf(k).stdout.lines
    && t.StreamsOf(k).dataInputEvents <= t'.StreamsOf(k).dataInputEvents
  }

  lemma StepExtends(w: World, m: Moment, step: WorkloadStep, k: nat)
    requires InPlan(step, w.plan)
    ensures Extends(m.trace, Next(w, m, step).trace, k)
  {
    hide ExpectedLine, InputText;
  }

  lemma AnswersStay(w: World, t: Trace, t': Trace, index: nat, e: nat)
    requires AnsweredAfter(w, t, index, e) && Extends(t, t', Server(w.plan, index))
    ensures AnsweredAfter(w, t', index, e)
  {}

  /** How far the fault has come before request `i`. Right after a switch, the next event is the
      acknowledgement of the request. */
  predicate Faults(w: World, m: Moment, i: nat, stage: Stage) {
    var t, plan, peer := m.trace, w.plan, w.scenario.PeerCidr();
    match stage
    case Unfaulted => t.activations == [] && t.restorations == [] && i <= plan.activationIndex
    case Faulted =>
      && |t.activations| == 1 && t.activations[0].peerCidr == peer && t.restorations == []
      && 1 < t.activations[0].eventId < m.n && plan.activationIndex <= i <= plan.restorationIndex
      && (if i == plan.activationIndex then m.n == t.activations[0].eventId + 1
          else AnsweredAfter(w, t, plan.activationIndex, t.activations[0].eventId)
               && t.activations[0].eventId + 2 < m.n)
    case Healed =>
      && |t.activations| == 1 && t.activations[0].peerCidr == peer && 1 < t.activations[0].eventId
      && |t.restorations| == 1 && t.restorations[0].peerCidr == peer
      && t.activations[0].eventId + 2 < t.restorations[0].eventId < m.n && plan.restorationIndex <= i
      && AnsweredAfter(w, t, plan.activationIndex, t.activations[0].eventId)
      && (if i == plan.restorationIndex then m.n == t.restorations[0].eventId + 1
          else AnsweredAfter(w, t, plan.restorationIndex, t.restorations[0].eventId))
    case Disordered => false
  }

  /** The network is in the phase the plan gives request `i`. */
  lemma PhaseMatches(w: World, m: Moment, i: nat, stage: Stage)
    requires w.Valid() && Faults(w, m, i, stage) && i < |w.plan.requests|
    requires stage.Unfaulted? ==> i < w.plan.activationIndex
    requires stage.Faulted? ==> i < w.plan.restorationIndex
    ensures InOutage(m.trace) == (w.plan.Phase(i) == Outage)
  {}

  lemma FaultBegins(w: World, m: Moment)
    requires w.Valid() && Faults(w, m, w.plan.activationIndex, Unfaulted) && m.n >= 4
    ensures IsReady(w, m, ActivateStep) && Faults(w, Next(w, m, ActivateStep), w.plan.activationIndex, Faulted)
  {}

  lemma FaultEnds(w: World, m: Moment)
    requires w.Valid() && Faults(w, m, w.plan.restorationIndex, Faulted)
    ensures IsReady(w, m, RestoreStep) && Faults(w, Next(w, m, RestoreStep), w.plan.restorationIndex, Healed)
  {
    StepExtends(w, m, RestoreStep, Server(w.plan, w.plan.activationIndex));
    AnswersStay(w, m.trace, Next(w, m, RestoreStep).trace, w.plan.activationIndex, m.trace.activations[0].eventId);
  }

  lemma FaultsStay(w: World, m: Moment, step: WorkloadStep, i: nat, stage: Stage)
    requires Faults(w, m, i, stage) && InPlan(step, w.plan) && !IsSwitch(step)
    requires (stage.Faulted? ==> i != w.plan.activationIndex) && (stage.Healed? ==> i != w.plan.restorationIndex)
    ensures Faults(w, Next(w, m, step), i, stage)
  {
    hide ExpectedLine, InputText, AnsweredAfter, Spoken, Printed;
    var t, t' := m.trace, Next(w, m, step).trace;
    var act, rest := w.plan.activationIndex, w.plan.restorationIndex;
    StepExtends(w, m, step, 1);
    StepExtends(w, m, step, 2);
    if !stage.Unfaulted? {
      AnswersStay(w, t, t', act, t.activations[0].eventId);
      if stage.Healed? {
        AnswersStay(w, t, t', rest, t.restorations[0].eventId);
      }
    }
  }

  /** The stage the plan has reached when request `i` is sent. */
  function StageAt(plan: WorkloadChoicePlan, i: nat): Stage {
    if i < plan.activationIndex then Unfaulted else if i < plan.restorationIndex then Faulted else Healed
  }

  /** The stage before the steps around request `i`. */
  function StageBefore(plan: WorkloadChoicePlan, i: nat): Stage {
    if i <= plan.activationIndex then Unfaulted else if i <= plan.restorationIndex then Faulted else Healed
  }

  lemma NewAnswer(w: World, m: Moment, i: nat)
    requires w.Valid() && i < |w.plan.requests| && m.n >= 1
    requires var s := m.trace.StreamsOf(Server(w.plan, i));
             |s.stdout.lines| == Position(w.plan, i) == |s.dataInputEvents| + 1
    ensures AnsweredAfter(w, Next(w, m, RequestStep(Server(w.plan, i), i)).trace, i, m.n - 1)
  {
    hide ExpectedLine, InputText;
  }

  lemma FaultsAdvance(w: World, m: Moment, i: nat)
    requires w.Valid() && i < |w.plan.requests| && m.n >= 1 && Faults(w, m, i, StageAt(w.plan, i))
    requires var s := m.trace.StreamsOf(Server(w.plan, i));
             |s.stdout.lines| == Position(w.plan, i) == |s.dataInputEvents| + 1
    ensures Faults(w, Next(w, m, RequestStep(Server(w.plan, i), i)), i + 1, StageBefore(w.plan, i + 1))
  {
    hide ExpectedLine, InputText, AnsweredAfter, Spoken;
    var step := RequestStep(Server(w.plan, i), i);
    var t, t' := m.trace, Next(w, m, step).trace;
    var act, rest := w.plan.activationIndex, w.plan.restorationIndex;
    NewAnswer(w, m, i);
    StepExtends(w, m, step, 1);
    StepExtends(w, m, step, 2);
    if i > act {
      AnswersStay(w, t, t', act, t.activations[0].eventId);
    }
    if i > rest {
      AnswersStay(w, t, t', rest, t.restorations[0].eventId);
    }
  }

  // ---- Segments of the schedule -----------------------------------------------------------------

  function RunFrom(w: World, m: Moment, steps: seq<WorkloadStep>): Moment
    requires AllScheduled(steps, w.plan)
    decreases |steps|
  {
    if steps == [] then m else RunFrom(w, Next(w, m, steps[0]), steps[1..])
  }

  predicate ReadyFrom(w: World, m: Moment, steps: seq<WorkloadStep>)
    requires AllScheduled(steps, w.plan)
    decreases |steps|
  {
    steps == [] || (IsReady(w, m, steps[0]) && Addressed(steps[0]) && ReadyFrom(w, Next(w, m, steps[0]), steps[1..]))
  }

  lemma {:induction false} RunAppend(w: World, m: Moment, one: seq<WorkloadStep>, two: seq<WorkloadStep>)
    requires AllScheduled(one, w.plan) && AllScheduled(two, w.plan)
    ensures AllScheduled(one + two, w.plan)
    ensures RunFrom(w, m, one + two) == RunFrom(w, RunFrom(w, m, one), two)
    ensures ReadyFrom(w, m, one + two) <==> ReadyFrom(w, m, one) && ReadyFrom(w, RunFrom(w, m, one), two)
    decreases |one|
  {
    hide Next, IsReady;
    if one == [] {
      assert one + two == two;
    } else {
      assert (one + two)[0] == one[0] && (one + two)[1..] == one[1..] + two;
      RunAppend(w, Next(w, m, one[0]), one[1..], two);
    }
  }

  lemma RunOne(w: World, m: Moment, step: WorkloadStep)
    requires Scheduled(step, w.plan)
    ensures RunFrom(w, m, [step]) == Next(w, m, step)
    ensures ReadyFrom(w, m, [step]) <==> IsReady(w, m, step) && Addressed(step)
  {
    hide Next, IsReady;
    assert [step][1..] == [];
  }

  lemma RunThree(w: World, m: Moment, a: WorkloadStep, b: WorkloadStep, c: WorkloadStep)
    requires Scheduled(a, w.plan) && Scheduled(b, w.plan) && Scheduled(c, w.plan)
    ensures var m1 := Next(w, m, a);
            var m2 := Next(w, m1, b);
            && RunFrom(w, m, [a, b, c]) == Next(w, m2, c)
            && (ReadyFrom(w, m, [a, b, c]) <==> IsReady(w, m, a) && IsReady(w, m1, b) && IsReady(w, m2, c)
                                                && Addressed(a) && Addressed(b) && Addressed(c))
  {
    hide Next, IsReady;
    assert [a, b, c][1..] == [b] + [c];
    RunAppend(w, Next(w, m, a), [b], [c]);
    RunOne(w, Next(w, m, a), b);
    RunOne(w, Next(w, Next(w, m, a), b), c);
  }

  function Head(plan: WorkloadChoicePlan, k: nat): seq<string> {
    [READY_LINE, EchoLine(plan.seed, k), FRESH_STATE_LINE]
  }

  lemma OpeningRuns(w: World) returns (m: Moment)
    requires w.Valid()
    ensures AllScheduled(Opening(1), w.plan) && ReadyFrom(w, START, Opening(1)) && m == RunFrom(w, START, Opening(1))
    ensures First(w, m, Head(w.plan, 1)) && Faults(w, m, 0, Unfaulted) && m.program == Program(true, false)
    ensures m.n == 8 && m.command == 5
  {
    hide First, EchoLine, TraceAfter, Ready, Faults;
    var m1, m2 := Next(w, START, StartStep(1)), Next(w, Next(w, START, StartStep(1)), EchoStep(1));
    m := Next(w, m2, StateStep(1));
    FirstStarts(w);
    FirstTalks(w, m1, [READY_LINE], EchoStep(1));
    FirstTalks(w, m2, [READY_LINE] + [EchoLine(w.plan.seed, 1)], StateStep(1));
    assert ([READY_LINE] + [EchoLine(w.plan.seed, 1)]) + [FRESH_STATE_LINE] == Head(w.plan, 1);
    RunThree(w, START, StartStep(1), EchoStep(1), StateStep(1));
    UnfaultedAtStart(w);
    FaultsStay(w, START, StartStep(1), 0, Unfaulted);
    FaultsStay(w, m1, EchoStep(1), 0, Unfaulted);
    FaultsStay(w, m2, StateStep(1), 0, Unfaulted);
  }

  lemma UnfaultedAtStart(w: World)
    ensures Faults(w, START, 0, Unfaulted)
  {}

  /** The process fault: spawn a descendant, kill, restart, and open the second conversation. */
  lemma ProcessFaultRuns(w: World, m: Moment, texts: seq<string>) returns (m': Moment, e: nat)
    requires w.Valid() && First(w, m, texts) && |texts| < 1000
             && Faults(w, m, w.plan.faultIndex, StageAt(w.plan, w.plan.faultIndex))
    requires !m.program.spawned
    ensures var steps := [SpawnStep(1), TerminateStep(1)] + Opening(2);
            AllScheduled(steps, w.plan) && ReadyFrom(w, m, steps) && m' == RunFrom(w, m, steps)
    ensures Second(w, m', texts + [ESCAPED_DESCENDANT_LINE], e, Head(w.plan, 2)) && m'.program == Program(true, false)
    ensures Faults(w, m', w.plan.faultIndex, StageAt(w.plan, w.plan.faultIndex))
  {
    hide First, Dead, Second, EchoLine, TraceAfter, Ready, Faults, RunFrom, ReadyFrom;
    var all := texts + [ESCAPED_DESCENDANT_LINE];
    var m1 := Next(w, m, SpawnStep(1));
    var m2 := Next(w, m1, TerminateStep(1));
    var m3 := Next(w, m2, StartStep(2));
    var m4 := Next(w, m3, EchoStep(2));
    m', e := Next(w, m4, StateStep(2)), m2.n;
    FirstTalks(w, m, texts, SpawnStep(1));
    FirstDies(w, m1, all);
    SecondStarts(w, m2, all);
    SecondTalks(w, m3, all, e, [READY_LINE], EchoStep(2));
    SecondTalks(w, m4, all, e, [READY_LINE] + [EchoLine(w.plan.seed, 2)], StateStep(2));
    assert ([READY_LINE] + [EchoLine(w.plan.seed, 2)]) + [FRESH_STATE_LINE] == Head(w.plan, 2);
    ProcessFaultSegment(w, m);
    ProcessFaultKeepsFaults(w, m);
  }

  lemma ProcessFaultSegment(w: World, m: Moment)
    requires w.Valid()
    ensures var steps := [SpawnStep(1), TerminateStep(1)] + Opening(2);
            var m1 := Next(w, m, SpawnStep(1));
            var m2 := Next(w, m1, TerminateStep(1));
            var m3 := Next(w, m2, StartStep(2));
            var m4 := Next(w, m3, EchoStep(2));
            && AllScheduled(steps, w.plan) && RunFrom(w, m, steps) == Next(w, m4, StateStep(2))
            && (ReadyFrom(w, m, steps) <==>
                && IsReady(w, m, SpawnStep(1)) && IsReady(w, m1, TerminateStep(1)) && IsReady(w, m2, StartStep(2))
                && IsReady(w, m3, EchoStep(2)) && IsReady(w, m4, StateStep(2)))
  {
    hide Next, IsReady, RunFrom, ReadyFrom;
    var m1 := Next(w, m, SpawnStep(1));
    var m2 := Next(w, m1, TerminateStep(1));
    assert [SpawnStep(1), TerminateStep(1)] == [SpawnStep(1)] + [TerminateStep(1)];
    RunOne(w, m, SpawnStep(1));
    RunOne(w, m1, TerminateStep(1));
    RunAppend(w, m, [SpawnStep(1)], [TerminateStep(1)]);
    RunThree(w, m2, StartStep(2), EchoStep(2), StateStep(2));
    RunAppend(w, m, [SpawnStep(1), TerminateStep(1)], Opening(2));
  }

  lemma ProcessFaultKeepsFaults(w: World, m: Moment)
    requires w.Valid() && Faults(w, m, w.plan.faultIndex, StageAt(w.plan, w.plan.faultIndex))
    ensures var m4 := Next(w, Next(w, Next(w, Next(w, m, SpawnStep(1)), TerminateStep(1)), StartStep(2)), EchoStep(2));
            Faults(w, Next(w, m4, StateStep(2)), w.plan.faultIndex, StageAt(w.plan, w.plan.faultIndex))
  {
    hide Next, Faults;
    var f, stage := w.plan.faultIndex, StageAt(w.plan, w.plan.faultIndex);
    var m1 := Next(w, m, SpawnStep(1));
    var m2 := Next(w, m1, TerminateStep(1));
    var m3 := Next(w, m2, StartStep(2));
    FaultsStay(w, m, SpawnStep(1), f, stage);
    FaultsStay(w, m1, TerminateStep(1), f, stage);
    FaultsStay(w, m2, StartStep(2), f, stage);
    FaultsStay(w, m3, EchoStep(2), f, stage);
    FaultsStay(w, Next(w, m3, EchoStep(2)), StateStep(2), f, stage);
  }

  // ---- Request after request ------------------------------------------------------------------

  /** `i` requests are answered, by the first invocation alone or by the second after it. */
  predicate Living(w: World, m: Moment, i: nat, second: bool, e: nat)
    requires w.plan.faultIndex <= |w.plan.requests|
  {
    && i <= |w.plan.requests| && m.program == Program(true, false)
    && if second then i >= w.plan.faultIndex
                      && Second(w, m, Expected(w.plan, 1), e,
                                Head(w.plan, 2) + NetworkLines(w.plan, w.plan.faultIndex, i))
       else i <= w.plan.faultIndex && First(w, m, Head(w.plan, 1) + NetworkLines(w.plan, 0, i))
  }

  lemma ProcessFaultStep(w: World, m: Moment, i: nat, e: nat) returns (m': Moment, e': nat)
    requires w.Valid() && i < |w.plan.requests|
    requires Living(w, m, i, i > w.plan.faultIndex, e) && Faults(w, m, i, StageBefore(w.plan, i))
    ensures var steps: seq<WorkloadStep> := if i == w.plan.faultIndex
            then [SpawnStep(1), TerminateStep(1)] + Opening(2) else [];
            AllScheduled(steps, w.plan) && ReadyFrom(w, m, steps) && m' == RunFrom(w, m, steps)
    ensures Living(w, m', i, i >= w.plan.faultIndex, e') && Faults(w, m', i, StageBefore(w.plan, i))
  {
    hide First, Second, Faults, NetworkLine;
    if i == w.plan.faultIndex {
      var texts := Head(w.plan, 1) + NetworkLines(w.plan, 0, i);
      m', e' := ProcessFaultRuns(w, m, texts);
      assert texts + [ESCAPED_DESCENDANT_LINE] == Expected(w.plan, 1);
      assert Head(w.plan, 2) + NetworkLines(w.plan, i, i) == Head(w.plan, 2);
    } else {
      m', e' := m, e;
    }
  }

  function Switches(plan: WorkloadChoicePlan, i: nat): seq<WorkloadStep> {
    (if i == plan.activationIndex then [ActivateStep] else [])
      + (if i == plan.restorationIndex then [RestoreStep] else [])
  }

  lemma LivingSwitches(w: World, m: Moment, i: nat, second: bool, e: nat, step: WorkloadStep)
    requires w.Valid() && Living(w, m, i, second, e) && IsSwitch(step)
    ensures Living(w, Next(w, m, step), i, second, e)
  {
    hide First, Second, NetworkLine, TraceAfter;
    if second {
      SecondSwitches(w, m, Expected(w.plan, 1), e, Head(w.plan, 2) + NetworkLines(w.plan, w.plan.faultIndex, i), step);
    } else {
      FirstSwitches(w, m, Head(w.plan, 1) + NetworkLines(w.plan, 0, i), step);
    }
  }

  lemma LivingNumbers(w: World, m: Moment, i: nat, second: bool, e: nat)
    requires w.Valid() && Living(w, m, i, second, e)
    ensures m.n >= 4
  {}

  lemma SwitchStep(w: World, m: Moment, i: nat, e: nat) returns (m': Moment)
    requires w.Valid() && i < |w.plan.requests|
    requires Living(w, m, i, i >= w.plan.faultIndex, e) && Faults(w, m, i, StageBefore(w.plan, i))
    ensures var steps := Switches(w.plan, i);
            AllScheduled(steps, w.plan) && ReadyFrom(w, m, steps) && m' == RunFrom(w, m, steps)
    ensures Living(w, m', i, i >= w.plan.faultIndex, e) && Faults(w, m', i, StageAt(w.plan, i))
  {
    hide Living, Faults, Next, IsReady;
    LivingNumbers(w, m, i, i >= w.plan.faultIndex, e);
    m' := m;
    if i == w.plan.activationIndex {
      assert Switches(w.plan, i) == [ActivateStep];
      RunOne(w, m, ActivateStep);
      LivingSwitches(w, m, i, i >= w.plan.faultIndex, e, ActivateStep);
      FaultBegins(w, m);
      m' := Next(w, m, ActivateStep);
    } else if i == w.plan.restorationIndex {
      assert Switches(w.plan, i) == [RestoreStep];
      RunOne(w, m, RestoreStep);
      LivingSwitches(w, m, i, i >= w.plan.faultIndex, e, RestoreStep);
      FaultEnds(w, m);
      m' := Next(w, m, RestoreStep);
    }
  }

  lemma LivingCounts(w: World, m: Moment, i: nat, e: nat)
    requires w.Valid() && i < |w.plan.requests| && Living(w, m, i, i >= w.plan.faultIndex, e)
    ensures var s := m.trace.StreamsOf(Server(w.plan, i));
            |s.stdout.lines| == Position(w.plan, i) == |s.dataInputEvents| + 1
  {
    hide Undisturbed, Over, NetworkLine;
  }

  /** An uncorrupted fixture serves every request its payload. */
  lemma FileIsServed(w: World, i: nat)
    requires w.Valid() && !w.scenario.corruptResponses && i < |w.plan.requests|
    ensures var request := w.plan.requests[i];
            request.requestId in w.Files() && w.Files()[request.requestId] == request.payload
  {
    FixtureServes(w.plan.requests, false, |w.plan.requests|, i);
    ServedWhole(w.plan.requests, i);
  }

  lemma RequestStepRuns(w: World, m: Moment, i: nat, e: nat) returns (m': Moment)
    requires w.Valid() && !w.scenario.corruptResponses && i < |w.plan.requests|
    requires Living(w, m, i, i >= w.plan.faultIndex, e) && Faults(w, m, i, StageAt(w.plan, i))
    ensures var step := RequestStep(Server(w.plan, i), i);
            Scheduled(step, w.plan) && IsReady(w, m, step) && m' == Next(w, m, step)
    ensures Living(w, m', i + 1, i + 1 > w.plan.faultIndex, e) && Faults(w, m', i + 1, StageBefore(w.plan, i + 1))
  {
    hide First, Second, Faults, NetworkLine, IsReady, InOutage, TraceAfter, World.Files;
    var step := RequestStep(Server(w.plan, i), i);
    m' := Next(w, m, step);
    LivingNumbers(w, m, i, i >= w.plan.faultIndex, e);
    LivingCounts(w, m, i, e);
    PhaseMatches(w, m, i, StageAt(w.plan, i));
    FileIsServed(w, i);
    FaultsAdvance(w, m, i);
    if i >= w.plan.faultIndex {
      var more := Head(w.plan, 2) + NetworkLines(w.plan, w.plan.faultIndex, i);
      SecondTalks(w, m, Expected(w.plan, 1), e, more, step);
      assert more + [NetworkLine(w.plan, i)] == Head(w.plan, 2) + NetworkLines(w.plan, w.plan.faultIndex, i + 1);
    } else {
      var texts := Head(w.plan, 1) + NetworkLines(w.plan, 0, i);
      FirstTalks(w, m, texts, step);
      assert texts + [NetworkLine(w.plan, i)] == Head(w.plan, 1) + NetworkLines(w.plan, 0, i + 1);
    }
  }

  lemma AroundRuns(w: World, m: Moment, i: nat, e: nat) returns (m': Moment, e': nat)
    requires w.Valid() && !w.scenario.corruptResponses && i < |w.plan.requests|
    requires Living(w, m, i, i > w.plan.faultIndex, e) && Faults(w, m, i, StageBefore(w.plan, i))
    ensures var steps := AroundRequest(w.plan, i);
            AllScheduled(steps, w.plan) && ReadyFrom(w, m, steps) && m' == RunFrom(w, m, steps)
    ensures Living(w, m', i + 1, i + 1 > w.plan.faultIndex, e') && Faults(w, m', i + 1, StageBefore(w.plan, i + 1))
  {
    hide Living, Faults, Next, IsReady, RunFrom, ReadyFrom;
    var opening: seq<WorkloadStep> := if i == w.plan.faultIndex then [SpawnStep(1), TerminateStep(1)] + Opening(2)
      else [];
    var switches, request := Switches(w.plan, i), RequestStep(Server(w.plan, i), i);
    var m1, m2;
    m1, e' := ProcessFaultStep(w, m, i, e);
    m2 := SwitchStep(w, m1, i, e');
    m' := RequestStepRuns(w, m2, i, e');
    RunAppend(w, m, opening, switches);
    RunOne(w, m2, request);
    RunAppend(w, m, opening + switches, [request]);
    assert AroundRequest(w.plan, i) == (opening + switches) + [request];
  }

  lemma {:induction false} RequestsRun(w: World, count: nat) returns (m: Moment, e: nat)
    requires w.Valid() && !w.scenario.corruptResponses && count <= |w.plan.requests|
    ensures var steps := StepsUpTo(w.plan, count);
            AllScheduled(steps, w.plan) && ReadyFrom(w, START, steps) && m == RunFrom(w, START, steps)
    ensures Living(w, m, count, count > w.plan.faultIndex, e) && Faults(w, m, count, StageBefore(w.plan, count))
  {
    hide Faults, Next, IsReady, RunFrom, ReadyFrom, First, Second;
    if count == 0 {
      m := OpeningRuns(w);
      e := 0;
      assert Head(w.plan, 1) + NetworkLines(w.plan, 0, 0) == Head(w.plan, 1);
    } else {
      var before, e0 := RequestsRun(w, count - 1);
      m, e := AroundRuns(w, before, count - 1, e0);
      RunAppend(w, START, StepsUpTo(w.plan, count - 1), AroundRequest(w.plan, count - 1));
    }
  }
}
