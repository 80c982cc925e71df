/** End to end: for every accepted scenario and every seed, the driver against the honest guest. */
module EndToEnd {
  import opened Protocol
  import opened Traces
  import opened Scenarios
  import opened Checker
  import opened Regimes
  import opened Controller
  import opened Driver
  import opened Driving
  import opened Fixture
  import opened Conversation
  import opened Mirror
  import opened HonestGuest
  import opened Honesty
  import opened Completeness
  import opened Verdict
  import opened Corruption
  import Plans

  /** The view and the moment of the run agree. */
  ghost predicate Synchronised(w: World, view: View, offsets: map<nat, nat>, m: Moment) {
    && InStep(w, view, offsets)
    && m == Moment(Fold(view.raw), |view.raw| + 1, |view.sent| + 1, GuestOf(w, view).program)
  }

  function PlayedBy(w: World, guest: Replies, steps: seq<WorkloadStep>): View
    requires AllScheduled(steps, w.plan)
  {
    Played(guest, w.scenario, w.plan, w.launch, steps)
  }

  // ---- Step after step -------------------------------------------------------------------

  lemma HelloHolds(w: World, guest: Replies)
    requires w.Valid() && Honest(guest, w.Files(), w.sha)
    ensures var hello := guest(Sent([], CONFIGURE));
            && |hello| == 1 && Continues(hello, [], 1)
               && hello[0].event == NetworkConfigured(NETWORK_INTERFACE, GUEST_CIDR, FIXTURE_PEER)
            && Fold(hello) == START.trace && HonestRun(Sent([], CONFIGURE), w.Files(), w.sha) == hello
            && Stands(Sent([], CONFIGURE), w.Files(), w.sha) == NEW_GUEST
  {
    hide World.Files;
    NextReply(w, [], CONFIGURE);
    var e := NetworkConfigured(NETWORK_INTERFACE, GUEST_CIDR, FIXTURE_PEER);
    OneEvent([], e, 1);
    assert [] + Framed([e], 1, 1) == Framed([e], 1, 1);
    assert [e] + [] == [e];
  }

  lemma StartsSynchronised(w: World, guest: Replies)
    requires w.Valid() && Honest(guest, w.Files(), w.sha)
    ensures Synchronised(w, PlayedBy(w, guest, []), map[], START)
  {
    hide Fold, HonestRun, Honest, Stands, World.Files, InAgreement;
    HelloHolds(w, guest);
    PlayedNothing(guest, w.scenario, w.plan, w.launch);
    var view := PlayedBy(w, guest, []);
    forall k ensures Matches(view, map[], Fold(view.raw), k) {}
    NewGuestAgrees(w.sha);
  }

  lemma NewGuestAgrees(sha: string -> string)
    ensures InAgreement(NEW_GUEST, START.trace, 1, sha)
  {}

  /** One more step keeps the two in agreement and goes smoothly. */
  lemma StaysSynchronised(w: World, guest: Replies, steps: seq<WorkloadStep>, n: nat, m: Moment)
    requires w.Valid() && Honest(guest, w.Files(), w.sha) && AllScheduled(steps, w.plan) && |steps| == n + 1
             && Addressed(steps[n])
    requires Synchronised(w, PlayedBy(w, guest, steps[..n]), OffsetsAfter(w.plan, steps[..n]), m)
             && IsReady(w, m, steps[n])
    ensures SmoothAfter(guest, w.scenario, w.plan, w.launch, steps[..n], steps[n])
    ensures Synchronised(w, PlayedBy(w, guest, steps), OffsetsAfter(w.plan, steps), Completeness.Next(w, m, steps[n]))
  {
    hide Fold, HonestRun, HonestReply, Smooth, InStep, Ready, TraceAfter, Advanced, StepCommand, ProgramAfter,
         World.Files, GuestOf, Played, OffsetsAfter, WorkloadScenario.Valid, WorkloadChoicePlan.Valid, View.Took;
    var view, offsets := PlayedBy(w, guest, steps[..n]), OffsetsAfter(w.plan, steps[..n]);
    var view' := StepKeepsInStep(w, view, offsets, steps[n]);
    assert steps[..n + 1] == steps;
    PlayedNext(guest, w.scenario, w.plan, w.launch, steps, n);
  }

  lemma {:induction false} RunIsPlayed(w: World, guest: Replies, steps: seq<WorkloadStep>)
    requires w.Valid() && Honest(guest, w.Files(), w.sha) && AllScheduled(steps, w.plan) && ReadyFrom(w, START, steps)
    ensures Synchronised(w, PlayedBy(w, guest, steps), OffsetsAfter(w.plan, steps), RunFrom(w, START, steps))
    ensures forall k | 0 <= k < |steps| :: SmoothAfter(guest, w.scenario, w.plan, w.launch, steps[..k], steps[k])
    decreases |steps|
  {
    hide Synchronised, SmoothAfter, Honest, Completeness.Next, IsReady;
    if steps == [] {
      StartsSynchronised(w, guest);
    } else {
      var n := |steps| - 1;
      var init, last := steps[..n], steps[n];
      assert steps == init + [last];
      RunAppend(w, START, init, [last]);
      RunOne(w, RunFrom(w, START, init), last);
      RunIsPlayed(w, guest, init);
      StaysSynchronised(w, guest, steps, n, RunFrom(w, START, init));
      forall k | 0 <= k < |steps| ensures SmoothAfter(guest, w.scenario, w.plan, w.launch, steps[..k], steps[k]) {
        if k < n {
          assert init[..k] == steps[..k] && init[k] == steps[k];
        }
      }
    }
  }

  /** After any commands the honest guest answers the shutdown with its stop, numbered on. */
  lemma Stops(w: World, guest: Replies, sent: seq<CommandFrame>)
    requires w.Valid() && Honest(guest, w.Files(), w.sha)
    ensures guest(Sent(sent, Shutdown)) == Framed([AgentStopped], |HonestRun(sent, w.Files(), w.sha)| + 1, |sent| + 1)
  {
    hide HonestRun, Stands, Framed, World.Files;
    NextReply(w, sent, Shutdown);
    assert [AgentStopped] + [] == [AgentStopped];
  }

  /** The agent's stop adds nothing to the trace. */
  lemma StopFolds(raw: seq<EventFrame>, command: nat)
    ensures Fold(raw + Framed([AgentStopped], |raw| + 1, command)) == Fold(raw)
  {
    OneEvent(raw, AgentStopped, command);
  }

  // ---- The whole schedule ----------------------------------------------------------------

  /** Without corruption the whole schedule is ready step after step, and leaves the final trace. */
  lemma ScheduleRuns(w: World) returns (m: Moment, e: nat)
    requires w.Valid() && !w.scenario.corruptResponses
    ensures var steps := WorkloadSteps(w.plan);
            AllScheduled(steps, w.plan) && ReadyFrom(w, START, steps) && m == RunFrom(w, START, steps)
    ensures Final(w, m.trace, e) && BothFaults(w, m.trace)
  {
    hide Faults, Completeness.Next, IsReady, RunFrom, ReadyFrom, Living, Final, BothFaults;
    var n := |w.plan.requests|;
    var before;
    before, e := RequestsRun(w, n);
    RunEnds(w, before, e);
    FaultsEnd(w, before);
    RunOne(w, before, EofStep(2));
    RunAppend(w, START, StepsUpTo(w.plan, n), [EofStep(2)]);
    m := Completeness.Next(w, before, EofStep(2));
  }

  /** The honest guest answers the whole schedule as hoped. */
  lemma WholeRun(w: World, guest: Replies) returns (e: nat)
    requires w.Valid() && Honest(guest, w.Files(), w.sha) && !w.scenario.corruptResponses
    ensures var count := |WorkloadSteps(w.plan)|;
            && Foreseen(guest, w.scenario, w.plan, w.launch, count)
            && var t := Fold(Outcome(guest, w.scenario, w.plan, w.launch, count).raw);
               Final(w, t, e) && BothFaults(w, t)
  {
    hide Final, BothFaults, Fold, Continues, SmoothAfter, HonestRun, RunFrom, ReadyFrom, Honest, World.Files,
         InAgreement;
    var m;
    m, e := ScheduleRuns(w);
    var steps := WorkloadSteps(w.plan);
    HelloHolds(w, guest);
    RunIsPlayed(w, guest, steps);
    var view := PlayedBy(w, guest, steps);
    assert steps[..|steps|] == steps;
    Stops(w, guest, view.sent);
    var goodbye := Framed([AgentStopped], |view.raw| + 1, |view.sent| + 1);
    assert [] + goodbye == goodbye;
    StopFolds(view.raw, |view.sent| + 1);
  }

  // ---- The spoiled first file ----------------------------------------------------------------

  /** The opening goes smoothly whatever the fixture serves. */
  lemma OpeningPlays(w: World, guest: Replies) returns (m: Moment)
    requires w.Valid() && Honest(guest, w.Files(), w.sha)
    ensures AllScheduled(Opening(1), w.plan)
    ensures Synchronised(w, PlayedBy(w, guest, Opening(1)), OffsetsAfter(w.plan, Opening(1)), m)
    ensures forall k | 0 <= k < 3 :: SmoothAfter(guest, w.scenario, w.plan, w.launch, Opening(1)[..k], Opening(1)[k])
    ensures First(w, m, Head(w.plan, 1)) && Faults(w, m, 0, Unfaulted) && !m.program.spawned && m.n == 8
            && m.command == 5
    ensures Alive(m.trace, 1, m.command) && Current(m.trace) == Some(1)
  {
    hide Fold, Honest, Synchronised, SmoothAfter, First, Faults, RunFrom, ReadyFrom, World.Files, Alive, Current;
    m := OpeningRuns(w);
    RunIsPlayed(w, guest, Opening(1));
    FirstIsAlive(w, m, Head(w.plan, 1));
  }

  lemma NoFaultYet(w: World, m: Moment)
    requires Faults(w, m, 0, Unfaulted)
    ensures m.trace.activations == [] && !InOutage(m.trace)
  {}

  /** The reply to the first request and to the shutdown after it. */
  lemma SpoiledReplies(w: World, guest: Replies, view: View, offsets: map<nat, nat>, m: Moment)
    requires w.Valid() && Honest(guest, w.Files(), w.sha) && w.scenario.corruptResponses
             && Synchronised(w, view, offsets, m)
    requires Alive(m.trace, 1, m.command) && Current(m.trace) == Some(1) && Faults(w, m, 0, Unfaulted)
             && !m.program.spawned
    ensures var command := StepCommand(w.scenario, w.plan, w.launch, SPOILED, OffsetIn(offsets, 1));
            var reply := guest(Sent(view.sent, command));
            && Stumbles(view.raw, reply, |view.sent| + 1, w.plan, SPOILED, OffsetIn(offsets, 1), view.Count(1))
            && |reply| == 4 && Silenced(m.trace, Fold(view.raw + reply))
            && guest(Sent(Sent(view.sent, command), Shutdown)) ==
               Framed([AgentStopped], |view.raw + reply| + 1, |view.sent| + 2)
  {
    hide Fold, HonestRun, Stands, StepCommand, InAgreement, Stumbles, Silenced, Faults, Alive, Current, World.Files,
         HonestGuest.Reply, Framed, LastWords, InOutage, GuestAfter, HonestReply, WorkloadScenario.Valid,
         Trace.StreamsOf;
    assert Matches(view, offsets, m.trace, 1);
    var command := StepCommand(w.scenario, w.plan, w.launch, SPOILED, OffsetIn(offsets, 1));
    NoFaultYet(w, m);
    SpoiledReply(w, m.trace, GuestOf(w, view), |view.sent| + 1);
    NextReply(w, view.sent, command);
    SpoiledStumbles(w, view.raw, |view.sent| + 1);
    FourWords(w, m.trace);
    Stops(w, guest, Sent(view.sent, command));
  }

  lemma FourWords(w: World, t: Trace)
    requires w.plan.Valid()
    ensures |LastWords(w, t)| == 4
  {
    hide InputText, ErrorLine, DyingExit;
  }

  /** What is left on the channel after a stumble leads to the agent's stop. */
  lemma StumbleCloses(raw: seq<EventFrame>, reply: seq<EventFrame>, commandId: nat, plan: WorkloadChoicePlan,
                      step: WorkloadStep,
                      offset: nat, count: nat)
    requires InPlan(step, plan) && Stumbles(raw, reply, commandId, plan, step, offset, count) && commandId > 0
    ensures var goodbye := Framed([AgentStopped], |raw + reply| + 1, commandId + 1);
            && Closing(reply[2..] + goodbye, raw + reply[..2], commandId + 1)
            && (raw + reply[..2]) + (reply[2..] + goodbye) == (raw + reply) + goodbye
  {
    hide Fails, Healthy, InputText, Fold;
  }

  /** A run that stops in the step after the opening, put together. */
  lemma StopsAfterOpening(w: World, guest: Replies)
    requires w.Valid() && AllScheduled(Opening(1), w.plan) && AllScheduled(WorkloadSteps(w.plan), w.plan)
             && |WorkloadSteps(w.plan)| >= 3
    requires forall k | 0 <= k < 3 :: SmoothAfter(guest, w.scenario, w.plan, w.launch, Opening(1)[..k], Opening(1)[k])
    requires StumbleAfter(guest, w.scenario, w.plan, w.launch, Opening(1), SPOILED)
    ensures StepsForeseen(guest, w.scenario, w.plan, w.launch, 3)
    ensures var view := PlayedBy(w, guest, Opening(1));
            var command := CommandAt(w.scenario, w.plan, w.launch, Opening(1), SPOILED);
            Reached(guest, w.scenario, w.plan, w.launch, 3) == view.Tripped(command, guest(Sent(view.sent, command)))
  {
    hide SmoothAfter, StumbleAfter, Played, CommandAt, View.Tripped;
    ScheduleBegins(w.plan);
    var steps, opening := WorkloadSteps(w.plan), Opening(1);
    assert forall k | 0 <= k < 3 :: steps[..k] == opening[..k] && steps[k] == opening[k];
  }

  /** With corruption the opening goes smoothly and the first request ends the run. */
  lemma SpoiledRun(w: World, guest: Replies) returns (m: Moment)
    requires w.Valid() && Honest(guest, w.Files(), w.sha) && w.scenario.corruptResponses
    requires AllScheduled(WorkloadSteps(w.plan), w.plan) && |WorkloadSteps(w.plan)| >= 3
    ensures Foreseen(guest, w.scenario, w.plan, w.launch, 3)
    ensures First(w, m, Head(w.plan, 1)) && m.trace.activations == []
    ensures var run := Outcome(guest, w.scenario, w.plan, w.launch, 3);
            Silenced(m.trace, Fold(run.raw)) && |run.sent| == 6 && |run.raw| == 12
  {
    hide Fold, Honest, First, Faults, InStep, SmoothAfter, Stumbles, Closing, Alive, Current, World.Files, Played,
         Framed, Silenced, Continues, OffsetsAfter, StepCommand, WorkloadSteps, AllScheduled, StepsForeseen, Reached;
    m := OpeningPlays(w, guest);
    var view, offsets := PlayedBy(w, guest, Opening(1)), OffsetsAfter(w.plan, Opening(1));
    SpoiledReplies(w, guest, view, offsets, m);
    NoFaultYet(w, m);
    HelloHolds(w, guest);
    var command := StepCommand(w.scenario, w.plan, w.launch, SPOILED, OffsetIn(offsets, 1));
    var reply := guest(Sent(view.sent, command));
    StopsAfterOpening(w, guest);
    StumbleCloses(view.raw, reply, |view.sent| + 1, w.plan, SPOILED, OffsetIn(offsets, 1), view.Count(1));
    StopFolds(view.raw + reply, |view.sent| + 2);
  }

  // ---- The verdict ----------------------------------------------------------------------------

  /** How many steps of the schedule go smoothly. */
  function SmoothSteps(w: World): nat {
    if w.scenario.corruptResponses then |Opening(1)| else |WorkloadSteps(w.plan)|
  }

  /** The honest guest is driven to the end of the schedule, or to the first request if its file is spoiled;
      and the report on the resulting events passes exactly when no file is spoiled and the two bounds
      leave room for the answers. */
  lemma HonestRunsPass(w: World, guest: Replies)
    requires w.Valid() && Honest(guest, w.Files(), w.sha)
    ensures Foreseen(guest, w.scenario, w.plan, w.launch, SmoothSteps(w))
    ensures var run := Outcome(guest, w.scenario, w.plan, w.launch, SmoothSteps(w));
            var report := EvaluateWorkload(run.raw, w.scenario, w.plan, w.launch, w.sha);
            && (report.passed <==>
                !w.scenario.corruptResponses && w.scenario.outageEventBound >= 2 && w.scenario.livenessEventBound >= 3)
            && (w.scenario.corruptResponses ==>
                |run.sent| == 6 && |run.raw| == 12 && forall i | 0 <= i < |report.assertions| ::
                    !report.assertions[i].passed)
  {
    hide Fold, Foreseen, Outcome, Honest, Final, BothFaults, Report, First, Silenced;
    ScheduleIsScheduled(w.plan);
    if w.scenario.corruptResponses {
      ScheduleBegins(w.plan);
      var m := SpoiledRun(w, guest);
      SpoiledVerdict(w, m, Fold(Outcome(guest, w.scenario, w.plan, w.launch, |Opening(1)|).raw));
    } else {
      var e := WholeRun(w, guest);
      FinalVerdict(w, Fold(Outcome(guest, w.scenario, w.plan, w.launch, |WorkloadSteps(w.plan)|).raw), e);
    }
  }

  /** For every scenario that preparation accepts, every seed and whatever the seed draws: the plan,
      driven over a reliable channel against the honest guest, is recorded to the end, and its report
      passes exactly when the responses are not corrupted, the outage bound is at least two events and
      the liveness bound at least three. A corrupted run stops at its first request, after six commands
      and twelve events, and fails every assertion. */
  method HonestRunPasses(scenario: WorkloadScenario, seed: nat, draw: nat -> nat, launch: LaunchIdentity, vm: Vm,
                         sha: string -> string) returns (recording: Option<Recording>)
    requires scenario.Valid() && seed <= U64_MAX && vm.sent == [] && vm.queue == [] && vm.reliable
    requires Honest(vm.guest, World(scenario, Plans.Plan(scenario, seed, draw), launch, sha).Files(), sha)
    modifies vm
    ensures WellDriven(vm.sent)
    ensures recording.Some? && IsComplete(recording.value.events)
    ensures recording.value.report.passed <==>
            !scenario.corruptResponses && scenario.outageEventBound >= 2 && scenario.livenessEventBound >= 3
    ensures var report := recording.value.report;
            scenario.corruptResponses ==>
              && |vm.sent| == 6 && |recording.value.events| == 12
              && forall i | 0 <= i < |report.assertions| :: !report.assertions[i].passed
  {
    hide Foreseen, Outcome, Honest, WellDriven, IsComplete, EvaluateWorkload, Plans.Plan, WorkloadChoicePlan.Valid,
         World.Files, SmoothSteps;
    Plans.PlanIsValid(scenario, seed, draw);
    var plan := Plans.Plan(scenario, seed, draw);
    ghost var w := World(scenario, plan, launch, sha);
    HonestRunsPass(w, vm.guest);
    ghost var raw;
    recording, raw := Drive(scenario, plan, launch, vm, sha, SmoothSteps(w));
  }

  /** The tightest bounds that preparation accepts. */
  const TIGHT := WorkloadScenario(1, "tight", MIN_WORKLOAD_REQUEST_COUNT, 1, FIXTURE_PEER, 1, 2, false)

  /** They are accepted, yet no honest run can meet them. */
  lemma TightBoundsFail(w: World, guest: Replies)
    requires w.scenario == TIGHT && w.plan.Valid() && Honest(guest, w.Files(), w.sha)
    ensures TIGHT.Valid() && Foreseen(guest, w.scenario, w.plan, w.launch, |WorkloadSteps(w.plan)|)
    ensures !EvaluateWorkload(Outcome(guest, w.scenario, w.plan, w.launch, |WorkloadSteps(w.plan)|).raw,
                              w.scenario, w.plan, w.launch, w.sha).passed
  {
    hide Foreseen, Outcome, Honest, EvaluateWorkload, WorkloadChoicePlan.Valid, World.Files;
    HonestRunsPass(w, guest);
  }
}
