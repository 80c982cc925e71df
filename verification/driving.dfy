/** The drive as a whole: what it sends whatever the guest does, and how a run goes when the guest
    answers every step as hoped. */
module Driving {
  import opened Protocol
  import opened Traces
  import opened Scenarios
  import opened Checker
  import opened Regimes
  import opened Controller
  import opened Driver

  // ---- The order of the schedule --------------------------------------------------

  /** How far the network fault has come; anything out of turn is disorder. */
  datatype Stage = Unfaulted | Faulted | Healed | Disordered

  function StageAfter(stage: Stage, step: WorkloadStep): Stage {
    match step
    case ActivateStep => if stage.Unfaulted? then Faulted else Disordered
    case RestoreStep => if stage.Faulted? then Healed else Disordered
    case _ => stage
  }

  function StageOf(stage: Stage, steps: seq<WorkloadStep>): Stage
    decreases |steps|
  {
    if steps == [] then stage else StageOf(StageAfter(stage, steps[0]), steps[1..])
  }

  lemma {:induction false} StageAppend(stage: Stage, one: seq<WorkloadStep>, two: seq<WorkloadStep>)
    ensures StageOf(stage, one + two) == StageOf(StageOf(stage, one), two)
    decreases |one|
  {
    if one == [] {
      assert one + two == two;
    } else {
      assert (one + two)[0] == one[0] && (one + two)[1..] == one[1..] + two;
      StageAppend(StageAfter(stage, one[0]), one[1..], two);
    }
  }

  lemma {:induction false} DisorderStays(steps: seq<WorkloadStep>)
    ensures StageOf(Disordered, steps) == Disordered
    decreases |steps|
  {
    if steps != [] { DisorderStays(steps[1..]); }
  }

  lemma {:induction false} OtherStepsKeepStage(stage: Stage, steps: seq<WorkloadStep>)
    requires forall i | 0 <= i < |steps| :: !steps[i].ActivateStep? && !steps[i].RestoreStep?
    ensures StageOf(stage, steps) == stage
    decreases |steps|
  {
    if steps != [] { OtherStepsKeepStage(stage, steps[1..]); }
  }

  lemma OneStep(stage: Stage, step: WorkloadStep)
    ensures StageOf(stage, [step]) == StageAfter(stage, step)
  {
    assert [step][1..] == [];
  }

  lemma StageAround(plan: WorkloadChoicePlan, index: nat, stage: Stage)
    requires plan.activationIndex != plan.restorationIndex
    ensures StageOf(stage, AroundRequest(plan, index)) ==
            if index == plan.activationIndex then StageAfter(stage, ActivateStep)
            else if index == plan.restorationIndex then StageAfter(stage, RestoreStep) else stage
  {
    var opening: seq<WorkloadStep> := if index == plan.faultIndex then [SpawnStep(1), TerminateStep(1)] + Opening(2)
      else [];
    var activate: seq<WorkloadStep> := if index == plan.activationIndex then [ActivateStep] else [];
    var restore: seq<WorkloadStep> := if index == plan.restorationIndex then [RestoreStep] else [];
    var request: seq<WorkloadStep> := [RequestStep(Server(plan, index), index)];
    StageAppend(stage, opening + activate + restore, request);
    StageAppend(stage, opening + activate, restore);
    StageAppend(stage, opening, activate);
    OtherStepsKeepStage(stage, opening);
    OneStep(stage, ActivateStep);
    OneStep(stage, RestoreStep);
    OtherStepsKeepStage(StageOf(stage, opening + activate + restore), request);
  }

  lemma {:induction false} StageUpTo(plan: WorkloadChoicePlan, count: nat)
    requires plan.activationIndex < plan.restorationIndex
    ensures StageOf(Unfaulted, StepsUpTo(plan, count)) ==
            if count <= plan.activationIndex then Unfaulted else if count <= plan.restorationIndex then Faulted
              else Healed
  {
    if count == 0 {
      OtherStepsKeepStage(Unfaulted, Opening(1));
    } else {
      StageUpTo(plan, count - 1);
      StageAppend(Unfaulted, StepsUpTo(plan, count - 1), AroundRequest(plan, count - 1));
      StageAround(plan, count - 1, StageOf(Unfaulted, StepsUpTo(plan, count - 1)));
    }
  }

  /** The schedule activates the outage once, restores it once after that, and nothing else. */
  lemma ScheduleIsInOrder(plan: WorkloadChoicePlan)
    requires plan.IndicesValid()
    ensures StageOf(Unfaulted, WorkloadSteps(plan)) == Healed
  {
    StageUpTo(plan, |plan.requests|);
    StageAppend(Unfaulted, StepsUpTo(plan, |plan.requests|), [EofStep(2)]);
    OtherStepsKeepStage(Healed, [EofStep(2)]);
  }

  // ---- Nothing starts or is killed twice ----------------------------------------------

  /** No start and no termination occurs twice. */
  predicate NoRepeats(steps: seq<WorkloadStep>) {
    forall i, j | 0 <= i < j < |steps| && steps[i] == steps[j] :: !steps[i].StartStep? && !steps[i].TerminateStep?
  }

  /** What may have started or ended before and after the process fault. */
  predicate LivesUpTo(steps: seq<WorkloadStep>, faulted: bool) {
    forall i | 0 <= i < |steps| ::
      && (steps[i].StartStep? ==> steps[i] == StartStep(1) || (faulted && steps[i] == StartStep(2)))
      && (steps[i].TerminateStep? ==> faulted)
  }

  /** The steps around a request start or end something only at the process fault. */
  lemma AroundLives(plan: WorkloadChoicePlan, index: nat)
    ensures var around := AroundRequest(plan, index);
            && NoRepeats(around)
            && forall i | 0 <= i < |around| && (around[i].StartStep? || around[i].TerminateStep?) ::
                 index == plan.faultIndex && (around[i] == TerminateStep(1) || around[i] == StartStep(2))
  {}

  lemma JoinLives(init: seq<WorkloadStep>, around: seq<WorkloadStep>, faulted: bool, fault: bool)
    requires NoRepeats(init) && LivesUpTo(init, faulted) && NoRepeats(around) && (fault ==> !faulted)
    requires forall i | 0 <= i < |around| && (around[i].StartStep? || around[i].TerminateStep?) ::
               fault && (around[i] == TerminateStep(1) || around[i] == StartStep(2))
    ensures NoRepeats(init + around) && LivesUpTo(init + around, faulted || fault)
  {
    var all := init + around;
    forall i, j | 0 <= i < j < |all| && all[i] == all[j] ensures !all[i].StartStep? && !all[i].TerminateStep? {
      if i < |init| <= j {
        assert all[i] == init[i] && all[j] == around[j - |init|];
      }
    }
  }

  lemma {:induction false} UpToHasNoRepeats(plan: WorkloadChoicePlan, count: nat)
    ensures NoRepeats(StepsUpTo(plan, count)) && LivesUpTo(StepsUpTo(plan, count), count > plan.faultIndex)
  {
    if count > 0 {
      hide NoRepeats, LivesUpTo, AroundRequest;
      UpToHasNoRepeats(plan, count - 1);
      AroundLives(plan, count - 1);
      JoinLives(StepsUpTo(plan, count - 1), AroundRequest(plan, count - 1), count - 1 > plan.faultIndex,
                count - 1 == plan.faultIndex);
    }
  }

  lemma ScheduleHasNoRepeats(plan: WorkloadChoicePlan)
    ensures NoRepeats(WorkloadSteps(plan))
  {
    UpToHasNoRepeats(plan, |plan.requests|);
  }

  /** The step starts or terminates nothing that was started or terminated before. */
  predicate Unused(regime: Regime, step: WorkloadStep) {
    (step.StartStep? ==> step.invocation !in regime.started)
      && (step.TerminateStep? ==> step.invocation !in regime.terminated)
  }

  /** Whatever was started or terminated so far, the steps so far did. */
  predicate LivesKnown(regime: Regime, steps: seq<WorkloadStep>) {
    && (forall k | k in regime.started :: StartStep(k) in steps)
    && (forall k | k in regime.terminated :: TerminateStep(k) in steps)
  }

  predicate LivesAfter(regime: Regime, regime': Regime, step: WorkloadStep) {
    && regime'.started == regime.started + (if step.StartStep? then {step.invocation} else {})
    && regime'.terminated == regime.terminated + (if step.TerminateStep? then {step.invocation} else {})
  }

  lemma NextIsUnused(regime: Regime, steps: seq<WorkloadStep>, k: nat)
    requires NoRepeats(steps) && k < |steps| && LivesKnown(regime, steps[..k])
    ensures Unused(regime, steps[k])
    ensures forall regime' | LivesAfter(regime, regime', steps[k]) :: LivesKnown(regime', steps[..k + 1])
  {
    assert forall step | step in steps[..k] :: step in steps[..k + 1];
    assert steps[..k + 1][k] == steps[k];
  }

  predicate Scheduled(step: WorkloadStep, plan: WorkloadChoicePlan) {
    InPlan(step, plan) && Subject(step) <= 2
  }

  predicate AllScheduled(steps: seq<WorkloadStep>, plan: WorkloadChoicePlan) {
    forall k | 0 <= k < |steps| :: Scheduled(steps[k], plan)
  }

  lemma {:induction false} UpToIsScheduled(plan: WorkloadChoicePlan, count: nat)
    requires count <= |plan.requests|
    ensures AllScheduled(StepsUpTo(plan, count), plan)
  {
    if count > 0 { UpToIsScheduled(plan, count - 1); }
  }

  lemma ScheduleIsScheduled(plan: WorkloadChoicePlan)
    ensures AllScheduled(WorkloadSteps(plan), plan)
  {
    UpToIsScheduled(plan, |plan.requests|);
  }

  // ---- Regimes along the schedule ---------------------------------------------------

  function OffsetIn(offsets: map<nat, nat>, invocation: nat): nat {
    if invocation in offsets then offsets[invocation] else 0
  }

  /** The regime between two steps. */
  predicate Between(regime: Regime, stage: Stage) {
    && regime.configured && !regime.stopped
    && regime.activated == !stage.Unfaulted? && regime.outage == stage.Faulted?
  }

  function Advanced(offsets: map<nat, nat>, plan: WorkloadChoicePlan, step: WorkloadStep): map<nat, nat>
    requires InPlan(step, plan)
  {
    if IsInput(step) then offsets[step.invocation := OffsetIn(offsets, step.invocation) + |InputText(plan, step)|]
      else offsets
  }

  lemma TextFits(plan: WorkloadChoicePlan, step: WorkloadStep)
    requires plan.Valid() && IsInput(step) && Scheduled(step, plan)
    ensures 0 < |InputText(plan, step)| <= MAX_STDIN_FRAME_BYTES
    ensures Unhex(Hex(InputText(plan, step)), MAX_STDIN_FRAME_BYTES) == Some(InputText(plan, step))
  {
    var text := InputText(plan, step);
    if step.RequestStep? {
      assert plan.requests[step.index].Valid();
    }
    UnhexExact(Hex(text), MAX_STDIN_FRAME_BYTES, text);
  }

  /** Every step's command is permitted when its turn comes, and moves the regime along. */
  lemma StepIsPermitted(regime: Regime, stage: Stage, scenario: WorkloadScenario, plan: WorkloadChoicePlan,
                        launch: LaunchIdentity, step: WorkloadStep)
    requires plan.Valid() && scenario.Valid() && Scheduled(step, plan)
    requires Between(regime, stage) && !StageAfter(stage, step).Disordered? && Unused(regime, step)
    ensures var command := StepCommand(scenario, plan, launch, step, OffsetIn(regime.offsets, Subject(step)));
            && regime.Permits(command)
            && Between(regime.After(command), StageAfter(stage, step))
            && regime.After(command).offsets == Advanced(regime.offsets, plan, step)
            && LivesAfter(regime, regime.After(command), step)
  {
    hide Hex, Unhex, InputText;
    if IsInput(step) {
      TextFits(plan, step);
    }
  }

  // ---- A run in which every step goes smoothly ----------------------------------------

  const CONFIGURE := ConfigureNetwork(NETWORK_INTERFACE, GUEST_CIDR, FIXTURE_PEER)

  /** The offsets after some steps. */
  function OffsetsAfter(plan: WorkloadChoicePlan, steps: seq<WorkloadStep>): map<nat, nat>
    requires AllScheduled(steps, plan)
  {
    if steps == [] then map[] else Advanced(OffsetsAfter(plan, steps[..|steps| - 1]), plan, steps[|steps| - 1])
  }

  function CommandAt(scenario: WorkloadScenario, plan: WorkloadChoicePlan, launch: LaunchIdentity,
                     steps: seq<WorkloadStep>, step: WorkloadStep): Command
    requires AllScheduled(steps, plan) && Scheduled(step, plan)
  {
    StepCommand(scenario, plan, launch, step, OffsetIn(OffsetsAfter(plan, steps), Subject(step)))
  }

  /** What is sent and received when every reply is taken in whole. */
  function Played(guest: Replies, scenario: WorkloadScenario, plan: WorkloadChoicePlan,
                  launch: LaunchIdentity, steps: seq<WorkloadStep>): View
    requires AllScheduled(steps, plan)
  {
    if steps == [] then View(Sent([], CONFIGURE), [], guest(Sent([], CONFIGURE)), map[])
    else
      var init, last := steps[..|steps| - 1], steps[|steps| - 1];
      var view := Played(guest, scenario, plan, launch, init);
      var command := CommandAt(scenario, plan, launch, init, last);
      view.Took(command, guest(Sent(view.sent, command)), last)
  }

  /** The step after `steps` goes smoothly. */
  predicate SmoothAfter(guest: Replies, scenario: WorkloadScenario, plan: WorkloadChoicePlan,
                        launch: LaunchIdentity, steps: seq<WorkloadStep>, step: WorkloadStep)
    requires AllScheduled(steps, plan) && Scheduled(step, plan)
  {
    var view := Played(guest, scenario, plan, launch, steps);
    var command := CommandAt(scenario, plan, launch, steps, step);
    Smooth(view.raw, guest(Sent(view.sent, command)), |view.sent| + 1, scenario, plan, step,
           OffsetIn(OffsetsAfter(plan, steps), Subject(step)), view.Count(Subject(step)))
  }

  /** In the step after `steps` the invocation fails. */
  predicate StumbleAfter(guest: Replies, scenario: WorkloadScenario, plan: WorkloadChoicePlan,
                         launch: LaunchIdentity, steps: seq<WorkloadStep>, step: WorkloadStep)
    requires AllScheduled(steps, plan) && Scheduled(step, plan)
  {
    var view := Played(guest, scenario, plan, launch, steps);
    var command := CommandAt(scenario, plan, launch, steps, step);
    Stumbles(view.raw, guest(Sent(view.sent, command)), |view.sent| + 1, plan, step,
             OffsetIn(OffsetsAfter(plan, steps), Subject(step)), view.Count(Subject(step)))
  }

  /** The first `count` steps of the schedule go smoothly. */
  predicate SmoothUpTo(guest: Replies, scenario: WorkloadScenario, plan: WorkloadChoicePlan,
                       launch: LaunchIdentity, count: nat)
    requires AllScheduled(WorkloadSteps(plan), plan) && count <= |WorkloadSteps(plan)|
  {
    var steps := WorkloadSteps(plan);
    forall k | 0 <= k < count :: SmoothAfter(guest, scenario, plan, launch, steps[..k], steps[k])
  }

  /** The steps go smoothly up to the end, or up to a failure before the outage begins. */
  predicate StepsForeseen(guest: Replies, scenario: WorkloadScenario, plan: WorkloadChoicePlan,
                          launch: LaunchIdentity, count: nat)
    requires AllScheduled(WorkloadSteps(plan), plan) && count <= |WorkloadSteps(plan)|
  {
    var steps := WorkloadSteps(plan);
    && SmoothUpTo(guest, scenario, plan, launch, count)
    && (count < |steps| ==> ActivateStep !in steps[..count]
                            && StumbleAfter(guest, scenario, plan, launch, steps[..count], steps[count]))
  }

  /** What the host has seen when it stops after `count` smooth steps, at the end or in a failing step. */
  function Reached(guest: Replies, scenario: WorkloadScenario, plan: WorkloadChoicePlan,
                   launch: LaunchIdentity, count: nat): View
    requires AllScheduled(WorkloadSteps(plan), plan) && count <= |WorkloadSteps(plan)|
  {
    var steps := WorkloadSteps(plan);
    var view := Played(guest, scenario, plan, launch, steps[..count]);
    if count == |steps| then view
    else
      var command := CommandAt(scenario, plan, launch, steps[..count], steps[count]);
      view.Tripped(command, guest(Sent(view.sent, command)))
  }

  /** The frames left to read lead to the agent's stop, past nothing but the end of an invocation. */
  predicate Closing(queue: seq<EventFrame>, raw: seq<EventFrame>, shutdown: nat) {
    && queue != [] && queue[|queue| - 1].event == AgentStopped && queue[|queue| - 1].commandId == shutdown
    && forall i | 0 <= i < |queue| :: ClosingFrame(queue[i], |raw| + 1 + i, shutdown)
                                      && (i < |queue| - 1 ==> Terminal(queue[i].event))
  }

  predicate ClosingFrame(frame: EventFrame, eventId: nat, shutdown: nat) {
    frame.protocolVersion == PROTOCOL_VERSION && frame.eventId == eventId && 0 < frame.commandId <= shutdown
  }

  /** The guest answers the configuration, the first `count` steps and the shutdown as hoped, and when the
      schedule is longer, the next step is the one in which an invocation fails. */
  predicate Foreseen(guest: Replies, scenario: WorkloadScenario, plan: WorkloadChoicePlan,
                     launch: LaunchIdentity, count: nat)
  {
    AllScheduled(WorkloadSteps(plan), plan) && count <= |WorkloadSteps(plan)| &&
    var hello := guest(Sent([], CONFIGURE));
    var view := Reached(guest, scenario, plan, launch, count);
    && |hello| == 1 && Continues(hello, [], 1)
       && hello[0].event == NetworkConfigured(NETWORK_INTERFACE, GUEST_CIDR, FIXTURE_PEER)
    && StepsForeseen(guest, scenario, plan, launch, count)
    && Closing(view.queue + guest(Sent(view.sent, Shutdown)), view.raw, |view.sent| + 1)
  }

  /** Everything sent and received in such a run. */
  function Outcome(guest: Replies, scenario: WorkloadScenario, plan: WorkloadChoicePlan,
                   launch: LaunchIdentity, count: nat): View
    requires AllScheduled(WorkloadSteps(plan), plan) && count <= |WorkloadSteps(plan)|
  {
    var view := Reached(guest, scenario, plan, launch, count);
    view.(sent := Sent(view.sent, Shutdown), queue := [],
          raw := view.raw + (view.queue + guest(Sent(view.sent, Shutdown))))
  }

  // ---- The drive -----------------------------------------------------------------------

  /** Take the next step of the schedule. */
  method NextStep(c: WorkloadController, scenario: WorkloadScenario, plan: WorkloadChoicePlan, launch: LaunchIdentity,
                  step: WorkloadStep, offsets: map<nat, nat>, ghost stage: Stage)
                    returns (ok: bool, going: bool, offsets': map<nat, nat>)
    requires c.Valid() && plan.Valid() && scenario.Valid() && Scheduled(step, plan)
    requires WellDriven(c.vm.sent) && Between(Follow(c.vm.sent), stage) && Follow(c.vm.sent).offsets == offsets
    requires !StageAfter(stage, step).Disordered? && Unused(Follow(c.vm.sent), step)
    modifies c, c.vm, c.trace
    ensures c.Valid() && WellDriven(c.vm.sent)
    ensures ok && !going ==> Between(Follow(c.vm.sent), stage)
    ensures ok && going ==> && Between(Follow(c.vm.sent), StageAfter(stage, step))
                            && Follow(c.vm.sent).offsets == offsets'
                            && offsets' == Advanced(offsets, plan, step)
                            && LivesAfter(Follow(old(c.vm.sent)), Follow(c.vm.sent), step)
    ensures StepDone(c.vm, old(ViewOf(c)), ViewOf(c), ok, going, scenario, plan, launch, step,
                     OffsetIn(offsets, Subject(step)))
  {
    hide Fold, Smooth, Stumbles, Confirmed, Follow, Regime.Permits, Regime.After, Hex;
    var offset := OffsetIn(offsets, Subject(step));
    ghost var command := StepCommand(scenario, plan, launch, step, offset);
    StepIsPermitted(Follow(c.vm.sent), stage, scenario, plan, launch, step);
    FollowAppend(c.vm.sent, CommandFrame(PROTOCOL_VERSION, |c.vm.sent| + 1, command));
    ok, going := TakeStep(c, scenario, plan, launch, step, offset);
    offsets' := offsets;
    if IsInput(step) && ok && going {
      offsets' := offsets[step.invocation := offset + |InputText(plan, step)|];
    }
  }

  lemma StageNext(stage: Stage, steps: seq<WorkloadStep>, k: nat)
    requires k < |steps| && StageOf(stage, steps[k..]) == Healed
    ensures !StageAfter(stage, steps[k]).Disordered?
    ensures StageOf(StageAfter(stage, steps[k]), steps[k + 1..]) == Healed
  {
    assert steps[k..][1..] == steps[k + 1..];
    DisorderStays(steps[k + 1..]);
  }

  lemma PlayedNext(guest: Replies, scenario: WorkloadScenario, plan: WorkloadChoicePlan,
                   launch: LaunchIdentity, steps: seq<WorkloadStep>, k: nat)
    requires AllScheduled(steps, plan) && k < |steps|
    ensures var view := Played(guest, scenario, plan, launch, steps[..k]);
            var command := CommandAt(scenario, plan, launch, steps[..k], steps[k]);
            Played(guest, scenario, plan, launch, steps[..k + 1]) ==
            view.Took(command, guest(Sent(view.sent, command)), steps[k])
    ensures OffsetsAfter(plan, steps[..k + 1]) == Advanced(OffsetsAfter(plan, steps[..k]), plan, steps[k])
    ensures Played(guest, scenario, plan, launch, steps[..k]).queue == []
  {
    assert steps[..k + 1][..k] == steps[..k];
  }

  /** Go through the schedule until it ends or the run has to stop early. */
  method RunSteps(c: WorkloadController, scenario: WorkloadScenario, plan: WorkloadChoicePlan, launch: LaunchIdentity,
                  ghost count: nat)
    returns (ok: bool, stopped: bool, outageActive: bool)
    requires c.Valid() && plan.Valid() && scenario.Valid()
    requires WellDriven(c.vm.sent) && Between(Follow(c.vm.sent), Unfaulted) && Follow(c.vm.sent).offsets == map[]
    requires LivesKnown(Follow(c.vm.sent), [])
    requires AllScheduled(WorkloadSteps(plan), plan) && count <= |WorkloadSteps(plan)|
    modifies c, c.vm, c.trace
    ensures c.Valid() && WellDriven(c.vm.sent)
    ensures ok ==> && Follow(c.vm.sent).configured && !Follow(c.vm.sent).stopped
                   && Follow(c.vm.sent).outage == outageActive
                   && (!stopped ==> !outageActive)
    ensures c.vm.reliable && old(ViewOf(c)) == Played(c.vm.guest, scenario, plan, launch, [])
            && StepsForeseen(c.vm.guest, scenario, plan, launch, count) ==>
              && ok && stopped == (count < |WorkloadSteps(plan)|) && !outageActive
              && ViewOf(c) == Reached(c.vm.guest, scenario, plan, launch, count)
  {
    hide Fold, Smooth, Stumbles, Confirmed, Follow, StepCommand, StageOf, Played, OffsetsAfter, WellDriven,
         WorkloadController.Valid, Advanced, View.Took, View.Tripped, View.Count, LivesKnown, LivesAfter, NoRepeats,
         Unused;
    var steps := BuildSteps(plan);
    ScheduleIsInOrder(plan);
    ScheduleHasNoRepeats(plan);
    ghost var foreseen := c.vm.reliable && ViewOf(c) == Played(c.vm.guest, scenario, plan, launch, [])
      && StepsForeseen(c.vm.guest, scenario, plan, launch, count);
    ghost var stage := Unfaulted;
    var offsets: map<nat, nat> := map[];
    ok, stopped, outageActive := true, false, false;
    var k := 0;
    assert steps[..0] == [] && steps[0..] == steps;
    NothingYet(plan);
    while k < |steps| && !stopped
      invariant k <= |steps| && c.Valid() && WellDriven(c.vm.sent) && ok
      invariant Between(Follow(c.vm.sent), stage) && outageActive == stage.Faulted?
      invariant !stopped ==> Follow(c.vm.sent).offsets == offsets && StageOf(stage, steps[k..]) == Healed
      invariant !stopped ==> LivesKnown(Follow(c.vm.sent), steps[..k])
      invariant foreseen && count < |steps| ==> stage.Unfaulted?
      invariant foreseen && !stopped ==> && k <= count && offsets == OffsetsAfter(plan, steps[..k])
                                         && ViewOf(c) == Played(c.vm.guest, scenario, plan, launch, steps[..k])
      invariant foreseen && stopped ==> count < |steps|
                                        && ViewOf(c) == Reached(c.vm.guest, scenario, plan, launch, count)
    {
      StageNext(stage, steps, k);
      NextIsUnused(Follow(c.vm.sent), steps, k);
      PlayedNext(c.vm.guest, scenario, plan, launch, steps, k);
      assert foreseen && k < count ==>
        SmoothAfter(c.vm.guest, scenario, plan, launch, steps[..k], steps[k]) && steps[k] in steps[..count];
      var step, going := steps[k], false;
      ok, going, offsets := NextStep(c, scenario, plan, launch, step, offsets, stage);
      if !ok {
        return;
      }
      if going {
        stage := StageAfter(stage, step);
        outageActive := if step.ActivateStep? then true else if step.RestoreStep? then false else outageActive;
      } else {
        stopped := true;
      }
      k := k + 1;
    }
    assert steps[..|steps|] == steps && steps[|steps|..] == [];
    NothingLeft(stage);
  }

  lemma NothingYet(plan: WorkloadChoicePlan)
    ensures OffsetsAfter(plan, []) == map[]
  {}

  lemma NothingLeft(stage: Stage)
    ensures StageOf(stage, []) == stage
  {}

  /** The wait for the agent's stop on a reliable channel: output, acknowledgements and the course of
      workloads are read over, under no later command. */
  function StopWait(raw: seq<EventFrame>, queue: seq<EventFrame>, issued: nat, shutdown: nat): Option<seq<EventFrame>>
    decreases |queue|
  {
    if queue == [] || !FitsNext(queue[0], |raw| + 1, issued) || queue[0].commandId > shutdown then None
    else
      var event, all := queue[0].event, raw + [queue[0]];
      if event.AgentStopped? then (if queue[0].commandId == shutdown then Some(all) else None)
      else if event.WorkloadOutput? || event.InputAccepted? || InCourse(event) then
        StopWait(all, queue[1..], issued, shutdown)
      else None
  }

  /** Read on until the agent reports that it stopped; only workload events may come before. */
  method AwaitStopped(c: WorkloadController, shutdown: nat) returns (ok: bool)
    requires c.Valid()
    modifies c`nextEventId, c`raw, c`events, c.trace, c.vm`queue
    ensures c.Valid()
    ensures ok ==> c.raw != [] && c.raw[|c.raw| - 1].event == AgentStopped
    ensures c.vm.reliable ==>
              StopWait(old(c.raw), old(c.vm.queue), c.nextCommandId, shutdown) == if ok then Some(c.raw) else None
    ensures c.vm.reliable && Closing(old(c.vm.queue), old(c.raw), shutdown) && shutdown < c.nextCommandId ==>
              ok && c.raw == old(c.raw) + old(c.vm.queue) && c.vm.queue == []
  {
    hide Fold, Closing, Normalized, Sequential;
    ghost var wait, id := StopWait(c.raw, c.vm.queue, c.nextCommandId, shutdown), c.nextCommandId;
    if Closing(c.vm.queue, c.raw, shutdown) && shutdown < c.nextCommandId {
      ClosingStops(c.vm.queue, c.raw, c.nextCommandId, shutdown);
    }
    while true
      invariant c.Valid() && c.nextCommandId == id && c.raw + c.vm.queue == old(c.raw + c.vm.queue)
      invariant wait == StopWait(c.raw, c.vm.queue, id, shutdown)
      decreases |c.vm.queue|
    {
      ghost var queue, raw := c.vm.queue, c.raw;
      var frame := c.ReceiveOne();
      if frame.None? {
        return false;
      }
      assert queue[0] == frame.value && c.vm.queue == queue[1..] && raw + queue == c.raw + c.vm.queue;
      if frame.value.commandId > shutdown {
        return false;
      }
      var event := frame.value.event;
      if event.AgentStopped? {
        return frame.value.commandId == shutdown;
      }
      if !event.WorkloadOutput? && !event.InputAccepted? && !Terminal(event) {
        return false;
      }
    }
  }

  lemma {:induction false} ClosingStops(queue: seq<EventFrame>, raw: seq<EventFrame>, issued: nat, shutdown: nat)
    requires Closing(queue, raw, shutdown) && shutdown < issued
    ensures StopWait(raw, queue, issued, shutdown) == Some(raw + queue)
    decreases |queue|
  {
    if |queue| == 1 {
      assert raw + queue == raw + [queue[0]];
    } else {
      assert Closing(queue[1..], raw + [queue[0]], shutdown);
      ClosingStops(queue[1..], raw + [queue[0]], issued, shutdown);
      assert (raw + [queue[0]]) + queue[1..] == raw + queue;
    }
  }

  /** Configure the network once, first of all. */
  method Configure(c: WorkloadController, scenario: WorkloadScenario) returns (ok: bool)
    requires c.Valid() && scenario.Valid() && c.vm.sent == [] && c.raw == [] && c.consumed == map[]
    modifies c, c.vm, c.trace
    ensures c.Valid() && WellDriven(c.vm.sent) && c.vm.sent == Sent([], CONFIGURE)
    ensures Between(Follow(c.vm.sent), Unfaulted) && Follow(c.vm.sent).offsets == map[]
            && LivesKnown(Follow(c.vm.sent), [])
    ensures var hello := c.vm.guest(Sent([], CONFIGURE));
            c.vm.reliable && old(c.vm.queue) == [] && |hello| == 1 && Continues(hello, [], 1)
            && hello[0].event == NetworkConfigured(NETWORK_INTERFACE, GUEST_CIDR, FIXTURE_PEER) ==>
              ok && ViewOf(c) == View(Sent([], CONFIGURE), [], hello, map[])
  {
    hide Fold, Regime.Permits;
    var command := ConfigureNetwork("eth0", "10.0.2.15/24", scenario.fixturePeer);
    assert NEW_REGIME.Permits(command) by { ConfigurePermitted(); }
    FollowAppend([], CommandFrame(PROTOCOL_VERSION, 1, command));
    ok := SwitchNetwork(c, command, NetworkConfigured("eth0", "10.0.2.15/24", scenario.fixturePeer));
  }

  lemma ConfigurePermitted()
    ensures NEW_REGIME.Permits(CONFIGURE)
  {}

  /** An early stop may leave the outage in force: restore the network before the shutdown. */
  method RestoreAfterStop(c: WorkloadController, scenario: WorkloadScenario) returns (ok: bool)
    requires c.Valid() && scenario.Valid() && WellDriven(c.vm.sent)
    requires Follow(c.vm.sent).configured && !Follow(c.vm.sent).stopped && Follow(c.vm.sent).outage
    modifies c, c.vm, c.trace
    ensures c.Valid() && WellDriven(c.vm.sent)
    ensures ok ==> Follow(c.vm.sent).configured && !Follow(c.vm.sent).stopped && !Follow(c.vm.sent).outage
  {
    hide Fold, Follow;
    var peer := scenario.PeerCidr();
    ok := c.Drain();
    if ok {
      FollowAppend(c.vm.sent, CommandFrame(PROTOCOL_VERSION, |c.vm.sent| + 1, RestoreNetwork(peer)));
      ok := SwitchNetwork(c, RestoreNetwork(peer), NetworkRestored(peer));
    }
  }

  /** Shut the agent down and see the channel close. */
  method ShutDown(c: WorkloadController) returns (ok: bool)
    requires c.Valid() && WellDriven(c.vm.sent)
    requires Follow(c.vm.sent).configured && !Follow(c.vm.sent).stopped && !Follow(c.vm.sent).outage
    modifies c, c.vm, c.trace
    ensures c.Valid() && WellDriven(c.vm.sent)
    ensures ok ==> c.raw != [] && c.raw[|c.raw| - 1].event == AgentStopped && c.vm.queue == []
    ensures var goodbye := c.vm.guest(Sent(old(c.vm.sent), Shutdown));
            c.vm.reliable && Closing(old(c.vm.queue) + goodbye, old(c.raw), old(|c.vm.sent|) + 1) ==>
              ok && c.raw == old(c.raw) + (old(c.vm.queue) + goodbye) && c.vm.sent == Sent(old(c.vm.sent), Shutdown)
  {
    hide Fold, Follow, Closing;
    FollowAppend(c.vm.sent, CommandFrame(PROTOCOL_VERSION, |c.vm.sent| + 1, Shutdown));
    var commandId;
    ok, commandId := c.Issue(Shutdown);
    if ok {
      ok := AwaitStopped(c, commandId);
      if ok {
        ok := c.vm.FinishEvents();
      }
    }
  }

  /** A finished run: the normalized events and the report on them. */
  datatype Recording = Recording(events: seq<NormalizedEvent>, report: AssertionReport)

  /** The events are numbered from one and end with the agent's stop. */
  predicate IsComplete(events: seq<NormalizedEvent>) {
    && (forall i | 0 <= i < |events| :: events[i].protocolVersion == PROTOCOL_VERSION && events[i].eventId == i + 1)
    && events != [] && events[|events| - 1].event == AgentStopped
  }

  /** Configure, go through the schedule, put the network right after an early stop, shut down. */
  method DriveThrough(c: WorkloadController, scenario: WorkloadScenario, plan: WorkloadChoicePlan,
                      launch: LaunchIdentity, ghost count: nat)
    returns (ok: bool)
    requires c.Valid() && plan.Valid() && scenario.Valid()
    requires c.vm.sent == [] && c.raw == [] && c.consumed == map[]
    modifies c, c.vm, c.trace
    ensures c.Valid() && WellDriven(c.vm.sent)
    ensures ok ==> c.raw != [] && c.raw[|c.raw| - 1].event == AgentStopped && c.vm.queue == []
    ensures c.vm.reliable && old(c.vm.queue) == [] && Foreseen(c.vm.guest, scenario, plan, launch, count) ==>
              && ok && c.raw == Outcome(c.vm.guest, scenario, plan, launch, count).raw
              && c.vm.sent == Outcome(c.vm.guest, scenario, plan, launch, count).sent
  {
    hide Fold, Follow, WellDriven, Played, StepsForeseen, Closing, Reached, AllScheduled, Continues,
         WorkloadController.Valid, LivesKnown;
    ScheduleIsScheduled(plan);
    PlayedNothing(c.vm.guest, scenario, plan, launch);
    ok := Configure(c, scenario);
    if !ok {
      return;
    }
    var stopped, outageActive;
    ok, stopped, outageActive :=
      RunSteps(c, scenario, plan, launch, if count <= |WorkloadSteps(plan)| then count else 0);
    if !ok {
      return;
    }
    if stopped && outageActive {
      ok := RestoreAfterStop(c, scenario);
      if !ok {
        return;
      }
    }
    ok := ShutDown(c);
  }

  /** Drive one workload run. Whatever the guest sends, every command is permitted when it is sent; a
      run that finishes is a complete recording with its report; and a guest that answers as hoped gets
      the run finished, up to the end of the schedule or to the step in which an invocation fails. */
  method Drive(scenario: WorkloadScenario, plan: WorkloadChoicePlan, launch: LaunchIdentity, vm: Vm,
               sha: string -> string,
               ghost count: nat)
    returns (recording: Option<Recording>, ghost raw: seq<EventFrame>)
    requires plan.Valid() && scenario.Valid() && vm.sent == []
    modifies vm
    ensures WellDriven(vm.sent)
    ensures recording.Some? ==> && recording.value.events == Normalized(raw) && Records(recording.value.events, raw)
                                && IsComplete(recording.value.events)
                                && vm.queue == []
                                && recording.value.report == EvaluateWorkload(raw, scenario, plan, launch, sha)
    ensures vm.reliable && old(vm.queue) == [] && Foreseen(vm.guest, scenario, plan, launch, count) ==>
              && recording.Some? && raw == Outcome(vm.guest, scenario, plan, launch, count).raw
              && vm.sent == Outcome(vm.guest, scenario, plan, launch, count).sent
  {
    hide Fold, Follow, WellDriven, Foreseen, Outcome, EvaluateWorkload, AllScheduled;
    ForeseenMeans(vm.guest, scenario, plan, launch, count);
    var c := new WorkloadController(vm);
    recording, raw := None, [];
    var ok := DriveThrough(c, scenario, plan, launch, count);
    if ok {
      var report := Evaluate(c.raw, scenario, plan, launch, sha);
      recording, raw := Some(Recording(c.events, report)), c.raw;
      NormalizedExact(c.events, c.raw);
    }
  }

  lemma ForeseenMeans(guest: Replies, scenario: WorkloadScenario, plan: WorkloadChoicePlan,
                      launch: LaunchIdentity, count: nat)
    ensures Foreseen(guest, scenario, plan, launch, count) ==>
              AllScheduled(WorkloadSteps(plan), plan) && count <= |WorkloadSteps(plan)|
  {}

  lemma PlayedNothing(guest: Replies, scenario: WorkloadScenario, plan: WorkloadChoicePlan,
                      launch: LaunchIdentity)
    ensures Played(guest, scenario, plan, launch, []) ==
            View(Sent([], CONFIGURE), [], guest(Sent([], CONFIGURE)), map[])
  {}
}
