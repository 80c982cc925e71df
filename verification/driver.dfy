/** The workload schedule and the driver that runs it. */
module Driver {
  import opened Protocol
  import opened Traces
  import opened Scenarios
  import opened Checker
  import opened Controller

  // ---- The schedule ---------------------------------------------------------------

  datatype WorkloadStep =
    | StartStep(invocation: nat)
    | EchoStep(invocation: nat)
    | StateStep(invocation: nat)
    | SpawnStep(invocation: nat)
    | TerminateStep(invocation: nat)
    | ActivateStep
    | RestoreStep
    | RequestStep(invocation: nat, index: nat)
    | EofStep(invocation: nat)

  /** The invocation that serves a request: the first until the process fault, then the second. */
  function Server(plan: WorkloadChoicePlan, index: nat): nat {
    if index < plan.faultIndex then 1 else 2
  }

  function Opening(invocation: nat): seq<WorkloadStep> {
    [StartStep(invocation), EchoStep(invocation), StateStep(invocation)]
  }

  /** The steps around one request. */
  function AroundRequest(plan: WorkloadChoicePlan, index: nat): seq<WorkloadStep> {
    (if index == plan.faultIndex then [SpawnStep(1), TerminateStep(1)] + Opening(2) else [])
    + (if index == plan.activationIndex then [ActivateStep] else [])
    + (if index == plan.restorationIndex then [RestoreStep] else [])
    + [RequestStep(Server(plan, index), index)]
  }

  function StepsUpTo(plan: WorkloadChoicePlan, count: nat): seq<WorkloadStep> {
    if count == 0 then Opening(1) else StepsUpTo(plan, count - 1) + AroundRequest(plan, count - 1)
  }

  function WorkloadSteps(plan: WorkloadChoicePlan): seq<WorkloadStep> {
    StepsUpTo(plan, |plan.requests|) + [EofStep(if plan.faultIndex < |plan.requests| then 2 else 1)]
  }

  /** The schedule as it is built, with a counter for the current invocation. */
  method BuildSteps(plan: WorkloadChoicePlan) returns (steps: seq<WorkloadStep>)
    ensures steps == WorkloadSteps(plan)
  {
    steps := [StartStep(1), EchoStep(1), StateStep(1)];
    var invocation := 1;
    for index := 0 to |plan.requests|
      invariant steps == StepsUpTo(plan, index)
      invariant invocation == if index <= plan.faultIndex then 1 else 2
    {
      var around: seq<WorkloadStep> := [];
      if index == plan.faultIndex {
        around := [SpawnStep(invocation), TerminateStep(invocation)];
        invocation := invocation + 1;
        around := around + [StartStep(invocation), EchoStep(invocation), StateStep(invocation)];
      }
      if index == plan.activationIndex {
        around := around + [ActivateStep];
      }
      if index == plan.restorationIndex {
        around := around + [RestoreStep];
      }
      steps := steps + (around + [RequestStep(invocation, index)]);
    }
    steps := steps + [EofStep(invocation)];
  }

  // ---- What each step sends and expects ---------------------------------------------

  function FetchText(request: PlannedRequest): Bytes {
    "fetch " + request.requestId + " " + request.payload + "\n"
  }

  predicate IsInput(step: WorkloadStep) {
    step.EchoStep? || step.StateStep? || step.SpawnStep? || step.RequestStep?
  }

  predicate InPlan(step: WorkloadStep, plan: WorkloadChoicePlan) {
    step.RequestStep? ==> step.index < |plan.requests|
  }

  /** The input line of a step. */
  function InputText(plan: WorkloadChoicePlan, step: WorkloadStep): Bytes
    requires IsInput(step) && InPlan(step, plan)
  {
    match step
    case EchoStep(invocation) => "echo " + EchoToken(plan.seed, invocation) + "\n"
    case StateStep(_) => "state\n"
    case SpawnStep(_) => "spawn-descendant\n"
    case RequestStep(_, index) => FetchText(plan.requests[index])
  }

  /** The line the step waits for. */
  function ExpectedLine(plan: WorkloadChoicePlan, step: WorkloadStep): Bytes
    requires (IsInput(step) || step.StartStep?) && InPlan(step, plan)
  {
    match step
    case StartStep(_) => READY_LINE
    case EchoStep(invocation) => EchoLine(plan.seed, invocation)
    case StateStep(_) => FRESH_STATE_LINE
    case SpawnStep(_) => ESCAPED_DESCENDANT_LINE
    case RequestStep(_, index) => NetworkLine(plan, index)
  }

  /** The one command a step sends. */
  function StepCommand(scenario: WorkloadScenario, plan: WorkloadChoicePlan, launch: LaunchIdentity,
                       step: WorkloadStep, offset: nat): Command
    requires InPlan(step, plan)
  {
    match step
    case StartStep(invocation) => Start(invocation, launch)
    case TerminateStep(invocation) => Terminate(invocation)
    case ActivateStep => ActivateOutage(scenario.PeerCidr())
    case RestoreStep => RestoreNetwork(scenario.PeerCidr())
    case EofStep(invocation) => StdinEof(invocation)
    case _ => StdinWrite(step.invocation, offset, Hex(InputText(plan, step)))
  }

  // ---- A guest that answers a step as hoped -------------------------------------------

  /** The reply continues the stream under one command. */
  predicate Continues(reply: seq<EventFrame>, raw: seq<EventFrame>, commandId: nat) {
    forall i | 0 <= i < |reply| ::
      reply[i].protocolVersion == PROTOCOL_VERSION && reply[i].eventId == |raw| + 1 + i
        && reply[i].commandId == commandId
  }

  /** Nothing more was printed than what was consumed. */
  predicate Quiet(trace: Trace, invocation: nat, count: nat) {
    Healthy(trace, invocation) && trace.StdoutLineCount(invocation) <= count && !trace.StdoutPending(invocation)
  }

  /** The reply to a step is the one the driver hopes for. */
  predicate Smooth(raw: seq<EventFrame>, reply: seq<EventFrame>, commandId: nat, scenario: WorkloadScenario,
                   plan: WorkloadChoicePlan, step: WorkloadStep, offset: nat, count: nat)
    requires InPlan(step, plan)
  {
    Continues(reply, raw, commandId) &&
    match step
    case ActivateStep =>
      |reply| == 1 && reply[0].event == OutageActivated(scenario.PeerCidr(), ProhibitRule(scenario.PeerCidr()))
    case RestoreStep => |reply| == 1 && reply[0].event == NetworkRestored(scenario.PeerCidr())
    case StartStep(invocation) =>
      && |reply| == 2 && reply[0].event.WorkloadStarted?
      && Prints(Fold(raw + reply[..1]), Fold(raw + reply), invocation, count, READY_LINE)
    case TerminateStep(invocation) =>
      && |reply| == 3 && Healthy(Fold(raw), invocation)
      && reply[0].event.TerminationRequested? && Quiet(Fold(raw + reply[..1]), invocation, count)
      && reply[1].event.WorkloadExited? && reply[1].event.invocation == invocation && reply[2].event.CleanupComplete?
    case EofStep(invocation) =>
      && |reply| == 3 && Healthy(Fold(raw), invocation)
      && reply[0].event == InputAccepted(invocation, offset, 0, true)
         && Quiet(Fold(raw + reply[..1]), invocation, count)
      && reply[1].event.WorkloadExited? && reply[1].event.invocation == invocation && reply[2].event.CleanupComplete?
    case _ =>
      var text := InputText(plan, step);
      && |reply| == 2 && Healthy(Fold(raw), step.invocation)
      && reply[0].event == InputAccepted(step.invocation, offset + |text|, |text|, false)
      && Prints(Fold(raw + reply[..1]), Fold(raw + reply), step.invocation, count, ExpectedLine(plan, step))
  }

  /** The reply to an input step in which the invocation fails before it answers: the acknowledgement, a
      frame that spoils its health, and then nothing but its end. */
  predicate Stumbles(raw: seq<EventFrame>, reply: seq<EventFrame>, commandId: nat, plan: WorkloadChoicePlan,
                     step: WorkloadStep, offset: nat, count: nat)
    requires InPlan(step, plan)
  {
    && IsInput(step) && Continues(reply, raw, commandId) && |reply| >= 2 && Healthy(Fold(raw), step.invocation)
    && reply[0].event == InputAccepted(step.invocation, offset + |InputText(plan, step)|, |InputText(plan, step)|,
                                       false)
    && Fails(Fold(raw + reply[..1]), Fold(raw + reply[..2]), step.invocation, count)
    && forall i | 2 <= i < |reply| :: Terminal(reply[i].event)
  }

  function Sent(sent: seq<CommandFrame>, command: Command): seq<CommandFrame> {
    sent + [CommandFrame(PROTOCOL_VERSION, |sent| + 1, command)]
  }

  // ---- The steps ------------------------------------------------------------------------

  /** Send a command and wait for the event that acknowledges it. */
  method Ask(c: WorkloadController, command: Command, lenient: bool, wanted: Event -> bool)
    returns (ok: bool, commandId: nat)
    requires c.Valid()
    modifies c`nextCommandId, c`nextEventId, c`raw, c`events, c.vm, c.trace
    ensures c.Valid() && c.vm.sent == Sent(old(c.vm.sent), command) && commandId == |c.vm.sent|
    ensures ok ==> c.raw != [] && wanted(c.raw[|c.raw| - 1].event) && c.raw[|c.raw| - 1].commandId == commandId
    ensures var reply := c.vm.guest(Sent(old(c.vm.sent), command));
            c.vm.reliable && old(c.vm.queue) == [] && reply != [] && Continues(reply, old(c.raw), old(|c.vm.sent|) + 1)
            && wanted(reply[0].event) ==>
              && ok && c.raw == old(c.raw) + reply[..1] && c.vm.queue == reply[1..]
              && Continues(reply[1..], c.raw, commandId) && c.raw + reply[1..] == old(c.raw) + reply
  {
    hide Fold;
    RestContinues(c.vm.guest(Sent(c.vm.sent, command)), c.raw, |c.vm.sent| + 1);
    ok, commandId := c.Issue(command);
    if ok {
      ok := c.Expect(commandId, lenient, wanted);
    }
  }

  lemma RestContinues(reply: seq<EventFrame>, raw: seq<EventFrame>, commandId: nat)
    ensures reply != [] && Continues(reply, raw, commandId) ==>
              && reply[..1] == [reply[0]] && (raw + reply[..1]) + reply[1..] == raw + reply
              && Continues(reply[1..], raw + reply[..1], commandId)
  {}

  /** Send an outage or restoration command and wait for its confirmation. */
  method SwitchNetwork(c: WorkloadController, command: Command, wanted: Event) returns (ok: bool)
    requires c.Valid()
    modifies c`nextCommandId, c`nextEventId, c`raw, c`events, c.vm, c.trace
    ensures c.Valid() && c.vm.sent == Sent(old(c.vm.sent), command)
    ensures ok ==> c.raw != [] && c.raw[|c.raw| - 1].event == wanted
    ensures var reply := c.vm.guest(Sent(old(c.vm.sent), command));
            c.vm.reliable && old(c.vm.queue) == [] && |reply| == 1 && Continues(reply, old(c.raw), old(|c.vm.sent|) + 1)
            && reply[0].event == wanted ==>
              ok && c.raw == old(c.raw) + reply && c.vm.queue == []
  {
    var commandId;
    ok, commandId := Ask(c, command, true, (event: Event) => event == wanted);
  }

  /** Write one input line and wait for the line that answers it. */
  method Converse(c: WorkloadController, invocation: nat, offset: nat, text: Bytes, line: Bytes)
    returns (ok: bool, going: bool)
    requires c.Valid()
    modifies c, c.vm, c.trace
    ensures c.Valid()
    ensures c.vm.sent == old(c.vm.sent) || c.vm.sent == Sent(old(c.vm.sent), StdinWrite(invocation, offset, Hex(text)))
    ensures ok && going ==> c.vm.sent != old(c.vm.sent)
    ensures ok && going ==> NextIs(Fold(c.raw), invocation, old(c.Consumed(invocation)), line)
    ensures var reply := c.vm.guest(Sent(old(c.vm.sent), StdinWrite(invocation, offset, Hex(text))));
            c.vm.reliable && old(c.vm.queue) == [] && |reply| >= 2 && Continues(reply, old(c.raw), old(|c.vm.sent|) + 1)
            && Healthy(Fold(old(c.raw)), invocation)
               && reply[0].event == InputAccepted(invocation, offset + |text|, |text|, false)
            && Fails(Fold(old(c.raw) + reply[..1]), Fold(old(c.raw) + reply[..2]), invocation,
                     old(c.Consumed(invocation))) ==>
              && ok && !going && c.raw == old(c.raw) + reply[..2] && c.vm.queue == reply[2..]
                 && c.consumed == old(c.consumed)
              && c.vm.sent == Sent(old(c.vm.sent), StdinWrite(invocation, offset, Hex(text)))
    ensures var reply := c.vm.guest(Sent(old(c.vm.sent), StdinWrite(invocation, offset, Hex(text))));
            c.vm.reliable && old(c.vm.queue) == [] && |reply| == 2 && Continues(reply, old(c.raw), old(|c.vm.sent|) + 1)
            && Healthy(Fold(old(c.raw)), invocation)
               && reply[0].event == InputAccepted(invocation, offset + |text|, |text|, false)
            && Prints(Fold(old(c.raw) + reply[..1]), Fold(old(c.raw) + reply), invocation, old(c.Consumed(invocation)),
                      line) ==>
              && ok && going && c.raw == old(c.raw) + reply && c.vm.queue == []
              && c.consumed == old(c.consumed)[invocation := old(c.Consumed(invocation)) + 1]
  {
    hide Healthy, Fold, Prints, Fails, Hex, IsOver, NextIs, Normalized, Sequential;
    ghost var reply := c.vm.guest(Sent(c.vm.sent, StdinWrite(invocation, offset, Hex(text))));
    TakeTwo(c.raw, reply);
    going := false;
    var went;
    ok, went := c.WriteStdin(invocation, offset, text);
    if ok && went {
      ok, going := c.WaitForLine(invocation, line);
    }
  }

  lemma TakeTwo(raw: seq<EventFrame>, reply: seq<EventFrame>)
    ensures |reply| >= 2 ==> && reply[..1] == [reply[0]] && reply[1..][0] == reply[1] && reply[1..][1..] == reply[2..]
                             && (raw + reply[..1]) + [reply[1]] == raw + reply[..2]
    ensures |reply| == 2 ==> reply[..2] == reply
  {}

  /** Start an invocation and wait until it reports that it reads its input. */
  method StartInvocation(c: WorkloadController, invocation: nat, launch: LaunchIdentity) returns (ok: bool, going: bool)
    requires c.Valid()
    modifies c, c.vm, c.trace
    ensures c.Valid() && c.vm.sent == Sent(old(c.vm.sent), Start(invocation, launch))
    ensures ok && going ==> NextIs(Fold(c.raw), invocation, old(c.Consumed(invocation)), READY_LINE)
    ensures var reply := c.vm.guest(Sent(old(c.vm.sent), Start(invocation, launch)));
            c.vm.reliable && old(c.vm.queue) == [] && |reply| == 2 && Continues(reply, old(c.raw), old(|c.vm.sent|) + 1)
            && reply[0].event.WorkloadStarted?
            && Prints(Fold(old(c.raw) + reply[..1]), Fold(old(c.raw) + reply), invocation, old(c.Consumed(invocation)),
                      READY_LINE) ==>
              && ok && going && c.raw == old(c.raw) + reply && c.vm.queue == []
              && c.consumed == old(c.consumed)[invocation := old(c.Consumed(invocation)) + 1]
  {
    hide Healthy, Fold, Prints, Fails, IsOver, NextIs, LineWait, Normalized, Sequential;
    going := false;
    var commandId;
    ok, commandId :=
      Ask(c, Start(invocation, launch), false, (event: Event) => event.WorkloadStarted? || event.LaunchFailed?);
    if ok {
      assert |c.vm.queue| == 1 ==> [c.vm.queue[0]] == c.vm.queue;
      ok, going := c.WaitForLine(invocation, READY_LINE);
    }
  }

  /** Wait for the exit of an invocation and its cleanup barrier. */
  method AwaitEnd(c: WorkloadController, invocation: nat, commandId: nat) returns (ok: bool, going: bool)
    requires c.Valid()
    modifies c`nextEventId, c`raw, c`events, c.trace, c.vm`queue
    ensures c.Valid()
    ensures ok && going ==> c.raw != [] && c.raw[|c.raw| - 1].event.CleanupComplete?
    ensures var reply := old(c.vm.queue);
            c.vm.reliable && |reply| == 2 && Continues(reply, old(c.raw), commandId) && 0 < commandId < c.nextCommandId
            && Quiet(Fold(old(c.raw)), invocation, old(c.Consumed(invocation)))
            && reply[0].event.WorkloadExited? && reply[0].event.invocation == invocation
               && reply[1].event.CleanupComplete? ==>
              ok && going && c.raw == old(c.raw) + reply && c.vm.queue == []
  {
    hide Healthy, Fold;
    ghost var reply := c.vm.queue;
    ok, going := c.AwaitExit(commandId, invocation);
    if !ok || !going {
      return;
    }
    ok := c.Expect(commandId, false, (event: Event) => event.CleanupComplete?);
    going := ok;
    assert |reply| == 2 ==> (old(c.raw) + [reply[0]]) + [reply[1]] == old(c.raw) + reply;
  }

  /** Send the command that ends an invocation, then wait for its acknowledgement, the exit and the
      cleanup barrier. */
  method EndInvocation(c: WorkloadController, invocation: nat, command: Command, wanted: Event -> bool)
    returns (ok: bool, going: bool)
    requires c.Valid()
    modifies c, c.vm, c.trace
    ensures c.Valid() && c.consumed == old(c.consumed)
    ensures c.vm.sent == old(c.vm.sent) || c.vm.sent == Sent(old(c.vm.sent), command)
    ensures ok && going ==> c.vm.sent != old(c.vm.sent)
    ensures ok && going ==> c.raw != [] && c.raw[|c.raw| - 1].event.CleanupComplete?
    ensures var reply := c.vm.guest(Sent(old(c.vm.sent), command));
            c.vm.reliable && old(c.vm.queue) == [] && |reply| == 3 && Continues(reply, old(c.raw), old(|c.vm.sent|) + 1)
            && Healthy(Fold(old(c.raw)), invocation) && wanted(reply[0].event)
            && Quiet(Fold(old(c.raw) + reply[..1]), invocation, old(c.Consumed(invocation)))
            && reply[1].event.WorkloadExited? && reply[1].event.invocation == invocation
               && reply[2].event.CleanupComplete? ==>
              ok && going && c.raw == old(c.raw) + reply && c.vm.queue == []
  {
    hide Healthy, Fold, Quiet;
    going := false;
    var live;
    ok, live := c.Live(invocation);
    if !ok || !live {
      return;
    }
    var commandId;
    ok, commandId := Ask(c, command, false, wanted);
    if ok {
      ok, going := AwaitEnd(c, invocation, commandId);
    }
  }

  /** The invocation a step talks to; network steps talk to none. */
  function Subject(step: WorkloadStep): nat {
    if step.ActivateStep? || step.RestoreStep? then 0 else step.invocation
  }

  predicate PrintsLine(step: WorkloadStep) {
    IsInput(step) || step.StartStep?
  }

  /** What the driver has sent and received at one moment. */
  datatype View = View(sent: seq<CommandFrame>, queue: seq<EventFrame>, raw: seq<EventFrame>, consumed: map<nat, nat>)
  {
    function Count(invocation: nat): nat {
      if invocation in consumed then consumed[invocation] else 0
    }

    /** After a step that sent `command` and took in the whole `reply`. */
    function Took(command: Command, reply: seq<EventFrame>, step: WorkloadStep): View {
      View(Sent(sent, command), [], raw + reply,
           if PrintsLine(step) then consumed[Subject(step) := Count(Subject(step)) + 1] else consumed)
    }

    /** After a step that sent `command` and found the invocation failing in the second frame. */
    function Tripped(command: Command, reply: seq<EventFrame>): View {
      var taken := if |reply| < 2 then |reply| else 2;
      View(Sent(sent, command), reply[taken..], raw + reply[..taken], consumed)
    }
  }

  function ViewOf(c: WorkloadController): View
    reads c, c.vm
  {
    View(c.vm.sent, c.vm.queue, c.raw, c.consumed)
  }

  /** What a step must have seen for the drive to go on: the network switched, the line printed, the
      invocation cleaned up. */
  predicate Confirmed(scenario: WorkloadScenario, plan: WorkloadChoicePlan, step: WorkloadStep, before: View,
                      after: View)
    requires InPlan(step, plan)
  {
    if PrintsLine(step) then
      NextIs(Fold(after.raw), Subject(step), before.Count(Subject(step)), ExpectedLine(plan, step))
    else
      after.raw != [] &&
      var last := after.raw[|after.raw| - 1].event;
      match step
      case ActivateStep => last == OutageActivated(scenario.PeerCidr(), ProhibitRule(scenario.PeerCidr()))
      case RestoreStep => last == NetworkRestored(scenario.PeerCidr())
      case _ => last.CleanupComplete?
  }

  /** A step sends its command at most once, exactly once when the drive goes on, and takes in the
      whole reply when it is the one hoped for. */
  predicate StepDone(vm: Vm, before: View, after: View, ok: bool, going: bool, scenario: WorkloadScenario,
                     plan: WorkloadChoicePlan, launch: LaunchIdentity, step: WorkloadStep, offset: nat)
    requires InPlan(step, plan)
  {
    var command := StepCommand(scenario, plan, launch, step, offset);
    var reply := vm.guest(Sent(before.sent, command));
    && (after.sent == before.sent || after.sent == Sent(before.sent, command))
    && (ok && going ==> after.sent != before.sent && Confirmed(scenario, plan, step, before, after))
    && (step.ActivateStep? || step.RestoreStep? ==> ok == going)
    && (vm.reliable && before.queue == []
        && Smooth(before.raw, reply, |before.sent| + 1, scenario, plan, step, offset, before.Count(Subject(step))) ==>
          ok && going && after == before.Took(command, reply, step))
    && (vm.reliable && before.queue == []
        && Stumbles(before.raw, reply, |before.sent| + 1, plan, step, offset, before.Count(Subject(step))) ==>
          ok && !going && after == before.Tripped(command, reply))
  }

  lemma NeverStumbles(raw: seq<EventFrame>, plan: WorkloadChoicePlan, step: WorkloadStep, offset: nat)
    requires InPlan(step, plan) && !IsInput(step)
    ensures forall reply, commandId, count :: !Stumbles(raw, reply, commandId, plan, step, offset, count)
  {}

  method NetworkStep(c: WorkloadController, scenario: WorkloadScenario, plan: WorkloadChoicePlan,
                     launch: LaunchIdentity,
                     step: WorkloadStep, offset: nat) returns (ok: bool)
    requires c.Valid() && (step.ActivateStep? || step.RestoreStep?)
    modifies c, c.vm, c.trace
    ensures c.Valid() && StepDone(c.vm, old(ViewOf(c)), ViewOf(c), ok, ok, scenario, plan, launch, step, offset)
  {
    hide Healthy, Fold, Continues, Stumbles;
    NeverStumbles(c.raw, plan, step, offset);
    var peer := scenario.PeerCidr();
    if step.ActivateStep? {
      ok := SwitchNetwork(c, ActivateOutage(peer), OutageActivated(peer, ProhibitRule(peer)));
    } else {
      ok := SwitchNetwork(c, RestoreNetwork(peer), NetworkRestored(peer));
    }
  }

  method InputStep(c: WorkloadController, scenario: WorkloadScenario, plan: WorkloadChoicePlan, launch: LaunchIdentity,
                   step: WorkloadStep, offset: nat) returns (ok: bool, going: bool)
    requires c.Valid() && IsInput(step) && InPlan(step, plan)
    modifies c, c.vm, c.trace
    ensures c.Valid() && StepDone(c.vm, old(ViewOf(c)), ViewOf(c), ok, going, scenario, plan, launch, step, offset)
  {
    hide Healthy, Fold, Continues, Prints, Fails, Hex, InputText, ExpectedLine;
    ok, going := Converse(c, step.invocation, offset, InputText(plan, step), ExpectedLine(plan, step));
  }

  method StartStepOf(c: WorkloadController, scenario: WorkloadScenario, plan: WorkloadChoicePlan,
                     launch: LaunchIdentity,
                     step: WorkloadStep, offset: nat) returns (ok: bool, going: bool)
    requires c.Valid() && step.StartStep?
    modifies c, c.vm, c.trace
    ensures c.Valid() && StepDone(c.vm, old(ViewOf(c)), ViewOf(c), ok, going, scenario, plan, launch, step, offset)
  {
    hide Healthy, Fold, Continues, Prints, Stumbles;
    NeverStumbles(c.raw, plan, step, offset);
    ok, going := StartInvocation(c, step.invocation, launch);
  }

  method EndStep(c: WorkloadController, scenario: WorkloadScenario, plan: WorkloadChoicePlan, launch: LaunchIdentity,
                 step: WorkloadStep, offset: nat) returns (ok: bool, going: bool)
    requires c.Valid() && (step.TerminateStep? || step.EofStep?)
    modifies c, c.vm, c.trace
    ensures c.Valid() && StepDone(c.vm, old(ViewOf(c)), ViewOf(c), ok, going, scenario, plan, launch, step, offset)
  {
    hide Healthy, Fold, Continues, Quiet, Stumbles;
    NeverStumbles(c.raw, plan, step, offset);
    var k := step.invocation;
    if step.TerminateStep? {
      ok, going := EndInvocation(c, k, Terminate(k), (event: Event) => event.TerminationRequested?);
    } else {
      ok, going := EndInvocation(c, k, StdinEof(k), (event: Event) => event == InputAccepted(k, offset, 0, true));
    }
  }

  method TakeStep(c: WorkloadController, scenario: WorkloadScenario, plan: WorkloadChoicePlan, launch: LaunchIdentity,
                  step: WorkloadStep, offset: nat) returns (ok: bool, going: bool)
    requires c.Valid() && InPlan(step, plan)
    modifies c, c.vm, c.trace
    ensures c.Valid() && StepDone(c.vm, old(ViewOf(c)), ViewOf(c), ok, going, scenario, plan, launch, step, offset)
  {
    hide Fold, StepDone;
    match step
    case ActivateStep =>
      ok := NetworkStep(c, scenario, plan, launch, step, offset);
      going := ok;
    case RestoreStep =>
      ok := NetworkStep(c, scenario, plan, launch, step, offset);
      going := ok;
    case StartStep(_) =>
      ok, going := StartStepOf(c, scenario, plan, launch, step, offset);
    case TerminateStep(_) =>
      ok, going := EndStep(c, scenario, plan, launch, step, offset);
    case EofStep(_) =>
      ok, going := EndStep(c, scenario, plan, launch, step, offset);
    case _ =>
      ok, going := InputStep(c, scenario, plan, launch, step, offset);
  }
}
