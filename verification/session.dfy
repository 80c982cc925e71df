/** Host and guest put together: the commands a drive sends, served by an agent. */
module Session {
  import opened Protocol
  import opened Traces
  import opened Scenarios
  import opened Regimes
  import opened Controller
  import opened Driving
  import opened Courtesy
  import opened GuestRuntime
  import opened GuestAgent
  import NetworkDrive
  import Assertions

  /** Whatever answered the host while it sent them, over whatever channel and however far the drive came:
      an agent that is served the commands refuses none for a reason of regime, and the checker finds
      nothing wrong with what it emits but lines that are too long. */
  method ServeDrive(scenario: WorkloadScenario, plan: WorkloadChoicePlan, launch: LaunchIdentity, vm: Vm,
                    sha: string -> string, agent: Agent) returns (outcome: Outcome)
    requires plan.Valid() && scenario.Valid() && vm.sent == [] && agent.Valid() && agent.handled == []
    modifies vm, agent, agent.runtime, agent.runtime.Footprint(), agent.runtime.journal.ledger,
             agent.runtime.journal.tally
    ensures WellDriven(vm.sent)
    ensures !(outcome.Refused? && AgainstRegime(outcome.refusal))
    ensures outcome == Carried(true) ==> agent.handled == vm.sent
    ensures outcome.Broken? ==>
              agent.runtime.kernel.failures > old(agent.runtime.kernel.failures) || agent.runtime.Overrun()
    ensures OnlyLongLines(Fold(agent.emitted))
  {
    hide Journal.Holds, WellDriven, ProcessRuntime.Valid, Agent.Valid, GuestInvocation.Valid, OnlyLongLines, Fold,
         Foreseen, IsComplete, Driving.Outcome, Agent.Admits, ProcessRuntime.Overrun,
         AgainstRegime, WorkloadChoicePlan.Valid, WorkloadScenario.Valid;
    var recording;
    ghost var raw;
    recording, raw := Drive(scenario, plan, launch, vm, sha, 0);
    outcome := Serve(agent, vm.sent);
  }

  /** What an agent reports of a network command, the host accepts. */
  lemma AgentIsAccepted(agent: Agent, command: Command, more: seq<Event>)
    requires !agent.ForRuntime(command) && agent.NetworkReported(command, more)
    ensures |more| == NetworkDrive.ReplyCount(command)
    ensures forall i | 0 <= i < |more| :: NetworkDrive.ValidResponse(command, i, more[i])
  {
    hide NetworkDrive.ValidReport, NetworkDrive.ValidResponse, Assertions.Evaluate;
    NetworkDrive.HostAcceptsReports(command, more);
    if command.Check? {
      NetworkDrive.ReportShape(agent.events, command.outageEventBound, command.livenessEventBound);
    } else if command.Request? {
      var e := more[1];
      if e.RequestSucceeded? {
        assert e == RequestSucceeded(command.requestId, command.payload, e.responseId, e.responsePayload,
                                     command.phase);
      } else {
        assert e == RequestUnavailable(command.requestId, command.phase, e.error, e.errno);
      }
    }
  }
}
