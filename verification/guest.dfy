/** The honest guest: the fixture under a process runtime that makes the steps of `Machine`, on a network
    that obeys its switches. It keeps its own counters; nothing here looks at what the host makes of its
    events. */
module HonestGuest {
  import opened Protocol
  import opened Traces
  import opened Checker
  import opened Machine
  import opened Fixture

  /** The limits the guest's runtime is built with. */
  const GUEST_LIMITS: ValidLimits :=
    Limits(16 * 1024 * 1024, 16 * 1024 * 1024, MAX_STDIN_FRAME_BYTES, MAX_OUTPUT_FRAME_BYTES)

  datatype Guest = Guest(runtime: Runtime, outage: bool, program: Program)

  const NEW_GUEST := Guest(IDLE, false, NEW_PROGRAM)

  /** The steps that end an invocation: its members are reaped, both pipes end, the barrier completes and
      the root is removed. */
  function EndSteps(members: nat, exit: ProcessExit): seq<Step> {
    [Reap(members, Some(exit)), DropInput, ReadEof(Stdout), ReadEof(Stderr), Finish, Release]
  }

  /** The steps a response takes: one line read, or a last word and the end. */
  function ResponseSteps(members: nat, response: Response): seq<Step> {
    match response
    case Says(line) => [Read(Stdout, line + "\n")]
    case Stops(line) => [Read(Stdout, line + "\n")] + EndSteps(members, Exited(0))
    case Dies(message, code) => [Read(Stderr, message + "\n")] + EndSteps(members, Exited(code))
  }

  /** The primary process, and its escaped descendant if it has one. */
  function Members(g: Guest): nat {
    if g.program.spawned then 2 else 1
  }

  predicate IsActive(g: Guest, k: nat) {
    g.runtime.active.Some? && g.runtime.active.value.id == k
  }

  /** The command line an input command carries, when the runtime is due to take it. */
  function LineOf(g: Guest, command: Command): Option<Bytes> {
    if command.StdinWrite? && IsActive(g, command.invocation)
      && g.runtime.active.value.inputOffset == command.offset then
      match Unhex(command.bytes, MAX_STDIN_FRAME_BYTES)
      case Some(data) => if data != [] && data[|data| - 1] == '\n' then Some(data[..|data| - 1]) else None
      case None => None
    else None
  }

  /** What the runtime does about a command. */
  function StepsFor(g: Guest, command: Command, served: map<string, string>): seq<Step> {
    match command
    case Start(k, launch) => [Begin(k, launch), Read(Stdout, READY_LINE + "\n")]
    case StdinWrite(_, _, _) =>
      (match LineOf(g, command)
       case Some(line) =>
         [Write(line + "\n"), Flush(|line| + 1)] + ResponseSteps(Members(g), Respond(g.program, line, g.outage, served))
       case None => [])
    case StdinEof(k) => if IsActive(g, k) then [CloseInput, Flush(0)] + EndSteps(Members(g), Exited(0)) else []
    case Terminate(k) =>
      if IsActive(g, k) then [Kill] + EndSteps(Members(g), Signaled(TERMINATION_SIGNAL)) else []
    case _ => []
  }

  /** What the network and the agent report of a command. */
  function AgentEvents(command: Command): seq<Event> {
    match command
    case ConfigureNetwork(iface, cidr, gateway) => [NetworkConfigured(iface, cidr, gateway)]
    case ActivateOutage(peer) => [OutageActivated(peer, ProhibitRule(peer))]
    case RestoreNetwork(peer) => [NetworkRestored(peer)]
    case Shutdown => [AgentStopped]
    case _ => []
  }

  datatype Performed = Performed(runtime: Runtime, events: seq<Event>)

  /** Make the steps one after another, as far as the machine allows. */
  function Perform(r: Runtime, steps: seq<Step>, sha: string -> string): Performed
    decreases |steps|
  {
    if steps == [] || !Enabled(r, steps[0], GUEST_LIMITS) then Performed(r, [])
    else
      var rest := Perform(Next(r, steps[0], GUEST_LIMITS), steps[1..], sha);
      Performed(rest.runtime, Reports(r, steps[0], GUEST_LIMITS, sha) + rest.events)
  }

  function Reply(g: Guest, command: Command, served: map<string, string>, sha: string -> string): seq<Event> {
    AgentEvents(command) + Perform(g.runtime, StepsFor(g, command, served), sha).events
  }

  function GuestAfter(g: Guest, command: Command, served: map<string, string>, sha: string -> string): Guest {
    Guest(Perform(g.runtime, StepsFor(g, command, served), sha).runtime,
          command.ActivateOutage? || (g.outage && !command.RestoreNetwork?),
          if command.Start? then NEW_PROGRAM
          else if LineOf(g, command).Some? then AfterLine(g.program, LineOf(g, command).value) else g.program)
  }

  /** The guest after the commands so far. */
  function Stands(sent: seq<CommandFrame>, served: map<string, string>, sha: string -> string): Guest {
    if sent == [] then NEW_GUEST
    else GuestAfter(Stands(sent[..|sent| - 1], served, sha), sent[|sent| - 1].command, served, sha)
  }

  /** Everything the honest guest sends in answer to the commands so far. */
  function HonestRun(sent: seq<CommandFrame>, served: map<string, string>, sha: string -> string): seq<EventFrame>
    decreases |sent|, 1
  {
    if sent == [] then [] else HonestRun(sent[..|sent| - 1], served, sha) + HonestReply(sent, served, sha)
  }

  /** Its reply to the last command, numbered on. */
  function HonestReply(sent: seq<CommandFrame>, served: map<string, string>, sha: string -> string): seq<EventFrame>
    decreases |sent|, 0
  {
    if sent == [] then []
    else
      var init, last := sent[..|sent| - 1], sent[|sent| - 1];
      Framed(Reply(Stands(init, served, sha), last.command, served, sha), |HonestRun(init, served, sha)| + 1,
             last.commandId)
  }

  ghost predicate Honest(guest: Replies, served: map<string, string>, sha: string -> string) {
    forall sent :: guest(sent) == HonestReply(sent, served, sha)
  }

  // ---- The guest is a run of the machine ---------------------------------------------------

  predicate OfRuntime(event: Event) {
    || event.WorkloadStarted? || event.InputAccepted? || event.TerminationRequested? || event.WorkloadOutput?
    || event.WorkloadExited? || event.LaunchFailed? || event.CleanupComplete?
  }

  /** The runtime's events among the frames. */
  function RuntimeEvents(frames: seq<EventFrame>): seq<Event> {
    if frames == [] then []
    else
      var last := frames[|frames| - 1].event;
      RuntimeEvents(frames[..|frames| - 1]) + if OfRuntime(last) then [last] else []
  }

  /** Performing steps extends a run. */
  lemma {:induction false} PerformExtends(run: seq<Step>, todo: seq<Step>, sha: string -> string)
    returns (longer: seq<Step>)
    requires Possible(run, IDLE, GUEST_LIMITS)
    ensures Possible(longer, IDLE, GUEST_LIMITS)
    ensures var p := Perform(After(run, IDLE, GUEST_LIMITS), todo, sha);
            && After(longer, IDLE, GUEST_LIMITS) == p.runtime
            && Reported(longer, IDLE, GUEST_LIMITS, sha) == Reported(run, IDLE, GUEST_LIMITS, sha) + p.events
    decreases |todo|
  {
    hide Enabled, Next, Reports, Possible, After, Reported;
    var r := After(run, IDLE, GUEST_LIMITS);
    longer := run;
    if todo != [] && Enabled(r, todo[0], GUEST_LIMITS) {
      StepAppends(run, todo[0], IDLE, GUEST_LIMITS, sha);
      longer := PerformExtends(run + [todo[0]], todo[1..], sha);
    }
  }

  lemma {:induction false} RuntimeEventsOf(frames: seq<EventFrame>, events: seq<Event>, next: nat, command: nat)
    ensures RuntimeEvents(frames + Framed(events, next, command)) == RuntimeEvents(frames) + Workload(events)
    decreases |events|
  {
    hide OfRuntime;
    var all := frames + Framed(events, next, command);
    if events == [] {
      assert all == frames;
    } else {
      var n := |events| - 1;
      RuntimeEventsOf(frames, events[..n], next, command);
      assert all[..|all| - 1] == frames + Framed(events[..n], next, command);
    }
  }

  function Workload(events: seq<Event>): seq<Event> {
    if events == [] then []
    else Workload(events[..|events| - 1]) + if OfRuntime(events[|events| - 1]) then [events[|events| - 1]] else []
  }

  lemma {:induction false} AllWorkload(one: seq<Event>, two: seq<Event>)
    requires (forall i | 0 <= i < |one| :: !OfRuntime(one[i])) && (forall i | 0 <= i < |two| :: OfRuntime(two[i]))
    ensures Workload(one + two) == two
    decreases |one| + |two|
  {
    hide OfRuntime;
    if two != [] {
      var n := |two| - 1;
      assert (one + two)[..|one + two| - 1] == one + two[..n];
      AllWorkload(one, two[..n]);
    } else if one != [] {
      assert one + two == one;
      AllWorkload(one[..|one| - 1], []);
      assert one[..|one| - 1] + [] == one[..|one| - 1];
    }
  }

  lemma {:induction false} PerformedIsWorkload(r: Runtime, steps: seq<Step>, sha: string -> string)
    ensures forall i | 0 <= i < |Perform(r, steps, sha).events| :: OfRuntime(Perform(r, steps, sha).events[i])
    decreases |steps|
  {
    if steps != [] && Enabled(r, steps[0], GUEST_LIMITS) {
      PerformedIsWorkload(Next(r, steps[0], GUEST_LIMITS), steps[1..], sha);
    }
  }

  /** Whatever commands it is sent, the honest guest's runtime makes a run of the machine, and the
      runtime's events among its frames are what that run reports. */
  lemma {:induction false} GuestIsAMachineRun(sent: seq<CommandFrame>, served: map<string, string>,
                                              sha: string -> string)
    returns (run: seq<Step>)
    ensures Possible(run, IDLE, GUEST_LIMITS)
    ensures After(run, IDLE, GUEST_LIMITS) == Stands(sent, served, sha).runtime
    ensures Reported(run, IDLE, GUEST_LIMITS, sha) == RuntimeEvents(HonestRun(sent, served, sha))
  {
    hide Enabled, Next, Reports, StepsFor, Perform, Workload, OfRuntime;
    if sent == [] {
      run := [];
    } else {
      var init, last := sent[..|sent| - 1], sent[|sent| - 1];
      var before := GuestIsAMachineRun(init, served, sha);
      var g := Stands(init, served, sha);
      var steps := StepsFor(g, last.command, served);
      run := PerformExtends(before, steps, sha);
      PerformedIsWorkload(g.runtime, steps, sha);
      AgentEventsAreNot(last.command);
      AllWorkload(AgentEvents(last.command), Perform(g.runtime, steps, sha).events);
      var frames := HonestRun(init, served, sha);
      RuntimeEventsOf(frames, Reply(g, last.command, served, sha), |frames| + 1, last.commandId);
    }
  }

  lemma AgentEventsAreNot(command: Command)
    ensures forall i | 0 <= i < |AgentEvents(command)| :: !OfRuntime(AgentEvents(command)[i])
  {}
}
