/** The host's side of a network run, recording or replaying. */
module NetworkDrive {
  import opened Protocol
  import opened Scenarios
  import opened Assertions
  import opened Controller
  import opened Network
  import opened Manners
  import Driver

  /** Exactly the four network assertions, each once, and a summary that agrees with them. */
  predicate ValidReport(report: AssertionReport) {
    && multiset(Names(report.assertions)) == multiset(PROFILE)
    && report.passed == forall i | 0 <= i < |report.assertions| :: report.assertions[i].passed
  }

  function Names(results: seq<AssertionResult>): seq<AssertionName> {
    seq(|results|, i requires 0 <= i < |results| => results[i].name)
  }

  const PROFILE: set<AssertionName> := {Safety, ControlledOutage, Restoration, BoundedRecovery}

  /** The check of a received report: no name outside the profile, none twice, none missing. */
  method ValidateProfile(report: AssertionReport) returns (ok: bool)
    ensures ok <==> ValidReport(report)
  {
    ghost var names := Names(report.assertions);
    var seen: set<AssertionName> := {};
    var agrees := true;
    for i := 0 to |report.assertions|
      invariant multiset(names[..i]) == multiset(seen)
      invariant agrees <==> forall j | 0 <= j < i :: report.assertions[j].passed
    {
      var name := report.assertions[i].name;
      NextName(names, i, seen);
      if name !in PROFILE || name in seen {
        return false;
      }
      seen := seen + {name};
      agrees := agrees && report.assertions[i].passed;
    }
    assert names[..|names|] == names;
    SameMembers(seen, PROFILE);
    ok := seen == PROFILE && report.passed == agrees;
  }

  lemma NextName(names: seq<AssertionName>, i: nat, seen: set<AssertionName>)
    requires i < |names| && multiset(names[..i]) == multiset(seen)
    ensures names[i] !in seen ==> multiset(names[..i + 1]) == multiset(seen + {names[i]})
    ensures names[i] in seen || names[i] !in PROFILE ==> multiset(names) != multiset(PROFILE)
  {
    assert names[..i + 1] == names[..i] + [names[i]] && names == names[..i + 1] + names[i + 1..];
    assert multiset(names)[names[i]] >= multiset(names[..i + 1])[names[i]] == multiset(seen)[names[i]] + 1;
  }

  lemma SameMembers(one: set<AssertionName>, two: set<AssertionName>)
    ensures multiset(one) == multiset(two) <==> one == two
  {
    assert forall name :: name in one <==> name in multiset(one);
    assert forall name :: name in two <==> name in multiset(two);
  }

  /** Each command is answered by one event, a request by two. */
  function ReplyCount(command: Command): nat {
    if command.Request? then 2 else 1
  }

  predicate ValidResponse(command: Command, index: nat, event: Event) {
    match command
    case ConfigureNetwork(iface, cidr, gateway) => index == 0 && event == NetworkConfigured(iface, cidr, gateway)
    case ActivateOutage(peer) => index == 0 && event == OutageActivated(peer, "prohibit " + peer)
    case RestoreNetwork(peer) => index == 0 && event == NetworkRestored(peer)
    case Request(id, payload, phase) =>
      || (index == 0 && event == RequestAttempted(id, payload, phase))
      || (index == 1 && event.RequestSucceeded? && event.requestId == id && event.requestPayload == payload
          && event.phase == phase)
      || (index == 1 && event.RequestUnavailable? && event.requestId == id && event.phase == phase)
    case Check(_, _) => index == 0 && event.AssertionsEvaluated? && ValidReport(event.report)
    case Shutdown => index == 0 && event == AgentStopped
    case _ => false
  }

  /** What an agent may report of a network command: the confirmation of a switch, an attempt and whatever the
      network made of it, a report, its stop. */
  ghost predicate Reportable(command: Command, events: seq<Event>) {
    match command
    case Request(id, payload, phase) =>
      && |events| == 2 && events[0] == RequestAttempted(id, payload, phase)
      && ((exists rid, data :: events[1] == RequestSucceeded(id, payload, rid, data, phase))
          || (exists error, errno :: events[1] == RequestUnavailable(id, phase, error, errno)))
    case Check(_, _) => exists report :: events == [AssertionsEvaluated(report)] && ValidReport(report)
    case Shutdown => events == [AgentStopped]
    case _ => SwitchReport(command) != [] && events == SwitchReport(command)
  }

  /** The host accepts exactly the reports an agent may make. */
  lemma HostAcceptsReports(command: Command, events: seq<Event>)
    ensures |events| == ReplyCount(command)
            && (forall i | 0 <= i < |events| :: ValidResponse(command, i, events[i])) <==>
            Reportable(command, events)
  {
    hide ValidReport;
    if command.Request? && |events| == 2 && (forall i | 0 <= i < |events| :: ValidResponse(command, i, events[i])) {
      var e := events[1];
      assert ValidResponse(command, 0, events[0]) && ValidResponse(command, 1, e);
      if e.RequestSucceeded? {
        assert e == RequestSucceeded(command.requestId, command.payload, e.responseId, e.responsePayload,
                                     command.phase);
      } else {
        assert e == RequestUnavailable(command.requestId, command.phase, e.error, e.errno);
      }
    }
    if |events| == 1 {
      assert events == [events[0]];
    }
  }

  /** The frame comes next in the stream and is event `index` of the command's answer. */
  predicate Fits(command: Command, commandId: nat, raw: seq<EventFrame>, index: nat, frame: EventFrame) {
    && frame.protocolVersion == PROTOCOL_VERSION && frame.commandId == commandId && frame.eventId == |raw| + 1
    && ValidResponse(command, index, frame.event)
  }

  /** The frames answer the command, one after another. */
  predicate Answers(command: Command, commandId: nat, raw: seq<EventFrame>, reply: seq<EventFrame>) {
    && |reply| == ReplyCount(command)
    && Fits(command, commandId, raw, 0, reply[0])
    && (|reply| == 2 ==> Fits(command, commandId, raw + [reply[0]], 1, reply[1]))
  }

  /** A replay accepts the frame: it is the recorded one. */
  predicate Agrees(expected: Option<seq<NormalizedEvent>>, index: nat, frame: EventFrame) {
    expected.None? || (index < |expected.value| && expected.value[index] == frame.Normalize())
  }

  /** The frames at a position of a stream are the answer to a command, and the recorded ones in a replay. */
  predicate AnswerAt(expected: Option<seq<NormalizedEvent>>, tale: seq<EventFrame>, position: nat, command: Command,
                     commandId: nat) {
    var end := position + ReplyCount(command);
    && end <= |tale| && Answers(command, commandId, tale[..position], tale[position..end])
    && forall j | position <= j < end :: Agrees(expected, j, tale[j])
  }

  class NetworkController {
    const vm: Vm
    const sends: bool
    const expected: Option<seq<NormalizedEvent>>
    var nextCommandId: nat
    var nextEventId: nat
    var raw: seq<EventFrame>
    var events: seq<NormalizedEvent>

    ghost predicate Valid()
      reads this, vm
    {
      && nextCommandId >= 1 && nextEventId == |raw| + 1 && Sequential(raw) && events == Normalized(raw)
      && (sends ==> nextCommandId == |vm.sent| + 1)
      && (forall i | 0 <= i < |raw| :: raw[i].protocolVersion == PROTOCOL_VERSION && Agrees(expected, i, raw[i]))
    }

    constructor (vm: Vm, sends: bool, expected: Option<seq<NormalizedEvent>>)
      requires vm.sent == []
      ensures Valid() && this.vm == vm && this.sends == sends && this.expected == expected && raw == []
              && nextCommandId == 1
    {
      this.vm, this.sends, this.expected := vm, sends, expected;
      nextCommandId, nextEventId, raw, events := 1, 1, [], [];
    }

    /** Receive and check one event of a reply. */
    method ReceiveReply(command: Command, commandId: nat, index: nat) returns (frame: Option<EventFrame>)
      requires Valid()
      modifies this`nextEventId, this`raw, this`events, vm`queue
      ensures Valid()
      ensures frame.Some? ==> && raw == old(raw) + [frame.value] && old(vm.queue) == [frame.value] + vm.queue
                              && Fits(command, commandId, old(raw), index, frame.value)
      ensures vm.reliable && old(vm.queue) != []
              && Fits(command, commandId, old(raw), index, old(vm.queue)[0])
                 && Agrees(expected, old(|raw|), old(vm.queue)[0]) ==>
                frame.Some?
      ensures frame.Some? ==> Agrees(expected, old(|raw|), frame.value)
    {
      hide ValidResponse;
      frame := vm.Receive();
      if frame.None? {
        return;
      }
      var f := frame.value;
      if f.protocolVersion != PROTOCOL_VERSION || f.commandId != commandId || f.eventId != nextEventId
         || !ValidResponse(command, index, f.event) || !Agrees(expected, |events|, f) {
        return None;
      }
      Keep(f);
    }

    method Keep(f: EventFrame)
      requires Valid() && f.protocolVersion == PROTOCOL_VERSION && f.eventId == nextEventId
               && Agrees(expected, |raw|, f)
      modifies this`nextEventId, this`raw, this`events
      ensures Valid() && raw == old(raw) + [f]
    {
      nextEventId := nextEventId + 1;
      assert (raw + [f])[..|raw|] == raw;
      raw := raw + [f];
      events := events + [f.Normalize()];
    }

    /** Take in the whole answer to a command. */
    method Collect(command: Command, commandId: nat) returns (ok: bool, received: seq<EventFrame>)
      requires Valid()
      modifies this`nextEventId, this`raw, this`events, vm`queue
      ensures Valid()
      ensures ok ==> raw == old(raw) + received && Answers(command, commandId, old(raw), received)
      ensures expected.None? && vm.reliable && Answers(command, commandId, old(raw), old(vm.queue)) ==>
                ok && received == old(vm.queue) && vm.queue == []
      ensures ok ==> raw + vm.queue == old(raw + vm.queue) && old(raw) <= raw
      ensures ok ==> AnswerAt(expected, old(raw + vm.queue), old(|raw|), command, commandId)
      ensures ok ==> AnswerAt(expected, raw, old(|raw|), command, commandId)
      ensures vm.reliable && AnswerAt(expected, old(raw + vm.queue), old(|raw|), command, commandId) ==> ok
    {
      hide Fits, ValidResponse, Normalized, Sequential;
      ghost var tale, n := raw + vm.queue, |raw|;
      AnswerFrames(expected, raw, vm.queue, command, commandId);
      ok, received := false, [];
      var first := ReceiveReply(command, commandId, 0);
      if first.None? {
        return;
      }
      received := [first.value];
      assert raw + vm.queue == tale;
      if ReplyCount(command) == 2 {
        var second := ReceiveReply(command, commandId, 1);
        if second.None? {
          return;
        }
        received := received + [second.value];
        assert raw + vm.queue == tale;
      }
      AnswerFrames(expected, old(raw), received, command, commandId);
      ok := true;
    }

    /** Send a command, unless replaying, and take in its whole answer. */
    method Issue(command: Command) returns (ok: bool, received: seq<EventFrame>)
      requires Valid()
      modifies this, vm
      ensures Valid() && nextCommandId == old(nextCommandId) + 1
      ensures vm.sent == if sends then Driver.Sent(old(vm.sent), command) else old(vm.sent)
      ensures ok ==> raw == old(raw) + received && Answers(command, old(nextCommandId), old(raw), received)
      ensures sends && expected.None? && vm.reliable && old(vm.queue) == []
              && Answers(command, old(nextCommandId), old(raw), vm.guest(Driver.Sent(old(vm.sent), command))) ==>
                ok && received == vm.guest(vm.sent) && vm.queue == []
      ensures ok && !sends ==> raw + vm.queue == old(raw + vm.queue)
      ensures ok ==> old(raw) <= raw && AnswerAt(expected, raw, old(|raw|), command, old(nextCommandId))
      ensures !sends && vm.reliable ==> (ok <==> AnswerAt(expected, old(raw + vm.queue), old(|raw|), command,
                                                          old(nextCommandId)))
    {
      hide Answers, AnswerAt, Normalized, Sequential;
      var commandId := nextCommandId;
      nextCommandId := nextCommandId + 1;
      received, ok := [], true;
      if sends {
        ok := vm.Send(CommandFrame(PROTOCOL_VERSION, commandId, command));
        if !ok {
          return;
        }
        assert old(vm.queue) == [] ==> vm.queue == vm.guest(vm.sent);
      }
      ok, received := Collect(command, commandId);
    }
  }

  /** An answer stays where it is when more frames come. */
  lemma AnswerStays(expected: Option<seq<NormalizedEvent>>, tale: seq<EventFrame>, longer: seq<EventFrame>,
                    position: nat,
                    command: Command, commandId: nat)
    requires tale <= longer && AnswerAt(expected, tale, position, command, commandId)
    ensures AnswerAt(expected, longer, position, command, commandId)
  {
    hide Answers, Agrees;
    var end := position + ReplyCount(command);
    assert longer[..position] == tale[..position] && longer[position..end] == tale[position..end];
  }

  /** Where the frames of an answer stand: first in what is left to read. */
  lemma AnswerFrames(expected: Option<seq<NormalizedEvent>>, raw: seq<EventFrame>, queue: seq<EventFrame>,
                     command: Command,
                     commandId: nat)
    ensures var tale, n := raw + queue, |raw|;
            AnswerAt(expected, tale, n, command, commandId) <==>
            && |queue| >= ReplyCount(command) && Fits(command, commandId, raw, 0, queue[0])
               && Agrees(expected, n, queue[0])
            && (command.Request? ==>
                  Fits(command, commandId, raw + [queue[0]], 1, queue[1]) && Agrees(expected, n + 1, queue[1]))
  {
    hide Fits, Agrees;
    var tale, n := raw + queue, |raw|;
    if |queue| >= ReplyCount(command) {
      assert tale[..n] == raw && tale[n..n + ReplyCount(command)] == queue[..ReplyCount(command)];
      assert tale[n] == queue[0];
      if command.Request? {
        assert tale[n + 1] == queue[1] && queue[..2][0] == queue[0] && queue[..2][1] == queue[1];
      }
    }
  }

  // ---- The honest guest ---------------------------------------------------------------------

  predicate InOutage(history: seq<EventFrame>) {
    history != [] &&
    var last := history[|history| - 1].event;
    last.OutageActivated? || (!last.NetworkRestored? && InOutage(history[..|history| - 1]))
  }

  /** The honest answer to a command after the events in `history`. */
  function Answer(history: seq<EventFrame>, command: Command, fixture: map<string, string>): seq<Event> {
    match command
    case ConfigureNetwork(iface, cidr, gateway) => [NetworkConfigured(iface, cidr, gateway)]
    case ActivateOutage(peer) => [OutageActivated(peer, "prohibit " + peer)]
    case RestoreNetwork(peer) => [NetworkRestored(peer)]
    case Request(id, payload, phase) =>
      [RequestAttempted(id, payload, phase),
       if InOutage(history) then RequestUnavailable(id, phase, AdministrativeProhibited, Some(EACCES))
       else if id in fixture then RequestSucceeded(id, payload, id, fixture[id], phase)
       else RequestUnavailable(id, phase, Transport, None)]
    case Check(outageBound, livenessBound) => [AssertionsEvaluated(Evaluate(Kept(history), outageBound, livenessBound))]
    case Shutdown => [AgentStopped]
    case _ => []
  }

  function HonestRun(sent: seq<CommandFrame>, fixture: map<string, string>): seq<EventFrame>
    decreases |sent|, 1
  {
    if sent == [] then [] else HonestRun(sent[..|sent| - 1], fixture) + HonestReply(sent, fixture)
  }

  function HonestReply(sent: seq<CommandFrame>, fixture: map<string, string>): seq<EventFrame>
    decreases |sent|, 0
  {
    if sent == [] then []
    else
      var before, last := HonestRun(sent[..|sent| - 1], fixture), sent[|sent| - 1];
      Framed(Answer(before, last.command, fixture), |before| + 1, last.commandId)
  }

  ghost predicate IsHonest(guest: Replies, fixture: map<string, string>) {
    forall sent :: guest(sent) == HonestReply(sent, fixture)
  }

  lemma NextReply(sent: seq<CommandFrame>, command: Command, fixture: map<string, string>)
    ensures var before := HonestRun(sent, fixture);
            var reply := Framed(Answer(before, command, fixture), |before| + 1, |sent| + 1);
            HonestReply(Driver.Sent(sent, command), fixture) == reply
              && HonestRun(Driver.Sent(sent, command), fixture) == before + reply
  {
    hide Answer, Framed, InOutage;
    var all := Driver.Sent(sent, command);
    assert all[..|all| - 1] == sent;
  }

  lemma {:induction false} OutageByCount(plan: ChoicePlan, corrupt: bool, count: nat)
    requires plan.Valid() && count <= |plan.requests|
    ensures InOutage(Honest(plan, corrupt, count)) == (plan.activationIndex < count <= plan.restorationIndex)
  {
    if count > 0 {
      var i := count - 1;
      OutageByCount(plan, corrupt, i);
      OutageThrough(plan, corrupt, i);
      SkipTwo(BeforeRequest(plan, corrupt, i), Attempt(plan, i), Outcome(plan, corrupt, i));
      assert Honest(plan, corrupt, count) ==
             BeforeRequest(plan, corrupt, i) + [Attempt(plan, i), Outcome(plan, corrupt, i)];
    } else {
      assert Honest(plan, corrupt, 0)[..0] == [];
    }
  }

  /** The events before the attempt of request `i`. */
  function BeforeRequest(plan: ChoicePlan, corrupt: bool, i: nat): seq<EventFrame>
    requires i < |plan.requests|
  {
    Honest(plan, corrupt, i) + (if i == plan.activationIndex then [OutageFrame(plan)] else [])
    + (if i == plan.restorationIndex then [RestoredFrame(plan)] else [])
  }

  lemma OutageThrough(plan: ChoicePlan, corrupt: bool, i: nat)
    requires plan.Valid() && i < |plan.requests|
             && InOutage(Honest(plan, corrupt, i)) == (plan.activationIndex < i <= plan.restorationIndex)
    ensures InOutage(BeforeRequest(plan, corrupt, i)) == (plan.Phase(i) == Outage)
  {
    hide Honest;
    var h := Honest(plan, corrupt, i);
    if i == plan.activationIndex {
      assert BeforeRequest(plan, corrupt, i) == h + [OutageFrame(plan)];
    } else if i == plan.restorationIndex {
      assert BeforeRequest(plan, corrupt, i) == h + [RestoredFrame(plan)];
    } else {
      assert BeforeRequest(plan, corrupt, i) == h;
    }
  }

  lemma SkipTwo(h: seq<EventFrame>, f: EventFrame, g: EventFrame)
    requires !f.event.OutageActivated? && !f.event.NetworkRestored? && !g.event.OutageActivated?
             && !g.event.NetworkRestored?
    ensures InOutage(h + [f, g]) == InOutage(h)
  {
    var all := h + [f, g];
    assert all[..|h| + 1] == h + [f] && (h + [f])[..|h|] == h;
    assert InOutage(h + [f]) == InOutage(h);
  }

  // ---- The drive ----------------------------------------------------------------------------

  /** Recording against the honest guest, the controller holds exactly the honest events. */
  ghost predicate HonestSoFar(c: NetworkController, fixture: map<string, string>, raw: seq<EventFrame>)
    reads c, c.vm
  {
    && c.sends && c.expected.None? && c.vm.reliable && IsHonest(c.vm.guest, fixture)
    && c.vm.queue == [] && c.raw == raw && raw == HonestRun(c.vm.sent, fixture)
  }

  /** One command, whose honest reply is `reply`. */
  method Step(c: NetworkController, command: Command, ghost fixture: map<string, string>)
    returns (ok: bool, received: seq<EventFrame>)
    requires c.Valid()
    modifies c, c.vm
    ensures c.Valid() && c.nextCommandId == old(c.nextCommandId) + 1
    ensures ok ==> c.raw == old(c.raw) + received && Answers(command, old(c.nextCommandId), old(c.raw), received)
    ensures var reply := Framed(Answer(old(c.raw), command, fixture), old(|c.raw|) + 1, old(c.nextCommandId));
            old(HonestSoFar(c, fixture, c.raw)) && Answers(command, old(c.nextCommandId), old(c.raw), reply) ==>
              ok && received == reply && HonestSoFar(c, fixture, old(c.raw) + reply)
    ensures ok ==> old(c.raw) <= c.raw && AnswerAt(c.expected, c.raw, old(|c.raw|), command, old(c.nextCommandId))
    ensures ok && !c.sends ==> c.raw + c.vm.queue == old(c.raw + c.vm.queue)
    ensures !c.sends ==> c.vm.sent == old(c.vm.sent)
    ensures !c.sends && c.vm.reliable ==>
              (ok <==> AnswerAt(c.expected, old(c.raw + c.vm.queue), old(|c.raw|), command, old(c.nextCommandId)))
  {
    hide AnswerAt, Answer, Answers, HonestRun, HonestReply, Framed;
    NextReply(c.vm.sent, command, fixture);
    ok, received := c.Issue(command);
  }

  /** The honest reply to a one-event command. */
  lemma OneAnswer(command: Command, commandId: nat, raw: seq<EventFrame>, e: Event)
    requires !command.Request? && ValidResponse(command, 0, e)
    ensures Framed([e], |raw| + 1, commandId) == [Frame(|raw| + 1, commandId, e)]
    ensures Answers(command, commandId, raw, Framed([e], |raw| + 1, commandId))
  {}

  lemma TwoAnswers(command: Command, commandId: nat, raw: seq<EventFrame>, e: Event, f: Event)
    requires command.Request? && ValidResponse(command, 0, e) && ValidResponse(command, 1, f)
    ensures Framed([e, f], |raw| + 1, commandId) == [Frame(|raw| + 1, commandId, e), Frame(|raw| + 2, commandId, f)]
    ensures Answers(command, commandId, raw, Framed([e, f], |raw| + 1, commandId))
  {}

  /** Where the run stands before request `index`. */
  ghost predicate Reached(c: NetworkController, plan: ChoicePlan, index: nat)
    reads c, c.vm
    requires index <= |plan.requests|
  {
    && c.Valid()
    && |c.raw| == 1 + 2 * index + One(index > plan.activationIndex) + One(index > plan.restorationIndex)
    && c.nextCommandId == 2 + index + One(index > plan.activationIndex) + One(index > plan.restorationIndex)
  }

  // What a stream must be for a replay to take it in.

  function ConfigureCommand(scenario: Scenario): Command {
    ConfigureNetwork("eth0", "10.0.2.15/24", scenario.fixturePeer)
  }

  /** The switch before request `i`, if one is due. */
  predicate SwitchFits(expected: Option<seq<NormalizedEvent>>, scenario: Scenario, plan: ChoicePlan,
                       tale: seq<EventFrame>, i: nat)
    requires FirstEvent(plan, i) >= 2 && CommandOf(plan, i) >= 1
  {
    var position, commandId, peer := FirstEvent(plan, i) - 2, CommandOf(plan, i) - 1, scenario.fixturePeer + "/32";
    && (i == plan.activationIndex ==> AnswerAt(expected, tale, position, ActivateOutage(peer), commandId))
    && (i == plan.restorationIndex ==> AnswerAt(expected, tale, position, RestoreNetwork(peer), commandId))
  }

  function RequestCommand(plan: ChoicePlan, i: nat): Command
    requires i < |plan.requests|
  {
    Request(plan.requests[i].requestId, plan.requests[i].payload, plan.Phase(i))
  }

  predicate RequestFits(expected: Option<seq<NormalizedEvent>>, scenario: Scenario, plan: ChoicePlan,
                        tale: seq<EventFrame>, i: nat)
    requires i < |plan.requests|
  {
    && SwitchFits(expected, scenario, plan, tale, i)
    && AnswerAt(expected, tale, FirstEvent(plan, i) - 1, RequestCommand(plan, i), CommandOf(plan, i))
  }

  lemma SwitchStays(expected: Option<seq<NormalizedEvent>>, scenario: Scenario, plan: ChoicePlan, tale: seq<EventFrame>,
                    longer: seq<EventFrame>, i: nat)
    requires tale <= longer && SwitchFits(expected, scenario, plan, tale, i)
    ensures SwitchFits(expected, scenario, plan, longer, i)
  {
    hide AnswerAt;
    var position, commandId, peer := FirstEvent(plan, i) - 2, CommandOf(plan, i) - 1, scenario.fixturePeer + "/32";
    if i == plan.activationIndex {
      AnswerStays(expected, tale, longer, position, ActivateOutage(peer), commandId);
    }
    if i == plan.restorationIndex {
      AnswerStays(expected, tale, longer, position, RestoreNetwork(peer), commandId);
    }
  }

  lemma RequestStays(expected: Option<seq<NormalizedEvent>>, scenario: Scenario, plan: ChoicePlan,
                     tale: seq<EventFrame>,
                     longer: seq<EventFrame>, i: nat)
    requires i < |plan.requests| && tale <= longer && RequestFits(expected, scenario, plan, tale, i)
    ensures RequestFits(expected, scenario, plan, longer, i)
  {
    hide AnswerAt, SwitchFits;
    SwitchStays(expected, scenario, plan, tale, longer, i);
    AnswerStays(expected, tale, longer, FirstEvent(plan, i) - 1, RequestCommand(plan, i), CommandOf(plan, i));
  }

  /** The report and the stop, with nothing after them. */
  predicate ClosingFits(expected: Option<seq<NormalizedEvent>>, scenario: Scenario, tale: seq<EventFrame>,
                        position: nat,
                        commandId: nat) {
    && AnswerAt(expected, tale, position, Check(scenario.outageEventBound, scenario.livenessEventBound), commandId)
    && tale[position].event ==
       AssertionsEvaluated(Evaluate(tale[..position], scenario.outageEventBound, scenario.livenessEventBound))
    && AnswerAt(expected, tale, position + 1, Shutdown, commandId + 1)
  }

  /** Every command in its turn is answered, and the guest's report is the host's. */
  predicate Told(expected: Option<seq<NormalizedEvent>>, scenario: Scenario, plan: ChoicePlan,
                 tale: seq<EventFrame>) {
    var n := |plan.requests|;
    && AnswerAt(expected, tale, 0, ConfigureCommand(scenario), 1)
    && (forall i | 0 <= i < n :: RequestFits(expected, scenario, plan, tale, i))
    && ClosingFits(expected, scenario, tale, 2 * n + 3, n + 4)
  }

  /** The stream of a whole run, and nothing after it. */
  predicate Accepted(expected: Option<seq<NormalizedEvent>>, scenario: Scenario, plan: ChoicePlan,
                     tale: seq<EventFrame>) {
    |tale| == 2 * |plan.requests| + 5 && Told(expected, scenario, plan, tale)
  }

  method Configure(c: NetworkController, scenario: Scenario, plan: ChoicePlan, ghost fixture: map<string, string>)
    returns (ok: bool)
    requires c.Valid() && scenario.Valid() && c.raw == [] && c.nextCommandId == 1
    modifies c, c.vm
    ensures ok ==> Reached(c, plan, 0)
    ensures old(HonestSoFar(c, fixture, [])) ==>
              ok && HonestSoFar(c, fixture, Honest(plan, scenario.corruptResponses, 0))
    ensures ok ==> AnswerAt(c.expected, c.raw, 0, ConfigureCommand(scenario), 1)
    ensures ok && !c.sends ==> c.raw + c.vm.queue == old(c.vm.queue)
    ensures !c.sends ==> c.vm.sent == old(c.vm.sent)
    ensures !c.sends && c.vm.reliable ==>
              (ok <==> AnswerAt(c.expected, old(c.vm.queue), 0, ConfigureCommand(scenario), 1))
  {
    hide HonestRun, IsHonest, AnswerAt, Answers, ValidResponse, Framed, NetworkController.Valid, Hello, Answer;
    assert c.raw + c.vm.queue == c.vm.queue && c.raw + [Hello()] == [Hello()];
    assert Honest(plan, scenario.corruptResponses, 0) == [Hello()];
    var command := ConfigureNetwork("eth0", "10.0.2.15/24", scenario.fixturePeer);
    HelloAnswers(scenario, fixture);
    var received;
    ok, received := Step(c, command, fixture);
    if ok {
      ConfigureIsOne(scenario, received);
    }
  }

  lemma HelloAnswers(scenario: Scenario, fixture: map<string, string>)
    requires scenario.Valid()
    ensures Framed(Answer([], ConfigureCommand(scenario), fixture), 1, 1) == [Hello()]
    ensures Answers(ConfigureCommand(scenario), 1, [], [Hello()])
  {
    OneAnswer(ConfigureCommand(scenario), 1, [], NetworkConfigured("eth0", "10.0.2.15/24", scenario.fixturePeer));
  }

  lemma ConfigureIsOne(scenario: Scenario, received: seq<EventFrame>)
    requires Answers(ConfigureCommand(scenario), 1, [], received)
    ensures |received| == 1
  {}

  /** A command answered by the one event it asks for. */
  method AskOne(c: NetworkController, command: Command, ghost e: Event, ghost fixture: map<string, string>)
    returns (ok: bool)
    requires c.Valid() && !command.Request? && ValidResponse(command, 0, e)
    requires Answer(c.raw, command, fixture) == [e]
    modifies c, c.vm
    ensures c.Valid() && c.nextCommandId == old(c.nextCommandId) + 1
    ensures ok ==> |c.raw| == old(|c.raw|) + 1 && c.raw[..|c.raw| - 1] == old(c.raw)
                   && ValidResponse(command, 0, c.raw[|c.raw| - 1].event)
    ensures old(HonestSoFar(c, fixture, c.raw)) ==>
              ok && HonestSoFar(c, fixture, old(c.raw) + [Frame(old(|c.raw|) + 1, old(c.nextCommandId), e)])
    ensures ok ==> old(c.raw) <= c.raw && AnswerAt(c.expected, c.raw, old(|c.raw|), command, old(c.nextCommandId))
    ensures ok && !c.sends ==> c.raw + c.vm.queue == old(c.raw + c.vm.queue)
    ensures !c.sends ==> c.vm.sent == old(c.vm.sent)
    ensures !c.sends && c.vm.reliable ==>
              (ok <==> AnswerAt(c.expected, old(c.raw + c.vm.queue), old(|c.raw|), command, old(c.nextCommandId)))
  {
    hide HonestRun, IsHonest, Answer, ValidResponse, AnswerAt;
    OneAnswer(command, c.nextCommandId, c.raw, e);
    var received;
    ok, received := Step(c, command, fixture);
  }

  /** The network switches that come before request `index`. */
  method Switches(c: NetworkController, scenario: Scenario, plan: ChoicePlan, index: nat, ghost fixture: map<string,
                  string>) returns (ok: bool)
    requires scenario.Valid() && plan.Valid() && index < |plan.requests| && Reached(c, plan, index)
    modifies c, c.vm
    ensures ok ==> && c.Valid() && |c.raw| + 1 == FirstEvent(plan, index) && c.nextCommandId == CommandOf(plan, index)
    ensures old(HonestSoFar(c, fixture, Honest(plan, scenario.corruptResponses, index))) ==>
              ok && HonestSoFar(c, fixture, BeforeRequest(plan, scenario.corruptResponses, index))
    ensures ok ==> old(c.raw) <= c.raw && SwitchFits(c.expected, scenario, plan, c.raw, index)
    ensures ok && !c.sends ==> c.raw + c.vm.queue == old(c.raw + c.vm.queue)
    ensures !c.sends ==> c.vm.sent == old(c.vm.sent)
    ensures !c.sends && c.vm.reliable ==>
              (ok <==> SwitchFits(c.expected, scenario, plan, old(c.raw + c.vm.queue), index))
  {
    hide HonestRun, IsHonest, Honest, NetworkController.Valid, AnswerAt;
    ok := true;
    var peer := scenario.fixturePeer + "/32";
    ghost var h := Honest(plan, scenario.corruptResponses, index);
    if index == plan.activationIndex {
      ok := AskOne(c, ActivateOutage(peer), OutageActivated(peer, "prohibit " + peer), fixture);
      assert BeforeRequest(plan, scenario.corruptResponses, index) == h + [OutageFrame(plan)];
    } else if index == plan.restorationIndex {
      ok := AskOne(c, RestoreNetwork(peer), NetworkRestored(peer), fixture);
      assert BeforeRequest(plan, scenario.corruptResponses, index) == h + [RestoredFrame(plan)];
    } else {
      assert BeforeRequest(plan, scenario.corruptResponses, index) == h;
    }
  }

  lemma HonestRequest(plan: ChoicePlan, corrupt: bool, index: nat, fixture: map<string, string>)
    requires plan.Valid() && index < |plan.requests|
             && fixture == FixtureEntries(plan.requests, corrupt, |plan.requests|)
    ensures var request := plan.requests[index];
            Answer(BeforeRequest(plan, corrupt, index), Request(request.requestId, request.payload, plan.Phase(index)),
                   fixture) ==
            [Attempt(plan, index).event, Outcome(plan, corrupt, index).event]
  {
    hide Honest, BeforeRequest;
    OutageByCount(plan, corrupt, index);
    OutageThrough(plan, corrupt, index);
    FixtureServes(plan.requests, corrupt, |plan.requests|, index);
  }

  method OneRequest(c: NetworkController, scenario: Scenario, plan: ChoicePlan, index: nat, ghost fixture: map<string,
                    string>) returns (ok: bool)
    requires scenario.Valid() && plan.Valid() && index < |plan.requests|
    requires c.Valid() && |c.raw| + 1 == FirstEvent(plan, index) && c.nextCommandId == CommandOf(plan, index)
    modifies c, c.vm
    ensures ok ==> Reached(c, plan, index + 1)
    ensures old(HonestSoFar(c, fixture, BeforeRequest(plan, scenario.corruptResponses, index)))
            && fixture == FixtureEntries(plan.requests, scenario.corruptResponses, |plan.requests|) ==>
              ok && HonestSoFar(c, fixture, Honest(plan, scenario.corruptResponses, index + 1))
    ensures ok ==> && old(c.raw) <= c.raw
                   && AnswerAt(c.expected, c.raw, FirstEvent(plan, index) - 1, RequestCommand(plan, index),
                               CommandOf(plan, index))
    ensures ok && !c.sends ==> c.raw + c.vm.queue == old(c.raw + c.vm.queue)
    ensures !c.sends ==> c.vm.sent == old(c.vm.sent)
    ensures !c.sends && c.vm.reliable ==>
              (ok <==> AnswerAt(c.expected, old(c.raw + c.vm.queue), FirstEvent(plan, index) - 1,
                                RequestCommand(plan, index),
                                CommandOf(plan, index)))
  {
    hide HonestRun, IsHonest, Answer, AnswerAt;
    var request := plan.requests[index];
    var command := Request(request.requestId, request.payload, plan.Phase(index));
    if fixture == FixtureEntries(plan.requests, scenario.corruptResponses, |plan.requests|) {
      HonestRequest(plan, scenario.corruptResponses, index, fixture);
    }
    TwoAnswers(command, c.nextCommandId, c.raw, Attempt(plan, index).event,
               Outcome(plan, scenario.corruptResponses, index).event);
    var received;
    ok, received := Step(c, command, fixture);
    assert Honest(plan, scenario.corruptResponses, index + 1) ==
           BeforeRequest(plan, scenario.corruptResponses, index)
           + [Attempt(plan, index), Outcome(plan, scenario.corruptResponses, index)];
  }

  /** The requests, one after another, each after its switches. */
  method AllRequests(c: NetworkController, scenario: Scenario, plan: ChoicePlan, ghost fixture: map<string, string>)
    returns (ok: bool)
    requires scenario.Valid() && plan.Valid() && Reached(c, plan, 0)
    modifies c, c.vm
    ensures ok ==> Reached(c, plan, |plan.requests|)
    ensures old(HonestSoFar(c, fixture, Honest(plan, scenario.corruptResponses, 0)))
            && fixture == FixtureEntries(plan.requests, scenario.corruptResponses, |plan.requests|) ==>
              ok && HonestSoFar(c, fixture, Honest(plan, scenario.corruptResponses, |plan.requests|))
    ensures ok ==> && old(c.raw) <= c.raw
                   && forall i | 0 <= i < |plan.requests| :: RequestFits(c.expected, scenario, plan, c.raw, i)
    ensures ok && !c.sends ==> c.raw + c.vm.queue == old(c.raw + c.vm.queue)
    ensures !c.sends ==> c.vm.sent == old(c.vm.sent)
    ensures !c.sends && c.vm.reliable ==>
              (ok <==> forall i | 0 <= i < |plan.requests| ::
                         RequestFits(c.expected, scenario, plan, old(c.raw + c.vm.queue), i))
  {
    hide AnswerAt, SwitchFits, HonestSoFar, Honest, BeforeRequest, FixtureEntries, NetworkController.Valid;
    ghost var honest := HonestSoFar(c, fixture, Honest(plan, scenario.corruptResponses, 0))
      && fixture == FixtureEntries(plan.requests, scenario.corruptResponses, |plan.requests|);
    ok := true;
    ghost var tale := c.raw + c.vm.queue;
    for index := 0 to |plan.requests|
      invariant ok && Reached(c, plan, index) && (!c.sends ==> c.raw + c.vm.queue == tale)
      invariant !c.sends ==> c.vm.sent == old(c.vm.sent)
      invariant old(c.raw) <= c.raw && forall i | 0 <= i < index :: RequestFits(c.expected, scenario, plan, c.raw, i)
      invariant !c.sends && c.vm.reliable ==>
                  forall i | 0 <= i < index :: RequestFits(c.expected, scenario, plan, tale, i)
      invariant honest ==> HonestSoFar(c, fixture, Honest(plan, scenario.corruptResponses, index))
    {
      ghost var before := c.raw;
      ok := Switches(c, scenario, plan, index, fixture);
      if !ok {
        assert !c.sends && c.vm.reliable ==> !RequestFits(c.expected, scenario, plan, tale, index);
        return;
      }
      ghost var middle := c.raw;
      ok := OneRequest(c, scenario, plan, index, fixture);
      if !ok {
        assert !c.sends && c.vm.reliable ==> !RequestFits(c.expected, scenario, plan, tale, index);
        return;
      }
      forall i | 0 <= i <= index ensures RequestFits(c.expected, scenario, plan, c.raw, i) {
        if i < index {
          RequestStays(c.expected, scenario, plan, before, c.raw, i);
        } else {
          SwitchStays(c.expected, scenario, plan, middle, c.raw, index);
        }
      }
    }
  }

  datatype NetworkRecording = NetworkRecording(events: seq<NormalizedEvent>, report: AssertionReport)

  /** The report the host computes has the shape the guest's report must have. */
  lemma ReportShape(events: seq<EventFrame>, outageBound: nat, livenessBound: nat)
    ensures ValidReport(Evaluate(events, outageBound, livenessBound))
  {
    hide SafetyHolds, OutageHolds, RecoveryHolds, Restored;
    var r := Evaluate(events, outageBound, livenessBound).assertions;
    assert Names(r) == [Safety, ControlledOutage, Restoration, BoundedRecovery];
  }

  /** The closing handshake: the guest's own report, which must be the host's, then the stop. */
  method Conclude(c: NetworkController, scenario: Scenario, ghost fixture: map<string, string>)
    returns (ok: bool, report: AssertionReport)
    requires c.Valid()
    modifies c, c.vm
    ensures c.Valid()
    ensures ok ==> && |c.raw| == old(|c.raw|) + 2 && c.raw[..|c.raw| - 2] == old(c.raw)
                   && c.raw[|c.raw| - 1].event == AgentStopped
                   && report == Evaluate(old(c.raw), scenario.outageEventBound, scenario.livenessEventBound)
                   && c.raw[|c.raw| - 2].event == AssertionsEvaluated(report)
    ensures old(HonestSoFar(c, fixture, c.raw)) ==> ok && c.vm.queue == []
    ensures ok ==> old(c.raw) <= c.raw && ClosingFits(c.expected, scenario, c.raw, old(|c.raw|), old(c.nextCommandId))
    ensures ok && !c.sends ==> c.raw + c.vm.queue == old(c.raw + c.vm.queue)
    ensures !c.sends ==> c.vm.sent == old(c.vm.sent)
    ensures !c.sends && c.vm.reliable ==>
              (ok <==> ClosingFits(c.expected, scenario, old(c.raw + c.vm.queue), old(|c.raw|), old(c.nextCommandId)))
  {
    hide HonestRun, IsHonest, Evaluate, ValidReport, Kept, AnswerAt;
    ghost var tale, n := c.raw + c.vm.queue, |c.raw|;
    assert tale[..n] == c.raw;
    report := Evaluate(c.raw, scenario.outageEventBound, scenario.livenessEventBound);
    ghost var mine := Evaluate(Kept(c.raw), scenario.outageEventBound, scenario.livenessEventBound);
    ReportShape(Kept(c.raw), scenario.outageEventBound, scenario.livenessEventBound);
    OneReport(c.raw, [], scenario.outageEventBound, scenario.livenessEventBound);
    ghost var before := c.raw;
    ok := AskOne(c, Check(scenario.outageEventBound, scenario.livenessEventBound), AssertionsEvaluated(mine), fixture);
    assert ok && !c.sends ==> tale[n] == c.raw[n];
    if !ok || c.raw[|c.raw| - 1].event != AssertionsEvaluated(report) {
      return false, report;
    }
    ghost var middle := c.raw;
    ok := AskOne(c, Shutdown, AgentStopped, fixture);
    if ok {
      AnswerStays(c.expected, middle, c.raw, n, Check(scenario.outageEventBound, scenario.livenessEventBound),
                  old(c.nextCommandId));
      assert c.raw[..n] == before && c.raw[n] == middle[n];
    }
    assert ok ==> c.raw[..|c.raw| - 2] == middle[..|middle| - 1] && c.raw[|c.raw| - 2] == middle[|middle| - 1];
  }

  /** The two closing events are nothing a report looks at. */
  lemma ClosingIsUnseen(raw: seq<EventFrame>, report: AssertionReport, outageBound: nat, livenessBound: nat)
    requires |raw| >= 2 && raw[|raw| - 2].event == AssertionsEvaluated(report) && raw[|raw| - 1].event == AgentStopped
    ensures Evaluate(raw, outageBound, livenessBound) == Evaluate(raw[..|raw| - 2], outageBound, livenessBound)
  {
    hide Evaluate;
    var prefix, tail := raw[..|raw| - 2], raw[|raw| - 2..];
    assert raw == prefix + tail && tail[0] == raw[|raw| - 2] && tail[1] == raw[|raw| - 1];
    OneReport(prefix, tail, outageBound, livenessBound);
  }

  /** The whole conversation of a run: configuration, requests and switches, the closing handshake. */
  method Converse(c: NetworkController, scenario: Scenario, plan: ChoicePlan, ghost fixture: map<string, string>)
    returns (ok: bool, report: AssertionReport)
    requires scenario.Valid() && plan.Valid() && c.Valid() && c.raw == [] && c.nextCommandId == 1
    modifies c, c.vm
    ensures ok ==> && c.Valid() && |c.raw| == 2 * |plan.requests| + 5 && c.raw[|c.raw| - 1].event == AgentStopped
                   && report == Evaluate(c.raw, scenario.outageEventBound, scenario.livenessEventBound)
                   && Told(c.expected, scenario, plan, c.raw)
    ensures ok && !c.sends ==> c.raw + c.vm.queue == old(c.vm.queue)
    ensures !c.sends ==> c.vm.sent == old(c.vm.sent)
    ensures !c.sends && c.vm.reliable ==> (ok <==> Told(c.expected, scenario, plan, old(c.vm.queue)))
    ensures old(HonestSoFar(c, fixture, []))
            && fixture == FixtureEntries(plan.requests, scenario.corruptResponses, |plan.requests|) ==>
              ok && c.vm.queue == [] && report.passed == !scenario.corruptResponses
  {
    hide HonestRun, IsHonest, Evaluate, Honest, FixtureEntries, Normalized, Outcome, DistinctIds, AnswerAt, RequestFits,
         ClosingFits;
    report := AssertionReport(false, []);
    ghost var tale := c.vm.queue;
    ok := Configure(c, scenario, plan, fixture);
    if !ok {
      return;
    }
    ghost var configured := c.raw;
    ok := AllRequests(c, scenario, plan, fixture);
    if !ok {
      return;
    }
    ghost var served := c.raw;
    HonestVerdict(scenario, plan);
    ok, report := Conclude(c, scenario, fixture);
    if ok {
      AnswerStays(c.expected, configured, c.raw, 0, ConfigureCommand(scenario), 1);
      forall i | 0 <= i < |plan.requests| ensures RequestFits(c.expected, scenario, plan, c.raw, i) {
        RequestStays(c.expected, scenario, plan, served, c.raw, i);
      }
      ClosingIsUnseen(c.raw, report, scenario.outageEventBound, scenario.livenessEventBound);
    }
  }

  /** One network run, recorded or replayed. A finished run has exactly two events for each request and
      five more, numbered from one, ending with the stop; its report is that of the full recording;
      and a replay reproduced the recorded events. A recording against the honest guest finishes, and
      passes unless the scenario corrupts its responses. */
  method DriveNetwork(scenario: Scenario, plan: ChoicePlan, vm: Vm, sends: bool, expected: Option<seq<NormalizedEvent>>)
    returns (recording: Option<NetworkRecording>, ghost raw: seq<EventFrame>)
    requires scenario.Valid() && plan.Valid() && vm.sent == []
    modifies vm
    ensures recording.Some? ==>
              && recording.value.events == Normalized(raw) && Sequential(raw) && vm.queue == []
              && |raw| == 2 * |plan.requests| + 5 && raw[|raw| - 1].event == AgentStopped
              && recording.value.report == Evaluate(raw, scenario.outageEventBound, scenario.livenessEventBound)
              && (expected.Some? ==> recording.value.events == expected.value)
    ensures !sends ==> vm.sent == []
    ensures recording.Some? ==> Accepted(expected, scenario, plan, raw)
    ensures recording.Some? && !sends ==> raw == old(vm.queue)
    ensures !sends && vm.reliable ==>
              (recording.Some? <==> && Accepted(expected, scenario, plan, old(vm.queue))
                                    && (expected.Some? ==> |expected.value| == |old(vm.queue)|))
    ensures sends && expected.None? && vm.reliable && old(vm.queue) == []
            && IsHonest(vm.guest, FixtureEntries(plan.requests, scenario.corruptResponses, |plan.requests|)) ==>
              recording.Some? && recording.value.report.passed == !scenario.corruptResponses
  {
    hide HonestRun, IsHonest, Evaluate, Honest, FixtureEntries, Normalized, Told;
    ghost var fixture := FixtureEntries(plan.requests, scenario.corruptResponses, |plan.requests|);
    recording, raw := None, [];
    var c := new NetworkController(vm, sends, expected);
    NothingSent(fixture);
    var ok, report := Converse(c, scenario, plan, fixture);
    if !ok {
      return;
    }
    ghost var told, left := c.raw, vm.queue;
    ok := vm.FinishEvents();
    assert !sends ==> |old(vm.queue)| == |told| + |left|;
    assert left == [] ==> told + left == told;
    if !ok || (expected.Some? && |c.events| != |expected.value|) {
      return;
    }
    if expected.Some? {
      ReplayedWhole(expected.value, c.raw);
    }
    recording, raw := Some(NetworkRecording(c.events, report)), c.raw;
  }

  /** A replay of the recorded length that agreed all along is the recording. */
  lemma ReplayedWhole(expected: seq<NormalizedEvent>, raw: seq<EventFrame>)
    requires |raw| == |expected| && forall i | 0 <= i < |raw| :: Agrees(Some(expected), i, raw[i])
    ensures Normalized(raw) == expected
  {
    forall i | 0 <= i < |raw| ensures Normalized(raw)[i] == expected[i] {
      assert Agrees(Some(expected), i, raw[i]);
    }
  }

  lemma NothingSent(fixture: map<string, string>)
    ensures HonestRun([], fixture) == []
  {}
}
