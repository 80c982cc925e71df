/** The five assertions a workload run is judged by. `sha` stands for SHA-256 in lowercase
    hexadecimal; nothing depends on what it computes. */
module Checker {
  import opened Protocol
  import opened Lines
  import opened Streams
  import opened Traces
  import opened Scenarios

  const READY_LINE: Bytes := "ready version=1"
  const FRESH_STATE_LINE: Bytes := "state value=fresh root=fresh"
  const STATE_LINE_PREFIX: Bytes := "state value="
  const ESCAPED_DESCENDANT_LINE: Bytes := "descendant state=escaped"

  function EchoToken(seed: nat, invocation: nat): Bytes {
    "echo-" + Decimal(invocation) + "-" + HexFixed(seed, 16)
  }

  function EchoLine(seed: nat, invocation: nat): Bytes {
    "echo value=" + EchoToken(seed, invocation)
  }

  function ExpectedNetworkLine(request: PlannedRequest, phase: RequestPhase): Bytes {
    match phase
    case Outage => "network state=unavailable request=" + request.requestId + " errno=13"
    case _ => "network state=ok request=" + request.requestId
  }

  function NetworkLine(plan: WorkloadChoicePlan, index: nat): Bytes
    requires index < |plan.requests|
  {
    ExpectedNetworkLine(plan.requests[index], plan.Phase(index))
  }

  /** The response lines of the requests `from` up to `to`. */
  function NetworkLines(plan: WorkloadChoicePlan, from: nat, to: nat): (lines: seq<string>)
    requires from <= to <= |plan.requests|
    ensures |lines| == to - from
    ensures forall i | 0 <= i < to - from :: lines[i] == NetworkLine(plan, from + i)
  {
    if from == to then [] else NetworkLines(plan, from, to - 1) + [NetworkLine(plan, to - 1)]
  }

  /** Everything one invocation must print. */
  function Expected(plan: WorkloadChoicePlan, invocation: nat): (lines: seq<string>)
    requires plan.faultIndex <= |plan.requests|
    ensures |lines| >= 3
  {
    var head: seq<string> := [READY_LINE, EchoLine(plan.seed, invocation), FRESH_STATE_LINE];
    if invocation == 1 then head + NetworkLines(plan, 0, plan.faultIndex) + [ESCAPED_DESCENDANT_LINE]
    else head + NetworkLines(plan, plan.faultIndex, |plan.requests|)
  }

  // ---- Searching a trace -----------------------------------------------------

  function FindExit(exits: seq<ExitRecord>, invocation: nat): Option<ExitRecord> {
    if exits == [] then None
    else if exits[0].invocation == invocation then Some(exits[0])
    else FindExit(exits[1..], invocation)
  }

  function FindCleanup(cleanups: seq<CleanupRecord>, invocation: nat): Option<CleanupRecord> {
    if cleanups == [] then None
    else if cleanups[0].invocation == invocation then Some(cleanups[0])
    else FindCleanup(cleanups[1..], invocation)
  }

  function FindStart(starts: seq<StartRecord>, invocation: nat): Option<StartRecord> {
    if starts == [] then None
    else if starts[0].invocation == invocation then Some(starts[0])
    else FindStart(starts[1..], invocation)
  }

  function FindRoute(routes: seq<RouteRecord>, peerCidr: string, after: nat): Option<RouteRecord> {
    if routes == [] then None
    else if routes[0].peerCidr == peerCidr && routes[0].eventId > after then Some(routes[0])
    else FindRoute(routes[1..], peerCidr, after)
  }

  function FindLine(lines: seq<CompletedLine>, wanted: string): Option<CompletedLine> {
    if lines == [] then None
    else if lines[0].text == wanted then Some(lines[0])
    else FindLine(lines[1..], wanted)
  }

  function CountLine(lines: seq<CompletedLine>, wanted: string): nat {
    if lines == [] then 0
    else (if lines[0].text == wanted then 1 else 0) + CountLine(lines[1..], wanted)
  }

  predicate StaleLine(line: CompletedLine) {
    STATE_LINE_PREFIX <= line.text && line.text != FRESH_STATE_LINE
  }

  predicate Least(k: nat, keys: set<nat>) {
    k in keys && forall j | j in keys :: k <= j
  }

  lemma {:induction false} LeastOf(keys: set<nat>) returns (least: nat)
    requires keys != {}
    ensures Least(least, keys)
  {
    var k :| k in keys;
    var rest := keys - {k};
    assert forall j | j in keys :: j == k || j in rest;
    least := k;
    if rest != {} {
      var m := LeastOf(rest);
      if m < k {
        least := m;
      }
    }
  }

  lemma LeastExists(keys: set<nat>)
    requires keys != {}
    ensures exists k :: Least(k, keys)
  {
    var k := LeastOf(keys);
  }

  /** The keys of a map in the order a sorted map is walked. */
  function KeyOrder(keys: set<nat>): seq<nat>
    decreases |keys|
  {
    if keys == {} then []
    else
      LeastExists(keys);
      var k :| k in keys && Least(k, keys);
      [k] + KeyOrder(keys - {k})
  }

  function AnyStdoutLine(trace: Trace, keys: seq<nat>, wanted: string): Option<CompletedLine> {
    if keys == [] then None
    else
      var found := FindLine(trace.StreamsOf(keys[0]).stdout.lines, wanted);
      if found.Some? then found else AnyStdoutLine(trace, keys[1..], wanted)
  }

  /** A line together with the acknowledgement of the input it answers. */
  datatype Answer = Answer(line: CompletedLine, acknowledged: nat)

  function AnswerFrom(lines: seq<CompletedLine>, acknowledged: seq<nat>, index: nat, wanted: string): Option<Answer>
    decreases |lines| - index
  {
    if index >= |lines| then None
    else if lines[index].text == wanted && 1 <= index <= |acknowledged| then
      Some(Answer(lines[index], acknowledged[index - 1]))
    else AnswerFrom(lines, acknowledged, index + 1, wanted)
  }

  function AnyAnswer(trace: Trace, keys: seq<nat>, wanted: string): Option<Answer> {
    if keys == [] then None
    else
      var streams := trace.StreamsOf(keys[0]);
      var found := AnswerFrom(streams.stdout.lines, streams.dataInputEvents, 0, wanted);
      if found.Some? then found else AnyAnswer(trace, keys[1..], wanted)
  }

  // ---- The assertions --------------------------------------------------------

  predicate ProcessSafetyHolds(trace: Trace, plan: WorkloadChoicePlan, launch: LaunchIdentity) {
    && trace.Clean()
    && trace.launchFailures == []
    && |trace.starts| == 2
    && trace.starts[0].invocation == 1 && trace.starts[0].launch == launch
    && trace.starts[1].invocation == 2 && trace.starts[1].launch == launch
    && |trace.terminations| == 1
    && trace.terminations[0].invocation == 1
    && trace.terminations[0].signal == TERMINATION_SIGNAL
    && var killed := trace.terminations[0].eventId;
    var exit1, exit2 := FindExit(trace.exits, 1), FindExit(trace.exits, 2);
    var cleanup1, cleanup2 := FindCleanup(trace.cleanups, 1), FindCleanup(trace.cleanups, 2);
    var escaped := AnyStdoutLine(trace, KeyOrder(trace.invocations.Keys), ESCAPED_DESCENDANT_LINE);
    var lines1, lines2 := trace.StreamsOf(1).stdout.lines, trace.StreamsOf(2).stdout.lines;
    && exit1.Some? && exit1.value.exit == Signaled(TERMINATION_SIGNAL)
    && cleanup1.Some?
    && killed < exit1.value.eventId < cleanup1.value.eventId
    && cleanup1.value.reaped >= 2
    && trace.starts[1].eventId > cleanup1.value.eventId
    && escaped.Some? && escaped.value.eventId <= killed
    && exit2.Some? && exit2.value.exit == Exited(0)
    && cleanup2.Some?
    && (forall i | 0 <= i < |lines1| :: !StaleLine(lines1[i]))
    && (forall i | 0 <= i < |lines2| :: !StaleLine(lines2[i]))
    && CountLine(lines1, FRESH_STATE_LINE) == 1 && CountLine(lines2, FRESH_STATE_LINE) == 1
    && plan.faultIndex != 0
  }

  /** One invocation printed exactly what it must, each response after the input it answers. */
  predicate ResponsesMatch(streams: InvocationStreams, expected: seq<string>, eofs: nat)
    requires |expected| >= 1
  {
    var lines, acks := streams.stdout.lines, streams.dataInputEvents;
    && Texts(lines) == expected
    && |acks| == |expected| - 1 && streams.eofInputs == eofs
    && forall i | 0 <= i < |acks| :: lines[i + 1].firstEventId > acks[i]
  }

  /** An exit record agrees with the frames that were recorded. */
  predicate ExitMatches(exit: ExitRecord, streams: InvocationStreams, sha: string -> string) {
    && streams.stdout.pending == ""
    && streams.stderr.pending == "" && streams.stderr.bytes == ""
    && exit.stdoutBytes == |streams.stdout.bytes| && exit.stderrBytes == |streams.stderr.bytes|
    && exit.frames == streams.frames
    && exit.stdoutSha256 == sha(streams.stdout.bytes) && exit.stderrSha256 == sha(streams.stderr.bytes)
  }

  predicate ResponseIntegrityHolds(trace: Trace, plan: WorkloadChoicePlan, sha: string -> string)
    requires plan.faultIndex <= |plan.requests|
  {
    && ResponsesMatch(trace.StreamsOf(1), Expected(plan, 1), 0)
    && ResponsesMatch(trace.StreamsOf(2), Expected(plan, 2), 1)
    && trace.StreamsOf(1).stderr.lines == [] && trace.StreamsOf(2).stderr.lines == []
    && (forall i | 0 <= i < |trace.exits| ::
          ExitMatches(trace.exits[i], trace.StreamsOf(trace.exits[i].invocation), sha))
    && trace.Clean()
  }

  function FirstInPhase(plan: WorkloadChoicePlan, phase: RequestPhase, index: nat): (r: Option<nat>)
    ensures r.Some? ==> r.value < |plan.requests|
    decreases |plan.requests| - index
  {
    if index >= |plan.requests| then None
    else if plan.Phase(index) == phase then Some(index)
    else FirstInPhase(plan, phase, index + 1)
  }

  function Activation(trace: Trace, scenario: WorkloadScenario): Option<RouteRecord> {
    match trace.configured
    case Some(configured) =>
      if configured.gateway == scenario.fixturePeer then
        FindRoute(trace.activations, scenario.PeerCidr(), configured.eventId)
      else None
    case None => None
  }

  function Restored(trace: Trace, scenario: WorkloadScenario): Option<RouteRecord> {
    match Activation(trace, scenario)
    case Some(activation) => FindRoute(trace.restorations, activation.peerCidr, activation.eventId)
    case None => None
  }

  /** The answer to the first request of a phase. */
  function PhaseAnswer(trace: Trace, plan: WorkloadChoicePlan, phase: RequestPhase): Option<Answer> {
    match FirstInPhase(plan, phase, 0)
    case Some(index) =>
      AnyAnswer(trace, KeyOrder(trace.invocations.Keys), ExpectedNetworkLine(plan.requests[index], phase))
    case None => None
  }

  predicate ControlledOutageHolds(trace: Trace, scenario: WorkloadScenario, plan: WorkloadChoicePlan) {
    var activation, answer := Activation(trace, scenario), PhaseAnswer(trace, plan, Outage);
    var restored := Restored(trace, scenario);
    && activation.Some? && answer.Some?
    && answer.value.acknowledged > activation.value.eventId
    && answer.value.line.eventId > activation.value.eventId
    && (restored.Some? ==> answer.value.line.eventId < restored.value.eventId)
    && answer.value.line.eventId - activation.value.eventId <= scenario.outageEventBound
  }

  predicate RestorationHolds(trace: Trace, scenario: WorkloadScenario) {
    Restored(trace, scenario).Some?
  }

  predicate BoundedRecoveryHolds(trace: Trace, scenario: WorkloadScenario, plan: WorkloadChoicePlan) {
    var restored, answer := Restored(trace, scenario), PhaseAnswer(trace, plan, Recovery);
    var start := FindStart(trace.starts, 2);
    var echo := FindLine(trace.StreamsOf(2).stdout.lines, EchoLine(plan.seed, 2));
    && restored.Some? && answer.Some?
    && answer.value.acknowledged > restored.value.eventId
    && answer.value.line.eventId > restored.value.eventId
    && answer.value.line.eventId - restored.value.eventId <= scenario.livenessEventBound
    && start.Some? && echo.Some?
    && echo.value.eventId > start.value.eventId
    && echo.value.eventId - start.value.eventId <= scenario.livenessEventBound
  }

  function Report(trace: Trace, scenario: WorkloadScenario, plan: WorkloadChoicePlan, launch: LaunchIdentity,
                  sha: string -> string): AssertionReport
    requires plan.faultIndex <= |plan.requests|
  {
    var process := ProcessSafetyHolds(trace, plan, launch);
    var response := ResponseIntegrityHolds(trace, plan, sha);
    var outage := ControlledOutageHolds(trace, scenario, plan);
    var restoration := RestorationHolds(trace, scenario);
    var recovery := BoundedRecoveryHolds(trace, scenario, plan);
    AssertionReport(
      process && response && outage && restoration && recovery,
      [AssertionResult(ProcessSafety, process), AssertionResult(ResponseIntegrity, response),
       AssertionResult(ControlledOutage, outage), AssertionResult(Restoration, restoration),
       AssertionResult(BoundedRecovery, recovery)])
  }

  /** The report on an event stream: fold it, then judge. */
  function EvaluateWorkload(events: seq<EventFrame>, scenario: WorkloadScenario, plan: WorkloadChoicePlan,
                            launch: LaunchIdentity, sha: string -> string): AssertionReport
    requires plan.faultIndex <= |plan.requests|
  {
    Report(Fold(events), scenario, plan, launch, sha)
  }

  method Evaluate(events: seq<EventFrame>, scenario: WorkloadScenario, plan: WorkloadChoicePlan,
                  launch: LaunchIdentity, sha: string -> string) returns (report: AssertionReport)
    requires plan.faultIndex <= |plan.requests|
    ensures report == EvaluateWorkload(events, scenario, plan, launch, sha)
  {
    var trace := new WorkloadTrace();
    for i := 0 to |events|
      invariant trace.State() == Fold(events[..i])
    {
      trace.Push(events[i]);
      assert events[..i + 1][..i] == events[..i];
    }
    assert events[..|events|] == events;
    report := Report(trace.State(), scenario, plan, launch, sha);
  }
}
