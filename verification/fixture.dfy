/** The acceptance fixture: a program that answers one command line at a time. */
module Fixture {
  import opened Protocol
  import opened Lines
  import opened Streams
  import opened Scenarios
  import opened Checker
  import opened Driver
  import Plans

  const MAX_TOKEN_BYTES: nat := 127
  const MAX_COMMAND_BYTES: nat := 254

  const OVERLONG_COMMAND: Bytes := "fixture: command exceeds limit"
  const SPAWNED_ALREADY: Bytes := "fixture: descendant already spawned"
  const INVALID_COMMAND: Bytes := "fixture: invalid command"
  const INVALID_EXPECTATION: Bytes := "fixture: invalid request expectation"
  const INVALID_RESPONSE: Bytes := "fixture: invalid TFTP response"
  const MISMATCH: Bytes := "fixture: response content mismatch"
  const STOPPED_LINE: Bytes := "stopped status=0"
  const STALE_STATE_LINE: Bytes := "state value=stale root=stale"

  /** What the program remembers: that its state marker is in this root, and that its descendant runs. */
  datatype Program = Program(marked: bool, spawned: bool)

  const NEW_PROGRAM := Program(false, false)

  /** A line on standard output, after which it goes on or stops; or a last word on standard error and an
      exit. */
  datatype Response = Says(line: Bytes) | Stops(line: Bytes) | Dies(message: Bytes, code: int)

  predicate ProgramToken(s: string) {
    && 1 <= |s| <= MAX_TOKEN_BYTES
    && forall i | 0 <= i < |s| ::
         'a' <= s[i] <= 'z' || 'A' <= s[i] <= 'Z' || '0' <= s[i] <= '9' || s[i] == '-' || s[i] == '_'
  }

  function FirstWord(s: Bytes): (word: Bytes)
    ensures |word| <= |s|
  {
    if s == [] || s[0] == ' ' then [] else [s[0]] + FirstWord(s[1..])
  }

  /** What follows the first word and one space. */
  function Rest(s: Bytes): Bytes {
    var n := |FirstWord(s)|;
    if n < |s| then s[n + 1..] else []
  }

  /** Fetch a file and compare it with the expected payload. A prohibited route is an answer; a file that
      does not hold the expected payload is a failure. */
  function Fetch(id: Bytes, payload: Bytes, outage: bool, served: map<string, string>): Response {
    if !("request-" < id && ProgramToken(id) && ProgramToken(payload)) then
      Dies(INVALID_EXPECTATION, 1)
    else if outage then Says("network state=unavailable request=" + id + " errno=13")
    else if id !in served then Dies(INVALID_RESPONSE, 1)
    else if served[id] != payload then Dies(MISMATCH, 1)
    else Says("network state=ok request=" + id)
  }

  /** The answer to one command line. */
  function Respond(p: Program, line: Bytes, outage: bool, served: map<string, string>): Response {
    if |line| > MAX_COMMAND_BYTES then Dies(OVERLONG_COMMAND, 2)
    else if "echo " <= line && ProgramToken(line[5..]) then Says("echo value=" + line[5..])
    else if line == "state" then
      Says(if p.marked then STALE_STATE_LINE else FRESH_STATE_LINE)
    else if line == "spawn-descendant" then
      if p.spawned then Dies(SPAWNED_ALREADY, 2) else Says(ESCAPED_DESCENDANT_LINE)
    else if "fetch " <= line && ' ' in line[6..] && ' ' !in Rest(line[6..]) then
      Fetch(FirstWord(line[6..]), Rest(line[6..]), outage, served)
    else if line == "exit" then Stops(STOPPED_LINE)
    else Dies(INVALID_COMMAND, 2)
  }

  function AfterLine(p: Program, line: Bytes): Program {
    Program(p.marked || line == "state", p.spawned || line == "spawn-descendant")
  }

  lemma {:induction false} WordsOf(word: Bytes, rest: Bytes)
    requires ' ' !in word
    ensures FirstWord(word + " " + rest) == word && Rest(word + " " + rest) == rest
  {
    var s := word + " " + rest;
    if word != [] {
      assert s[1..] == word[1..] + " " + rest;
      WordsOf(word[1..], rest);
    }
    assert FirstWord(s) == word && s[|word| + 1..] == rest;
  }

  /** The command line of a step, without its newline. */
  function CommandLine(plan: WorkloadChoicePlan, step: WorkloadStep): Bytes
    requires IsInput(step) && InPlan(step, plan)
  {
    match step
    case EchoStep(invocation) => "echo " + EchoToken(plan.seed, invocation)
    case StateStep(_) => "state"
    case SpawnStep(_) => "spawn-descendant"
    case RequestStep(_, index) => "fetch " + (plan.requests[index].requestId + " " + plan.requests[index].payload)
  }

  lemma InputIsALine(plan: WorkloadChoicePlan, step: WorkloadStep)
    requires IsInput(step) && InPlan(step, plan)
    ensures InputText(plan, step) == CommandLine(plan, step) + "\n"
    ensures CommandLine(plan, step) != []
  {}

  /** Which command draws which response: a line over the limit an error, an echo its token, the state and
      the descendant what they are the first and every later time, `exit` the end. */
  lemma RespondExact(p: Program, line: Bytes, token: Bytes, outage: bool, served: map<string, string>)
    ensures var r := Respond(p, line, outage, served);
            && (r == Dies(OVERLONG_COMMAND, 2) <==> |line| > 254)
            && (|line| <= 254 ==>
                  && (r == Says("echo value=" + token) <==> line == "echo " + token && ProgramToken(token))
                  && (r == Says("state value=fresh root=fresh") <==> line == "state" && !p.marked)
                  && (r == Says("state value=stale root=stale") <==> line == "state" && p.marked)
                  && (r == Says("descendant state=escaped") <==> line == "spawn-descendant" && !p.spawned)
                  && (r == Dies(SPAWNED_ALREADY, 2) <==> line == "spawn-descendant" && p.spawned)
                  && (r.Stops? <==> line == "exit"))
  {
    hide FirstWord, Rest;
    if "echo " <= line {
      assert line == "echo " + line[5..] && line[0] == 'e' && line[1] == 'c';
    }
    if "fetch " <= line {
      assert line[0] == 'f';
    }
    FetchSays(line, outage, served, token);
    assert ("echo value=" + token)[0] == 'e' && ("echo value=" + token)[11..] == token
           && ("echo " + token)[5..] == token;
    assert "echo " <= line ==> ("echo value=" + line[5..])[11..] == line[5..] && ("echo value=" + line[5..])[0] == 'e';
  }

  /** A fetch is answered by a line about the network, or it ends the program with status one. */
  lemma FetchSays(line: Bytes, outage: bool, served: map<string, string>, token: Bytes)
    ensures "fetch " <= line ==>
              var r := Fetch(FirstWord(line[6..]), Rest(line[6..]), outage, served);
              (r.Says? && r.line != [] && r.line[0] == 'n') || (r.Dies? && r.code == 1)
  {}

  /** What a step does to the program. */
  function ProgramAfter(p: Program, step: WorkloadStep): Program {
    match step
    case StartStep(_) => NEW_PROGRAM
    case StateStep(_) => p.(marked := true)
    case SpawnStep(_) => p.(spawned := true)
    case _ => p
  }

  lemma StepsReachProgram(p: Program, plan: WorkloadChoicePlan, step: WorkloadStep)
    requires IsInput(step) && InPlan(step, plan)
    ensures AfterLine(p, CommandLine(plan, step)) == ProgramAfter(p, step)
  {
    var line := CommandLine(plan, step);
    if step.EchoStep? {
      assert line[0] == 'e';
    } else if step.RequestStep? {
      assert line[0] == 'f';
    } else if step.StateStep? {
      assert |line| == 5;
    }
  }

  lemma RequestFetches(plan: WorkloadChoicePlan, p: Program, index: nat, outage: bool, served: map<string, string>)
    requires plan.Valid() && index < |plan.requests|
    ensures var request := plan.requests[index];
            && "request-" < request.requestId && ProgramToken(request.requestId) && ProgramToken(request.payload)
            && Respond(p, CommandLine(plan, RequestStep(1, index)), outage, served) ==
               Fetch(request.requestId, request.payload, outage, served)
  {
    hide Fetch;
    var request := plan.requests[index];
    assert request.Valid();
    var line := CommandLine(plan, RequestStep(1, index));
    assert line[0] == 'f' && line[6..] == request.requestId + " " + request.payload;
    assert forall i | 0 <= i < |request.requestId| :: TokenChar(request.requestId[i]);
    assert forall i | 0 <= i < |request.payload| :: TokenChar(request.payload[i]);
    WordsOf(request.requestId, request.payload);
  }

  /** The program is in the state, and the fixture serves the file, that a planned step relies on. */
  predicate Prepared(plan: WorkloadChoicePlan, p: Program, step: WorkloadStep, outage: bool, served: map<string,
                     string>)
    requires InPlan(step, plan)
  {
    match step
    case StateStep(_) => !p.marked
    case SpawnStep(_) => !p.spawned
    case RequestStep(_, index) =>
      var request := plan.requests[index];
      && outage == (plan.Phase(index) == Outage)
      && (!outage ==> request.requestId in served && served[request.requestId] == request.payload)
    case _ => true
  }

  /** Every planned input draws exactly the planned response when the network is in the planned phase and
      the fixture serves the planned payload. */
  lemma RespondsAsPlanned(plan: WorkloadChoicePlan, p: Program, step: WorkloadStep, outage: bool, served: map<string,
                          string>)
    requires plan.Valid() && IsInput(step) && InPlan(step, plan) && Subject(step) <= 2
             && Prepared(plan, p, step, outage, served)
    ensures Respond(p, CommandLine(plan, step), outage, served) == Says(ExpectedLine(plan, step))
  {
    var line := CommandLine(plan, step);
    match step
    case EchoStep(invocation) =>
      EchoTokenIsToken(plan.seed, invocation);
      assert line[5..] == EchoToken(plan.seed, invocation);
    case StateStep(_) =>
      assert line[0] == 's';
    case SpawnStep(_) =>
      assert line[0] == 's' && |line| == 16;
    case RequestStep(_, index) =>
      RequestFetches(plan, p, index, outage, served);
  }

  /** Echo tokens tell invocations and seeds apart, so an answer of another run or life is never taken for
      this one's. */
  lemma EchoesTellApart(seed: nat, k: nat, other: nat, j: nat)
    requires seed <= U64_MAX && other <= U64_MAX && k <= 2 && j <= 2 && EchoLine(seed, k) == EchoLine(other, j)
    ensures seed == other && k == j
  {
    var a, b := EchoToken(seed, k), EchoToken(other, j);
    assert EchoLine(seed, k)[11..] == a && EchoLine(other, j)[11..] == b;
    assert a[5] == Digit(k) && b[5] == Digit(j) && a[7..] == HexFixed(seed, 16) && b[7..] == HexFixed(other, 16);
    assert Plans.Power16(16) == U64_MAX + 1 by { SixteenDigits(); }
    Plans.HexFixedInjective(seed, other, 16);
  }

  lemma SixteenDigits()
    ensures Plans.Power16(16) == U64_MAX + 1
  {
    assert Plans.Power16(4) == 0x1_0000;
    assert Plans.Power16(8) == 0x1_0000_0000;
    assert Plans.Power16(12) == 0x1_0000_0000_0000;
  }

  lemma EchoTokenIsToken(seed: nat, invocation: nat)
    requires invocation <= 2
    ensures ProgramToken(EchoToken(seed, invocation))
  {
    assert Token(HexFixed(seed, 16)) && |Decimal(invocation)| == 1;
    assert forall i | 0 <= i < 16 :: TokenChar(HexFixed(seed, 16)[i]);
  }

  /** A file that does not hold the planned payload ends the program with status one. */
  lemma SpoiledFileKills(plan: WorkloadChoicePlan, p: Program, index: nat, served: map<string, string>)
    requires plan.Valid() && index < |plan.requests|
    requires var request := plan.requests[index];
             request.requestId in served && served[request.requestId] != request.payload
    ensures Respond(p, CommandLine(plan, RequestStep(1, index)), false, served) ==
            Dies(MISMATCH, 1)
  {
    RequestFetches(plan, p, index, false, served);
  }

  lemma LineIsShort(plan: WorkloadChoicePlan, step: WorkloadStep)
    requires plan.Valid() && PrintsLine(step) && InPlan(step, plan) && Subject(step) <= 2
    ensures |ExpectedLine(plan, step)| <= MAX_RESPONSE_LINE_BYTES && NoNewline(ExpectedLine(plan, step))
  {
    match step
    case StartStep(_) =>
    case StateStep(_) =>
    case SpawnStep(_) =>
    case EchoStep(invocation) =>
      EchoIsShort(plan.seed, invocation);
    case RequestStep(_, index) =>
      assert plan.requests[index].Valid();
      NetworkLineIsShort(plan.requests[index], plan.Phase(index));
  }

  lemma EchoIsShort(seed: nat, invocation: nat)
    requires invocation <= 2
    ensures |EchoLine(seed, invocation)| <= 64 && NoNewline(EchoLine(seed, invocation))
  {
    assert Token(HexFixed(seed, 16)) && |Decimal(invocation)| == 1;
  }

  lemma NetworkLineIsShort(request: PlannedRequest, phase: RequestPhase)
    requires request.Valid()
    ensures |ExpectedNetworkLine(request, phase)| <= 128 && NoNewline(ExpectedNetworkLine(request, phase))
  {
    assert forall i | 0 <= i < |request.requestId| :: TokenChar(request.requestId[i]);
  }
}
