/** A scenario that spoils the fixture's first file: the workload finds the mismatch, complains and exits,
    and the run stops there. */
module Corruption {
  import opened Protocol
  import opened Lines
  import opened Streams
  import opened Traces
  import opened Scenarios
  import opened Checker
  import opened Controller
  import opened Driver
  import opened Driving
  import opened Fixture
  import opened Conversation
  import opened Mirror
  import opened Honesty
  import opened Completeness
  import HonestGuest

  /** The first request, which the first invocation serves. */
  const SPOILED := RequestStep(1, 0)

  lemma {:induction false} UpToBegins(plan: WorkloadChoicePlan, count: nat)
    requires plan.IndicesValid() && 1 <= count
    ensures Opening(1) + [SPOILED] <= StepsUpTo(plan, count)
  {
    if count == 1 {
      assert AroundRequest(plan, 0) == [SPOILED];
      assert StepsUpTo(plan, 0) == Opening(1);
    } else {
      UpToBegins(plan, count - 1);
    }
  }

  /** The schedule comes to the first request right after the opening. */
  lemma ScheduleBegins(plan: WorkloadChoicePlan)
    requires plan.Valid()
    ensures var steps := WorkloadSteps(plan); 3 < |steps| && steps[..3] == Opening(1) && steps[3] == SPOILED
  {
    UpToBegins(plan, |plan.requests|);
    var steps := WorkloadSteps(plan);
    assert Opening(1) + [SPOILED] <= steps;
    assert steps[..3] == (Opening(1) + [SPOILED])[..3];
  }

  /** The reply to the first request: acknowledged, a complaint, exit status one, cleanup. */
  function LastWords(w: World, t: Trace): seq<Event>
    requires w.plan.Valid()
  {
    var size := |InputText(w.plan, SPOILED)|;
    [InputAccepted(1, t.StreamsOf(1).inputOffset + size, size, false), ErrorLine(t, 1, MISMATCH)]
    + [DyingExit(t, 1, Exited(1), MISMATCH + "\n", w.sha), CleanupComplete(1, 1)]
  }

  lemma SpoiledReply(w: World, t: Trace, g: HonestGuest.Guest, id: nat)
    requires w.Valid() && w.scenario.corruptResponses && id >= 1 && InAgreement(g, t, id - 1, w.sha)
    requires Alive(t, 1, id) && Current(t) == Some(1) && !InOutage(t) && !g.program.spawned
    ensures var command := StepCommand(w.scenario, w.plan, w.launch, SPOILED, t.StreamsOf(1).inputOffset);
            HonestGuest.Reply(g, command, w.Files(), w.sha) == LastWords(w, t)
  {
    hide HonestGuest.Perform, Polished, InAgreement, Speaking, CommandLine, InputText, Hex, HonestGuest.StepsFor,
         Running, StepCommand, Respond, ErrorLine, DyingExit, Current, InOutage, FixtureEntries;
    var line := CommandLine(w.plan, SPOILED);
    FixtureServes(w.plan.requests, true, |w.plan.requests|, 0);
    ServedWhole(w.plan.requests, 0);
    AgreesOnOutage(g, t, id - 1, w.sha);
    SpoiledFileKills(w.plan, g.program, 0, w.Files());
    InputIsALine(w.plan, SPOILED);
    TextFits(w.plan, SPOILED);
    InputCommand(w, SPOILED, t.StreamsOf(1).inputOffset);
    var r' := DyingReports(g, t, id - 1, w.sha, w.Files(), 1, Texts(t.StreamsOf(1).stdout.lines), line, MISMATCH, 1,
                           id);
    assert [] + LastWords(w, t) == LastWords(w, t);
  }

  /** The complaint spoils the health of the invocation and leaves its output alone. */
  lemma ComplaintFolds(t: Trace, k: nat, n: nat, command: nat, size: nat, message: Bytes)
    requires Alive(t, k, command) && size > 0 && 0 < |message| <= MAX_RESPONSE_LINE_BYTES && NoNewline(message)
    ensures var t1 := t.Push(FrameOf(n, command, InputAccepted(k, t.StreamsOf(k).inputOffset + size, size, false)));
            var t2 := t1.Push(FrameOf(n + 1, command, ErrorLine(t, k, message)));
            && Fails(t1, t2, k, |t.StreamsOf(k).stdout.lines|) && Healthy(t, k)
            && (k == 1 ==> Silenced(t, t2))
  {
    hide Hex, Unhex, InvocationStreams.PushInput, Healthy, Tidy;
    var s, count := t.StreamsOf(k), |t.StreamsOf(k).stdout.lines|;
    PushAcked(t, k, count, command, n, size);
    var t1 := With(t, k, Acked(s, n, command, size));
    AliveIsHealthy(t, k, command);
    assert t1.StreamsOf(k) == Acked(s, n, command, size);
    SameHealth(t, t1, k);
    var data := message + "\n";
    UnhexExact(Hex(data), MAX_OUTPUT_FRAME_BYTES, data);
    var s2 := t1.StreamsOf(k).PushOutput(n + 1, Stderr, 0, s.sequence + 1, data);
    var t2 := With(t1, k, s2);
    assert t1.Push(FrameOf(n + 1, command, ErrorLine(t, k, message))) == t2;
    assert t2.StreamsOf(k) == s2;
    assert !Healthy(t2, k) by { ErrorsAreSeen(t2, k); }
  }

  lemma ErrorsAreSeen(t: Trace, k: nat)
    requires t.StreamsOf(k).stderr.bytes != ""
    ensures !Healthy(t, k)
  {}

  /** The reply to the first request as frames: the driver stumbles over it. */
  lemma SpoiledStumbles(w: World, raw: seq<EventFrame>, id: nat)
    requires w.Valid() && Alive(Fold(raw), 1, id)
    ensures var t, reply := Fold(raw), Framed(LastWords(w, Fold(raw)), |raw| + 1, id);
            && Stumbles(raw, reply, id, w.plan, SPOILED, t.StreamsOf(1).inputOffset, |t.StreamsOf(1).stdout.lines|)
            && Silenced(t, Fold(raw + reply))
  {
    hide Fold, Trace.Push, Hex, InputText, Healthy, Fails, Alive, ErrorLine, Framed, Continues, Silenced, FrameOf,
         Trace.StreamsOf, WorkloadScenario.Valid, Stumbles;
    var t := Fold(raw);
    var size, exit, cleanup := |InputText(w.plan, SPOILED)|, DyingExit(t, 1, Exited(1), MISMATCH + "\n", w.sha),
      CleanupComplete(1, 1);
    var ack, words := InputAccepted(1, t.StreamsOf(1).inputOffset + size, size, false), ErrorLine(t, 1, MISMATCH);
    assert LastWords(w, t) == [ack, words, exit, cleanup];
    TextFits(w.plan, SPOILED);
    ComplaintFolds(t, 1, |raw| + 1, id, size, MISMATCH);
    FourEvents(raw, ack, words, exit, cleanup, id);
    var reply := Framed(LastWords(w, t), |raw| + 1, id);
    EndIsSilent(t, Fold(raw + reply[..2]), |raw| + 3, id, exit, cleanup);
    MakesStumble(w.plan, raw, reply, id, t.StreamsOf(1).inputOffset, |t.StreamsOf(1).stdout.lines|);
  }

  lemma MakesStumble(plan: WorkloadChoicePlan, raw: seq<EventFrame>, reply: seq<EventFrame>, id: nat, offset: nat,
                     count: nat)
    requires InPlan(SPOILED, plan) && Continues(reply, raw, id) && |reply| == 4 && Healthy(Fold(raw), 1)
    requires var size := |InputText(plan, SPOILED)|; reply[0].event == InputAccepted(1, offset + size, size, false)
    requires Fails(Fold(raw + reply[..1]), Fold(raw + reply[..2]), 1, count)
    requires reply[2].event.WorkloadExited? && reply[3].event.CleanupComplete?
    ensures Stumbles(raw, reply, id, plan, SPOILED, offset, count)
  {
    hide Fold, Healthy, Fails, Continues, InputText;
  }

  lemma FourEvents(raw: seq<EventFrame>, a: Event, b: Event, c: Event, d: Event, command: nat)
    ensures var reply := Framed([a, b, c, d], |raw| + 1, command);
            && |reply| == 4 && Continues(reply, raw, command)
            && reply[0].event == a && reply[1].event == b && reply[2].event == c && reply[3].event == d
            && Fold(raw + reply[..1]) == Fold(raw).Push(FrameOf(|raw| + 1, command, a))
            && Fold(raw + reply[..2]) == Fold(raw + reply[..1]).Push(FrameOf(|raw| + 2, command, b))
            && Fold(raw + reply) == Fold(raw + reply[..2]).Push(FrameOf(|raw| + 3, command, c)).Push(FrameOf(|raw| + 4,
                command, d))
  {
    hide Trace.Push, FoldOn;
    var n := |raw| + 1;
    var reply := Framed([a, b, c, d], n, command);
    assert reply[..2] == Framed([a, b], n, command) && reply[..1] == Framed([a, b], n, command)[..1];
    TwoEvents(raw, a, b, command);
    FoldLast(raw + reply[..2], FrameOf(n + 2, command, c));
    FoldLast((raw + reply[..2]) + [FrameOf(n + 2, command, c)], FrameOf(n + 3, command, d));
    assert ((raw + reply[..2]) + [FrameOf(n + 2, command, c)]) + [FrameOf(n + 3, command, d)] == raw + reply;
  }

  /** Between the two traces nothing started, no outage began and the first invocation printed nothing. */
  predicate Silenced(t: Trace, t': Trace) {
    t'.starts == t.starts && t'.activations == t.activations && t'.StreamsOf(1).stdout == t.StreamsOf(1).stdout
  }

  lemma EndIsSilent(t: Trace, t2: Trace, n: nat, id: nat, exit: Event, cleanup: Event)
    requires exit.WorkloadExited? && cleanup.CleanupComplete? && Silenced(t, t2)
    ensures Silenced(t, t2.Push(FrameOf(n, id, exit)).Push(FrameOf(n + 1, id, cleanup)))
  {
    hide Trace.PushOutput, Trace.PushInput, Trace.HasExited, Trace.ExitRecordedAfter, Trace.Started;
  }

  /** What is left of a run that stopped after the opening fails every assertion. */
  lemma SpoiledVerdict(w: World, m: Moment, t: Trace)
    requires w.Valid() && First(w, m, Head(w.plan, 1)) && m.trace.activations == [] && Silenced(m.trace, t)
    ensures var report := Report(t, w.scenario, w.plan, w.launch, w.sha);
            !report.passed && forall i | 0 <= i < |report.assertions| :: !report.assertions[i].passed
  {
    hide EchoLine, NetworkLine, FindExit, FindCleanup, AnyStdoutLine, AnyAnswer, KeyOrder, FindLine, FindStart,
         CountLine, StaleLine, Trace.Clean, PhaseAnswer, ExitMatches;
    assert |t.starts| == 1;
    assert !ProcessSafetyHolds(t, w.plan, w.launch);
    assert |Texts(t.StreamsOf(1).stdout.lines)| == 3 < |Expected(w.plan, 1)|;
    assert !ResponseIntegrityHolds(t, w.plan, w.sha);
    assert Activation(t, w.scenario).None?;
  }
}
