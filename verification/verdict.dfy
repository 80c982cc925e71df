/** What the checker decides about the honest run. */
module Verdict {
  import opened Protocol
  import opened Lines
  import opened Streams
  import opened Traces
  import opened Scenarios
  import opened Checker
  import opened Driver
  import opened Driving
  import opened Conversation
  import opened Honesty
  import opened Completeness

  // ---- Finding things ------------------------------------------------------------------

  lemma {:induction false} FindLineAt(lines: seq<CompletedLine>, wanted: string, p: nat)
    requires p < |lines| && lines[p].text == wanted && forall j | 0 <= j < p :: lines[j].text != wanted
    ensures FindLine(lines, wanted) == Some(lines[p])
    decreases |lines|
  {
    if p > 0 { FindLineAt(lines[1..], wanted, p - 1); }
  }

  lemma {:induction false} CountNone(lines: seq<CompletedLine>, wanted: string)
    requires forall j | 0 <= j < |lines| :: lines[j].text != wanted
    ensures CountLine(lines, wanted) == 0
    decreases |lines|
  {
    if lines != [] { CountNone(lines[1..], wanted); }
  }

  lemma {:induction false} CountOnce(lines: seq<CompletedLine>, wanted: string, p: nat)
    requires p < |lines| && forall j | 0 <= j < |lines| :: lines[j].text == wanted <==> j == p
    ensures CountLine(lines, wanted) == 1
    decreases |lines|
  {
    if p > 0 {
      assert lines[0].text != wanted;
      CountOnce(lines[1..], wanted, p - 1);
    } else {
      assert lines[0].text == wanted;
      CountNone(lines[1..], wanted);
    }
  }

  lemma {:induction false} AnswerAtPlace(lines: seq<CompletedLine>, acks: seq<nat>, from: nat, wanted: string, p: nat)
    requires from <= p < |lines| && 1 <= p <= |acks| && lines[p].text == wanted
    requires forall j | from <= j < p :: lines[j].text != wanted
    ensures AnswerFrom(lines, acks, from, wanted) == Some(Answer(lines[p], acks[p - 1]))
    decreases p - from
  {
    if from < p { AnswerAtPlace(lines, acks, from + 1, wanted, p); }
  }

  lemma {:induction false} NoAnswer(lines: seq<CompletedLine>, acks: seq<nat>, from: nat, wanted: string)
    requires forall j | from <= j < |lines| :: lines[j].text != wanted
    ensures AnswerFrom(lines, acks, from, wanted) == None
    decreases |lines| - from
  {
    if from < |lines| { NoAnswer(lines, acks, from + 1, wanted); }
  }

  lemma OrderOfTwo()
    ensures KeyOrder({1, 2}) == [1, 2]
  {
    var two: set<nat> := {1, 2};
    LeastExists(two);
    var one: set<nat> := {2};
    LeastExists(one);
    assert two - {1} == one && one - {2} == {};
    assert KeyOrder(one) == [2] + KeyOrder({});
    assert Least(1, two) && forall k | Least(k, two) :: k == 1;
    assert KeyOrder(two) == [1] + KeyOrder(two - {1});
  }

  // ---- Telling lines apart -----------------------------------------------------------------

  lemma NetworkLineShape(plan: WorkloadChoicePlan, i: nat)
    requires plan.Valid() && i < |plan.requests|
    ensures var line := NetworkLine(plan, i);
            && |line| > 14 && line[0] == 'n'
            && (line[14] == 'u' <==> plan.Phase(i) == Outage)
            && (if plan.Phase(i) == Outage then |line| == 34 + 29 + 9 && line[34..63] == plan.requests[i].requestId
                else |line| == 25 + 29 && line[25..54] == plan.requests[i].requestId)
  {
    assert plan.requests[i].Valid();
    var id := plan.requests[i].requestId;
    if plan.Phase(i) == Outage {
      Within("network state=unavailable request=", id, " errno=13");
    } else {
      Within("network state=ok request=", id, "");
      assert ("network state=ok request=" + id) + "" == "network state=ok request=" + id;
    }
  }

  lemma Within(before: string, middle: string, after: string)
    ensures (before + middle + after)[|before|..|before| + |middle|] == middle
    ensures before <= before + middle + after
  {}

  lemma NetworkLinesDiffer(plan: WorkloadChoicePlan, i: nat, j: nat)
    requires plan.Valid() && i < |plan.requests| && j < |plan.requests| && NetworkLine(plan, i) == NetworkLine(plan, j)
    ensures i == j
  {
    hide NetworkLine, PlannedRequest.Valid;
    NetworkLineShape(plan, i);
    NetworkLineShape(plan, j);
  }

  lemma HeadShape(plan: WorkloadChoicePlan, k: nat)
    ensures |READY_LINE| > 0 && READY_LINE[0] == 'r'
    ensures |EchoLine(plan.seed, k)| > 0 && EchoLine(plan.seed, k)[0] == 'e'
    ensures |FRESH_STATE_LINE| > 0 && FRESH_STATE_LINE[0] == 's'
    ensures |ESCAPED_DESCENDANT_LINE| > 0 && ESCAPED_DESCENDANT_LINE[0] == 'd'
  {}

  /** The lines an invocation must print, by place. */
  lemma ExpectedShape(plan: WorkloadChoicePlan, k: nat, j: nat)
    requires plan.Valid() && 1 <= k <= 2 && j < |Expected(plan, k)|
    ensures var from, to := if k == 1 then 0 else plan.faultIndex, if k == 1 then plan.faultIndex else |plan.requests|;
            var texts := Expected(plan, k);
            && |texts| == 3 + (to - from) + (if k == 1 then 1 else 0)
            && texts[0] == READY_LINE && texts[1] == EchoLine(plan.seed, k) && texts[2] == FRESH_STATE_LINE
            && (3 <= j < 3 + (to - from) ==> from + (j - 3) < |plan.requests|
                                             && texts[j] == NetworkLine(plan, from + (j - 3)))
            && (j == 3 + (to - from) ==> texts[j] == ESCAPED_DESCENDANT_LINE)
  {
    hide NetworkLine, EchoLine;
  }

  /** Each line starts with the letter of its sort. */
  lemma ExpectedLetter(plan: WorkloadChoicePlan, k: nat, j: nat)
    requires plan.Valid() && 1 <= k <= 2 && j < |Expected(plan, k)|
    ensures var text := Expected(plan, k)[j];
            |text| > 0 && text[0] == if j == 0 then 'r' else if j == 1 then 'e' else if j == 2 then 's'
                                     else if k == 1 && j == |Expected(plan, k)| - 1 then 'd' else 'n'
  {
    hide NetworkLine, EchoLine, Expected;
    ExpectedShape(plan, k, j);
    HeadShape(plan, k);
    var from, to := if k == 1 then 0 else plan.faultIndex, if k == 1 then plan.faultIndex else |plan.requests|;
    if 3 <= j < 3 + (to - from) {
      NetworkLineShape(plan, from + (j - 3));
    }
  }

  /** The answer to request `index` is where its position says and nowhere else. */
  lemma AnswerPlace(plan: WorkloadChoicePlan, index: nat, k: nat, j: nat)
    requires plan.Valid() && index < |plan.requests| && 1 <= k <= 2 && j < |Expected(plan, k)|
    ensures Expected(plan, k)[j] == NetworkLine(plan, index) <==> k == Server(plan, index) && j == Position(plan, index)
    ensures Position(plan, index) < |Expected(plan, Server(plan, index))|
  {
    hide NetworkLine, EchoLine, Expected;
    ExpectedShape(plan, k, j);
    ExpectedShape(plan, Server(plan, index), 0);
    ExpectedLetter(plan, k, j);
    NetworkLineShape(plan, index);
    var from, to := if k == 1 then 0 else plan.faultIndex, if k == 1 then plan.faultIndex else |plan.requests|;
    if 3 <= j < 3 + (to - from) && Expected(plan, k)[j] == NetworkLine(plan, index) {
      NetworkLinesDiffer(plan, from + (j - 3), index);
    }
  }

  // ---- The end of the run ----------------------------------------------------------------------

  /** An invocation printed exactly `texts`, each line but the first right after its input. */
  predicate Spoke(s: InvocationStreams, texts: seq<string>, eofs: nat) {
    && s.stdout.pending == "" && s.stderr == NO_LINES && s.violations == [] && s.eofInputs == eofs
    && Texts(s.stdout.lines) == texts && |texts| == |s.dataInputEvents| + 1
    && forall j | 1 <= j < |s.stdout.lines| :: Conversation.Answers(s.stdout.lines[j], s.dataInputEvents[j - 1])
  }

  /** Both invocations are over. The second started in event `e`. */
  predicate Final(w: World, t: Trace, e: nat)
    requires w.plan.Valid()
  {
    && Undisturbed(t) && e >= 7
    && t.starts == [StartRecord(1, w.launch, 2), StartRecord(2, w.launch, e)]
    && t.terminations == [TerminationRecord(1, TERMINATION_SIGNAL, e - 3)]
    && |t.exits| == 2 && t.exits[0] == ExitOf(t, 1, Signaled(TERMINATION_SIGNAL), e - 2, w.sha)
    && t.exits[1] == ExitOf(t, 2, Exited(0), t.exits[1].eventId, w.sha)
    && |t.cleanups| == 2 && t.cleanups[0] == CleanupRecord(1, 2, e - 1) && t.cleanups[1].invocation == 2
    && t.invocations.Keys == {1, 2}
    && Spoke(t.StreamsOf(1), Expected(w.plan, 1), 0) && Spoke(t.StreamsOf(2), Expected(w.plan, 2), 1)
    && t.StreamsOf(1).stdout.lines[|Expected(w.plan, 1)| - 1].eventId < e - 3
    && t.StreamsOf(2).stdout.lines[1].eventId == e + 3
  }

  /** Both faults happened and their first requests were answered two events later. */
  predicate BothFaults(w: World, t: Trace)
    requires w.plan.Valid()
  {
    var peer := w.scenario.PeerCidr();
    && |t.activations| == 1 && t.activations[0].peerCidr == peer && 1 < t.activations[0].eventId
    && |t.restorations| == 1 && t.restorations[0].peerCidr == peer
    && t.activations[0].eventId + 2 < t.restorations[0].eventId
    && AnsweredAfter(w, t, w.plan.activationIndex, t.activations[0].eventId)
    && AnsweredAfter(w, t, w.plan.restorationIndex, t.restorations[0].eventId)
  }

  lemma RunEnds(w: World, m: Moment, e: nat)
    requires w.Valid() && Living(w, m, |w.plan.requests|, true, e)
    ensures IsReady(w, m, EofStep(2)) && Final(w, Next(w, m, EofStep(2)).trace, e)
  {
    hide NetworkLine, EchoLine;
    var n, f := |w.plan.requests|, w.plan.faultIndex;
    var more := Head(w.plan, 2) + NetworkLines(w.plan, f, n);
    assert more == Expected(w.plan, 2);
    SecondIsAlive(w, m, Expected(w.plan, 1), e, more);
  }

  lemma FaultsEnd(w: World, m: Moment)
    requires w.Valid() && Faults(w, m, |w.plan.requests|, Healed)
    ensures BothFaults(w, Next(w, m, EofStep(2)).trace)
  {
    hide AnsweredAfter, Next;
    FaultsStay(w, m, EofStep(2), |w.plan.requests|, Healed);
  }

  // ---- The five assertions ------------------------------------------------------------------------

  lemma IsClean(w: World, t: Trace, e: nat)
    requires w.plan.Valid() && Final(w, t, e)
    ensures t.Clean()
  {
    forall k | k in t.invocations ensures t.invocations[k].violations == [] {
      assert k == 1 || k == 2;
      assert t.StreamsOf(k) == t.invocations[k];
    }
  }

  lemma EscapedIsLast(w: World, t: Trace, e: nat)
    requires w.plan.Valid() && Final(w, t, e)
    ensures var lines := t.StreamsOf(1).stdout.lines;
            AnyStdoutLine(t, KeyOrder(t.invocations.Keys), ESCAPED_DESCENDANT_LINE) == Some(lines[|lines| - 1])
  {
    hide Expected, KeyOrder;
    var lines, texts := t.StreamsOf(1).stdout.lines, Expected(w.plan, 1);
    OrderOfTwo();
    var p := |texts| - 1;
    ExpectedShape(w.plan, 1, p);
    forall j | 0 <= j < p ensures lines[j].text != ESCAPED_DESCENDANT_LINE {
      ExpectedLetter(w.plan, 1, j);
      assert Texts(lines)[j] == lines[j].text;
    }
    assert Texts(lines)[p] == lines[p].text;
    FindLineAt(lines, ESCAPED_DESCENDANT_LINE, p);
  }

  lemma FreshOnce(plan: WorkloadChoicePlan, k: nat, lines: seq<CompletedLine>)
    requires plan.Valid() && 1 <= k <= 2 && Texts(lines) == Expected(plan, k)
    ensures CountLine(lines, FRESH_STATE_LINE) == 1
    ensures forall i | 0 <= i < |lines| :: !StaleLine(lines[i])
  {
    hide Expected;
    ExpectedShape(plan, k, 0);
    forall j | 0 <= j < |lines| ensures (lines[j].text == FRESH_STATE_LINE <==> j == 2) && !StaleLine(lines[j]) {
      ExpectedLetter(plan, k, j);
      assert Texts(lines)[j] == lines[j].text;
    }
    CountOnce(lines, FRESH_STATE_LINE, 2);
  }

  lemma FindsEnds(w: World, t: Trace, e: nat)
    requires w.plan.Valid() && Final(w, t, e)
    ensures FindExit(t.exits, 1) == Some(t.exits[0]) && FindExit(t.exits, 2) == Some(t.exits[1])
    ensures FindCleanup(t.cleanups, 1) == Some(t.cleanups[0]) && FindCleanup(t.cleanups, 2) == Some(t.cleanups[1])
    ensures FindStart(t.starts, 2) == Some(t.starts[1])
  {
    hide Spoke, Expected;
    assert t.exits[1..][0] == t.exits[1] && t.cleanups[1..][0] == t.cleanups[1] && t.starts[1..][0] == t.starts[1];
  }

  lemma ProcessIsSafe(w: World, t: Trace, e: nat)
    requires w.Valid() && Final(w, t, e)
    ensures ProcessSafetyHolds(t, w.plan, w.launch)
  {
    hide Expected, KeyOrder, FindExit, FindCleanup, AnyStdoutLine, CountLine, StaleLine, Trace.Clean;
    IsClean(w, t, e);
    EscapedIsLast(w, t, e);
    FindsEnds(w, t, e);
    FreshOnce(w.plan, 1, t.StreamsOf(1).stdout.lines);
    FreshOnce(w.plan, 2, t.StreamsOf(2).stdout.lines);
  }

  lemma ResponsesAreIntact(w: World, t: Trace, e: nat)
    requires w.Valid() && Final(w, t, e)
    ensures ResponseIntegrityHolds(t, w.plan, w.sha)
  {
    hide Expected, Trace.Clean;
    IsClean(w, t, e);
    assert forall k | k == 1 || k == 2 :: t.StreamsOf(k).stderr == NO_LINES;
    SpokeMatches(t.StreamsOf(1), Expected(w.plan, 1), 0);
    SpokeMatches(t.StreamsOf(2), Expected(w.plan, 2), 1);
  }

  lemma SpokeMatches(s: InvocationStreams, texts: seq<string>, eofs: nat)
    requires Spoke(s, texts, eofs) && |texts| >= 1
    ensures ResponsesMatch(s, texts, eofs)
  {
    forall i | 0 <= i < |s.dataInputEvents| ensures s.stdout.lines[i + 1].firstEventId > s.dataInputEvents[i] {
      assert Conversation.Answers(s.stdout.lines[i + 1], s.dataInputEvents[i + 1 - 1]);
    }
  }

  lemma {:induction false} FirstInPhaseAt(plan: WorkloadChoicePlan, phase: RequestPhase, from: nat, index: nat)
    requires from <= index < |plan.requests| && plan.Phase(index) == phase
    requires forall j | from <= j < index :: plan.Phase(j) != phase
    ensures FirstInPhase(plan, phase, from) == Some(index)
    decreases index - from
  {
    if from < index { FirstInPhaseAt(plan, phase, from + 1, index); }
  }

  lemma AnswerInTrace(w: World, t: Trace, e: nat, index: nat)
    requires w.Valid() && Final(w, t, e) && index < |w.plan.requests|
    ensures var s, p := t.StreamsOf(Server(w.plan, index)), Position(w.plan, index);
            && 1 <= p < |s.stdout.lines| && p <= |s.dataInputEvents|
            && AnyAnswer(t, KeyOrder(t.invocations.Keys),
                         NetworkLine(w.plan, index)) == Some(Answer(s.stdout.lines[p], s.dataInputEvents[p - 1]))
  {
    hide Expected, NetworkLine, KeyOrder, AnswerFrom;
    var wanted, k, p := NetworkLine(w.plan, index), Server(w.plan, index), Position(w.plan, index);
    OrderOfTwo();
    AnswerPlace(w.plan, index, k, 0);
    var one, two := t.StreamsOf(1), t.StreamsOf(2);
    forall i, j | 1 <= i <= 2 && 0 <= j < |t.StreamsOf(i).stdout.lines|
      ensures t.StreamsOf(i).stdout.lines[j].text == wanted <==> i == k && j == p
    {
      assert Texts(t.StreamsOf(i).stdout.lines)[j] == t.StreamsOf(i).stdout.lines[j].text;
      AnswerPlace(w.plan, index, i, j);
    }
    if k == 1 {
      AnswerAtPlace(one.stdout.lines, one.dataInputEvents, 0, wanted, p);
    } else {
      NoAnswer(one.stdout.lines, one.dataInputEvents, 0, wanted);
      AnswerAtPlace(two.stdout.lines, two.dataInputEvents, 0, wanted, p);
      assert [1, 2][1..] == [2];
    }
  }

  lemma PhaseAnswerIs(w: World, t: Trace, e: nat, index: nat, phase: RequestPhase)
    requires w.Valid() && Final(w, t, e)
    requires (phase == Outage && index == w.plan.activationIndex)
             || (phase == Recovery && index == w.plan.restorationIndex)
    ensures var s, p := t.StreamsOf(Server(w.plan, index)), Position(w.plan, index);
            && 1 <= p < |s.stdout.lines| && p <= |s.dataInputEvents|
            && PhaseAnswer(t, w.plan, phase) == Some(Answer(s.stdout.lines[p], s.dataInputEvents[p - 1]))
  {
    hide Final, ExpectedNetworkLine, KeyOrder, AnyAnswer;
    FirstInPhaseAt(w.plan, phase, 0, index);
    AnswerInTrace(w, t, e, index);
    assert NetworkLine(w.plan, index) == ExpectedNetworkLine(w.plan.requests[index], phase);
  }

  lemma RoutesFound(w: World, t: Trace)
    requires w.Valid() && Undisturbed(t) && BothFaults(w, t)
    ensures Activation(t, w.scenario) == Some(t.activations[0]) && Restored(t, w.scenario) == Some(t.restorations[0])
  {
    hide AnsweredAfter;
  }

  lemma OutageVerdict(w: World, t: Trace, e: nat)
    requires w.Valid() && Final(w, t, e) && BothFaults(w, t)
    ensures ControlledOutageHolds(t, w.scenario, w.plan) <==> w.scenario.outageEventBound >= 2
  {
    hide Activation, Restored, PhaseAnswer, Final;
    FinalIsUndisturbed(w, t, e);
    RoutesFound(w, t);
    PhaseAnswerIs(w, t, e, w.plan.activationIndex, Outage);
  }

  lemma FinalIsUndisturbed(w: World, t: Trace, e: nat)
    requires w.Valid() && Final(w, t, e)
    ensures Undisturbed(t)
  {}

  lemma EchoFound(w: World, t: Trace, e: nat)
    requires w.Valid() && Final(w, t, e)
    ensures FindStart(t.starts, 2) == Some(t.starts[1]) && t.starts[1].eventId == e
    ensures var echo := FindLine(t.StreamsOf(2).stdout.lines, EchoLine(w.plan.seed, 2));
            echo.Some? && echo.value.eventId == e + 3
  {
    hide Expected, EchoLine, FindStart, FindLine;
    var lines := t.StreamsOf(2).stdout.lines;
    FindsEnds(w, t, e);
    ExpectedShape(w.plan, 2, 0);
    HeadShape(w.plan, 2);
    assert Texts(lines)[0] == lines[0].text && Texts(lines)[1] == lines[1].text;
    FindLineAt(lines, EchoLine(w.plan.seed, 2), 1);
  }

  lemma RecoveryVerdict(w: World, t: Trace, e: nat)
    requires w.Valid() && Final(w, t, e) && BothFaults(w, t)
    ensures BoundedRecoveryHolds(t, w.scenario, w.plan) <==> w.scenario.livenessEventBound >= 3
  {
    hide Activation, Restored, PhaseAnswer, Final, FindStart, FindLine, EchoLine;
    FinalIsUndisturbed(w, t, e);
    RoutesFound(w, t);
    PhaseAnswerIs(w, t, e, w.plan.restorationIndex, Recovery);
    EchoFound(w, t, e);
  }

  /** The report on the final trace. */
  lemma FinalVerdict(w: World, t: Trace, e: nat)
    requires w.Valid() && Final(w, t, e) && BothFaults(w, t)
    ensures Report(t, w.scenario, w.plan, w.launch, w.sha).passed <==>
            w.scenario.outageEventBound >= 2 && w.scenario.livenessEventBound >= 3
  {
    hide Final, BothFaults, ProcessSafetyHolds, ResponseIntegrityHolds, ControlledOutageHolds, BoundedRecoveryHolds,
         Restored;
    ProcessIsSafe(w, t, e);
    ResponsesAreIntact(w, t, e);
    OutageVerdict(w, t, e);
    RecoveryVerdict(w, t, e);
    FinalIsUndisturbed(w, t, e);
    RoutesFound(w, t);
  }
}
