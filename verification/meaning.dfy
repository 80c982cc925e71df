/** What a workload report says about the events themselves, as an if and only if for each assertion. */
module Meaning {
  import opened Protocol
  import opened Lines
  import opened Streams
  import opened Traces
  import opened Scenarios
  import opened Checker
  import opened Soundness
  import opened Faultless
  import Controller

  // ---- Facts read straight off the event stream ------------------------------------------------

  function LinesOf(events: seq<EventFrame>, k: nat): seq<CompletedLine> {
    SplitLines(OutputBytes(events, k, Stdout))
  }

  /** Exactly one line reports the state, and it reports a fresh one. */
  ghost predicate FreshOnce(lines: seq<CompletedLine>) {
    exists i :: IsOnlyState(lines, i)
  }

  predicate IsOnlyState(lines: seq<CompletedLine>, i: nat) {
    && i < |lines| && lines[i].text == "state value=fresh root=fresh"
    && forall j | 0 <= j < |lines| && "state value=" <= lines[j].text :: j == i
  }

  /** The first invocation's descendant escaped no later than the kill. */
  ghost predicate EscapedBy(events: seq<EventFrame>, killed: nat) {
    exists id: nat :: PrintedIn(events, 1, ESCAPED_DESCENDANT_LINE, id) && id <= killed
  }

  /** The process assertion. */
  ghost predicate ProcessSafe(events: seq<EventFrame>, plan: WorkloadChoicePlan, launch: LaunchIdentity) {
    && Flawless(events) && (forall i | 0 <= i < |events| :: !events[i].event.LaunchFailed?) && plan.faultIndex != 0
    && FreshOnce(LinesOf(events, 1)) && FreshOnce(LinesOf(events, 2))
    && exists c :: KilledThenRestarted(events, launch, c) && EscapedBy(events, c.killed)
  }

  /** One invocation printed exactly `expected` in complete lines, each after the acknowledgement it answers,
      completed no line on standard error, and had its input ended `eofs` times. */
  predicate Responds(events: seq<EventFrame>, k: nat, expected: seq<string>, eofs: nat) {
    var lines, acks := LinesOf(events, k), DataAcks(events, k);
    && Texts(lines) == expected && |expected| == |acks| + 1 && EndsOfInput(events, k) == eofs
    && SplitLines(OutputBytes(events, k, Stderr)) == []
    && forall i | 0 <= i < |acks| :: lines[i + 1].firstEventId > acks[i]
  }

  /** An exit record states the totals, the frames and the digests of everything its invocation wrote: whole
      lines on standard output, nothing on standard error. */
  predicate ExitIsTrue(events: seq<EventFrame>, f: EventFrame, sha: string -> string)
    requires f.event.WorkloadExited?
  {
    var out, err := OutputBytes(events, f.event.invocation, Stdout), OutputBytes(events, f.event.invocation, Stderr);
    && SplitRest(out) == [] && err == []
    && f.event.stdoutBytes == |out| && f.event.stderrBytes == |err|
    && f.event.frames == OutputFrames(events, f.event.invocation)
    && f.event.stdoutSha256 == sha(Text(out)) && f.event.stderrSha256 == sha(Text(err))
  }

  /** The response assertion. */
  ghost predicate ResponsesIntact(events: seq<EventFrame>, plan: WorkloadChoicePlan, sha: string -> string)
    requires plan.faultIndex <= |plan.requests|
  {
    && Flawless(events) && Responds(events, 1, Expected(plan, 1), 0) && Responds(events, 2, Expected(plan, 2), 1)
    && forall i | 0 <= i < |events| && events[i].event.WorkloadExited? :: ExitIsTrue(events, events[i], sha)
  }

  /** The outage begins in event `a`, after the configuration. */
  ghost predicate Activates(events: seq<EventFrame>, scenario: WorkloadScenario, a: nat) {
    && 1 <= a <= |events| && events[a - 1].event.OutageActivated?
    && events[a - 1].event.peerCidr == scenario.fixturePeer + "/32"
    && exists c | 0 <= c < a - 1 ::
         events[c].event.NetworkConfigured? && events[c].event.gateway == scenario.fixturePeer
  }

  /** It ends in event `r`. */
  ghost predicate Restores(events: seq<EventFrame>, scenario: WorkloadScenario, a: nat, r: nat) {
    Activates(events, scenario, a) && a < r && EventAt(events, r, NetworkRestored(scenario.fixturePeer + "/32"))
  }

  /** Line `i` of invocation `k` is this text and answers an acknowledged input. */
  predicate AnswersAt(events: seq<EventFrame>, k: nat, i: nat, wanted: string) {
    1 <= i < |LinesOf(events, k)| && i <= |DataAcks(events, k)| && LinesOf(events, k)[i].text == wanted
  }

  predicate IsAnswer(events: seq<EventFrame>, k: nat, i: nat, answer: Answer) {
    && 1 <= i < |LinesOf(events, k)| && i <= |DataAcks(events, k)|
    && answer == Answer(LinesOf(events, k)[i], DataAcks(events, k)[i - 1])
  }

  /** The first answer with this text, by invocation and then by line. */
  ghost predicate FirstAnswer(events: seq<EventFrame>, wanted: string, answer: Answer) {
    exists k: nat, i: nat | AnswersAt(events, k, i, wanted) ::
      && IsAnswer(events, k, i, answer)
      && forall j: nat, m: nat | AnswersAt(events, j, m, wanted) :: k < j || (k == j && i <= m)
  }

  /** The first request of a phase. */
  predicate PhaseBegins(plan: WorkloadChoicePlan, phase: RequestPhase, index: nat) {
    index < |plan.requests| && plan.Phase(index) == phase && forall j | 0 <= j < index :: plan.Phase(j) != phase
  }

  ghost predicate PhaseAnswered(events: seq<EventFrame>, plan: WorkloadChoicePlan, phase: RequestPhase,
                                answer: Answer) {
    exists index: nat | PhaseBegins(plan, phase, index) ::
      FirstAnswer(events, ExpectedNetworkLine(plan.requests[index], phase), answer)
  }

  /** The outage assertion: the first request of the outage is sent and denied inside it, within the bound. */
  ghost predicate OutageObserved(events: seq<EventFrame>, scenario: WorkloadScenario, plan: WorkloadChoicePlan) {
    exists a: nat, answer | Activates(events, scenario, a) && PhaseAnswered(events, plan, Outage, answer) ::
      && a < answer.acknowledged && a < answer.line.eventId <= a + scenario.outageEventBound
      && forall r: nat | Restores(events, scenario, a, r) :: answer.line.eventId < r
  }

  ghost predicate NetworkHealed(events: seq<EventFrame>, scenario: WorkloadScenario) {
    exists a: nat, r: nat :: Restores(events, scenario, a, r)
  }

  /** The first line of invocation `k` with this text. */
  predicate FirstLineAt(events: seq<EventFrame>, k: nat, text: string, i: nat) {
    && i < |LinesOf(events, k)| && LinesOf(events, k)[i].text == text
    && forall j | 0 <= j < i :: LinesOf(events, k)[j].text != text
  }

  /** The restarted invocation echoes within the bound. */
  ghost predicate EchoesWithin(events: seq<EventFrame>, plan: WorkloadChoicePlan, bound: nat) {
    exists b: nat, i: nat | StartsAt(events, 2, b) && FirstLineAt(events, 2, EchoLine(plan.seed, 2), i) ::
      b < LinesOf(events, 2)[i].eventId <= b + bound
  }

  predicate StartsAt(events: seq<EventFrame>, k: nat, b: nat) {
    1 <= b <= |events| && events[b - 1].event.WorkloadStarted? && events[b - 1].event.invocation == k
  }

  /** The recovery assertion: the first request after the outage is sent and answered after it, within the
      bound, and so does the restarted invocation echo. */
  ghost predicate RecoveryObserved(events: seq<EventFrame>, scenario: WorkloadScenario, plan: WorkloadChoicePlan) {
    && (exists a: nat, r: nat, answer | Restores(events, scenario, a, r)
        && PhaseAnswered(events, plan, Recovery, answer) ::
          r < answer.acknowledged && r < answer.line.eventId <= r + scenario.livenessEventBound)
    && EchoesWithin(events, plan, scenario.livenessEventBound)
  }

  // ---- Searching ---------------------------------------------------------------------------------

  predicate Ascends(keys: seq<nat>) {
    forall i, j | 0 <= i < j < |keys| :: keys[i] < keys[j]
  }

  lemma {:induction false} KeyOrderFirst(keys: set<nat>) returns (first: nat)
    requires keys != {}
    ensures Least(first, keys) && KeyOrder(keys) == [first] + KeyOrder(keys - {first})
  {
    LeastExists(keys);
    first := KeyOrder(keys)[0];
  }

  lemma {:induction false} AscendsAfter(first: nat, rest: seq<nat>)
    requires Ascends(rest) && forall k | k in rest :: first < k
    ensures Ascends([first] + rest)
  {
    assert forall i | 0 <= i < |rest| :: rest[i] in rest;
  }

  /** The keys of a map are walked in ascending order, each once. */
  lemma {:induction false} KeyOrderAscends(keys: set<nat>)
    ensures Ascends(KeyOrder(keys)) && forall k :: k in KeyOrder(keys) <==> k in keys
    decreases |keys|
  {
    if keys == {} {
      assert KeyOrder(keys) == [];
    } else {
      hide KeyOrder, Ascends;
      var first := KeyOrderFirst(keys);
      var rest := KeyOrder(keys - {first});
      KeyOrderAscends(keys - {first});
      AscendsAfter(first, rest);
    }
  }

  /** A search through lines finds the first match. */
  lemma {:induction false} FindLineFirst(lines: seq<CompletedLine>, wanted: string) returns (i: nat)
    ensures FindLine(lines, wanted).Some? ==>
              && i < |lines| && lines[i] == FindLine(lines, wanted).value && lines[i].text == wanted
              && forall j | 0 <= j < i :: lines[j].text != wanted
    ensures FindLine(lines, wanted).None? ==> forall j | 0 <= j < |lines| :: lines[j].text != wanted
  {
    i := 0;
    if lines != [] && lines[0].text != wanted {
      var n := FindLineFirst(lines[1..], wanted);
      i := n + 1;
      assert forall j | 1 <= j < |lines| :: lines[j] == lines[1..][j - 1];
    }
  }

  lemma {:induction false} AnyLineFirst(t: Trace, keys: seq<nat>, wanted: string) returns (n: nat)
    ensures AnyStdoutLine(t, keys, wanted).Some? ==>
              && n < |keys| && AnyStdoutLine(t, keys, wanted) == FindLine(t.StreamsOf(keys[n]).stdout.lines, wanted)
              && forall m | 0 <= m < n :: FindLine(t.StreamsOf(keys[m]).stdout.lines, wanted).None?
    ensures AnyStdoutLine(t, keys, wanted).None? ==>
              forall m | 0 <= m < |keys| :: FindLine(t.StreamsOf(keys[m]).stdout.lines, wanted).None?
  {
    n := 0;
    if keys != [] && FindLine(t.StreamsOf(keys[0]).stdout.lines, wanted).None? {
      var m := AnyLineFirst(t, keys[1..], wanted);
      n := m + 1;
      assert forall j | 1 <= j < |keys| :: keys[j] == keys[1..][j - 1];
    }
  }

  lemma {:induction false} CountNone(lines: seq<CompletedLine>, wanted: string)
    ensures CountLine(lines, wanted) == 0 <==> forall j | 0 <= j < |lines| :: lines[j].text != wanted
  {
    if lines != [] {
      CountNone(lines[1..], wanted);
      assert forall j | 1 <= j < |lines| :: lines[j] == lines[1..][j - 1];
    }
  }

  lemma {:induction false} CountOne(lines: seq<CompletedLine>, wanted: string) returns (i: nat)
    ensures CountLine(lines, wanted) == 1 ==>
              i < |lines| && lines[i].text == wanted && forall j | 0 <= j < |lines| && lines[j].text == wanted :: j == i
    ensures CountLine(lines, wanted) != 1 ==>
              forall k | 0 <= k < |lines| && lines[k].text == wanted ::
                exists j | 0 <= j < |lines| && lines[j].text == wanted :: j != k
  {
    i := 0;
    if lines != [] {
      var rest := lines[1..];
      assert forall j | 1 <= j < |lines| :: lines[j] == rest[j - 1];
      assert forall j | 0 <= j < |rest| :: rest[j] == lines[j + 1];
      CountNone(rest, wanted);
      var n := CountOne(rest, wanted);
      if lines[0].text != wanted {
        i := n + 1;
        if CountLine(lines, wanted) != 1 {
          forall k | 0 <= k < |lines| && lines[k].text == wanted
            ensures exists j | 0 <= j < |lines| && lines[j].text == wanted :: j != k
          {
            assert rest[k - 1].text == wanted;
            var j :| 0 <= j < |rest| && rest[j].text == wanted && j != k - 1;
            assert lines[j + 1].text == wanted;
          }
        }
      } else if CountLine(rest, wanted) != 0 {
        var j :| 0 <= j < |rest| && rest[j].text == wanted;
        assert lines[j + 1].text == wanted;
      }
    }
  }

  /** One fresh line and no stale one is one line that reports the state, a fresh one. */
  lemma {:induction false} FreshExactly(lines: seq<CompletedLine>)
    ensures CountLine(lines, FRESH_STATE_LINE) == 1 && (forall i | 0 <= i < |lines| :: !StaleLine(lines[i])) <==>
            FreshOnce(lines)
  {
    var i := CountOne(lines, FRESH_STATE_LINE);
    assert STATE_LINE_PREFIX <= FRESH_STATE_LINE;
    if CountLine(lines, FRESH_STATE_LINE) == 1 && forall i | 0 <= i < |lines| :: !StaleLine(lines[i]) {
      assert IsOnlyState(lines, i);
    }
    if FreshOnce(lines) {
      var n :| IsOnlyState(lines, n);
      forall j | 0 <= j < |lines| && lines[j].text == FRESH_STATE_LINE ensures j == n {}
      forall j | 0 <= j < |lines| ensures !StaleLine(lines[j]) {}
    }
  }

  // ---- The events of lines -----------------------------------------------------------------------

  /** Later bytes come in later events. */
  predicate InTime(bytes: seq<Tagged>) {
    forall i, j | 0 <= i < j < |bytes| :: bytes[i].event <= bytes[j].event
  }

  predicate LinesInTime(lines: seq<CompletedLine>) {
    forall i, j | 0 <= i < j < |lines| :: lines[i].eventId <= lines[j].eventId
  }

  lemma {:induction false} CarriedTags(f: EventFrame, k: nat, stream: Stream)
    ensures forall i | 0 <= i < |Carried(f, k, stream)| :: Carried(f, k, stream)[i].event == f.eventId
    ensures Carried(f, k, stream) != [] ==> IsOutputOf(f, k)
  {
    hide Unhex;
  }

  predicate FromOutput(bytes: seq<Tagged>, events: seq<EventFrame>, k: nat) {
    forall i | 0 <= i < |bytes| :: 1 <= bytes[i].event <= |events| && IsOutputOf(events[bytes[i].event - 1], k)
  }

  /** Each byte comes in an output event of its invocation, in time. */
  lemma {:induction false} BytesInTime(events: seq<EventFrame>, k: nat, stream: Stream)
    requires Sequential(events)
    ensures InTime(OutputBytes(events, k, stream)) && FromOutput(OutputBytes(events, k, stream), events, k)
  {
    hide Carried, IsOutputOf;
    if events != [] {
      var n := |events| - 1;
      BytesInTime(events[..n], k, stream);
      CarriedTags(events[n], k, stream);
      JoinInTime(OutputBytes(events[..n], k, stream), Carried(events[n], k, stream), events, k);
    }
  }

  lemma {:induction false} JoinInTime(init: seq<Tagged>, more: seq<Tagged>, events: seq<EventFrame>, k: nat)
    requires events != [] && InTime(init) && FromOutput(init, events[..|events| - 1], k)
    requires forall i | 0 <= i < |more| :: more[i].event == |events|
    requires more != [] ==> IsOutputOf(events[|events| - 1], k)
    ensures InTime(init + more) && FromOutput(init + more, events, k)
  {
    hide IsOutputOf;
    var all := init + more;
    forall i | 0 <= i < |all| ensures 1 <= all[i].event <= |events| && IsOutputOf(events[all[i].event - 1], k) {
      if i < |init| {
        assert all[i] == init[i] && events[..|events| - 1][init[i].event - 1] == events[init[i].event - 1];
      } else {
        assert all[i] == more[i - |init|];
      }
    }
  }

  predicate HasEvent(bytes: seq<Tagged>, id: nat) {
    exists i | 0 <= i < |bytes| :: bytes[i].event == id
  }

  lemma {:induction false} SplitEvents(bytes: seq<Tagged>, j: nat)
    requires j < |SplitLines(bytes)|
    ensures HasEvent(bytes, SplitLines(bytes)[j].eventId)
    decreases |bytes|
  {
    var i := FirstNewline(Text(bytes));
    if j > 0 {
      SplitEvents(bytes[i + 1..], j - 1);
      var m :| 0 <= m < |bytes[i + 1..]| && bytes[i + 1..][m].event == SplitLines(bytes)[j].eventId;
      assert bytes[i + 1 + m] == bytes[i + 1..][m];
    }
  }

  lemma {:induction false} SplitInTime(bytes: seq<Tagged>)
    requires InTime(bytes)
    ensures LinesInTime(SplitLines(bytes))
    decreases |bytes|
  {
    var i := FirstNewline(Text(bytes));
    if i < |bytes| {
      var rest := bytes[i + 1..];
      assert InTime(rest);
      SplitInTime(rest);
      var lines := SplitLines(rest);
      forall j | 0 <= j < |lines| ensures bytes[i].event <= lines[j].eventId {
        SplitEvents(rest, j);
        var m :| 0 <= m < |rest| && rest[m].event == lines[j].eventId;
        assert bytes[i + 1 + m] == rest[m];
      }
      FirstInTime(CompletedLine(Text(bytes[..i]), bytes[i].event, bytes[0].event), lines);
    }
  }

  lemma {:induction false} FirstInTime(line: CompletedLine, lines: seq<CompletedLine>)
    requires LinesInTime(lines) && forall j | 0 <= j < |lines| :: line.eventId <= lines[j].eventId
    ensures LinesInTime([line] + lines)
  {}

  /** A line is completed in an output event of its invocation, and the lines in time. */
  lemma {:induction false} LinesAreOutput(events: seq<EventFrame>, k: nat)
    requires Sequential(events)
    ensures LinesInTime(LinesOf(events, k))
    ensures forall i | 0 <= i < |LinesOf(events, k)| ::
              var id := LinesOf(events, k)[i].eventId; 1 <= id <= |events| && IsOutputOf(events[id - 1], k)
  {
    hide OutputBytes, SplitLines;
    var bytes := OutputBytes(events, k, Stdout);
    BytesInTime(events, k, Stdout);
    SplitInTime(bytes);
    forall i | 0 <= i < |LinesOf(events, k)|
      ensures var id := LinesOf(events, k)[i].eventId; 1 <= id <= |events| && IsOutputOf(events[id - 1], k)
    {
      SplitEvents(bytes, i);
      var m :| 0 <= m < |bytes| && bytes[m].event == LinesOf(events, k)[i].eventId;
    }
  }

  // ---- Records of a flawless stream ---------------------------------------------------------------

  /** The trace of a flawless stream. */
  lemma {:induction false} FlawlessTells(events: seq<EventFrame>)
    requires Sequential(events) && Flawless(events)
    ensures Fold(events).Clean() && RecordsAll(Fold(events), events)
    ensures forall k :: CountsAll(Fold(events).StreamsOf(k), events, k)
                        && Summarizes(Fold(events).StreamsOf(k), events, k)
  {
    hide Flawless, CountsAll, RecordsAll, Fold, Summarizes;
    CleanExactly(events);
    forall k ensures CountsAll(Fold(events).StreamsOf(k), events, k)
      && Summarizes(Fold(events).StreamsOf(k), events, k) {
      StreamsFaithful(events, k);
    }
  }

  lemma {:induction false} PickedOne<R>(events: seq<EventFrame>, pick: EventFrame -> Option<R>, p: nat)
    requires p < |events| && pick(events[p]).Some?
    requires forall i | 0 <= i < |events| && i != p :: pick(events[i]).None?
    ensures Picked(events, pick) == [pick(events[p]).value]
  {
    var n := |events| - 1;
    if p == n {
      PickedNone(events[..n], pick);
    } else {
      PickedOne(events[..n], pick, p);
    }
  }

  lemma {:induction false} PickedTwo<R>(events: seq<EventFrame>, pick: EventFrame -> Option<R>, p: nat, q: nat)
    requires p < q < |events| && pick(events[p]).Some? && pick(events[q]).Some?
    requires forall i | 0 <= i < |events| && i != p && i != q :: pick(events[i]).None?
    ensures Picked(events, pick) == [pick(events[p]).value, pick(events[q]).value]
  {
    var n := |events| - 1;
    if q == n {
      PickedOne(events[..n], pick, p);
    } else {
      PickedTwo(events[..n], pick, p, q);
    }
  }

  predicate SameEnd(e: Event, f: Event) {
    && ((e.WorkloadExited? && f.WorkloadExited?) || (e.CleanupComplete? && f.CleanupComplete?))
    && e.invocation == f.invocation
  }

  /** An invocation exits once, and is cleaned up once. */
  lemma {:induction false} EndsOnce(events: seq<EventFrame>, i: nat, j: nat)
    requires Flawless(events) && i < |events| && j < |events|
    ensures SameEnd(events[i].event, events[j].event) ==> i == j
  {
    var a, b := if i < j then i else j, if i < j then j else i;
    if a < b {
      assert InOrder(events[..b], events[b]);
      assert events[..b][a] == events[a];
    }
  }

  lemma {:induction false} FindExitSome(exits: seq<ExitRecord>, r: ExitRecord)
    requires r in exits
    ensures FindExit(exits, r.invocation).Some?
  {
    if exits[0].invocation != r.invocation { FindExitSome(exits[1..], r); }
  }

  lemma {:induction false} FindCleanupSome(cleanups: seq<CleanupRecord>, r: CleanupRecord)
    requires r in cleanups
    ensures FindCleanup(cleanups, r.invocation).Some?
  {
    if cleanups[0].invocation != r.invocation { FindCleanupSome(cleanups[1..], r); }
  }

  /** In a flawless stream the exit found is the one exit event. */
  lemma {:induction false} FindsExit(events: seq<EventFrame>, i: nat)
    requires Sequential(events) && Flawless(events) && i < |events| && events[i].event.WorkloadExited?
    requires RecordsAll(Fold(events), events)
    ensures FindExit(Fold(events).exits, events[i].event.invocation) == ExitOf(events[i])
  {
    hide Flawless, Fold, FindExit;
    var exits, k := Fold(events).exits, events[i].event.invocation;
    PickedIn(events, ExitOf, ExitOf(events[i]).value);
    FindExitSome(exits, ExitOf(events[i]).value);
    FoundExit(exits, k);
    var r := FindExit(exits, k).value;
    PickedIn(events, ExitOf, r);
    var j :| 0 <= j < |events| && ExitOf(events[j]) == Some(r);
    EndsOnce(events, i, j);
  }

  lemma {:induction false} FindsCleanup(events: seq<EventFrame>, i: nat)
    requires Sequential(events) && Flawless(events) && i < |events| && events[i].event.CleanupComplete?
    requires RecordsAll(Fold(events), events)
    ensures FindCleanup(Fold(events).cleanups, events[i].event.invocation) == CleanupOf(events[i])
  {
    hide Flawless, Fold, FindCleanup;
    var cleanups, k := Fold(events).cleanups, events[i].event.invocation;
    PickedIn(events, CleanupOf, CleanupOf(events[i]).value);
    FindCleanupSome(cleanups, CleanupOf(events[i]).value);
    FoundCleanup(cleanups, k);
    var r := FindCleanup(cleanups, k).value;
    PickedIn(events, CleanupOf, r);
    var j :| 0 <= j < |events| && CleanupOf(events[j]) == Some(r);
    EndsOnce(events, i, j);
  }

  // ---- The process assertion ------------------------------------------------------------------------

  lemma {:induction false} OutputIsStarted(events: seq<EventFrame>, n: nat, k: nat) returns (j: nat)
    requires Flawless(events) && n < |events| && IsOutputOf(events[n], k)
    ensures j < n && StartsAt(events, k, j + 1)
  {
    hide Continues;
    assert InOrder(events[..n], events[n]);
    j :| 0 <= j < n && events[..n][j].event.WorkloadStarted? && events[..n][j].event.invocation == k;
    assert events[j] == events[..n][j];
  }

  lemma {:induction false} OnlyStarts(events: seq<EventFrame>, launch: LaunchIdentity, c: Course, k: nat, b: nat)
    requires KilledThenRestarted(events, launch, c) && StartsAt(events, k, b)
    ensures (k == 1 && b == c.started) || (k == 2 && b == c.restarted)
  {}

  /** Only the two invocations print, the second one after its start. */
  lemma {:induction false} LinesBelong(events: seq<EventFrame>, launch: LaunchIdentity, c: Course, k: nat, i: nat)
    requires Sequential(events) && Flawless(events) && KilledThenRestarted(events, launch, c)
             && i < |LinesOf(events, k)|
    ensures k == 1 || (k == 2 && LinesOf(events, k)[i].eventId > c.restarted)
  {
    hide LinesOf, Flawless, KilledThenRestarted, IsOutputOf, StartsAt;
    LinesAreOutput(events, k);
    var j := OutputIsStarted(events, LinesOf(events, k)[i].eventId - 1, k);
    OnlyStarts(events, launch, c, k, j + 1);
  }

  /** The lines of the trace are the lines of the events. */
  lemma {:induction false} TraceLines(events: seq<EventFrame>, k: nat)
    requires Fold(events).Clean()
    ensures Fold(events).StreamsOf(k).stdout.lines == LinesOf(events, k)
    ensures LinesOf(events, k) != [] ==> k in Fold(events).invocations
  {
    hide OutputBytes, SplitLines, Fold, Trace.Clean;
    StreamsFaithful(events, k);
  }

  lemma {:induction false} EscapedExactly(events: seq<EventFrame>, launch: LaunchIdentity, c: Course)
    requires Sequential(events) && Flawless(events) && Fold(events).Clean() && KilledThenRestarted(events, launch, c)
    ensures var t := Fold(events);
            var found := AnyStdoutLine(t, KeyOrder(t.invocations.Keys), ESCAPED_DESCENDANT_LINE);
            found.Some? && found.value.eventId <= c.killed <==> EscapedBy(events, c.killed)
  {
    hide Flawless, Fold, Trace.Clean, LinesOf, KilledThenRestarted, KeyOrder, AnyStdoutLine, FindLine, PrintedIn;
    var t, wanted := Fold(events), ESCAPED_DESCENDANT_LINE;
    var keys := KeyOrder(t.invocations.Keys);
    KeyOrderAscends(t.invocations.Keys);
    var n := AnyLineFirst(t, keys, wanted);
    forall k ensures t.StreamsOf(k).stdout.lines == LinesOf(events, k) { TraceLines(events, k); }
    var i0 := FindLineFirst(LinesOf(events, 1), wanted);
    if AnyStdoutLine(t, keys, wanted).Some? {
      var k := keys[n];
      var i := FindLineFirst(LinesOf(events, k), wanted);
      LinesBelong(events, launch, c, k, i);
      CourseInTime(events, launch, c);
      if LinesOf(events, k)[i].eventId <= c.killed {
        PrintedAt(events, k, i);
      }
    }
    if EscapedBy(events, c.killed) {
      var id: nat :| PrintedIn(events, 1, wanted, id) && id <= c.killed;
      var i := PrintedWhere(events, 1, wanted, id);
      TraceLines(events, 1);
      assert 1 in keys;
      var p :| 0 <= p < |keys| && keys[p] == 1;
      assert FindLine(LinesOf(events, 1), wanted).Some?;
      var j := FindLineFirst(LinesOf(events, keys[n]), wanted);
      LinesBelong(events, launch, c, keys[n], j);
      assert keys[n] == 1;
      LinesAreOutput(events, 1);
    }
  }

  lemma {:induction false} CourseInTime(events: seq<EventFrame>, launch: LaunchIdentity, c: Course)
    requires KilledThenRestarted(events, launch, c)
    ensures c.started < c.killed < c.restarted
  {}

  lemma {:induction false} PrintedAt(events: seq<EventFrame>, k: nat, i: nat)
    requires i < |LinesOf(events, k)|
    ensures PrintedIn(events, k, LinesOf(events, k)[i].text, LinesOf(events, k)[i].eventId)
  {}

  lemma {:induction false} PrintedWhere(events: seq<EventFrame>, k: nat, text: string, id: nat) returns (i: nat)
    requires PrintedIn(events, k, text, id)
    ensures i < |LinesOf(events, k)| && LinesOf(events, k)[i].text == text && LinesOf(events, k)[i].eventId == id
  {
    i :| 0 <= i < |LinesOf(events, k)| && LinesOf(events, k)[i].text == text && LinesOf(events, k)[i].eventId == id;
  }

  lemma {:induction false} NoFailures(events: seq<EventFrame>)
    requires RecordsAll(Fold(events), events)
    ensures Fold(events).launchFailures == [] <==> forall i | 0 <= i < |events| :: !events[i].event.LaunchFailed?
  {
    hide Fold, Picked;
    PickedNone(events, FailureOf);
  }

  lemma {:induction false} ProcessSoundly(events: seq<EventFrame>, plan: WorkloadChoicePlan, launch: LaunchIdentity)
    requires Sequential(events) && ProcessSafetyHolds(Fold(events), plan, launch)
    ensures ProcessSafe(events, plan, launch)
  {
    hide Fold, Flawless, RecordsAll, KilledThenRestarted, LinesOf, AnyStdoutLine, KeyOrder, CountLine, StaleLine,
         FindExit,
         FindCleanup, Trace.Clean, EscapedBy, FreshOnce;
    CleanExactly(events);
    FlawlessTells(events);
    NoFailures(events);
    TraceLines(events, 1);
    TraceLines(events, 2);
    FreshExactly(LinesOf(events, 1));
    FreshExactly(LinesOf(events, 2));
    var c := PassingProcess(events, plan, launch);
    EscapedExactly(events, launch, c);
  }

  /** The starts and the kill of the course are those of the trace. */
  lemma {:induction false} CourseStarts(events: seq<EventFrame>, launch: LaunchIdentity, c: Course)
    requires Sequential(events) && RecordsAll(Fold(events), events) && KilledThenRestarted(events, launch, c)
    ensures var t := Fold(events);
            && t.starts == [StartRecord(1, launch, c.started), StartRecord(2, launch, c.restarted)]
            && t.terminations == [TerminationRecord(1, TERMINATION_SIGNAL, c.killed)]
  {
    hide Fold, Picked;
    PickedTwo(events, StartOf, c.started - 1, c.restarted - 1);
    PickedOne(events, KillOf, c.killed - 1);
  }

  /** And so are its ends. */
  lemma {:induction false} CourseEnds(events: seq<EventFrame>, launch: LaunchIdentity, c: Course)
    requires Sequential(events) && Flawless(events) && RecordsAll(Fold(events), events)
    requires KilledThenRestarted(events, launch, c)
    ensures var t := Fold(events);
            var exit1, exit2 := FindExit(t.exits, 1), FindExit(t.exits, 2);
            var cleanup1, cleanup2 := FindCleanup(t.cleanups, 1), FindCleanup(t.cleanups, 2);
            && exit1.Some? && exit1.value.exit == Signaled(TERMINATION_SIGNAL) && exit1.value.eventId == c.exited
            && exit2.Some? && exit2.value.exit == Exited(0)
            && cleanup1.Some? && cleanup1.value.eventId == c.cleaned && cleanup1.value.reaped >= 2 && cleanup2.Some?
  {
    hide Fold, Flawless, RecordsAll, FindExit, FindCleanup;
    FindsExit(events, c.exited - 1);
    FindsExit(events, c.ended - 1);
    FindsCleanup(events, c.cleaned - 1);
    FindsCleanup(events, c.settled - 1);
  }

  lemma {:induction false} ProcessFully(events: seq<EventFrame>, plan: WorkloadChoicePlan, launch: LaunchIdentity,
                                        c: Course)
    requires Sequential(events) && ProcessSafe(events, plan, launch)
    requires KilledThenRestarted(events, launch, c) && EscapedBy(events, c.killed)
    ensures ProcessSafetyHolds(Fold(events), plan, launch)
  {
    hide Fold, Flawless, RecordsAll, LinesOf, AnyStdoutLine, KeyOrder, CountLine, StaleLine, FindExit, FindCleanup,
         Trace.Clean, EscapedBy, FreshOnce, KilledThenRestarted, CountsAll, Summarizes;
    FlawlessTells(events);
    NoFailures(events);
    TraceLines(events, 1);
    TraceLines(events, 2);
    FreshExactly(LinesOf(events, 1));
    FreshExactly(LinesOf(events, 2));
    EscapedExactly(events, launch, c);
    CourseStarts(events, launch, c);
    CourseEnds(events, launch, c);
    assert c.killed < c.exited < c.cleaned < c.restarted by { CourseOrder(events, launch, c); }
  }

  lemma {:induction false} CourseOrder(events: seq<EventFrame>, launch: LaunchIdentity, c: Course)
    requires KilledThenRestarted(events, launch, c)
    ensures c.killed < c.exited < c.cleaned < c.restarted
  {}

  lemma {:induction false} ProcessMeans(events: seq<EventFrame>, plan: WorkloadChoicePlan, launch: LaunchIdentity)
    requires Sequential(events)
    ensures ProcessSafetyHolds(Fold(events), plan, launch) <==> ProcessSafe(events, plan, launch)
  {
    if ProcessSafetyHolds(Fold(events), plan, launch) {
      ProcessSoundly(events, plan, launch);
    }
    if ProcessSafe(events, plan, launch) {
      var c :| KilledThenRestarted(events, launch, c) && EscapedBy(events, c.killed);
      ProcessFully(events, plan, launch, c);
    }
  }

  // ---- The response assertion -------------------------------------------------------------------------

  lemma {:induction false} RespondsExactly(events: seq<EventFrame>, k: nat, expected: seq<string>, eofs: nat)
    requires Fold(events).Clean() && |expected| >= 1
    ensures var s := Fold(events).StreamsOf(k);
            ResponsesMatch(s, expected, eofs) && s.stderr.lines == [] <==> Responds(events, k, expected, eofs)
  {
    hide Fold, Trace.Clean, SplitLines, SplitRest, OutputBytes, DataAcks, EndsOfInput, BoundsExact;
    StreamsFaithful(events, k);
  }

  lemma {:induction false} ExitExactly(events: seq<EventFrame>, f: EventFrame, sha: string -> string)
    requires Fold(events).Clean() && f.event.WorkloadExited?
    requires CountsAll(Fold(events).StreamsOf(f.event.invocation), events, f.event.invocation)
    ensures ExitMatches(ExitOf(f).value, Fold(events).StreamsOf(f.event.invocation), sha) <==> ExitIsTrue(events, f,
                                                                                                          sha)
  {
    hide Fold, Trace.Clean, SplitLines, SplitRest, OutputBytes, DataAcks, EndsOfInput, BoundsExact, OutputFrames,
         InputBytes;
    var k := f.event.invocation;
    StreamsFaithful(events, k);
    var out, err := OutputBytes(events, k, Stdout), OutputBytes(events, k, Stderr);
    assert Text(SplitRest(out)) == "" <==> SplitRest(out) == [];
    assert Text(err) == "" <==> err == [];
    if err == [] {
      assert SplitRest(err) == [] by { NothingSplits(); }
    }
  }

  lemma {:induction false} NothingSplits()
    ensures SplitRest([]) == [] && SplitLines([]) == []
  {}

  lemma {:induction false} ExitsExactly(events: seq<EventFrame>, sha: string -> string)
    requires Sequential(events) && Flawless(events)
    ensures var t := Fold(events);
            (forall i | 0 <= i < |t.exits| :: ExitMatches(t.exits[i], t.StreamsOf(t.exits[i].invocation), sha)) <==>
            (forall i | 0 <= i < |events| && events[i].event.WorkloadExited? :: ExitIsTrue(events, events[i], sha))
  {
    hide Fold, Flawless, ExitMatches, ExitIsTrue, Picked, CountsAll, Summarizes, Trace.Clean, Trace.StreamsOf;
    FlawlessTells(events);
    var t := Fold(events);
    forall i | 0 <= i < |events| && events[i].event.WorkloadExited?
      ensures ExitMatches(ExitOf(events[i]).value, t.StreamsOf(events[i].event.invocation), sha)
              <==> ExitIsTrue(events, events[i], sha)
      ensures ExitOf(events[i]).value in t.exits
    {
      ExitExactly(events, events[i], sha);
      PickedIn(events, ExitOf, ExitOf(events[i]).value);
    }
    forall i | 0 <= i < |t.exits|
      ensures exists j | 0 <= j < |events| && events[j].event.WorkloadExited? :: t.exits[i] == ExitOf(events[j]).value
    {
      PickedIn(events, ExitOf, t.exits[i]);
    }
  }

  lemma {:induction false} ResponseMeans(events: seq<EventFrame>, plan: WorkloadChoicePlan, sha: string -> string)
    requires Sequential(events) && plan.faultIndex <= |plan.requests|
    ensures ResponseIntegrityHolds(Fold(events), plan, sha) <==> ResponsesIntact(events, plan, sha)
  {
    hide Fold, Flawless, ExitMatches, ExitIsTrue, ResponsesMatch, Responds, Trace.Clean, Trace.StreamsOf, Expected;
    CleanExactly(events);
    if Flawless(events) {
      RespondsExactly(events, 1, Expected(plan, 1), 0);
      RespondsExactly(events, 2, Expected(plan, 2), 1);
      ExitsExactly(events, sha);
    }
  }

  // ---- The network's switches --------------------------------------------------------------------------

  predicate SameSwitch(e: Event, f: Event) {
    || (e.NetworkConfigured? && f.NetworkConfigured?) || (e.OutageActivated? && f.OutageActivated?)
    || (e.NetworkRestored? && f.NetworkRestored?)
    || (e.WorkloadStarted? && f.WorkloadStarted? && e.invocation == f.invocation)
  }

  /** Each switch is thrown once, and each invocation starts once. */
  lemma {:induction false} SwitchesOnce(events: seq<EventFrame>, i: nat, j: nat)
    requires Flawless(events) && i < |events| && j < |events|
    ensures SameSwitch(events[i].event, events[j].event) ==> i == j
  {
    hide Continues;
    var a, b := if i < j then i else j, if i < j then j else i;
    if a < b {
      assert InOrder(events[..b], events[b]);
      assert events[..b][a] == events[a];
    }
  }

  lemma {:induction false} FindRouteSome(routes: seq<RouteRecord>, r: RouteRecord, after: nat)
    requires r in routes && r.eventId > after
    ensures FindRoute(routes, r.peerCidr, after).Some?
  {
    if !(routes[0].peerCidr == r.peerCidr && routes[0].eventId > after) { FindRouteSome(routes[1..], r, after); }
  }

  /** The configuration of the trace is the one configuration event. */
  lemma {:induction false} ConfiguredAt(events: seq<EventFrame>, c: nat)
    requires RecordsAll(Fold(events), events) && c < |events| && events[c].event.NetworkConfigured?
    ensures Fold(events).configured == ConfigurationOf(events[c])
  {
    hide Fold, Picked;
    PickedIn(events, ConfigurationOf, ConfigurationOf(events[c]).value);
  }

  lemma {:induction false} ActivationSoundly(events: seq<EventFrame>, scenario: WorkloadScenario)
    requires Sequential(events) && RecordsAll(Fold(events), events) && Activation(Fold(events), scenario).Some?
    ensures Activates(events, scenario, Activation(Fold(events), scenario).value.eventId)
    ensures Activation(Fold(events), scenario).value.peerCidr == scenario.fixturePeer + "/32"
  {
    hide Fold, Picked;
    var t := Fold(events);
    PickedIn(events, ConfigurationOf, t.configured.value);
    var c :| 0 <= c < |events| && ConfigurationOf(events[c]) == Some(t.configured.value);
    FoundRoute(t.activations, scenario.PeerCidr(), t.configured.value.eventId);
    PickedIn(events, ActivationOf, Activation(t, scenario).value);
    assert events[c].event.NetworkConfigured? && events[c].event.gateway == scenario.fixturePeer;
  }

  lemma {:induction false} ActivationFully(events: seq<EventFrame>, scenario: WorkloadScenario, a: nat)
    requires Sequential(events) && Flawless(events) && RecordsAll(Fold(events), events)
             && Activates(events, scenario, a)
    ensures Activation(Fold(events), scenario) == Some(RouteRecord(scenario.fixturePeer + "/32", a))
  {
    hide Fold, Flawless, Picked, FindRoute;
    var t := Fold(events);
    var c :| 0 <= c < a - 1 && events[c].event.NetworkConfigured? && events[c].event.gateway == scenario.fixturePeer;
    ConfiguredAt(events, c);
    PickedIn(events, ActivationOf, ActivationOf(events[a - 1]).value);
    FindRouteSome(t.activations, ActivationOf(events[a - 1]).value, c + 1);
    FoundRoute(t.activations, scenario.PeerCidr(), c + 1);
    var r := Activation(t, scenario).value;
    PickedIn(events, ActivationOf, r);
    var i :| 0 <= i < |events| && ActivationOf(events[i]) == Some(r);
    SwitchesOnce(events, i, a - 1);
  }

  lemma {:induction false} RestoredSoundly(events: seq<EventFrame>, scenario: WorkloadScenario) returns (a: nat)
    requires Sequential(events) && RecordsAll(Fold(events), events) && Restored(Fold(events), scenario).Some?
    ensures Restores(events, scenario, a, Restored(Fold(events), scenario).value.eventId)
    ensures Activation(Fold(events), scenario).Some? && a == Activation(Fold(events), scenario).value.eventId
  {
    hide Fold, Picked, Activates, Activation;
    var t := Fold(events);
    ActivationSoundly(events, scenario);
    var activation := Activation(t, scenario).value;
    a := activation.eventId;
    FoundRoute(t.restorations, activation.peerCidr, activation.eventId);
    PickedIn(events, RestorationOf, Restored(t, scenario).value);
  }

  lemma {:induction false} RestoredFully(events: seq<EventFrame>, scenario: WorkloadScenario, a: nat, r: nat)
    requires Sequential(events) && Flawless(events) && RecordsAll(Fold(events), events)
             && Restores(events, scenario, a, r)
    ensures Restored(Fold(events), scenario) == Some(RouteRecord(scenario.fixturePeer + "/32", r))
  {
    hide Fold, Flawless, Picked, FindRoute, Activates, Activation;
    var t := Fold(events);
    ActivationFully(events, scenario, a);
    PickedIn(events, RestorationOf, RestorationOf(events[r - 1]).value);
    FindRouteSome(t.restorations, RestorationOf(events[r - 1]).value, a);
    FoundRoute(t.restorations, scenario.PeerCidr(), a);
    var found := Restored(t, scenario).value;
    PickedIn(events, RestorationOf, found);
    var i :| 0 <= i < |events| && RestorationOf(events[i]) == Some(found);
    SwitchesOnce(events, i, r - 1);
  }

  // ---- Answers --------------------------------------------------------------------------------------------

  lemma {:induction false} AnswerFromFirst(lines: seq<CompletedLine>, acks: seq<nat>, index: nat, wanted: string)
    returns (i: nat)
    ensures AnswerFrom(lines, acks, index, wanted).Some? ==>
              && index <= i < |lines| && 1 <= i <= |acks| && lines[i].text == wanted
              && AnswerFrom(lines, acks, index, wanted) == Some(Answer(lines[i], acks[i - 1]))
              && forall j | index <= j < i && 1 <= j <= |acks| :: lines[j].text != wanted
    ensures AnswerFrom(lines, acks, index, wanted).None? ==>
              forall j | index <= j < |lines| && 1 <= j <= |acks| :: lines[j].text != wanted
    decreases |lines| - index
  {
    i := index;
    if index < |lines| && !(lines[index].text == wanted && 1 <= index <= |acks|) {
      i := AnswerFromFirst(lines, acks, index + 1, wanted);
    }
  }

  function AnswerOf(t: Trace, k: nat, wanted: string): Option<Answer> {
    AnswerFrom(t.StreamsOf(k).stdout.lines, t.StreamsOf(k).dataInputEvents, 0, wanted)
  }

  lemma {:induction false} AnyAnswerFirst(t: Trace, keys: seq<nat>, wanted: string) returns (n: nat)
    ensures AnyAnswer(t, keys, wanted).Some? ==>
              && n < |keys| && AnyAnswer(t, keys, wanted) == AnswerOf(t, keys[n], wanted)
              && forall m | 0 <= m < n :: AnswerOf(t, keys[m], wanted).None?
    ensures AnyAnswer(t, keys, wanted).None? ==> forall m | 0 <= m < |keys| :: AnswerOf(t, keys[m], wanted).None?
  {
    n := 0;
    if keys != [] && AnswerOf(t, keys[0], wanted).None? {
      var m := AnyAnswerFirst(t, keys[1..], wanted);
      n := m + 1;
      assert forall j | 1 <= j < |keys| :: keys[j] == keys[1..][j - 1];
    }
  }

  /** One invocation's answer is its first line that answers. */
  lemma {:induction false} AnswerOfExactly(events: seq<EventFrame>, k: nat, wanted: string) returns (i: nat)
    requires Fold(events).Clean()
    ensures var found := AnswerOf(Fold(events), k, wanted);
            && (found.Some? ==> && AnswersAt(events, k, i, wanted) && IsAnswer(events, k, i, found.value)
                                && (forall j: nat | AnswersAt(events, k, j, wanted) :: i <= j)
                                && k in Fold(events).invocations)
            && (found.None? ==> forall j: nat :: !AnswersAt(events, k, j, wanted))
  {
    hide Fold, Trace.Clean, LinesOf, DataAcks, AnswerFrom, BothRepresent, BoundsExact;
    StreamsFaithful(events, k);
    TraceLines(events, k);
    i := AnswerFromFirst(LinesOf(events, k), DataAcks(events, k), 0, wanted);
  }

  lemma {:induction false} AnswerSoundly(events: seq<EventFrame>, wanted: string)
    requires Fold(events).Clean() && AnyAnswer(Fold(events), KeyOrder(Fold(events).invocations.Keys), wanted).Some?
    ensures FirstAnswer(events, wanted, AnyAnswer(Fold(events), KeyOrder(Fold(events).invocations.Keys), wanted).value)
  {
    hide Fold, Trace.Clean, LinesOf, DataAcks, AnyAnswer, AnswerOf, KeyOrder, AnswersAt;
    var t := Fold(events);
    var keys := KeyOrder(t.invocations.Keys);
    KeyOrderAscends(t.invocations.Keys);
    var n := AnyAnswerFirst(t, keys, wanted);
    var k := keys[n];
    var i := AnswerOfExactly(events, k, wanted);
    forall j: nat, m: nat | AnswersAt(events, j, m, wanted) ensures k < j || (k == j && i <= m) {
      var p := AnswerOfExactly(events, j, wanted);
      assert j in keys;
      var q :| 0 <= q < |keys| && keys[q] == j;
    }
  }

  lemma {:induction false} AnswerFully(events: seq<EventFrame>, wanted: string, answer: Answer)
    requires Fold(events).Clean() && FirstAnswer(events, wanted, answer)
    ensures AnyAnswer(Fold(events), KeyOrder(Fold(events).invocations.Keys), wanted) == Some(answer)
  {
    hide Fold, Trace.Clean, LinesOf, DataAcks, AnyAnswer, AnswerOf, KeyOrder, AnswersAt;
    var t := Fold(events);
    var keys := KeyOrder(t.invocations.Keys);
    KeyOrderAscends(t.invocations.Keys);
    var k: nat, i: nat :| AnswersAt(events, k, i, wanted) && IsAnswer(events, k, i, answer)
                          && forall j: nat, m: nat | AnswersAt(events, j, m, wanted) :: k < j || (k == j && i <= m);
    var p := AnswerOfExactly(events, k, wanted);
    var q :| 0 <= q < |keys| && keys[q] == k;
    var n := AnyAnswerFirst(t, keys, wanted);
    var m := AnswerOfExactly(events, keys[n], wanted);
    assert keys[n] == k && m == i;
  }

  lemma {:induction false} PhaseFirst(plan: WorkloadChoicePlan, phase: RequestPhase, from: nat)
    ensures match FirstInPhase(plan, phase, from)
            case Some(i) => from <= i < |plan.requests| && plan.Phase(i) == phase
                            && forall j | from <= j < i :: plan.Phase(j) != phase
            case None => forall j | from <= j < |plan.requests| :: plan.Phase(j) != phase
    decreases |plan.requests| - from
  {
    hide WorkloadChoicePlan.Phase;
    if from < |plan.requests| && plan.Phase(from) != phase {
      PhaseFirst(plan, phase, from + 1);
    }
  }

  /** The answer to the first request of a phase, found and unique. */
  lemma {:induction false} PhaseAnswerMeans(events: seq<EventFrame>, plan: WorkloadChoicePlan, phase: RequestPhase)
    requires Fold(events).Clean()
    ensures var found := PhaseAnswer(Fold(events), plan, phase);
            && (found.Some? ==> PhaseAnswered(events, plan, phase, found.value))
            && forall answer | PhaseAnswered(events, plan, phase, answer) :: found == Some(answer)
  {
    hide Fold, Trace.Clean, AnyAnswer, KeyOrder, FirstAnswer, WorkloadChoicePlan.Phase, ExpectedNetworkLine,
         FirstInPhase;
    PhaseFirst(plan, phase, 0);
    var found := PhaseAnswer(Fold(events), plan, phase);
    if found.Some? {
      var index := FirstInPhase(plan, phase, 0).value;
      assert PhaseBegins(plan, phase, index);
      AnswerSoundly(events, ExpectedNetworkLine(plan.requests[index], phase));
    }
    forall answer | PhaseAnswered(events, plan, phase, answer) ensures found == Some(answer) {
      var index: nat :| PhaseBegins(plan, phase, index)
                        && FirstAnswer(events, ExpectedNetworkLine(plan.requests[index], phase), answer);
      assert FirstInPhase(plan, phase, 0) == Some(index);
      AnswerFully(events, ExpectedNetworkLine(plan.requests[index], phase), answer);
    }
  }

  // ---- The outage, the restoration, the recovery -------------------------------------------------------

  lemma {:induction false} OutageMeans(events: seq<EventFrame>, scenario: WorkloadScenario, plan: WorkloadChoicePlan)
    requires Sequential(events) && Flawless(events)
    ensures ControlledOutageHolds(Fold(events), scenario, plan) <==> OutageObserved(events, scenario, plan)
  {
    hide Fold, Flawless, Trace.Clean, RecordsAll, CountsAll, Summarizes, Activation, Restored, PhaseAnswer,
         PhaseAnswered,
         Activates, Restores;
    FlawlessTells(events);
    PhaseAnswerMeans(events, plan, Outage);
    var t := Fold(events);
    forall a: nat, r: nat | Restores(events, scenario, a, r)
      ensures Restored(t, scenario).Some? && Restored(t, scenario).value.eventId == r
    {
      RestoredFully(events, scenario, a, r);
    }
    forall a: nat | Activates(events, scenario, a)
      ensures Activation(t, scenario).Some? && Activation(t, scenario).value.eventId == a
    {
      ActivationFully(events, scenario, a);
    }
    if Restored(t, scenario).Some? {
      var a := RestoredSoundly(events, scenario);
    }
    if Activation(t, scenario).Some? {
      ActivationSoundly(events, scenario);
    }
  }

  lemma {:induction false} RestorationMeans(events: seq<EventFrame>, scenario: WorkloadScenario)
    requires Sequential(events) && Flawless(events)
    ensures RestorationHolds(Fold(events), scenario) <==> NetworkHealed(events, scenario)
  {
    hide Fold, Flawless, Trace.Clean, RecordsAll, CountsAll, Summarizes, Restored, Restores;
    FlawlessTells(events);
    if Restored(Fold(events), scenario).Some? {
      var a := RestoredSoundly(events, scenario);
    }
    if NetworkHealed(events, scenario) {
      var a: nat, r: nat :| Restores(events, scenario, a, r);
      RestoredFully(events, scenario, a, r);
    }
  }

  lemma {:induction false} FindStartMeans(starts: seq<StartRecord>, k: nat)
    ensures match FindStart(starts, k)
            case Some(r) => r in starts && r.invocation == k
            case None => forall r | r in starts :: r.invocation != k
  {
    if starts != [] && starts[0].invocation != k {
      FindStartMeans(starts[1..], k);
    }
  }

  lemma {:induction false} StartMeans(events: seq<EventFrame>, k: nat)
    requires Sequential(events) && Flawless(events) && RecordsAll(Fold(events), events)
    ensures var found := FindStart(Fold(events).starts, k);
            && (found.Some? ==> StartsAt(events, k, found.value.eventId))
            && forall b: nat | StartsAt(events, k, b) :: found.Some? && found.value.eventId == b
  {
    hide Fold, Flawless, Picked, FindStart;
    var starts := Fold(events).starts;
    var found := FindStart(starts, k);
    FindStartMeans(starts, k);
    if found.Some? {
      PickedIn(events, StartOf, found.value);
    }
    forall b: nat | StartsAt(events, k, b) ensures found.Some? && found.value.eventId == b {
      PickedIn(events, StartOf, StartOf(events[b - 1]).value);
      var i :| 0 <= i < |events| && StartOf(events[i]) == Some(found.value);
      SwitchesOnce(events, i, b - 1);
    }
  }

  lemma {:induction false} EchoMeans(events: seq<EventFrame>, plan: WorkloadChoicePlan, bound: nat)
    requires Sequential(events) && Flawless(events)
    ensures var start := FindStart(Fold(events).starts, 2);
            var echo := FindLine(Fold(events).StreamsOf(2).stdout.lines, EchoLine(plan.seed, 2));
            start.Some? && echo.Some? && start.value.eventId < echo.value.eventId <= start.value.eventId + bound <==>
            EchoesWithin(events, plan, bound)
  {
    hide Fold, Flawless, Trace.Clean, RecordsAll, CountsAll, Summarizes, FindStart, FindLine, LinesOf, StartsAt,
         EchoLine;
    FlawlessTells(events);
    StartMeans(events, 2);
    TraceLines(events, 2);
    var i := FindLineFirst(LinesOf(events, 2), EchoLine(plan.seed, 2));
    forall j: nat | FirstLineAt(events, 2, EchoLine(plan.seed, 2), j)
      ensures FindLine(LinesOf(events, 2), EchoLine(plan.seed, 2)) == Some(LinesOf(events, 2)[j])
    {}
    if FindLine(LinesOf(events, 2), EchoLine(plan.seed, 2)).Some? {
      assert FirstLineAt(events, 2, EchoLine(plan.seed, 2), i);
    }
  }

  lemma {:induction false} RecoveryMeans(events: seq<EventFrame>, scenario: WorkloadScenario, plan: WorkloadChoicePlan)
    requires Sequential(events) && Flawless(events)
    ensures BoundedRecoveryHolds(Fold(events), scenario, plan) <==> RecoveryObserved(events, scenario, plan)
  {
    hide Fold, Flawless, Trace.Clean, RecordsAll, CountsAll, Summarizes, Restored, PhaseAnswer, PhaseAnswered, Restores,
         FindStart, FindLine, EchoesWithin, EchoLine;
    FlawlessTells(events);
    PhaseAnswerMeans(events, plan, Recovery);
    EchoMeans(events, plan, scenario.livenessEventBound);
    var t := Fold(events);
    forall a: nat, r: nat | Restores(events, scenario, a, r)
      ensures Restored(t, scenario).Some? && Restored(t, scenario).value.eventId == r
    {
      RestoredFully(events, scenario, a, r);
    }
    if Restored(t, scenario).Some? {
      var a := RestoredSoundly(events, scenario);
    }
  }

  /** The report on any stream numbered from one, assertion by assertion: the process and the response
      assertion whatever the stream, the others on a flawless one; and the report passes exactly when the
      stream is flawless and all five hold of it. */
  lemma {:induction false} ReportMeans(events: seq<EventFrame>, scenario: WorkloadScenario, plan: WorkloadChoicePlan,
                                       launch: LaunchIdentity, sha: string -> string)
    requires Sequential(events) && plan.faultIndex <= |plan.requests|
    ensures var report := EvaluateWorkload(events, scenario, plan, launch, sha);
            && |report.assertions| == 5
            && report.assertions[0].name == ProcessSafety && report.assertions[1].name == ResponseIntegrity
            && report.assertions[2].name == ControlledOutage && report.assertions[3].name == Restoration
            && report.assertions[4].name == BoundedRecovery
            && (report.assertions[0].passed <==> ProcessSafe(events, plan, launch))
            && (report.assertions[1].passed <==> ResponsesIntact(events, plan, sha))
            && (Flawless(events) ==>
                  && (report.assertions[2].passed <==> OutageObserved(events, scenario, plan))
                  && (report.assertions[3].passed <==> NetworkHealed(events, scenario))
                  && (report.assertions[4].passed <==> RecoveryObserved(events, scenario, plan)))
            && (report.passed <==>
                && ProcessSafe(events, plan, launch) && ResponsesIntact(events, plan, sha)
                && OutageObserved(events, scenario, plan) && NetworkHealed(events, scenario)
                && RecoveryObserved(events, scenario, plan))
  {
    hide Fold, Flawless, ProcessSafetyHolds, ResponseIntegrityHolds, ControlledOutageHolds, RestorationHolds,
         BoundedRecoveryHolds, OutageObserved, NetworkHealed, RecoveryObserved, KilledThenRestarted, EscapedBy,
           FreshOnce,
         ResponsesIntact;
    ProcessMeans(events, plan, launch);
    ResponseMeans(events, plan, sha);
    if Flawless(events) {
      OutageMeans(events, scenario, plan);
      RestorationMeans(events, scenario);
      RecoveryMeans(events, scenario, plan);
    }
  }

  // ---- What the driver asks of the trace -------------------------------------------------------------------

  lemma {:induction false} RestStaysPlain(s: string)
    ensures NoNewline(Leftover(s))
    decreases |s|
  {
    var i := FirstNewline(s);
    if i < |s| { RestStaysPlain(s[i + 1..]); }
  }

  predicate BoundsKnown(s: InvocationStreams) {
    BoundsExact(s) && NoNewline(s.stdout.pending)
  }

  lemma {:induction false} OutputKeepsBounds(s: InvocationStreams, event: nat, stream: Stream, offset: nat,
                                             sequence: nat, data: string)
    requires BoundsKnown(s)
    ensures BoundsKnown(s.PushOutput(event, stream, offset, sequence, data))
  {
    hide BoundsExact, Complete, FirstNewline, NoNewline;
    if stream.Stdout? {
      StdoutBounds(s, event, offset, sequence, data);
      RestStaysPlain(s.stdout.pending + data);
    } else {
      StderrBounds(s, event, offset, sequence, data);
    }
  }

  /** Whatever the events, faults or not, the bound verdicts say which lines are too long. */
  lemma {:induction false} BoundsAlways(events: seq<EventFrame>, k: nat)
    ensures BoundsKnown(Fold(events).StreamsOf(k))
  {
    hide BoundsKnown, InvocationStreams.PushOutput, InvocationStreams.PushInput, Unhex, Trace.Started, Trace.HasExited,
         Trace.HasTerminated, Trace.HasCleanedUp, Trace.HasLaunchFailed, Trace.ExitRecordedAfter;
    if events == [] {
      assert BoundsKnown(NO_STREAMS) by { NothingBound(); }
    } else {
      var n := |events| - 1;
      var t, f := Fold(events[..n]), events[n];
      BoundsAlways(events[..n], k);
      if f.event.WorkloadOutput? && f.event.invocation == k && Unhex(f.event.hex, MAX_OUTPUT_FRAME_BYTES).Some? {
        OutputKeepsBounds(t.StreamsOf(k), f.eventId, f.event.stream, f.event.offset, f.event.sequence,
                          Unhex(f.event.hex, MAX_OUTPUT_FRAME_BYTES).value);
      } else if f.event.InputAccepted? && f.event.invocation == k {
        InputKeepsKnown(t.StreamsOf(k), f.eventId, f.commandId, f.event.offset, f.event.bytes, f.event.eof);
      }
    }
  }

  lemma {:induction false} NothingBound()
    ensures BoundsKnown(NO_STREAMS)
  {}

  lemma {:induction false} InputKeepsKnown(s: InvocationStreams, event: nat, command: nat, offset: nat, bytes: nat,
                                           eof: bool)
    requires BoundsKnown(s)
    ensures BoundsKnown(s.PushInput(event, command, offset, bytes, eof))
  {
    InputKeepsBounds(s, event, command, offset, bytes, eof);
  }

  /** An invocation is healthy exactly when it has neither exited nor failed to launch, has written nothing to
      standard error, and no line of its standard output, complete or pending, is too long. */
  lemma {:induction false} HealthyMeans(events: seq<EventFrame>, k: nat)
    ensures var t, s := Fold(events), Fold(events).StreamsOf(k);
            Controller.Healthy(t, k) <==>
            && (forall r | r in t.exits :: r.invocation != k) && (forall r | r in t.launchFailures :: r.invocation != k)
            && s.stderr.bytes == "" && s.stderr.pending == "" && |s.stdout.pending| <= 1024
            && forall line | line in s.stdout.lines :: |line.text| <= 1024
  {
    hide Fold;
    BoundsAlways(events, k);
    var t, s := Fold(events), Fold(events).StreamsOf(k);
    assert t.HasExited(k) <==> exists r :: r in t.exits && r.invocation == k;
    assert t.HasLaunchFailed(k) <==> exists r :: r in t.launchFailures && r.invocation == k;
    assert forall i | 0 <= i < |s.stdout.lines| :: s.stdout.lines[i] in s.stdout.lines;
  }
}
