/** The network scenario: its plan, the events an honest run consists of, and their verdict. */
module Network {
  import opened Protocol
  import opened Scenarios
  import opened Assertions
  import Plans

  const MIN_REQUEST_COUNT: nat := 3
  const MAX_PAYLOAD_BYTES: nat := 16 * 1024

  datatype Scenario = Scenario(
    version: nat, name: string, requestCount: nat, payloadBytes: nat, fixturePeer: string,
    outageEventBound: nat, livenessEventBound: nat, corruptResponses: bool)
  {
    predicate Valid() {
      && version == 1 && 1 <= |name| <= MAX_SCENARIO_NAME_BYTES
      && MIN_REQUEST_COUNT <= requestCount <= MAX_REQUEST_COUNT
      && 1 <= payloadBytes <= MAX_PAYLOAD_BYTES && requestCount * payloadBytes <= MAX_TOTAL_PAYLOAD_BYTES
      && outageEventBound >= 1 && livenessEventBound >= 2 && fixturePeer == FIXTURE_PEER
    }
  }

  datatype ChoicePlan = ChoicePlan(seed: nat, activationIndex: nat, restorationIndex: nat,
                                   requests: seq<PlannedRequest>)
  {
    function Phase(index: nat): RequestPhase {
      if index < activationIndex then PreOutage else if index < restorationIndex then Outage else Recovery
    }

    predicate Valid() {
      && 1 <= activationIndex < restorationIndex < |requests| <= MAX_REQUEST_COUNT
      && DistinctIds(requests)
    }
  }

  function Requests(payloadBytes: nat, draw: nat -> nat, count: nat): (r: seq<PlannedRequest>)
    requires count <= 10000
    ensures |r| == count
    ensures forall i | 0 <= i < count :: |r[i].requestId| == REQUEST_ID_BYTES && r[i].requestId[8..12] == Decimal4(i)
  {
    if count == 0 then []
    else
      var position := Plans.Position(2, payloadBytes, count - 1);
      Requests(payloadBytes, draw, count - 1)
      + [PlannedRequest(Plans.RequestId(count - 1, draw(position)), Plans.HexBytes(draw, position + 1, payloadBytes))]
  }

  function Plan(scenario: Scenario, seed: nat, draw: nat -> nat): ChoicePlan
    requires scenario.Valid()
  {
    var n := scenario.requestCount;
    var activation := Plans.OutageStart(n, draw(0));
    ChoicePlan(seed, activation, Plans.OutageEnd(n, activation, draw(1)),
               Requests(scenario.payloadBytes, draw, n))
  }

  /** For every accepted scenario and whatever the seed draws, the plan is well formed. */
  lemma PlanIsValid(scenario: Scenario, seed: nat, draw: nat -> nat)
    requires scenario.Valid()
    ensures Plan(scenario, seed, draw).Valid() && |Plan(scenario, seed, draw).requests| == scenario.requestCount
  {
    var requests := Requests(scenario.payloadBytes, draw, scenario.requestCount);
    forall i, j | 0 <= i < j < |requests| ensures requests[i].requestId != requests[j].requestId {
      if requests[i].requestId == requests[j].requestId {
        Plans.Decimal4Injective(i, j);
      }
    }
  }

  // ---- The events of an honest run ------------------------------------------------------

  function One(condition: bool): nat { if condition then 1 else 0 }

  /** The number of the first event of request `i`. */
  function FirstEvent(plan: ChoicePlan, i: nat): nat {
    2 + 2 * i + One(i >= plan.activationIndex) + One(i >= plan.restorationIndex)
  }

  function CommandOf(plan: ChoicePlan, i: nat): nat {
    2 + i + One(i >= plan.activationIndex) + One(i >= plan.restorationIndex)
  }

  function Frame(id: nat, command: nat, event: Event): EventFrame {
    EventFrame(PROTOCOL_VERSION, id, command, event, NO_DIAGNOSTICS)
  }

  const PEER := FIXTURE_PEER + "/32"

  function Hello(): EventFrame {
    Frame(1, 1, NetworkConfigured(NETWORK_INTERFACE, GUEST_CIDR, FIXTURE_PEER))
  }

  function OutageFrame(plan: ChoicePlan): EventFrame {
    Frame(FirstEvent(plan, plan.activationIndex) - 1, CommandOf(plan, plan.activationIndex) - 1,
          OutageActivated(PEER, "prohibit " + PEER))
  }

  function RestoredFrame(plan: ChoicePlan): EventFrame {
    Frame(FirstEvent(plan, plan.restorationIndex) - 1, CommandOf(plan, plan.restorationIndex) - 1,
          NetworkRestored(PEER))
  }

  function Attempt(plan: ChoicePlan, i: nat): EventFrame
    requires i < |plan.requests|
  {
    Frame(FirstEvent(plan, i), CommandOf(plan, i),
          RequestAttempted(plan.requests[i].requestId, plan.requests[i].payload, plan.Phase(i)))
  }

  function Outcome(plan: ChoicePlan, corrupt: bool, i: nat): EventFrame
    requires i < |plan.requests|
  {
    var request := plan.requests[i];
    Frame(FirstEvent(plan, i) + 1, CommandOf(plan, i),
          if plan.Phase(i) == Outage then RequestUnavailable(request.requestId, Outage, AdministrativeProhibited,
                                                             Some(EACCES))
          else RequestSucceeded(request.requestId, request.payload, request.requestId,
                                Served(plan.requests, corrupt, i), plan.Phase(i)))
  }

  /** The events up to the outcome of request `count - 1`. */
  function Honest(plan: ChoicePlan, corrupt: bool, count: nat): seq<EventFrame>
    requires count <= |plan.requests|
  {
    if count == 0 then [Hello()]
    else
      var i := count - 1;
      Honest(plan, corrupt, i)
      + (if i == plan.activationIndex then [OutageFrame(plan)] else [])
      + (if i == plan.restorationIndex then [RestoredFrame(plan)] else [])
      + [Attempt(plan, i), Outcome(plan, corrupt, i)]
  }

  /** A frame is one of the run's. */
  ghost predicate Belongs(plan: ChoicePlan, corrupt: bool, count: nat, f: EventFrame)
    requires count <= |plan.requests|
  {
    || f == Hello()
    || (f == OutageFrame(plan) && plan.activationIndex < count)
    || (f == RestoredFrame(plan) && plan.restorationIndex < count)
    || exists i | 0 <= i < count :: f == Attempt(plan, i) || f == Outcome(plan, corrupt, i)
  }

  lemma {:induction false} HonestFrames(plan: ChoicePlan, corrupt: bool, count: nat)
    requires count <= |plan.requests|
    ensures forall f :: f in Honest(plan, corrupt, count) <==> Belongs(plan, corrupt, count, f)
  {
    hide Attempt, Outcome, OutageFrame, RestoredFrame, Hello;
    if count > 0 {
      HonestFrames(plan, corrupt, count - 1);
      forall f ensures f in Honest(plan, corrupt, count) <==> Belongs(plan, corrupt, count, f) {
        assert f in Honest(plan, corrupt, count - 1) <==> Belongs(plan, corrupt, count - 1, f);
      }
    }
  }

  /** Events are numbered from one, two for each request and one for each switch. */
  lemma {:induction false} HonestNumbers(plan: ChoicePlan, corrupt: bool, count: nat)
    requires plan.Valid() && count <= |plan.requests|
    ensures |Honest(plan, corrupt, count)| == 1 + 2 * count + One(count > plan.activationIndex)
            + One(count > plan.restorationIndex)
    ensures Sequential(Honest(plan, corrupt, count))
  {
    hide Attempt, Outcome, OutageFrame, RestoredFrame, Hello, ChoicePlan.Phase;
    if count == 0 {
      assert Hello().eventId == 1 by { HelloIsFirst(); }
    } else {
      var i := count - 1;
      HonestNumbers(plan, corrupt, i);
      FrameNumbers(plan, corrupt, i);
    }
  }

  lemma HelloIsFirst()
    ensures Hello().eventId == 1
  {}

  lemma FrameNumbers(plan: ChoicePlan, corrupt: bool, i: nat)
    requires plan.Valid() && i < |plan.requests|
    ensures OutageFrame(plan).eventId == FirstEvent(plan, plan.activationIndex) - 1
    ensures RestoredFrame(plan).eventId == FirstEvent(plan, plan.restorationIndex) - 1
    ensures Attempt(plan, i).eventId == FirstEvent(plan, i)
            && Outcome(plan, corrupt, i).eventId == FirstEvent(plan, i) + 1
  {}

  // ---- The verdict -------------------------------------------------------------------------

  lemma SwitchesFound(plan: ChoicePlan, corrupt: bool)
    requires plan.Valid()
    ensures var events := Honest(plan, corrupt, |plan.requests|);
            Activated(events) == Some(OutageFrame(plan)) && Restored(events) == Some(RestoredFrame(plan))
  {
    hide Honest;
    var events := Honest(plan, corrupt, |plan.requests|);
    HonestFrames(plan, corrupt, |plan.requests|);
    assert Hello() in events && OutageFrame(plan) in events && RestoredFrame(plan) in events;
  }

  lemma AttemptMatches(plan: ChoicePlan, corrupt: bool, i: nat)
    requires plan.Valid() && i < |plan.requests| && plan.Phase(i) != Outage
             && Served(plan.requests, corrupt, i) == plan.requests[i].payload
    ensures MatchingAttempt(Honest(plan, corrupt, |plan.requests|), Outcome(plan, corrupt, i)) == Some(Attempt(plan, i))
  {
    hide Honest;
    var events, outcome := Honest(plan, corrupt, |plan.requests|), Outcome(plan, corrupt, i);
    HonestFrames(plan, corrupt, |plan.requests|);
    assert Attempt(plan, i) in events && IsAttemptOf(Attempt(plan, i), outcome);
    var found := Find(events, f => IsAttemptOf(f, outcome));
    assert Belongs(plan, corrupt, |plan.requests|, found.value);
  }

  lemma SafetyVerdict(plan: ChoicePlan, corrupt: bool)
    requires plan.Valid()
    ensures SafetyHolds(Honest(plan, corrupt, |plan.requests|)) == !corrupt
  {
    hide Honest, MatchingAttempt;
    var events := Honest(plan, corrupt, |plan.requests|);
    HonestFrames(plan, corrupt, |plan.requests|);
    SwitchesFound(plan, corrupt);
    var first := Outcome(plan, corrupt, 0);
    assert Belongs(plan, corrupt, |plan.requests|, first) && first in events;
    if corrupt {
      SpoiledFirst(plan);
      assert IsMismatch(events, first);
    } else {
      forall f | f in events ensures !IsMismatch(events, f) {
        assert Belongs(plan, corrupt, |plan.requests|, f);
        if f.event.RequestSucceeded? {
          var i :| 0 <= i < |plan.requests| && f == Outcome(plan, corrupt, i);
          ServedWhole(plan.requests, i);
          AttemptMatches(plan, corrupt, i);
        }
      }
      ServedWhole(plan.requests, 0);
      AttemptMatches(plan, corrupt, 0);
      assert IsEarlySuccess(events, first, OutageFrame(plan).eventId);
    }
  }

  lemma SpoiledFirst(plan: ChoicePlan)
    requires plan.Valid()
    ensures MatchingAttempt(Honest(plan, true, |plan.requests|), Outcome(plan, true, 0)).None?
  {
    assert |Served(plan.requests, true, 0)| > |plan.requests[0].payload|;
  }

  lemma OutageVerdict(plan: ChoicePlan, corrupt: bool, bound: nat)
    requires plan.Valid() && bound >= 1
    ensures OutageHolds(Honest(plan, corrupt, |plan.requests|), bound)
  {
    hide Honest;
    var events, i := Honest(plan, corrupt, |plan.requests|), plan.activationIndex;
    HonestFrames(plan, corrupt, |plan.requests|);
    SwitchesFound(plan, corrupt);
    var attempt, outcome := Attempt(plan, i), Outcome(plan, corrupt, i);
    assert attempt in events && outcome in events;
    var activated, restored := OutageFrame(plan).eventId, RestoredFrame(plan).eventId;
    assert IsProhibited(outcome, attempt, restored, bound);
    assert IsDenied(events, attempt, activated, restored, bound);
  }

  lemma RecoveryVerdict(plan: ChoicePlan, corrupt: bool, bound: nat)
    requires plan.Valid() && bound >= 2
    ensures RecoveryHolds(Honest(plan, corrupt, |plan.requests|), bound)
  {
    hide Honest, MatchingAttempt;
    var events, i := Honest(plan, corrupt, |plan.requests|), plan.restorationIndex;
    HonestFrames(plan, corrupt, |plan.requests|);
    SwitchesFound(plan, corrupt);
    assert plan.requests[i].payload + "" == plan.requests[i].payload;
    AttemptMatches(plan, corrupt, i);
    var outcome := Outcome(plan, corrupt, i);
    assert outcome in events;
    assert IsRecovery(events, outcome, RestoredFrame(plan).eventId, bound);
  }

  /** With any accepted bounds an honest run passes everything, and a corrupted one fails safety and
      nothing else. */
  lemma HonestVerdict(scenario: Scenario, plan: ChoicePlan)
    requires scenario.Valid() && plan.Valid()
    ensures var report := Evaluate(Honest(plan, scenario.corruptResponses, |plan.requests|), scenario.outageEventBound,
                                   scenario.livenessEventBound);
            && report.passed == !scenario.corruptResponses
            && report.assertions == [AssertionResult(Safety, !scenario.corruptResponses),
                                     AssertionResult(ControlledOutage, true),
                                     AssertionResult(Restoration, true), AssertionResult(BoundedRecovery, true)]
  {
    hide Honest, SafetyHolds, OutageHolds, RecoveryHolds;
    SafetyVerdict(plan, scenario.corruptResponses);
    OutageVerdict(plan, scenario.corruptResponses, scenario.outageEventBound);
    RecoveryVerdict(plan, scenario.corruptResponses, scenario.livenessEventBound);
    SwitchesFound(plan, scenario.corruptResponses);
  }
}
