/** Recording a network run and replaying it. */
module NetworkReplay {
  import opened Protocol
  import opened Assertions
  import opened Controller
  import opened Network
  import opened NetworkDrive
  import NetworkMeaning

  /** The streams are recorded alike. */
  predicate SameRecord(one: seq<EventFrame>, two: seq<EventFrame>) {
    Records(Normalized(one), two)
  }

  lemma {:induction false} SameFields(one: seq<EventFrame>, two: seq<EventFrame>)
    requires SameRecord(one, two)
    ensures |one| == |two| && NetworkMeaning.Alike(one, two)
    ensures forall i | 0 <= i < |one| :: one[i].protocolVersion == two[i].protocolVersion
    ensures forall i | 0 <= i < |one| :: Agrees(Some(Normalized(one)), i, two[i])
  {
    forall i | 0 <= i < |one|
      ensures && one[i].eventId == two[i].eventId && one[i].commandId == two[i].commandId
              && one[i].event == two[i].event
              && one[i].protocolVersion == two[i].protocolVersion && Agrees(Some(Normalized(one)), i, two[i])
    {
      assert Keeps(Normalized(one)[i], two[i]) && Normalized(one)[i] == one[i].Normalize();
    }
  }

  /** What answers a command in one stream answers it in the other. */
  lemma {:induction false} AnswerAlike(one: seq<EventFrame>, two: seq<EventFrame>, position: nat, command: Command,
                                       commandId: nat)
    requires SameRecord(one, two) && AnswerAt(None, one, position, command, commandId)
    ensures AnswerAt(Some(Normalized(one)), two, position, command, commandId)
  {
    hide ValidResponse, Normalized, Agrees, SameRecord;
    SameFields(one, two);
    var end := position + ReplyCount(command);
    assert |two[position..end]| == |one[position..end]|;
    assert forall j | position <= j < end :: one[position..end][j - position] == one[j]
                                             && two[position..end][j - position] == two[j];
  }

  /** A stream recorded like an accepted one is accepted in a replay of it. */
  lemma {:induction false} AcceptedAlike(scenario: Scenario, plan: ChoicePlan, one: seq<EventFrame>,
                                         two: seq<EventFrame>)
    requires plan.Valid() && SameRecord(one, two) && Accepted(None, scenario, plan, one)
    ensures Accepted(Some(Normalized(one)), scenario, plan, two)
  {
    hide AnswerAt, Normalized, Evaluate, SameRecord;
    SameFields(one, two);
    var n := |plan.requests|;
    AnswerAlike(one, two, 0, ConfigureCommand(scenario), 1);
    forall i | 0 <= i < n ensures RequestFits(Some(Normalized(one)), scenario, plan, two, i) {
      assert RequestFits(None, scenario, plan, one, i);
      RequestAlike(scenario, plan, one, two, i);
    }
    var p := 2 * n + 3;
    AnswerAlike(one, two, p, Check(scenario.outageEventBound, scenario.livenessEventBound), n + 4);
    AnswerAlike(one, two, p + 1, Shutdown, n + 5);
    assert NetworkMeaning.Alike(one[..p], two[..p]);
    NetworkMeaning.ReportIsSemantic(one[..p], two[..p], scenario.outageEventBound, scenario.livenessEventBound);
  }

  lemma {:induction false} RequestAlike(scenario: Scenario, plan: ChoicePlan, one: seq<EventFrame>,
                                        two: seq<EventFrame>, i: nat)
    requires i < |plan.requests| && SameRecord(one, two) && RequestFits(None, scenario, plan, one, i)
    ensures RequestFits(Some(Normalized(one)), scenario, plan, two, i)
  {
    hide AnswerAt, Normalized, SameRecord;
    var peer := scenario.fixturePeer + "/32";
    var position, commandId := FirstEvent(plan, i) - 2, CommandOf(plan, i) - 1;
    if i == plan.activationIndex {
      AnswerAlike(one, two, position, ActivateOutage(peer), commandId);
    }
    if i == plan.restorationIndex {
      AnswerAlike(one, two, position, RestoreNetwork(peer), commandId);
    }
    AnswerAlike(one, two, position + 1, RequestCommand(plan, i), commandId + 1);
  }

  /** What one network run records, a replay accepts exactly when the guest's stream is recorded alike, and its
      report comes out the same. */
  method RecordThenReplay(scenario: Scenario, plan: ChoicePlan, live: Vm, replayed: Vm)
    returns (recording: Option<NetworkRecording>, again: Option<NetworkRecording>)
    requires scenario.Valid() && plan.Valid() && live.sent == [] && replayed.sent == [] && replayed.reliable
             && live != replayed
    modifies live, replayed
    ensures recording.Some? ==> (again.Some? <==> Records(recording.value.events, old(replayed.queue)))
    ensures recording.Some? && again.Some? ==> again == recording
    ensures replayed.sent == []
  {
    hide Accepted, Normalized, Evaluate, Records;
    ghost var raw, second;
    again := None;
    recording, raw := DriveNetwork(scenario, plan, live, true, None);
    if recording.Some? {
      ghost var queue := replayed.queue;
      if Records(recording.value.events, queue) {
        AcceptedAlike(scenario, plan, raw, queue);
        SameLengths(recording.value.events, queue);
      }
      again, second := DriveNetwork(scenario, plan, replayed, false, Some(recording.value.events));
      if again.Some? {
        NormalizedExact(recording.value.events, queue);
        SameFields(raw, queue);
        NetworkMeaning.ReportIsSemantic(raw, queue, scenario.outageEventBound, scenario.livenessEventBound);
      }
    }
  }

  lemma SameLengths(events: seq<NormalizedEvent>, frames: seq<EventFrame>)
    requires Records(events, frames)
    ensures |events| == |frames|
  {}
}
