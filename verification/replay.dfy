/** Replaying a recorded workload run. */
module Replay {
  import opened Protocol
  import opened Traces
  import opened Scenarios
  import opened Checker
  import opened Regimes
  import opened Controller
  import opened Driving

  /** The diagnostic fields play no part in the trace. */
  lemma {:induction false} SameFold(one: seq<EventFrame>, two: seq<EventFrame>)
    requires Normalized(one) == Normalized(two)
    ensures Fold(one) == Fold(two)
    decreases |one|
  {
    assert |one| == |Normalized(one)| == |Normalized(two)| == |two|;
    if one != [] {
      var n := |one| - 1;
      assert one[n].Normalize() == Normalized(one)[n] == Normalized(two)[n] == two[n].Normalize();
      assert Normalized(one)[..n] == Normalized(one[..n]) && Normalized(two)[..n] == Normalized(two[..n]);
      SameFold(one[..n], two[..n]);
    }
  }

  /** So the report is a function of the normalized events. */
  lemma ReportIsSemantic(one: seq<EventFrame>, two: seq<EventFrame>, scenario: WorkloadScenario,
                         plan: WorkloadChoicePlan,
                         launch: LaunchIdentity, sha: string -> string)
    requires Normalized(one) == Normalized(two) && plan.faultIndex <= |plan.requests|
    ensures EvaluateWorkload(one, scenario, plan, launch, sha) == EvaluateWorkload(two, scenario, plan, launch, sha)
  {
    hide Report;
    SameFold(one, two);
  }

  /** The recorded envelopes count from one under the known version. */
  method CheckEnvelopes(events: seq<NormalizedEvent>) returns (ok: bool)
    ensures ok <==> forall i | 0 <= i < |events| :: events[i].protocolVersion == PROTOCOL_VERSION
                                                    && events[i].eventId == i + 1
  {
    for i := 0 to |events|
      invariant forall j | 0 <= j < i :: events[j].protocolVersion == PROTOCOL_VERSION && events[j].eventId == j + 1
    {
      if events[i].protocolVersion != PROTOCOL_VERSION || events[i].eventId != i + 1 {
        return false;
      }
    }
    ok := true;
  }

  predicate EndsStopped(events: seq<NormalizedEvent>) {
    events != [] && events[|events| - 1].event == AgentStopped
  }

  /** Receive exactly the recorded events, each equal to the recorded one, and nothing after them. The
      host sends nothing. */
  method ReplayEvents(expected: seq<NormalizedEvent>, vm: Vm) returns (ok: bool, frames: seq<EventFrame>)
    requires forall i | 0 <= i < |expected| :: expected[i].protocolVersion == PROTOCOL_VERSION
    modifies vm`queue
    ensures ok ==> EndsStopped(expected) && frames == old(vm.queue) && Normalized(frames) == expected
    ensures vm.reliable ==> (ok <==> EndsStopped(expected) && Normalized(old(vm.queue)) == expected)
    ensures vm.reliable ==> (ok <==> EndsStopped(expected) && Records(expected, old(vm.queue)))
  {
    NormalizedExact(expected, vm.queue);
    ok, frames := false, [];
    if !EndsStopped(expected) {
      return;
    }
    for i := 0 to |expected|
      invariant |frames| == i && old(vm.queue) == frames + vm.queue
      invariant forall j | 0 <= j < i :: frames[j].Normalize() == expected[j]
    {
      var frame := vm.Receive();
      if frame.None? {
        Short(old(vm.queue), frames, expected);
        return;
      }
      var index := |frames|;
      assert old(vm.queue)[index] == frame.value;
      if frame.value.protocolVersion != PROTOCOL_VERSION || frame.value.eventId != expected[i].eventId
        || frame.value.Normalize() != expected[i] {
        Different(old(vm.queue), expected, i);
        return;
      }
      frames := frames + [frame.value];
    }
    ok := vm.FinishEvents();
    Whole(old(vm.queue), frames, vm.queue, expected);
    if ok {
      assert frames + [] == frames;
    }
  }

  lemma {:induction false} Short(queue: seq<EventFrame>, frames: seq<EventFrame>, expected: seq<NormalizedEvent>)
    requires |frames| < |expected|
    ensures queue == frames ==> Normalized(queue) != expected
  {
    assert |Normalized(queue)| == |queue|;
  }

  lemma {:induction false} Different(queue: seq<EventFrame>, expected: seq<NormalizedEvent>, i: nat)
    requires i < |queue| && i < |expected| && queue[i].Normalize() != expected[i]
    ensures Normalized(queue) != expected
  {
    assert Normalized(queue)[i] == queue[i].Normalize();
  }

  lemma {:induction false} Whole(queue: seq<EventFrame>, frames: seq<EventFrame>, rest: seq<EventFrame>,
                                 expected: seq<NormalizedEvent>)
    requires queue == frames + rest && |frames| == |expected|
    requires forall j | 0 <= j < |frames| :: frames[j].Normalize() == expected[j]
    ensures Normalized(frames) == expected
    ensures rest == [] <==> Normalized(queue) == expected
  {
    assert |Normalized(queue)| == |queue|;
    if rest == [] {
      assert queue == frames;
    }
  }

  /** Replay a recording: check its envelopes, take in the guest's stream, evaluate it again and compare
      the reports. */
  method ReplayRecording(recording: Recording, scenario: WorkloadScenario, plan: WorkloadChoicePlan,
                         launch: LaunchIdentity,
                         sha: string -> string, vm: Vm) returns (ok: bool)
    requires plan.faultIndex <= |plan.requests|
    modifies vm`queue
    ensures ok ==> && IsComplete(recording.events) && Normalized(old(vm.queue)) == recording.events
                   && recording.report == EvaluateWorkload(old(vm.queue), scenario, plan, launch, sha)
    ensures vm.reliable ==>
              (ok <==> && IsComplete(recording.events) && Normalized(old(vm.queue)) == recording.events
                       && recording.report == EvaluateWorkload(old(vm.queue), scenario, plan, launch, sha))
    ensures vm.reliable ==>
              (ok <==> && IsComplete(recording.events) && Records(recording.events, old(vm.queue))
                       && recording.report == EvaluateWorkload(old(vm.queue), scenario, plan, launch, sha))
  {
    hide EvaluateWorkload;
    NormalizedExact(recording.events, vm.queue);
    ok := CheckEnvelopes(recording.events);
    if !ok {
      return;
    }
    var frames;
    ok, frames := ReplayEvents(recording.events, vm);
    if !ok {
      return;
    }
    var report := Evaluate(frames, scenario, plan, launch, sha);
    ok := report == recording.report;
  }

  /** What one run records, a replay accepts exactly when the guest's normalized stream is the recorded
      one with nothing after it; the report then comes out the same. */
  method RecordThenReplay(scenario: WorkloadScenario, plan: WorkloadChoicePlan, launch: LaunchIdentity,
                          sha: string -> string,
                          live: Vm, replayed: Vm) returns (recording: Option<Recording>, ok: bool)
    requires plan.Valid() && scenario.Valid() && live.sent == [] && replayed.reliable && live != replayed
    modifies live, replayed`queue
    ensures recording.Some? ==> IsComplete(recording.value.events)
    ensures recording.Some? ==> (ok <==> Records(recording.value.events, old(replayed.queue)))
    ensures recording.Some? && ok ==>
              recording.value.report == EvaluateWorkload(old(replayed.queue), scenario, plan, launch, sha)
    ensures replayed.sent == old(replayed.sent) && WellDriven(live.sent)
  {
    hide EvaluateWorkload, IsComplete, Foreseen, WellDriven;
    ghost var raw;
    ok := false;
    recording, raw := Drive(scenario, plan, launch, live, sha, 0);
    if recording.Some? {
      NormalizedExact(recording.value.events, replayed.queue);
      if Normalized(replayed.queue) == recording.value.events {
        ReportIsSemantic(raw, replayed.queue, scenario, plan, launch, sha);
      }
      ok := ReplayRecording(recording.value, scenario, plan, launch, sha, replayed);
    }
  }
}
