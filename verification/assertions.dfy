/** The four assertions a network run is judged by: first matches over an immutable event stream. */
module Assertions {
  import opened Protocol

  /** The errno of an administratively prohibited send. */
  const EACCES: int := 13

  function Find(events: seq<EventFrame>, wanted: EventFrame -> bool): (r: Option<EventFrame>)
    ensures r.Some? ==> r.value in events && wanted(r.value)
    ensures r.None? ==> forall f | f in events :: !wanted(f)
  {
    if events == [] then None else if wanted(events[0]) then Some(events[0]) else Find(events[1..], wanted)
  }

  predicate IsConfigured(f: EventFrame) { f.event.NetworkConfigured? }

  predicate IsActivation(f: EventFrame, after: nat, peer: string) {
    f.event.OutageActivated? && f.eventId > after && f.event.peerCidr == peer && f.event.rule == "prohibit " + peer
  }

  predicate IsRestoration(f: EventFrame, after: nat, peer: string) {
    f.event.NetworkRestored? && f.eventId > after && f.event.peerCidr == peer
  }

  predicate IsAttemptOf(f: EventFrame, outcome: EventFrame) {
    && outcome.event.RequestSucceeded? && f.event.RequestAttempted?
    && f.event.requestId == outcome.event.requestId && f.event.payload == outcome.event.requestPayload
    && f.event.phase == outcome.event.phase && f.commandId == outcome.commandId && f.eventId < outcome.eventId
  }

  /** The attempt a successful outcome answers, when the response repeats the request. */
  function MatchingAttempt(events: seq<EventFrame>, outcome: EventFrame): Option<EventFrame> {
    if outcome.event.RequestSucceeded? && outcome.event.requestId == outcome.event.responseId
       && outcome.event.requestPayload == outcome.event.responsePayload then
      Find(events, f => IsAttemptOf(f, outcome))
    else None
  }

  function Activated(events: seq<EventFrame>): Option<EventFrame> {
    var configured := Find(events, IsConfigured);
    if configured.None? || !configured.value.event.NetworkConfigured? then None
    else
      var id, peer := configured.value.eventId, configured.value.event.gateway + "/32";
      Find(events, f => IsActivation(f, id, peer))
  }

  function Restored(events: seq<EventFrame>): Option<EventFrame> {
    var activation := Activated(events);
    if activation.None? || !activation.value.event.OutageActivated? then None
    else
      var id, peer := activation.value.eventId, activation.value.event.peerCidr;
      Find(events, f => IsRestoration(f, id, peer))
  }

  predicate IsMismatch(events: seq<EventFrame>, f: EventFrame) {
    || (f.event.RequestSucceeded? && MatchingAttempt(events, f).None?)
    || (f.event.RequestUnavailable? && f.event.error == InvalidResponse)
  }

  predicate IsEarlySuccess(events: seq<EventFrame>, f: EventFrame, activated: nat) {
    && f.event.RequestSucceeded? && f.event.phase == PreOutage && f.eventId < activated
    && MatchingAttempt(events, f).Some? && MatchingAttempt(events, f).value.eventId < activated
  }

  function SafetyHolds(events: seq<EventFrame>): bool {
    var activation := Activated(events);
    && Find(events, f => IsMismatch(events, f)).None?
    && activation.Some?
    && var id := activation.value.eventId;
    Find(events, f => IsEarlySuccess(events, f, id)).Some?
  }

  predicate IsProhibited(f: EventFrame, attempt: EventFrame, restored: nat, bound: nat) {
    && attempt.event.RequestAttempted? && f.event.RequestUnavailable? && f.event.phase == Outage
    && f.event.error == AdministrativeProhibited && f.event.errno == Some(EACCES)
    && f.event.requestId == attempt.event.requestId && f.commandId == attempt.commandId
    && attempt.eventId < f.eventId < restored && f.eventId - attempt.eventId <= bound
  }

  predicate IsDenied(events: seq<EventFrame>, f: EventFrame, activated: nat, restored: nat, bound: nat) {
    && f.event.RequestAttempted? && f.event.phase == Outage && activated < f.eventId < restored
    && Find(events, g => IsProhibited(g, f, restored, bound)).Some?
  }

  function OutageHolds(events: seq<EventFrame>, bound: nat): bool {
    var activation, restoration := Activated(events), Restored(events);
    && activation.Some? && restoration.Some?
    && var activated, restored := activation.value.eventId, restoration.value.eventId;
    Find(events, f => IsDenied(events, f, activated, restored, bound)).Some?
  }

  predicate IsRecovery(events: seq<EventFrame>, f: EventFrame, restored: nat, bound: nat) {
    && f.event.RequestSucceeded? && f.event.phase == Recovery && f.eventId > restored && f.eventId - restored <= bound
    && MatchingAttempt(events, f).Some? && MatchingAttempt(events, f).value.eventId > restored
  }

  function RecoveryHolds(events: seq<EventFrame>, bound: nat): bool {
    var restoration := Restored(events);
    && restoration.Some?
    && var restored := restoration.value.eventId;
    Find(events, f => IsRecovery(events, f, restored, bound)).Some?
  }

  function Evaluate(events: seq<EventFrame>, outageBound: nat, livenessBound: nat): AssertionReport {
    var safety, outage := SafetyHolds(events), OutageHolds(events, outageBound);
    var restoration, recovery := Restored(events).Some?, RecoveryHolds(events, livenessBound);
    AssertionReport(
      safety && outage && restoration && recovery,
      [AssertionResult(Safety, safety), AssertionResult(ControlledOutage, outage),
       AssertionResult(Restoration, restoration), AssertionResult(BoundedRecovery, recovery)])
  }

  // ---- The report does not depend on other events --------------------------------------

  /** The events that the guest keeps for its own report. */
  predicate IsAssertionEvent(event: Event) {
    || event.NetworkConfigured? || event.OutageActivated? || event.NetworkRestored? || event.RequestAttempted?
    || event.RequestSucceeded? || event.RequestUnavailable? || event.AssertionsEvaluated?
  }

  function Kept(events: seq<EventFrame>): seq<EventFrame> {
    if events == [] then []
    else
      var last := events[|events| - 1];
      Kept(events[..|events| - 1]) + if IsAssertionEvent(last.event) then [last] else []
  }

  /** The events that a report looks at. */
  predicate IsSeen(f: EventFrame) {
    IsAssertionEvent(f.event) && !f.event.AssertionsEvaluated?
  }

  function Seen(events: seq<EventFrame>): seq<EventFrame> {
    if events == [] then [] else (if IsSeen(events[0]) then [events[0]] else []) + Seen(events[1..])
  }

  lemma {:induction false} FindSeen(events: seq<EventFrame>, wanted: EventFrame -> bool)
    requires forall f :: wanted(f) ==> IsSeen(f)
    ensures Find(Seen(events), wanted) == Find(events, wanted)
    decreases |events|
  {
    if events != [] {
      FindSeen(events[1..], wanted);
      if IsSeen(events[0]) {
        assert Seen(events)[1..] == Seen(events[1..]);
      } else {
        assert Seen(events) == Seen(events[1..]);
      }
    }
  }

  lemma {:induction false} FindAgrees(events: seq<EventFrame>, one: EventFrame -> bool, two: EventFrame -> bool)
    requires forall f :: one(f) == two(f)
    ensures Find(events, one) == Find(events, two)
    decreases |events|
  {
    if events != [] { FindAgrees(events[1..], one, two); }
  }

  lemma SeenAttempt(events: seq<EventFrame>, outcome: EventFrame)
    ensures MatchingAttempt(Seen(events), outcome) == MatchingAttempt(events, outcome)
  {
    FindSeen(events, f => IsAttemptOf(f, outcome));
  }

  lemma SeenSwitches(events: seq<EventFrame>)
    ensures Activated(Seen(events)) == Activated(events) && Restored(Seen(events)) == Restored(events)
  {
    FindSeen(events, IsConfigured);
    var configured := Find(events, IsConfigured);
    if configured.Some? {
      var id, peer := configured.value.eventId, configured.value.event.gateway + "/32";
      FindSeen(events, f => IsActivation(f, id, peer));
    }
    var activation := Activated(events);
    if activation.Some? {
      var id, peer := activation.value.eventId, activation.value.event.peerCidr;
      FindSeen(events, f => IsRestoration(f, id, peer));
    }
  }

  lemma SeenSafety(events: seq<EventFrame>)
    ensures SafetyHolds(Seen(events)) == SafetyHolds(events)
  {
    var seen := Seen(events);
    SeenSwitches(events);
    forall f ensures MatchingAttempt(seen, f) == MatchingAttempt(events, f) { SeenAttempt(events, f); }
    FindAgrees(seen, f => IsMismatch(seen, f), f => IsMismatch(events, f));
    FindSeen(events, f => IsMismatch(events, f));
    if Activated(events).Some? {
      var id := Activated(events).value.eventId;
      FindAgrees(seen, f => IsEarlySuccess(seen, f, id), f => IsEarlySuccess(events, f, id));
      FindSeen(events, f => IsEarlySuccess(events, f, id));
    }
  }

  lemma SeenOutage(events: seq<EventFrame>, bound: nat)
    ensures OutageHolds(Seen(events), bound) == OutageHolds(events, bound)
  {
    var seen := Seen(events);
    SeenSwitches(events);
    if Activated(events).Some? && Restored(events).Some? {
      var activated, restored := Activated(events).value.eventId, Restored(events).value.eventId;
      forall f
        ensures IsDenied(seen, f, activated, restored, bound) == IsDenied(events, f, activated, restored, bound)
      {
        FindSeen(events, g => IsProhibited(g, f, restored, bound));
      }
      FindAgrees(seen, f => IsDenied(seen, f, activated, restored, bound),
                 f => IsDenied(events, f, activated, restored, bound));
      FindSeen(events, f => IsDenied(events, f, activated, restored, bound));
    }
  }

  lemma SeenRecovery(events: seq<EventFrame>, bound: nat)
    ensures RecoveryHolds(Seen(events), bound) == RecoveryHolds(events, bound)
  {
    var seen := Seen(events);
    SeenSwitches(events);
    forall f ensures MatchingAttempt(seen, f) == MatchingAttempt(events, f) { SeenAttempt(events, f); }
    if Restored(events).Some? {
      var restored := Restored(events).value.eventId;
      FindAgrees(seen, f => IsRecovery(seen, f, restored, bound), f => IsRecovery(events, f, restored, bound));
      FindSeen(events, f => IsRecovery(events, f, restored, bound));
    }
  }

  /** A report is decided by the events it looks at. */
  lemma EvaluateSeen(events: seq<EventFrame>, outageBound: nat, livenessBound: nat)
    ensures Evaluate(Seen(events), outageBound, livenessBound) == Evaluate(events, outageBound, livenessBound)
  {
    hide SafetyHolds, OutageHolds, RecoveryHolds, Restored;
    SeenSafety(events);
    SeenOutage(events, outageBound);
    SeenSwitches(events);
    SeenRecovery(events, livenessBound);
  }

  lemma {:induction false} SeenAppend(one: seq<EventFrame>, two: seq<EventFrame>)
    ensures Seen(one + two) == Seen(one) + Seen(two)
    decreases |one|
  {
    if one == [] {
      assert one + two == two;
    } else {
      assert (one + two)[0] == one[0] && (one + two)[1..] == one[1..] + two;
      SeenAppend(one[1..], two);
    }
  }

  lemma {:induction false} SeenOfKept(events: seq<EventFrame>)
    ensures Seen(Kept(events)) == Seen(events)
  {
    if events != [] {
      var init, last := events[..|events| - 1], events[|events| - 1];
      assert events == init + [last] && [last][1..] == [];
      SeenOfKept(init);
      SeenAppend(init, [last]);
      SeenAppend(Kept(init), if IsAssertionEvent(last.event) then [last] else []);
    }
  }

  /** The host's prefix, the history the guest kept of it, and the full recording have one report,
      whatever the events are. */
  lemma OneReport(prefix: seq<EventFrame>, tail: seq<EventFrame>, outageBound: nat, livenessBound: nat)
    requires forall i | 0 <= i < |tail| :: !IsSeen(tail[i])
    ensures Evaluate(Kept(prefix), outageBound, livenessBound) == Evaluate(prefix, outageBound, livenessBound)
    ensures Evaluate(prefix + tail, outageBound, livenessBound) == Evaluate(prefix, outageBound, livenessBound)
  {
    hide Evaluate;
    SeenOfKept(prefix);
    EvaluateSeen(Kept(prefix), outageBound, livenessBound);
    EvaluateSeen(prefix, outageBound, livenessBound);
    EvaluateSeen(prefix + tail, outageBound, livenessBound);
    SeenAppend(prefix, tail);
    NothingSeen(tail);
    assert Seen(prefix) + [] == Seen(prefix);
  }

  lemma {:induction false} NothingSeen(events: seq<EventFrame>)
    requires forall i | 0 <= i < |events| :: !IsSeen(events[i])
    ensures Seen(events) == []
    decreases |events|
  {
    if events != [] { NothingSeen(events[1..]); }
  }
}
