/** What a network report says about the events themselves, whatever they are: each of the four assertions,
    as an if and only if. */
module NetworkMeaning {
  import opened Protocol
  import opened Assertions

  // ---- Facts read straight off the events -----------------------------------------------

  /** The first configuration. */
  predicate Configures(events: seq<EventFrame>, c: nat) {
    && c < |events| && events[c].event.NetworkConfigured?
    && forall j | 0 <= j < c :: !events[j].event.NetworkConfigured?
  }

  /** An activation of the outage against the configured gateway, after the configuration. */
  predicate MayBegin(events: seq<EventFrame>, c: nat, a: nat)
    requires Configures(events, c)
  {
    && a < |events| && events[c].eventId < events[a].eventId
    && var peer := events[c].event.gateway + "/32";
    events[a].event == OutageActivated(peer, "prohibit " + peer)
  }

  /** The outage begins in the first such event. */
  ghost predicate Begins(events: seq<EventFrame>, a: nat) {
    exists c: nat :: Configures(events, c) && MayBegin(events, c, a) && forall j | 0 <= j < a :: !MayBegin(events, c, j)
  }

  /** A restoration of the same peer, after the activation. */
  predicate MayEnd(events: seq<EventFrame>, a: nat, r: nat)
    requires a < |events| && events[a].event.OutageActivated?
  {
    && r < |events| && events[a].eventId < events[r].eventId
    && events[r].event == NetworkRestored(events[a].event.peerCidr)
  }

  /** The outage that begins in event `a` ends in the first restoration. */
  ghost predicate Lasts(events: seq<EventFrame>, a: nat, r: nat) {
    && Begins(events, a) && a < |events| && events[a].event.OutageActivated?
    && MayEnd(events, a, r) && forall j | 0 <= j < r :: !MayEnd(events, a, j)
  }

  /** The success `o` repeats its request, and `t` is an earlier attempt of that request under the same command. */
  predicate Answers(events: seq<EventFrame>, t: nat, o: nat) {
    && t < |events| && o < |events| && events[t].event.RequestAttempted? && events[o].event.RequestSucceeded?
    && events[o].event.responseId == events[o].event.requestId == events[t].event.requestId
    && events[o].event.responsePayload == events[o].event.requestPayload == events[t].event.payload
    && events[o].event.phase == events[t].event.phase && events[o].commandId == events[t].commandId
    && events[t].eventId < events[o].eventId
  }

  ghost predicate Answered(events: seq<EventFrame>, o: nat) {
    exists t: nat :: Answers(events, t, o)
  }

  /** Every success answers an attempt, no response is invalid, and some request before the outage was
      answered before it. */
  ghost predicate Safe(events: seq<EventFrame>) {
    && (forall o | 0 <= o < |events| && events[o].event.RequestSucceeded? :: Answered(events, o))
    && (forall o | 0 <= o < |events| && events[o].event.RequestUnavailable? :: events[o].event.error != InvalidResponse)
    && exists a: nat, o: nat | Begins(events, a) :: EarlyAnswer(events, a, o)
  }

  ghost predicate EarlyAnswer(events: seq<EventFrame>, a: nat, o: nat) {
    && a < |events| && o < |events| && Answered(events, o) && events[o].event.RequestSucceeded?
    && events[o].event.phase == PreOutage && events[o].eventId < events[a].eventId
  }

  /** An attempt inside the outage was denied inside it, within the bound. */
  predicate Denied(events: seq<EventFrame>, a: nat, r: nat, t: nat, o: nat, bound: nat) {
    && a < |events| && r < |events| && t < |events| && o < |events|
    && events[t].event.RequestAttempted? && events[t].event.phase == Outage
    && events[o].event == RequestUnavailable(events[t].event.requestId, Outage, AdministrativeProhibited, Some(13))
    && events[o].commandId == events[t].commandId
    && events[a].eventId < events[t].eventId < events[o].eventId < events[r].eventId
    && events[o].eventId <= events[t].eventId + bound
  }

  ghost predicate Outaged(events: seq<EventFrame>, bound: nat) {
    exists a: nat, r: nat, t: nat, o: nat :: Lasts(events, a, r) && Denied(events, a, r, t, o, bound)
  }

  ghost predicate Ended(events: seq<EventFrame>) {
    exists a: nat, r: nat :: Lasts(events, a, r)
  }

  /** A request of the recovery phase is answered after the restoration, within the bound, and so was its first
      attempt. */
  ghost predicate Recovers(events: seq<EventFrame>, r: nat, t: nat, o: nat, bound: nat) {
    && r < |events| && Answers(events, t, o) && (forall j | 0 <= j < t :: !Answers(events, j, o))
    && events[o].event.phase == Recovery && events[r].eventId < events[t].eventId
    && events[r].eventId < events[o].eventId <= events[r].eventId + bound
  }

  ghost predicate Recovered(events: seq<EventFrame>, bound: nat) {
    exists a: nat, r: nat, t: nat, o: nat :: Lasts(events, a, r) && Recovers(events, r, t, o, bound)
  }

  // ---- First matches ------------------------------------------------------------------------

  ghost predicate FirstAt(events: seq<EventFrame>, wanted: EventFrame -> bool, i: nat) {
    i < |events| && wanted(events[i]) && forall j | 0 <= j < i :: !wanted(events[j])
  }

  /** A search succeeds at the first match. */
  lemma {:induction false} FindIsFirst(events: seq<EventFrame>, wanted: EventFrame -> bool) returns (i: nat)
    ensures Find(events, wanted).Some? ==> FirstAt(events, wanted, i) && Find(events, wanted).value == events[i]
    ensures Find(events, wanted).None? ==> forall j | 0 <= j < |events| :: !wanted(events[j])
    decreases |events|
  {
    i := 0;
    if events != [] && !wanted(events[0]) {
      var k := FindIsFirst(events[1..], wanted);
      i := k + 1;
      assert forall j | 1 <= j < |events| :: events[j] == events[1..][j - 1];
    }
  }

  /** And there is only one first match. */
  lemma {:induction false} FindAt(events: seq<EventFrame>, wanted: EventFrame -> bool, i: nat)
    requires FirstAt(events, wanted, i)
    ensures Find(events, wanted) == Some(events[i])
  {
    var k := FindIsFirst(events, wanted);
    assert events[i] in events;
  }

  // ---- The switches ----------------------------------------------------------------------------

  lemma {:induction false} ActivatedMeans(events: seq<EventFrame>) returns (a: nat)
    ensures Activated(events).Some? ==> Begins(events, a) && a < |events| && events[a] == Activated(events).value
    ensures Activated(events).None? ==> forall b: nat :: !Begins(events, b)
  {
    a := 0;
    var c := FindIsFirst(events, IsConfigured);
    if Find(events, IsConfigured).Some? {
      assert Configures(events, c);
      var id, peer := events[c].eventId, events[c].event.gateway + "/32";
      var wanted := f => IsActivation(f, id, peer);
      a := FindIsFirst(events, wanted);
      forall j: nat | j < |events| ensures wanted(events[j]) <==> MayBegin(events, c, j) {}
      forall b: nat | Begins(events, b) ensures Find(events, wanted).Some? {
        var d :| Configures(events, d) && MayBegin(events, d, b);
        assert d == c;
      }
    } else {
      forall b: nat ensures !Begins(events, b) {}
    }
  }

  lemma {:induction false} BeginsOnce(events: seq<EventFrame>, a: nat, b: nat)
    requires Begins(events, a) && Begins(events, b)
    ensures a == b
  {
    var c :| Configures(events, c) && MayBegin(events, c, a) && forall j | 0 <= j < a :: !MayBegin(events, c, j);
    var d :| Configures(events, d) && MayBegin(events, d, b) && forall j | 0 <= j < b :: !MayBegin(events, d, j);
    assert c == d;
  }

  lemma {:induction false} RestoredMeans(events: seq<EventFrame>) returns (a: nat, r: nat)
    ensures Restored(events).Some? ==> && Lasts(events, a, r) && events[r] == Restored(events).value
                                       && Activated(events) == Some(events[a])
    ensures Restored(events).None? ==> forall b: nat, s: nat :: !Lasts(events, b, s)
  {
    hide Begins;
    r := 0;
    a := ActivatedMeans(events);
    if Activated(events).Some? {
      assert events[a].event.OutageActivated? by { BeginsWithActivation(events, a); }
      var id, peer := events[a].eventId, events[a].event.peerCidr;
      var wanted := f => IsRestoration(f, id, peer);
      r := FindIsFirst(events, wanted);
      forall j: nat | j < |events| ensures wanted(events[j]) <==> MayEnd(events, a, j) {}
      forall b: nat, s: nat | Lasts(events, b, s) ensures Find(events, wanted).Some? {
        BeginsOnce(events, a, b);
        assert MayEnd(events, a, s);
      }
    }
  }

  lemma {:induction false} BeginsWithActivation(events: seq<EventFrame>, a: nat)
    requires Begins(events, a)
    ensures a < |events| && events[a].event.OutageActivated?
  {}

  lemma {:induction false} LastsOnce(events: seq<EventFrame>, a: nat, r: nat, b: nat, s: nat)
    requires Lasts(events, a, r) && Lasts(events, b, s)
    ensures a == b && r == s
  {
    hide Begins;
    BeginsOnce(events, a, b);
  }

  // ---- Answers ----------------------------------------------------------------------------------

  lemma {:induction false} AttemptMeans(events: seq<EventFrame>, o: nat) returns (t: nat)
    requires o < |events|
    ensures MatchingAttempt(events, events[o]).Some? ==>
              && Answers(events, t, o) && (forall j | 0 <= j < t :: !Answers(events, j, o))
              && MatchingAttempt(events, events[o]).value == events[t]
    ensures MatchingAttempt(events, events[o]).None? ==> !Answered(events, o)
  {
    var outcome := events[o];
    var wanted := f => IsAttemptOf(f, outcome);
    t := FindIsFirst(events, wanted);
    if outcome.event.RequestSucceeded? && outcome.event.requestId == outcome.event.responseId
       && outcome.event.requestPayload == outcome.event.responsePayload
    {
      forall j: nat | j < |events| ensures wanted(events[j]) <==> Answers(events, j, o) {}
    }
  }

  lemma {:induction false} FirstAnswerOnce(events: seq<EventFrame>, t: nat, u: nat, o: nat)
    requires Answers(events, t, o) && (forall j | 0 <= j < t :: !Answers(events, j, o))
    requires Answers(events, u, o) && (forall j | 0 <= j < u :: !Answers(events, j, o))
    ensures t == u
  {}

  // ---- The four assertions -----------------------------------------------------------------------

  lemma {:induction false} MismatchMeans(events: seq<EventFrame>, o: nat)
    requires o < |events|
    ensures IsMismatch(events, events[o]) <==>
            || (events[o].event.RequestSucceeded? && !Answered(events, o))
            || (events[o].event.RequestUnavailable? && events[o].event.error == InvalidResponse)
  {
    hide MatchingAttempt;
    var t := AttemptMeans(events, o);
  }

  lemma {:induction false} EarlyMeans(events: seq<EventFrame>, a: nat, o: nat)
    requires o < |events| && a < |events|
    ensures IsEarlySuccess(events, events[o], events[a].eventId) <==> EarlyAnswer(events, a, o)
  {
    hide MatchingAttempt;
    var t := AttemptMeans(events, o);
  }

  lemma {:induction false} SafetyMeans(events: seq<EventFrame>)
    ensures SafetyHolds(events) <==> Safe(events)
  {
    hide Begins, IsMismatch, IsEarlySuccess, EarlyAnswer, Answered;
    var mismatch := f => IsMismatch(events, f);
    var m := FindIsFirst(events, mismatch);
    forall o: nat | o < |events|
      ensures mismatch(events[o]) <==>
              || (events[o].event.RequestSucceeded? && !Answered(events, o))
              || (events[o].event.RequestUnavailable? && events[o].event.error == InvalidResponse)
    {
      MismatchMeans(events, o);
    }
    var a := ActivatedMeans(events);
    if Activated(events).Some? {
      var id := events[a].eventId;
      var early := f => IsEarlySuccess(events, f, id);
      var e := FindIsFirst(events, early);
      forall o: nat | o < |events| ensures early(events[o]) <==> EarlyAnswer(events, a, o) {
        EarlyMeans(events, a, o);
      }
      forall b: nat, o: nat | Begins(events, b) && EarlyAnswer(events, b, o) ensures o < |events| && early(events[o]) {
        BeginsOnce(events, a, b);
        EarlyIsInside(events, a, o);
      }
    }
  }

  lemma {:induction false} EarlyIsInside(events: seq<EventFrame>, a: nat, o: nat)
    requires EarlyAnswer(events, a, o)
    ensures o < |events|
  {}

  lemma {:induction false} DeniedMeans(events: seq<EventFrame>, a: nat, r: nat, t: nat, bound: nat) returns (o: nat)
    requires a < |events| && r < |events| && t < |events|
    ensures IsDenied(events, events[t], events[a].eventId, events[r].eventId, bound) ==>
              Denied(events, a, r, t, o, bound)
    ensures !IsDenied(events, events[t], events[a].eventId, events[r].eventId, bound) ==>
              forall p: nat :: !Denied(events, a, r, t, p, bound)
  {
    var attempt, restored := events[t], events[r].eventId;
    var wanted := g => IsProhibited(g, attempt, restored, bound);
    o := FindIsFirst(events, wanted);
    if attempt.event.RequestAttempted? && attempt.event.phase == Outage
       && events[a].eventId < attempt.eventId < restored
    {
      forall p: nat | p < |events| ensures wanted(events[p]) <==> Denied(events, a, r, t, p, bound) {}
    }
  }

  lemma {:induction false} OutageMeans(events: seq<EventFrame>, bound: nat)
    ensures OutageHolds(events, bound) <==> Outaged(events, bound)
  {
    hide Lasts, IsDenied, Denied;
    var a, r := RestoredMeans(events);
    if Restored(events).Some? {
      assert a < |events| && r < |events| by { LastsInside(events, a, r); }
      var activated, restored := events[a].eventId, events[r].eventId;
      var wanted := f => IsDenied(events, f, activated, restored, bound);
      var t := FindIsFirst(events, wanted);
      if Find(events, wanted).Some? {
        var o := DeniedMeans(events, a, r, t, bound);
        assert Lasts(events, a, r) && Denied(events, a, r, t, o, bound);
      }
      forall b: nat, s: nat, u: nat, p: nat | Lasts(events, b, s) && Denied(events, b, s, u, p, bound)
        ensures Find(events, wanted).Some?
      {
        LastsOnce(events, a, r, b, s);
        DeniedInside(events, b, s, u, p, bound);
        var o := DeniedMeans(events, a, r, u, bound);
        assert wanted(events[u]);
      }
    }
  }

  lemma {:induction false} LastsInside(events: seq<EventFrame>, a: nat, r: nat)
    requires Lasts(events, a, r)
    ensures a < |events| && r < |events|
  {}

  lemma {:induction false} DeniedInside(events: seq<EventFrame>, a: nat, r: nat, t: nat, o: nat, bound: nat)
    requires Denied(events, a, r, t, o, bound)
    ensures t < |events|
  {}

  lemma {:induction false} RecoveryOf(events: seq<EventFrame>, r: nat, o: nat, bound: nat) returns (t: nat)
    requires r < |events| && o < |events|
    ensures IsRecovery(events, events[o], events[r].eventId, bound) ==> Recovers(events, r, t, o, bound)
    ensures !IsRecovery(events, events[o], events[r].eventId, bound) ==>
              forall u: nat :: !Recovers(events, r, u, o, bound)
  {
    hide MatchingAttempt;
    t := AttemptMeans(events, o);
    forall u: nat | Recovers(events, r, u, o, bound)
      ensures IsRecovery(events, events[o], events[r].eventId, bound)
    {
      assert Answers(events, u, o);
      FirstAnswerOnce(events, t, u, o);
    }
  }

  lemma {:induction false} RecoveryMeans(events: seq<EventFrame>, bound: nat)
    ensures RecoveryHolds(events, bound) <==> Recovered(events, bound)
  {
    hide Lasts, IsRecovery, Recovers;
    var a, r := RestoredMeans(events);
    if Restored(events).Some? {
      assert a < |events| && r < |events| by { LastsInside(events, a, r); }
      var restored := events[r].eventId;
      var wanted := f => IsRecovery(events, f, restored, bound);
      var o := FindIsFirst(events, wanted);
      if Find(events, wanted).Some? {
        var t := RecoveryOf(events, r, o, bound);
        assert Lasts(events, a, r) && Recovers(events, r, t, o, bound);
      }
      forall b: nat, s: nat, u: nat, p: nat | Lasts(events, b, s) && Recovers(events, s, u, p, bound)
        ensures Find(events, wanted).Some?
      {
        LastsOnce(events, a, r, b, s);
        RecoversInside(events, s, u, p, bound);
        var t := RecoveryOf(events, r, p, bound);
        assert wanted(events[p]);
      }
    }
  }

  lemma {:induction false} RecoversInside(events: seq<EventFrame>, r: nat, t: nat, o: nat, bound: nat)
    requires Recovers(events, r, t, o, bound)
    ensures o < |events|
  {}

  /** The report on any events, assertion by assertion. */
  lemma {:induction false} ReportMeans(events: seq<EventFrame>, outageBound: nat, livenessBound: nat)
    ensures var report := Evaluate(events, outageBound, livenessBound);
            && |report.assertions| == 4
            && report.assertions[0].name == Safety && (report.assertions[0].passed <==> Safe(events))
            && report.assertions[1].name == ControlledOutage
            && (report.assertions[1].passed <==> Outaged(events, outageBound))
            && report.assertions[2].name == Restoration && (report.assertions[2].passed <==> Ended(events))
            && report.assertions[3].name == BoundedRecovery
            && (report.assertions[3].passed <==> Recovered(events, livenessBound))
            && (report.passed <==> Safe(events) && Outaged(events, outageBound) && Ended(events)
                                   && Recovered(events, livenessBound))
  {
    hide SafetyHolds, OutageHolds, RecoveryHolds, Safe, Outaged, Recovered, Lasts;
    SafetyMeans(events);
    OutageMeans(events, outageBound);
    RecoveryMeans(events, livenessBound);
    var a, r := RestoredMeans(events);
  }

  // ---- The diagnostic fields play no part -----------------------------------------------------------

  /** The streams agree but for diagnostics. */
  predicate Alike(one: seq<EventFrame>, two: seq<EventFrame>) {
    && |one| == |two|
    && forall i | 0 <= i < |one| ::
         one[i].eventId == two[i].eventId && one[i].commandId == two[i].commandId && one[i].event == two[i].event
  }

  lemma {:induction false} BeginsAlike(one: seq<EventFrame>, two: seq<EventFrame>, a: nat)
    requires Alike(one, two)
    ensures Begins(one, a) <==> Begins(two, a)
  {
    if Begins(one, a) {
      var c: nat :| Configures(one, c) && MayBegin(one, c, a) && forall j | 0 <= j < a :: !MayBegin(one, c, j);
      assert Configures(two, c);
      assert forall j: nat :: MayBegin(one, c, j) <==> MayBegin(two, c, j);
      assert MayBegin(two, c, a) && forall j | 0 <= j < a :: !MayBegin(two, c, j);
    }
    if Begins(two, a) {
      var c: nat :| Configures(two, c) && MayBegin(two, c, a) && forall j | 0 <= j < a :: !MayBegin(two, c, j);
      assert Configures(one, c);
      assert forall j: nat :: MayBegin(one, c, j) <==> MayBegin(two, c, j);
      assert MayBegin(one, c, a) && forall j | 0 <= j < a :: !MayBegin(one, c, j);
    }
  }

  lemma {:induction false} LastsAlike(one: seq<EventFrame>, two: seq<EventFrame>, a: nat, r: nat)
    requires Alike(one, two)
    ensures Lasts(one, a, r) <==> Lasts(two, a, r)
  {
    hide Begins;
    BeginsAlike(one, two, a);
    if a < |one| && one[a].event.OutageActivated? {
      assert forall j: nat :: MayEnd(one, a, j) <==> MayEnd(two, a, j);
    }
  }

  lemma {:induction false} AnswersAlike(one: seq<EventFrame>, two: seq<EventFrame>, o: nat)
    requires Alike(one, two)
    ensures forall t: nat :: Answers(one, t, o) <==> Answers(two, t, o)
    ensures Answered(one, o) <==> Answered(two, o)
  {
    assert forall t: nat :: Answers(one, t, o) <==> Answers(two, t, o);
  }

  lemma {:induction false} SafeAlike(one: seq<EventFrame>, two: seq<EventFrame>)
    requires Alike(one, two) && Safe(one)
    ensures Safe(two)
  {
    hide Begins, Answered;
    forall o: nat ensures Answered(one, o) <==> Answered(two, o) { AnswersAlike(one, two, o); }
    var a: nat, o: nat :| Begins(one, a) && EarlyAnswer(one, a, o);
    BeginsAlike(one, two, a);
    assert EarlyAnswer(two, a, o);
  }

  lemma {:induction false} OutagedAlike(one: seq<EventFrame>, two: seq<EventFrame>, bound: nat)
    requires Alike(one, two) && Outaged(one, bound)
    ensures Outaged(two, bound)
  {
    hide Lasts;
    var a: nat, r: nat, t: nat, o: nat :| Lasts(one, a, r) && Denied(one, a, r, t, o, bound);
    LastsAlike(one, two, a, r);
    assert Denied(two, a, r, t, o, bound);
  }

  lemma {:induction false} EndedAlike(one: seq<EventFrame>, two: seq<EventFrame>)
    requires Alike(one, two) && Ended(one)
    ensures Ended(two)
  {
    hide Lasts;
    var a: nat, r: nat :| Lasts(one, a, r);
    LastsAlike(one, two, a, r);
  }

  lemma {:induction false} RecoveredAlike(one: seq<EventFrame>, two: seq<EventFrame>, bound: nat)
    requires Alike(one, two) && Recovered(one, bound)
    ensures Recovered(two, bound)
  {
    hide Lasts, Answers;
    var a: nat, r: nat, t: nat, o: nat :| Lasts(one, a, r) && Recovers(one, r, t, o, bound);
    LastsAlike(one, two, a, r);
    AnswersAlike(one, two, o);
    assert Recovers(two, r, t, o, bound) by { RecoversAlike(one, two, r, t, o, bound); }
  }

  lemma {:induction false} RecoversAlike(one: seq<EventFrame>, two: seq<EventFrame>, r: nat, t: nat, o: nat, bound: nat)
    requires Alike(one, two) && Recovers(one, r, t, o, bound)
    ensures Recovers(two, r, t, o, bound)
  {
    AnswersAlike(one, two, o);
  }

  /** So a report is a function of the recorded fields. */
  lemma {:induction false} ReportIsSemantic(one: seq<EventFrame>, two: seq<EventFrame>, outageBound: nat,
                                            livenessBound: nat)
    requires Alike(one, two)
    ensures Evaluate(one, outageBound, livenessBound) == Evaluate(two, outageBound, livenessBound)
  {
    hide Evaluate, Safe, Outaged, Ended, Recovered, Alike;
    assert Alike(two, one) by { AlikeBack(one, two); }
    ReportMeans(one, outageBound, livenessBound);
    ReportMeans(two, outageBound, livenessBound);
    if Safe(one) { SafeAlike(one, two); }
    if Safe(two) { SafeAlike(two, one); }
    if Outaged(one, outageBound) { OutagedAlike(one, two, outageBound); }
    if Outaged(two, outageBound) { OutagedAlike(two, one, outageBound); }
    if Ended(one) { EndedAlike(one, two); }
    if Ended(two) { EndedAlike(two, one); }
    if Recovered(one, livenessBound) { RecoveredAlike(one, two, livenessBound); }
    if Recovered(two, livenessBound) { RecoveredAlike(two, one, livenessBound); }
    var r, q := Evaluate(one, outageBound, livenessBound), Evaluate(two, outageBound, livenessBound);
    assert forall i | 0 <= i < 4 :: r.assertions[i] == q.assertions[i];
  }

  lemma {:induction false} AlikeBack(one: seq<EventFrame>, two: seq<EventFrame>)
    requires Alike(one, two)
    ensures Alike(two, one)
  {}
}
