/** The promises of the host, read off the emitted frames: when they are kept, whatever the runtime reports
    between the network's confirmations folds into a trace without a fault other than an over-long line. */
module Courtesy {
  import opened Protocol
  import opened Traces
  import opened Machine
  import opened Refinement

  /** An event that only a command of the host can cause. */
  predicate Loud(event: Event) {
    || event.WorkloadStarted? || event.LaunchFailed? || event.InputAccepted? || event.TerminationRequested?
    || event.NetworkConfigured? || event.OutageActivated? || event.NetworkRestored?
  }

  function LoudIn(events: seq<Event>): nat {
    if events == [] then 0 else LoudIn(events[..|events| - 1]) + if Loud(events[|events| - 1]) then 1 else 0
  }

  lemma {:induction false} LoudAppend(one: seq<Event>, two: seq<Event>)
    ensures LoudIn(one + two) == LoudIn(one) + LoudIn(two)
    decreases |two|
  {
    if two == [] {
      assert one + two == one;
    } else {
      assert (one + two)[..|one + two| - 1] == one + two[..|two| - 1];
      LoudAppend(one, two[..|two| - 1]);
    }
  }

  lemma {:induction false} NoneLoud(events: seq<Event>)
    ensures LoudIn(events) == 0 <==> forall i | 0 <= i < |events| :: !Loud(events[i])
    decreases |events|
  {
    if events != [] { NoneLoud(events[..|events| - 1]); }
  }

  predicate Unasked(events: seq<Event>) {
    forall i | 0 <= i < |events| :: !Loud(events[i])
  }

  /** What was added to a log without making it louder is quiet. */
  lemma {:induction false} QuietTail(log: seq<Event>, more: seq<Event>)
    requires LoudIn(log + more) == LoudIn(log)
    ensures Unasked(more)
  {
    LoudAppend(log, more);
    NoneLoud(more);
  }

  /** The invocations that starts, successful or not, have named. */
  function Named(frames: seq<EventFrame>): set<nat> {
    if frames == [] then {}
    else
      var last := frames[|frames| - 1].event;
      Named(frames[..|frames| - 1]) + if last.WorkloadStarted? || last.LaunchFailed? then {last.invocation} else {}
  }

  /** The command of the latest input acknowledgement, or zero. */
  function LatestInput(frames: seq<EventFrame>): nat {
    if frames == [] then 0
    else
      var last := frames[|frames| - 1];
      if last.event.InputAccepted? then last.commandId else LatestInput(frames[..|frames| - 1])
  }

  /** The frame keeps the promises: nothing is started or terminated twice, input is acknowledged under
      growing commands, the network is switched in order. */
  predicate Welcome(t: Trace, named: set<nat>, latest: nat, frame: EventFrame) {
    match frame.event
    case WorkloadStarted(k, _) => k !in named
    case LaunchFailed(k, _) => k !in named
    case TerminationRequested(k, _) => !t.HasTerminated(k)
    case InputAccepted(_, _, _, _) => frame.commandId > latest
    case NetworkConfigured(iface, cidr, gateway) =>
      t.configured.None? && iface == NETWORK_INTERFACE && cidr == GUEST_CIDR && gateway == FIXTURE_PEER
    case OutageActivated(peer, rule) => t.activations == [] && rule == ProhibitRule(peer)
    case NetworkRestored(_) => t.restorations == []
    case _ => true
  }

  predicate Courteous(frames: seq<EventFrame>) {
    frames == [] ||
    (var init := frames[..|frames| - 1];
     Courteous(init) && Welcome(Fold(init), Named(init), LatestInput(init), frames[|frames| - 1]))
  }

  lemma {:induction false} LastFrame(frames: seq<EventFrame>, frame: EventFrame)
    ensures var all := frames + [frame];
            && Fold(all) == Fold(frames).Push(frame)
            && Named(all) == Named(frames)
                             + (if frame.event.WorkloadStarted? || frame.event.LaunchFailed?
                                then {frame.event.invocation} else {})
            && LatestInput(all) == (if frame.event.InputAccepted? then frame.commandId else LatestInput(frames))
            && (Courteous(all) <==> Courteous(frames)
                                    && Welcome(Fold(frames), Named(frames), LatestInput(frames), frame))
  {
    hide Trace.Push, Welcome;
    assert (frames + [frame])[..|frames|] == frames;
  }

  lemma {:induction false} CourteousBefore(one: seq<EventFrame>, two: seq<EventFrame>)
    requires Courteous(one + two)
    ensures Courteous(one)
    decreases |two|
  {
    hide Trace.Push, Welcome, Fold;
    if two == [] {
      assert one + two == one;
    } else {
      assert (one + two)[..|one + two| - 1] == one + two[..|two| - 1];
      CourteousBefore(one, two[..|two| - 1]);
    }
  }

  /** The trace of the frames stands for the runtime. */
  predicate StandsFor(frames: seq<EventFrame>, r: Runtime, sha: string -> string) {
    Simulates(r, Fold(frames), Named(frames), LatestInput(frames), sha)
  }

  // ---- The runtime's reports ---------------------------------------------------------------

  lemma {:induction false} FramedOne(event: Event, next: nat, command: nat)
    ensures Framed([event], next, command) == [EventFrame(PROTOCOL_VERSION, next, command, event, NO_DIAGNOSTICS)]
  {}

  lemma {:induction false} FramedNone(next: nat, command: nat)
    ensures Framed([], next, command) == []
  {}

  /** A step after courteous frames that reports courteously is polite. */
  lemma {:induction false} ReportsArePolite(frames: seq<EventFrame>, r: Runtime, step: Step, command: nat,
                                            limits: Limits, sha: string -> string)
    requires StandsFor(frames, r, sha) && Enabled(r, step, limits)
    requires Courteous(frames + Framed(Reports(r, step, limits, sha), |frames| + 1, command))
    ensures Polite(r, Move(step, command), Named(frames), LatestInput(frames))
  {
    hide Fold, Framed, KnownOnly, Bounded, TotalsMatch, StreamsAgree, Courteous, Named, LatestInput, Orderly;
    if step.Begin? || step.Refuse? || step.Kill? || step.Write? || step.CloseInput? {
      var event := Reports(r, step, limits, sha)[0];
      FramedOne(event, |frames| + 1, command);
      LastFrame(frames, EventFrame(PROTOCOL_VERSION, |frames| + 1, command, event, NO_DIAGNOSTICS));
    }
  }

  /** What the step's report adds to the promises. */
  lemma {:induction false} ReportsAreNamed(frames: seq<EventFrame>, r: Runtime, step: Step, command: nat,
                                           limits: Limits, sha: string -> string)
    requires Enabled(r, step, limits)
    ensures var all := frames + Framed(Reports(r, step, limits, sha), |frames| + 1, command);
            && Named(all) == Named(frames) + (if step.Begin? || step.Refuse? then {step.invocation} else {})
            && LatestInput(all) == (if Refinement.IsInput(step) then command else LatestInput(frames))
  {
    hide Fold, Framed, Courteous, Welcome;
    var events, n := Reports(r, step, limits, sha), |frames| + 1;
    if events == [] {
      FramedNone(n, command);
      assert frames + [] == frames;
    } else if |events| == 1 {
      FramedOne(events[0], n, command);
      LastFrame(frames, EventFrame(PROTOCOL_VERSION, n, command, events[0], NO_DIAGNOSTICS));
    } else {
      var one, two := EventFrame(PROTOCOL_VERSION, n, command, events[0], NO_DIAGNOSTICS),
                      EventFrame(PROTOCOL_VERSION, n + 1, command, events[1], NO_DIAGNOSTICS);
      FramedTwo(events[0], events[1], n, command);
      assert events == [events[0], events[1]];
      LastFrame(frames, one);
      LastFrame(frames + [one], two);
      assert (frames + [one]) + [two] == frames + [one, two];
    }
  }

  lemma {:induction false} FramedTwo(one: Event, two: Event, next: nat, command: nat)
    ensures Framed([one, two], next, command) ==
            [EventFrame(PROTOCOL_VERSION, next, command, one, NO_DIAGNOSTICS),
             EventFrame(PROTOCOL_VERSION, next + 1, command, two, NO_DIAGNOSTICS)]
  {}

  /** The step carries out a command. */
  predicate ByCommand(step: Step) {
    step.Begin? || step.Refuse? || step.Kill? || step.Write? || step.CloseInput?
  }

  lemma {:induction false} FramesGrow(frames: seq<EventFrame>, one: seq<Event>, two: seq<Event>, command: nat)
    ensures var sofar := frames + Framed(one, |frames| + 1, command);
            frames + Framed(one + two, |frames| + 1, command) == sofar + Framed(two, |sofar| + 1, command)
  {}

  /** A step of the runtime, reported courteously, keeps the trace standing for it. */
  lemma {:induction false} StepIsCarried(frames: seq<EventFrame>, r: Runtime, step: Step, command: nat, limits: Limits,
                                         sha: string -> string)
    requires StandsFor(frames, r, sha) && limits.Valid() && Orderly(r, limits) && Enabled(r, step, limits)
    requires Courteous(frames + Framed(Reports(r, step, limits, sha), |frames| + 1, command))
    ensures StandsFor(frames + Framed(Reports(r, step, limits, sha), |frames| + 1, command), Next(r, step, limits), sha)
  {
    hide Fold, FoldOn, Framed, Simulates, Orderly, Enabled, Next, Reports, Polite, Courteous, Named, LatestInput;
    ReportsArePolite(frames, r, step, command, limits, sha);
    ReportsAreNamed(frames, r, step, command, limits, sha);
    var r', t', attempted', lastInput' :=
      StepSimulates(r, Fold(frames), Move(step, command), |frames| + 1, Named(frames), LatestInput(frames), limits,
                    sha);
    FoldSplits(frames, Framed(Reports(r, step, limits, sha), |frames| + 1, command));
  }

  // ---- The network's confirmations ------------------------------------------------------------

  predicate OfNetwork(event: Event) {
    || event.NetworkConfigured? || event.OutageActivated? || event.NetworkRestored? || event.AgentStopped?
    || event.RequestAttempted? || event.RequestSucceeded? || event.RequestUnavailable? || event.AssertionsEvaluated?
  }

  /** An event of the network does not concern the runtime. */
  lemma {:induction false} NetworkIsCarried(frames: seq<EventFrame>, frame: EventFrame, r: Runtime,
                                            sha: string -> string)
    requires StandsFor(frames, r, sha) && OfNetwork(frame.event) && Courteous(frames + [frame])
    ensures StandsFor(frames + [frame], r, sha)
  {
    hide Fold, Simulates, Courteous, Named, LatestInput;
    LastFrame(frames, frame);
    var t, t' := Fold(frames), Fold(frames + [frame]);
    assert t' == t.(activations := t'.activations, restorations := t'.restorations, configured := t'.configured) by {
      NetworkPush(t, Named(frames), LatestInput(frames), frame);
    }
    NetworkSimulates(r, t, t', Named(frames), LatestInput(frames), sha);
    assert Named(frames) + {} == Named(frames);
  }

  lemma {:induction false} NetworkPush(t: Trace, named: set<nat>, latest: nat, frame: EventFrame)
    requires OfNetwork(frame.event) && Welcome(t, named, latest, frame)
    ensures var t' := t.Push(frame);
            t' == t.(activations := t'.activations, restorations := t'.restorations, configured := t'.configured)
  {}

  lemma {:induction false} NetworkEventsAreCarried(frames: seq<EventFrame>, tail: seq<Event>, command: nat, r: Runtime,
                                                   sha: string -> string)
    requires Courteous(frames) ==> StandsFor(frames, r, sha)
    requires forall i | 0 <= i < |tail| :: OfNetwork(tail[i])
    ensures var all := frames + Framed(tail, |frames| + 1, command);
            Courteous(all) ==> StandsFor(all, r, sha)
    decreases |tail|
  {
    hide StandsFor, Courteous;
    var all := frames + Framed(tail, |frames| + 1, command);
    if tail == [] {
      assert all == frames;
    } else {
      var n := |tail| - 1;
      var init := frames + Framed(tail[..n], |frames| + 1, command);
      var frame := EventFrame(PROTOCOL_VERSION, |frames| + 1 + n, command, tail[n], NO_DIAGNOSTICS);
      NetworkEventsAreCarried(frames, tail[..n], command, r, sha);
      assert all == init + [frame];
      if Courteous(all) {
        CourteousBefore(init, [frame]);
        NetworkIsCarried(init, frame, r, sha);
      }
    }
  }

  // ---- What it comes to ----------------------------------------------------------------------

  /** Nothing is wrong with the trace but lines that are too long. */
  predicate OnlyLongLines(t: Trace) {
    t.violations == [] && forall k | k in t.invocations :: forall v | v in t.invocations[k].violations ::
        BoundViolation(v)
  }

  lemma {:induction false} StandingIsClean(frames: seq<EventFrame>, r: Runtime, sha: string -> string)
    requires StandsFor(frames, r, sha)
    ensures OnlyLongLines(Fold(frames))
  {
    hide KnownOnly, TotalsMatch, LiveAgrees;
  }

  lemma {:induction false} NothingStands(sha: string -> string)
    ensures StandsFor([], IDLE, sha) && Courteous([])
  {}
}
