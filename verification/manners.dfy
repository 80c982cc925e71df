/** A command stream that keeps its regime makes the emitted frames keep the promises of the host. */
module Manners {
  import opened Protocol
  import opened Traces
  import opened Regimes
  import opened Courtesy

  /** What a switch of the network reports. */
  function SwitchReport(command: Command): seq<Event> {
    match command
    case ConfigureNetwork(iface, cidr, gateway) => [NetworkConfigured(iface, cidr, gateway)]
    case ActivateOutage(peer) => [OutageActivated(peer, ProhibitRule(peer))]
    case RestoreNetwork(peer) => [NetworkRestored(peer)]
    case _ => []
  }

  /** The trace has seen no more of the network than the regime. */
  predicate NetworkFollows(t: Trace, regime: Regime) {
    && (!regime.configured ==> t.configured.None?) && (!regime.activated ==> t.activations == [])
    && (!regime.activated || regime.outage ==> t.restorations == []) && (regime.outage ==> regime.activated)
  }

  /** The frames keep the promises, and have named, terminated and acknowledged no more than the commands
      up to `latest` asked for. */
  ghost predicate Mannerly(frames: seq<EventFrame>, regime: Regime, latest: nat) {
    && Courteous(frames) && Named(frames) <= regime.started && LatestInput(frames) <= latest
    && (forall k | Fold(frames).HasTerminated(k) :: k in regime.terminated)
    && NetworkFollows(Fold(frames), regime)
  }

  /** The events are an answer to the command. */
  predicate AnswersTo(command: Command, more: seq<Event>) {
    match command
    case Start(k, _) => |more| == 1 && (more[0].WorkloadStarted? || more[0].LaunchFailed?) && more[0].invocation == k
    case StdinWrite(_, _, _) => |more| == 1 && more[0].InputAccepted?
    case StdinEof(_) => |more| == 1 && more[0].InputAccepted?
    case Terminate(k) => |more| == 1 && more[0].TerminationRequested? && more[0].invocation == k
    case Shutdown => Unasked(more)
    case _ => more == SwitchReport(command)
  }

  lemma {:induction false} FrameIsMannerly(frames: seq<EventFrame>, frame: EventFrame, regime: Regime, command: Command,
                                           id: nat)
    requires id >= 1 && Mannerly(frames, regime, id - 1) && regime.Permits(command)
    requires frame.commandId == id && !command.Shutdown? && AnswersTo(command, [frame.event])
    ensures Mannerly(frames + [frame], regime.After(command), id)
  {
    hide Fold, Named, LatestInput, Courteous, Unhex;
    LastFrame(frames, frame);
    AnswerPushes(Fold(frames), frame, command);
  }

  /** What an answer changes of the trace, as far as manners go. */
  lemma {:induction false} AnswerPushes(t: Trace, frame: EventFrame, command: Command)
    requires !command.Shutdown? && AnswersTo(command, [frame.event])
    ensures var t' := t.Push(frame);
            && (forall k | t'.HasTerminated(k) :: t.HasTerminated(k) || command == Terminate(k))
            && (t.configured.None? && !command.ConfigureNetwork? ==> t'.configured.None?)
            && (t.activations == [] && !command.ActivateOutage? ==> t'.activations == [])
            && (t.restorations == [] && !command.RestoreNetwork? ==> t'.restorations == [])
  {
    hide Trace.Started, Trace.HasExited, Trace.HasCleanedUp, Trace.HasLaunchFailed, Trace.ExitRecordedAfter;
    assert command.Terminate? || t.Push(frame).terminations == t.terminations;
  }

  lemma {:induction false} QuietPushes(t: Trace, frame: EventFrame)
    requires !Loud(frame.event)
    ensures var t' := t.Push(frame);
            && t'.terminations == t.terminations && t'.configured == t.configured
            && t'.activations == t.activations && t'.restorations == t.restorations
  {
    hide Trace.Started, Trace.HasExited, Trace.HasCleanedUp, Trace.HasLaunchFailed, Trace.ExitRecordedAfter;
  }

  /** Events that no command causes need no permission. */
  lemma {:induction false} QuietIsMannerly(frames: seq<EventFrame>, more: seq<Event>, regime: Regime, latest: nat,
                                           id: nat)
    requires Mannerly(frames, regime, latest) && Unasked(more)
    ensures Mannerly(frames + Framed(more, |frames| + 1, id), regime, latest)
    decreases |more|
  {
    hide Fold, Named, LatestInput, Courteous, Trace.Push;
    var all := frames + Framed(more, |frames| + 1, id);
    if more == [] {
      assert all == frames;
    } else {
      var n := |more| - 1;
      QuietIsMannerly(frames, more[..n], regime, latest, id);
      var init := frames + Framed(more[..n], |frames| + 1, id);
      var frame := EventFrame(PROTOCOL_VERSION, |frames| + 1 + n, id, more[n], NO_DIAGNOSTICS);
      assert all == init + [frame];
      LastFrame(init, frame);
      QuietPushes(Fold(init), frame);
    }
  }

  /** The answer to a permitted command keeps the manners. */
  lemma {:induction false} AnswerIsMannerly(frames: seq<EventFrame>, more: seq<Event>, regime: Regime, command: Command,
                                            id: nat)
    requires id >= 1 && Mannerly(frames, regime, id - 1) && regime.Permits(command) && AnswersTo(command, more)
    ensures Mannerly(frames + Framed(more, |frames| + 1, id), regime.After(command), id)
  {
    hide Fold, Named, LatestInput, Courteous, Framed, Regime.Permits;
    if command.Shutdown? {
      QuietIsMannerly(frames, more, regime, id - 1, id);
    } else {
      assert |more| == 1 by { SwitchesReportOnce(regime, command); }
      assert more == [more[0]];
      FramedOne(more[0], |frames| + 1, id);
      FrameIsMannerly(frames, EventFrame(PROTOCOL_VERSION, |frames| + 1, id, more[0], NO_DIAGNOSTICS), regime, command,
                      id);
    }
  }

  lemma {:induction false} SwitchesReportOnce(regime: Regime, command: Command)
    requires regime.Permits(command) && !command.Shutdown?
    ensures forall more | AnswersTo(command, more) :: |more| == 1
  {}

  lemma NothingIsMannerly()
    ensures Mannerly([], NEW_REGIME, 0)
  {}
}
