/** What a stream of commands must respect for the guest to accept it. */
module Regimes {
  import opened Protocol

  /** Where a command stream has brought the guest: its network, the input each invocation was sent, and
      which invocations were started and terminated. */
  datatype Regime = Regime(configured: bool, activated: bool, outage: bool, offsets: map<nat, nat>, started: set<nat>,
                           terminated: set<nat>, stopped: bool)
  {
    function Offset(invocation: nat): nat {
      if invocation in offsets then offsets[invocation] else 0
    }

    /** The command meets every condition the agent or the runtime would refuse it for: the network is
        configured once and with the fixed profile, the outage begins once and ends only while it is
        in force, nothing is shut down during it, and each input frame is a readable, non-empty,
        bounded continuation of what was sent before. Nothing is started or terminated twice, which
        the checker insists on. */
    predicate Permits(command: Command) {
      !stopped &&
      match command
      case ConfigureNetwork(iface, cidr, gateway) =>
        !configured && iface == NETWORK_INTERFACE && cidr == GUEST_CIDR && gateway == FIXTURE_PEER
      case ActivateOutage(peer) => configured && !activated && !outage && peer == FIXTURE_PEER + "/32"
      case RestoreNetwork(peer) => configured && outage && peer == FIXTURE_PEER + "/32"
      case StdinWrite(invocation, offset, hex) =>
        var data := Unhex(hex, MAX_STDIN_FRAME_BYTES);
        data.Some? && data.value != [] && offset == Offset(invocation)
      case Start(invocation, _) => configured && invocation !in started
      case Terminate(invocation) => configured && invocation !in terminated
      case StdinEof(_) => configured
      case Shutdown => !outage
      case Request(_, _, _) => false
      case Check(_, _) => false
    }

    /** What the agent and the runtime insist on by themselves. They do not remember that an outage has
        been and gone, and processes do not wait for the network. */
    predicate Insists(command: Command) {
      match command
      case ConfigureNetwork(iface, cidr, gateway) =>
        !configured && iface == NETWORK_INTERFACE && cidr == GUEST_CIDR && gateway == FIXTURE_PEER
      case ActivateOutage(peer) => configured && !outage && peer == FIXTURE_PEER + "/32"
      case RestoreNetwork(peer) => configured && outage && peer == FIXTURE_PEER + "/32"
      case StdinWrite(invocation, offset, hex) =>
        var data := Unhex(hex, MAX_STDIN_FRAME_BYTES);
        data.Some? && data.value != [] && offset == Offset(invocation)
      case Shutdown => !outage
      case Request(_, _, _) => configured
      case _ => true
    }

    function After(command: Command): Regime {
      match command
      case ConfigureNetwork(_, _, _) => this.(configured := true)
      case ActivateOutage(_) => this.(activated := true, outage := true)
      case RestoreNetwork(_) => this.(outage := false)
      case StdinWrite(invocation, _, hex) =>
        var data := Unhex(hex, MAX_STDIN_FRAME_BYTES);
        this.(offsets := offsets[invocation := Offset(invocation) + if data.Some? then |data.value| else 0])
      case Start(invocation, _) => this.(started := started + {invocation})
      case Terminate(invocation) => this.(terminated := terminated + {invocation})
      case Shutdown => this.(stopped := true)
      case _ => this
    }
  }

  const NEW_REGIME := Regime(false, false, false, map[], {}, {}, false)

  function Follow(sent: seq<CommandFrame>): Regime {
    if sent == [] then NEW_REGIME else Follow(sent[..|sent| - 1]).After(sent[|sent| - 1].command)
  }

  /** Every command was permitted when it was sent, and commands are numbered from one. */
  predicate WellDriven(sent: seq<CommandFrame>) {
    forall k | 0 <= k < |sent| ::
      && sent[k].protocolVersion == PROTOCOL_VERSION && sent[k].commandId == k + 1
      && Follow(sent[..k]).Permits(sent[k].command)
  }

  /** A well-driven stream was well driven before its last command, which was permitted. */
  lemma WellDrivenLast(sent: seq<CommandFrame>, frame: CommandFrame)
    requires WellDriven(sent + [frame])
    ensures WellDriven(sent) && frame.commandId == |sent| + 1 && Follow(sent).Permits(frame.command)
  {
    hide Regime.Permits, Regime.After, Follow;
    var all := sent + [frame];
    assert all[..|sent|] == sent && all[|sent|] == frame;
    forall k | 0 <= k < |sent| ensures all[..k] == sent[..k] && all[k] == sent[k] {}
  }

  lemma WellDrivenBefore(sent: seq<CommandFrame>, k: nat)
    requires WellDriven(sent) && k <= |sent|
    ensures WellDriven(sent[..k])
  {
    hide Regime.Permits, Regime.After, Follow;
    forall i | 0 <= i < k ensures sent[..k][..i] == sent[..i] && sent[..k][i] == sent[i] {}
  }

  lemma FollowAppend(sent: seq<CommandFrame>, frame: CommandFrame)
    ensures Follow(sent + [frame]) == Follow(sent).After(frame.command)
    ensures (&& WellDriven(sent) && frame.protocolVersion == PROTOCOL_VERSION && frame.commandId == |sent| + 1
             && Follow(sent).Permits(frame.command)) ==> WellDriven(sent + [frame])
  {
    hide Regime.Permits, Regime.After;
    var all := sent + [frame];
    assert all[..|sent|] == sent;
    forall k | 0 <= k < |sent| ensures all[..k] == sent[..k] && all[k] == sent[k] {}
  }
}
