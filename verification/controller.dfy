/** The host's end of the control channel while a workload runs. */
module Controller {
  import opened Protocol
  import opened Traces

  /** The virtual machine, seen as frames sent and frames received. `guest` is whatever the guest
      answers to the commands it has been sent; how much of it has arrived when the host looks, and
      whether the channel breaks, is open. */
  class Vm {
    const guest: Replies
    const reliable: bool
    var sent: seq<CommandFrame>
    var queue: seq<EventFrame>

    constructor (guest: Replies, reliable: bool)
      ensures sent == [] && queue == [] && this.guest == guest && this.reliable == reliable
    {
      this.guest, this.reliable := guest, reliable;
      sent, queue := [], [];
    }

    method Send(frame: CommandFrame) returns (ok: bool)
      modifies this
      ensures sent == old(sent) + [frame]
      ensures queue == old(queue) + if ok then guest(sent) else []
      ensures reliable ==> ok
    {
      var works: bool := *;
      ok := works || reliable;
      sent := sent + [frame];
      if ok {
        queue := queue + guest(sent);
      }
    }

    /** Wait for the next frame; the deadline passes when the guest has nothing more to say. */
    method Receive() returns (frame: Option<EventFrame>)
      modifies this`queue
      ensures frame.Some? ==> old(queue) == [frame.value] + queue
      ensures frame.None? ==> queue == old(queue) && (reliable ==> queue == [])
    {
      var works: bool := *;
      if queue == [] || !(works || reliable) {
        return None;
      }
      frame := Some(queue[0]);
      queue := queue[1..];
    }

    /** Take a frame that has already arrived, if any has. */
    method TryReceive() returns (ok: bool, frame: Option<EventFrame>)
      modifies this`queue
      ensures frame.Some? ==> ok && old(queue) == [frame.value] + queue
      ensures frame.None? ==> queue == old(queue)
      ensures reliable ==> ok
    {
      var works: bool, arrived: bool := *, *;
      ok, frame := works || reliable, None;
      if ok && arrived && queue != [] {
        frame := Some(queue[0]);
        queue := queue[1..];
      }
    }

    /** The channel must close with nothing left on it. */
    method FinishEvents() returns (ok: bool)
      ensures ok ==> queue == []
      ensures reliable ==> (ok <==> queue == [])
    {
      var works: bool := *;
      ok := queue == [] && (works || reliable);
    }
  }

  predicate Terminal(event: Event) {
    event.TerminationRequested? || event.WorkloadExited? || event.LaunchFailed? || event.CleanupComplete?
  }

  function Normalized(frames: seq<EventFrame>): (events: seq<NormalizedEvent>)
    ensures |events| == |frames|
    ensures forall i | 0 <= i < |frames| :: events[i] == frames[i].Normalize()
  {
    if frames == [] then [] else Normalized(frames[..|frames| - 1]) + [frames[|frames| - 1].Normalize()]
  }

  /** A recorded event keeps the version, the number, the command and the event of its frame. */
  predicate Keeps(event: NormalizedEvent, frame: EventFrame) {
    && event.protocolVersion == frame.protocolVersion && event.eventId == frame.eventId
    && event.commandId == frame.commandId && event.event == frame.event
  }

  /** The recorded events are those of the frames, one for one. */
  predicate Records(events: seq<NormalizedEvent>, frames: seq<EventFrame>) {
    |events| == |frames| && forall i | 0 <= i < |frames| :: Keeps(events[i], frames[i])
  }

  /** Normalizing keeps exactly those four fields: it gives the recorded events and no others. */
  lemma NormalizedExact(events: seq<NormalizedEvent>, frames: seq<EventFrame>)
    ensures events == Normalized(frames) <==> Records(events, frames)
  {
    assert forall i | 0 <= i < |frames| :: Keeps(Normalized(frames)[i], frames[i]);
    if Records(events, frames) {
      forall i | 0 <= i < |frames| ensures events[i] == Normalized(frames)[i] {
        assert Keeps(events[i], frames[i]) && Keeps(Normalized(frames)[i], frames[i]);
      }
    }
  }

  /** Two frames normalize alike exactly when they agree on those fields. */
  lemma NormalizeAlike(one: EventFrame, two: EventFrame)
    ensures one.Normalize() == two.Normalize() <==>
            && one.protocolVersion == two.protocolVersion && one.eventId == two.eventId
            && one.commandId == two.commandId && one.event == two.event
  {}

  /** The invocation runs and has done nothing that the checker must reject. */
  predicate Healthy(trace: Trace, invocation: nat) {
    && !trace.HasExited(invocation) && !trace.HasLaunchFailed(invocation)
    && trace.StderrBytes(invocation) == 0 && !trace.OverBoundLine(invocation)
  }

  // ---- What a wait finds in the frames to come -------------------------------------------------

  /** The first `n` frames continue a stream whose next number is `next`, under commands below `issued`. */
  predicate Arrive(queue: seq<EventFrame>, next: nat, issued: nat, n: nat) {
    n <= |queue| && forall j | 0 <= j < n ::
      queue[j].protocolVersion == 1 && queue[j].eventId == next + j && 0 < queue[j].commandId < issued
  }

  /** Frame `n` is the awaited event under its command; those before it are output, or the course of a
      workload where that is allowed, under no later command. */
  ghost predicate ExpectedAt(queue: seq<EventFrame>, commandId: nat, lenient: bool, wanted: Event -> bool, n: nat) {
    && n < |queue| && wanted(queue[n].event) && queue[n].commandId == commandId
    && forall j | 0 <= j < n ::
         && !wanted(queue[j].event) && queue[j].commandId <= commandId
         && (queue[j].event.WorkloadOutput? || (lenient && InCourse(queue[j].event)))
  }

  /** A termination, an exit, a failed launch or a cleanup. */
  predicate InCourse(event: Event) {
    match event
    case TerminationRequested(_, _) => true
    case WorkloadExited(_, _, _, _, _, _, _) => true
    case LaunchFailed(_, _) => true
    case CleanupComplete(_, _) => true
    case _ => false
  }

  predicate OutputBefore(queue: seq<EventFrame>, n: nat) {
    n < |queue| && forall j | 0 <= j < n :: queue[j].event.WorkloadOutput?
  }

  /** Frame `n`, after output alone, is the acknowledgement. */
  predicate AcceptedAt(queue: seq<EventFrame>, commandId: nat, invocation: nat, start: nat, size: nat, n: nat) {
    && OutputBefore(queue, n) && queue[n].commandId == commandId
    && queue[n].event == InputAccepted(invocation, start + size, size, false)
  }

  /** Frame `n`, after output alone, ends the invocation. */
  predicate EndedAt(queue: seq<EventFrame>, invocation: nat, n: nat) {
    && OutputBefore(queue, n) && (queue[n].event.WorkloadExited? || queue[n].event.LaunchFailed?)
    && queue[n].event.invocation == invocation
  }

  /** Waiting for an exit is over before it comes: the invocation is not healthy, or has printed more than the
      `count` lines consumed. */
  predicate WaitFails(trace: Trace, invocation: nat, count: nat) {
    || !Healthy(trace, invocation) || |trace.StreamsOf(invocation).stdout.lines| > count
    || trace.StreamsOf(invocation).stdout.pending != ""
  }

  predicate FitsNext(frame: EventFrame, next: nat, issued: nat) {
    frame.protocolVersion == 1 && frame.eventId == next && 0 < frame.commandId < issued
  }

  /** How a wait ends: with the awaited event, given up because of what was printed, or lost. */
  datatype Wait = Came | GaveUp | Lost

  /** The wait for an exit on a reliable channel: output that fails nothing and the course of other
      invocations are read over. */
  function ExitWait(raw: seq<EventFrame>, queue: seq<EventFrame>, issued: nat, commandId: nat, k: nat, count: nat): Wait
    decreases |queue|
  {
    if queue == [] || !FitsNext(queue[0], |raw| + 1, issued) then Lost
    else
      var f, all := queue[0], raw + [queue[0]];
      if f.event.WorkloadExited? && f.event.invocation == k then (if f.commandId == commandId then Came else Lost)
      else if f.event.WorkloadOutput? then
        if WaitFails(Fold(all), k, count) then GaveUp else ExitWait(all, queue[1..], issued, commandId, k, count)
      else if InCourse(f.event) then ExitWait(all, queue[1..], issued, commandId, k, count)
      else Lost
  }

  /** The frames taken in when a wait for a line is over, on a reliable channel. */
  function LineWait(raw: seq<EventFrame>, queue: seq<EventFrame>, issued: nat, k: nat,
                    count: nat): Option<seq<EventFrame>>
    decreases |queue|
  {
    if IsOver(Fold(raw), k, count) then Some(raw)
    else if queue == [] || !FitsNext(queue[0], |raw| + 1, issued) then None
    else LineWait(raw + [queue[0]], queue[1..], issued, k, count)
  }

  class WorkloadController {
    const vm: Vm
    const trace: WorkloadTrace
    var nextCommandId: nat
    var nextEventId: nat
    var raw: seq<EventFrame>
    var events: seq<NormalizedEvent>
    var consumed: map<nat, nat>

    /** The trace is the fold of everything received, which is numbered from one; commands are
        numbered from one too. */
    ghost predicate Valid()
      reads this, vm, trace
    {
      && nextCommandId == |vm.sent| + 1 && nextEventId == |raw| + 1
      && Sequential(raw) && events == Normalized(raw) && trace.State() == Fold(raw)
      && (forall i | 0 <= i < |raw| :: raw[i].protocolVersion == PROTOCOL_VERSION)
    }

    constructor (vm: Vm)
      requires vm.sent == []
      ensures Valid() && this.vm == vm && fresh(trace) && raw == [] && consumed == map[]
    {
      this.vm := vm;
      trace := new WorkloadTrace();
      nextCommandId, nextEventId, raw, events, consumed := 1, 1, [], [], map[];
    }

    function Consumed(invocation: nat): nat
      reads this
    {
      if invocation in consumed then consumed[invocation] else 0
    }

    predicate Envelope(frame: EventFrame)
      reads this
    {
      frame.protocolVersion == PROTOCOL_VERSION && frame.eventId == nextEventId && 0 < frame.commandId < nextCommandId
    }

    /** Assign a command identifier and send the command. */
    method Issue(command: Command) returns (ok: bool, commandId: nat)
      requires Valid()
      modifies this`nextCommandId, vm
      ensures Valid() && commandId == old(|vm.sent|) + 1
      ensures vm.sent == old(vm.sent) + [CommandFrame(PROTOCOL_VERSION, commandId, command)]
      ensures vm.queue == old(vm.queue) + if ok then vm.guest(vm.sent) else []
      ensures vm.reliable ==> ok
    {
      commandId := nextCommandId;
      nextCommandId := nextCommandId + 1;
      ok := vm.Send(CommandFrame(PROTOCOL_VERSION, commandId, command));
    }

    /** Fold one received frame, which must continue the stream and name a command that was issued. */
    method Absorb(frame: EventFrame) returns (ok: bool)
      requires Valid()
      modifies this`nextEventId, this`raw, this`events, trace
      ensures Valid() && ok == old(Envelope(frame))
      ensures raw == old(raw) + if ok then [frame] else []
    {
      if !Envelope(frame) {
        return false;
      }
      nextEventId := nextEventId + 1;
      trace.Push(frame);
      assert (raw + [frame])[..|raw|] == raw;
      raw := raw + [frame];
      events := events + [frame.Normalize()];
      ok := true;
    }

    method ReceiveOne() returns (frame: Option<EventFrame>)
      requires Valid()
      modifies this`nextEventId, this`raw, this`events, trace, vm`queue
      ensures Valid() && |vm.queue| <= old(|vm.queue|)
      ensures frame.Some? ==> old(vm.queue) == [frame.value] + vm.queue && raw == old(raw) + [frame.value]
      ensures frame.Some? ==> old(Envelope(vm.queue[0])) && nextEventId == old(nextEventId) + 1
      ensures vm.reliable && old(vm.queue) != [] && old(Envelope(vm.queue[0])) ==> frame.Some?
    {
      frame := vm.Receive();
      if frame.Some? {
        var ok := Absorb(frame.value);
        if !ok {
          frame := None;
        }
      }
    }

    /** Fold every event that has already arrived. */
    method Drain() returns (ok: bool)
      requires Valid()
      modifies this`nextEventId, this`raw, this`events, trace, vm`queue
      ensures Valid()
      ensures ok ==> raw + vm.queue == old(raw + vm.queue)
      ensures vm.reliable && old(vm.queue) == [] ==> ok && raw == old(raw) && vm.queue == []
    {
      hide Fold, Normalized, Sequential;
      var frame: Option<EventFrame>;
      ok, frame := vm.TryReceive();
      while ok && frame.Some?
        invariant Valid()
        invariant ok ==> (if frame.Some? then raw + [frame.value] else raw) + vm.queue == old(raw + vm.queue)
        invariant vm.reliable && old(vm.queue) == [] ==> ok && frame.None? && raw == old(raw) && vm.queue == []
        decreases |vm.queue|, ok && frame.Some?
      {
        ok := Absorb(frame.value);
        if ok {
          ok, frame := vm.TryReceive();
        }
      }
    }

    /** Read until the awaited event, folding output frames and, where allowed, lifecycle events. On a
        reliable channel it is found exactly when it comes next but for such frames. */
    method Expect(commandId: nat, lenient: bool, wanted: Event -> bool) returns (ok: bool)
      requires Valid()
      modifies this`nextEventId, this`raw, this`events, trace, vm`queue
      ensures Valid()
      ensures ok ==> |raw| > old(|raw|) && wanted(raw[|raw| - 1].event) && raw[|raw| - 1].commandId == commandId
      ensures vm.reliable ==>
                (ok <==> exists n: nat :: && ExpectedAt(old(vm.queue), commandId, lenient, wanted, n)
                                          && Arrive(old(vm.queue), old(nextEventId), nextCommandId, n + 1))
      ensures ok ==> exists n: nat :: && ExpectedAt(old(vm.queue), commandId, lenient, wanted, n)
                                      && raw == old(raw) + old(vm.queue)[..n + 1] && vm.queue == old(vm.queue)[n + 1..]
      ensures vm.reliable && old(vm.queue) != [] && old(Envelope(vm.queue[0]))
              && wanted(old(vm.queue)[0].event) && old(vm.queue)[0].commandId == commandId ==>
                ok && raw == old(raw) + [old(vm.queue)[0]] && vm.queue == old(vm.queue)[1..]
    {
      hide Fold, Normalized, Sequential;
      ghost var queue, m := vm.queue, 0;
      FirstExpected(queue, commandId, lenient, wanted, nextEventId, nextCommandId);
      while true
        invariant Valid() && |raw| >= old(|raw|) && m <= |queue| && vm.queue == queue[m..]
                  && raw == old(raw) + queue[..m]
        invariant nextEventId == old(nextEventId) + m && Arrive(queue, old(nextEventId), nextCommandId, m)
        invariant forall j | 0 <= j < m ::
                    && !wanted(queue[j].event) && queue[j].commandId <= commandId
                    && (queue[j].event.WorkloadOutput? || (lenient && InCourse(queue[j].event)))
        decreases |vm.queue|
      {
        var frame := ReceiveOne();
        if frame.None? {
          return false;
        }
        assert frame.value == queue[m] && queue[..m] + [queue[m]] == queue[..m + 1]
               && queue[m..][1..] == queue[m + 1..];
        if wanted(frame.value.event) {
          assert frame.value.commandId == commandId ==> ExpectedAt(queue, commandId, lenient, wanted, m);
          return frame.value.commandId == commandId;
        }
        if frame.value.commandId > commandId
           || (!frame.value.event.WorkloadOutput? && !(lenient && Terminal(frame.value.event))) {
          return false;
        }
        m := m + 1;
      }
    }

    /** Read until the input is acknowledged, or until the invocation ends first; on a reliable channel
        exactly when that comes next but for output. */
    method AwaitInputAccepted(commandId: nat, invocation: nat, start: nat, size: nat) returns (ok: bool, accepted: bool)
      requires Valid()
      modifies this`nextEventId, this`raw, this`events, trace, vm`queue
      ensures Valid()
      ensures ok ==> raw != [] && (var last := raw[|raw| - 1];
                if accepted then last.event == InputAccepted(invocation, start + size, size, false)
                                 && last.commandId == commandId
                else (last.event.WorkloadExited? || last.event.LaunchFailed?) && last.event.invocation == invocation)
      ensures vm.reliable ==>
                (ok && accepted <==> exists n: nat ::
                   && AcceptedAt(old(vm.queue), commandId, invocation, start, size, n)
                                                      && Arrive(old(vm.queue), old(nextEventId), nextCommandId, n + 1))
      ensures vm.reliable ==>
                (ok && !accepted <==> exists n: nat :: && EndedAt(old(vm.queue), invocation, n)
                                                       && Arrive(old(vm.queue), old(nextEventId), nextCommandId, n + 1))
      ensures vm.reliable && old(vm.queue) != [] && old(Envelope(vm.queue[0]))
              && old(vm.queue)[0].commandId == commandId
              && old(vm.queue)[0].event == InputAccepted(invocation, start + size, size, false) ==>
                ok && accepted && raw == old(raw) + [old(vm.queue)[0]] && vm.queue == old(vm.queue)[1..]
    {
      hide Fold, Sequential, Normalized;
      ghost var queue, m := vm.queue, 0;
      FirstAccepted(queue, commandId, invocation, start, size, nextEventId, nextCommandId);
      while true
        invariant Valid() && m <= |queue| && vm.queue == queue[m..] && raw == old(raw) + queue[..m]
        invariant nextEventId == old(nextEventId) + m && Arrive(queue, old(nextEventId), nextCommandId, m)
        invariant forall j | 0 <= j < m :: queue[j].event.WorkloadOutput?
        decreases |vm.queue|
      {
        var frame := ReceiveOne();
        if frame.None? {
          return false, false;
        }
        assert frame.value == queue[m] && queue[..m] + [queue[m]] == queue[..m + 1]
               && queue[m..][1..] == queue[m + 1..];
        assert OutputBefore(queue, m) && Arrive(queue, old(nextEventId), nextCommandId, m + 1);
        match frame.value.event
        case InputAccepted(actual, offset, bytes, eof) =>
          accepted := frame.value.commandId == commandId && actual == invocation && !eof && offset == start + size
                      && bytes == size;
          assert accepted ==> AcceptedAt(queue, commandId, invocation, start, size, m);
          return accepted, accepted;
        case WorkloadExited(actual, _, _, _, _, _, _) =>
          assert actual == invocation ==> EndedAt(queue, invocation, m);
          return actual == invocation, false;
        case LaunchFailed(actual, _) =>
          assert actual == invocation ==> EndedAt(queue, invocation, m);
          return actual == invocation, false;
        case WorkloadOutput(_, _, _, _, _) =>
          m := m + 1;
        case _ =>
          return false, false;
      }
    }

    /** Every expected line was consumed before an exit is awaited, so another line or a pending byte
        is a failure already. */
    predicate ExitWaitFailed(invocation: nat)
      reads this, trace
    {
      || !Healthy(trace.State(), invocation)
      || trace.State().StdoutLineCount(invocation) > Consumed(invocation)
      || trace.State().StdoutPending(invocation)
    }

    /** Read until the invocation exits, or until its output has failed already. */
    method AwaitExit(commandId: nat, invocation: nat) returns (ok: bool, exited: bool)
      requires Valid()
      modifies this`nextEventId, this`raw, this`events, trace, vm`queue
      ensures Valid()
      ensures ok && exited ==> && raw != [] && raw[|raw| - 1].event.WorkloadExited?
                               && raw[|raw| - 1].event.invocation == invocation
                               && raw[|raw| - 1].commandId == commandId
      ensures ok && !exited ==> ExitWaitFailed(invocation)
      ensures vm.reliable ==>
                var wait := if WaitFails(Fold(old(raw)), invocation, Consumed(invocation)) then GaveUp
                            else ExitWait(old(raw), old(vm.queue), nextCommandId, commandId, invocation,
                                          Consumed(invocation));
                (ok && exited <==> wait == Came) && (ok && !exited <==> wait == GaveUp)
      ensures vm.reliable && old(!ExitWaitFailed(invocation)) && old(vm.queue) != [] && old(Envelope(vm.queue[0]))
              && old(vm.queue)[0].event.WorkloadExited? && old(vm.queue)[0].event.invocation == invocation
              && old(vm.queue)[0].commandId == commandId ==>
                ok && exited && raw == old(raw) + [old(vm.queue)[0]] && vm.queue == old(vm.queue)[1..]
    {
      hide Fold, Normalized, Sequential, Healthy;
      if ExitWaitFailed(invocation) {
        return true, false;
      }
      ghost var count, id := Consumed(invocation), nextCommandId;
      ghost var wait := ExitWait(raw, vm.queue, id, commandId, invocation, count);
      var first := true;
      while true
        invariant Valid() && Consumed(invocation) == count && nextCommandId == id
        invariant wait == ExitWait(raw, vm.queue, id, commandId, invocation, count)
        invariant first ==> raw == old(raw) && vm.queue == old(vm.queue) && nextEventId == old(nextEventId)
        invariant !first ==> !(vm.reliable && old(vm.queue) != [] && old(Envelope(vm.queue[0]))
                               && old(vm.queue)[0].event.WorkloadExited?
                               && old(vm.queue)[0].event.invocation == invocation)
        decreases |vm.queue|
      {
        ghost var queue := vm.queue;
        var frame := ReceiveOne();
        if frame.None? {
          return false, false;
        }
        assert queue[1..] == vm.queue && queue[0] == frame.value;
        first := false;
        var event := frame.value.event;
        if event.WorkloadExited? && event.invocation == invocation {
          exited := frame.value.commandId == commandId;
          return exited, exited;
        }
        if event.WorkloadOutput? {
          if ExitWaitFailed(invocation) {
            return true, false;
          }
        } else if !Terminal(event) {
          return false, false;
        }
      }
    }

    /** Whether the invocation may still be sent a process command, after folding what has arrived. */
    method Live(invocation: nat) returns (ok: bool, live: bool)
      requires Valid()
      modifies this`nextEventId, this`raw, this`events, trace, vm`queue
      ensures Valid() && live == Healthy(Fold(raw), invocation)
      ensures ok ==> raw + vm.queue == old(raw + vm.queue)
      ensures vm.reliable && old(vm.queue) == [] ==>
                ok && raw == old(raw) && vm.queue == [] && live == Healthy(Fold(old(raw)), invocation)
    {
      ok := Drain();
      live := Healthy(trace.State(), invocation);
    }

    /** Send one input line and wait for its acknowledgement. */
    method SendInput(invocation: nat, offset: nat, text: Bytes) returns (ok: bool, went: bool)
      requires Valid()
      modifies this`nextCommandId, this`nextEventId, this`raw, this`events, trace, vm
      ensures Valid()
      ensures vm.sent == old(vm.sent) + [CommandFrame(PROTOCOL_VERSION, old(|vm.sent|) + 1,
                                                      StdinWrite(invocation, offset, Hex(text)))]
      ensures went ==> && ok && raw != []
                       && raw[|raw| - 1].event == InputAccepted(invocation, offset + |text|, |text|, false)
      ensures var frame := CommandFrame(PROTOCOL_VERSION, old(|vm.sent|) + 1,
                                        StdinWrite(invocation, offset, Hex(text)));
              var reply := vm.guest(old(vm.sent) + [frame]);
              vm.reliable && old(vm.queue) == [] && reply != []
              && IsNext(reply[0], old(raw), frame)
                 && reply[0].event == InputAccepted(invocation, offset + |text|, |text|, false) ==>
                ok && went && raw == old(raw) + [reply[0]] && vm.queue == reply[1..]
    {
      hide Fold, Hex;
      went := false;
      var hex := EncodeBytes(text);
      var commandId;
      ok, commandId := Issue(StdinWrite(invocation, offset, hex));
      if ok {
        ok, went := AwaitInputAccepted(commandId, invocation, offset, |text|);
        went := ok && went;
      }
    }

    /** Send one input line to a healthy invocation and wait for its acknowledgement. */
    method WriteStdin(invocation: nat, offset: nat, text: Bytes) returns (ok: bool, went: bool)
      requires Valid()
      modifies this`nextCommandId, this`nextEventId, this`raw, this`events, trace, vm
      ensures Valid()
      ensures vm.sent == old(vm.sent) ||
              vm.sent == old(vm.sent) + [CommandFrame(PROTOCOL_VERSION, old(|vm.sent|) + 1,
                                                      StdinWrite(invocation, offset, Hex(text)))]
      ensures went ==> && ok && vm.sent != old(vm.sent)
                       && raw != [] && raw[|raw| - 1].event == InputAccepted(invocation, offset + |text|, |text|, false)
      ensures ok && vm.sent == old(vm.sent) ==> !Healthy(Fold(raw), invocation)
      ensures var frame := CommandFrame(PROTOCOL_VERSION, old(|vm.sent|) + 1,
                                        StdinWrite(invocation, offset, Hex(text)));
              var reply := vm.guest(old(vm.sent) + [frame]);
              vm.reliable && old(vm.queue) == [] && Healthy(Fold(old(raw)), invocation) && reply != []
              && IsNext(reply[0], old(raw), frame)
                 && reply[0].event == InputAccepted(invocation, offset + |text|, |text|, false) ==>
                ok && went && raw == old(raw) + [reply[0]] && vm.queue == reply[1..]
    {
      hide Healthy, Fold, Hex;
      went := false;
      ok := Drain();
      if ok && Healthy(trace.State(), invocation) {
        ok, went := SendInput(invocation, offset, text);
      }
    }

    /** Whether the wait for a line is over: the invocation has failed, or has a line to compare. */
    method NextLine(invocation: nat, expected: Bytes) returns (over: bool, matched: bool)
      requires Valid()
      modifies this`consumed
      ensures Valid()
      ensures over == IsOver(Fold(raw), invocation, old(Consumed(invocation)))
      ensures over ==> matched == NextIs(Fold(raw), invocation, old(Consumed(invocation)), expected)
      ensures consumed == if over && Healthy(Fold(raw), invocation)
              then old(consumed)[invocation := old(Consumed(invocation)) + 1] else old(consumed)
    {
      over, matched := true, false;
      if !Healthy(trace.State(), invocation) {
        return;
      }
      var count := Consumed(invocation);
      over := count < trace.State().StdoutLineCount(invocation);
      if over {
        matched := trace.State().StreamsOf(invocation).stdout.lines[count].text == expected;
        consumed := consumed[invocation := count + 1];
      }
    }

    /** Read until the invocation has failed or has a next line, and compare that with `expected`. On a
        reliable channel exactly the frames up to that point are taken in. */
    method AwaitLine(invocation: nat, expected: Bytes) returns (ok: bool, matched: bool)
      requires Valid()
      modifies this`nextEventId, this`raw, this`events, this`consumed, trace, vm`queue
      ensures Valid()
      ensures ok ==> && matched == NextIs(Fold(raw), invocation, old(Consumed(invocation)), expected)
                     && IsOver(Fold(raw), invocation, old(Consumed(invocation)))
                     && raw + vm.queue == old(raw + vm.queue)
      ensures consumed == if ok && Healthy(Fold(raw), invocation)
                          then old(consumed)[invocation := old(Consumed(invocation)) + 1] else old(consumed)
      ensures vm.reliable ==>
                LineWait(old(raw), old(vm.queue), nextCommandId, invocation, old(Consumed(invocation))) ==
                if ok then Some(raw) else None
    {
      hide Healthy, Fold, IsOver, NextIs, Normalized, Sequential;
      ghost var count, id := Consumed(invocation), nextCommandId;
      ghost var wait := LineWait(raw, vm.queue, id, invocation, count);
      ok := true;
      var over;
      over, matched := NextLine(invocation, expected);
      while !over
        invariant Valid() && ok && nextCommandId == id && raw + vm.queue == old(raw + vm.queue)
        invariant over ==> matched == NextIs(Fold(raw), invocation, count, expected)
        invariant over == IsOver(Fold(raw), invocation, count)
        invariant consumed == if over && Healthy(Fold(raw), invocation) then old(consumed)[invocation := count + 1]
                              else old(consumed)
        invariant wait == LineWait(raw, vm.queue, id, invocation, count)
        decreases |vm.queue|, !over
      {
        ghost var queue, before := vm.queue, raw;
        var frame := ReceiveOne();
        if frame.None? {
          return false, false;
        }
        assert queue[1..] == vm.queue && queue[0] == frame.value;
        assert (before + [queue[0]]) + queue[1..] == before + queue;
        over, matched := NextLine(invocation, expected);
      }
    }

    /** Read until the invocation's next line, which must be `expected`. */
    method WaitForLine(invocation: nat, expected: Bytes) returns (ok: bool, matched: bool)
      requires Valid()
      modifies this`nextEventId, this`raw, this`events, this`consumed, trace, vm`queue
      ensures Valid()
      ensures ok ==> && matched == NextIs(Fold(raw), invocation, old(Consumed(invocation)), expected)
                     && IsOver(Fold(raw), invocation, old(Consumed(invocation)))
      ensures consumed == old(consumed) || consumed == old(consumed)[invocation := old(Consumed(invocation)) + 1]
      ensures vm.reliable ==>
                LineWait(old(raw), old(vm.queue), nextCommandId, invocation, old(Consumed(invocation))) ==
                if ok then Some(raw) else None
      ensures vm.reliable && old(vm.queue) != [] && old(Envelope(vm.queue[0]))
              && Fails(Fold(old(raw)), Fold(old(raw + [vm.queue[0]])), invocation, old(Consumed(invocation))) ==>
                && ok && !matched && raw == old(raw + [vm.queue[0]]) && vm.queue == old(vm.queue)[1..]
                   && consumed == old(consumed)
      ensures vm.reliable && |old(vm.queue)| == 1 && old(Envelope(vm.queue[0]))
              && Prints(Fold(old(raw)), Fold(old(raw + [vm.queue[0]])), invocation, old(Consumed(invocation)),
                        expected) ==>
                && ok && matched && raw == old(raw) + old(vm.queue) && vm.queue == []
                && consumed == old(consumed)[invocation := old(Consumed(invocation)) + 1]
    {
      hide Healthy, Fold, IsOver, NextIs, Prints, Fails, LineWait, Normalized, Sequential;
      ghost var count, queue := Consumed(invocation), vm.queue;
      if queue != [] && Envelope(queue[0]) {
        OneFrameMore(raw, queue, nextCommandId, invocation, count, expected);
      }
      ok, matched := AwaitLine(invocation, expected);
      assert |queue| == 1 ==> [queue[0]] == queue && queue[1..] == [];
      if ok && queue != [] && raw == old(raw) + [queue[0]] {
        assert old(raw) + queue == raw + queue[1..];
        assert (raw + vm.queue)[|raw|..] == vm.queue && (raw + queue[1..])[|raw|..] == queue[1..];
      }
    }
  }

  /** When the next frame decides the wait for a line, the wait takes in that frame. */
  lemma OneFrameMore(raw: seq<EventFrame>, queue: seq<EventFrame>, issued: nat, k: nat, count: nat, line: string)
    requires queue != [] && FitsNext(queue[0], |raw| + 1, issued)
    ensures var before, after := Fold(raw), Fold(raw + [queue[0]]);
            && (Fails(before, after, k, count) || Prints(before, after, k, count, line) ==>
                  LineWait(raw, queue, issued, k, count) == Some(raw + [queue[0]]))
            && (Fails(before, after, k, count) ==> !NextIs(after, k, count, line) && !Healthy(after, k))
            && (Prints(before, after, k, count, line) ==> NextIs(after, k, count, line) && Healthy(after, k))
  {
    hide Fold;
  }

  lemma FirstExpected(queue: seq<EventFrame>, commandId: nat, lenient: bool, wanted: Event -> bool, next: nat,
                      issued: nat)
    ensures Arrive(queue, next, issued, 1) && queue != [] && wanted(queue[0].event)
            && queue[0].commandId == commandId ==>
              ExpectedAt(queue, commandId, lenient, wanted, 0) && queue[..1] == [queue[0]]
  {}

  lemma FirstAccepted(queue: seq<EventFrame>, commandId: nat, invocation: nat, start: nat, size: nat, next: nat,
                      issued: nat)
    ensures queue != [] && queue[0].commandId == commandId
            && queue[0].event == InputAccepted(invocation, start + size, size, false) ==>
              AcceptedAt(queue, commandId, invocation, start, size, 0) && queue[..1] == [queue[0]]
  {}

  /** The invocation has failed, or has printed a line beyond the first `count`. */
  predicate IsOver(trace: Trace, invocation: nat, count: nat) {
    !Healthy(trace, invocation) || count < trace.StdoutLineCount(invocation)
  }

  /** A healthy invocation's line number `count` is this one. */
  predicate NextIs(trace: Trace, invocation: nat, count: nat, line: string) {
    && Healthy(trace, invocation) && count < trace.StdoutLineCount(invocation)
    && trace.StreamsOf(invocation).stdout.lines[count].text == line
  }

  /** Between two traces a healthy invocation fails before its next line. */
  predicate Fails(before: Trace, after: Trace, invocation: nat, count: nat) {
    !IsOver(before, invocation, count) && !Healthy(after, invocation)
  }

  /** The frame continues the stream and answers the command. */
  predicate IsNext(frame: EventFrame, raw: seq<EventFrame>, command: CommandFrame) {
    frame.protocolVersion == PROTOCOL_VERSION && frame.eventId == |raw| + 1 && frame.commandId == command.commandId
  }

  /** Between two traces a healthy invocation prints its next line. */
  predicate Prints(before: Trace, after: Trace, invocation: nat, count: nat, line: string) {
    && Healthy(before, invocation) && Healthy(after, invocation)
    && before.StdoutLineCount(invocation) == count < after.StdoutLineCount(invocation)
    && after.StreamsOf(invocation).stdout.lines[count].text == line
  }
}
