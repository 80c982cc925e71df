/** The guest process runtime as a state machine. Each step is one thing the runtime or its
    environment does: a command taken, bytes moved through a pipe, a process reaped. */
module Machine {
  import opened Protocol

  /** The positive, protocol-bounded limits a runtime is built with. */
  datatype Limits = Limits(inputBytes: nat, outputBytes: nat, inputFrameBytes: nat, outputFrameBytes: nat)
  {
    predicate Valid() {
      && 0 < inputFrameBytes <= MAX_STDIN_FRAME_BYTES
      && 0 < outputFrameBytes <= MAX_OUTPUT_FRAME_BYTES
      && inputFrameBytes <= inputBytes <= U64_MAX
      && outputFrameBytes <= outputBytes <= U64_MAX
    }
  }

  type ValidLimits = l: Limits | l.Valid() witness Limits(1, 1, 1, 1)

  /** One output stream. The hasher is the sequence of bytes fed to it. */
  datatype StreamState = StreamState(offset: nat, bytes: nat, hashed: Bytes, eof: bool)
  {
    function Take(data: Bytes): StreamState {
      StreamState(offset + |data|, bytes + |data|, hashed + data, eof)
    }
  }

  const FRESH_STREAM := StreamState(0, 0, [], false)

  datatype Invocation = Invocation(
    id: nat, stdinOpen: bool, stdout: StreamState, stderr: StreamState,
    inputOffset: nat, inputBytes: nat, pendingInput: Bytes, eofRequested: bool, terminating: bool,
    sequence: nat, frames: nat, exit: Option<ProcessExit>, reaped: nat, cleanupComplete: bool)
  {
    function StreamOf(stream: Stream): StreamState {
      if stream.Stdout? then stdout else stderr
    }

    function With(stream: Stream, state: StreamState): Invocation {
      if stream.Stdout? then this.(stdout := state) else this.(stderr := state)
    }

    /** Read one chunk: count it, hash it, number it. */
    function Emit(stream: Stream, data: Bytes): Invocation {
      With(stream, StreamOf(stream).Take(data)).(sequence := sequence + 1, frames := frames + 1)
    }

    function Output(stream: Stream, data: Bytes): Event {
      WorkloadOutput(id, stream, StreamOf(stream).offset, sequence + 1, Hex(data))
    }

    function AtEof(stream: Stream): Invocation {
      With(stream, StreamOf(stream).(eof := true))
    }

    /** Move `count` queued bytes to the child, closing the pipe behind the last one once the end
        of input was requested. */
    function Flush(count: nat): Invocation
      requires count <= |pendingInput|
    {
      if !stdinOpen then this
      else this.(pendingInput := pendingInput[count..],
                 stdinOpen := !(count == |pendingInput| && eofRequested))
    }

    function Accept(data: Bytes): Invocation {
      this.(inputOffset := inputOffset + |data|, inputBytes := inputBytes + |data|,
            pendingInput := pendingInput + data)
    }

    predicate InputClosed() {
      terminating || eofRequested || !stdinOpen
    }

    function ExitEvent(sha: string -> string): Event
      requires exit.Some?
    {
      WorkloadExited(id, exit.value, stdout.bytes, sha(stdout.hashed), stderr.bytes, sha(stderr.hashed), frames)
    }
  }

  function Fresh(id: nat): Invocation {
    Invocation(id, true, FRESH_STREAM, FRESH_STREAM, 0, 0, [], false, false, 0, 0, None, 0, false)
  }

  /** The whole runtime, with the invocation roots that are on disk. */
  datatype Runtime = Runtime(
    active: Option<Invocation>, last: Option<nat>, pendingRemoval: Option<nat>, roots: set<nat>)

  const IDLE := Runtime(None, None, None, {})

  datatype Step =
    | Retry                                                     // a leftover root is removed
    | Begin(invocation: nat, launch: LaunchIdentity)            // a start succeeds
    | Refuse(invocation: nat, failure: LaunchFailure, taken: bool, leftover: bool)  // a start fails
    | Write(data: Bytes)                                        // one stdin frame accepted
    | CloseInput                                                // end of input accepted
    | Kill                                                      // termination requested
    | Flush(count: nat)                                         // queued input reaches the child
    | Read(stream: Stream, data: Bytes)                         // one output chunk read
    | ReadEof(stream: Stream)                                   // an output pipe ends
    | Reap(count: nat, exit: Option<ProcessExit>)               // members reaped, maybe the primary
    | DropInput                                                 // cleanup closes the child's input
    | Finish                                                    // the cleanup barrier completes
    | Release                                                   // the root is removed, the slot freed

  /** A live invocation: active and not yet past its cleanup barrier. */
  predicate Live(r: Runtime) {
    r.active.Some? && !r.active.value.cleanupComplete
  }

  predicate Enabled(r: Runtime, step: Step, limits: Limits) {
    match step
    case Retry => r.pendingRemoval.Some?
    case Begin(invocation, _) =>
      && r.pendingRemoval.None? && r.active.None?
      && (r.last.Some? ==> r.last.value < invocation)
      && invocation !in r.roots
    case Refuse(invocation, _, taken, leftover) =>
      && (taken ==> r.pendingRemoval.None? && r.active.None? && (r.last.Some? ==> r.last.value < invocation))
      && (leftover ==> taken && invocation !in r.roots)
    case Write(data) =>
      && Live(r) && !r.active.value.InputClosed()
      && 0 < |data| <= limits.inputFrameBytes
      && r.active.value.inputBytes + |data| <= limits.inputBytes
    case CloseInput => Live(r) && !r.active.value.terminating && !r.active.value.eofRequested
    case Kill => Live(r) && r.active.value.exit.None?
    case Flush(count) => Live(r) && count <= |r.active.value.pendingInput|
    case Read(stream, data) =>
      && Live(r) && !r.active.value.StreamOf(stream).eof
      && 0 < |data| <= limits.outputFrameBytes
      && r.active.value.StreamOf(stream).bytes + |data| <= limits.outputBytes
    case ReadEof(stream) => Live(r)
    case Reap(count, exit) => Live(r) && (exit.Some? ==> count >= 1 && r.active.value.exit.None?)
    case DropInput => Live(r)
    case Finish =>
      Live(r) && r.active.value.exit.Some? && r.active.value.stdout.eof && r.active.value.stderr.eof
    case Release => r.active.Some? && r.active.value.cleanupComplete
  }

  function Next(r: Runtime, step: Step, limits: Limits): Runtime
    requires Enabled(r, step, limits)
  {
    match step
    case Retry => r.(pendingRemoval := None, roots := r.roots - {r.pendingRemoval.value})
    case Begin(invocation, _) =>
      r.(active := Some(Fresh(invocation)), last := Some(invocation), roots := r.roots + {invocation})
    case Refuse(invocation, _, taken, leftover) =>
      r.(last := if taken then Some(invocation) else r.last,
         pendingRemoval := if leftover then Some(invocation) else r.pendingRemoval,
         roots := if leftover then r.roots + {invocation} else r.roots)
    case Write(data) => r.(active := Some(r.active.value.Accept(data)))
    case CloseInput => r.(active := Some(r.active.value.(eofRequested := true)))
    case Kill => r.(active := Some(r.active.value.(terminating := true, pendingInput := [], stdinOpen := false)))
    case Flush(count) => r.(active := Some(r.active.value.Flush(count)))
    case Read(stream, data) => r.(active := Some(r.active.value.Emit(stream, data)))
    case ReadEof(stream) => r.(active := Some(r.active.value.AtEof(stream)))
    case Reap(count, exit) =>
      var a := r.active.value;
      r.(active := Some(a.(reaped := a.reaped + count, exit := if exit.Some? then exit else a.exit)))
    case DropInput => r.(active := Some(r.active.value.(stdinOpen := false)))
    case Finish => r.(active := Some(r.active.value.(cleanupComplete := true)))
    case Release => r.(active := None, roots := r.roots - {r.active.value.id})
  }

  /** The events a step reports. */
  function Reports(r: Runtime, step: Step, limits: Limits, sha: string -> string): seq<Event>
    requires Enabled(r, step, limits)
  {
    match step
    case Begin(invocation, launch) => [WorkloadStarted(invocation, launch)]
    case Refuse(invocation, failure, _, _) => [LaunchFailed(invocation, failure)]
    case Write(data) =>
      [InputAccepted(r.active.value.id, r.active.value.inputOffset + |data|, |data|, false)]
    case CloseInput => [InputAccepted(r.active.value.id, r.active.value.inputOffset, 0, true)]
    case Kill => [TerminationRequested(r.active.value.id, TERMINATION_SIGNAL)]
    case Read(stream, data) => [r.active.value.Output(stream, data)]
    case Finish =>
      [r.active.value.ExitEvent(sha), CleanupComplete(r.active.value.id, r.active.value.reaped)]
    case _ => []
  }

  // ---- Runs ---------------------------------------------------------------------

  predicate Possible(steps: seq<Step>, from: Runtime, limits: Limits)
    decreases |steps|, 0
  {
    steps == [] ||
    (Possible(steps[..|steps| - 1], from, limits) &&
     Enabled(After(steps[..|steps| - 1], from, limits), steps[|steps| - 1], limits))
  }

  function After(steps: seq<Step>, from: Runtime, limits: Limits): Runtime
    requires Possible(steps, from, limits)
    decreases |steps|, 1
  {
    if steps == [] then from
    else Next(After(steps[..|steps| - 1], from, limits), steps[|steps| - 1], limits)
  }

  function Reported(steps: seq<Step>, from: Runtime, limits: Limits, sha: string -> string): seq<Event>
    requires Possible(steps, from, limits)
  {
    if steps == [] then []
    else
      Reported(steps[..|steps| - 1], from, limits, sha)
      + Reports(After(steps[..|steps| - 1], from, limits), steps[|steps| - 1], limits, sha)
  }

  lemma StepAppends(steps: seq<Step>, step: Step, from: Runtime, limits: Limits, sha: string -> string)
    requires Possible(steps, from, limits) && Enabled(After(steps, from, limits), step, limits)
    ensures Possible(steps + [step], from, limits)
    ensures After(steps + [step], from, limits) == Next(After(steps, from, limits), step, limits)
    ensures Reported(steps + [step], from, limits, sha) ==
            Reported(steps, from, limits, sha) + Reports(After(steps, from, limits), step, limits, sha)
  {
    assert (steps + [step])[..|steps|] == steps;
  }

  // ---- Invariants of every run --------------------------------------------------

  /** Counters agree with the bytes read, the input total stays within its limit, and an exit is
      only ever recorded by reaping a process. */
  predicate Consistent(a: Invocation, limits: Limits) {
    && a.stdout.offset == a.stdout.bytes == |a.stdout.hashed| <= limits.outputBytes
    && a.stderr.offset == a.stderr.bytes == |a.stderr.hashed| <= limits.outputBytes
    && a.inputOffset == a.inputBytes <= limits.inputBytes
    && a.sequence == a.frames
    && (a.exit.Some? ==> a.reaped >= 1)
    && (a.cleanupComplete ==> a.exit.Some? && a.stdout.eof && a.stderr.eof)
    && (a.terminating ==> !a.stdinOpen && a.pendingInput == [])
  }

  /** The only roots on disk are the active invocation's and one leftover that blocks every start. */
  predicate Orderly(r: Runtime, limits: Limits) {
    && (r.active.Some? ==> Consistent(r.active.value, limits))
    && (r.active.Some? ==> r.pendingRemoval.None? && r.roots == {r.active.value.id}
                           && r.last == Some(r.active.value.id))
    && (r.active.None? && r.pendingRemoval.Some? ==> r.roots == {r.pendingRemoval.value})
    && (r.active.None? && r.pendingRemoval.None? ==> r.roots == {})
    && (forall k | k in r.roots :: r.last.Some? && k <= r.last.value)
  }

  predicate ChangesSlot(step: Step) {
    step.Retry? || step.Begin? || step.Refuse? || step.Release?
  }

  lemma EmitStaysConsistent(a: Invocation, stream: Stream, data: Bytes, limits: Limits)
    requires Consistent(a, limits) && a.StreamOf(stream).bytes + |data| <= limits.outputBytes
    ensures Consistent(a.Emit(stream, data), limits) && a.Emit(stream, data).id == a.id
  {
    if stream.Stdout? {
      assert a.Emit(stream, data).stdout == a.stdout.Take(data);
    } else {
      assert a.Emit(stream, data).stderr == a.stderr.Take(data);
    }
  }

  lemma FlushStaysConsistent(a: Invocation, count: nat, limits: Limits)
    requires Consistent(a, limits) && count <= |a.pendingInput|
    ensures Consistent(a.Flush(count), limits) && a.Flush(count).id == a.id
  {}

  lemma ActiveStaysConsistent(r: Runtime, step: Step, limits: Limits)
    requires Orderly(r, limits) && Enabled(r, step, limits) && !ChangesSlot(step)
    ensures var r' := Next(r, step, limits);
            && r'.active.Some? && r' == r.(active := r'.active)
            && r'.active.value.id == r.active.value.id && Consistent(r'.active.value, limits)
  {
    match step
    case Read(stream, data) => EmitStaysConsistent(r.active.value, stream, data, limits);
    case Flush(count) => FlushStaysConsistent(r.active.value, count, limits);
    case _ =>
  }

  lemma StepKeepsOrder(r: Runtime, step: Step, limits: Limits)
    requires Orderly(r, limits) && Enabled(r, step, limits)
    ensures Orderly(Next(r, step, limits), limits)
  {
    if !ChangesSlot(step) {
      ActiveStaysConsistent(r, step, limits);
    }
  }

  lemma {:induction false} RunsAreOrderly(steps: seq<Step>, limits: Limits)
    requires limits.Valid() && Possible(steps, IDLE, limits)
    ensures Orderly(After(steps, IDLE, limits), limits)
  {
    if steps != [] {
      var n := |steps| - 1;
      RunsAreOrderly(steps[..n], limits);
      StepKeepsOrder(After(steps[..n], IDLE, limits), steps[n], limits);
    }
  }

  /** A start only ever succeeds on an empty disk: no earlier invocation's root, whether its removal
      failed or never ran, is still there. It takes an identifier above every one before it. */
  lemma StartsOnAnEmptyDisk(steps: seq<Step>, invocation: nat, launch: LaunchIdentity, limits: Limits)
    requires limits.Valid() && Possible(steps, IDLE, limits)
    requires Enabled(After(steps, IDLE, limits), Begin(invocation, launch), limits)
    ensures After(steps, IDLE, limits).roots == {}
    ensures forall i | 0 <= i < |steps| && steps[i].Begin? :: steps[i].invocation < invocation
  {
    RunsAreOrderly(steps, limits);
    forall i | 0 <= i < |steps| && steps[i].Begin? ensures steps[i].invocation < invocation {
      LastIsGreatest(steps, i, limits);
    }
  }

  lemma {:induction false} LastIsGreatest(steps: seq<Step>, i: nat, limits: Limits)
    requires Possible(steps, IDLE, limits) && i < |steps| && steps[i].Begin?
    ensures var last := After(steps, IDLE, limits).last; last.Some? && steps[i].invocation <= last.value
  {
    var n := |steps| - 1;
    if i < n { LastIsGreatest(steps[..n], i, limits); }
  }

  /** In every run each reported cleanup comes right after the exit record of its invocation and counts
      at least one reaped process. */
  lemma {:induction false} CleanupFollowsExit(steps: seq<Step>, limits: Limits, sha: string -> string, i: nat)
    requires limits.Valid() && Possible(steps, IDLE, limits)
    requires i < |Reported(steps, IDLE, limits, sha)| && Reported(steps, IDLE, limits, sha)[i].CleanupComplete?
    ensures var log := Reported(steps, IDLE, limits, sha);
            && i > 0 && log[i - 1].WorkloadExited? && log[i - 1].invocation == log[i].invocation && log[i].reaped >= 1
  {
    hide Enabled, Next, Orderly;
    var n := |steps| - 1;
    var init := steps[..n];
    var before, r := Reported(init, IDLE, limits, sha), After(init, IDLE, limits);
    if i < |before| {
      CleanupFollowsExit(init, limits, sha, i);
    } else {
      RunsAreOrderly(init, limits);
      CleanupReport(r, steps[n], limits, sha, i - |before|);
    }
  }

  lemma CleanupReport(r: Runtime, step: Step, limits: Limits, sha: string -> string, i: nat)
    requires Orderly(r, limits) && Enabled(r, step, limits)
    requires i < |Reports(r, step, limits, sha)| && Reports(r, step, limits, sha)[i].CleanupComplete?
    ensures var log := Reports(r, step, limits, sha);
            && i == 1 && log[0].WorkloadExited? && log[0].invocation == log[1].invocation && log[1].reaped >= 1
  {}

  // ---- Input conservation ---------------------------------------------------------

  /** The bytes accepted for the current invocation, in order. */
  function Accepted(steps: seq<Step>): Bytes {
    if steps == [] then []
    else
      var last := steps[|steps| - 1];
      if last.Begin? then []
      else Accepted(steps[..|steps| - 1]) + if last.Write? then last.data else []
  }

  /** The bytes that reached the current invocation's child. */
  function Delivered(steps: seq<Step>, from: Runtime, limits: Limits): Bytes
    requires Possible(steps, from, limits)
  {
    if steps == [] then []
    else
      var init, last := steps[..|steps| - 1], steps[|steps| - 1];
      var a := After(init, from, limits).active;
      if last.Begin? then []
      else
        Delivered(init, from, limits)
        + if last.Flush? && a.value.stdinOpen then a.value.pendingInput[..last.count] else []
  }

  predicate InputConserved(a: Invocation, accepted: Bytes, delivered: Bytes) {
    && delivered <= accepted
    && |accepted| == a.inputOffset
    && (!a.terminating ==> delivered + a.pendingInput == accepted)
  }

  /** In every run: what the child received is a prefix of what was accepted, delivered and queued
      bytes make up everything accepted until termination, and the total stays within the limit. */
  lemma {:induction false} InputIsConserved(steps: seq<Step>, limits: Limits)
    requires limits.Valid() && Possible(steps, IDLE, limits) && After(steps, IDLE, limits).active.Some?
    ensures InputConserved(After(steps, IDLE, limits).active.value, Accepted(steps), Delivered(steps, IDLE, limits))
    ensures |Accepted(steps)| <= limits.inputBytes
  {
    var n := |steps| - 1;
    var init, last := steps[..n], steps[n];
    RunsAreOrderly(init, limits);
    RunsAreOrderly(steps, limits);
    if !last.Begin? {
      InputIsConserved(init, limits);
      ConservedStep(After(init, IDLE, limits), last, Accepted(init), Delivered(init, IDLE, limits), limits);
    }
  }

  lemma ConservedStep(r: Runtime, step: Step, accepted: Bytes, delivered: Bytes, limits: Limits)
    requires Orderly(r, limits) && Enabled(r, step, limits) && r.active.Some? && Next(r, step, limits).active.Some?
    requires InputConserved(r.active.value, accepted, delivered)
    ensures InputConserved(Next(r, step, limits).active.value,
                           accepted + (if step.Write? then step.data else []),
                           delivered + if step.Flush? && r.active.value.stdinOpen
                                       then r.active.value.pendingInput[..step.count] else [])
  {
    var a := r.active.value;
    assert accepted + [] == accepted && delivered + [] == delivered;
    match step
    case Write(data) =>
      assert delivered + (a.pendingInput + data) == accepted + data;
    case Flush(count) =>
      assert a.pendingInput[..count] + a.pendingInput[count..] == a.pendingInput;
      assert (delivered + a.pendingInput[..count]) + a.pendingInput[count..] == delivered + a.pendingInput;
    case _ =>
  }

  /** End of input closes the child's pipe only behind the last accepted byte. */
  lemma EofClosesBehindTheLastByte(steps: seq<Step>, limits: Limits, count: nat)
    requires limits.Valid() && Possible(steps, IDLE, limits)
    requires Enabled(After(steps, IDLE, limits), Flush(count), limits)
    requires var a := After(steps, IDLE, limits).active.value; a.stdinOpen && !a.Flush(count).stdinOpen
    ensures var queue := After(steps, IDLE, limits).active.value.pendingInput;
            Delivered(steps, IDLE, limits) + queue[..count] == Accepted(steps)
    ensures After(steps, IDLE, limits).active.value.eofRequested
  {
    var a := After(steps, IDLE, limits).active.value;
    RunsAreOrderly(steps, limits);
    InputIsConserved(steps, limits);
    assert a.pendingInput[..count] == a.pendingInput;
  }
}
