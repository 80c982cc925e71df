/** What the runtime emits, the checker accepts: every run of the runtime folds into a trace without
    a structural fault other than an over-long line. */
module Refinement {
  import opened Protocol
  import opened Lines
  import opened Streams
  import opened Traces
  import opened Machine

  /** A step and the command under which the agent reports its events. */
  datatype Move = Move(step: Step, command: nat)

  function Steps(moves: seq<Move>): (steps: seq<Step>)
    ensures |steps| == |moves|
  {
    seq(|moves|, i requires 0 <= i < |moves| => moves[i].step)
  }

  predicate IsInput(step: Step) {
    step.Write? || step.CloseInput?
  }

  /** The command of the latest input acknowledgement, or zero. */
  function LastInput(moves: seq<Move>): nat {
    if moves == [] then 0
    else
      var last := moves[|moves| - 1];
      if IsInput(last.step) then last.command else LastInput(moves[..|moves| - 1])
  }

  /** The invocation identifiers that starts, successful or not, have named. */
  function Attempted(moves: seq<Move>): set<nat> {
    if moves == [] then {}
    else
      var step := moves[|moves| - 1].step;
      Attempted(moves[..|moves| - 1]) + if step.Begin? || step.Refuse? then {step.invocation} else {}
  }

  /** What the host promises: one start per invocation, at most one terminate, growing command
      identifiers. */
  predicate Polite(r: Runtime, move: Move, attempted: set<nat>, lastInput: nat) {
    match move.step
    case Begin(invocation, _) => invocation !in attempted
    case Refuse(invocation, _, _, _) => invocation !in attempted
    case Kill => r.active.Some? && !r.active.value.terminating
    case Write(_) => move.command > lastInput
    case CloseInput => move.command > lastInput
    case _ => true
  }

  predicate Lawful(moves: seq<Move>, limits: Limits) {
    moves == [] ||
    (var n := |moves| - 1;
     && Lawful(moves[..n], limits)
     && Possible(Steps(moves[..n]), IDLE, limits)
     && var r := After(Steps(moves[..n]), IDLE, limits);
     Enabled(r, moves[n].step, limits) && Polite(r, moves[n], Attempted(moves[..n]), LastInput(moves[..n])))
  }

  lemma LawfulIsPossible(moves: seq<Move>, limits: Limits)
    requires Lawful(moves, limits)
    ensures Possible(Steps(moves), IDLE, limits)
    ensures moves != [] ==>
              var n := |moves| - 1;
              After(Steps(moves), IDLE, limits) ==
              Next(After(Steps(moves[..n]), IDLE, limits), moves[n].step, limits)
  {
    if moves != [] {
      assert Steps(moves)[..|moves| - 1] == Steps(moves[..|moves| - 1]);
    }
  }

  /** The frames the agent sends for a run. */
  function Frames(moves: seq<Move>, limits: Limits, sha: string -> string): seq<EventFrame>
    requires Lawful(moves, limits)
  {
    if moves == [] then []
    else
      var n := |moves| - 1;
      var sent := Frames(moves[..n], limits, sha);
      var r := After(Steps(moves[..n]), IDLE, limits);
      sent + Framed(Reports(r, moves[n].step, limits, sha), |sent| + 1, moves[n].command)
  }

  // ---- The simulation ----------------------------------------------------------

  predicate BoundViolation(v: Violation) {
    v.LineOverBound? || v.PendingOverBound?
  }

  predicate Bounded(s: InvocationStreams) {
    && BoundsExact(s)
    && NoNewline(s.stdout.pending)
    && forall v | v in s.violations :: BoundViolation(v)
  }

  predicate StreamsAgree(a: Invocation, s: InvocationStreams, lastInput: nat) {
    && s.sequence == a.sequence && s.frames == a.frames
    && s.stdout.offset == a.stdout.offset && s.stdout.bytes == a.stdout.hashed
    && s.stderr.offset == a.stderr.offset && s.stderr.bytes == a.stderr.hashed
    && s.inputOffset == a.inputOffset && s.inputEof == a.eofRequested
    && (s.inputCommands != [] ==> s.inputCommands[|s.inputCommands| - 1] <= lastInput)
  }

  predicate LiveAgrees(a: Invocation, t: Trace, lastInput: nat) {
    && t.Started(a.id) && !t.HasExited(a.id) && !t.HasCleanedUp(a.id)
    && t.HasTerminated(a.id) == a.terminating
    && StreamsAgree(a, t.StreamsOf(a.id), lastInput)
  }

  /** An exit record counts and hashes exactly the frames recorded before it. */
  predicate TotalsMatch(e: ExitRecord, s: InvocationStreams, sha: string -> string) {
    && e.stdoutBytes == |s.stdout.bytes| && e.stderrBytes == |s.stderr.bytes| && e.frames == s.frames
    && e.stdoutSha256 == sha(s.stdout.bytes) && e.stderrSha256 == sha(s.stderr.bytes)
  }

  /** The trace speaks only of invocations that were attempted. */
  predicate KnownOnly(t: Trace, attempted: set<nat>) {
    && (forall k | k in t.invocations :: k in attempted)
    && (forall i | 0 <= i < |t.starts| :: t.starts[i].invocation in attempted)
    && (forall i | 0 <= i < |t.exits| :: t.exits[i].invocation in attempted)
    && (forall i | 0 <= i < |t.terminations| :: t.terminations[i].invocation in attempted)
    && (forall i | 0 <= i < |t.cleanups| :: t.cleanups[i].invocation in attempted)
    && (forall i | 0 <= i < |t.launchFailures| :: t.launchFailures[i].invocation in attempted)
  }

  predicate Simulates(r: Runtime, t: Trace, attempted: set<nat>, lastInput: nat, sha: string -> string) {
    && t.violations == []
    && KnownOnly(t, attempted)
    && (forall k | k in t.invocations :: Bounded(t.invocations[k]))
    && (forall i | 0 <= i < |t.exits| :: TotalsMatch(t.exits[i], t.StreamsOf(t.exits[i].invocation), sha))
    && (r.active.Some? ==> r.active.value.id in attempted)
    && (Live(r) ==> LiveAgrees(r.active.value, t, lastInput))
  }

  lemma LeftoverHasNoNewline(s: string)
    ensures NoNewline(Leftover(s))
    decreases |s|
  {
    var i := FirstNewline(s);
    if i < |s| { LeftoverHasNoNewline(s[i + 1..]); }
  }

  lemma PushedOutputBounded(s: InvocationStreams, event: nat, stream: Stream, data: string)
    requires Bounded(s)
    ensures Bounded(s.PushOutput(event, stream, s.Line(stream).offset, s.sequence + 1, data))
  {
    hide LongLines, Complete, Leftover, BoundsExact;
    var before := s.Line(stream);
    LeftoverHasNoNewline(before.pending + data);
    LongLinesExact(before.Completed(data, event), stream);
    if stream.Stdout? {
      StdoutBounds(s, event, before.offset, s.sequence + 1, data);
    } else {
      StderrBounds(s, event, before.offset, s.sequence + 1, data);
    }
  }

  lemma BeginSimulates(r: Runtime, t: Trace, step: Step, event: nat, attempted: set<nat>, lastInput: nat,
                       limits: Limits, sha: string -> string)
    requires Simulates(r, t, attempted, lastInput, sha) && step.Begin? && Enabled(r, step, limits)
    requires step.invocation !in attempted
    ensures Simulates(Next(r, step, limits), t.PushStart(event, step.invocation, step.launch),
                      attempted + {step.invocation}, lastInput, sha)
  {
    var t' := t.PushStart(event, step.invocation, step.launch);
    assert t'.starts[|t.starts|].invocation == step.invocation;
    assert t'.StreamsOf(step.invocation) == NO_STREAMS;
    assert forall k :: t'.StreamsOf(k) == t.StreamsOf(k);
  }

  lemma RefuseSimulates(r: Runtime, t: Trace, step: Step, attempted: set<nat>, lastInput: nat,
                        limits: Limits, sha: string -> string)
    requires Simulates(r, t, attempted, lastInput, sha) && step.Refuse? && Enabled(r, step, limits)
    requires step.invocation !in attempted
    ensures Simulates(Next(r, step, limits), t.PushLaunchFailure(step.invocation, step.failure),
                      attempted + {step.invocation}, lastInput, sha)
  {
    var t' := t.PushLaunchFailure(step.invocation, step.failure);
    assert forall k :: t'.StreamsOf(k) == t.StreamsOf(k);
  }

  lemma KillSimulates(r: Runtime, t: Trace, event: nat, attempted: set<nat>, lastInput: nat,
                      limits: Limits, sha: string -> string)
    requires Simulates(r, t, attempted, lastInput, sha) && Enabled(r, Kill, limits) && !r.active.value.terminating
    ensures Simulates(Next(r, Kill, limits), t.PushTermination(event, r.active.value.id, TERMINATION_SIGNAL),
                      attempted, lastInput, sha)
  {
    hide Bounded, TotalsMatch;
    var t' := t.PushTermination(event, r.active.value.id, TERMINATION_SIGNAL);
    assert t'.terminations[|t.terminations|].invocation == r.active.value.id;
    assert forall k :: t'.StreamsOf(k) == t.StreamsOf(k);
  }

  /** The trace after one invocation's streams change. */
  lemma UpdateSimulates(r: Runtime, t: Trace, s: InvocationStreams, a: Invocation, attempted: set<nat>,
                        lastInput: nat, lastInput': nat, sha: string -> string)
    requires Simulates(r, t, attempted, lastInput, sha) && Live(r)
    requires a.id == r.active.value.id && a.terminating == r.active.value.terminating && !a.cleanupComplete
    requires Bounded(s) && StreamsAgree(a, s, lastInput')
    ensures Simulates(r.(active := Some(a)), With(t, a.id, s), attempted, lastInput', sha)
  {
    hide Bounded, StreamsAgree, TotalsMatch;
    var t' := With(t, a.id, s);
    assert forall k | k != a.id :: t'.StreamsOf(k) == t.StreamsOf(k);
    assert forall i | 0 <= i < |t.exits| :: t.exits[i].invocation != a.id;
  }

  lemma StreamsBounded(t: Trace, k: nat)
    requires forall j | j in t.invocations :: Bounded(t.invocations[j])
    ensures Bounded(t.StreamsOf(k))
  {}

  lemma InputBounded(s: InvocationStreams, event: nat, command: nat, offset: nat, bytes: nat, eof: bool)
    requires Bounded(s) && s.PushInput(event, command, offset, bytes, eof).violations == s.violations
    ensures Bounded(s.PushInput(event, command, offset, bytes, eof))
  {
    var after := s.PushInput(event, command, offset, bytes, eof);
    assert after.stdout == s.stdout && after.stderr == s.stderr;
  }

  lemma WriteAgrees(a: Invocation, s: InvocationStreams, event: nat, command: nat, data: Bytes, lastInput: nat)
    requires Bounded(s) && StreamsAgree(a, s, lastInput) && command > lastInput && !a.eofRequested && |data| > 0
    ensures var s' := s.PushInput(event, command, a.inputOffset + |data|, |data|, false);
            Bounded(s') && StreamsAgree(a.Accept(data), s', command)
  {
    assert s.PushInput(event, command, a.inputOffset + |data|, |data|, false).violations == s.violations;
    InputBounded(s, event, command, a.inputOffset + |data|, |data|, false);
  }

  lemma CloseAgrees(a: Invocation, s: InvocationStreams, event: nat, command: nat, lastInput: nat)
    requires Bounded(s) && StreamsAgree(a, s, lastInput) && command > lastInput && !a.eofRequested
    ensures var s' := s.PushInput(event, command, a.inputOffset, 0, true);
            Bounded(s') && StreamsAgree(a.(eofRequested := true), s', command)
  {
    assert s.PushInput(event, command, a.inputOffset, 0, true).violations == s.violations;
    InputBounded(s, event, command, a.inputOffset, 0, true);
  }

  lemma OutputAgrees(a: Invocation, s: InvocationStreams, event: nat, stream: Stream, data: Bytes,
                     lastInput: nat, limits: Limits)
    requires Bounded(s) && StreamsAgree(a, s, lastInput) && limits.Valid()
    requires Consistent(a, limits) && a.StreamOf(stream).bytes + |data| <= limits.outputBytes
    ensures var s' := s.PushOutput(event, stream, a.StreamOf(stream).offset, a.sequence + 1, data);
            Bounded(s') && StreamsAgree(a.Emit(stream, data), s', lastInput)
  {
    PushedOutputBounded(s, event, stream, data);
    var s' := s.PushOutput(event, stream, a.StreamOf(stream).offset, a.sequence + 1, data);
    assert s'.Line(stream).bytes == s.Line(stream).bytes + data;
    assert s'.Line(stream).offset == a.StreamOf(stream).offset + |data|;
  }

  function RuntimeExit(a: Invocation, event: nat, sha: string -> string): ExitRecord
    requires a.exit.Some?
  {
    ExitRecord(a.id, a.exit.value, a.stdout.bytes, sha(a.stdout.hashed), a.stderr.bytes, sha(a.stderr.hashed),
               a.frames, event)
  }

  lemma FinishSimulates(r: Runtime, t: Trace, event: nat, attempted: set<nat>, lastInput: nat,
                        limits: Limits, sha: string -> string) returns (t': Trace)
    requires Simulates(r, t, attempted, lastInput, sha) && Orderly(r, limits) && Enabled(r, Finish, limits)
    ensures var a := r.active.value;
            t' == t.PushExit(RuntimeExit(a, event, sha)).PushCleanup(event + 1, a.id, a.reaped)
    ensures Simulates(Next(r, Finish, limits), t', attempted, lastInput, sha)
  {
    hide Bounded;
    var a := r.active.value;
    var exit := RuntimeExit(a, event, sha);
    var t1 := t.PushExit(exit);
    assert t1 == t.(exits := t.exits + [exit]);
    assert t1.exits[|t.exits|] == exit;
    assert !t1.ExitRecordedAfter(a.id, event + 1);
    t' := t1.(cleanups := t1.cleanups + [CleanupRecord(a.id, a.reaped, event + 1)]);
    assert t' == t1.PushCleanup(event + 1, a.id, a.reaped);
    assert forall k :: t'.StreamsOf(k) == t.StreamsOf(k);
    assert TotalsMatch(exit, t.StreamsOf(a.id), sha);
  }

  predicate Silent(step: Step) {
    step.Retry? || step.Flush? || step.ReadEof? || step.Reap? || step.DropInput? || step.Release?
  }

  lemma SilentSimulates(r: Runtime, t: Trace, step: Step, attempted: set<nat>, lastInput: nat,
                        limits: Limits, sha: string -> string)
    requires Simulates(r, t, attempted, lastInput, sha) && Silent(step) && Enabled(r, step, limits)
    ensures Simulates(Next(r, step, limits), t, attempted, lastInput, sha)
  {
    hide Bounded, KnownOnly, TotalsMatch;
  }

  lemma InputIsFolded(t: Trace, a: Invocation, next: nat, command: nat, lastInput: nat, offset: nat, bytes: nat,
                      eof: bool)
    requires LiveAgrees(a, t, lastInput) && !a.terminating
    ensures FoldOn(t, Framed([InputAccepted(a.id, offset, bytes, eof)], next, command)) ==
            With(t, a.id, t.StreamsOf(a.id).PushInput(next, command, offset, bytes, eof))
  {
    FoldOne(t, InputAccepted(a.id, offset, bytes, eof), next, command);
  }

  lemma WriteSimulates(r: Runtime, t: Trace, data: Bytes, command: nat, next: nat, attempted: set<nat>,
                       lastInput: nat, sha: string -> string) returns (r': Runtime, t': Trace)
    requires Simulates(r, t, attempted, lastInput, sha) && command > lastInput
    requires Live(r) && !r.active.value.InputClosed() && |data| > 0
    ensures r' == r.(active := Some(r.active.value.Accept(data)))
    ensures var a := r.active.value;
            t' == FoldOn(t, Framed([InputAccepted(a.id, a.inputOffset + |data|, |data|, false)], next, command))
    ensures Simulates(r', t', attempted, command, sha)
  {
    hide Bounded, StreamsAgree, FoldOn, Framed, KnownOnly, TotalsMatch;
    var a := r.active.value;
    var s := t.StreamsOf(a.id);
    StreamsBounded(t, a.id);
    InputIsFolded(t, a, next, command, lastInput, a.inputOffset + |data|, |data|, false);
    WriteAgrees(a, s, next, command, data, lastInput);
    var s' := s.PushInput(next, command, a.inputOffset + |data|, |data|, false);
    UpdateSimulates(r, t, s', a.Accept(data), attempted, lastInput, command, sha);
    r', t' := r.(active := Some(a.Accept(data))), With(t, a.id, s');
  }

  lemma CloseSimulates(r: Runtime, t: Trace, command: nat, next: nat, attempted: set<nat>,
                       lastInput: nat, sha: string -> string) returns (r': Runtime, t': Trace)
    requires Simulates(r, t, attempted, lastInput, sha) && command > lastInput
    requires Live(r) && !r.active.value.terminating && !r.active.value.eofRequested
    ensures r' == r.(active := Some(r.active.value.(eofRequested := true)))
    ensures var a := r.active.value;
            t' == FoldOn(t, Framed([InputAccepted(a.id, a.inputOffset, 0, true)], next, command))
    ensures Simulates(r', t', attempted, command, sha)
  {
    hide Bounded, StreamsAgree, FoldOn, Framed, KnownOnly, TotalsMatch;
    var a := r.active.value;
    var s := t.StreamsOf(a.id);
    StreamsBounded(t, a.id);
    InputIsFolded(t, a, next, command, lastInput, a.inputOffset, 0, true);
    CloseAgrees(a, s, next, command, lastInput);
    var s' := s.PushInput(next, command, a.inputOffset, 0, true);
    UpdateSimulates(r, t, s', a.(eofRequested := true), attempted, lastInput, command, sha);
    r', t' := r.(active := Some(a.(eofRequested := true))), With(t, a.id, s');
  }

  lemma OutputIsFolded(t: Trace, a: Invocation, stream: Stream, data: Bytes, next: nat, command: nat, lastInput: nat)
    requires LiveAgrees(a, t, lastInput) && |data| <= MAX_OUTPUT_FRAME_BYTES
    ensures FoldOn(t, Framed([a.Output(stream, data)], next, command)) ==
            With(t, a.id, t.StreamsOf(a.id).PushOutput(next, stream, a.StreamOf(stream).offset, a.sequence + 1, data))
  {
    hide Hex, Unhex, Framed, FoldOn, StreamsAgree, InvocationStreams.PushOutput;
    UnhexExact(Hex(data), MAX_OUTPUT_FRAME_BYTES, data);
    FoldOne(t, a.Output(stream, data), next, command);
  }

  lemma ReadSimulates(r: Runtime, t: Trace, stream: Stream, data: Bytes, command: nat, next: nat, attempted: set<nat>,
                      lastInput: nat, limits: Limits, sha: string -> string) returns (r': Runtime, t': Trace)
    requires Simulates(r, t, attempted, lastInput, sha) && limits.Valid()
    requires Live(r) && Consistent(r.active.value, limits) && |data| <= limits.outputFrameBytes
    requires r.active.value.StreamOf(stream).bytes + |data| <= limits.outputBytes
    ensures r' == r.(active := Some(r.active.value.Emit(stream, data)))
    ensures t' == FoldOn(t, Framed([r.active.value.Output(stream, data)], next, command))
    ensures Simulates(r', t', attempted, lastInput, sha)
  {
    hide Bounded, StreamsAgree, FoldOn, Framed, KnownOnly, TotalsMatch, Consistent;
    var a := r.active.value;
    var s := t.StreamsOf(a.id);
    StreamsBounded(t, a.id);
    OutputIsFolded(t, a, stream, data, next, command, lastInput);
    OutputAgrees(a, s, next, stream, data, lastInput, limits);
    var s' := s.PushOutput(next, stream, a.StreamOf(stream).offset, a.sequence + 1, data);
    UpdateSimulates(r, t, s', a.Emit(stream, data), attempted, lastInput, lastInput, sha);
    r', t' := r.(active := Some(a.Emit(stream, data))), With(t, a.id, s');
  }

  predicate MovesBytes(step: Step) {
    step.Write? || step.CloseInput? || step.Read?
  }

  lemma BytesSimulate(r: Runtime, t: Trace, move: Move, next: nat, attempted: set<nat>, lastInput: nat,
                      limits: Limits, sha: string -> string)
    returns (r': Runtime, t': Trace, attempted': set<nat>, lastInput': nat)
    requires Simulates(r, t, attempted, lastInput, sha) && limits.Valid() && Orderly(r, limits)
    requires Enabled(r, move.step, limits) && Polite(r, move, attempted, lastInput)
    requires MovesBytes(move.step)
    ensures r' == Next(r, move.step, limits)
    ensures t' == FoldOn(t, Framed(Reports(r, move.step, limits, sha), next, move.command))
    ensures attempted' == attempted + if move.step.Begin? || move.step.Refuse? then {move.step.invocation} else {}
    ensures lastInput' == if IsInput(move.step) then move.command else lastInput
    ensures Simulates(r', t', attempted', lastInput', sha)
  {
    hide Simulates, FoldOn, Framed;
    attempted', lastInput' := attempted, lastInput;
    match move.step
    case Write(data) =>
      r', t' := WriteSimulates(r, t, data, move.command, next, attempted, lastInput, sha);
      lastInput' := move.command;
    case CloseInput =>
      r', t' := CloseSimulates(r, t, move.command, next, attempted, lastInput, sha);
      lastInput' := move.command;
    case Read(stream, data) =>
      r', t' := ReadSimulates(r, t, stream, data, move.command, next, attempted, lastInput, limits, sha);
  }

  lemma StartSimulates(r: Runtime, t: Trace, move: Move, next: nat, attempted: set<nat>, lastInput: nat,
                      limits: Limits, sha: string -> string)
    returns (r': Runtime, t': Trace, attempted': set<nat>, lastInput': nat)
    requires Simulates(r, t, attempted, lastInput, sha) && limits.Valid() && Orderly(r, limits)
    requires Enabled(r, move.step, limits) && Polite(r, move, attempted, lastInput)
    requires move.step.Begin? || move.step.Refuse?
    ensures r' == Next(r, move.step, limits)
    ensures t' == FoldOn(t, Framed(Reports(r, move.step, limits, sha), next, move.command))
    ensures attempted' == attempted + if move.step.Begin? || move.step.Refuse? then {move.step.invocation} else {}
    ensures lastInput' == if IsInput(move.step) then move.command else lastInput
    ensures Simulates(r', t', attempted', lastInput', sha)
  {
    hide Simulates, FoldOn, Framed;
    var step := move.step;
    r', lastInput', attempted' := Next(r, step, limits), lastInput, attempted + {step.invocation};
    match step
    case Begin(invocation, launch) =>
      FoldOne(t, WorkloadStarted(invocation, launch), next, move.command);
      BeginSimulates(r, t, step, next, attempted, lastInput, limits, sha);
      t' := t.PushStart(next, invocation, launch);
    case Refuse(invocation, failure, _, _) =>
      FoldOne(t, LaunchFailed(invocation, failure), next, move.command);
      RefuseSimulates(r, t, step, attempted, lastInput, limits, sha);
      t' := t.PushLaunchFailure(invocation, failure);
  }

  lemma EndSimulates(r: Runtime, t: Trace, move: Move, next: nat, attempted: set<nat>, lastInput: nat,
                      limits: Limits, sha: string -> string)
    returns (r': Runtime, t': Trace, attempted': set<nat>, lastInput': nat)
    requires Simulates(r, t, attempted, lastInput, sha) && limits.Valid() && Orderly(r, limits)
    requires Enabled(r, move.step, limits) && Polite(r, move, attempted, lastInput)
    requires move.step.Kill? || move.step.Finish?
    ensures r' == Next(r, move.step, limits)
    ensures t' == FoldOn(t, Framed(Reports(r, move.step, limits, sha), next, move.command))
    ensures attempted' == attempted + if move.step.Begin? || move.step.Refuse? then {move.step.invocation} else {}
    ensures lastInput' == if IsInput(move.step) then move.command else lastInput
    ensures Simulates(r', t', attempted', lastInput', sha)
  {
    hide Simulates, FoldOn, Framed;
    var a := r.active.value;
    r', lastInput', attempted' := Next(r, move.step, limits), lastInput, attempted;
    if move.step.Kill? {
      FoldOne(t, TerminationRequested(a.id, TERMINATION_SIGNAL), next, move.command);
      KillSimulates(r, t, next, attempted, lastInput, limits, sha);
      t' := t.PushTermination(next, a.id, TERMINATION_SIGNAL);
    } else {
      FoldTwo(t, a.ExitEvent(sha), CleanupComplete(a.id, a.reaped), next, move.command);
      t' := FinishSimulates(r, t, next, attempted, lastInput, limits, sha);
    }
  }

  /** One move of the runtime is one move of the checker's trace. */
  lemma StepSimulates(r: Runtime, t: Trace, move: Move, next: nat, attempted: set<nat>, lastInput: nat,
                      limits: Limits, sha: string -> string)
    returns (r': Runtime, t': Trace, attempted': set<nat>, lastInput': nat)
    requires Simulates(r, t, attempted, lastInput, sha) && limits.Valid() && Orderly(r, limits)
    requires Enabled(r, move.step, limits) && Polite(r, move, attempted, lastInput)
    ensures r' == Next(r, move.step, limits)
    ensures t' == FoldOn(t, Framed(Reports(r, move.step, limits, sha), next, move.command))
    ensures attempted' == attempted + if move.step.Begin? || move.step.Refuse? then {move.step.invocation} else {}
    ensures lastInput' == if IsInput(move.step) then move.command else lastInput
    ensures Simulates(r', t', attempted', lastInput', sha)
  {
    hide Simulates, Orderly;
    var step := move.step;
    if MovesBytes(step) {
      r', t', attempted', lastInput' := BytesSimulate(r, t, move, next, attempted, lastInput, limits, sha);
    } else if step.Begin? || step.Refuse? {
      r', t', attempted', lastInput' := StartSimulates(r, t, move, next, attempted, lastInput, limits, sha);
    } else if step.Kill? || step.Finish? {
      r', t', attempted', lastInput' := EndSimulates(r, t, move, next, attempted, lastInput, limits, sha);
    } else {
      assert Framed([], next, move.command) == [];
      SilentSimulates(r, t, step, attempted, lastInput, limits, sha);
      r', t', attempted', lastInput' := Next(r, step, limits), t, attempted, lastInput;
    }
  }

  /** The network's confirmations do not concern the runtime. */
  lemma NetworkSimulates(r: Runtime, t: Trace, t': Trace, attempted: set<nat>, lastInput: nat, sha: string -> string)
    requires Simulates(r, t, attempted, lastInput, sha)
    requires t' == t.(activations := t'.activations, restorations := t'.restorations, configured := t'.configured)
    ensures Simulates(r, t', attempted, lastInput, sha)
  {
    hide Bounded, TotalsMatch, StreamsAgree;
    assert forall k :: t'.StreamsOf(k) == t.StreamsOf(k);
  }

  lemma {:induction false} RunSimulates(moves: seq<Move>, limits: Limits, sha: string -> string)
    requires limits.Valid() && Lawful(moves, limits)
    ensures Possible(Steps(moves), IDLE, limits)
    ensures Simulates(After(Steps(moves), IDLE, limits), Fold(Frames(moves, limits, sha)),
                      Attempted(moves), LastInput(moves), sha)
  {
    hide FoldOn, Framed, Orderly, Polite, Enabled, Next, Reports;
    LawfulIsPossible(moves, limits);
    if moves != [] {
      var n := |moves| - 1;
      var init := moves[..n];
      RunSimulates(init, limits, sha);
      RunsAreOrderly(Steps(init), limits);
      var r, sent := After(Steps(init), IDLE, limits), Frames(init, limits, sha);
      var r', t', attempted', lastInput' :=
        StepSimulates(r, Fold(sent), moves[n], |sent| + 1, Attempted(init), LastInput(init), limits, sha);
      FoldSplits(sent, Framed(Reports(r, moves[n].step, limits, sha), |sent| + 1, moves[n].command));
    }
  }

  lemma CleanExactlyWhenBounded(t: Trace)
    requires t.violations == [] && forall k | k in t.invocations :: Bounded(t.invocations[k])
    ensures t.Clean() <==>
            forall k | k in t.invocations :: !StdoutOverBound(t.invocations[k]) && !StderrOverBound(t.invocations[k])
  {
    forall k | k in t.invocations
      ensures t.invocations[k].violations == [] <==>
              !StdoutOverBound(t.invocations[k]) && !StderrOverBound(t.invocations[k])
    {
      var v := t.invocations[k].violations;
      if v != [] {
        assert v[0] in v;
        assert v[0].LineOverBound? ==> v[0].stream.Stdout? || v[0].stream.Stderr?;
      }
    }
  }

  // ---- Streams are bytes read -----------------------------------------------------

  /** The bytes a step reads from one pipe of one invocation. */
  function Taken(r: Runtime, step: Step, k: nat, stream: Stream): Bytes {
    if step.Read? && step.stream == stream && r.active.Some? && r.active.value.id == k then step.data else []
  }

  /** Every byte read from one pipe of one invocation in a run. */
  function BytesRead(moves: seq<Move>, limits: Limits, k: nat, stream: Stream): Bytes
    requires Lawful(moves, limits)
  {
    if moves == [] then []
    else
      var n := |moves| - 1;
      BytesRead(moves[..n], limits, k, stream) + Taken(After(Steps(moves[..n]), IDLE, limits), moves[n].step, k, stream)
  }

  function Rebuilt(t: Trace, k: nat, stream: Stream): string {
    t.StreamsOf(k).Line(stream).bytes
  }

  lemma ReadAdds(t: Trace, a: Invocation, from: Stream, data: Bytes, next: nat, command: nat, lastInput: nat, k: nat,
                 stream: Stream)
    requires LiveAgrees(a, t, lastInput) && |data| <= MAX_OUTPUT_FRAME_BYTES
    ensures Rebuilt(FoldOn(t, Framed([a.Output(from, data)], next, command)), k, stream) ==
            Rebuilt(t, k, stream) + if from == stream && a.id == k then data else []
  {
    hide FoldOn, Framed, StreamsAgree, Complete, Leftover;
    OutputIsFolded(t, a, from, data, next, command, lastInput);
  }

  lemma InputAdds(t: Trace, a: Invocation, next: nat, command: nat, lastInput: nat, offset: nat, bytes: nat, eof: bool,
                  k: nat, stream: Stream)
    requires LiveAgrees(a, t, lastInput) && !a.terminating
    ensures Rebuilt(FoldOn(t, Framed([InputAccepted(a.id, offset, bytes, eof)], next, command)), k,
                    stream) == Rebuilt(t, k, stream)
  {
    hide FoldOn, Framed, StreamsAgree;
    InputIsFolded(t, a, next, command, lastInput, offset, bytes, eof);
  }

  lemma OtherAdds(r: Runtime, t: Trace, step: Step, next: nat, command: nat, limits: Limits, sha: string -> string)
    requires Enabled(r, step, limits) && !MovesBytes(step)
    ensures FoldOn(t, Framed(Reports(r, step, limits, sha), next, command)).invocations == t.invocations
  {
    hide Trace.Started, Trace.HasExited, Trace.HasTerminated, Trace.HasCleanedUp, Trace.HasLaunchFailed,
         Trace.ExitRecordedAfter;
    assert Framed([], next, command) == [];
    match step
    case Begin(k, launch) => FoldOne(t, WorkloadStarted(k, launch), next, command);
    case Refuse(k, failure, _, _) => FoldOne(t, LaunchFailed(k, failure), next, command);
    case Kill => FoldOne(t, TerminationRequested(r.active.value.id, TERMINATION_SIGNAL), next, command);
    case Finish =>
      FoldTwo(t, r.active.value.ExitEvent(sha), CleanupComplete(r.active.value.id, r.active.value.reaped), next,
              command);
    case _ =>
  }

  lemma StepAdds(r: Runtime, t: Trace, move: Move, next: nat, attempted: set<nat>, lastInput: nat,
                 limits: Limits, sha: string -> string, k: nat, stream: Stream)
    requires Simulates(r, t, attempted, lastInput, sha) && limits.Valid() && Enabled(r, move.step, limits)
    ensures Rebuilt(FoldOn(t, Framed(Reports(r, move.step, limits, sha), next, move.command)), k, stream) ==
            Rebuilt(t, k, stream) + Taken(r, move.step, k, stream)
  {
    hide FoldOn, Framed, LiveAgrees, KnownOnly, Bounded, TotalsMatch;
    match move.step
    case Read(from, data) => ReadAdds(t, r.active.value, from, data, next, move.command, lastInput, k, stream);
    case Write(data) =>
      var a := r.active.value;
      InputAdds(t, a, next, move.command, lastInput, a.inputOffset + |data|, |data|, false, k, stream);
    case CloseInput =>
      InputAdds(t, r.active.value, next, move.command, lastInput, r.active.value.inputOffset, 0, true, k, stream);
    case _ =>
      OtherAdds(r, t, move.step, next, move.command, limits, sha);
  }

  /** In every run, for every invocation, over or not, and both pipes: the stream the checker rebuilds is
      exactly the bytes read. */
  lemma {:induction false} RebuiltIsRead(moves: seq<Move>, limits: Limits, sha: string -> string, k: nat,
                                         stream: Stream)
    requires limits.Valid() && Lawful(moves, limits)
    ensures Rebuilt(Fold(Frames(moves, limits, sha)), k, stream) == BytesRead(moves, limits, k, stream)
  {
    hide FoldOn, Framed, Simulates, Polite, Enabled, Next, Reports, Taken, Rebuilt;
    if moves == [] {
      NothingRebuilt(k, stream);
    } else {
      var n := |moves| - 1;
      var init := moves[..n];
      RebuiltIsRead(init, limits, sha, k, stream);
      RunSimulates(init, limits, sha);
      var r, sent := After(Steps(init), IDLE, limits), Frames(init, limits, sha);
      StepAdds(r, Fold(sent), moves[n], |sent| + 1, Attempted(init), LastInput(init), limits, sha, k, stream);
      FoldSplits(sent, Framed(Reports(r, moves[n].step, limits, sha), |sent| + 1, moves[n].command));
    }
  }

  lemma NothingRebuilt(k: nat, stream: Stream)
    ensures Rebuilt(EMPTY_TRACE, k, stream) == ""
  {}

  /** An exit record states the totals and digests of the bytes read from the invocation's pipes. */
  predicate ExitIsTrue(e: ExitRecord, moves: seq<Move>, limits: Limits, sha: string -> string)
    requires Lawful(moves, limits)
  {
    var out, err := BytesRead(moves, limits, e.invocation, Stdout), BytesRead(moves, limits, e.invocation, Stderr);
    && e.stdoutBytes == |out| && e.stdoutSha256 == sha(out) && e.stderrBytes == |err| && e.stderrSha256 == sha(err)
  }

  /** For every run of the runtime, with any partial reads, writes and exits: the checker finds a fault
      exactly when some line is too long; for every invocation, over or not, the rebuilt streams are
      the bytes read from its pipes; and every exit record states their totals and digests and the
      number of recorded frames. */
  lemma RuntimeRunsAreAccepted(moves: seq<Move>, limits: Limits, sha: string -> string)
    requires limits.Valid() && Lawful(moves, limits)
    ensures var t := Fold(Frames(moves, limits, sha));
            && (t.Clean() <==> forall k | k in t.invocations ::
                                 !StdoutOverBound(t.invocations[k]) && !StderrOverBound(t.invocations[k]))
            && (forall k, stream :: Rebuilt(t, k, stream) == BytesRead(moves, limits, k, stream))
            && (forall e | e in t.exits ::
                  ExitIsTrue(e, moves, limits, sha) && e.frames == t.StreamsOf(e.invocation).frames)
            && Possible(Steps(moves), IDLE, limits)
            && var r := After(Steps(moves), IDLE, limits);
            Live(r) ==> StreamsAgree(r.active.value, t.StreamsOf(r.active.value.id), LastInput(moves))
  {
    hide Fold, Frames, BytesRead, Lawful, Bounded, KnownOnly, StreamsAgree;
    RunSimulates(moves, limits, sha);
    var t := Fold(Frames(moves, limits, sha));
    CleanExactlyWhenBounded(t);
    forall k, stream ensures Rebuilt(t, k, stream) == BytesRead(moves, limits, k, stream) {
      RebuiltIsRead(moves, limits, sha, k, stream);
    }
    forall e | e in t.exits ensures ExitIsTrue(e, moves, limits, sha) && e.frames == t.StreamsOf(e.invocation).frames {
      var i :| 0 <= i < |t.exits| && t.exits[i] == e;
      assert TotalsMatch(t.exits[i], t.StreamsOf(t.exits[i].invocation), sha);
      assert Rebuilt(t, e.invocation, Stdout) == t.StreamsOf(e.invocation).stdout.bytes;
      assert Rebuilt(t, e.invocation, Stderr) == t.StreamsOf(e.invocation).stderr.bytes;
    }
  }
}
