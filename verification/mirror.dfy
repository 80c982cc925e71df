/** The honest guest and the trace the host folds of its events: two counts of one thing, kept apart and
    shown to agree through the refinement of the runtime by the checker. */
module Mirror {
  import opened Protocol
  import opened Streams
  import opened Traces
  import opened Machine
  import opened Refinement
  import opened Conversation
  import opened Checker
  import opened HonestGuest
  import opened Fixture

  // ---- Performing steps keeps the simulation ---------------------------------------------

  function NamedBy(step: Step): set<nat> {
    if step.Begin? || step.Refuse? then {step.invocation} else {}
  }

  /** Every step is possible in its turn and keeps the promises of the host. */
  predicate Polished(r: Runtime, steps: seq<Step>, attempted: set<nat>, lastInput: nat, command: nat)
    decreases |steps|
  {
    steps == [] ||
    (&& Enabled(r, steps[0], GUEST_LIMITS) && Polite(r, Move(steps[0], command), attempted, lastInput)
     && Polished(Next(r, steps[0], GUEST_LIMITS), steps[1..], attempted + NamedBy(steps[0]),
                 if IsInput(steps[0]) then command else lastInput, command))
  }

  function Named(steps: seq<Step>): set<nat>
    decreases |steps|
  {
    if steps == [] then {} else NamedBy(steps[0]) + Named(steps[1..])
  }

  lemma {:induction false} FoldOnAppend(t: Trace, one: seq<EventFrame>, two: seq<EventFrame>)
    ensures FoldOn(t, one + two) == FoldOn(FoldOn(t, one), two)
    decreases |two|
  {
    hide Trace.Push;
    if two == [] {
      assert one + two == one;
    } else {
      var n := |two| - 1;
      assert (one + two)[..|one| + n] == one + two[..n];
      FoldOnAppend(t, one, two[..n]);
    }
  }

  lemma FramedAppend(one: seq<Event>, two: seq<Event>, next: nat, command: nat)
    ensures Framed(one + two, next, command) == Framed(one, next, command) + Framed(two, next + |one|, command)
  {}

  lemma {:induction false} PerformSimulates(r: Runtime, t: Trace, steps: seq<Step>, next: nat, command: nat,
                                            attempted: set<nat>,
                                            lastInput: nat, sha: string -> string)
    requires Simulates(r, t, attempted, lastInput, sha) && Orderly(r, GUEST_LIMITS) && lastInput <= command
    requires Polished(r, steps, attempted, lastInput, command)
    ensures var p := Perform(r, steps, sha);
            && Orderly(p.runtime, GUEST_LIMITS)
            && Simulates(p.runtime, FoldOn(t, Framed(p.events, next, command)), attempted + Named(steps), command, sha)
    decreases |steps|
  {
    hide Simulates, Orderly, Polite, Enabled, Next, Reports, FoldOn, Framed;
    if steps == [] {
      NothingFolded(t, next, command);
      LaterInput(r, t, attempted, lastInput, command, sha);
      assert attempted + {} == attempted;
    } else {
      var step, events := steps[0], Reports(r, steps[0], GUEST_LIMITS, sha);
      var r', t', attempted', lastInput' := StepSimulates(r, t, Move(step, command), next, attempted, lastInput,
                                                          GUEST_LIMITS, sha);
      StepKeepsOrder(r, step, GUEST_LIMITS);
      var p := Perform(r', steps[1..], sha);
      PerformSimulates(r', t', steps[1..], next + |events|, command, attempted', lastInput', sha);
      FramedAppend(events, p.events, next, command);
      FoldOnAppend(t, Framed(events, next, command), Framed(p.events, next + |events|, command));
      assert attempted' + Named(steps[1..]) == attempted + Named(steps);
    }
  }

  lemma NothingFolded(t: Trace, next: nat, command: nat)
    ensures FoldOn(t, Framed([], next, command)) == t
  {}

  lemma LaterInput(r: Runtime, t: Trace, attempted: set<nat>, lastInput: nat, later: nat, sha: string -> string)
    requires Simulates(r, t, attempted, lastInput, sha) && lastInput <= later
    ensures Simulates(r, t, attempted, later, sha)
  {
    hide KnownOnly, Bounded, TotalsMatch;
  }

  // ---- What the trace says of the guest -----------------------------------------------------

  function LastStart(t: Trace): Option<nat> {
    if t.starts == [] then None else Some(t.starts[|t.starts| - 1].invocation)
  }

  /** The invocation that has started and not exited. */
  function Current(t: Trace): Option<nat> {
    if t.starts == [] || t.HasExited(t.starts[|t.starts| - 1].invocation) then None else LastStart(t)
  }

  /** An invocation between two commands: its input is open and delivered, nothing has ended. */
  predicate Serving(a: Invocation) {
    && a.stdinOpen && !a.eofRequested && !a.terminating && a.pendingInput == [] && a.exit.None? && a.reaped == 0
    && !a.cleanupComplete && !a.stdout.eof && !a.stderr.eof
  }

  /** The runtime is where the events say it is. */
  predicate Mirrors(r: Runtime, t: Trace) {
    && r.pendingRemoval.None? && r.last == LastStart(t)
    && match Current(t)
       case None => r.active.None? && r.roots == {}
       case Some(k) => r.active.Some? && r.active.value.id == k && Serving(r.active.value)
  }

  function StartedIn(t: Trace): set<nat> {
    set i | 0 <= i < |t.starts| :: t.starts[i].invocation
  }

  // ---- The steps of each command --------------------------------------------------------------

  lemma PerformFirst(r: Runtime, step: Step, rest: seq<Step>, attempted: set<nat>, lastInput: nat, command: nat,
                     sha: string -> string)
    requires Enabled(r, step, GUEST_LIMITS) && Polite(r, Move(step, command), attempted, lastInput)
    ensures var steps := [step] + rest;
            var r' := Next(r, step, GUEST_LIMITS);
            && Perform(r, steps, sha) ==
               Performed(Perform(r', rest, sha).runtime,
                         Reports(r, step, GUEST_LIMITS, sha) + Perform(r', rest, sha).events)
            && (Polished(r', rest, attempted + NamedBy(step), if IsInput(step) then command else lastInput, command)
                ==> Polished(r, steps, attempted, lastInput, command))
  {
    hide Enabled, Next, Reports, Polite;
    assert ([step] + rest)[0] == step && ([step] + rest)[1..] == rest;
  }

  lemma PerformNothing(r: Runtime, attempted: set<nat>, lastInput: nat, command: nat, sha: string -> string)
    ensures Perform(r, [], sha) == Performed(r, []) && Polished(r, [], attempted, lastInput, command)
  {}

  /** A step of a live invocation that reports nothing. */
  lemma QuietStep(r: Runtime, step: Step, a': Invocation, rest: seq<Step>, attempted: set<nat>, lastInput: nat,
                  command: nat, sha: string -> string)
    requires step.Reap? || step.DropInput? || step.ReadEof? || step.Flush?
    requires Enabled(r, step, GUEST_LIMITS) && Next(r, step, GUEST_LIMITS) == r.(active := Some(a'))
    ensures var r' := r.(active := Some(a'));
            && Perform(r, [step] + rest, sha) == Perform(r', rest, sha)
            && (Polished(r', rest, attempted, lastInput, command) ==>
                 Polished(r, [step] + rest, attempted, lastInput, command))
  {
    hide Enabled, Next, Perform, Polished;
    PerformFirst(r, step, rest, attempted, lastInput, command, sha);
    assert attempted + {} == attempted;
    assert [] + Perform(r.(active := Some(a')), rest, sha).events == Perform(r.(active := Some(a')), rest, sha).events;
  }

  /** The invocation once it was reaped, its input dropped and both pipes ended. */
  function Drained(a: Invocation, members: nat, exit: ProcessExit): Invocation {
    a.(reaped := a.reaped + members, exit := Some(exit), stdinOpen := false, stdout := a.stdout.(eof := true),
       stderr := a.stderr.(eof := true))
  }

  /** The end of an invocation: the exit with its totals and digests, the cleanup with its count, and a
      free slot. */
  lemma EndPerforms(r: Runtime, members: nat, exit: ProcessExit, attempted: set<nat>, lastInput: nat, command: nat,
                    sha: string -> string)
    requires Live(r) && r.active.value.exit.None? && members >= 1
    ensures var a := r.active.value;
            var steps := EndSteps(members, exit);
            && Perform(r, steps, sha) == Performed(r.(active := None, roots := r.roots - {a.id}),
                                                   [Drained(a, members, exit).ExitEvent(sha),
                                                    CleanupComplete(a.id, a.reaped + members)])
            && Polished(r, steps, attempted, lastInput, command)
  {
    hide Perform, Polished;
    var a := r.active.value;
    var a1 := a.(reaped := a.reaped + members, exit := Some(exit));
    var a2 := a1.(stdinOpen := false);
    var a3 := a2.(stdout := a.stdout.(eof := true));
    var a4 := Drained(a, members, exit);
    var e: seq<Step> := [];
    var s5, s4, s3, s2, s1 := [Release] + e, [Finish] + ([Release] + e),
      [ReadEof(Stderr)] + ([Finish] + ([Release] + e)),
      [ReadEof(Stdout)] + ([ReadEof(Stderr)] + ([Finish] + ([Release] + e))),
      [DropInput] + ([ReadEof(Stdout)] + ([ReadEof(Stderr)] + ([Finish] + ([Release] + e))));
    assert EndSteps(members, exit) == [Reap(members, Some(exit))] + s1;
    QuietStep(r, Reap(members, Some(exit)), a1, s1, attempted, lastInput, command, sha);
    QuietStep(r.(active := Some(a1)), DropInput, a2, s2, attempted, lastInput, command, sha);
    QuietStep(r.(active := Some(a2)), ReadEof(Stdout), a3, s3, attempted, lastInput, command, sha);
    QuietStep(r.(active := Some(a3)), ReadEof(Stderr), a4, s4, attempted, lastInput, command, sha);
    ClosePerforms(r.(active := Some(a4)), attempted, lastInput, command, sha);
  }

  lemma ClosePerforms(r: Runtime, attempted: set<nat>, lastInput: nat, command: nat, sha: string -> string)
    requires Live(r) && r.active.value.exit.Some? && r.active.value.stdout.eof && r.active.value.stderr.eof
    ensures var a := r.active.value;
            var steps := [Finish] + ([Release] + []);
            && Perform(r, steps, sha) == Performed(r.(active := None, roots := r.roots - {a.id}),
                                                   [a.ExitEvent(sha), CleanupComplete(a.id, a.reaped)])
            && Polished(r, steps, attempted, lastInput, command)
  {
    hide Perform, Polished;
    var a := r.active.value;
    var r1 := r.(active := Some(a.(cleanupComplete := true)));
    var r2 := r1.(active := None, roots := r.roots - {a.id});
    assert attempted + {} == attempted;
    PerformFirst(r, Finish, [Release] + [], attempted, lastInput, command, sha);
    PerformFirst(r1, Release, [], attempted, lastInput, command, sha);
    PerformNothing(r2, attempted, lastInput, command, sha);
  }

  // ---- The replies are what the trace expects ---------------------------------------------------

  /** The guest and the trace agree between two commands. */
  predicate InAgreement(g: Guest, t: Trace, lastInput: nat, sha: string -> string) {
    && Simulates(g.runtime, t, StartedIn(t), lastInput, sha) && Orderly(g.runtime, GUEST_LIMITS)
    && Mirrors(g.runtime, t) && g.outage == InOutage(t)
  }

  lemma CurrentAgrees(g: Guest, t: Trace, lastInput: nat, sha: string -> string, k: nat)
    requires InAgreement(g, t, lastInput, sha) && Current(t) == Some(k)
    ensures g.runtime.active.Some?
    ensures var a := g.runtime.active.value;
            && a.id == k && Live(g.runtime) && Serving(a) && Consistent(a, GUEST_LIMITS)
            && StreamsAgree(a, t.StreamsOf(k), lastInput)
    ensures g.runtime.roots == {k} && g.runtime.pendingRemoval.None? && g.runtime.last == LastStart(t)
  {
    hide KnownOnly, Bounded, TotalsMatch, StreamsAgree, Consistent;
  }

  /** The steps of a command: what they report, that they are polite, and where they lead. */
  predicate Does(g: Guest, command: Command, served: map<string, string>, sha: string -> string, t: Trace,
                 lastInput: nat, id: nat,
                    events: seq<Event>, r': Runtime)
  {
    var steps := StepsFor(g, command, served);
    Perform(g.runtime, steps, sha) == Performed(r', events) && Polished(g.runtime, steps, StartedIn(t), lastInput, id)
  }

  lemma StartReports(g: Guest, t: Trace, lastInput: nat, sha: string -> string, served: map<string, string>, k: nat,
                     launch: LaunchIdentity, id: nat)
    returns (r': Runtime)
    requires InAgreement(g, t, lastInput, sha) && Current(t).None? && k !in StartedIn(t) && k !in t.invocations
    requires LastStart(t).Some? ==> LastStart(t).value < k
    ensures Does(g, Start(k, launch), served, sha, t, lastInput, id,
                 [WorkloadStarted(k, launch), PrintedLine(t, k, READY_LINE)], r')
    ensures r'.active.Some? && r'.active.value.id == k && Serving(r'.active.value) && r'.last == Some(k)
            && r'.pendingRemoval.None?
  {
    hide Simulates, Perform, Polished, Hex;
    var r, line := g.runtime, READY_LINE + "\n";
    var r1 := r.(active := Some(Fresh(k)), last := Some(k), roots := r.roots + {k});
    r' := r1.(active := Some(Fresh(k).Emit(Stdout, line)));
    var begun := StartedIn(t) + {k};
    PerformFirst(r, Begin(k, launch), [Read(Stdout, line)] + [], StartedIn(t), lastInput, id, sha);
    PerformFirst(r1, Read(Stdout, line), [], begun, lastInput, id, sha);
    assert begun + {} == begun;
    PerformNothing(r', begun, lastInput, id, sha);
    assert [Begin(k, launch)] + ([Read(Stdout, line)] + []) == StepsFor(g, Start(k, launch), served);
  }

  /** Taking one input line in whole. */
  function Fed(a: Invocation, data: Bytes): Invocation {
    a.(inputOffset := a.inputOffset + |data|, inputBytes := a.inputBytes + |data|)
  }

  lemma WritePerforms(r: Runtime, data: Bytes, rest: seq<Step>, attempted: set<nat>, lastInput: nat, id: nat,
                      sha: string -> string)
    requires Live(r) && Serving(r.active.value) && 0 < |data| <= MAX_STDIN_FRAME_BYTES && lastInput < id
    requires r.active.value.inputBytes + |data| <= GUEST_LIMITS.inputBytes
    ensures var a := r.active.value;
            var r' := r.(active := Some(Fed(a, data)));
            var steps := [Write(data), Flush(|data|)] + rest;
            && Perform(r, steps, sha) == Performed(Perform(r', rest, sha).runtime,
                 [InputAccepted(a.id, a.inputOffset + |data|, |data|, false)] + Perform(r', rest, sha).events)
            && (Polished(r', rest, attempted, id, id) ==> Polished(r, steps, attempted, lastInput, id))
  {
    hide Perform, Polished;
    var a := r.active.value;
    var r1 := r.(active := Some(a.Accept(data)));
    assert [] + data == data && data[|data|..] == [];
    assert a.Accept(data).Flush(|data|) == Fed(a, data);
    assert attempted + {} == attempted;
    PerformFirst(r, Write(data), [Flush(|data|)] + rest, attempted, lastInput, id, sha);
    QuietStep(r1, Flush(|data|), Fed(a, data), rest, attempted, id, id, sha);
    assert [Write(data), Flush(|data|)] + rest == [Write(data)] + ([Flush(|data|)] + rest);
  }

  lemma ReadPerforms(r: Runtime, stream: Stream, data: Bytes, rest: seq<Step>, attempted: set<nat>, lastInput: nat,
                     id: nat, sha: string -> string)
    requires Live(r) && !r.active.value.StreamOf(stream).eof && 0 < |data| <= MAX_OUTPUT_FRAME_BYTES
    requires r.active.value.StreamOf(stream).bytes + |data| <= GUEST_LIMITS.outputBytes
    ensures var a := r.active.value;
            var r' := r.(active := Some(a.Emit(stream, data)));
            var steps := [Read(stream, data)] + rest;
            && Perform(r, steps, sha) == Performed(Perform(r', rest, sha).runtime,
                                                   [a.Output(stream, data)] + Perform(r', rest, sha).events)
            && (Polished(r', rest, attempted, lastInput, id) ==> Polished(r, steps, attempted, lastInput, id))
  {
    hide Perform, Polished, Hex;
    assert attempted + {} == attempted;
    PerformFirst(r, Read(stream, data), rest, attempted, lastInput, id, sha);
  }

  /** The room that is left in both directions. */
  lemma RoomIsLeft(a: Invocation, s: InvocationStreams, texts: seq<string>, lastInput: nat, id: nat)
    requires StreamsAgree(a, s, lastInput) && Consistent(a, GUEST_LIMITS) && Speaking(s, texts, id) && |texts| < 1024
    ensures a.inputOffset == s.inputOffset && a.inputBytes + MAX_STDIN_FRAME_BYTES <= GUEST_LIMITS.inputBytes
    ensures a.stdout.offset == |s.stdout.bytes| && a.stdout.bytes + MAX_OUTPUT_FRAME_BYTES <= GUEST_LIMITS.outputBytes
    ensures a.stderr.offset == 0 && a.stderr.bytes + MAX_OUTPUT_FRAME_BYTES <= GUEST_LIMITS.outputBytes
    ensures a.sequence == s.sequence && a.frames == s.frames
    ensures a.stdout.bytes == |s.stdout.bytes| && a.stdout.hashed == s.stdout.bytes && a.stderr.bytes == 0
            && a.stderr.hashed == ""
  {}

  lemma LineIsTaken(g: Guest, k: nat, line: Bytes)
    requires IsActive(g, k) && |line| + 1 <= MAX_STDIN_FRAME_BYTES
    ensures LineOf(g, StdinWrite(k, g.runtime.active.value.inputOffset, Hex(line + "\n"))) == Some(line)
  {
    hide Hex, Unhex;
    var data := line + "\n";
    UnhexExact(Hex(data), MAX_STDIN_FRAME_BYTES, data);
    assert data[..|data| - 1] == line && data[|data| - 1] == '\n';
  }

  /** A line in, a line out. */
  lemma InputReports(g: Guest, t: Trace, lastInput: nat, sha: string -> string, served: map<string, string>, k: nat,
                     texts: seq<string>,
                     line: Bytes, out: Bytes, id: nat) returns (r': Runtime)
    requires InAgreement(g, t, lastInput, sha) && Current(t) == Some(k) && lastInput < id
    requires Speaking(t.StreamsOf(k), texts, id) && |texts| < 1024
    requires |line| + 1 <= MAX_STDIN_FRAME_BYTES && |out| <= MAX_RESPONSE_LINE_BYTES
    requires Respond(g.program, line, g.outage, served) == Says(out)
    ensures var offset := t.StreamsOf(k).inputOffset;
            var command := StdinWrite(k, offset, Hex(line + "\n"));
            && Does(g, command, served, sha, t, lastInput, id,
                    [InputAccepted(k, offset + (|line| + 1), |line| + 1, false), PrintedLine(t, k, out)], r')
            && LineOf(g, command) == Some(line)
    ensures r'.active.Some? && r'.active.value.id == k && Serving(r'.active.value) && r'.last == g.runtime.last
            && r'.pendingRemoval.None?
  {
    hide Perform, Polished, Hex, InAgreement, Speaking, StreamsAgree, Consistent, Respond, LineOf;
    CurrentAgrees(g, t, lastInput, sha, k);
    var r, a, s := g.runtime, g.runtime.active.value, t.StreamsOf(k);
    RoomIsLeft(a, s, texts, lastInput, id);
    LineIsTaken(g, k, line);
    var data, said := line + "\n", out + "\n";
    var r1 := r.(active := Some(Fed(a, data)));
    var attempted := StartedIn(t);
    r' := r1.(active := Some(Fed(a, data).Emit(Stdout, said)));
    WritePerforms(r, data, [Read(Stdout, said)] + [], attempted, lastInput, id, sha);
    ReadPerforms(r1, Stdout, said, [], attempted, id, id, sha);
    PerformNothing(r', attempted, id, id, sha);
    assert [Write(data), Flush(|data|)] + ([Read(Stdout, said)] + []) ==
           [Write(data), Flush(|line| + 1)] + [Read(Stdout, said)];
  }

  /** The event of a line on standard error, the first of its invocation. */
  function ErrorLine(t: Trace, k: nat, message: Bytes): Event {
    WorkloadOutput(k, Stderr, 0, t.StreamsOf(k).sequence + 1, Hex(message + "\n"))
  }

  /** The exit record of an invocation that wrote `errors` to standard error in its last frame. */
  function DyingExit(t: Trace, k: nat, exit: ProcessExit, errors: Bytes, sha: string -> string): Event {
    var s := t.StreamsOf(k);
    WorkloadExited(k, exit, |s.stdout.bytes|, sha(s.stdout.bytes), |errors|, sha(errors), s.frames + 1)
  }

  /** A line in, a last word and the end. */
  lemma DyingReports(g: Guest, t: Trace, lastInput: nat, sha: string -> string, served: map<string, string>, k: nat,
                     texts: seq<string>,
                     line: Bytes, message: Bytes, code: int, id: nat) returns (r': Runtime)
    requires InAgreement(g, t, lastInput, sha) && Current(t) == Some(k) && lastInput < id
    requires Speaking(t.StreamsOf(k), texts, id) && |texts| < 1024
    requires |line| + 1 <= MAX_STDIN_FRAME_BYTES && |message| <= MAX_RESPONSE_LINE_BYTES
    requires Respond(g.program, line, g.outage, served) == Dies(message, code)
    ensures var offset := t.StreamsOf(k).inputOffset;
            var command := StdinWrite(k, offset, Hex(line + "\n"));
            && Does(g, command, served, sha, t, lastInput, id,
                    [InputAccepted(k, offset + (|line| + 1), |line| + 1, false), ErrorLine(t, k, message)]
                    + [DyingExit(t, k, Exited(code), message + "\n", sha), CleanupComplete(k, Members(g))], r')
            && LineOf(g, command) == Some(line)
    ensures r'.active.None? && r'.roots == {} && r'.last == g.runtime.last && r'.pendingRemoval.None?
  {
    hide Perform, Polished, Hex, InAgreement, Speaking, StreamsAgree, Consistent, Respond, LineOf, EndSteps;
    CurrentAgrees(g, t, lastInput, sha, k);
    var r, a, s := g.runtime, g.runtime.active.value, t.StreamsOf(k);
    RoomIsLeft(a, s, texts, lastInput, id);
    LineIsTaken(g, k, line);
    var data, said, end := line + "\n", message + "\n", EndSteps(Members(g), Exited(code));
    var attempted := StartedIn(t);
    var r1 := r.(active := Some(Fed(a, data)));
    var r2 := r1.(active := Some(Fed(a, data).Emit(Stderr, said)));
    WritePerforms(r, data, [Read(Stderr, said)] + end, attempted, lastInput, id, sha);
    ReadPerforms(r1, Stderr, said, end, attempted, id, id, sha);
    EndPerforms(r2, Members(g), Exited(code), attempted, id, id, sha);
    assert "" + said == said;
    r' := r2.(active := None, roots := r2.roots - {k});
    assert [Write(data), Flush(|data|)] + ([Read(Stderr, said)] + end) == [Write(data),
        Flush(|line| + 1)] + ([Read(Stderr, said)] + end);
  }

  /** A kill, and the end. */
  lemma KillReports(g: Guest, t: Trace, lastInput: nat, sha: string -> string, served: map<string, string>, k: nat,
                    texts: seq<string>, id: nat)
    returns (r': Runtime)
    requires InAgreement(g, t, lastInput, sha) && Current(t) == Some(k) && Speaking(t.StreamsOf(k), texts, id)
             && |texts| < 1024
    ensures Does(g, Terminate(k), served, sha, t, lastInput, id,
                 [TerminationRequested(k, TERMINATION_SIGNAL)]
                 + [MatchingExit(t, k, Signaled(TERMINATION_SIGNAL), sha), CleanupComplete(k, Members(g))], r')
    ensures r'.active.None? && r'.roots == {} && r'.last == g.runtime.last && r'.pendingRemoval.None?
  {
    hide Perform, Polished, InAgreement, Speaking, StreamsAgree, Consistent, EndSteps;
    CurrentAgrees(g, t, lastInput, sha, k);
    var r, a := g.runtime, g.runtime.active.value;
    RoomIsLeft(a, t.StreamsOf(k), texts, lastInput, id);
    SpeakersAreQuiet(t.StreamsOf(k), texts, id);
    var end, attempted := EndSteps(Members(g), Signaled(TERMINATION_SIGNAL)), StartedIn(t);
    var r1 := r.(active := Some(a.(terminating := true, pendingInput := [], stdinOpen := false)));
    assert attempted + {} == attempted;
    PerformFirst(r, Kill, end, attempted, lastInput, id, sha);
    EndPerforms(r1, Members(g), Signaled(TERMINATION_SIGNAL), attempted, lastInput, id, sha);
    r' := r1.(active := None, roots := r1.roots - {k});
  }

  lemma SpeakersAreQuiet(s: InvocationStreams, texts: seq<string>, id: nat)
    requires Speaking(s, texts, id)
    ensures s.stderr == NO_LINES
  {}

  /** The end of input, and the end. */
  lemma CloseReports(g: Guest, t: Trace, lastInput: nat, sha: string -> string, served: map<string, string>, k: nat,
                     texts: seq<string>, id: nat)
    returns (r': Runtime)
    requires InAgreement(g, t, lastInput, sha) && Current(t) == Some(k) && Speaking(t.StreamsOf(k), texts, id)
             && |texts| < 1024
    requires lastInput < id
    ensures Does(g, StdinEof(k), served, sha, t, lastInput, id,
                 [InputAccepted(k, t.StreamsOf(k).inputOffset, 0, true)]
                 + [MatchingExit(t, k, Exited(0), sha), CleanupComplete(k, Members(g))], r')
    ensures r'.active.None? && r'.roots == {} && r'.last == g.runtime.last && r'.pendingRemoval.None?
  {
    hide Perform, Polished, InAgreement, Speaking, StreamsAgree, Consistent, EndSteps;
    CurrentAgrees(g, t, lastInput, sha, k);
    var r, a := g.runtime, g.runtime.active.value;
    RoomIsLeft(a, t.StreamsOf(k), texts, lastInput, id);
    SpeakersAreQuiet(t.StreamsOf(k), texts, id);
    var end, attempted := EndSteps(Members(g), Exited(0)), StartedIn(t);
    var a1 := a.(eofRequested := true);
    var r1 := r.(active := Some(a1));
    var r2 := r.(active := Some(a1.(stdinOpen := false)));
    assert attempted + {} == attempted;
    assert a1.Flush(0) == a1.(stdinOpen := false);
    PerformFirst(r, CloseInput, [Flush(0)] + end, attempted, lastInput, id, sha);
    QuietStep(r1, Flush(0), a1.(stdinOpen := false), end, attempted, id, id, sha);
    EndPerforms(r2, Members(g), Exited(0), attempted, id, id, sha);
    r' := r2.(active := None, roots := r2.roots - {k});
    assert [CloseInput] + ([Flush(0)] + end) == [CloseInput, Flush(0)] + end;
  }
}
