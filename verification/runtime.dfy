/** The guest process runtime itself: loops over system calls and fields updated in place. Its ghost
    journal is a run of the machine in `Machine` that ends in the object's present state, so what is
    proved of every run holds of the object. */
module GuestRuntime {
  import opened Protocol
  import opened Machine
  import opened Environment
  import opened Courtesy

  const MAX_SERVICE_FRAMES: nat := 64
  const MAX_SERVICE_BYTES: nat := 64 * 1024

  /** Half of what is left, rounded up. */
  function Half(n: nat): (h: nat)
    ensures h <= n && (n > 0 ==> h > 0) && (n > 1 ==> h < n)
  {
    (n + 1) / 2
  }

  /** What the agent had emitted, and how much of the log that covers, when it took the present command. */
  class Ledger {
    ghost var frames: seq<EventFrame>
    ghost var mark: nat
    ghost var command: nat

    constructor ()
      ensures frames == [] && mark == 0 && command == 0
    {
      frames, mark, command := [], 0, 0;
    }
  }

  /** How many of the reported events a command caused. An object apart, so that a method that may not
      modify it is one that reports no such event. */
  class Tally {
    ghost var count: nat

    constructor ()
      ensures count == 0
    {
      count := 0;
    }
  }

  /** The run so far: its steps, the state it reached and the events it reported. */
  class Journal {
    const limits: ValidLimits
    const sha: string -> string
    const ledger: Ledger
    const tally: Tally
    ghost var steps: seq<Step>
    ghost var state: Runtime
    ghost var log: seq<Event>

    constructor (limits: ValidLimits, sha: string -> string)
      ensures Holds() && state == IDLE && log == [] && fresh(this) && fresh(ledger) && fresh(tally)
      ensures ledger.frames == [] && ledger.mark == 0
      ensures this.limits == limits && this.sha == sha
    {
      this.limits, this.sha := limits, sha;
      ledger := new Ledger();
      tally := new Tally();
      steps, state, log := [], IDLE, [];
      NothingStands(sha);
      FramedNone(1, 0);
    }

    /** The frames of everything reported so far, those of the present command included. */
    ghost function Frames(): seq<EventFrame>
      reads this, ledger
      requires ledger.mark <= |log|
    {
      ledger.frames + Framed(log[ledger.mark..], |ledger.frames| + 1, ledger.command)
    }

    /** The steps are a run that leads here and reports the log; and if the frames keep the promises of the
        host, their trace stands for the runtime. */
    ghost predicate Runs()
      reads this, ledger
    {
      && Possible(steps, IDLE, limits) && After(steps, IDLE, limits) == state
      && Reported(steps, IDLE, limits, sha) == log
      && ledger.mark <= |log| && (Courteous(Frames()) ==> StandsFor(Frames(), state, sha))
    }

    ghost predicate Holds()
      reads this, ledger, tally
    {
      Runs() && tally.count == LoudIn(log)
    }

    ghost method Append(step: Step)
      requires Runs() && Enabled(state, step, limits)
      modifies this
      ensures Runs() && state == Next(old(state), step, limits)
      ensures log == old(log) + Reports(old(state), step, limits, sha)
    {
      hide Courteous, StandsFor, Framed, Enabled, Next, Reports;
      var more := Reports(state, step, limits, sha);
      FramesGrow(ledger.frames, log[ledger.mark..], more, ledger.command);
      assert (log + more)[ledger.mark..] == log[ledger.mark..] + more;
      RunsAreOrderly(steps, limits);
      StepAppends(steps, step, IDLE, limits, sha);
      if Courteous(Frames() + Framed(more, |Frames()| + 1, ledger.command)) {
        CourteousBefore(Frames(), Framed(more, |Frames()| + 1, ledger.command));
        StepIsCarried(Frames(), state, step, ledger.command, limits, sha);
      }
      log := log + more;
      state := Next(state, step, limits);
      steps := steps + [step];
    }

    /** A step that no command causes. */
    ghost method Record(step: Step)
      requires Holds() && Enabled(state, step, limits) && !ByCommand(step)
      modifies this
      ensures Holds() && state == Next(old(state), step, limits)
      ensures log == old(log) + Reports(old(state), step, limits, sha)
    {
      hide Runs;
      LoudAppend(log, Reports(state, step, limits, sha));
      NoneLoud(Reports(state, step, limits, sha));
      Append(step);
    }

    /** A step that a command causes. */
    ghost method RecordCommand(step: Step)
      requires Holds() && Enabled(state, step, limits)
      modifies this, tally
      ensures Holds() && state == Next(old(state), step, limits)
      ensures log == old(log) + Reports(old(state), step, limits, sha)
    {
      hide Runs;
      Append(step);
      tally.count := LoudIn(log);
    }

    /** The next command: what is reported from here on is reported under it. */
    ghost method TakeCommand(command: nat)
      requires Holds() && ledger.mark == |log|
      modifies ledger`command
      ensures Holds() && ledger.command == command && Frames() == ledger.frames
    {
      hide Framed, Courteous, StandsFor;
      assert log[ledger.mark..] == [];
      FramedNone(|ledger.frames| + 1, ledger.command);
      FramedNone(|ledger.frames| + 1, command);
      assert ledger.frames + [] == ledger.frames;
      ledger.command := command;
    }

    /** The command is done: everything reported under it was emitted, and then what the network and the
        agent themselves report. */
    ghost method Settle(tail: seq<Event>)
      requires Holds() && forall i | 0 <= i < |tail| :: OfNetwork(tail[i])
      modifies ledger
      ensures Holds() && ledger.mark == |log|
      ensures ledger.frames == old(Frames()) + Framed(tail, |old(Frames())| + 1, old(ledger.command))
    {
      hide Framed, Courteous, StandsFor, OfNetwork;
      var sofar := Frames();
      NetworkEventsAreCarried(sofar, tail, ledger.command, state, sha);
      var all := sofar + Framed(tail, |sofar| + 1, ledger.command);
      ledger.frames, ledger.mark := all, |log|;
      assert log[|log|..] == [];
      FramedNone(|all| + 1, ledger.command);
      assert all + [] == all;
    }

    /** Whatever holds of every run's end state holds of the present state. */
    lemma IsOrderly()
      requires Holds()
      ensures Orderly(state, limits)
    {
      RunsAreOrderly(steps, limits);
    }

    lemma OpenInputGoesOn()
      requires Holds() && state.active.Some? && state.active.value.stdinOpen
      ensures !state.active.value.terminating
    {
      IsOrderly();
    }

    lemma RootsAreKnown()
      requires Holds()
      ensures state.active.None? && state.pendingRemoval.None? ==> state.roots == {}
      ensures state.active.Some? ==> state.roots == {state.active.value.id}
    {
      IsOrderly();
    }

    lemma Counts()
      requires Holds()
      ensures tally.count == LoudIn(log) && ledger.mark <= |log|
      ensures Courteous(Frames()) ==> StandsFor(Frames(), state, sha)
    {}

    lemma ExitIsReaped()
      requires Holds() && state.active.Some? && state.active.value.exit.Some?
      ensures state.active.value.reaped >= 1
    {
      IsOrderly();
    }

    // The steps of a live invocation, each with the state it leads to.

    ghost method RecordRead(stream: Stream, data: Bytes)
      requires Holds() && Live(state) && !state.active.value.StreamOf(stream).eof
      requires 0 < |data| <= limits.outputFrameBytes
      requires state.active.value.StreamOf(stream).bytes + |data| <= limits.outputBytes
      modifies this
      ensures Holds() && state == old(state).(active := Some(old(state).active.value.Emit(stream, data)))
      ensures log == old(log) + [old(state).active.value.Output(stream, data)]
    {
      hide Journal.Holds;
      Record(Read(stream, data));
    }

    ghost method RecordEof(stream: Stream)
      requires Holds() && Live(state)
      modifies this
      ensures Holds() && state == old(state).(active := Some(old(state).active.value.AtEof(stream)))
      ensures log == old(log)
    {
      hide Journal.Holds;
      Record(ReadEof(stream));
    }

    ghost method RecordFlush(count: nat)
      requires Holds() && Live(state) && count <= |state.active.value.pendingInput|
      modifies this
      ensures Holds() && state == old(state).(active := Some(old(state).active.value.Flush(count)))
      ensures log == old(log)
    {
      hide Journal.Holds;
      Record(Flush(count));
    }

    ghost method RecordReap(count: nat, exit: Option<ProcessExit>)
      requires Holds() && Live(state) && (exit.Some? ==> count >= 1 && state.active.value.exit.None?)
      modifies this
      ensures Holds() && log == old(log)
      ensures var a := old(state).active.value;
              state == old(state).(active := Some(a.(reaped := a.reaped + count,
                                                     exit := if exit.Some? then exit else a.exit)))
    {
      hide Journal.Holds;
      Record(Reap(count, exit));
    }

    ghost method RecordDropInput()
      requires Holds() && Live(state)
      modifies this
      ensures Holds() && log == old(log)
      ensures state == old(state).(active := Some(old(state).active.value.(stdinOpen := false)))
    {
      hide Journal.Holds;
      Record(DropInput);
    }

    ghost method RecordWrite(data: Bytes)
      requires Holds() && Live(state) && !state.active.value.InputClosed()
      requires 0 < |data| <= limits.inputFrameBytes && state.active.value.inputBytes + |data| <= limits.inputBytes
      modifies this, tally
      ensures Holds() && state == old(state).(active := Some(old(state).active.value.Accept(data)))
      ensures var a := old(state).active.value;
              log == old(log) + [InputAccepted(a.id, a.inputOffset + |data|, |data|, false)]
    {
      hide Journal.Holds;
      RecordCommand(Write(data));
    }

    ghost method RecordCloseInput()
      requires Holds() && Live(state) && !state.active.value.terminating && !state.active.value.eofRequested
      modifies this, tally
      ensures Holds() && state == old(state).(active := Some(old(state).active.value.(eofRequested := true)))
      ensures var a := old(state).active.value; log == old(log) + [InputAccepted(a.id, a.inputOffset, 0, true)]
    {
      hide Journal.Holds;
      RecordCommand(CloseInput);
    }

    ghost method RecordKill()
      requires Holds() && Live(state) && state.active.value.exit.None?
      modifies this, tally
      ensures Holds()
      ensures var a := old(state).active.value;
              && state == old(state).(active := Some(a.(terminating := true, pendingInput := [], stdinOpen := false)))
              && log == old(log) + [TerminationRequested(a.id, TERMINATION_SIGNAL)]
    {
      hide Journal.Holds;
      RecordCommand(Kill);
    }

    ghost method RecordRelease()
      requires Holds() && state.active.Some? && state.active.value.cleanupComplete
      modifies this
      ensures Holds() && log == old(log)
      ensures state == old(state).(active := None, roots := old(state).roots - {old(state).active.value.id})
    {
      hide Journal.Holds;
      Record(Release);
    }

    ghost method RecordRetry()
      requires Holds() && state.pendingRemoval.Some?
      modifies this
      ensures Holds() && log == old(log)
      ensures state == old(state).(pendingRemoval := None,
                                   roots := old(state).roots - {old(state).pendingRemoval.value})
    {
      hide Journal.Holds;
      Record(Retry);
    }

    ghost method RecordBegin(invocation: nat, launch: LaunchIdentity)
      requires Holds() && state.pendingRemoval.None? && state.active.None?
      requires (state.last.Some? ==> state.last.value < invocation) && invocation !in state.roots
      modifies this, tally
      ensures Holds() && log == old(log) + [WorkloadStarted(invocation, launch)]
      ensures state == old(state).(active := Some(Fresh(invocation)), last := Some(invocation),
                                   roots := old(state).roots + {invocation})
    {
      hide Journal.Holds;
      RecordCommand(Begin(invocation, launch));
    }

    ghost method RecordRefuse(invocation: nat, failure: LaunchFailure, taken: bool, leftover: bool)
      requires Holds()
      requires taken ==> && state.pendingRemoval.None? && state.active.None?
                         && (state.last.Some? ==> state.last.value < invocation)
      requires leftover ==> taken && invocation !in state.roots
      modifies this, tally
      ensures Holds() && log == old(log) + [LaunchFailed(invocation, failure)]
      ensures state == old(state).(last := if taken then Some(invocation) else old(state).last,
                                   pendingRemoval := if leftover then Some(invocation) else old(state).pendingRemoval,
                                   roots := if leftover then old(state).roots + {invocation} else old(state).roots)
    {
      hide Journal.Holds;
      RecordCommand(Refuse(invocation, failure, taken, leftover));
    }

    ghost method RecordFinish()
      requires Holds() && Live(state) && state.active.value.exit.Some?
      requires state.active.value.stdout.eof && state.active.value.stderr.eof
      modifies this
      ensures Holds() && state == old(state).(active := Some(old(state).active.value.(cleanupComplete := true)))
      ensures var a := old(state).active.value;
              log == old(log) + [a.ExitEvent(sha), CleanupComplete(a.id, a.reaped)]
    {
      hide Journal.Holds;
      Record(Finish);
    }
  }

  lemma Advance(sent: Bytes, queue: Bytes, count: nat, n: nat)
    requires count <= |queue| && n <= |queue[count..]|
    ensures (sent + queue[..count]) + queue[count..][..n] == sent + queue[..count + n]
    ensures queue[count..][n..] == queue[count + n..]
  {
    assert queue[..count] + queue[count..][..n] == queue[..count + n];
  }

  lemma Splice(sent: Bytes, queue: Bytes, count: nat)
    requires count <= |queue|
    ensures (sent + queue[..count]) + queue[count..] == sent + queue
    ensures sent + queue[..count] <= sent + queue
  {}

  lemma Enqueue(sent: Bytes, queue: Bytes, accepted: Bytes, data: Bytes)
    requires sent + queue == accepted
    ensures sent + (queue + data) == accepted + data && sent <= accepted + data
    ensures |accepted + data| == |accepted| + |data|
  {
    assert sent + (queue + data) == (sent + queue) + data;
  }

  /** One supervised workload process and its pipes. */
  class GuestInvocation {
    const id: nat
    const kernel: Kernel
    const input: InputPipe
    const out: OutputPipe
    const err: OutputPipe
    const journal: Journal
    var stdinOpen: bool
    var stdout: StreamState
    var stderr: StreamState
    var inputOffset: nat
    var inputBytes: nat
    var pendingInput: Bytes
    var eofRequested: bool
    var terminating: bool
    var sequence: nat
    var frames: nat
    var exit: Option<ProcessExit>
    var reaped: nat
    var cleanupComplete: bool
    /** Every input byte accepted so far. */
    ghost var accepted: Bytes
    /** No read has failed or overrun the output limit. */
    ghost var intact: bool

    ghost function State(): Invocation
      reads this
    {
      Invocation(id, stdinOpen, stdout, stderr, inputOffset, inputBytes, pendingInput, eofRequested,
                 terminating, sequence, frames, exit, reaped, cleanupComplete)
    }

    ghost function Footprint(): set<object> {
      {this, kernel, input, out, err, journal}
    }

    /** Input is conserved: what the child received is a prefix of what was accepted, and what is
        queued is the rest of it until termination. */
    ghost predicate InputValid()
      reads this, input
    {
      && |accepted| == inputOffset
      && input.delivered <= accepted
      && (!terminating ==> input.delivered + pendingInput == accepted)
    }

    /** A stream at its end has nothing left, and until a read fails the hashed bytes are exactly the
        bytes read. */
    ghost predicate OutputValid()
      reads this, out, err
    {
      && (intact ==> stdout.hashed == out.consumed && stderr.hashed == err.consumed)
      && (stdout.eof ==> out.waiting == [] && !out.writers)
      && (stderr.eof ==> err.waiting == [] && !err.writers)
    }

    ghost predicate Valid()
      reads Footprint(), journal.ledger, journal.tally
    {
      && out != err
      && journal.Holds() && journal.state.active == Some(State())
      && InputValid() && OutputValid()
    }

    constructor (id: nat, kernel: Kernel, journal: Journal)
      requires journal.Holds() && journal.state.active == Some(Fresh(id))
      ensures State() == Fresh(id) && Valid() && intact
      ensures this.journal == journal && this.kernel == kernel
      ensures fresh(input) && fresh(out) && fresh(err)
    {
      this.id, this.kernel, this.journal := id, kernel, journal;
      input := new InputPipe();
      out := new OutputPipe();
      err := new OutputPipe();
      stdinOpen, stdout, stderr := true, FRESH_STREAM, FRESH_STREAM;
      inputOffset, inputBytes, pendingInput, eofRequested, terminating := 0, 0, [], false, false;
      sequence, frames, exit, reaped, cleanupComplete := 0, 0, None, 0, false;
      accepted, intact := [], true;
    }

    /** The write loop: hand queued bytes to the pipe until it is full or they are gone. */
    method WriteQueued() returns (ok: bool, ghost count: nat)
      requires InputValid() && !terminating
      modifies this`pendingInput, input, kernel`interrupts, kernel`failures
      ensures InputValid() && kernel.interrupts <= old(kernel.interrupts)
      ensures count <= old(|pendingInput|) && pendingInput == old(pendingInput)[count..]
      ensures input.delivered == old(input.delivered) + old(pendingInput)[..count]
      ensures !ok ==> pendingInput != [] && kernel.failures > old(kernel.failures)
      ensures ok ==> (pendingInput == [] || input.full) && kernel.failures == old(kernel.failures)
    {
      hide Journal.Holds;
      ghost var queue, sent := pendingInput, input.delivered;
      count, ok := 0, true;
      var going := true;
      while going && pendingInput != []
        invariant kernel.interrupts <= old(kernel.interrupts)
        invariant count <= |queue| && pendingInput == queue[count..]
        invariant input.delivered == sent + queue[..count]
        invariant !ok ==> !going && pendingInput != [] && kernel.failures > old(kernel.failures)
        invariant ok ==> kernel.failures == old(kernel.failures) && (going || input.full)
        decreases going, |pendingInput|, kernel.interrupts
      {
        var written := input.Write(pendingInput, kernel);
        match written
        case WriteInterrupted =>
        case WriteWouldBlock =>
          going := false;
        case WriteError =>
          going, ok := false, false;
        case Wrote(n) =>
          if n == 0 {
            going, ok := false, false;
          } else {
            Advance(sent, queue, count, n);
            pendingInput := pendingInput[n..];
            count := count + n;
          }
      }
      Splice(sent, queue, count);
    }

    /** Write what the pipe takes, and close it behind the last byte once the end of input was
        requested. */
    method FlushInput() returns (ok: bool)
      requires Valid() && !cleanupComplete
      modifies this`pendingInput, this`stdinOpen, input, kernel`interrupts, kernel`failures, journal
      ensures Valid() && journal.log == old(journal.log)
      ensures exists count :: 0 <= count <= |old(pendingInput)| && State() == old(State()).Flush(count)
      ensures old(stdinOpen) && !stdinOpen ==> ok && eofRequested && input.delivered == accepted
      ensures ok && old(stdinOpen) ==> && (pendingInput == [] || input.full)
                                       && (!stdinOpen <==> pendingInput == [] && eofRequested)
      ensures kernel.interrupts <= old(kernel.interrupts) && kernel.failures >= old(kernel.failures)
      ensures ok <==> kernel.failures == old(kernel.failures)
      ensures journal.state == old(journal.state).(active := Some(State()))
    {
      hide Journal.Holds, Orderly;
      if !stdinOpen {
        assert State() == old(State()).Flush(0);
        return true;
      }
      ghost var count;
      journal.OpenInputGoesOn();
      ok, count := WriteQueued();
      if ok && pendingInput == [] && eofRequested {
        stdinOpen := false;
        assert input.delivered + [] == input.delivered;
      }
      journal.RecordFlush(count);
    }

    /** Count one frame and append it to the queue. */
    method AppendFrame(data: Bytes)
      modifies this`inputOffset, this`inputBytes, this`pendingInput
      ensures State() == old(State()).Accept(data)
    {
      hide Journal.Holds;
      inputOffset := inputOffset + |data|;
      inputBytes := inputBytes + |data|;
      pendingInput := pendingInput + data;
    }

    /** Queue one accepted frame. */
    method QueueFrame(data: Bytes)
      requires Valid() && !cleanupComplete && !State().InputClosed()
      requires 0 < |data| <= journal.limits.inputFrameBytes && inputBytes + |data| <= journal.limits.inputBytes
      modifies this`inputOffset, this`inputBytes, this`pendingInput, this`accepted, journal, journal.tally
      ensures Valid() && State() == old(State()).Accept(data) && accepted == old(accepted) + data
      ensures journal.state == old(journal.state).(active := Some(State()))
      ensures journal.log == old(journal.log) + [InputAccepted(id, inputOffset, |data|, false)]
    {
      hide Journal.Holds;
      Enqueue(input.delivered, pendingInput, accepted, data);
      ghost var after := State().Accept(data);
      journal.RecordWrite(data);
      assert journal.state.active == Some(after);
      AppendFrame(data);
      assert State() == after;
      assert journal.state.active == Some(after);
      accepted := accepted + data;
    }

    /** Queue one accepted frame and write what the pipe takes. */
    method AcceptFrame(data: Bytes) returns (ok: bool)
      requires Valid() && !cleanupComplete && !State().InputClosed()
      requires 0 < |data| <= journal.limits.inputFrameBytes && inputBytes + |data| <= journal.limits.inputBytes
      modifies this`inputOffset, this`inputBytes, this`pendingInput, this`stdinOpen, this`accepted, input,
               kernel`interrupts, kernel`failures, journal,
               journal.tally
      ensures kernel.failures >= old(kernel.failures)
      ensures ok <==> kernel.failures == old(kernel.failures)
      ensures Valid() && accepted == old(accepted) + data && inputOffset == old(inputOffset) + |data|
      ensures journal.state == old(journal.state).(active := Some(State()))
      ensures journal.log == old(journal.log) + [InputAccepted(id, inputOffset, |data|, false)]
    {
      hide Journal.Holds;
      QueueFrame(data);
      ok := FlushInput();
    }

    method RequestEof() returns (ok: bool)
      requires Valid() && !cleanupComplete && !terminating && !eofRequested
      modifies this`eofRequested, this`pendingInput, this`stdinOpen, input, kernel`interrupts, kernel`failures, journal,
               journal.tally
      ensures Valid() && eofRequested
      ensures kernel.failures >= old(kernel.failures)
      ensures ok <==> kernel.failures == old(kernel.failures)
      ensures journal.state == old(journal.state).(active := Some(State()))
      ensures journal.log == old(journal.log) + [InputAccepted(id, inputOffset, 0, true)]
    {
      hide Journal.Holds;
      journal.RecordCloseInput();
      eofRequested := true;
      ok := FlushInput();
    }

    method Kill()
      requires Valid() && !cleanupComplete && exit.None?
      modifies this`terminating, this`pendingInput, this`stdinOpen, journal, journal.tally
      ensures Valid() && terminating
      ensures journal.state == old(journal.state).(active := Some(State()))
      ensures journal.log == old(journal.log) + [TerminationRequested(id, TERMINATION_SIGNAL)]
    {
      hide Journal.Holds;
      journal.RecordKill();
      terminating, pendingInput, stdinOpen := true, [], false;
    }

    ghost function PipeOf(stream: Stream): OutputPipe {
      if stream.Stdout? then out else err
    }

    function StreamOf(stream: Stream): StreamState
      reads this
    {
      if stream.Stdout? then stdout else stderr
    }

    method SetStream(stream: Stream, state: StreamState)
      modifies this`stdout, this`stderr
      ensures State() == old(State()).With(stream, state)
    {
      hide Journal.Holds;
      if stream.Stdout? {
        stdout := state;
      } else {
        stderr := state;
      }
    }

    /** Count, hash and number one chunk, and describe it in an output event. */
    method EmitChunk(stream: Stream, data: Bytes) returns (event: Event)
      requires journal.Holds() && journal.state.active == Some(State()) && !cleanupComplete
      requires !StreamOf(stream).eof && 0 < |data| <= journal.limits.outputFrameBytes
      requires StreamOf(stream).bytes + |data| <= journal.limits.outputBytes
      modifies this`stdout, this`stderr, this`sequence, this`frames, journal
      ensures State() == old(State()).Emit(stream, data)
      ensures journal.Holds() && journal.state == old(journal.state).(active := Some(State()))
      ensures event == old(State()).Output(stream, data) && journal.log == old(journal.log) + [event]
    {
      hide Journal.Holds, Hex, Orderly;
      var state := StreamOf(stream);
      journal.RecordRead(stream, data);
      sequence := sequence + 1;
      frames := frames + 1;
      SetStream(stream, StreamState(state.offset + |data|, state.bytes + |data|, state.hashed + data, state.eof));
      var hex := EncodeBytes(data);
      event := WorkloadOutput(id, stream, state.offset, sequence, hex);
    }

    /** One read of one stream: `event` is present when a chunk was emitted. */
    method ReadChunk(stream: Stream, limit: nat) returns (outcome: ReadOutcome, event: Option<Event>)
      requires Valid() && !cleanupComplete && !StreamOf(stream).eof
      requires 0 < limit <= journal.limits.outputFrameBytes
      modifies this`stdout, this`stderr, this`sequence, this`frames, this`intact, journal, kernel`interrupts,
               kernel`failures,
               PipeOf(stream)
      ensures Valid() && !cleanupComplete
      ensures journal.state == old(journal.state).(active := Some(State()))
      ensures kernel.interrupts <= old(kernel.interrupts)
      ensures outcome.ReadInterrupted? ==> kernel.interrupts < old(kernel.interrupts)
      ensures kernel.failures >= old(kernel.failures)
      ensures outcome.ReadError? ==> kernel.failures > old(kernel.failures)
                                     || StreamOf(stream).bytes + limit > journal.limits.outputBytes
      ensures !outcome.ReadError? ==> kernel.failures == old(kernel.failures)
      ensures outcome.Data? ==> 0 < |outcome.bytes| <= limit && event.Some?
      ensures State() == match outcome
                         case Data(bytes) => old(State()).Emit(stream, bytes)
                         case EndOfFile => old(State()).AtEof(stream)
                         case _ => old(State())
      ensures journal.log == old(journal.log) + if event.Some? then [event.value] else []
      ensures event.Some? ==> outcome.Data?
      ensures !outcome.ReadError? ==> intact == old(intact)
      ensures outcome.ReadWouldBlock? || outcome.EndOfFile? ==> PipeOf(stream).waiting == []
      ensures outcome.Data? || outcome.ReadError? || old(PipeOf(stream).waiting) <= PipeOf(stream).waiting
    {
      hide Journal.Holds, Hex, Invocation.Output, Orderly;
      outcome, event := ReadError, None;
      var pipe := if stream.Stdout? then out else err;
      outcome := pipe.Read(limit, kernel);
      match outcome
      case Data(bytes) =>
        if StreamOf(stream).bytes + |bytes| > journal.limits.outputBytes {
          intact := false;
          outcome := ReadError;
        } else {
          var e := EmitChunk(stream, bytes);
          event := Some(e);
        }
      case EndOfFile =>
        journal.RecordEof(stream);
        SetStream(stream, StreamOf(stream).(eof := true));
      case ReadError =>
        intact := false;
      case _ =>
    }

    /** The output limit leaves no room for another full frame. */
    ghost predicate Brimming()
      reads this
    {
      || stdout.bytes + journal.limits.outputFrameBytes > journal.limits.outputBytes
      || stderr.bytes + journal.limits.outputFrameBytes > journal.limits.outputBytes
    }

    /** Drain one stream within a share of the batch. */
    method DrainStream(stream: Stream, maxFrames: nat, maxBytes: nat)
      returns (ok: bool, size: nat, events: seq<Event>)
      requires Valid() && !cleanupComplete
      modifies this`stdout, this`stderr, this`sequence, this`frames, this`intact, journal, kernel`interrupts,
               kernel`failures,
               PipeOf(stream)
      ensures Valid() && !cleanupComplete
      ensures journal.state == old(journal.state).(active := Some(State()))
      ensures journal.log == old(journal.log) + events
      ensures |events| <= maxFrames && size <= maxBytes
      ensures StreamOf(stream).bytes == old(StreamOf(stream).bytes) + size
      ensures (if stream.Stdout? then stderr else stdout) == old(if stream.Stdout? then stderr else stdout)
      ensures ok ==> intact == old(intact)
      ensures kernel.failures >= old(kernel.failures) && (ok ==> kernel.failures == old(kernel.failures))
      ensures !ok ==> kernel.failures > old(kernel.failures) || Brimming()
      ensures kernel.interrupts <= old(kernel.interrupts)
      ensures ok && |events| < maxFrames && size < maxBytes ==> StreamOf(stream).eof || PipeOf(stream).waiting == []
      ensures ok && maxFrames > 0 && maxBytes > 0 && !old(StreamOf(stream).eof) && old(PipeOf(stream).waiting) != []
              ==> |events| > 0
      ensures |events| == 0 <==> size == 0
    {
      hide Journal.Holds;
      ok, size, events := true, 0, [];
      if StreamOf(stream).eof {
        return;
      }
      var going := true;
      while going && |events| < maxFrames && size < maxBytes
        invariant Valid() && !cleanupComplete
        invariant journal.state == old(journal.state).(active := Some(State()))
        invariant journal.log == old(journal.log) + events
        invariant |events| <= maxFrames && size <= maxBytes
        invariant StreamOf(stream).bytes == old(StreamOf(stream).bytes) + size
        invariant (if stream.Stdout? then stderr else stdout) == old(if stream.Stdout? then stderr else stdout)
        invariant going ==> ok && !StreamOf(stream).eof
        invariant ok ==> intact == old(intact)
        invariant kernel.failures >= old(kernel.failures) && (ok ==> kernel.failures == old(kernel.failures))
        invariant !ok ==> kernel.failures > old(kernel.failures) || Brimming()
        invariant kernel.interrupts <= old(kernel.interrupts)
        invariant ok && !going ==> StreamOf(stream).eof || PipeOf(stream).waiting == []
        invariant ok && events == [] && going ==> old(PipeOf(stream).waiting) <= PipeOf(stream).waiting
        invariant ok && events == [] && !going ==> old(PipeOf(stream).waiting) == []
        invariant |events| == 0 <==> size == 0
        decreases going, maxFrames - |events|, kernel.interrupts
      {
        var left := maxBytes - size;
        var chunk := if journal.limits.outputFrameBytes < left then journal.limits.outputFrameBytes else left;
        var outcome, event := ReadChunk(stream, chunk);
        match outcome
        case Data(bytes) =>
          size := size + |bytes|;
          events := events + [event.value];
        case ReadInterrupted =>
        case ReadError =>
          going, ok := false, false;
        case _ =>
          going := false;
      }
    }

    ghost function Backlog(): nat
      reads this
    {
      stdout.bytes + stderr.bytes
    }

    /** Both pipes are empty or at their end. */
    ghost predicate Quiet()
      reads this, out, err
    {
      (stdout.eof || out.waiting == []) && (stderr.eof || err.waiting == [])
    }

    /** One turn of the batch: each stream is offered half of what is left. */
    method DrainRound(frames: nat, bytes: nat) returns (ok: bool, size: nat, events: seq<Event>)
      requires Valid() && !cleanupComplete && frames > 0 && bytes > 0
      modifies this`stdout, this`stderr, this`sequence, this`frames, this`intact, journal, kernel`interrupts,
               kernel`failures, out, err
      ensures Valid() && !cleanupComplete
      ensures journal.state == old(journal.state).(active := Some(State()))
      ensures journal.log == old(journal.log) + events
      ensures |events| <= frames && size <= bytes && Backlog() == old(Backlog()) + size
      ensures stdout.bytes >= old(stdout.bytes) && stderr.bytes >= old(stderr.bytes)
      ensures ok ==> intact == old(intact)
      ensures kernel.failures >= old(kernel.failures) && (ok ==> kernel.failures == old(kernel.failures))
      ensures !ok ==> kernel.failures > old(kernel.failures) || Brimming()
      ensures kernel.interrupts <= old(kernel.interrupts)
      ensures ok && !old(stdout.eof) && old(out.waiting) != [] ==> stdout.bytes > old(stdout.bytes)
      ensures ok && frames > 1 && bytes > 1 && !old(stderr.eof) && old(err.waiting) != [] ==>
                stderr.bytes > old(stderr.bytes)
      ensures ok && events == [] ==> Quiet()
    {
      hide Journal.Holds;
      ok, size, events := DrainStream(Stdout, Half(frames), Half(bytes));
      if !ok || frames == |events| || bytes == size {
        return;
      }
      var frames1, bytes1 := frames - |events|, bytes - size;
      var size1, events1;
      ok, size1, events1 := DrainStream(Stderr, Half(frames1), Half(bytes1));
      size, events := size + size1, events + events1;
    }

    /** Turn after turn until nothing is left of the budget or a turn finds nothing. */
    method DrainRounds(frames: nat, bytes: nat) returns (ok: bool, size: nat, events: seq<Event>)
      requires Valid() && !cleanupComplete
      modifies this`stdout, this`stderr, this`sequence, this`frames, this`intact, journal, kernel`interrupts,
               kernel`failures, out, err
      ensures Valid() && !cleanupComplete
      ensures journal.state == old(journal.state).(active := Some(State()))
      ensures journal.log == old(journal.log) + events
      ensures |events| <= frames && size <= bytes && Backlog() == old(Backlog()) + size
      ensures stdout.bytes >= old(stdout.bytes) && stderr.bytes >= old(stderr.bytes)
      ensures ok ==> intact == old(intact)
      ensures kernel.failures >= old(kernel.failures) && (ok ==> kernel.failures == old(kernel.failures))
      ensures !ok ==> kernel.failures > old(kernel.failures) || Brimming()
      ensures kernel.interrupts <= old(kernel.interrupts)
      ensures ok ==> |events| == frames || size == bytes || Quiet()
    {
      hide Journal.Holds;
      ok, size, events := true, 0, [];
      var going := true;
      while going && |events| < frames && size < bytes
        invariant Valid() && !cleanupComplete
        invariant journal.state == old(journal.state).(active := Some(State()))
        invariant journal.log == old(journal.log) + events
        invariant |events| <= frames && size <= bytes && Backlog() == old(Backlog()) + size
        invariant stdout.bytes >= old(stdout.bytes) && stderr.bytes >= old(stderr.bytes)
        invariant going ==> ok
        invariant ok ==> intact == old(intact)
        invariant kernel.failures >= old(kernel.failures) && (ok ==> kernel.failures == old(kernel.failures))
        invariant !ok ==> kernel.failures > old(kernel.failures) || Brimming()
        invariant kernel.interrupts <= old(kernel.interrupts)
        invariant ok && !going ==> Quiet()
        decreases going, frames - |events|
      {
        var size1, events1;
        ok, size1, events1 := DrainRound(frames - |events|, bytes - size);
        size, events := size + size1, events + events1;
        going := ok && events1 != [];
      }
    }

    /** Drain both streams fairly within one bounded batch: at most 64 frames and 65536 bytes, at
        least one frame from each stream that had bytes waiting, and no return before the budget is
        spent unless both pipes are empty or ended. */
    method DrainBatch() returns (ok: bool, events: seq<Event>)
      requires Valid() && !cleanupComplete
      modifies this`stdout, this`stderr, this`sequence, this`frames, this`intact, journal, kernel`interrupts,
               kernel`failures, out, err
      ensures Valid() && !cleanupComplete
      ensures journal.state == old(journal.state).(active := Some(State()))
      ensures journal.log == old(journal.log) + events
      ensures |events| <= MAX_SERVICE_FRAMES
      ensures Backlog() <= old(Backlog()) + MAX_SERVICE_BYTES
      ensures ok ==> intact == old(intact)
      ensures kernel.failures >= old(kernel.failures) && (ok ==> kernel.failures == old(kernel.failures))
      ensures !ok ==> kernel.failures > old(kernel.failures) || Brimming()
      ensures kernel.interrupts <= old(kernel.interrupts)
      ensures ok && !old(stdout.eof) && old(out.waiting) != [] ==> stdout.bytes > old(stdout.bytes)
      ensures ok && !old(stderr.eof) && old(err.waiting) != [] ==> stderr.bytes > old(stderr.bytes)
      ensures ok ==> || |events| == MAX_SERVICE_FRAMES || Backlog() == old(Backlog()) + MAX_SERVICE_BYTES
                     || Quiet()
    {
      hide Journal.Holds;
      var size;
      ok, size, events := DrainRound(MAX_SERVICE_FRAMES, MAX_SERVICE_BYTES);
      if ok && events != [] {
        var size1, events1;
        ok, size1, events1 := DrainRounds(MAX_SERVICE_FRAMES - |events|, MAX_SERVICE_BYTES - size);
        events := events + events1;
      }
    }

    /** Count one reaped member, keeping the primary's real status the first time. */
    method RecordReaped(primary: bool, wait: WaitStatus)
      requires Valid() && !cleanupComplete
      modifies this`reaped, this`exit, journal
      ensures Valid() && !cleanupComplete
      ensures journal.state == old(journal.state).(active := Some(State())) && journal.log == old(journal.log)
      ensures reaped == old(reaped) + 1
      ensures exit == if old(exit).None? && primary && !wait.OtherStatus?
                      then Some(if wait.ExitStatus? then Exited(wait.code) else Signaled(wait.signal)) else old(exit)
    {
      hide Journal.Holds;
      var status: Option<ProcessExit> := None;
      if primary && exit.None? {
        match wait
        case ExitStatus(code) => status := Some(Exited(code));
        case SignalStatus(signal) => status := Some(Signaled(signal));
        case OtherStatus =>
      }
      journal.RecordReap(1, status);
      reaped := reaped + 1;
      if status.Some? {
        exit := status;
      }
    }

    /** Reap every member that has ended. */
    method ReapChildren()
      requires Valid() && !cleanupComplete
      modifies this`reaped, this`exit, journal, kernel`living, kernel`ended
      ensures Valid() && !cleanupComplete && kernel.ended == 0
      ensures journal.state == old(journal.state).(active := Some(State())) && journal.log == old(journal.log)
      ensures reaped >= old(reaped)
      ensures old(exit).Some? ==> exit == old(exit)
      ensures old(exit).None? && exit.Some? ==> reaped > old(reaped)
    {
      hide Journal.Holds;
      var child := kernel.Wait();
      while child.Child?
        invariant Valid() && !cleanupComplete && (child.NoChild? ==> kernel.ended == 0)
        invariant journal.state == old(journal.state).(active := Some(State())) && journal.log == old(journal.log)
        invariant reaped >= old(reaped)
        invariant old(exit).Some? ==> exit == old(exit)
        invariant old(exit).None? && exit.Some? ==> reaped > old(reaped)
        decreases kernel.Children(), child.Child?
      {
        RecordReaped(child.primary, child.status);
        child := kernel.Wait();
      }
    }

    /** The last act of the barrier: report the exit with its totals and digests, then completion. */
    method Finish() returns (events: seq<Event>)
      requires Valid() && !cleanupComplete && exit.Some? && stdout.eof && stderr.eof
      modifies this`cleanupComplete, journal
      ensures Valid() && cleanupComplete && State() == old(State()).(cleanupComplete := true)
      ensures journal.state == old(journal.state).(active := Some(State())) && journal.log == old(journal.log) + events
      ensures events == [old(State()).ExitEvent(journal.sha), CleanupComplete(id, reaped)]
    {
      hide Journal.Holds;
      journal.RecordFinish();
      cleanupComplete := true;
      var sha := journal.sha;
      events := [WorkloadExited(id, exit.value, stdout.bytes, sha(stdout.hashed), stderr.bytes, sha(stderr.hashed),
                                frames),
                 CleanupComplete(id, reaped)];
    }

    /** Kill, reap and drain once; `done` when no member remains and both pipes have ended. */
    method CleanupTurn() returns (ok: bool, done: bool, events: seq<Event>)
      requires Valid() && !cleanupComplete
      modifies this`stdout, this`stderr, this`sequence, this`frames, this`intact, this`reaped, this`exit,
               journal, kernel, out, err
      ensures Valid() && !cleanupComplete
      ensures journal.state == old(journal.state).(active := Some(State()))
      ensures journal.log == old(journal.log) + events
      ensures ok ==> intact == old(intact)
      ensures done ==> ok && stdout.eof && stderr.eof
      ensures kernel.failures >= old(kernel.failures) && (ok ==> kernel.failures == old(kernel.failures))
      ensures !ok ==> kernel.failures > old(kernel.failures) || Brimming()
    {
      hide Journal.Holds;
      events, done := [], false;
      ok := kernel.Attempt();
      if !ok {
        return;
      }
      ReapChildren();
      ok, events := DrainBatch();
      if ok {
        var membersGone;
        ok, membersGone := kernel.Ask();
        done := ok && membersGone && stdout.eof && stderr.eof;
      }
    }

    /** Turn after turn until done. `ticks` is how many turns fit before the deadline; the first is always
        made. */
    method CleanupLoop(ticks: nat) returns (ok: bool, events: seq<Event>)
      requires Valid() && !cleanupComplete
      modifies this`stdout, this`stderr, this`sequence, this`frames, this`intact, this`reaped, this`exit,
               journal, kernel, out, err
      ensures Valid() && !cleanupComplete
      ensures journal.state == old(journal.state).(active := Some(State()))
      ensures journal.log == old(journal.log) + events
      ensures ok ==> stdout.eof && stderr.eof && intact == old(intact)
      ensures kernel.failures >= old(kernel.failures) && (ok ==> kernel.failures == old(kernel.failures))
      ensures !ok ==> kernel.failures > old(kernel.failures) || Brimming()
    {
      hide Journal.Holds;
      ok, events := true, [];
      var done, tick := false, 0;
      while ok && !done && (tick == 0 || tick < ticks)
        invariant Valid() && !cleanupComplete
        invariant journal.state == old(journal.state).(active := Some(State()))
        invariant journal.log == old(journal.log) + events
        invariant ok ==> intact == old(intact) && tick <= ticks + 1
        invariant kernel.failures >= old(kernel.failures) && (ok ==> kernel.failures == old(kernel.failures))
        invariant !ok ==> kernel.failures > old(kernel.failures) || Brimming()
        invariant done ==> ok && stdout.eof && stderr.eof
        decreases ticks + 1 - tick
      {
        var more;
        ok, done, more := CleanupTurn();
        events := events + more;
        tick := tick + 1;
      }
      if ok && !done {
        kernel.Miss();
        ok := false;
      }
    }

    /** Look at the pipes that have not ended. With none left there is nothing to wait for. */
    method PipesReady() returns (wait: Awaited, ready: bool)
      requires Valid() && !cleanupComplete
      modifies out`waiting, out`writers, err`waiting, err`writers, kernel`interrupts, kernel`failures
      ensures Valid()
      ensures kernel.interrupts <= old(kernel.interrupts)
      ensures wait == WaitInterrupted ==> kernel.interrupts < old(kernel.interrupts)
      ensures kernel.failures == old(kernel.failures) + if wait == WaitFailed then 1 else 0
      ensures wait == WaitOver && !ready ==> Quiet()
    {
      hide Journal.Holds;
      wait, ready := WaitOver, true;
      if stdout.eof && stderr.eof {
        return;
      }
      wait := kernel.Await();
      if wait != WaitOver {
        return;
      }
      ready := false;
      if !stdout.eof {
        ready := out.Ready();
      }
      if !stderr.eof {
        var also := err.Ready();
        ready := ready || also;
      }
    }

    /** A batch was spent, or nothing is left in the pipes. */
    ghost predicate Attended(events: seq<Event>, backlog: nat)
      reads this, out, err
    {
      |events| == MAX_SERVICE_FRAMES || Backlog() == backlog + MAX_SERVICE_BYTES || Quiet()
    }

    /** Wait for the pipes and drain a batch if one is ready. */
    method DrainReady() returns (ok: bool, events: seq<Event>)
      requires Valid() && !cleanupComplete
      modifies this`stdout, this`stderr, this`sequence, this`frames, this`intact, journal, kernel`interrupts,
               kernel`failures, out, err
      ensures Valid() && !cleanupComplete
      ensures journal.state == old(journal.state).(active := Some(State()))
      ensures journal.log == old(journal.log) + events
      ensures |events| <= MAX_SERVICE_FRAMES
      ensures ok ==> intact == old(intact)
      ensures kernel.failures >= old(kernel.failures) && (ok ==> kernel.failures == old(kernel.failures))
      ensures !ok ==> kernel.failures > old(kernel.failures) || Brimming()
      ensures kernel.interrupts <= old(kernel.interrupts)
      ensures ok && kernel.interrupts == old(kernel.interrupts) ==> Attended(events, old(Backlog()))
    {
      hide Journal.Holds;
      ok, events := true, [];
      var wait, ready := PipesReady();
      if wait == WaitFailed {
        ok := false;
      } else if wait == WaitOver && ready {
        ok, events := DrainBatch();
      }
    }

    /** Write queued input, then wait for the pipes and drain a batch if one is ready. */
    method Exchange() returns (ok: bool, events: seq<Event>)
      requires Valid() && !cleanupComplete
      modifies this`pendingInput, this`stdinOpen, this`stdout, this`stderr, this`sequence, this`frames, this`intact,
               input, journal, kernel`interrupts, kernel`failures, out, err
      ensures Valid() && !cleanupComplete
      ensures journal.state == old(journal.state).(active := Some(State()))
      ensures journal.log == old(journal.log) + events
      ensures |events| <= MAX_SERVICE_FRAMES
      ensures ok ==> intact == old(intact)
      ensures kernel.failures >= old(kernel.failures) && (ok ==> kernel.failures == old(kernel.failures))
      ensures !ok ==> kernel.failures > old(kernel.failures) || Brimming()
      ensures kernel.interrupts <= old(kernel.interrupts)
      ensures ok && kernel.interrupts == old(kernel.interrupts) ==> Attended(events, old(Backlog()))
      ensures ok && old(stdinOpen) ==> pendingInput == [] || input.full
    {
      hide Journal.Holds, Invocation.Flush;
      events := [];
      ok := FlushInput();
      if ok {
        ok, events := DrainReady();
      }
    }

    /** Reap, and while the primary lives write queued input and drain a batch if a pipe is ready. Unless a
        signal interrupts the wait, the pipes are left empty or the batch spent; and no child that has
        ended is left unreaped. */
    method Service() returns (ok: bool, events: seq<Event>)
      requires Valid() && !cleanupComplete
      modifies this`pendingInput, this`stdinOpen, this`stdout, this`stderr, this`sequence, this`frames, this`intact,
               this`reaped, this`exit, input, journal, kernel, out, err
      ensures Valid() && !cleanupComplete
      ensures journal.state == old(journal.state).(active := Some(State()))
      ensures journal.log == old(journal.log) + events
      ensures |events| <= MAX_SERVICE_FRAMES
      ensures ok ==> intact == old(intact) && kernel.ended == 0
      ensures kernel.failures >= old(kernel.failures) && (ok ==> kernel.failures == old(kernel.failures))
      ensures !ok ==> kernel.failures > old(kernel.failures) || Brimming()
      ensures ok && exit.None? && kernel.interrupts == old(kernel.interrupts) ==> Attended(events, old(Backlog()))
      ensures ok && exit.None? && old(stdinOpen) ==> pendingInput == [] || input.full
    {
      hide Journal.Holds;
      ok, events := true, [];
      ReapChildren();
      if exit.None? {
        ok, events := Exchange();
        if ok {
          ReapChildren();
        }
      }
    }

    /** Close the input, then turn after turn until every pipe has ended and every member is reaped. */
    method DrainAll(ticks: nat) returns (ok: bool, events: seq<Event>)
      requires Valid() && !cleanupComplete
      modifies this`stdinOpen, this`stdout, this`stderr, this`sequence, this`frames, this`intact, this`reaped,
               this`exit, journal, kernel, out, err
      ensures Valid() && !cleanupComplete
      ensures journal.state == old(journal.state).(active := Some(State()))
      ensures journal.log == old(journal.log) + events
      ensures ok ==> stdout.eof && stderr.eof && exit.Some? && intact == old(intact)
      ensures kernel.failures >= old(kernel.failures) && (ok ==> kernel.failures == old(kernel.failures))
      ensures !ok ==> kernel.failures > old(kernel.failures) || Brimming()
    {
      hide Journal.Holds, Orderly;
      journal.RecordDropInput();
      stdinOpen := false;
      ok, events := CleanupLoop(ticks);
      if ok {
        ReapChildren();
        ok := exit.Some?;
        if !ok {
          kernel.Miss();
        }
      }
    }

    /** The cleanup barrier. On success both pipes have ended with every byte the workload wrote
        read, hashed and reported. */
    method Cleanup(ticks: nat) returns (ok: bool, events: seq<Event>)
      requires Valid() && !cleanupComplete
      modifies this`stdinOpen, this`stdout, this`stderr, this`sequence, this`frames, this`intact, this`reaped,
               this`exit, this`cleanupComplete, journal, kernel, out, err
      ensures Valid()
      ensures journal.state == old(journal.state).(active := Some(State()))
      ensures journal.log == old(journal.log) + events
      ensures ok <==> cleanupComplete
      ensures kernel.failures >= old(kernel.failures) && (ok ==> kernel.failures == old(kernel.failures))
      ensures !ok ==> kernel.failures > old(kernel.failures) || Brimming()
      ensures ok && old(intact) ==> && stdout.hashed == out.consumed && out.waiting == [] && !out.writers
                                    && stderr.hashed == err.consumed && err.waiting == [] && !err.writers
      ensures ok ==> && |events| >= 2 && exit.Some? && reaped >= 1
                     && events[|events| - 2..] == [State().ExitEvent(journal.sha), CleanupComplete(id, reaped)]
    {
      hide Journal.Holds, Orderly;
      ok, events := DrainAll(ticks);
      if ok {
        journal.ExitIsReaped();
        var last := Finish();
        events := events + last;
      }
    }
  }

  /** The events close with the exit record of `invocation` and its completed cleanup, which counts
      at least one reaped process. */
  predicate EndsWithBarrier(events: seq<Event>, invocation: nat) {
    && |events| >= 2
    && events[|events| - 2].WorkloadExited? && events[|events| - 2].invocation == invocation
    && events[|events| - 1].CleanupComplete? && events[|events| - 1].invocation == invocation
    && events[|events| - 1].reaped >= 1
  }

  lemma AppendBarrier(log: seq<Event>, events: seq<Event>, more: seq<Event>, invocation: nat)
    ensures EndsWithBarrier(more, invocation) ==> EndsWithBarrier(events + more, invocation)
    ensures (log + events) + more == log + (events + more)
  {}

  /** Which check refuses a start, or none: a leftover root, an active invocation, a repeated identifier. */
  datatype StartJudgement = Blocked | Busy | Repeated | Taken

  /** Which check refuses an input frame, or none. */
  datatype Judgement = Accepted | Unreadable | EmptyFrame | NotActive | InputClosed | NotContiguous | OverLimit

  /** The runtime: at most one active invocation, and the invocation roots that are on disk. */
  class ProcessRuntime {
    const kernel: Kernel
    const journal: Journal
    var active: GuestInvocation?
    var lastInvocation: Option<nat>
    var pendingRemoval: Option<nat>
    var roots: set<nat>

    ghost function State(): Runtime
      reads this, active
    {
      Runtime(if active == null then None else Some(active.State()), lastInvocation, pendingRemoval, roots)
    }

    ghost function Footprint(): set<object>
      reads this
    {
      {this, kernel, journal} + if active == null then {} else active.Footprint()
    }

    ghost predicate Valid()
      reads this, Footprint(), journal.ledger, journal.tally
    {
      && journal.Holds() && journal.state == State()
      && (active != null ==> active.journal == journal && active.kernel == kernel && active.Valid())
    }

    constructor (limits: ValidLimits, kernel: Kernel, sha: string -> string)
      ensures Valid() && State() == IDLE && journal.log == [] && fresh(journal) && fresh(journal.ledger)
              && fresh(journal.tally)
      ensures journal.ledger.frames == [] && journal.ledger.mark == 0
    {
      this.kernel := kernel;
      journal := new Journal(limits, sha);
      active, lastInvocation, pendingRemoval, roots := null, None, None, {};
    }

    ghost method TakeCommand(command: nat)
      requires Valid() && journal.ledger.mark == |journal.log|
      modifies journal.ledger`command
      ensures Valid() && journal.ledger.command == command && journal.Frames() == journal.ledger.frames
    {
      hide Journal.Holds, Journal.Frames;
      journal.TakeCommand(command);
    }

    ghost method Settle(tail: seq<Event>)
      requires Valid() && forall i | 0 <= i < |tail| :: OfNetwork(tail[i])
      modifies journal.ledger
      ensures Valid() && journal.ledger.mark == |journal.log| && journal.ledger.mark <= |journal.log|
      ensures journal.ledger.frames ==
              old(journal.Frames()) + Framed(tail, |old(journal.Frames())| + 1, old(journal.ledger.command))
    {
      hide Journal.Holds, Journal.Frames, Framed, OfNetwork;
      journal.Settle(tail);
    }

    /** Ask the system for something that does not concern processes. */
    method AskSystem() returns (ok: bool)
      requires Valid()
      modifies kernel`failures
      ensures Valid() && kernel.failures == old(kernel.failures) + if ok then 0 else 1
    {
      hide Journal.Holds;
      ok := kernel.Attempt();
    }

    /** Remove a root; a failure leaves it on disk. */
    method RemoveRoot(invocation: nat) returns (ok: bool)
      modifies this`roots, kernel`failures
      ensures kernel.failures == old(kernel.failures) + if ok then 0 else 1
      ensures roots == if ok then old(roots) - {invocation} else old(roots)
    {
      hide Journal.Holds;
      ok := kernel.Attempt();
      if ok {
        roots := roots - {invocation};
      }
    }

    /** A start that failed after its root existed: remove the root, or remember that it is left. */
    method DiscardFailedRoot(invocation: nat, failure: LaunchFailure) returns (event: Event)
      requires journal.Holds() && active == null && pendingRemoval.None? && invocation in roots
      requires lastInvocation == Some(invocation)
      requires journal.state.active.None? && journal.state.pendingRemoval.None?
      requires journal.state.roots == roots - {invocation}
               && (journal.state.last.Some? ==> journal.state.last.value < invocation)
      modifies this`roots, this`pendingRemoval, journal, journal.tally, kernel`failures
      ensures kernel.failures >= old(kernel.failures)
      ensures Valid() && event == LaunchFailed(invocation, failure) && journal.log == old(journal.log) + [event]
      ensures pendingRemoval.None? ==> invocation !in roots
    {
      hide Journal.Holds;
      var ok := RemoveRoot(invocation);
      if !ok {
        pendingRemoval := Some(invocation);
      }
      journal.RecordRefuse(invocation, failure, true, !ok);
      assert !ok ==> journal.state.roots == roots;
      event := LaunchFailed(invocation, failure);
    }

    /** A start refused before it took the identifier. */
    method RefuseEarly(invocation: nat, failure: LaunchFailure) returns (event: Event)
      requires Valid()
      modifies journal, journal.tally
      ensures Valid() && event == LaunchFailed(invocation, failure) && journal.log == old(journal.log) + [event]
    {
      hide Journal.Holds;
      journal.RecordRefuse(invocation, failure, false, false);
      event := LaunchFailed(invocation, failure);
    }

    /** Everything after the identifier is taken: any stage may fail. */
    method Launch(invocation: nat, launch: LaunchIdentity) returns (event: Event)
      requires Valid() && active == null && pendingRemoval.None?
      requires lastInvocation.Some? ==> lastInvocation.value < invocation
      modifies this, journal, journal.tally, kernel`failures
      ensures Valid() && journal.log == old(journal.log) + [event]
      ensures event.WorkloadStarted? || event.LaunchFailed?
      ensures event.WorkloadStarted? ==> event == WorkloadStarted(invocation, launch) && active != null && fresh(active)
      ensures event.WorkloadStarted? ==> active.State() == Fresh(invocation) && fresh(active.input)
                                         && fresh(active.out) && fresh(active.err)
      ensures event.LaunchFailed? ==> active == null && event.invocation == invocation
      ensures kernel.failures >= old(kernel.failures)
      ensures lastInvocation == Some(invocation)
      ensures event.LaunchFailed? ==> kernel.failures > old(kernel.failures) || invocation in old(roots)
    {
      hide Journal.Holds;
      lastInvocation := Some(invocation);
      var prepared := kernel.Attempt();
      var failure: LaunchFailure := *;
      if !prepared || invocation in roots {
        if prepared {
          failure := InvocationRepeated;
        }
        journal.RecordRefuse(invocation, failure, true, false);
        return LaunchFailed(invocation, failure);
      }
      roots := roots + {invocation};
      var materialized := kernel.Attempt();
      if !materialized {
        event := DiscardFailedRoot(invocation, Materialization);
        return;
      }
      var spawned := kernel.Attempt();
      if !spawned {
        event := DiscardFailedRoot(invocation, failure);
        return;
      }
      journal.RecordBegin(invocation, launch);
      active := new GuestInvocation(invocation, kernel, journal);
      event := WorkloadStarted(invocation, launch);
    }

    /** Start with no leftover root in the way: it is taken exactly when nothing is active and the identifier is
        above every one taken before; once taken only a failure of the system stops it. */
    method StartUnblocked(invocation: nat, launch: LaunchIdentity)
      returns (event: Event, ghost judgement: StartJudgement)
      requires Valid() && pendingRemoval.None?
      modifies this, journal, journal.tally, kernel`failures
      ensures Valid() && journal.log == old(journal.log) + [event]
      ensures event.WorkloadStarted? || event.LaunchFailed?
      ensures kernel.failures >= old(kernel.failures)
      ensures judgement != Blocked && (judgement == Busy <==> old(active) != null)
      ensures judgement == Repeated <==>
              old(active) == null && old(lastInvocation).Some? && invocation <= old(lastInvocation).value
      ensures judgement != Taken ==>
                && active == old(active) && lastInvocation == old(lastInvocation)
                && event == LaunchFailed(invocation, if judgement == Busy then InvocationActive else InvocationRepeated)
      ensures judgement == Taken ==> && lastInvocation == Some(invocation)
                                     && (event.LaunchFailed? ==> kernel.failures > old(kernel.failures))
      ensures event.WorkloadStarted? ==>
                && event == WorkloadStarted(invocation, launch) && judgement == Taken && roots == {invocation}
                && fresh(active) && active.State() == Fresh(invocation)
      ensures fresh(Footprint() - old(Footprint()))
      ensures event.LaunchFailed? ==> event.invocation == invocation && active == old(active)
    {
      hide Journal.Holds, Orderly;
      if active != null {
        judgement := Busy;
        event := RefuseEarly(invocation, InvocationActive);
        return;
      }
      if lastInvocation.Some? && invocation <= lastInvocation.value {
        judgement := Repeated;
        event := RefuseEarly(invocation, InvocationRepeated);
        return;
      }
      judgement := Taken;
      journal.RootsAreKnown();
      event := Launch(invocation, launch);
      journal.RootsAreKnown();
    }

    /** Start one invocation. It is taken exactly when no leftover root blocks it, nothing is active and the
        identifier is above every one taken before; once taken only a failure of the system stops it. A
        success finds no other invocation's root on disk. */
    method Start(invocation: nat, launch: LaunchIdentity) returns (event: Event, ghost judgement: StartJudgement)
      requires Valid()
      modifies this, journal, journal.tally, kernel`failures
      ensures Valid() && journal.log == old(journal.log) + [event]
      ensures kernel.failures >= old(kernel.failures)
      ensures event.WorkloadStarted? || event.LaunchFailed?
      ensures judgement == Blocked ==> old(pendingRemoval).Some? && kernel.failures > old(kernel.failures)
      ensures judgement == Busy <==> judgement != Blocked && old(active) != null
      ensures judgement == Repeated <==>
              && judgement != Blocked && old(active) == null
              && old(lastInvocation).Some? && invocation <= old(lastInvocation).value
      ensures judgement != Taken ==>
                && active == old(active) && lastInvocation == old(lastInvocation)
                && event == LaunchFailed(invocation, if judgement == Blocked then Materialization
                                                     else if judgement == Busy then InvocationActive
                                                     else InvocationRepeated)
      ensures judgement == Taken ==> && lastInvocation == Some(invocation)
                                     && (event.LaunchFailed? ==> kernel.failures > old(kernel.failures))
      ensures event.WorkloadStarted? ==>
                && event == WorkloadStarted(invocation, launch) && old(active) == null && roots == {invocation}
                && (old(lastInvocation).Some? ==> old(lastInvocation).value < invocation)
      ensures event.WorkloadStarted? ==> fresh(active) && active.State() == Fresh(invocation)
                                         && lastInvocation == Some(invocation)
      ensures fresh(Footprint() - old(Footprint()))
      ensures event.LaunchFailed? ==> event.invocation == invocation && active == old(active)
    {
      hide Journal.Holds, Orderly;
      judgement := Blocked;
      if pendingRemoval.Some? {
        var removed := RemoveRoot(pendingRemoval.value);
        if !removed {
          event := RefuseEarly(invocation, Materialization);
          return;
        }
        journal.RecordRetry();
        pendingRemoval := None;
      }
      event, judgement := StartUnblocked(invocation, launch);
    }

    /** How a frame is judged before anything is written, in the order the checks are made. */
    function Judged(invocation: nat, offset: nat, data: Option<Bytes>): Judgement
      reads this, active
    {
      if data.None? then Unreadable
      else if data.value == [] then EmptyFrame
      else if active == null || active.id != invocation then NotActive
      else if active.terminating || active.eofRequested || !active.stdinOpen || active.cleanupComplete then InputClosed
      else if active.inputOffset != offset then NotContiguous
      else if active.inputBytes + |data.value| > journal.limits.inputBytes then OverLimit
      else Accepted
    }

    /** Accept one decoded frame. */
    method WriteFrame(invocation: nat, offset: nat, data: Bytes) returns (ok: bool, events: seq<Event>)
      requires Valid() && |data| <= journal.limits.inputFrameBytes && Judged(invocation, offset, Some(data)) == Accepted
      modifies active.Footprint(), journal.tally
      ensures Valid() && active == old(active) && active.accepted == old(active.accepted) + data
      ensures kernel.failures >= old(kernel.failures)
      ensures ok <==> kernel.failures == old(kernel.failures)
      ensures ok ==> journal.log == old(journal.log) + events
      ensures events == if ok then [InputAccepted(invocation, offset + |data|, |data|, false)] else []
    {
      hide Journal.Holds;
      ok := active.AcceptFrame(data);
      events := if ok then [InputAccepted(invocation, active.inputOffset, |data|, false)] else [];
    }

    /** Accept one bounded, contiguous stdin frame and write what the pipe takes. A frame that is
        refused changes nothing; an accepted one is queued in full even when the pipe then breaks. */
    method StdinWrite(invocation: nat, offset: nat, hex: string)
      returns (judgement: Judgement, ok: bool, events: seq<Event>)
      requires Valid()
      modifies (if active == null then {} else active.Footprint()), journal.tally
      ensures Valid() && active == old(active)
      ensures var data := Unhex(hex, journal.limits.inputFrameBytes);
              && judgement == old(Judged(invocation, offset, data))
              && (ok <==> judgement == Accepted && kernel.failures == old(kernel.failures))
              && if judgement == Accepted then
                   && active.accepted == old(active.accepted) + data.value
                   && (ok ==> journal.log == old(journal.log) + events)
                   && (ok ==> events == [InputAccepted(invocation, offset + |data.value|, |data.value|, false)])
                 else !ok && State() == old(State()) && journal.log == old(journal.log)
      ensures kernel.failures >= old(kernel.failures)
      ensures !ok ==> events == []
    {
      hide Journal.Holds;
      var decoded := DecodeBytes(hex, journal.limits.inputFrameBytes);
      ok, events := false, [];
      if decoded.None? {
        judgement := Unreadable;
      } else if |decoded.value| == 0 {
        judgement := EmptyFrame;
      } else if active == null || active.id != invocation {
        judgement := NotActive;
      } else if active.terminating || active.eofRequested || !active.stdinOpen || active.cleanupComplete {
        judgement := InputClosed;
      } else if active.inputOffset != offset {
        judgement := NotContiguous;
      } else if active.inputBytes + |decoded.value| > journal.limits.inputBytes {
        judgement := OverLimit;
      } else {
        judgement := Accepted;
        UnhexExact(hex, journal.limits.inputFrameBytes, decoded.value);
        ok, events := WriteFrame(invocation, offset, decoded.value);
      }
    }

    /** The active invocation is this one and its input may still be ended. */
    predicate MayEnd(invocation: nat)
      reads this, active
    {
      active != null && active.id == invocation && !active.terminating && !active.eofRequested
        && !active.cleanupComplete
    }

    /** Request the end of input; the pipe closes only once the queue is empty. A second request is
        refused. */
    method StdinEof(invocation: nat) returns (ok: bool, events: seq<Event>)
      requires Valid()
      modifies (if active == null then {} else active.Footprint()), journal.tally
      ensures Valid() && active == old(active)
      ensures ok ==> && journal.log == old(journal.log) + events && active != null && active.id == invocation
                     && events == [InputAccepted(invocation, active.inputOffset, 0, true)]
                     && active.inputOffset == old(active.inputOffset) && old(MayEnd(invocation)) && !MayEnd(invocation)
      ensures ok <==> old(MayEnd(invocation)) && kernel.failures == old(kernel.failures)
      ensures old(!MayEnd(invocation)) ==> !ok && State() == old(State()) && journal.log == old(journal.log)
      ensures kernel.failures >= old(kernel.failures)
      ensures !ok ==> events == []
    {
      hide Journal.Holds;
      events := [];
      if active == null || active.id != invocation || active.terminating || active.eofRequested
        || active.cleanupComplete {
        return false, [];
      }
      ok := active.RequestEof();
      if ok {
        events := [InputAccepted(invocation, active.inputOffset, 0, true)];
      }
    }

    /** The active invocation is this one and its end is not known yet. */
    predicate MayTerminate(invocation: nat)
      reads this, active
    {
      active != null && active.id == invocation && active.exit.None? && !active.cleanupComplete
    }

    /** Request unconditional termination. */
    method Terminate(invocation: nat) returns (ok: bool, events: seq<Event>)
      requires Valid()
      modifies (if active == null then {} else active.Footprint()), journal.tally
      ensures Valid() && active == old(active)
      ensures ok ==> && journal.log == old(journal.log) + events && active != null && active.id == invocation
                     && active.terminating && old(active.exit).None?
                     && events == [TerminationRequested(invocation, TERMINATION_SIGNAL)]
      ensures ok <==> old(MayTerminate(invocation)) && kernel.failures == old(kernel.failures)
      ensures !ok ==> events == [] && State() == old(State()) && journal.log == old(journal.log)
      ensures kernel.failures >= old(kernel.failures)
      ensures active != null ==> active.inputOffset == old(active.inputOffset)
    {
      hide Journal.Holds;
      events := [];
      if active == null || active.id != invocation || active.exit.Some? || active.cleanupComplete {
        return false, [];
      }
      ok := kernel.Attempt();
      if ok {
        active.Kill();
        events := [TerminationRequested(invocation, TERMINATION_SIGNAL)];
      }
    }

    /** The end of an invocation whose barrier completed: its root is removed and the slot is free.
        The slot stays occupied while the removal fails. */
    method ReleaseSlot() returns (ok: bool)
      requires Valid() && active != null && active.cleanupComplete
      modifies this`active, this`roots, journal, kernel`failures
      ensures Valid() && journal.log == old(journal.log)
      ensures kernel.failures == old(kernel.failures) + if ok then 0 else 1
      ensures if ok then active == null && old(active.id) !in roots else active == old(active) && roots == old(roots)
    {
      hide Journal.Holds;
      ok := RemoveRoot(active.id);
      if ok {
        journal.RecordRelease();
        active := null;
      }
    }

    /** Run the barrier unless it completed before, then free the slot. */
    method FinishActive(ticks: nat) returns (ok: bool, events: seq<Event>)
      requires Valid() && active != null
      modifies this`active, this`roots, active.Footprint()
      ensures Valid() && journal.log == old(journal.log) + events
      ensures ok ==> && active == null && old(active.id) !in roots
                     && (old(!active.cleanupComplete) ==> EndsWithBarrier(events, old(active.id)))
      ensures !ok ==> active == old(active) && active.inputOffset == old(active.inputOffset)
      ensures kernel.failures >= old(kernel.failures) && (ok ==> kernel.failures == old(kernel.failures))
      ensures !ok ==> kernel.failures > old(kernel.failures) || active.Brimming()
    {
      hide Journal.Holds;
      ok, events := true, [];
      if !active.cleanupComplete {
        ok, events := active.Cleanup(ticks);
      }
      if ok {
        ok := ReleaseSlot();
      }
    }

    /** The active invocation has no room left for output. */
    ghost predicate Overrun()
      reads this, active
    {
      active != null && active.Brimming()
    }

    /** Service the active invocation unless its primary has already been reaped. */
    method ServiceActive() returns (ok: bool, events: seq<Event>)
      requires Valid() && active != null
      modifies active.Footprint()
      ensures Valid() && journal.log == old(journal.log) + events
      ensures active.cleanupComplete == old(active.cleanupComplete) && active.inputOffset == old(active.inputOffset)
      ensures |events| <= MAX_SERVICE_FRAMES
      ensures kernel.failures >= old(kernel.failures) && (ok ==> kernel.failures == old(kernel.failures))
      ensures !ok ==> kernel.failures > old(kernel.failures) || active.Brimming()
      ensures ok && active.exit.None? ==> kernel.ended == 0
      ensures ok && active.exit.None? && kernel.interrupts == old(kernel.interrupts) ==>
                active.Attended(events, old(active.Backlog()))
    {
      hide Journal.Holds;
      ok, events := true, [];
      if active.exit.None? {
        journal.IsOrderly();
        ok, events := active.Service();
      }
    }

    /** Drain live output and advance the invocation. */
    method PollActive(ticks: nat) returns (ok: bool, events: seq<Event>)
      requires Valid()
      modifies this`active, this`roots, if active == null then {} else active.Footprint()
      ensures Valid() && journal.log == old(journal.log) + events
      ensures old(active) == null ==> ok && events == []
      ensures kernel.failures >= old(kernel.failures) && (ok ==> kernel.failures == old(kernel.failures))
      ensures !ok ==> kernel.failures > old(kernel.failures) || Overrun()
      ensures active == null || (active == old(active) && active.inputOffset == old(active.inputOffset))
      ensures Footprint() <= old(Footprint())
      ensures ok && active != null ==> active.exit.None? && |events| <= MAX_SERVICE_FRAMES && kernel.ended == 0
      ensures ok && active != null && kernel.interrupts == old(kernel.interrupts) ==>
                active.Attended(events, old(active.Backlog()))
      ensures old(active) != null && active == null ==>
                old(active.id) !in roots && (old(!active.cleanupComplete) ==> EndsWithBarrier(events, old(active.id)))
    {
      hide Journal.Holds;
      ok, events := true, [];
      if active == null {
        return;
      }
      ok, events := ServiceActive();
      if ok && active.exit.Some? {
        var more;
        ok, more := FinishActive(ticks);
        AppendBarrier(old(journal.log), events, more, old(active.id));
        events := events + more;
      }
    }

    /** Service the runtime. The slot is free afterwards only once the barrier was reported and the root is
        gone, and nothing is reported that a command must ask for. */
    method Poll(ticks: nat) returns (ok: bool, events: seq<Event>)
      requires Valid()
      modifies this`active, this`roots, if active == null then {} else active.Footprint()
      ensures Valid() && journal.log == old(journal.log) + events && Unasked(events)
      ensures old(active) == null ==> ok && events == []
      ensures kernel.failures >= old(kernel.failures) && (ok ==> kernel.failures == old(kernel.failures))
      ensures !ok ==> kernel.failures > old(kernel.failures) || Overrun()
      ensures active == null || (active == old(active) && active.inputOffset == old(active.inputOffset))
      ensures Footprint() <= old(Footprint())
      ensures ok && active != null ==> active.exit.None? && |events| <= MAX_SERVICE_FRAMES && kernel.ended == 0
      ensures ok && active != null && kernel.interrupts == old(kernel.interrupts) ==>
                active.Attended(events, old(active.Backlog()))
      ensures old(active) != null && active == null ==>
                old(active.id) !in roots && (old(!active.cleanupComplete) ==> EndsWithBarrier(events, old(active.id)))
    {
      hide Journal.Holds, LoudIn, Unasked, GuestInvocation.Valid, Courteous, StandsFor, Journal.Frames;
      journal.Counts();
      ok, events := PollActive(ticks);
      journal.Counts();
      QuietTail(old(journal.log), events);
    }

    /** Kill and reap whatever is active, report the barrier and free the slot. */
    method StopActive(ticks: nat) returns (ok: bool, events: seq<Event>)
      requires Valid()
      modifies this`active, this`roots, if active == null then {} else active.Footprint()
      ensures Valid() && journal.log == old(journal.log) + events
      ensures if ok then active == null else active == old(active)
      ensures kernel.failures >= old(kernel.failures) && (ok ==> kernel.failures == old(kernel.failures))
      ensures !ok ==> kernel.failures > old(kernel.failures) || Overrun()
      ensures Footprint() <= old(Footprint())
      ensures ok && old(active) != null ==>
                old(active.id) !in roots && (old(!active.cleanupComplete) ==> EndsWithBarrier(events, old(active.id)))
    {
      hide Journal.Holds;
      ok, events := true, [];
      if active == null {
        return;
      }
      if active.exit.None? {
        ok := kernel.Attempt();
        if !ok {
          return;
        }
      }
      ok, events := FinishActive(ticks);
    }

    /** Shut the runtime down; nothing is reported that a command must ask for. */
    method Shutdown(ticks: nat) returns (ok: bool, events: seq<Event>)
      requires Valid()
      modifies this`active, this`roots, if active == null then {} else active.Footprint()
      ensures Valid() && journal.log == old(journal.log) + events && Unasked(events)
      ensures if ok then active == null else active == old(active)
      ensures kernel.failures >= old(kernel.failures) && (ok ==> kernel.failures == old(kernel.failures))
      ensures !ok ==> kernel.failures > old(kernel.failures) || Overrun()
      ensures Footprint() <= old(Footprint())
      ensures ok && old(active) != null ==>
                old(active.id) !in roots && (old(!active.cleanupComplete) ==> EndsWithBarrier(events, old(active.id)))
    {
      hide Journal.Holds, LoudIn, Unasked, GuestInvocation.Valid, Courteous, StandsFor, Journal.Frames;
      journal.Counts();
      ok, events := StopActive(ticks);
      journal.Counts();
      QuietTail(old(journal.log), events);
    }
  }
}
