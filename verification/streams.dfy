/** One invocation's streams, rebuilt from recorded output frames and input acknowledgements. */
module Streams {
  import opened Protocol
  import opened Lines

  /** The largest single response line the acceptance fixture may emit. */
  const MAX_RESPONSE_LINE_BYTES: nat := 1024

  /** Every branch on which the checker records a structural fault. */
  datatype Violation =
    | SequenceJump | OffsetGap(stream: Stream) | LineOverBound(stream: Stream) | PendingOverBound
    | InputOffsetGap | EofWithBytes | EmptyInput | SecondEof | InputAfterEof | InputCommandRepeated
    | StartedTwice | ExitBeforeStart | ExitedTwice
    | TerminatedBeforeStart | TerminatedAfterExit | TerminatedTwice
    | CleanupBeforeStart | CleanedTwice | CleanupBeforeExit | CleanupBeforeExitRecord | NothingReaped
    | LaunchFailedTwice | LaunchFailedAfterExit
    | SecondConfiguration | WrongConfiguration | SecondActivation | WrongRule | SecondRestoration
    | OutputBeforeStart | OutputAfterExit | UnreadableOutput
    | InputBeforeStart | InputAfterExit | InputAfterTermination

  /** One output stream: everything read, the text since the last newline, the complete lines, the
      event that carried the first pending byte, and the next expected offset. */
  datatype LineState = LineState(
    bytes: string, pending: string, lines: seq<CompletedLine>, lineEvent: Option<nat>, offset: nat)
  {
    function FirstEvent(event: nat): nat {
      if pending == "" || lineEvent.None? then event else lineEvent.value
    }

    function Completed(data: string, event: nat): seq<CompletedLine> {
      Complete(pending + data, FirstEvent(event), event)
    }

    function Push(offset: nat, data: string, event: nat): LineState {
      var rest := Leftover(pending + data);
      var done := Completed(data, event);
      LineState(
        bytes + data, rest, lines + done,
        if done == [] then (if pending == "" && data != "" then Some(event) else lineEvent)
        else if rest == "" then None else Some(event),
        SaturatingAdd(offset, |data|))
    }
  }

  const NO_LINES := LineState("", "", [], None, 0)

  predicate TooLong(line: CompletedLine) {
    |line.text| > MAX_RESPONSE_LINE_BYTES
  }

  function LongLines(lines: seq<CompletedLine>, stream: Stream): seq<Violation> {
    if lines == [] then []
    else (if TooLong(lines[0]) then [LineOverBound(stream)] else []) + LongLines(lines[1..], stream)
  }

  function If(condition: bool, violation: Violation): seq<Violation> {
    if condition then [violation] else []
  }

  datatype InvocationStreams = InvocationStreams(
    stdout: LineState, stderr: LineState,
    overBound: bool, overBoundSeen: bool,
    inputOffset: nat, inputCommands: seq<nat>, dataInputEvents: seq<nat>, eofInputs: nat, inputEof: bool,
    sequence: nat, frames: nat, violations: seq<Violation>)
  {
    function Line(stream: Stream): LineState {
      if stream.Stdout? then stdout else stderr
    }

    /** Fold one output frame, in terms of splitting the pending text and the frame in one go. */
    function PushOutput(event: nat, stream: Stream, offset: nat, sequence: nat, data: string): InvocationStreams {
      var before := Line(stream);
      var done := before.Completed(data, event);
      var after := before.Push(offset, data, event);
      var unfinished := overBound && !(stream.Stdout? && done != []);
      var late := stream.Stdout? && !unfinished && |after.pending| > MAX_RESPONSE_LINE_BYTES;
      var long := LongLines(done, stream);
      this.(
        stdout := if stream.Stdout? then after else stdout,
        stderr := if stream.Stdout? then stderr else after,
        overBound := unfinished || late,
        overBoundSeen := overBoundSeen || (stream.Stdout? && long != []) || late,
        sequence := sequence,
        frames := frames + 1,
        violations := violations
          + If(this.sequence + 1 != sequence, SequenceJump)
          + If(offset != before.offset, OffsetGap(stream))
          + long
          + If(late, PendingOverBound))
    }

    /** Fold one input acknowledgement. */
    function PushInput(event: nat, command: nat, offset: nat, bytes: nat, eof: bool): InvocationStreams {
      this.(
        inputOffset := offset,
        inputCommands := inputCommands + [command],
        dataInputEvents := if eof then dataInputEvents else dataInputEvents + [event],
        eofInputs := if eof then eofInputs + 1 else eofInputs,
        inputEof := inputEof || eof,
        violations := violations
          + If(inputOffset + bytes != offset, InputOffsetGap)
          + If(eof && bytes != 0, EofWithBytes)
          + If(!eof && bytes == 0, EmptyInput)
          + If(eof && inputEof, SecondEof)
          + If(!eof && inputEof, InputAfterEof)
          + If(inputCommands != [] && command <= inputCommands[|inputCommands| - 1], InputCommandRepeated))
    }
  }

  const NO_STREAMS := InvocationStreams(NO_LINES, NO_LINES, false, false, 0, [], [], 0, false, 0, 0, [])

  function EventOr(event: Option<nat>, default: nat): nat {
    if event.Some? then event.value else default
  }

  /** The splitting loop: drain one complete line after another from the pending text. */
  method DrainLines(text: string, firstEvent: Option<nat>, event: nat, stream: Stream)
    returns (lines: seq<CompletedLine>, pending: string, lineEvent: Option<nat>, long: seq<Violation>)
    ensures lines == Complete(text, EventOr(firstEvent, event), event)
    ensures pending == Leftover(text)
    ensures lineEvent == (if lines == [] then firstEvent else if pending == "" then None else Some(event))
    ensures long == LongLines(lines, stream)
  {
    lines, pending, lineEvent, long := [], text, firstEvent, [];
    ghost var all := Complete(text, EventOr(firstEvent, event), event);
    while FirstNewline(pending) < |pending|
      invariant lines + Complete(pending, EventOr(lineEvent, event), event) == all
      invariant Leftover(pending) == Leftover(text)
      invariant long == LongLines(lines, stream)
      invariant lineEvent == (if lines == [] then firstEvent else if pending == "" then None else Some(event))
      decreases |pending|
    {
      var index := FirstNewline(pending);
      var line := CompletedLine(pending[..index], event, EventOr(lineEvent, event));
      ghost var later := Complete(pending[index + 1..], event, event);
      assert Complete(pending, EventOr(lineEvent, event), event) == [line] + later;
      assert lines + ([line] + later) == (lines + [line]) + later;
      pending := pending[index + 1..];
      LongLinesConcat(lines, [line], stream);
      assert LongLines([line], stream) == If(TooLong(line), LineOverBound(stream));
      if |line.text| > MAX_RESPONSE_LINE_BYTES {
        long := long + [LineOverBound(stream)];
      }
      lines := lines + [line];
      lineEvent := if pending == "" then None else Some(event);
    }
  }

  /** Append a frame to one stream and split off what it completes. */
  method PushLine(before: LineState, stream: Stream, offset: nat, data: string, event: nat)
    returns (after: LineState, lines: seq<CompletedLine>, long: seq<Violation>)
    ensures after == before.Push(offset, data, event)
    ensures lines == before.Completed(data, event)
    ensures long == LongLines(lines, stream)
  {
    var lineEvent: Option<nat> := before.lineEvent;
    if before.pending == "" && data != "" {
      lineEvent := Some(event);
    }
    var pending;
    lines, pending, lineEvent, long := DrainLines(before.pending + data, lineEvent, event, stream);
    after := LineState(
      before.bytes + data, pending, before.lines + lines, lineEvent, SaturatingAdd(offset, |data|));
  }

  /** Fold one output frame incrementally. */
  method PushFrame(streams: InvocationStreams, event: nat, stream: Stream, offset: nat, sequence: nat, data: string)
    returns (r: InvocationStreams)
    ensures r == streams.PushOutput(event, stream, offset, sequence, data)
  {
    var before := streams.Line(stream);
    var violations := streams.violations
      + If(streams.sequence + 1 != sequence, SequenceJump)
      + If(offset != before.offset, OffsetGap(stream));
    var after, lines, long := PushLine(before, stream, offset, data, event);
    var overBound, overBoundSeen := streams.overBound, streams.overBoundSeen;
    if stream.Stdout? && lines != [] {
      overBound, overBoundSeen := false, overBoundSeen || long != [];
    }
    var late := stream.Stdout? && !overBound && |after.pending| > MAX_RESPONSE_LINE_BYTES;
    if late {
      overBound, overBoundSeen := true, true;
    }
    r := streams.(
      stdout := if stream.Stdout? then after else streams.stdout,
      stderr := if stream.Stdout? then streams.stderr else after,
      overBound := overBound, overBoundSeen := overBoundSeen,
      sequence := sequence, frames := streams.frames + 1,
      violations := violations + long + If(late, PendingOverBound));
  }

  lemma {:induction false} LongLinesConcat(a: seq<CompletedLine>, b: seq<CompletedLine>, stream: Stream)
    ensures LongLines(a + b, stream) == LongLines(a, stream) + LongLines(b, stream)
    decreases |a|
  {
    if a == [] {
      assert a + b == b;
    } else {
      assert (a + b)[1..] == a[1..] + b;
      LongLinesConcat(a[1..], b, stream);
    }
  }

  lemma {:induction false} LongLinesExact(lines: seq<CompletedLine>, stream: Stream)
    ensures LongLines(lines, stream) == [] <==> forall i | 0 <= i < |lines| :: !TooLong(lines[i])
    ensures forall v | v in LongLines(lines, stream) :: v == LineOverBound(stream)
    decreases |lines|
  {
    if lines != [] {
      LongLinesExact(lines[1..], stream);
      assert forall i | 1 <= i < |lines| :: lines[i] == lines[1..][i - 1];
    }
  }

  // ---- Independence of framing --------------------------------------------

  /** The state of one stream is what splitting its whole history once would give. */
  predicate Represents(line: LineState, history: seq<Tagged>) {
    var rest := SplitRest(history);
    && line.bytes == Text(history)
    && line.lines == SplitLines(history)
    && line.pending == Text(rest)
    && line.lineEvent == (if rest == [] then None else Some(rest[0].event))
  }

  lemma PushSplits(line: LineState, history: seq<Tagged>, data: string, event: nat)
    requires Represents(line, history)
    ensures line.Completed(data, event) == SplitLines(SplitRest(history) + Tag(data, event))
    ensures Leftover(line.pending + data) == Text(SplitRest(history + Tag(data, event)))
    ensures line.lines + line.Completed(data, event) == SplitLines(history + Tag(data, event))
  {
    RestHasNoNewline(history);
    SplitConcat(history, Tag(data, event));
    CompleteIsSplit(SplitRest(history), data, event);
  }

  lemma PushLineEvent(line: LineState, history: seq<Tagged>, offset: nat, data: string, event: nat)
    requires Represents(line, history)
    ensures var rest := SplitRest(history + Tag(data, event));
            line.Push(offset, data, event).lineEvent == if rest == [] then None else Some(rest[0].event)
  {
    var rest, more := SplitRest(history), Tag(data, event);
    PushSplits(line, history, data, event);
    SplitConcat(history, more);
    RestHasNoNewline(history);
    if line.Completed(data, event) == [] {
      RestWithoutLines(rest + more);
    } else {
      RestAfterLines(rest, data, event);
    }
  }

  lemma PushRepresents(line: LineState, history: seq<Tagged>, offset: nat, data: string, event: nat)
    requires Represents(line, history)
    ensures Represents(line.Push(offset, data, event), history + Tag(data, event))
    ensures line.Completed(data, event) == SplitLines(SplitRest(history) + Tag(data, event))
  {
    hide SplitLines, SplitRest, LineState.Completed, Leftover;
    PushSplits(line, history, data, event);
    PushLineEvent(line, history, offset, data, event);
    assert Text(history + Tag(data, event)) == Text(history) + data;
  }

  lemma RestWithoutLines(bytes: seq<Tagged>)
    requires SplitLines(bytes) == []
    ensures SplitRest(bytes) == bytes
  {}

  lemma {:induction false} RestAfterLines(bytes: seq<Tagged>, data: string, event: nat)
    requires NoNewline(Text(bytes)) && SplitLines(bytes + Tag(data, event)) != []
    ensures var rest := SplitRest(bytes + Tag(data, event)); rest != [] ==> rest[0].event == event
    decreases |data|
  {
    var whole := bytes + Tag(data, event);
    var i := FirstNewline(Text(whole));
    assert Text(whole) == Text(bytes) + data;
    assert i >= |bytes|;
    var tail := data[i - |bytes| + 1..];
    assert whole[i + 1..] == [] + Tag(tail, event);
    if SplitLines([] + Tag(tail, event)) == [] {
      RestWithoutLines([] + Tag(tail, event));
    } else {
      RestAfterLines([], tail, event);
    }
  }

  /** A line of stdout is over the bound, complete or still pending. */
  predicate StdoutOverBound(streams: InvocationStreams) {
    || (exists i | 0 <= i < |streams.stdout.lines| :: TooLong(streams.stdout.lines[i]))
    || |streams.stdout.pending| > MAX_RESPONSE_LINE_BYTES
  }

  predicate StderrOverBound(streams: InvocationStreams) {
    exists i | 0 <= i < |streams.stderr.lines| :: TooLong(streams.stderr.lines[i])
  }

  /** The bound verdicts say exactly which lines are over the bound now. */
  predicate BoundsExact(streams: InvocationStreams) {
    var v := streams.violations;
    && streams.overBound == (|streams.stdout.pending| > MAX_RESPONSE_LINE_BYTES)
    && streams.overBoundSeen == StdoutOverBound(streams)
    && (LineOverBound(Stdout) in v || PendingOverBound in v) == StdoutOverBound(streams)
    && (LineOverBound(Stderr) in v) == StderrOverBound(streams)
  }

  predicate BothRepresent(streams: InvocationStreams, out: seq<Tagged>, err: seq<Tagged>) {
    Represents(streams.stdout, out) && Represents(streams.stderr, err)
  }

  lemma LongLinesIn(lines: seq<CompletedLine>, stream: Stream, violation: Violation)
    ensures violation in LongLines(lines, stream) <==>
            violation == LineOverBound(stream) && exists i | 0 <= i < |lines| :: TooLong(lines[i])
  {
    LongLinesExact(lines, stream);
    if LongLines(lines, stream) != [] { assert LongLines(lines, stream)[0] in LongLines(lines, stream); }
  }

  lemma StdoutBounds(streams: InvocationStreams, event: nat, offset: nat, sequence: nat, data: string)
    requires BoundsExact(streams) && NoNewline(streams.stdout.pending)
    ensures BoundsExact(streams.PushOutput(event, Stdout, offset, sequence, data))
  {
    hide LongLines, Complete, FirstNewline;
    var before := streams.stdout;
    var after := streams.PushOutput(event, Stdout, offset, sequence, data);
    var done := before.Completed(data, event);
    LongLinesExact(done, Stdout);
    LongLinesIn(done, Stdout, LineOverBound(Stdout));
    LongLinesIn(done, Stdout, LineOverBound(Stderr));
    LongLinesIn(done, Stdout, PendingOverBound);
    var lines := before.lines + done;
    assert after.stdout.lines == lines && after.stderr == streams.stderr;
    assert forall i | 0 <= i < |before.lines| :: lines[i] == before.lines[i];
    assert forall i | 0 <= i < |done| :: lines[|before.lines| + i] == done[i];
    if done == [] {
      CompleteStep(before.pending + data, before.FirstEvent(event), event);
      assert after.stdout.pending == before.pending + data;
    } else if |before.pending| > MAX_RESPONSE_LINE_BYTES {
      FirstLineKeepsPending(before, data, event);
      assert TooLong(done[0]);
    }
  }

  lemma StderrBounds(streams: InvocationStreams, event: nat, offset: nat, sequence: nat, data: string)
    requires BoundsExact(streams)
    ensures BoundsExact(streams.PushOutput(event, Stderr, offset, sequence, data))
  {
    hide LongLines, Complete, FirstNewline;
    var before := streams.stderr;
    var after := streams.PushOutput(event, Stderr, offset, sequence, data);
    var done := before.Completed(data, event);
    LongLinesIn(done, Stderr, LineOverBound(Stdout));
    LongLinesIn(done, Stderr, LineOverBound(Stderr));
    LongLinesIn(done, Stderr, PendingOverBound);
    var lines := before.lines + done;
    assert after.stderr.lines == lines && after.stdout == streams.stdout;
    assert forall i | 0 <= i < |before.lines| :: lines[i] == before.lines[i];
    assert forall i | 0 <= i < |done| :: lines[|before.lines| + i] == done[i];
  }

  lemma PushOutputExact(streams: InvocationStreams, out: seq<Tagged>, err: seq<Tagged>,
                        event: nat, stream: Stream, offset: nat, sequence: nat, data: string)
    requires BothRepresent(streams, out, err) && BoundsExact(streams)
    ensures var after := streams.PushOutput(event, stream, offset, sequence, data);
            && BothRepresent(after, if stream.Stdout? then out + Tag(data, event) else out,
                                    if stream.Stdout? then err else err + Tag(data, event))
            && BoundsExact(after)
  {
    PushRepresents(streams.Line(stream), if stream.Stdout? then out else err, offset, data, event);
    if stream.Stdout? {
      RestHasNoNewline(out);
      StdoutBounds(streams, event, offset, sequence, data);
    } else {
      StderrBounds(streams, event, offset, sequence, data);
    }
  }

  lemma FirstLineKeepsPending(line: LineState, data: string, event: nat)
    requires NoNewline(line.pending) && line.Completed(data, event) != []
    ensures |line.Completed(data, event)[0].text| >= |line.pending|
  {}

  datatype OutputFrame = OutputFrame(event: nat, stream: Stream, offset: nat, sequence: nat, data: string)

  function FoldFrames(frames: seq<OutputFrame>): InvocationStreams {
    if frames == [] then NO_STREAMS
    else
      var f := frames[|frames| - 1];
      FoldFrames(frames[..|frames| - 1]).PushOutput(f.event, f.stream, f.offset, f.sequence, f.data)
  }

  /** Every byte of one stream, with the event of the frame that carried it. */
  function History(frames: seq<OutputFrame>, stream: Stream): seq<Tagged> {
    if frames == [] then []
    else
      var f := frames[|frames| - 1];
      History(frames[..|frames| - 1], stream) + if f.stream == stream then Tag(f.data, f.event) else []
  }

  /** However a stream is cut into frames, the lines, their first and last events and the pending
      text are those of splitting the whole stream once, and the over-bound verdicts hold exactly
      when some complete or pending line exceeds the bound. */
  lemma {:induction false} FramingDoesNotMatter(frames: seq<OutputFrame>)
    ensures BothRepresent(FoldFrames(frames), History(frames, Stdout), History(frames, Stderr))
    ensures BoundsExact(FoldFrames(frames))
  {
    if frames != [] {
      var n := |frames| - 1;
      var f := frames[n];
      FramingDoesNotMatter(frames[..n]);
      var out, err := History(frames[..n], Stdout), History(frames[..n], Stderr);
      PushOutputExact(FoldFrames(frames[..n]), out, err, f.event, f.stream, f.offset, f.sequence, f.data);
      assert out + [] == out && err + [] == err;
    }
  }
}
