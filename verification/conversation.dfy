/** One honest exchange, folded into the trace: an acknowledged input and the one line it draws. */
module Conversation {
  import opened Protocol
  import opened Lines
  import opened Streams
  import opened Traces

  predicate InOutage(trace: Trace) {
    |trace.activations| > |trace.restorations|
  }

  /** The event in which an invocation prints its next line, as the trace expects it. */
  function PrintedLine(trace: Trace, invocation: nat, line: Bytes): Event {
    var s := trace.StreamsOf(invocation);
    WorkloadOutput(invocation, Stdout, |s.stdout.bytes|, s.sequence + 1, Hex(line + "\n"))
  }

  /** The exit record that agrees with the frames of the trace. */
  function MatchingExit(trace: Trace, invocation: nat, exit: ProcessExit, sha: string -> string): Event {
    var s := trace.StreamsOf(invocation);
    WorkloadExited(invocation, exit, |s.stdout.bytes|, sha(s.stdout.bytes), |s.stderr.bytes|, sha(s.stderr.bytes),
                   s.frames)
  }

  /** The streams after one more line, printed in the event `n`. */
  function Printed(s: InvocationStreams, n: nat, line: Bytes): InvocationStreams {
    s.(stdout := LineState(s.stdout.bytes + (line + "\n"), "", s.stdout.lines + [CompletedLine(line, n, n)], None,
                           |s.stdout.bytes| + |line| + 1),
       sequence := s.sequence + 1, frames := s.frames + 1)
  }

  /** The streams after one more input of `size` bytes, acknowledged in the event `n`. */
  function Acked(s: InvocationStreams, n: nat, command: nat, size: nat): InvocationStreams {
    s.(inputOffset := s.inputOffset + size, inputCommands := s.inputCommands + [command],
       dataInputEvents := s.dataInputEvents + [n])
  }

  /** An invocation in good order that has printed exactly `texts`: each line but the first came in the
      event after the acknowledgement it answers. */
  predicate Speaking(s: InvocationStreams, texts: seq<string>, command: nat) {
    && Tidy(s, |texts|, command)
    && s.frames == |texts| && s.inputOffset <= MAX_STDIN_FRAME_BYTES * |texts|
    && Texts(s.stdout.lines) == texts && |texts| == |s.dataInputEvents| + 1
    && forall j | 1 <= j < |s.stdout.lines| :: Answers(s.stdout.lines[j], s.dataInputEvents[j - 1])
  }

  /** The line came whole in the event after the acknowledgement. */
  predicate Answers(line: CompletedLine, acknowledged: nat) {
    line.eventId == line.firstEventId == acknowledged + 1
  }

  predicate Tidy(s: InvocationStreams, count: nat, command: nat) {
    && s.stdout.pending == "" && s.stdout.lineEvent == None && s.stdout.offset == |s.stdout.bytes| <= 2048 * count
    && count <= 1024
    && s.stderr == NO_LINES && !s.overBound && !s.overBoundSeen && s.violations == []
    && !s.inputEof && s.eofInputs == 0
    && (s.inputCommands != [] ==> s.inputCommands[|s.inputCommands| - 1] < command)
  }

  lemma CompleteOne(line: string, n: nat)
    requires NoNewline(line)
    ensures Complete(line + "\n", n, n) == [CompletedLine(line, n, n)] && Leftover(line + "\n") == ""
  {
    var s := line + "\n";
    FirstNewlineAt(s, |line|);
    assert s[..|line|] == line && s[|line| + 1..] == "";
    CompleteStep(s, n, n);
    CompleteStep("", n, n);
  }

  /** One line in one frame is one complete line. */
  lemma PrintOne(s: InvocationStreams, count: nat, command: nat, n: nat, line: Bytes)
    requires Tidy(s, count, command) && NoNewline(line) && |line| <= MAX_RESPONSE_LINE_BYTES
    ensures s.PushOutput(n, Stdout, |s.stdout.bytes|, s.sequence + 1, line + "\n") == Printed(s, n, line)
  {
    hide Complete, Leftover;
    CompleteOne(line, n);
    assert s.stdout.pending + (line + "\n") == line + "\n";
    LongLinesExact([CompletedLine(line, n, n)], Stdout);
  }

  lemma AckOne(s: InvocationStreams, count: nat, command: nat, n: nat, size: nat)
    requires Tidy(s, count, command) && size > 0
    ensures s.PushInput(n, command, s.inputOffset + size, size, false) == Acked(s, n, command, size)
  {}

  /** An exchange: the input is acknowledged in the event `n` and answered in the next. */
  function Spoken(s: InvocationStreams, n: nat, command: nat, size: nat, line: Bytes): InvocationStreams {
    Printed(Acked(s, n, command, size), n + 1, line)
  }

  lemma SpokenSpeaks(s: InvocationStreams, texts: seq<string>, n: nat, command: nat, size: nat, line: Bytes)
    requires Speaking(s, texts, command) && |line| <= MAX_RESPONSE_LINE_BYTES && |texts| < 1024
    requires size <= MAX_STDIN_FRAME_BYTES
    ensures Speaking(Spoken(s, n, command, size, line), texts + [line], command + 1)
  {
    var s' := Spoken(s, n, command, size, line);
    assert Texts(s'.stdout.lines) == texts + [line];
  }

  lemma LaterCommand(s: InvocationStreams, texts: seq<string>, command: nat, later: nat)
    requires Speaking(s, texts, command) && command <= later
    ensures Speaking(s, texts, later)
  {}

  predicate Running(t: Trace, k: nat) {
    t.Started(k) && !t.HasExited(k) && !t.HasTerminated(k) && !t.HasLaunchFailed(k)
  }

  lemma PushPrinted(t: Trace, k: nat, count: nat, command: nat, n: nat, line: Bytes)
    requires Running(t, k) && Tidy(t.StreamsOf(k), count, command) && NoNewline(line)
             && |line| <= MAX_RESPONSE_LINE_BYTES
    ensures t.Push(EventFrame(PROTOCOL_VERSION, n, command, PrintedLine(t, k, line), NO_DIAGNOSTICS)) ==
            With(t, k, Printed(t.StreamsOf(k), n, line))
  {
    hide Hex, Unhex, Tidy, InvocationStreams.PushOutput, Printed;
    UnhexExact(Hex(line + "\n"), MAX_OUTPUT_FRAME_BYTES, line + "\n");
    PrintOne(t.StreamsOf(k), count, command, n, line);
  }

  lemma PushAcked(t: Trace, k: nat, count: nat, command: nat, n: nat, size: nat)
    requires Running(t, k) && Tidy(t.StreamsOf(k), count, command) && size > 0
    ensures t.Push(EventFrame(PROTOCOL_VERSION, n, command,
                              InputAccepted(k, t.StreamsOf(k).inputOffset + size, size, false), NO_DIAGNOSTICS)) ==
            With(t, k, Acked(t.StreamsOf(k), n, command, size))
  {
    hide Tidy, InvocationStreams.PushInput, Acked;
    AckOne(t.StreamsOf(k), count, command, n, size);
  }
}
