/** The control protocol between host and guest: commands, events, frames and the
    hexadecimal byte form that input and output frames carry. */
module Protocol {

  const U64_MAX: nat := 0xffff_ffff_ffff_ffff
  const PROTOCOL_VERSION: nat := 1
  const MAX_FRAME_LENGTH: nat := 1024 * 1024
  const MAX_STDIN_FRAME_BYTES: nat := 4096
  const MAX_OUTPUT_FRAME_BYTES: nat := 4096
  /** SIGKILL. */
  const TERMINATION_SIGNAL: int := 9

  /** The fixed private network profile. */
  const NETWORK_INTERFACE := "eth0"
  const GUEST_CIDR := "10.0.2.15/24"
  const FIXTURE_PEER := "10.0.2.2"

  /** One byte, written as the character with that code. */
  type byte = c: char | (c as int) < 256 witness '\0'
  type Bytes = seq<byte>

  datatype Option<+T> = None | Some(value: T)

  datatype Stream = Stdout | Stderr

  datatype ProcessExit = Exited(code: int) | Signaled(signal: int)

  datatype LaunchFailure =
    | NoRuntime | InvocationActive | InvocationRepeated | Materialization | Executable
    | WorkingDirectory | Pipe | Fork | Setup

  datatype LaunchIdentity = LaunchIdentity(
    executable: string, arguments: seq<string>, environment: seq<string>,
    workingDirectory: string, uid: nat, gid: nat)

  datatype RequestPhase = PreOutage | Outage | Recovery

  datatype RequestError = AdministrativeProhibited | Transport | InvalidResponse

  datatype AssertionName =
    | Safety | ControlledOutage | Restoration | BoundedRecovery | ProcessSafety | ResponseIntegrity

  datatype AssertionResult = AssertionResult(name: AssertionName, passed: bool)

  datatype AssertionReport = AssertionReport(passed: bool, assertions: seq<AssertionResult>)

  datatype Command =
    | ConfigureNetwork(iface: string, guestCidr: string, gateway: string)
    | ActivateOutage(peerCidr: string)
    | RestoreNetwork(peerCidr: string)
    | Request(requestId: string, payload: string, phase: RequestPhase)
    | Check(outageEventBound: nat, livenessEventBound: nat)
    | Start(invocation: nat, launch: LaunchIdentity)
    | StdinWrite(invocation: nat, offset: nat, bytes: string)
    | StdinEof(invocation: nat)
    | Terminate(invocation: nat)
    | Shutdown

  datatype CommandFrame = CommandFrame(protocolVersion: nat, commandId: nat, command: Command)

  datatype Event =
    | AgentReady
    | NetworkConfigured(iface: string, guestCidr: string, gateway: string)
    | OutageActivated(peerCidr: string, rule: string)
    | NetworkRestored(peerCidr: string)
    | RequestAttempted(requestId: string, payload: string, phase: RequestPhase)
    | RequestSucceeded(requestId: string, requestPayload: string, responseId: string,
                       responsePayload: string, phase: RequestPhase)
    | RequestUnavailable(requestId: string, phase: RequestPhase, error: RequestError, errno: Option<int>)
    | AssertionsEvaluated(report: AssertionReport)
    | WorkloadStarted(invocation: nat, launch: LaunchIdentity)
    | InputAccepted(invocation: nat, offset: nat, bytes: nat, eof: bool)
    | TerminationRequested(invocation: nat, signal: int)
    | WorkloadOutput(invocation: nat, stream: Stream, offset: nat, sequence: nat, hex: string)
    | WorkloadExited(invocation: nat, exit: ProcessExit, stdoutBytes: nat, stdoutSha256: string,
                     stderrBytes: nat, stderrSha256: string, frames: nat)
    | LaunchFailed(invocation: nat, failure: LaunchFailure)
    | CleanupComplete(invocation: nat, reaped: nat)
    | AgentStopped

  /** The fields a replay may differ in: guest process id, host receipt time, temporary path. */
  datatype DiagnosticFields = DiagnosticFields(
    guestPid: Option<nat>, hostReceivedAt: Option<nat>, temporaryPath: Option<string>)

  const NO_DIAGNOSTICS := DiagnosticFields(None, None, None)

  datatype EventFrame = EventFrame(
    protocolVersion: nat, eventId: nat, commandId: nat, event: Event, diagnostics: DiagnosticFields)
  {
    function Normalize(): NormalizedEvent {
      NormalizedEvent(protocolVersion, eventId, commandId, event)
    }
  }

  datatype NormalizedEvent = NormalizedEvent(
    protocolVersion: nat, eventId: nat, commandId: nat, event: Event)

  /** Addition that stops at the largest 64-bit value. */
  function SaturatingAdd(x: nat, y: nat): nat {
    if x + y > U64_MAX then U64_MAX else x + y
  }

  /** Event identifiers count from one without a gap. */
  predicate Sequential(frames: seq<EventFrame>) {
    forall i | 0 <= i < |frames| :: frames[i].eventId == i + 1
  }

  /** What a guest answers to the last of the commands it was sent, given all of them. */
  type Replies = seq<CommandFrame> -> seq<EventFrame>

  /** Number events on from `next`, under one command. */
  function Framed(events: seq<Event>, next: nat, command: nat): (frames: seq<EventFrame>)
    ensures |frames| == |events|
  {
    seq(|events|, i requires 0 <= i < |events| =>
      EventFrame(PROTOCOL_VERSION, next + i, command, events[i], NO_DIAGNOSTICS))
  }

  // ---- Hexadecimal frames ------------------------------------------------

  const DIGITS: seq<byte> := "0123456789abcdef"

  function HexDigit(c: char): (r: Option<nat>)
    ensures r.Some? ==> r.value < 16
  {
    if '0' <= c <= '9' then Some(c as int - '0' as int)
    else if 'a' <= c <= 'f' then Some(c as int - 'a' as int + 10)
    else None
  }

  function ByteHex(b: byte): string {
    [DIGITS[b as int / 16], DIGITS[b as int % 16]]
  }

  function Hex(bytes: Bytes): string {
    if bytes == [] then "" else Hex(bytes[..|bytes| - 1]) + ByteHex(bytes[|bytes| - 1])
  }

  function UnhexPair(high: char, low: char): Option<byte> {
    match (HexDigit(high), HexDigit(low))
    case (Some(h), Some(l)) => Some((h * 16 + l) as char)
    case _ => None
  }

  /** Decode the pairs of a text of even length, last pair last. */
  function UnhexPairs(text: string): Option<Bytes>
    requires |text| % 2 == 0
  {
    if text == "" then Some([])
    else
      var n := |text| - 2;
      match (UnhexPairs(text[..n]), UnhexPair(text[n], text[n + 1]))
      case (Some(init), Some(last)) => Some(init + [last])
      case _ => None
  }

  function Unhex(text: string, limit: nat): Option<Bytes> {
    if |text| % 2 != 0 || |text| > limit * 2 then None else UnhexPairs(text)
  }

  lemma HexDigitInverse(n: nat)
    requires n < 16
    ensures HexDigit(DIGITS[n]) == Some(n)
  {}

  lemma DigitsInverse(c: char)
    requires HexDigit(c).Some?
    ensures HexDigit(c).value < 16 && DIGITS[HexDigit(c).value] == c
  {}

  lemma PairInverse(high: char, low: char, b: byte)
    ensures UnhexPair(high, low) == Some(b) <==> [high, low] == ByteHex(b)
  {
    var h, l := b as int / 16, b as int % 16;
    HexDigitInverse(h);
    HexDigitInverse(l);
    if UnhexPair(high, low) == Some(b) {
      DigitsInverse(high);
      DigitsInverse(low);
      var x, y := HexDigit(high).value, HexDigit(low).value;
      assert x * 16 + y == b as int && x == h && y == l;
    }
    if [high, low] == ByteHex(b) {
      assert high == [high, low][0] == ByteHex(b)[0] && low == [high, low][1] == ByteHex(b)[1];
    }
  }

  lemma {:induction false} HexLength(bytes: Bytes)
    ensures |Hex(bytes)| == 2 * |bytes|
  {
    if bytes != [] { HexLength(bytes[..|bytes| - 1]); }
  }

  lemma {:induction false} UnhexPairsExact(text: string, bytes: Bytes)
    requires |text| % 2 == 0
    ensures UnhexPairs(text) == Some(bytes) <==> text == Hex(bytes)
    decreases |text|
  {
    HexLength(bytes);
    if text != "" && bytes != [] {
      var n, m := |text| - 2, |bytes| - 1;
      var init, last := bytes[..m], bytes[m];
      HexLength(init);
      UnhexPairsExact(text[..n], init);
      PairInverse(text[n], text[n + 1], last);
      assert bytes == init + [last] && text == text[..n] + [text[n], text[n + 1]];
      if text == Hex(bytes) {
        assert text[..n] == Hex(init) && [text[n], text[n + 1]] == ByteHex(last);
      }
      if UnhexPairs(text) == Some(bytes) {
        var front, pair := UnhexPairs(text[..n]).value, UnhexPair(text[n], text[n + 1]).value;
        assert (front + [pair])[..m] == front && (front + [pair])[m] == pair;
      }
    }
  }

  /** Decoding is exactly the inverse of encoding: a text decodes to some bytes if and only if it
      is their encoding and they fit the limit. */
  lemma {:induction false} UnhexExact(text: string, limit: nat, bytes: Bytes)
    ensures Unhex(text, limit) == Some(bytes) <==> text == Hex(bytes) && |bytes| <= limit
  {
    HexLength(bytes);
    if |text| % 2 == 0 {
      UnhexPairsExact(text, bytes);
    } else if text == Hex(bytes) {
      assert |text| == 2 * |bytes|;
    }
  }

  /** Encode bytes for a frame. */
  method EncodeBytes(bytes: Bytes) returns (output: string)
    ensures output == Hex(bytes)
  {
    output := "";
    for i := 0 to |bytes|
      invariant output == Hex(bytes[..i])
    {
      assert bytes[..i + 1][..i] == bytes[..i];
      output := output + [DIGITS[bytes[i] as int / 16]];
      output := output + [DIGITS[bytes[i] as int % 16]];
    }
    assert bytes[..|bytes|] == bytes;
  }

  /** Decode a frame, refusing an odd length, an oversized text and any foreign character. */
  method DecodeBytes(text: string, limit: nat) returns (r: Option<Bytes>)
    ensures r == Unhex(text, limit)
  {
    hide HexDigit;
    if |text| % 2 != 0 || |text| > limit * 2 {
      return None;
    }
    var bytes: Bytes := [];
    for i := 0 to |text| / 2
      invariant UnhexPairs(text[..2 * i]) == Some(bytes)
    {
      var high := HexDigit(text[2 * i]);
      var low := HexDigit(text[2 * i + 1]);
      assert text[..2 * i + 2][..2 * i] == text[..2 * i];
      if high.None? || low.None? {
        UndecodablePrefix(text, 2 * i + 2);
        return None;
      }
      var value: byte := (high.value * 16 + low.value) as char;
      bytes := bytes + [value];
    }
    assert text[..2 * (|text| / 2)] == text;
    return Some(bytes);
  }

  lemma {:induction false} UndecodablePrefix(text: string, n: nat)
    requires n <= |text| && n % 2 == 0 && |text| % 2 == 0
    requires UnhexPairs(text[..n]).None?
    ensures UnhexPairs(text).None?
    decreases |text|
  {
    if n == |text| {
      assert text[..n] == text;
    } else {
      assert text[..|text| - 2][..n] == text[..n];
      UndecodablePrefix(text[..|text| - 2], n);
    }
  }
}
