/** Line-delimited control frames over the serial channel, read in whatever pieces arrive. */
module Serial {
  import opened Protocol
  import opened Lines

  // ---- The simple form: split the whole stream -------------------------------------

  /** The non-empty lines of a stream, in order. */
  function Bodies(s: Bytes): seq<Bytes>
    decreases |s|
  {
    var i := FirstNewline(s);
    if i == |s| then []
    else (if i == 0 then [] else [s[..i]]) + Bodies(s[i + 1..])
  }

  /** What follows the last newline is bytes again. */
  function Tail(s: Bytes): (rest: Bytes) {
    LeftoverOfBytes(s);
    Leftover(s)
  }

  lemma {:induction false} LeftoverOfBytes(s: Bytes)
    ensures forall i | 0 <= i < |Leftover(s)| :: Leftover(s)[i] < 256 as char
    decreases |s|
  {
    var i := FirstNewline(s);
    if i < |s| { LeftoverOfBytes(s[i + 1..]); }
  }

  /** Some line, complete or not, is longer than a frame may be. */
  predicate TooLong(s: Bytes)
    decreases |s|
  {
    var i := FirstNewline(s);
    i > MAX_FRAME_LENGTH || (i < |s| && TooLong(s[i + 1..]))
  }

  lemma {:induction false} Unfold(s: Bytes)
    ensures var i := FirstNewline(s);
            if i == |s| then Bodies(s) == [] && Tail(s) == s && TooLong(s) == (i > MAX_FRAME_LENGTH)
            else && Bodies(s) == (if i == 0 then [] else [s[..i]]) + Bodies(s[i + 1..])
                 && Tail(s) == Tail(s[i + 1..])
                 && TooLong(s) == (i > MAX_FRAME_LENGTH || TooLong(s[i + 1..]))
  {
    hide FirstNewline;
  }

  lemma NewlineStays(a: Bytes, b: Bytes)
    ensures if FirstNewline(a) < |a| then FirstNewline(a + b) == FirstNewline(a)
            else FirstNewline(a + b) == |a| + FirstNewline(b)
  {
    var s, i := a + b, FirstNewline(a);
    if i < |a| {
      FirstNewlineAt(s, i);
    } else {
      var j := FirstNewline(b);
      assert forall k | 0 <= k < |a| + j :: s[k] != '\n';
      if j < |b| {
        FirstNewlineAt(s, |a| + j);
      } else {
        assert NoNewline(s);
      }
    }
  }

  /** Splitting a stream in two: the second part starts with what the first left over. */
  lemma {:induction false} SplitAt(a: Bytes, b: Bytes)
    requires !TooLong(a)
    ensures Bodies(a + b) == Bodies(a) + Bodies(Tail(a) + b)
    ensures Tail(a + b) == Tail(Tail(a) + b)
    ensures TooLong(a + b) == TooLong(Tail(a) + b)
    decreases |a|
  {
    hide Bodies, Tail, TooLong, FirstNewline;
    Unfold(a);
    Unfold(a + b);
    NewlineStays(a, b);
    var i := FirstNewline(a);
    if i < |a| {
      assert (a + b)[i + 1..] == a[i + 1..] + b && (a + b)[..i] == a[..i];
      SplitAt(a[i + 1..], b);
    }
  }

  lemma {:induction false} TooLongStays(a: Bytes, b: Bytes)
    requires TooLong(a)
    ensures TooLong(a + b)
    decreases |a|
  {
    hide Bodies, Tail, TooLong, FirstNewline;
    Unfold(a);
    Unfold(a + b);
    NewlineStays(a, b);
    var i := FirstNewline(a);
    if i < |a| && i <= MAX_FRAME_LENGTH {
      assert (a + b)[i + 1..] == a[i + 1..] + b;
      TooLongStays(a[i + 1..], b);
    }
  }

  lemma {:induction false} TailHasNoNewline(s: Bytes)
    ensures FirstNewline(Tail(s)) == |Tail(s)|
    decreases |s|
  {
    hide Bodies, TooLong, FirstNewline;
    var i := FirstNewline(s);
    if i < |s| { TailHasNoNewline(s[i + 1..]); }
  }

  /** The lines still to be delivered: the one just drained, unless it is empty, and those behind it. */
  function Due(line: Option<Bytes>, bytes: Bytes): seq<Bytes> {
    (if line.Some? && line.value != [] then [line.value] else []) + Bodies(bytes)
  }

  lemma DueNext(bodies: seq<Bytes>, line: Bytes, bytes: Bytes)
    ensures bodies + Due(Some(line), bytes) == (if line == [] then bodies else bodies + [line]) + Bodies(bytes)
  {
    hide Bodies;
  }

  // ---- The incremental form -----------------------------------------------------------

  /** Bytes of an unfinished line, and how many of them were searched already. */
  class SerialBuffer {
    var bytes: Bytes
    var scanned: nat
    /** Everything consumed, one acknowledgement a byte, and how often a byte was inspected. */
    ghost var stream: Bytes
    ghost var acknowledged: nat
    ghost var inspected: nat

    ghost predicate Valid()
      reads this
    {
      && bytes == Tail(stream) && scanned == |bytes| && !TooLong(stream)
      && acknowledged == |stream| && inspected == |stream|
    }

    constructor ()
      ensures Valid() && stream == []
    {
      bytes, scanned, stream, acknowledged, inspected := [], 0, [], 0, 0;
    }

    /** Search for the next newline from where the last search stopped, and drain the line it ends. */
    method NextLine() returns (line: Option<Bytes>)
      requires scanned <= |bytes| && FirstNewline(bytes) >= scanned
      modifies this`bytes, this`scanned, this`inspected
      ensures match line
              case Some(body) =>
                var i := FirstNewline(old(bytes));
                && i < |old(bytes)| && body == old(bytes)[..i] && bytes == old(bytes)[i + 1..] && scanned == 0
                && inspected == old(inspected) + (i + 1 - old(scanned))
              case None =>
                && FirstNewline(bytes) == |bytes| && bytes == old(bytes) && scanned == |bytes|
                && inspected == old(inspected) + (|bytes| - old(scanned))
    {
      var index := scanned;
      while index < |bytes| && bytes[index] != '\n'
        invariant scanned <= index <= |bytes| && FirstNewline(bytes) >= index
        invariant bytes == old(bytes) && scanned == old(scanned) && inspected == old(inspected) + (index - scanned)
      {
        index := index + 1;
        inspected := inspected + 1;
        BeyondIndex(bytes, index);
      }
      if index == |bytes| {
        scanned := |bytes|;
        return None;
      }
      FirstNewlineAt(bytes, index);
      inspected := inspected + 1;
      line := Some(bytes[..index]);
      bytes := bytes[index + 1..];
      scanned := 0;
    }

    /** Take in one chunk: acknowledge every byte, then deliver the lines it completes. */
    method Feed(chunk: Bytes) returns (ok: bool, bodies: seq<Bytes>)
      requires Valid()
      modifies this
      ensures stream == old(stream) + chunk && acknowledged == |stream|
      ensures ok <==> !TooLong(stream)
      ensures ok ==> Valid() && Bodies(stream) == Bodies(old(stream)) + bodies
    {
      hide Bodies, Tail, TooLong, FirstNewline;
      acknowledged := acknowledged + |chunk|;
      TailHasNoNewline(stream);
      SplitAt(stream, chunk);
      NewlineStays(bytes, chunk);
      ghost var all, before := bytes + chunk, stream;
      stream := stream + chunk;
      bytes := bytes + chunk;
      bodies := [];
      Unfold(all);
      var line := NextLine();
      while line.Some?
        invariant bodies + Due(line, bytes) == Bodies(all)
        invariant TooLong(all) == ((line.Some? && |line.value| > MAX_FRAME_LENGTH) || TooLong(bytes))
        invariant Tail(bytes) == Tail(all)
        invariant acknowledged == |stream| && stream == before + chunk
        invariant if line.Some? then scanned == 0 && inspected == |stream| - |bytes|
                  else scanned == |bytes| && inspected == |stream| && FirstNewline(bytes) == |bytes|
        decreases |bytes|, line.Some?
      {
        Unfold(bytes);
        DueNext(bodies, line.value, bytes);
        if line.value != [] {
          if |line.value| > MAX_FRAME_LENGTH {
            return false, [];
          }
          bodies := bodies + [line.value];
        }
        line := NextLine();
      }
      Unfold(bytes);
      ok := |bytes| <= MAX_FRAME_LENGTH;
      assert bodies + [] == bodies;
    }
  }

  lemma BeyondIndex(s: Bytes, index: nat)
    requires 0 < index <= |s| && FirstNewline(s) >= index - 1 && s[index - 1] != '\n'
    ensures FirstNewline(s) >= index
  {}

  function Flatten(chunks: seq<Bytes>): Bytes {
    if chunks == [] then [] else Flatten(chunks[..|chunks| - 1]) + chunks[|chunks| - 1]
  }

  lemma {:induction false} TooLongInFull(chunks: seq<Bytes>, k: nat)
    requires k <= |chunks| && TooLong(Flatten(chunks[..k]))
    ensures TooLong(Flatten(chunks))
    decreases |chunks|
  {
    hide TooLong;
    if k == |chunks| {
      assert chunks[..k] == chunks;
    } else {
      var init := chunks[..|chunks| - 1];
      assert init[..k] == chunks[..k];
      TooLongInFull(init, k);
      TooLongStays(Flatten(init), chunks[|chunks| - 1]);
    }
  }

  /** However the stream is cut into chunks, the delivered bodies are the non-empty lines of the whole
      stream, and it is refused exactly when some line of it is too long. The channel ends cleanly
      exactly when no unfinished line is left. */
  method ReadAll(chunks: seq<Bytes>) returns (ok: bool, bodies: seq<Bytes>, clean: bool)
    ensures ok <==> !TooLong(Flatten(chunks))
    ensures ok ==> bodies == Bodies(Flatten(chunks)) && (clean <==> Tail(Flatten(chunks)) == [])
  {
    hide TooLong, Tail, Bodies, FirstNewline;
    var buffer := new SerialBuffer();
    bodies, ok, clean := [], true, false;
    Unfold([]);
    for k := 0 to |chunks|
      invariant ok && buffer.Valid() && fresh(buffer)
      invariant buffer.stream == Flatten(chunks[..k]) && bodies == Bodies(buffer.stream)
    {
      assert chunks[..k + 1][..k] == chunks[..k];
      var more;
      ok, more := buffer.Feed(chunks[k]);
      if !ok {
        TooLongInFull(chunks, k + 1);
        return;
      }
      bodies := bodies + more;
    }
    assert chunks[..|chunks|] == chunks;
    clean := buffer.bytes == [];
  }

  datatype LineRead = Line(body: Bytes) | CleanEnd | Truncated | Oversized

  /** The reader that takes and acknowledges one byte at a time, on what is left of the channel. */
  method ReadAcknowledgedLine(input: Bytes) returns (r: LineRead, acknowledged: nat)
    ensures var i := FirstNewline(input);
            && r == (if i > MAX_FRAME_LENGTH then Oversized
                     else if i < |input| then Line(input[..i])
                     else if input == [] then CleanEnd else Truncated)
            && acknowledged == (if r.Oversized? then MAX_FRAME_LENGTH + 1 else if r.Line? then i + 1 else |input|)
  {
    var body: Bytes := [];
    acknowledged := 0;
    while true
      invariant acknowledged == |body| <= |input| && body == input[..|body|]
      invariant |body| <= MAX_FRAME_LENGTH && FirstNewline(input) >= |body|
      decreases |input| - |body|
    {
      if |body| == |input| {
        return if body == [] then CleanEnd else Truncated, acknowledged;
      }
      var next := input[|body|];
      acknowledged := acknowledged + 1;
      if next == '\n' {
        FirstNewlineAt(input, |body|);
        return Line(body), acknowledged;
      }
      BeyondIndex(input, |body| + 1);
      if |body| >= MAX_FRAME_LENGTH {
        return Oversized, acknowledged;
      }
      body := body + [next];
    }
  }
}
