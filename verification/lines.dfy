/** Splitting a byte stream into newline-terminated lines, and the event identifiers that
    carried each line's first byte and its newline. */
module Lines {

  /** The index of the first newline, or the length when there is none. */
  function FirstNewline(s: string): (i: nat)
    ensures i <= |s|
    ensures i < |s| ==> s[i] == '\n'
    ensures forall j | 0 <= j < i :: s[j] != '\n'
  {
    if s == "" || s[0] == '\n' then 0 else 1 + FirstNewline(s[1..])
  }

  lemma FirstNewlineAt(s: string, i: nat)
    requires i < |s| && s[i] == '\n' && forall j | 0 <= j < i :: s[j] != '\n'
    ensures FirstNewline(s) == i
  {}

  predicate NoNewline(s: string) {
    forall j | 0 <= j < |s| :: s[j] != '\n'
  }

  function Unlines(lines: seq<string>): string {
    if lines == [] then "" else lines[0] + "\n" + Unlines(lines[1..])
  }

  // ---- Streams whose bytes remember their event ---------------------------

  datatype Tagged = Tagged(value: char, event: nat)

  /** One complete line: its text, the event that carried its newline and the event that carried
      its first byte. */
  datatype CompletedLine = CompletedLine(text: string, eventId: nat, firstEventId: nat)

  function Tag(data: string, event: nat): seq<Tagged> {
    seq(|data|, i requires 0 <= i < |data| => Tagged(data[i], event))
  }

  function Text(bytes: seq<Tagged>): (s: string)
    ensures |s| == |bytes|
  {
    seq(|bytes|, i requires 0 <= i < |bytes| => bytes[i].value)
  }

  /** The lines of a whole stream, split once. */
  function SplitLines(bytes: seq<Tagged>): seq<CompletedLine>
    decreases |bytes|
  {
    var i := FirstNewline(Text(bytes));
    if i == |bytes| then []
    else [CompletedLine(Text(bytes[..i]), bytes[i].event, bytes[0].event)] + SplitLines(bytes[i + 1..])
  }

  /** The bytes after the last newline of a whole stream. */
  function SplitRest(bytes: seq<Tagged>): seq<Tagged>
    decreases |bytes|
  {
    var i := FirstNewline(Text(bytes));
    if i == |bytes| then bytes else SplitRest(bytes[i + 1..])
  }

  function Texts(lines: seq<CompletedLine>): (texts: seq<string>)
    ensures |texts| == |lines|
  {
    seq(|lines|, i requires 0 <= i < |lines| => lines[i].text)
  }

  lemma TextConcat(a: seq<Tagged>, b: seq<Tagged>)
    ensures Text(a + b) == Text(a) + Text(b)
  {}

  lemma {:induction false} RestHasNoNewline(bytes: seq<Tagged>)
    ensures NoNewline(Text(SplitRest(bytes)))
    decreases |bytes|
  {
    var i := FirstNewline(Text(bytes));
    if i < |bytes| { RestHasNoNewline(bytes[i + 1..]); }
  }

  /** Nothing is lost: the lines with their newlines, then the rest, are the stream. */
  lemma {:induction false} SplitIsWhole(bytes: seq<Tagged>)
    ensures Text(bytes) == Unlines(Texts(SplitLines(bytes))) + Text(SplitRest(bytes))
    decreases |bytes|
  {
    hide SplitLines, SplitRest, FirstNewline, Text;
    SplitStep(bytes);
    var i := FirstNewline(Text(bytes));
    if i < |bytes| {
      var tail := bytes[i + 1..];
      SplitIsWhole(tail);
      NewlineAt(bytes, i);
      CutAtNewline(bytes, i);
      TextsCons(CompletedLine(Text(bytes[..i]), bytes[i].event, bytes[0].event), SplitLines(tail));
    }
  }

  lemma NewlineAt(bytes: seq<Tagged>, i: nat)
    requires i < |bytes| && i == FirstNewline(Text(bytes))
    ensures bytes[i].value == '\n'
  {}

  lemma TextsCons(line: CompletedLine, lines: seq<CompletedLine>)
    ensures Unlines(Texts([line] + lines)) == line.text + "\n" + Unlines(Texts(lines))
  {
    assert Texts([line] + lines)[1..] == Texts(lines);
  }

  lemma CutAtNewline(bytes: seq<Tagged>, i: nat)
    requires i < |bytes| && bytes[i].value == '\n'
    ensures Text(bytes) == Text(bytes[..i]) + "\n" + Text(bytes[i + 1..])
  {}

  lemma FirstNewlineExtends(a: seq<Tagged>, b: seq<Tagged>)
    requires FirstNewline(Text(a)) < |a|
    ensures FirstNewline(Text(a + b)) == FirstNewline(Text(a))
  {
    var i := FirstNewline(Text(a));
    TextConcat(a, b);
    FirstNewlineAt(Text(a) + Text(b), i);
  }

  /** Splitting a stream in two parts: the second part starts with what the first left over. */
  lemma {:induction false} SplitConcat(a: seq<Tagged>, b: seq<Tagged>)
    ensures SplitLines(a + b) == SplitLines(a) + SplitLines(SplitRest(a) + b)
    ensures SplitRest(a + b) == SplitRest(SplitRest(a) + b)
    decreases |a|
  {
    var i := FirstNewline(Text(a));
    if i < |a| {
      FirstNewlineExtends(a, b);
      assert (a + b)[..i] == a[..i] && (a + b)[i + 1..] == a[i + 1..] + b;
      SplitConcat(a[i + 1..], b);
    }
  }

  // ---- What one frame completes -------------------------------------------

  /** The lines one frame completes. `s` is the pending text followed by the frame's data, and
      `first` the event of its first byte. */
  function Complete(s: string, first: nat, event: nat): seq<CompletedLine>
    decreases |s|
  {
    var i := FirstNewline(s);
    if i == |s| then [] else [CompletedLine(s[..i], event, first)] + Complete(s[i + 1..], event, event)
  }

  /** The text left pending. */
  function Leftover(s: string): (rest: string)
    ensures |rest| <= |s|
    decreases |s|
  {
    var i := FirstNewline(s);
    if i == |s| then s else Leftover(s[i + 1..])
  }

  lemma FrameText(bytes: seq<Tagged>, data: string, event: nat)
    ensures |Tag(data, event)| == |data| && Text(bytes + Tag(data, event)) == Text(bytes) + data
    ensures Text([]) == "" && NoNewline(Text([]))
  {}

  lemma NewlineInFrame(text: string, data: string)
    requires NoNewline(text)
    ensures FirstNewline(text + data) >= |text|
  {
    assert forall j | 0 <= j < |text| :: (text + data)[j] == text[j];
  }

  lemma CutInFrame(bytes: seq<Tagged>, data: string, event: nat, i: nat)
    requires |bytes| <= i < |bytes| + |data|
    ensures |Tag(data, event)| == |data|
    ensures var whole, s := bytes + Tag(data, event), Text(bytes) + data;
            && Text(whole[..i]) == s[..i] && whole[i].event == event
            && whole[0].event == (if bytes == [] then event else bytes[0].event)
            && whole[i + 1..] == Tag(data[i - |bytes| + 1..], event) && s[i + 1..] == data[i - |bytes| + 1..]
  {}

  lemma CompleteStep(s: string, first: nat, event: nat)
    ensures var i := FirstNewline(s);
            if i == |s| then Complete(s, first, event) == [] && Leftover(s) == s
            else && Complete(s, first, event) ==
                    [CompletedLine(s[..i], event, first)] + Complete(s[i + 1..], event, event)
                 && Leftover(s) == Leftover(s[i + 1..])
  {}

  lemma SplitStep(bytes: seq<Tagged>)
    ensures var i := FirstNewline(Text(bytes));
            if i == |bytes| then SplitLines(bytes) == [] && SplitRest(bytes) == bytes
            else && SplitLines(bytes) == [CompletedLine(Text(bytes[..i]), bytes[i].event, bytes[0].event)]
                 + SplitLines(bytes[i + 1..])
                 && SplitRest(bytes) == SplitRest(bytes[i + 1..])
  {}

  lemma {:induction false} CompleteIsSplit(bytes: seq<Tagged>, data: string, event: nat)
    requires NoNewline(Text(bytes))
    ensures var first := if bytes == [] then event else bytes[0].event;
            Complete(Text(bytes) + data, first, event) == SplitLines(bytes + Tag(data, event))
    ensures Leftover(Text(bytes) + data) == Text(SplitRest(bytes + Tag(data, event)))
    decreases |data|
  {
    hide Text, Tag, FirstNewline, NoNewline, Complete, Leftover, SplitLines, SplitRest;
    var whole, s := bytes + Tag(data, event), Text(bytes) + data;
    FrameText(bytes, data, event);
    NewlineInFrame(Text(bytes), data);
    CompleteStep(s, if bytes == [] then event else bytes[0].event, event);
    SplitStep(whole);
    var i := FirstNewline(s);
    if i < |s| {
      CutInFrame(bytes, data, event, i);
      var tail := data[i - |bytes| + 1..];
      CompleteIsSplit([], tail, event);
      assert Text([]) + tail == tail && [] + Tag(tail, event) == Tag(tail, event);
    }
  }
}
