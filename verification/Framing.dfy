/** Splitting a channel's input into messages closed by a terminator line (Connector.read_message,
    lib/Connector.py). Input is handled as the list of lines that readline() delivers. */
module Framing {
  import opened Text

  /** The successive results of readline() on a text. */
  function Lines(text: string): seq<string> {
    if text == "" then [] else [FirstLine(text)] + Lines(text[|FirstLine(text)|..])
  }

  lemma {:induction false} LinesConcat(text: string)
    ensures Concat(Lines(text)) == text
  {
    hide IndexOf, FirstLine;
    if text != "" {
      LinesConcat(text[|FirstLine(text)|..]);
    }
  }

  lemma FirstLineOfPrefix(a: string, b: string)
    requires '\n' in a
    ensures FirstLine(a + b) == FirstLine(a)
    ensures (a + b)[|FirstLine(a)|..] == a[|FirstLine(a)|..] + b
    ensures var rest := a[|FirstLine(a)|..]; rest == "" || rest[|rest| - 1] == a[|a| - 1]
  {
    var n := IndexOf(a, '\n');
    assert (a + b)[..n] == a[..n];
    IndexOfIs(a + b, '\n', n);
    assert (a + b)[..n + 1] == a[..n + 1];
  }

  lemma {:induction false} LinesAppend(a: string, b: string)
    requires a == "" || a[|a| - 1] == '\n'
    ensures Lines(a + b) == Lines(a) + Lines(b)
    decreases |a|
  {
    hide IndexOf, FirstLine;
    if a == "" {
      assert a + b == b;
    } else {
      FirstLineOfPrefix(a, b);
      var line := FirstLine(a);
      var rest := a[|line|..];
      LinesAppend(rest, b);
      calc {
        Lines(a + b);
        [line] + Lines(rest + b);
        [line] + (Lines(rest) + Lines(b));
        ([line] + Lines(rest)) + Lines(b);
        Lines(a) + Lines(b);
      }
    }
  }

  datatype Frame = Frame(body: seq<string>, rest: seq<string>)

  /** The next message and what follows its terminator; None when the input runs out first. */
  function NextFrame(input: seq<string>, end: string): (f: Option<Frame>)
    ensures f.Some? ==> |f.value.rest| < |input|
  {
    if input == [] then None
    else if input[0] == end then Some(Frame([], input[1..]))
    else
      match NextFrame(input[1..], end)
      case None => None
      case Some(f) => Some(Frame([input[0]] + f.body, f.rest))
  }

  /** The text of all complete messages of an input, in order. */
  function Frames(input: seq<string>, end: string): seq<seq<string>>
    decreases |input|
  {
    match NextFrame(input, end)
    case None => []
    case Some(f) => [f.body] + Frames(f.rest, end)
  }

  /** What is left after the last complete message. */
  function Tail(input: seq<string>, end: string): seq<string>
    decreases |input|
  {
    match NextFrame(input, end)
    case None => input
    case Some(f) => Tail(f.rest, end)
  }

  function Render(bodies: seq<seq<string>>, end: string): seq<string> {
    if bodies == [] then [] else bodies[0] + [end] + Render(bodies[1..], end)
  }

  lemma {:induction false} NextFrameIs(body: seq<string>, rest: seq<string>, end: string)
    requires end !in body
    ensures NextFrame(body + [end] + rest, end) == Some(Frame(body, rest))
  {
    var input := body + [end] + rest;
    if body == [] {
      assert input[1..] == rest;
    } else {
      assert input[1..] == body[1..] + [end] + rest;
      NextFrameIs(body[1..], rest, end);
      assert [input[0]] + body[1..] == body;
    }
  }

  lemma {:induction false} NextFrameFound(input: seq<string>, end: string)
    ensures NextFrame(input, end).Some? <==> end in input
    ensures match NextFrame(input, end)
            case None => end !in input
            case Some(f) => end !in f.body && input == f.body + [end] + f.rest
  {
    if input != [] && input[0] != end {
      NextFrameFound(input[1..], end);
    }
  }

  /** A stream of n terminated messages and a partial tail is cut into exactly these messages. */
  lemma {:induction false} FramesInvertRender(bodies: seq<seq<string>>, tail: seq<string>, end: string)
    requires forall b :: b in bodies ==> end !in b
    requires end !in tail
    ensures Frames(Render(bodies, end) + tail, end) == bodies
    ensures Tail(Render(bodies, end) + tail, end) == tail
  {
    if bodies == [] {
      assert Render(bodies, end) + tail == tail;
      NextFrameFound(tail, end);
    } else {
      var after := Render(bodies[1..], end) + tail;
      assert Render(bodies, end) + tail == bodies[0] + [end] + after;
      NextFrameIs(bodies[0], after, end);
      FramesInvertRender(bodies[1..], tail, end);
    }
  }

  /** Conversely every input is the rendering of its messages followed by an unfinished tail, so
      the decomposition exists for all inputs and, with FramesInvertRender, is unique. */
  lemma {:induction false} EveryInputIsFramed(input: seq<string>, end: string)
    ensures input == Render(Frames(input, end), end) + Tail(input, end)
    ensures end !in Tail(input, end)
    ensures forall b :: b in Frames(input, end) ==> end !in b
    decreases |input|
  {
    NextFrameFound(input, end);
    if NextFrame(input, end).Some? {
      var f := NextFrame(input, end).value;
      EveryInputIsFramed(f.rest, end);
      assert Render(Frames(input, end), end) == f.body + [end] + Render(Frames(f.rest, end), end);
    }
  }

  /** The messages of an input as text. */
  function Messages(input: seq<string>, end: string): seq<string>
    decreases |input|
  {
    match NextFrame(input, end)
    case None => []
    case Some(f) => [Concat(f.body)] + Messages(f.rest, end)
  }

  /** The peer's side: each message followed by the terminator line. */
  function StreamText(messages: seq<string>, end: string): string {
    if messages == [] then "" else messages[0] + (end + StreamText(messages[1..], end))
  }

  predicate IsMessage(text: string, end: string) {
    (text == "" || text[|text| - 1] == '\n') && end !in Lines(text)
  }

  lemma LinesOfLine(end: string)
    requires |end| > 0 && IndexOf(end, '\n') == |end| - 1
    ensures Lines(end) == [end]
  {
    assert end[..|end|] == end;
    assert FirstLine(end) == end;
    assert end[|end|..] == "";
    assert Lines("") == [];
  }

  lemma LinesOfTerminated(text: string, end: string, after: string)
    requires IsMessage(text, end)
    requires |end| > 0 && IndexOf(end, '\n') == |end| - 1
    ensures Lines(text + (end + after)) == Lines(text) + [end] + Lines(after)
  {
    LinesOfLine(end);
    LinesAppend(end, after);
    var tail := end + after;
    LinesAppend(text, tail);
    assert Lines(text) + ([end] + Lines(after)) == Lines(text) + [end] + Lines(after);
  }

  /** Text level: sending n messages and an incomplete rest delivers exactly the n messages. */
  lemma {:induction false} StreamDelivers(messages: seq<string>, rest: string, end: string)
    requires |end| > 0 && IndexOf(end, '\n') == |end| - 1
    requires forall m :: m in messages ==> IsMessage(m, end)
    requires end !in Lines(rest)
    ensures Messages(Lines(StreamText(messages, end) + rest), end) == messages
  {
    if messages == [] {
      assert StreamText(messages, end) + rest == rest;
      NextFrameFound(Lines(rest), end);
    } else {
      var m := messages[0];
      var after := StreamText(messages[1..], end) + rest;
      assert StreamText(messages, end) + rest == m + (end + after);
      assert IsMessage(m, end);
      LinesOfTerminated(m, end, after);
      NextFrameIs(Lines(m), Lines(after), end);
      LinesConcat(m);
      StreamDelivers(messages[1..], rest, end);
    }
  }
}
