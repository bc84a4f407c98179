/** The control channel and the replies written to it (class Connector, lib/Connector.py). */
module Connector {
  import opened Text
  import opened Framing

  const END: string := "ENDOFMESSAGE"
  const END_LINE: string := "ENDOFMESSAGE\n"

  /** str.replace("\n", ":") */
  function JoinLines(message: string): (line: string)
    ensures |line| == |message| && '\n' !in line
    ensures forall i :: 0 <= i < |message| ==> line[i] == if message[i] == '\n' then ':' else message[i]
  {
    if message == "" then ""
    else [if message[0] == '\n' then ':' else message[0]] + JoinLines(message[1..])
  }

  function FailedLine(message: string): string {
    "TSI_FAILED: " + JoinLines(message)
  }

  function OkText(message: Option<string>): string {
    match message
    case None => "TSI_OK"
    case Some(m) => "TSI_OK\n" + m
  }

  /** The bytes that a list of write_message calls puts on the channel. */
  function Sent(messages: seq<string>): string {
    if messages == [] then "" else messages[0] + NL + Sent(messages[1..])
  }

  lemma {:induction false} SentAppend(a: seq<string>, b: seq<string>)
    ensures Sent(a + b) == Sent(a) + Sent(b)
  {
    if a == [] {
      assert a + b == b;
    } else {
      assert (a + b)[1..] == a[1..] + b;
      SentAppend(a[1..], b);
    }
  }

  lemma SentOne(a: seq<string>, message: string)
    ensures Sent(a + [message]) == Sent(a) + message + NL
  {
    SentAppend(a, [message]);
    assert Sent([message]) == message + NL;
  }

  datatype Received = Message(body: string) | Closed

  /** The command socket: the lines still to be read and everything written so far. */
  class ControlChannel {
    var input: seq<string>
    var output: string

    constructor (text: string)
      ensures input == Lines(text) && output == ""
    {
      input, output := Lines(text), "";
    }

    /** The next line, empty at the end of the input. */
    method ReadLine() returns (line: string)
      modifies `input
      ensures if old(input) == [] then line == "" && input == [] else [line] + input == old(input)
    {
      line := "";
      if input != [] {
        line, input := input[0], input[1..];
      }
    }
  }

  /** One process's end of the channel. Text is buffered in the process until it is flushed. */
  class Connector {
    const control: ControlChannel
    var buffer: string

    constructor (control: ControlChannel, buffer: string)
      ensures this.control == control && this.buffer == buffer
    {
      this.control, this.buffer := control, buffer;
    }

    /** Everything written by this process, sent or still buffered. */
    ghost function Written(): string
      reads this, control
    {
      control.output + buffer
    }

    /** Some of the buffered text leaves the process. */
    method Send()
      modifies `buffer, control`output
      ensures Written() == old(Written()) && old(control.output) <= control.output
      ensures |buffer| <= |old(buffer)|
    {
      var n: int := *;
      if 0 <= n <= |buffer| {
        ghost var text := buffer;
        control.output, buffer := control.output + buffer[..n], buffer[n..];
        assert text == text[..n] + text[n..];
      }
    }

    /** Buffers the text, which may send some. When that fails only a part may have been taken. */
    method Write(text: string) returns (ok: bool)
      modifies `buffer, control`output
      ensures old(control.output) <= control.output
      ensures old(Written()) <= Written() <= old(Written()) + text
      ensures ok ==> Written() == old(Written()) + text
    {
      var n: int := *;
      ok := !(0 <= n < |text|);
      buffer := buffer + if ok then text else text[..n];
      Send();
    }

    /** Sends what is buffered, all of it unless an error occurs. */
    method Flush() returns (ok: bool)
      modifies `buffer, control`output
      ensures Written() == old(Written()) && old(control.output) <= control.output
      ensures ok ==> buffer == "" && control.output == Written()
    {
      ok := true;
      while buffer != "" && ok
        invariant Written() == old(Written()) && old(control.output) <= control.output
        decreases |buffer|, ok
      {
        var before := |buffer|;
        Send();
        ok := |buffer| < before;
      }
      assert ok ==> control.output + "" == control.output;
    }

    /** Reads lines up to the terminator line; end of input raises IOError. */
    method ReadMessage() returns (r: Received)
      requires "" !in control.input
      modifies control`input
      ensures "" !in control.input
      ensures match NextFrame(old(control.input), END_LINE)
              case None => r == Closed && control.input == []
              case Some(f) => r == Message(Concat(f.body)) && control.input == f.rest
    {
      var message := "";
      ghost var body: seq<string> := [];
      while true
        invariant message == Concat(body) && END_LINE !in body
        invariant old(control.input) == body + control.input
        decreases |control.input|
      {
        var line := control.ReadLine();
        if |line| == 0 {
          assert old(control.input) == body;
          NextFrameFound(body, END_LINE);
          return Closed;
        }
        if line == END_LINE {
          break;
        }
        ConcatSnoc(body, line);
        body := body + [line];
        message := message + line;
      }
      assert old(control.input) == body + [END_LINE] + control.input;
      NextFrameIs(body, control.input, END_LINE);
      r := Message(message);
    }

    /** The message and a newline, flushed: when this succeeds nothing stays behind in the process. */
    method WriteMessage(message: string) returns (ok: bool)
      modifies `buffer, control`output
      ensures ok ==> buffer == "" && control.output == old(Written()) + message + NL
      ensures old(control.output) <= control.output
      ensures old(Written()) <= Written() <= old(Written()) + (message + NL)
    {
      ok := Write(message);
      assert old(Written()) + (message + NL) == old(Written()) + message + NL;
      if ok {
        ok := Write(NL);
        if ok {
          ok := Flush();
        }
      }
    }

    method Failed(message: string) returns (ok: bool)
      modifies `buffer, control`output
      ensures ok ==> buffer == "" && control.output == old(Written()) + FailedLine(message) + NL
    {
      ok := WriteMessage("TSI_FAILED: " + JoinLines(message));
    }

    method Ok(message: Option<string>) returns (ok: bool)
      modifies `buffer, control`output
      ensures ok ==> buffer == "" && control.output == old(Written()) + OkText(message) + NL
    {
      var msg := "TSI_OK";
      if message.Some? {
        msg := msg + "\n";
        msg := msg + message.value;
      }
      ok := WriteMessage(msg);
    }
  }

  /** A fork, then a message of the child, which ends without another flush, and one of the parent. The
      text that is buffered at the fork belongs to both processes and arrives twice, so that the peer
      sees what was written, in order, exactly if nothing was buffered. What the child's end drops is
      nothing. */
  method ForkAndWrite(conn: Connector, childText: string, parentText: string) returns (ok: bool, dropped: string)
    modifies conn`buffer, conn.control`output
    ensures ok ==>
              && conn.control.output
                 == old(conn.control.output) + (old(conn.buffer) + (childText + NL))
                                             + (old(conn.buffer) + (parentText + NL))
              && (conn.control.output == old(conn.Written()) + (childText + NL) + (parentText + NL)
                  <==> old(conn.buffer) == "")
              && dropped == ""
  {
    hide NL;
    var child := new Connector(conn.control, conn.buffer);
    ok := child.WriteMessage(childText);
    dropped := child.buffer;
    ghost var sent, buffered := old(conn.control.output), old(conn.buffer);
    ghost var c, p := childText + NL, parentText + NL;
    assert ok ==> conn.control.output == sent + (buffered + c) by {
      assert sent + buffered + childText + NL == sent + (buffered + (childText + NL));
    }
    if ok {
      ghost var between := conn.control.output;
      ok := conn.WriteMessage(parentText);
      assert between + buffered + parentText + NL == between + (buffered + (parentText + NL));
      TwiceOrOnce(sent, buffered, c, p);
    }
  }

  lemma TwiceOrOnce(sent: string, buffered: string, child: string, parent: string)
    ensures sent + (buffered + child) + (buffered + parent) == sent + buffered + child + parent <==> buffered == ""
  {
    var twice := sent + (buffered + child) + (buffered + parent);
    assert |twice| == |sent + buffered + child + parent| + |buffered|;
    if buffered == "" {
      assert buffered + child == child && buffered + parent == parent && sent + buffered == sent;
    }
  }
}
