/** What the peer makes of the worker's output over a whole run. */
module Transcripts {
  import opened Text
  import opened Framing
  import opened Connector
  import opened Numbers
  import FileChunks
  import opened Requests
  import opened Credentials
  import Groups
  import opened BecomeUser
  import opened Worker

  predicate IsLines(text: string) {
    text == "" || text[|text| - 1] == '\n'
  }

  lemma {:induction false} SentIsLines(messages: seq<string>)
    ensures IsLines(Sent(messages))
  {
    if messages != [] {
      SentIsLines(messages[1..]);
      var rest := Sent(messages[1..]);
      assert Sent(messages) == messages[0] + NL + rest;
      if rest == "" {
        assert Sent(messages) == messages[0] + NL;
      }
    }
  }

  /** An exception is reported on a line of its own, whatever its text. */
  lemma FailureIsOneLine(message: string)
    ensures '\n' !in FailedLine(message)
    ensures Lines(FailedLine(message) + NL) == [FailedLine(message) + NL]
  {
    var line := FailedLine(message);
    assert forall i :: 0 <= i < |line| ==>
             line[i] == (if i < 12 then "TSI_FAILED: "[i] else JoinLines(message)[i - 12]);
    assert (line + NL)[..|line|] == line;
    IndexOfIs(line + NL, '\n', |line|);
    LinesOfLine(line + NL);
  }

  /** Every reply consists of whole lines, so that the terminator stands on a line of its own. */
  lemma BodyIsLines(command: Option<Command>, handled: Option<Handled>)
    ensures IsLines(Body(command, handled))
  {
    match handled
    case None =>
    case Some(h) =>
      match h.attempt
      case Prevented(_) =>
      case Ran(run) => SentIsLines(run.messages);
  }

  function Bodies(log: seq<Turn>): seq<string> {
    seq(|log|, i requires 0 <= i < |log| => Body(log[i].command, log[i].handled))
  }

  lemma {:induction false} StreamTextSnoc(messages: seq<string>, message: string, end: string)
    ensures StreamText(messages + [message], end) == StreamText(messages, end) + (message + end)
  {
    if messages == [] {
      assert ([message])[1..] == [];
      assert end + "" == end;
    } else {
      assert (messages + [message])[1..] == messages[1..] + [message];
      StreamTextSnoc(messages[1..], message, end);
      var rest := StreamText(messages[1..], end);
      assert messages[0] + (end + (rest + (message + end))) == messages[0] + (end + rest) + (message + end);
    }
  }

  lemma {:induction false} TranscriptIsStream(log: seq<Turn>)
    ensures Transcript(log) == StreamText(Bodies(log), END_LINE)
  {
    hide Body;
    if log != [] {
      var init, last := log[..|log| - 1], log[|log| - 1];
      TranscriptIsStream(init);
      StreamTextSnoc(Bodies(init), Body(last.command, last.handled), END_LINE);
      assert Bodies(log) == Bodies(init) + [Body(last.command, last.handled)];
    }
  }

  function Count(lines: seq<string>, end: string): nat {
    if lines == [] then 0 else (if lines[0] == end then 1 else 0) + Count(lines[1..], end)
  }

  lemma {:induction false} CountConcat(a: seq<string>, b: seq<string>, end: string)
    ensures Count(a + b, end) == Count(a, end) + Count(b, end)
  {
    if a == [] {
      assert a + b == b;
    } else {
      assert (a + b)[1..] == a[1..] + b;
      CountConcat(a[1..], b, end);
    }
  }

  lemma {:induction false} CountAbsent(lines: seq<string>, end: string)
    ensures Count(lines, end) == 0 <==> end !in lines
  {
    if lines != [] {
      CountAbsent(lines[1..], end);
    }
  }

  lemma {:induction false} MessagesAreCounted(input: seq<string>, end: string)
    ensures |Messages(input, end)| == Count(input, end)
    decreases |input|
  {
    hide Concat;
    NextFrameFound(input, end);
    CountAbsent(input, end);
    if end in input {
      var f := NextFrame(input, end).value;
      CountAbsent(f.body, end);
      MessagesAreCounted(f.rest, end);
      CountConcat(f.body + [end], f.rest, end);
      CountConcat(f.body, [end], end);
      assert Count([end], end) == 1 + Count([end][1..], end);
    }
  }

  function Extra(bodies: seq<string>, end: string): nat {
    if bodies == [] then 0 else Count(Lines(bodies[0]), end) + Extra(bodies[1..], end)
  }

  lemma {:induction false} StreamIsCounted(bodies: seq<string>, end: string)
    requires |end| > 0 && IndexOf(end, '\n') == |end| - 1
    requires forall b :: b in bodies ==> IsLines(b)
    ensures Count(Lines(StreamText(bodies, end)), end) == |bodies| + Extra(bodies, end)
  {
    hide Lines, IndexOf;
    if bodies == [] {
      assert Lines("") == [] by { LinesConcat(""); NoLines(); }
    } else {
      var b, after := bodies[0], StreamText(bodies[1..], end);
      assert b in bodies;
      LinesOfLine(end);
      LinesAppend(end, after);
      LinesAppend(b, end + after);
      CountConcat(Lines(b), [end] + Lines(after), end);
      CountConcat([end], Lines(after), end);
      assert Count([end], end) == 1 + Count([end][1..], end);
      StreamIsCounted(bodies[1..], end);
    }
  }

  lemma NoLines()
    ensures Lines("") == []
  {
  }

  lemma TerminatorIsLine()
    ensures IndexOf(END_LINE, '\n') == |END_LINE| - 1
  {
    assert END_LINE == END + NL;
    assert '\n' !in END;
    assert END_LINE[..12] == END;
    IndexOfIs(END_LINE, '\n', 12);
  }

  /** Whatever the handlers write, the peer receives one message for each turn and one more for each
      terminator line that a handler writes itself, as the file transfer commands do. */
  lemma PeerCountsTurns(log: seq<Turn>)
    ensures |Messages(Lines(Transcript(log)), END_LINE)| == |log| + Extra(Bodies(log), END_LINE)
  {
    hide Body, StreamText, Lines, END_LINE;
    TerminatorIsLine();
    TranscriptIsStream(log);
    forall b | b in Bodies(log) ensures IsLines(b) {
      var i :| 0 <= i < |log| && b == Bodies(log)[i];
      BodyIsLines(log[i].command, log[i].handled);
    }
    MessagesAreCounted(Lines(Transcript(log)), END_LINE);
    StreamIsCounted(Bodies(log), END_LINE);
  }

  lemma {:induction false} ExtraIsZero(bodies: seq<string>, end: string)
    ensures Extra(bodies, end) == 0 <==> forall b :: b in bodies ==> end !in Lines(b)
  {
    hide Lines;
    if bodies != [] {
      var first := bodies[0];
      ExtraIsZero(bodies[1..], end);
      CountAbsent(Lines(first), end);
      assert first in bodies;
      forall b | b in bodies ensures b == first || b in bodies[1..] {}
      if Extra(bodies[1..], end) != 0 {
        var b :| b in bodies[1..] && end in Lines(b);
        assert b in bodies;
      }
    }
  }

  /** The peer reads back exactly the turns' replies, in order, if and only if no handler writes a
      terminator line itself. */
  lemma PeerRecoversReplies(log: seq<Turn>)
    ensures Messages(Lines(Transcript(log)), END_LINE) == Bodies(log) <==>
            forall b :: b in Bodies(log) ==> END_LINE !in Lines(b)
  {
    hide Body, StreamText, Lines, END_LINE, Transcript;
    PeerCountsTurns(log);
    ExtraIsZero(Bodies(log), END_LINE);
    if forall b :: b in Bodies(log) ==> END_LINE !in Lines(b) {
      TerminatorIsLine();
      TranscriptIsStream(log);
      forall b | b in Bodies(log) ensures IsMessage(b, END_LINE) {
        var i :| 0 <= i < |log| && b == Bodies(log)[i];
        BodyIsLines(log[i].command, log[i].handled);
      }
      NoLines();
      assert StreamText(Bodies(log), END_LINE) + "" == StreamText(Bodies(log), END_LINE);
      StreamDelivers(Bodies(log), "", END_LINE);
    }
  }

  lemma Regroup(a: string, b: string, d: string, end: string)
    ensures a + (b + d + (NL + end)) + NL == (a + b + d + NL) + (end + NL)
  {
  }

  lemma LengthReplyText(n: nat)
    ensures exists first :: IsLines(first) && OkText(Some(FileChunks.LengthReply(n))) + NL == first + END_LINE
  {
    hide Decimal;
    var first := "TSI_OK\n" + "TSI_LENGTH " + Decimal(n) + NL;
    assert NL + END == "\nENDOFMESSAGE" && END + NL == END_LINE;
    Regroup("TSI_OK\n", "TSI_LENGTH ", Decimal(n), END);
    assert IsLines(first);
  }

  /** The reply that announces a file chunk holds a terminator line of its own. */
  lemma LengthReplyHoldsTerminator(n: nat)
    ensures END_LINE in Lines(OkText(Some(FileChunks.LengthReply(n))) + NL)
  {
    hide Lines, OkText, FileChunks.LengthReply, END_LINE, IsLines;
    LengthReplyText(n);
    var first :| IsLines(first) && OkText(Some(FileChunks.LengthReply(n))) + NL == first + END_LINE;
    TerminatorIsLine();
    LinesOfLine(END_LINE);
    IsLinesAppend(first, END_LINE);
  }

  lemma IsLinesAppend(a: string, b: string)
    requires IsLines(a)
    ensures Lines(a + b) == Lines(a) + Lines(b)
  {
    hide Lines;
    LinesAppend(a, b);
  }

  /** So a run in which a file chunk is sent is not read back. */
  lemma FileChunkIsNotRecovered(log: seq<Turn>, n: nat)
    requires OkText(Some(FileChunks.LengthReply(n))) + NL in Bodies(log)
    ensures Messages(Lines(Transcript(log)), END_LINE) != Bodies(log)
  {
    hide Lines, Transcript, Body, END_LINE;
    LengthReplyHoldsTerminator(n);
    PeerRecoversReplies(log);
  }

  /** A worker set up by initialize() with the actual dispatch table starts ready for its main loop,
      provided that a process which is to switch users is Capable. */
  lemma StartsReady(w: Worker, c: Creds, switchUid: bool, openSessions: bool, policy: Groups.Policy)
    requires w.st == Initialize(c, switchUid, openSessions, policy) && w.table == Table(DISPATCHED)
    requires w.proc.creds == c && w.cache.Valid() && w.conn.buffer == "" && WellFormed(c)
    requires w.st.switchUid ==> Capable(c)
    ensures w.Ready()
  {
    DispatchedCommands();
    forall e | e in w.table ensures !e.command.StartForwarding? {
      TableIsOrdinary(DISPATCHED, e, e);
    }
  }

}
