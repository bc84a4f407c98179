/** Data blocks on text streams (class StreamConnector, lib/Connector.py). */
module StreamConnector {
  import opened Text
  import opened Framing
  import opened FileChunks
  import opened Base64

  const BEGIN := "---BEGIN DATA BASE64---"
  const BEGIN_PREFIX := "---BEGIN DATA BASE64"
  const BLOCK_END := "---END DATA---"

  datatype Message = Message(text: string, rest: seq<string>)

  /** Lines up to one that equals the terminator when stripped; at the end of the input, all lines. */
  function NextMessage(lines: seq<string>, end: string): Message {
    if lines == [] then Message("", [])
    else if Strip(lines[0]) == end then Message("", lines[1..])
    else
      var m := NextMessage(lines[1..], end);
      Message(lines[0] + m.text, m.rest)
  }

  datatype Block = Data(data: seq<Byte>) | NoHeader | NotBase64

  /** A block's header line is checked and its remaining text decoded. */
  function ParseBlock(text: string): Block {
    var n := IndexOf(text, '\n');
    if n == |text| || !(BEGIN_PREFIX <= text[..n]) then NoHeader
    else
      match Decode(text[n + 1..])
      case None => NotBase64
      case Some(data) => Data(data)
  }

  function BlockText(data: seq<Byte>): string {
    BEGIN + NL + (Encode(data) + NL + (BLOCK_END + NL))
  }

  function BlocksText(blocks: seq<seq<Byte>>): string {
    if blocks == [] then "" else BlockText(blocks[0]) + BlocksText(blocks[1..])
  }

  /** Successive read_data results, and the lines left. */
  function ReadBlocks(n: nat, lines: seq<string>): (seq<Block>, seq<string>) {
    if n == 0 then ([], lines)
    else
      var m := NextMessage(lines, BLOCK_END);
      var (blocks, rest) := ReadBlocks(n - 1, m.rest);
      ([ParseBlock(m.text)] + blocks, rest)
  }

  class StreamConnector {
    var input: seq<string>
    var output: string

    constructor (text: string)
      ensures input == Lines(text) && output == ""
    {
      input, output := Lines(text), "";
    }

    /** Consumes lines up to the terminator. The end of the input also ends the message. */
    method ReadMessage(end: string) returns (message: string)
      modifies `input
      ensures Message(message, input) == NextMessage(old(input), end)
    {
      message := "";
      while input != []
        invariant var m := NextMessage(input, end);
                  NextMessage(old(input), end) == Message(message + m.text, m.rest)
        decreases |input|
      {
        var line := input[0];
        ghost var m := NextMessage(input[1..], end);
        input := input[1..];
        if Strip(line) == end {
          assert message + "" == message;
          return;
        }
        assert message + (line + m.text) == message + line + m.text;
        message := message + line;
      }
      assert message + "" == message;
    }

    method WriteMessage(message: string)
      modifies `output
      ensures output == old(output) + (message + NL)
    {
      output := output + message;
      output := output + "\n";
      assert old(output) + message + NL == old(output) + (message + NL);
    }

    method ReadData() returns (block: Block)
      modifies `input
      ensures var m := NextMessage(old(input), BLOCK_END);
              block == ParseBlock(m.text) && input == m.rest
    {
      var message := ReadMessage(BLOCK_END);
      block := ParseBlock(message);
    }

    method WriteData(data: seq<Byte>) returns (written: nat)
      modifies `output
      ensures output == old(output) + BlockText(data) && written == |data|
    {
      WriteMessage(BEGIN);
      WriteMessage(Encode(data));
      WriteMessage(BLOCK_END);
      ThreeLines(old(output), BEGIN + NL, Encode(data) + NL, BLOCK_END + NL);
      written := |data|;
    }
  }

  lemma ThreeLines(before: string, a: string, b: string, c: string)
    ensures before + a + b + c == before + (a + (b + c))
  {
  }

  /** Stripping a line whose text has no space at its ends. */
  lemma StripLine(text: string)
    requires text == "" || (!IsSpace(text[0]) && !IsSpace(text[|text| - 1]))
    ensures Strip(text + NL) == text
  {
    var line := text + NL;
    if text == "" {
      assert line == NL && StripLeft(NL[1..]) == "";
    } else {
      assert StripLeft(line) == line;
      assert line[..|text|] == text;
      assert StripRight(text) == text;
    }
  }

  lemma LinesOfText(text: string, after: string)
    requires '\n' !in text
    ensures Lines(text + NL + after) == [text + NL] + Lines(after)
  {
    var line := text + NL;
    assert line[..|text|] == text;
    IndexOfIs(line, '\n', |text|);
    LinesOfLine(line);
    LinesAppend(line, after);
  }

  lemma PayloadIsOneWord(data: seq<Byte>)
    ensures forall c :: c in Encode(data) ==> !IsSpace(c) && c != '-'
  {
    EncodeUsesAlphabet(data);
    assert forall c | IsEncodedChar(c) :: !IsSpace(c) && c != '-';
  }

  /** No payload line can be taken for the terminator. */
  lemma PayloadIsNotTerminator(data: seq<Byte>)
    ensures Strip(Encode(data) + NL) != BLOCK_END
  {
    PayloadIsOneWord(data);
    StripLine(Encode(data));
    assert BLOCK_END[0] == '-';
  }

  lemma HeaderLines()
    ensures '\n' !in BEGIN && '\n' !in BLOCK_END && BEGIN_PREFIX <= BEGIN
    ensures |BEGIN| == 23 && |BLOCK_END| == 14
    ensures !IsSpace(BEGIN[0]) && !IsSpace(BEGIN[22]) && !IsSpace(BLOCK_END[0]) && !IsSpace(BLOCK_END[13])
  {
  }

  /** A block as it stands in the stream. */
  lemma BlockIsWritten(data: seq<Byte>)
    ensures BlockText(data) == "---BEGIN DATA BASE64---\n" + (Encode(data) + "\n" + "---END DATA---\n")
  {
    hide Encode;
    assert BEGIN + NL == "---BEGIN DATA BASE64---\n" && BLOCK_END + NL == "---END DATA---\n";
  }

  lemma HeaderIsNotTerminator()
    ensures Strip(BEGIN + NL) != BLOCK_END && Strip(BLOCK_END + NL) == BLOCK_END
  {
    hide Strip, IsSpace;
    HeaderLines();
    StripLine(BEGIN);
    StripLine(BLOCK_END);
  }

  lemma LinesOfThree(a: string, b: string, c: string, after: string)
    requires '\n' !in a && '\n' !in b && '\n' !in c
    ensures Lines(a + NL + (b + NL + (c + NL)) + after) == [a + NL, b + NL, c + NL] + Lines(after)
  {
    hide Lines;
    var end := c + NL + after;
    LinesOfText(c, after);
    LinesOfText(b, end);
    LinesOfText(a, b + NL + end);
    assert a + NL + (b + NL + (c + NL)) + after == a + NL + (b + NL + end);
  }

  lemma MessageOfThree(a: string, b: string, c: string, rest: seq<string>, end: string)
    requires Strip(a) != end && Strip(b) != end && Strip(c) == end
    ensures NextMessage([a, b, c] + rest, end) == Message(a + b, rest)
  {
    hide Strip;
    assert ([a, b, c] + rest)[1..] == [b, c] + rest;
    assert ([b, c] + rest)[1..] == [c] + rest;
    assert ([c] + rest)[1..] == rest;
    assert NextMessage([c] + rest, end) == Message("", rest);
    assert b + "" == b;
    assert NextMessage([b, c] + rest, end) == Message(b, rest);
  }

  lemma BlockParses(data: seq<Byte>)
    ensures ParseBlock(BEGIN + NL + (Encode(data) + NL)) == Data(data)
  {
    hide Encode, Decode;
    HeaderLines();
    DecodeInvertsEncode(data);
    var text := BEGIN + NL + (Encode(data) + NL);
    assert text[..|BEGIN|] == BEGIN && text[|BEGIN| + 1..] == Encode(data) + NL;
    IndexOfIs(text, '\n', |BEGIN|);
  }

  lemma BlockIsRead(data: seq<Byte>, after: string)
    ensures var m := NextMessage(Lines(BlockText(data) + after), BLOCK_END);
            ParseBlock(m.text) == Data(data) && m.rest == Lines(after)
  {
    hide Encode, ParseBlock, Strip, NextMessage, Lines, IsSpace;
    HeaderLines();
    PayloadHasNoNewline(data);
    LinesOfThree(BEGIN, Encode(data), BLOCK_END, after);
    HeaderIsNotTerminator();
    PayloadIsNotTerminator(data);
    MessageOfThree(BEGIN + NL, Encode(data) + NL, BLOCK_END + NL, Lines(after), BLOCK_END);
    BlockParses(data);
  }

  lemma PayloadHasNoNewline(data: seq<Byte>)
    ensures '\n' !in Encode(data)
  {
    PayloadIsOneWord(data);
    assert IsSpace('\n');
  }

  /** Byte strings written one after the other are read back in order, whatever text follows, and the
      reader stops exactly in front of that text. */
  lemma {:induction false} BlocksRoundTrip(blocks: seq<seq<Byte>>, after: string)
    ensures var (read, rest) := ReadBlocks(|blocks|, Lines(BlocksText(blocks) + after));
            && rest == Lines(after) && |read| == |blocks|
            && forall i :: 0 <= i < |blocks| ==> read[i] == Data(blocks[i])
  {
    hide BlockText, ParseBlock, NextMessage, Lines;
    if blocks == [] {
      assert BlocksText(blocks) + after == after;
    } else {
      var tail := BlocksText(blocks[1..]) + after;
      assert BlocksText(blocks) + after == BlockText(blocks[0]) + tail;
      BlockIsRead(blocks[0], tail);
      BlocksRoundTrip(blocks[1..], after);
    }
  }
}
