/** Reading "#TSI_<key> <value>" lines out of a request message (lib/Utils.py). */
module Parameters {
  import opened Text

  function Tag(key: string): string {
    "#TSI_" + key + " "
  }

  /** The text opens with a newline-terminated line that starts with the tag. */
  predicate OpensTagged(text: string, tag: string) {
    var n := IndexOf(text, '\n');
    n < |text| && tag <= text[..n]
  }

  function OpeningValue(text: string, tag: string): string
    requires OpensTagged(text, tag)
  {
    text[|tag|..IndexOf(text, '\n')]
  }

  /** The value on the first newline-terminated line that starts with the tag. */
  function FirstValue(message: string, tag: string): Option<string> {
    var n := IndexOf(message, '\n');
    if n == |message| then None
    else if OpensTagged(message, tag) then Some(OpeningValue(message, tag))
    else FirstValue(message[n + 1..], tag)
  }

  /** The regular expression search of extract_parameter, for a key without metacharacters. */
  function ExtractParameter(message: string, key: string, default: Option<string>): Option<string> {
    match FirstValue(message, Tag(key))
    case None => default
    case Some(value) => if value == "" then default else Some(value)
  }

  /** A complete line that begins with the tag starts at this offset. */
  ghost predicate TaggedAt(message: string, tag: string, at: nat) {
    && at <= |message|
    && (at == 0 || message[at - 1] == '\n')
    && OpensTagged(message[at..], tag)
  }

  lemma TaggedAfterLine(message: string, tag: string, at: nat, n: nat)
    requires n == IndexOf(message, '\n') < |message|
    requires !OpensTagged(message, tag)
    ensures TaggedAt(message, tag, at) <==> at > n && TaggedAt(message[n + 1..], tag, at - n - 1)
  {
    hide IndexOf;
    if at == 0 {
      assert message[0..] == message;
    } else if n < at <= |message| {
      assert message[at..] == message[n + 1..][at - n - 1..];
    }
  }

  /** The loop-free meaning of the search: it finds a value exactly when a tagged line exists,
      and then it is the rest of the earliest one. */
  lemma {:induction false} FirstValueIsEarliest(message: string, tag: string)
    ensures FirstValue(message, tag).None? <==> forall at: nat :: !TaggedAt(message, tag, at)
    ensures FirstValue(message, tag).Some? ==>
              exists at: nat :: TaggedAt(message, tag, at)
                                && FirstValue(message, tag).value == OpeningValue(message[at..], tag)
                                && forall i: nat :: i < at ==> !TaggedAt(message, tag, i)
  {
    hide IndexOf;
    assert message[0..] == message;
    var n := IndexOf(message, '\n');
    if n == |message| {
      assert forall at: nat | at <= n :: IndexOf(message[at..], '\n') == |message[at..]|;
    } else if OpensTagged(message, tag) {
      assert TaggedAt(message, tag, 0);
    } else {
      var rest := message[n + 1..];
      FirstValueIsEarliest(rest, tag);
      forall at: nat
        ensures TaggedAt(message, tag, at) <==> at > n && TaggedAt(rest, tag, at - n - 1)
      {
        TaggedAfterLine(message, tag, at, n);
      }
      if FirstValue(rest, tag).Some? {
        var at: nat :| TaggedAt(rest, tag, at)
                       && FirstValue(rest, tag).value == OpeningValue(rest[at..], tag)
                       && forall i: nat :: i < at ==> !TaggedAt(rest, tag, i);
        assert message[at + n + 1..] == rest[at..];
        assert TaggedAt(message, tag, at + n + 1);
      } else {
        forall at: nat ensures !TaggedAt(message, tag, at) {
          if at > n {
            assert !TaggedAt(rest, tag, at - n - 1);
          }
        }
      }
    }
  }

  datatype Setting = Setting(key: string, value: string)

  predicate WellFormed(s: Setting) {
    ' ' !in s.key && '\n' !in s.key && '\n' !in s.value
  }

  function Render(settings: seq<Setting>): string {
    if settings == [] then ""
    else Tag(settings[0].key) + settings[0].value + NL + Render(settings[1..])
  }

  /** First setting with the given key. */
  function Lookup(settings: seq<Setting>, key: string): Option<string> {
    if settings == [] then None
    else if settings[0].key == key then Some(settings[0].value)
    else Lookup(settings[1..], key)
  }

  lemma KeySelected(key: string, other: string, value: string)
    requires ' ' !in key && ' ' !in other
    ensures key + " " <= other + " " + value <==> key == other
  {
    hide IndexOf;
    var line := other + " " + value;
    assert line[..|other|] == other && line[|other|] == ' ';
    IndexOfIs(line, ' ', |other|);
    if key + " " <= line {
      assert line[..|key| + 1] == key + " ";
      assert line[..|key|] == key && line[|key|] == ' ';
      IndexOfIs(line, ' ', |key|);
    }
  }

  lemma CommonPrefix(p: string, a: string, b: string)
    ensures p + a <= p + b <==> a <= b
  {
    if p + a <= p + b {
      assert a == (p + a)[|p|..] && b == (p + b)[|p|..];
    }
  }

  /** A tag is a prefix of a rendered line exactly when the keys are equal, so FILE does not
      pick up FILESACTION. */
  lemma TagSelectsKey(s: Setting, key: string)
    requires WellFormed(s) && ' ' !in key
    ensures Tag(key) <= Tag(s.key) + s.value <==> key == s.key
  {
    KeySelected(key, s.key, s.value);
    CommonPrefix("#TSI_", key + " ", s.key + " " + s.value);
    assert Tag(key) == "#TSI_" + (key + " ");
    assert Tag(s.key) + s.value == "#TSI_" + (s.key + " " + s.value);
  }

  lemma TagIsOneLine(key: string)
    requires '\n' !in key
    ensures '\n' !in Tag(key)
  {
    assert forall i | 0 <= i < |Tag(key)| :: i < 5 || i == |key| + 5 || Tag(key)[i] == key[i - 5];
  }

  lemma FirstValueOfLine(line: string, after: string, tag: string)
    requires '\n' !in line
    ensures FirstValue(line + NL + after, tag) == if tag <= line then Some(line[|tag|..]) else FirstValue(after, tag)
  {
    hide IndexOf;
    var message := line + NL + after;
    assert message[..|line|] == line && message[|line| + 1..] == after;
    IndexOfIs(message, '\n', |line|);
    if tag <= line {
      assert message[|tag|..|line|] == line[|tag|..];
    }
  }

  /** A parameter on the wire. */
  lemma LineIsExtracted(key: string, value: string, after: string, default: Option<string>)
    requires ' ' !in key && '\n' !in key && '\n' !in value && value != ""
    ensures ExtractParameter("#TSI_" + key + " " + value + "\n" + after, key, default) == Some(value)
  {
    hide FirstValue;
    var line := Tag(key) + value;
    assert "#TSI_" + key + " " + value + "\n" + after == line + NL + after;
    TagIsOneLine(key);
    FirstValueOfLine(line, after, Tag(key));
    assert line[|Tag(key)|..] == value;
  }

  /** Rendering settings ahead of any text and extracting a key gives the first occurrence's
      value, the default when that value is empty, and the rest of the text when there is none. */
  lemma {:induction false} ExtractAfterRender(settings: seq<Setting>, rest: string, key: string,
                                              default: Option<string>)
    requires forall s :: s in settings ==> WellFormed(s)
    requires ' ' !in key && '\n' !in key
    ensures ExtractParameter(Render(settings) + rest, key, default) ==
            match Lookup(settings, key)
            case None => ExtractParameter(rest, key, default)
            case Some(value) => if value == "" then default else Some(value)
  {
    hide Tag, FirstValue;
    if settings == [] {
      assert Render(settings) + rest == rest;
    } else {
      var s := settings[0];
      assert WellFormed(s);
      var line := Tag(s.key) + s.value;
      var after := Render(settings[1..]) + rest;
      assert Render(settings) + rest == line + NL + after;
      TagIsOneLine(s.key);
      FirstValueOfLine(line, after, Tag(key));
      TagSelectsKey(s, key);
      if s.key == key {
        assert line[|Tag(key)|..] == s.value;
      }
      ExtractAfterRender(settings[1..], rest, key, default);
    }
  }
}
