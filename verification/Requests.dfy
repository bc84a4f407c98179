/** What the worker reads out of a request: the command marker and the identity line (lib/TSI.py). */
module Requests {
  import opened Text

  /** The commands; StartForwarding is the one that port-forwarding workers use internally. */
  datatype Command =
    | Ping | PingUid | GetUserInfo | ExecuteScript | GetFileChunk | PutFileChunk | Ls | Df | Uftp | Submit
    | RunOnLoginNode | GetStatusListing | GetProcessListing | GetJobDetails | GetPartitions | AbortJob
    | HoldJob | ResumeJob | GetComputeBudget | MakeReservation | QueryReservation | CancelReservation | FileAcl
    | StartForwarding

  datatype Entry = Entry(name: string, command: Command)

  /** The dispatched commands, in the order of the table. */
  const DISPATCHED: seq<Command> := [
    Ping, PingUid, GetUserInfo, ExecuteScript, GetFileChunk, PutFileChunk, Ls, Df,
    Uftp, Submit, RunOnLoginNode, GetStatusListing, GetProcessListing, GetJobDetails, GetPartitions, AbortJob,
    HoldJob, ResumeJob, GetComputeBudget, MakeReservation, QueryReservation, CancelReservation, FileAcl
  ]

  function Name(c: Command): string {
    match c
    case Ping => "TSI_PING"
    case PingUid => "TSI_PING_UID"
    case GetUserInfo => "TSI_GET_USER_INFO"
    case ExecuteScript => "TSI_EXECUTESCRIPT"
    case GetFileChunk => "TSI_GETFILECHUNK"
    case PutFileChunk => "TSI_PUTFILECHUNK"
    case Ls => "TSI_LS"
    case Df => "TSI_DF"
    case Uftp => "TSI_UFTP"
    case Submit => "TSI_SUBMIT"
    case RunOnLoginNode => "TSI_RUN_ON_LOGIN_NODE"
    case GetStatusListing => "TSI_GETSTATUSLISTING"
    case GetProcessListing => "TSI_GETPROCESSLISTING"
    case GetJobDetails => "TSI_GETJOBDETAILS"
    case GetPartitions => "TSI_GET_PARTITIONS"
    case AbortJob => "TSI_ABORTJOB"
    case HoldJob => "TSI_HOLDJOB"
    case ResumeJob => "TSI_RESUMEJOB"
    case GetComputeBudget => "TSI_GET_COMPUTE_BUDGET"
    case MakeReservation => "TSI_MAKE_RESERVATION"
    case QueryReservation => "TSI_QUERY_RESERVATION"
    case CancelReservation => "TSI_CANCEL_RESERVATION"
    case FileAcl => "TSI_FILE_ACL"
    case StartForwarding => "_START_FORWARDING"
  }

  /** A dispatch table for some commands; the worker's is Table(DISPATCHED). */
  function Table(commands: seq<Command>): (table: seq<Entry>)
    ensures |table| == |commands|
    ensures forall i :: 0 <= i < |table| ==> table[i] == Entry(Name(commands[i]), commands[i])
  {
    if commands == [] then [] else [Entry(Name(commands[0]), commands[0])] + Table(commands[1..])
  }

  /** Commands that start a process outliving the request. */
  predicate Spawns(c: Command) {
    c in [ExecuteScript, RunOnLoginNode, Submit, Uftp]
  }

  function Marker(name: string): string {
    "#" + name + "\n"
  }

  /** First command of the table whose marker occurs anywhere in the message. */
  function FirstMatch(table: seq<Entry>, message: string): Option<Command> {
    if table == [] then None
    else if Contains(message, Marker(table[0].name)) then Some(table[0].command)
    else FirstMatch(table[1..], message)
  }

  method FindCommand(table: seq<Entry>, message: string) returns (command: Option<Command>)
    ensures command == FirstMatch(table, message)
  {
    command := None;
    for i := 0 to |table|
      invariant FirstMatch(table, message) == FirstMatch(table[i..], message)
    {
      if Contains(message, Marker(table[i].name)) {
        return Some(table[i].command);
      }
    }
  }

  lemma {:induction false} FirstMatchIsListed(table: seq<Entry>, message: string)
    ensures FirstMatch(table, message).Some? ==>
              exists i :: 0 <= i < |table| && table[i].command == FirstMatch(table, message).value
  {
    if table != [] && !Contains(message, Marker(table[0].name)) {
      FirstMatchIsListed(table[1..], message);
      if FirstMatch(table, message).Some? {
        var i :| 0 <= i < |table[1..]| && table[1..][i].command == FirstMatch(table, message).value;
        assert table[i + 1].command == FirstMatch(table, message).value;
      }
    } else if table != [] {
      assert table[0].command == FirstMatch(table, message).value;
    }
  }

  /** Of several markers in a message, that of the first entry in the table decides. */
  lemma {:induction false} FirstMatchIsFirst(table: seq<Entry>, message: string)
    ensures FirstMatch(table, message).None? <==>
              forall i :: 0 <= i < |table| ==> !Contains(message, Marker(table[i].name))
    ensures FirstMatch(table, message).Some? ==>
              exists i :: 0 <= i < |table| && Contains(message, Marker(table[i].name))
                          && FirstMatch(table, message) == Some(table[i].command)
                          && forall j :: 0 <= j < i ==> !Contains(message, Marker(table[j].name))
  {
    hide Contains, Marker;
    if table != [] && !Contains(message, Marker(table[0].name)) {
      var rest := table[1..];
      FirstMatchIsFirst(rest, message);
      assert forall i :: 0 < i < |table| ==> table[i] == rest[i - 1];
      if FirstMatch(table, message).Some? {
        var i :| 0 <= i < |rest| && Contains(message, Marker(rest[i].name))
                 && FirstMatch(rest, message) == Some(rest[i].command)
                 && forall j :: 0 <= j < i ==> !Contains(message, Marker(rest[j].name));
        assert table[i + 1] == rest[i];
      }
    } else if table != [] {
      assert FirstMatch(table, message) == Some(table[0].command);
    }
  }

  lemma SameMarker(name: string, other: string, after: string)
    requires '\n' !in name && '\n' !in other
    requires OccursAt(Marker(name) + after, Marker(other), 0)
    ensures name == other
  {
    var m := Marker(name) + after;
    var tail := m[1..];
    assert tail == name + ("\n" + after);
    assert tail[..|name|] == name;
    IndexOfIs(tail, '\n', |name|);
    assert m[..|Marker(other)|] == Marker(other);
    assert Marker(other)[1..] == other + "\n";
    assert tail[..|other| + 1] == other + "\n";
    assert tail[..|other|] == other && tail[|other|] == '\n';
    IndexOfIs(tail, '\n', |other|);
  }

  /** A marker can only be found where a '#' stands, and there only if it is the same marker. */
  lemma MarkerOccurrence(name: string, other: string, before: string, after: string, i: nat)
    requires '#' !in before && '#' !in name && '\n' !in name && '\n' !in other
    requires OccursAt(before + Marker(name) + after, Marker(other), i)
    ensures other == name || Contains(after, Marker(other))
  {
    var m := before + Marker(name) + after;
    var sub := Marker(other);
    assert m[i] == m[i..i + |sub|][0] == '#';
    var at := |before| + |Marker(name)|;
    assert forall j | 0 <= j < |before| :: m[j] == before[j];
    assert forall j | |before| < j < at :: m[j] == Marker(name)[j - |before|];
    assert forall j | 0 < j < |Marker(name)| :: Marker(name)[j] == (name + "\n")[j - 1];
    if i == |before| {
      assert m[i..] == Marker(name) + after;
      assert m[i..i + |sub|] == m[i..][..|sub|];
      SameMarker(name, other, after);
    } else if i >= at {
      assert OccursAt(after, sub, i - at) by {
        assert after[i - at..i - at + |sub|] == m[i..i + |sub|];
      }
    }
  }

  /** When a request's first '#' opens a marker and no other entry's marker follows, the dispatch
      finds that entry, whatever its place in the table and even if its name extends another's. */
  lemma {:induction false} SoleMarkerIsFound(table: seq<Entry>, e: Entry, before: string, after: string)
    requires e in table && '#' !in before
    requires forall d :: d in table ==> '#' !in d.name && '\n' !in d.name
    requires forall d :: d in table && d != e ==> d.name != e.name && !Contains(after, Marker(d.name))
    ensures FirstMatch(table, before + Marker(e.name) + after) == Some(e.command)
  {
    var m := before + Marker(e.name) + after;
    var d := table[0];
    if Contains(m, Marker(d.name)) {
      var i: nat :| i <= |m| && OccursAt(m, Marker(d.name), i);
      MarkerOccurrence(e.name, d.name, before, after, i);
    } else {
      assert e != d by {
        if e == d {
          assert OccursAt(m, Marker(e.name), |before|);
        }
      }
      SoleMarkerIsFound(table[1..], e, before, after);
    }
  }

  predicate IsNameChar(c: char) {
    'A' <= c <= 'Z' || c == '_'
  }

  /** The first half of the commands. */
  predicate IsEarly(c: Command) {
    || c.Ping? || c.PingUid? || c.GetUserInfo? || c.ExecuteScript? || c.GetFileChunk? || c.PutFileChunk?
    || c.Ls? || c.Df? || c.Uftp? || c.Submit? || c.RunOnLoginNode? || c.StartForwarding?
  }

  lemma EarlyNamesAreOrdinary(c: Command)
    requires IsEarly(c)
    ensures forall x :: x in Name(c) ==> IsNameChar(x)
  {
  }

  lemma LateNamesAreOrdinary(c: Command)
    requires !IsEarly(c)
    ensures forall x :: x in Name(c) ==> IsNameChar(x)
  {
  }

  lemma NamesAreOrdinary(c: Command)
    ensures forall x :: x in Name(c) ==> IsNameChar(x)
  {
    hide Name, IsNameChar;
    if IsEarly(c) {
      EarlyNamesAreOrdinary(c);
    } else {
      LateNamesAreOrdinary(c);
    }
  }

  lemma NamesDiffer(c: Command, d: Command)
    requires Name(c) == Name(d)
    ensures c == d
  {
  }

  lemma DispatchedCommands()
    ensures StartForwarding !in DISPATCHED && |DISPATCHED| == 23
  {
  }

  /** The actual table meets what SoleMarkerIsFound asks of a table, and has no entry for the
      command of port-forwarding workers. */
  lemma TableIsOrdinary(commands: seq<Command>, d: Entry, e: Entry)
    requires d in Table(commands) && e in Table(commands)
    ensures '#' !in e.name && '\n' !in e.name && e.command in commands
    ensures d != e ==> d.name != e.name
  {
    NamesAreOrdinary(e.command);
    if d.name == e.name {
      NamesDiffer(d.command, e.command);
    }
  }

  datatype Identity = Identity(user: string, groups: string)

  const IDENTITY_TAG := "#TSI_IDENTITY "

  function LastIndexOf(s: string, c: char): (n: int)
    ensures -1 <= n < |s|
    ensures n >= 0 ==> s[n] == c
    ensures forall i :: n < i < |s| ==> s[i] != c
  {
    if s == "" then -1 else if s[|s| - 1] == c then |s| - 1 else LastIndexOf(s[..|s| - 1], c)
  }

  predicate IsWord(s: string) {
    s != "" && forall c :: c in s ==> !IsSpace(c)
  }

  predicate EndsWith(s: string, suffix: string) {
    |suffix| <= |s| && s[|s| - |suffix|..] == suffix
  }

  /** A line matches when its last two blank-separated words follow the identity tag. */
  function IdentityOnLine(line: string): Option<Identity> {
    var q := LastIndexOf(line, ' ');
    if q < 0 then None
    else
      var p := LastIndexOf(line[..q], ' ');
      var user, groups := line[p + 1..q], line[q + 1..];
      if IsWord(user) && IsWord(groups) && EndsWith(line[..p + 1], IDENTITY_TAG)
      then Some(Identity(user, groups))
      else None
  }

  /** The identity on the first complete line that has one. */
  function IdentityOf(message: string): Option<Identity> {
    var n := IndexOf(message, '\n');
    if n == |message| then None
    else
      match IdentityOnLine(message[..n])
      case Some(id) => Some(id)
      case None => IdentityOf(message[n + 1..])
  }

  lemma LastIndexOfIs(s: string, c: char, before: string, after: string)
    requires s == before + [c] + after && c !in after
    ensures LastIndexOf(s, c) == |before|
  {
    assert s[|before|] == c;
    assert forall i | |before| < i < |s| :: s[i] == after[i - |before| - 1];
  }

  /** The last two words of a line decide: they are the identity exactly when the tag precedes them. */
  lemma IdentityOnLineIs(head: string, user: string, groups: string)
    requires IsWord(user) && IsWord(groups)
    ensures IdentityOnLine(head + " " + user + " " + groups) ==
            if EndsWith(head + " ", IDENTITY_TAG) then Some(Identity(user, groups)) else None
  {
    var left := head + " " + user;
    var line := left + " " + groups;
    LastIndexOfIs(line, ' ', left, groups);
    assert line[..|left|] == left && line[|left| + 1..] == groups;
    LastIndexOfIs(left, ' ', head, user);
    assert line[..|head| + 1] == head + " ";
    assert line[|head| + 1..|left|] == user;
  }

  /** No other line carries an identity. */
  lemma IdentityOnLineOnly(line: string)
    requires IdentityOnLine(line).Some?
    ensures var id := IdentityOnLine(line).value;
            && IsWord(id.user) && IsWord(id.groups)
            && exists head :: line == head + " " + id.user + " " + id.groups && EndsWith(head + " ", IDENTITY_TAG)
  {
    var q := LastIndexOf(line, ' ');
    var p := LastIndexOf(line[..q], ' ');
    var id := IdentityOnLine(line).value;
    assert line[..p + 1] == line[..p] + " ";
    assert line == line[..p] + " " + id.user + " " + id.groups;
  }

  function TextOf(lines: seq<string>): string {
    if lines == [] then "" else lines[0] + NL + TextOf(lines[1..])
  }

  lemma IdentityOfFirstLine(line: string, after: string)
    requires '\n' !in line
    ensures IdentityOf(line + NL + after) ==
            if IdentityOnLine(line).Some? then IdentityOnLine(line) else IdentityOf(after)
  {
    hide IdentityOnLine;
    var message := line + NL + after;
    assert message[..|line|] == line && message[|line| + 1..] == after;
    IndexOfIs(message, '\n', |line|);
  }

  /** Lines without an identity do not count. */
  lemma {:induction false} IdentityAfter(lines: seq<string>, rest: string)
    requires forall line :: line in lines ==> '\n' !in line && IdentityOnLine(line).None?
    ensures IdentityOf(TextOf(lines) + rest) == IdentityOf(rest)
  {
    hide IdentityOnLine;
    if lines == [] {
      assert TextOf(lines) + rest == rest;
    } else {
      var first, after := lines[0], TextOf(lines[1..]) + rest;
      assert TextOf(lines) + rest == first + NL + after;
      IdentityOfFirstLine(first, after);
      IdentityAfter(lines[1..], rest);
    }
  }

  lemma {:induction false} JoinedWords(parts: seq<string>)
    requires parts != [] && forall part :: part in parts ==> IsWord(part)
    ensures IsWord(Join(parts, ':'))
  {
    assert parts[0] in parts;
    if |parts| > 1 {
      JoinedWords(parts[1..]);
      var s := Join(parts, ':');
      assert s == parts[0] + ":" + Join(parts[1..], ':');
    }
  }

  lemma WordHasNoNewline(s: string)
    requires IsWord(s)
    ensures '\n' !in s
  {
  }

  /** A written identity line is read back, user and groups in their order. */
  lemma WrittenIdentityIsRead(before: seq<string>, user: string, groups: seq<string>, after: string)
    requires forall line :: line in before ==> '\n' !in line && IdentityOnLine(line).None?
    requires IsWord(user) && groups != [] && forall g :: g in groups ==> IsWord(g) && ':' !in g
    ensures var message := TextOf(before) + ("#TSI_IDENTITY " + user + " " + Join(groups, ':') + "\n" + after);
            && IdentityOf(message).Some?
            && IdentityOf(message).value.user == user && Split(IdentityOf(message).value.groups, ':') == groups
  {
    hide IdentityOf, IdentityOnLine, IsWord;
    var list := Join(groups, ':');
    var line := "#TSI_IDENTITY" + " " + user + " " + list;
    JoinedWords(groups);
    SplitOfJoin(groups, ':');
    WordHasNoNewline(user);
    WordHasNoNewline(list);
    assert "#TSI_IDENTITY" + " " == IDENTITY_TAG && '\n' !in IDENTITY_TAG;
    assert line == IDENTITY_TAG + user + " " + list;
    assert '\n' !in line;
    IdentityOnLineIs("#TSI_IDENTITY", user, list);
    IdentityOfFirstLine(line, after);
    assert "#TSI_IDENTITY " + user + " " + list + "\n" + after == line + NL + after;
    IdentityAfter(before, line + NL + after);
  }

  /** The request's identity is that of the first line that carries one, and there is none exactly
      when no complete line does; an incomplete last line is not looked at. */
  lemma {:induction false} IdentityOfLines(lines: seq<string>, rest: string)
    requires forall line :: line in lines ==> '\n' !in line
    requires '\n' !in rest
    ensures forall i :: 0 <= i < |lines| && IdentityOnLine(lines[i]).Some?
              && (forall j :: 0 <= j < i ==> IdentityOnLine(lines[j]).None?)
              ==> IdentityOf(TextOf(lines) + rest) == IdentityOnLine(lines[i])
    ensures (forall i :: 0 <= i < |lines| ==> IdentityOnLine(lines[i]).None?)
            <==> IdentityOf(TextOf(lines) + rest).None?
  {
    hide IdentityOnLine;
    if lines == [] {
      assert TextOf(lines) + rest == rest;
    } else {
      var first, after := lines[0], TextOf(lines[1..]) + rest;
      assert first in lines;
      assert TextOf(lines) + rest == first + NL + after;
      IdentityOfFirstLine(first, after);
      IdentityOfLines(lines[1..], rest);
      forall i | 0 < i < |lines| ensures lines[i] == lines[1..][i - 1] {}
      if IdentityOnLine(first).None? {
        forall i | 0 <= i < |lines| && IdentityOnLine(lines[i]).Some?
                   && (forall j :: 0 <= j < i ==> IdentityOnLine(lines[j]).None?)
          ensures IdentityOf(TextOf(lines) + rest) == IdentityOnLine(lines[i])
        {
          assert forall j :: 0 <= j < i - 1 ==> lines[1..][j] == lines[j + 1];
          assert lines[1..][i - 1] == lines[i];
        }
      }
    }
  }
}
