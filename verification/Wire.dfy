/** What the worker and its peer see of each other, character by character. */
module Wire {
  import opened Text
  import opened Numbers
  import opened Framing
  import opened Connector
  import opened Requests
  import opened Staleness
  import opened Groups
  import opened Served
  import opened Resolution
  import opened BecomeUser
  import opened Worker
  import opened Transcripts
  import FileChunks

  // ---- requests

  /** The commands as a peer writes them. */
  function Written(c: Command): string
    requires !c.StartForwarding?
  {
    match c
    case Ping => "TSI_PING"
    case PingUid => "TSI_PING_UID"
    case GetUserInfo => "TSI_GET_USER_INFO"
    case ExecuteScript => "TSI_EXECUTESCRIPT"
    case GetFileChunk => "TSI_GETFILECHUNK"
    case PutFileChunk => "TSI_PUTFILECHUNK"
    case Ls => "TSI_LS"
    case Df => "TSI_DF"
    case Uftp => "TSI_UFTP"
    case Submit => "TSI_SUBMIT"
    case RunOnLoginNode => "TSI_RUN_ON_LOGIN_NODE"
    case GetStatusListing => "TSI_GETSTATUSLISTING"
    case GetProcessListing => "TSI_GETPROCESSLISTING"
    case GetJobDetails => "TSI_GETJOBDETAILS"
    case GetPartitions => "TSI_GET_PARTITIONS"
    case AbortJob => "TSI_ABORTJOB"
    case HoldJob => "TSI_HOLDJOB"
    case ResumeJob => "TSI_RESUMEJOB"
    case GetComputeBudget => "TSI_GET_COMPUTE_BUDGET"
    case MakeReservation => "TSI_MAKE_RESERVATION"
    case QueryReservation => "TSI_QUERY_RESERVATION"
    case CancelReservation => "TSI_CANCEL_RESERVATION"
    case FileAcl => "TSI_FILE_ACL"
  }

  lemma NameIsWritten(c: Command)
    requires !c.StartForwarding?
    ensures Name(c) == Written(c)
  {
  }

  lemma AllAreDispatched(c: Command)
    requires !c.StartForwarding?
    ensures c in DISPATCHED
  {
  }

  /** A written command is dispatched, whatever follows without another marker. */
  lemma WrittenCommandIsFound(c: Command, after: string)
    requires !c.StartForwarding? && '#' !in after
    ensures FirstMatch(Table(DISPATCHED), "#" + Written(c) + "\n" + after) == Some(c)
  {
    hide FirstMatch, Name, DISPATCHED, Written, Contains, Marker, Table;
    NameIsWritten(c);
    AllAreDispatched(c);
    var i :| 0 <= i < |DISPATCHED| && DISPATCHED[i] == c;
    var table := Table(DISPATCHED);
    var e := table[i];
    NoOtherMarker(e, after);
    SoleMarkerIsFound(table, e, "", after);
    MarkerText(Written(c), after);
  }

  lemma NoOtherMarker(e: Entry, after: string)
    requires e in Table(DISPATCHED) && '#' !in after
    ensures forall d :: d in Table(DISPATCHED) ==>
              && '#' !in d.name && '\n' !in d.name && !Contains(after, Marker(d.name))
              && (d != e ==> d.name != e.name)
  {
    hide Contains, Marker, DISPATCHED, Name, Table;
    forall d | d in Table(DISPATCHED)
      ensures '#' !in d.name && '\n' !in d.name && !Contains(after, Marker(d.name)) && (d != e ==> d.name != e.name)
    {
      TableIsOrdinary(DISPATCHED, e, d);
      TableIsOrdinary(DISPATCHED, d, e);
      NoMarkerIn(after, d.name);
    }
  }

  lemma MarkerText(name: string, after: string)
    ensures "" + Marker(name) + after == "#" + name + "\n" + after
  {
  }

  lemma NoMarkerIn(s: string, name: string)
    requires '#' !in s
    ensures !Contains(s, Marker(name))
  {
    var marker := Marker(name);
    assert marker[0] == '#';
    forall i: nat | i <= |s| && i + |marker| <= |s| ensures s[i..i + |marker|][0] == s[i] != '#' {
    }
  }

  /** A handler runs for the user and the groups that its request names, and in strict mode its gid is that
      of the group named first. */
  lemma SafeIsAsRequested(o: Origin, p: Policy, before: seq<string>, user: string, groups: seq<string>, after: string,
                          s: Start)
    requires forall line :: line in before ==> '\n' !in line && IdentityOnLine(line).None?
    requires IsWord(user) && groups != [] && forall g :: g in groups ==> IsWord(g) && ':' !in g
    requires Safe(o, p, TextOf(before) + ("#TSI_IDENTITY " + user + " " + Join(groups, ':') + "\n" + after), s)
    ensures s.user == s.env.user == user && s.groups == groups
    ensures p.failOnInvalid && groups[0] != "NONE" && groups[0] != DEFAULT_GID ==>
              GroupAnswer(s.midway, s.at, groups[0], s.creds.egid)
  {
    hide IdentityOf, IsWord, IdentityOnLine, UserAnswer, GroupAnswer, IsProper, IsLater, SupplementaryServed;
    WrittenIdentityIsRead(before, user, groups, after);
  }

  // ---- replies

  /** The peer tells success from failure by the first line, and finds the text behind it. */
  lemma OutcomeIsTold(message: Option<string>, failure: string)
    ensures Lines(OkText(message) + NL) != [] && Lines(OkText(message) + NL)[0] == "TSI_OK\n"
    ensures message.Some? ==> OkText(message) + NL == "TSI_OK\n" + (message.value + "\n")
    ensures Lines(FailedLine(failure) + NL) == ["TSI_FAILED: " + JoinLines(failure) + "\n"]
    ensures "TSI_FAILED: " + JoinLines(failure) + "\n" != "TSI_OK\n"
  {
    hide Lines;
    FailureIsOneLine(failure);
    OkLine();
    LinesOfLine("TSI_OK\n");
    match message
    case None =>
      assert OkText(message) + NL == "TSI_OK\n";
    case Some(m) =>
      assert OkText(message) + NL == "TSI_OK\n" + (m + NL);
      LinesAppend("TSI_OK\n", m + NL);
    assert ("TSI_FAILED: " + JoinLines(failure) + "\n")[4] == 'F' && "TSI_OK\n"[4] == 'O';
  }

  lemma OkLine()
    ensures IndexOf("TSI_OK\n", '\n') == |"TSI_OK\n"| - 1
  {
    assert "TSI_OK\n"[..6] == "TSI_OK" && '\n' !in "TSI_OK";
    IndexOfIs("TSI_OK\n", '\n', 6);
  }

  /** The announcement of a file chunk: the peer reads the number of bytes on the second line. */
  lemma AnnouncementIsRead(n: nat)
    ensures Lines(OkText(Some(FileChunks.LengthReply(n))) + NL)
            == ["TSI_OK\n", "TSI_LENGTH " + Decimal(n) + "\n", END_LINE]
    ensures ParseInt(Decimal(n)) == Some(n)
  {
    NumberIsRead(n);
    hide Lines, Decimal, ParseInt, OkText, FileChunks.LengthReply, END_LINE, NL, IndexOf;
    var length := "TSI_LENGTH " + Decimal(n) + NL;
    AnnouncementText(n);
    OkLine();
    LengthLine(n);
    TerminatorIsLine();
    ThreeLines("TSI_OK\n", length, END_LINE);
    NewlineIs();
  }

  lemma NewlineIs()
    ensures NL == "\n"
  {
  }

  lemma NumberIsRead(n: nat)
    ensures ParseInt(Decimal(n)) == Some(n)
  {
    hide Decimal, ParseInt;
    IntRoundTrip(n);
    assert Decimal(n) == Signed(n);
  }

  lemma ThreeLines(a: string, b: string, c: string)
    requires a != "" && b != "" && c != ""
    requires IndexOf(a, '\n') == |a| - 1 && IndexOf(b, '\n') == |b| - 1 && IndexOf(c, '\n') == |c| - 1
    ensures Lines(a + (b + c)) == [a, b, c]
  {
    hide Lines, IndexOf;
    LinesOfLine(a);
    LinesOfLine(b);
    LinesOfLine(c);
    LinesAppend(b, c);
    LinesAppend(a, b + c);
  }

  lemma LengthLine(n: nat)
    ensures var length := "TSI_LENGTH " + Decimal(n) + NL;
            IndexOf(length, '\n') == |length| - 1
  {
    hide Decimal;
    var text := "TSI_LENGTH " + Decimal(n);
    assert '\n' !in Decimal(n) && '\n' !in "TSI_LENGTH ";
    assert (text + NL)[..|text|] == text;
    IndexOfIs(text + NL, '\n', |text|);
  }

  lemma AnnouncementText(n: nat)
    ensures OkText(Some(FileChunks.LengthReply(n))) + NL == "TSI_OK\n" + (("TSI_LENGTH " + Decimal(n) + NL) + END_LINE)
  {
    hide Decimal;
    assert NL + END == "\nENDOFMESSAGE" && END + NL == END_LINE;
    Regroup("TSI_OK\n", "TSI_LENGTH ", Decimal(n), END);
    assert "TSI_OK\n" + "TSI_LENGTH " + Decimal(n) + NL + (END + NL)
        == "TSI_OK\n" + (("TSI_LENGTH " + Decimal(n) + NL) + END_LINE);
  }
}
