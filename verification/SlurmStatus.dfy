/** Slurm's variation of the status listing (slurm/BSS.py). */
module SlurmStatus {
  import opened Text
  import opened StatusListing

  predicate IsWordChar(c: char) {
    'a' <= c <= 'z' || 'A' <= c <= 'Z' || IsDigit(c) || c == '_'
  }

  /** The longest prefix whose characters all satisfy p, and what follows it. */
  function Take(s: string, p: char -> bool): (r: (string, string))
    ensures s == r.0 + r.1
    ensures forall i :: 0 <= i < |r.0| ==> p(r.0[i])
    ensures r.1 != "" ==> !p(r.1[0])
  {
    if s != "" && p(s[0]) then
      var (run, rest) := Take(s[1..], p);
      ([s[0]] + run, rest)
    else ("", s)
  }

  lemma {:induction false} TakeIs(a: string, b: string, p: char -> bool)
    requires forall i :: 0 <= i < |a| ==> p(a[i])
    requires b != "" ==> !p(b[0])
    ensures Take(a + b, p) == (a, b)
  {
    if a == "" {
      assert a + b == b;
    } else {
      assert (a + b)[1..] == a[1..] + b;
      TakeIs(a[1..], b, p);
      assert p((a + b)[0]) && [a[0]] + a[1..] == a;
    }
  }

  predicate IsNoSpace(c: char) {
    !IsSpace(c)
  }

  /** Matches a number, an optional rest of the word, and two more words, and returns the number and
      the two words: the search pattern of extract_info. */
  function Extract(line: string): Option<Info> {
    var (id, r1) := Take(line, IsDigit);
    var (_, r2) := Take(r1, IsNoSpace);
    var (space1, r3) := Take(r2, IsSpace);
    var (state, r4) := Take(r3, IsWordChar);
    var (space2, r5) := Take(r4, IsSpace);
    var (queue, _) := Take(r5, IsWordChar);
    if id != "" && space1 != "" && state != "" && space2 != "" && queue != ""
    then Some(Info(id, state, queue))
    else None
  }

  predicate IsNumber(s: string) {
    s != "" && forall i :: 0 <= i < |s| ==> IsDigit(s[i])
  }

  predicate IsName(s: string) {
    s != "" && forall i :: 0 <= i < |s| ==> IsWordChar(s[i])
  }

  /** What squeue appends to the number of an array job, or nothing. */
  predicate IsTaskSuffix(s: string) {
    (s != "" ==> !IsDigit(s[0])) && forall i :: 0 <= i < |s| ==> !IsSpace(s[i])
  }

  /** A listing line is read back as the job's number, state and queue; whatever task of an array the
      line is about, it counts for the array's base number. */
  lemma ExtractFindsBaseId(id: string, suffix: string, state: string, queue: string)
    requires IsNumber(id) && IsTaskSuffix(suffix) && IsName(state) && IsName(queue)
    ensures Extract(id + (suffix + (" " + (state + (" " + queue))))) == Some(Info(id, state, queue))
  {
    hide Take;
    var q := " " + queue;
    var t := " " + (state + q);
    assert (suffix + t)[0] == if suffix == "" then ' ' else suffix[0];
    TakeIs(id, suffix + t, IsDigit);
    TakeIs(suffix, t, IsNoSpace);
    TakeIs(" ", state + q, IsSpace);
    TakeIs(state, q, IsWordChar);
    TakeIs(" ", queue, IsSpace);
    assert queue + "" == queue;
    TakeIs(queue, "", IsWordChar);
  }

  datatype Decoder = Decoder(state: JobState, raw: seq<string>)

  const DECODERS: seq<Decoder> := [
    Decoder(QUEUED, ["CONFIGURING", "PENDING", "RESV_DEL_HOLD", "REQUEUE_FED", "REQUEUE_HOLD"]),
    Decoder(RUNNING, ["COMPLETING", "RUNNING", "SIGNALING", "STAGE_OUT"]),
    Decoder(SUSPENDED, ["PREEMPTED", "STOPPED", "SUSPENDED"]),
    Decoder(COMPLETED, ["BOOT_FAIL", "CANCELLED", "COMPLETED", "DEADLINE", "FAILED", "NODE_FAIL",
                        "OUT_OF_MEMORY", "REVOKED", "TIMEOUT"])]

  /** First state whose list holds the raw state, else UNKNOWN. */
  function Classify(decoders: seq<Decoder>, raw: string): JobState {
    if decoders == [] then UNKNOWN
    else if raw in decoders[0].raw then decoders[0].state
    else Classify(decoders[1..], raw)
  }

  /** A raw state listed twice is listed for one state. */
  predicate AreDisjoint(decoders: seq<Decoder>) {
    forall d, e :: d in decoders && e in decoders && d.state != e.state ==> forall raw :: raw in d.raw ==> raw !in e.raw
  }

  /** With disjoint lists a raw state is given the state that lists it, in whatever order the lists are
      searched. */
  lemma {:induction false} ListedStateIsFound(decoders: seq<Decoder>, d: Decoder, raw: string)
    requires AreDisjoint(decoders) && d in decoders && raw in d.raw
    ensures Classify(decoders, raw) == d.state
  {
    if raw !in decoders[0].raw {
      assert forall e :: e in decoders[1..] ==> e in decoders;
      ListedStateIsFound(decoders[1..], d, raw);
    } else {
      assert decoders[0] in decoders;
    }
  }

  lemma {:induction false} UnlistedIsUnknown(decoders: seq<Decoder>, raw: string)
    requires forall d :: d in decoders ==> raw !in d.raw
    ensures Classify(decoders, raw) == UNKNOWN
  {
    if decoders != [] {
      assert decoders[0] in decoders;
      UnlistedIsUnknown(decoders[1..], raw);
    }
  }

  /** First two letters and length, which tell raw states of different lists apart. */
  function Mark(raw: string): (char, char, nat) {
    if |raw| < 2 then (' ', ' ', |raw|) else (raw[0], raw[1], |raw|)
  }

  const MARKS: seq<set<(char, char, nat)>> := [
    {('C', 'O', 11), ('P', 'E', 7), ('R', 'E', 13), ('R', 'E', 11), ('R', 'E', 12)},
    {('C', 'O', 10), ('R', 'U', 7), ('S', 'I', 9), ('S', 'T', 9)},
    {('P', 'R', 9), ('S', 'T', 7), ('S', 'U', 9)},
    {('B', 'O', 9), ('C', 'A', 9), ('C', 'O', 9), ('D', 'E', 8), ('F', 'A', 6), ('N', 'O', 9), ('O', 'U', 13),
     ('R', 'E', 7), ('T', 'I', 7)}]

  lemma QueuedMarks()
    ensures forall raw :: raw in DECODERS[0].raw ==> Mark(raw) in MARKS[0]
  {
  }

  lemma RunningMarks()
    ensures forall raw :: raw in DECODERS[1].raw ==> Mark(raw) in MARKS[1]
  {
  }

  lemma SuspendedMarks()
    ensures forall raw :: raw in DECODERS[2].raw ==> Mark(raw) in MARKS[2]
  {
  }

  lemma CompletedMarks()
    ensures forall raw :: raw in DECODERS[3].raw ==> Mark(raw) in MARKS[3]
  {
  }

  /** The actual table: its lists are disjoint, so that the order in which the dictionary yields them is
      irrelevant. */
  lemma DecodersAreDisjoint()
    ensures AreDisjoint(DECODERS)
    ensures forall decoders, raw :: (forall d :: d in decoders <==> d in DECODERS) ==>
              Classify(decoders, raw) == Classify(DECODERS, raw)
  {
    QueuedMarks();
    RunningMarks();
    SuspendedMarks();
    CompletedMarks();
    assert AreDisjoint(DECODERS) by {
      MarksSeparate(DECODERS);
    }
    forall decoders, raw | forall d :: d in decoders <==> d in DECODERS
      ensures Classify(decoders, raw) == Classify(DECODERS, raw)
    {
      hide DECODERS;
      if d :| d in DECODERS && raw in d.raw {
        ListedStateIsFound(decoders, d, raw);
        ListedStateIsFound(DECODERS, d, raw);
      } else {
        UnlistedIsUnknown(decoders, raw);
        UnlistedIsUnknown(DECODERS, raw);
      }
    }
  }

  /** What the common raw states mean. */
  lemma CommonStates()
    ensures Classify(DECODERS, "PENDING") == QUEUED && Classify(DECODERS, "CONFIGURING") == QUEUED
    ensures Classify(DECODERS, "RUNNING") == RUNNING && Classify(DECODERS, "COMPLETING") == RUNNING
    ensures Classify(DECODERS, "SUSPENDED") == SUSPENDED && Classify(DECODERS, "PREEMPTED") == SUSPENDED
    ensures Classify(DECODERS, "COMPLETED") == COMPLETED && Classify(DECODERS, "FAILED") == COMPLETED
    ensures Classify(DECODERS, "CANCELLED") == COMPLETED && Classify(DECODERS, "TIMEOUT") == COMPLETED
  {
    CommonRawStates();
    hide Classify, DECODERS;
    Listed(0, "PENDING");
    Listed(0, "CONFIGURING");
    Listed(1, "RUNNING");
    Listed(1, "COMPLETING");
    Listed(2, "SUSPENDED");
    Listed(2, "PREEMPTED");
    Listed(3, "COMPLETED");
    Listed(3, "FAILED");
    Listed(3, "CANCELLED");
    Listed(3, "TIMEOUT");
  }

  lemma CommonRawStates()
    ensures |DECODERS| == 4
    ensures "PENDING" in DECODERS[0].raw && "CONFIGURING" in DECODERS[0].raw
    ensures "RUNNING" in DECODERS[1].raw && "COMPLETING" in DECODERS[1].raw
    ensures "SUSPENDED" in DECODERS[2].raw && "PREEMPTED" in DECODERS[2].raw
    ensures "COMPLETED" in DECODERS[3].raw && "FAILED" in DECODERS[3].raw
    ensures "CANCELLED" in DECODERS[3].raw && "TIMEOUT" in DECODERS[3].raw
  {
  }

  lemma Listed(i: nat, raw: string)
    requires i < |DECODERS| == 4 && raw in DECODERS[i].raw
    ensures Classify(DECODERS, raw) == [QUEUED, RUNNING, SUSPENDED, COMPLETED][i]
  {
    DecoderStates(i);
    hide DECODERS, Classify;
    DecodersAreDisjoint();
    ListedStateIsFound(DECODERS, DECODERS[i], raw);
  }

  lemma DecoderStates(i: nat)
    requires i < |DECODERS| == 4
    ensures DECODERS[i].state == [QUEUED, RUNNING, SUSPENDED, COMPLETED][i]
  {
    assert i == 0 || i == 1 || i == 2 || i == 3;
  }

  lemma MarksSeparate(decoders: seq<Decoder>)
    requires |decoders| == 4
    requires forall i :: 0 <= i < 4 ==> forall raw :: raw in decoders[i].raw ==> Mark(raw) in MARKS[i]
    ensures AreDisjoint(decoders)
  {
    forall i, j | 0 <= i < j < 4 ensures MARKS[i] !! MARKS[j] {
      assert i == 0 || i == 1 || i == 2;
      assert j == 1 || j == 2 || j == 3;
    }
  }

  method ConvertStatus(decoders: seq<Decoder>, raw: string) returns (ustate: JobState)
    ensures ustate == Classify(decoders, raw)
    ensures (forall d :: d in decoders ==> raw !in d.raw) ==> ustate == UNKNOWN
    ensures AreDisjoint(decoders) ==> forall d :: d in decoders && raw in d.raw ==> ustate == d.state
  {
    if AreDisjoint(decoders) {
      forall d | d in decoders && raw in d.raw ensures Classify(decoders, raw) == d.state {
        ListedStateIsFound(decoders, d, raw);
      }
    }
    ustate := UNKNOWN;
    for i := 0 to |decoders|
      invariant ustate == UNKNOWN && Classify(decoders, raw) == Classify(decoders[i..], raw)
    {
      if raw in decoders[i].raw {
        ustate := decoders[i].state;
        break;
      }
    }
  }

  function Slurm(decoders: seq<Decoder>): Variant {
    Variant(line => Extract(line), raw => Classify(decoders, raw))
  }

  datatype Task = Task(suffix: string, state: string, queue: string)

  predicate IsTask(t: Task) {
    IsTaskSuffix(t.suffix) && IsName(t.state) && IsName(t.queue)
  }

  function Line(id: string, t: Task): string {
    id + (t.suffix + (" " + (t.state + (" " + t.queue))))
  }

  function ArrayLines(id: string, tasks: seq<Task>): seq<string> {
    seq(|tasks|, i requires 0 <= i < |tasks| => Line(id, tasks[i]))
  }

  lemma {:induction false} ArrayEntries(decoders: seq<Decoder>, id: string, tasks: seq<Task>)
    requires IsNumber(id) && forall t :: t in tasks ==> IsTask(t)
    ensures var es := Entries(Slurm(decoders), ArrayLines(id, tasks));
            && |es| == |tasks|
            && forall i :: 0 <= i < |tasks| ==>
                 es[i] == Entry(id, Record(Classify(decoders, tasks[i].state), tasks[i].queue, tasks[i].state))
  {
    hide Extract, Classify, IsTaskSuffix, IsName;
    if tasks != [] {
      var n := |tasks| - 1;
      assert IsTask(tasks[n]);
      ArrayEntries(decoders, id, tasks[..n]);
      ExtractFindsBaseId(id, tasks[n].suffix, tasks[n].state, tasks[n].queue);
      assert ArrayLines(id, tasks)[..n] == ArrayLines(id, tasks[..n]);
    }
  }

  /** The lines of all tasks of one array give a single job whose state ranks highest among the
      tasks' states. */
  lemma ArrayIsOneJob(decoders: seq<Decoder>, id: string, tasks: seq<Task>)
    requires IsNumber(id) && tasks != [] && forall t :: t in tasks ==> IsTask(t)
    ensures var s := Merge(Entries(Slurm(decoders), ArrayLines(id, tasks)));
            && s.records.Keys == {id}
            && (forall t :: t in tasks ==> Rank(Classify(decoders, t.state)) <= Rank(s.records[id].state))
            && exists t :: t in tasks && Classify(decoders, t.state) == s.records[id].state
  {
    hide Classify, Extract, IsTask, Line;
    ArrayEntries(decoders, id, tasks);
    var es := Entries(Slurm(decoders), ArrayLines(id, tasks));
    assert es[0] in es;
    forall other ensures other in Merge(es).records <==> other == id {
      MergeIsMaximum(es, other);
      MergeIsMaximum(es, id);
    }
    MergeIsMaximum(es, id);
    var k: nat :| IsBest(es, id, k) && Merge(es).records[id] == es[k].record;
    assert tasks[k] in tasks;
  }
}
