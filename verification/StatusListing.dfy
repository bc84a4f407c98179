/** Merging the lines of a batch system's status listing (parse_status_listing, lib/BSSCommon.py). */
module StatusListing {
  import opened Text

  datatype JobState = COMPLETED | QUEUED | SUSPENDED | RUNNING | UNKNOWN

  /** Position in the list of states; an unknown state outranks all others. */
  function Rank(s: JobState): nat {
    match s
    case COMPLETED => 0
    case QUEUED => 1
    case SUSPENDED => 2
    case RUNNING => 3
    case UNKNOWN => 4
  }

  function StateName(s: JobState): string {
    match s
    case COMPLETED => "COMPLETED"
    case QUEUED => "QUEUED"
    case SUSPENDED => "SUSPENDED"
    case RUNNING => "RUNNING"
    case UNKNOWN => "UNKNOWN"
  }

  /** What extract_info finds on a line. */
  datatype Info = Info(id: string, raw: string, queue: string)

  datatype Record = Record(state: JobState, queue: string, raw: string)
  datatype Entry = Entry(id: string, record: Record)

  /** A batch system's variation: how a line is read and how a raw state is classified. */
  datatype Variant = Variant(extract: string -> Option<Info>, convert: string -> JobState)

  function EntryOf(v: Variant, line: string): Option<Entry> {
    match v.extract(line)
    case None => None
    case Some(i) => Some(Entry(i.id, Record(v.convert(i.raw), i.queue, i.raw)))
  }

  function Entries(v: Variant, lines: seq<string>): seq<Entry> {
    if lines == [] then []
    else
      var init := Entries(v, lines[..|lines| - 1]);
      match EntryOf(v, lines[|lines| - 1])
      case None => init
      case Some(e) => init + [e]
  }

  /** A dictionary with its insertion order. */
  datatype States = States(order: seq<string>, records: map<string, Record>)

  function Add(s: States, e: Entry): States {
    if e.id !in s.records then States(s.order + [e.id], s.records[e.id := e.record])
    else if Rank(e.record.state) > Rank(s.records[e.id].state) then s.(records := s.records[e.id := e.record])
    else s
  }

  function Merge(entries: seq<Entry>): States {
    if entries == [] then States([], map[])
    else Add(Merge(entries[..|entries| - 1]), entries[|entries| - 1])
  }

  function ReportLine(id: string, r: Record): string {
    " " + id + " " + StateName(r.state) + " " + r.queue + " " + r.raw + "\n"
  }

  function Report(s: States, n: nat): string
    requires n <= |s.order| && forall id :: id in s.order ==> id in s.records
  {
    if n == 0 then "QSTAT\n" else Report(s, n - 1) + ReportLine(s.order[n - 1], s.records[s.order[n - 1]])
  }

  lemma {:induction false} OrderIsKeys(entries: seq<Entry>)
    ensures forall id :: id in Merge(entries).order <==> id in Merge(entries).records
    ensures forall i, j :: 0 <= i < j < |Merge(entries).order| ==> Merge(entries).order[i] != Merge(entries).order[j]
  {
    if entries != [] {
      OrderIsKeys(entries[..|entries| - 1]);
    }
  }

  /** Some entry of job a comes before every entry of job b. */
  ghost predicate AppearsBefore(entries: seq<Entry>, a: string, b: string) {
    exists k :: 0 <= k < |entries| && entries[k].id == a && forall l :: 0 <= l <= k ==> entries[l].id != b
  }

  /** Jobs are reported in the order of their first lines. */
  lemma {:induction false} OrderIsFirstAppearance(entries: seq<Entry>)
    ensures forall i, j :: 0 <= i < j < |Merge(entries).order|
              ==> AppearsBefore(entries, Merge(entries).order[i], Merge(entries).order[j])
  {
    if entries != [] {
      var n := |entries| - 1;
      var init, last := entries[..n], entries[n];
      OrderIsFirstAppearance(init);
      OrderIsKeys(init);
      var order := Merge(entries).order;
      forall i, j | 0 <= i < j < |order| ensures AppearsBefore(entries, order[i], order[j]) {
        var before := Merge(init).order;
        if j < |before| {
          assert order[i] == before[i] && order[j] == before[j];
          assert AppearsBefore(init, Merge(init).order[i], Merge(init).order[j]);
          var k :| 0 <= k < |init| && init[k].id == before[i] && forall l :: 0 <= l <= k ==> init[l].id != before[j];
          assert entries[k] == init[k] && forall l :: 0 <= l <= k ==> entries[l] == init[l];
        } else {
          assert before[i] in before;
          MergeIsMaximum(init, before[i]);
          MergeIsMaximum(init, last.id);
          var e :| e in init && e.id == before[i];
          var k :| 0 <= k < |init| && init[k] == e;
          forall l | 0 <= l <= k ensures entries[l].id != order[j] {
            assert init[l] in init;
          }
          assert entries[k].id == order[i];
        }
      }
    }
  }

  method ParseStatusListing(v: Variant, lines: seq<string>) returns (result: string)
    ensures forall id :: id in Merge(Entries(v, lines)).order ==> id in Merge(Entries(v, lines)).records
    ensures var s := Merge(Entries(v, lines)); result == Report(s, |s.order|)
  {
    var states := States([], map[]);
    for i := 0 to |lines|
      invariant states == Merge(Entries(v, lines[..i]))
    {
      assert lines[..i + 1][..i] == lines[..i];
      var info := v.extract(lines[i]);
      if info.None? {
        continue;
      }
      var bssid, record := info.value.id, Record(v.convert(info.value.raw), info.value.queue, info.value.raw);
      assert Entries(v, lines[..i + 1]) == Entries(v, lines[..i]) + [Entry(bssid, record)];
      MergeSnoc(Entries(v, lines[..i]), Entry(bssid, record));
      if bssid !in states.records {
        states := States(states.order + [bssid], states.records[bssid := record]);
      } else if Rank(record.state) > Rank(states.records[bssid].state) {
        states := states.(records := states.records[bssid := record]);
      }
    }
    assert lines[..|lines|] == lines;
    OrderIsKeys(Entries(v, lines));
    result := "QSTAT\n";
    for i := 0 to |states.order|
      invariant result == Report(states, i)
    {
      result := result + ReportLine(states.order[i], states.records[states.order[i]]);
    }
  }

  lemma MergeSnoc(entries: seq<Entry>, e: Entry)
    ensures Merge(entries + [e]) == Add(Merge(entries), e)
  {
    assert (entries + [e])[..|entries|] == entries;
  }

  /** Entry k is the one to report for its job: no entry of the job ranks higher, and those before
      it rank lower. */
  ghost predicate IsBest(entries: seq<Entry>, id: string, k: nat) {
    && k < |entries| && entries[k].id == id
    && (forall j :: 0 <= j < |entries| && entries[j].id == id
          ==> Rank(entries[j].record.state) <= Rank(entries[k].record.state))
    && (forall j :: 0 <= j < k && entries[j].id == id
          ==> Rank(entries[j].record.state) < Rank(entries[k].record.state))
  }

  /** The merge reports exactly the jobs listed, each with the earliest of its highest-ranked entries. */
  lemma {:induction false} MergeIsMaximum(entries: seq<Entry>, id: string)
    ensures id in Merge(entries).records <==> exists e :: e in entries && e.id == id
    ensures id in Merge(entries).records ==>
              exists k: nat :: IsBest(entries, id, k) && Merge(entries).records[id] == entries[k].record
  {
    if entries != [] {
      var init, n := entries[..|entries| - 1], |entries| - 1;
      var last := entries[n];
      MergeIsMaximum(init, id);
      assert forall e :: e in entries <==> e in init || e == last;
      assert forall j :: 0 <= j < n ==> entries[j] == init[j];
      if id in Merge(init).records {
        var k: nat :| IsBest(init, id, k) && Merge(init).records[id] == init[k].record;
        if last.id == id && Rank(last.record.state) > Rank(init[k].record.state) {
          assert IsBest(entries, id, n);
        } else {
          assert IsBest(entries, id, k);
        }
      } else if last.id == id {
        assert forall j :: 0 <= j < n ==> init[j] in init;
        assert IsBest(entries, id, n);
      }
    }
  }

  ghost predicate Reports(entries: seq<Entry>, id: string, s: JobState) {
    exists e :: e in entries && e.id == id && e.record.state == s
  }

  /** The state reported for a job: UNKNOWN if one of its lines has it, else RUNNING if one has that, else
      SUSPENDED, else QUEUED, and COMPLETED only if all lines say so. */
  lemma MergedStateIs(entries: seq<Entry>, id: string)
    requires id in Merge(entries).records
    ensures Merge(entries).records[id].state ==
            if Reports(entries, id, UNKNOWN) then UNKNOWN
            else if Reports(entries, id, RUNNING) then RUNNING
            else if Reports(entries, id, SUSPENDED) then SUSPENDED
            else if Reports(entries, id, QUEUED) then QUEUED else COMPLETED
  {
    hide Merge;
    MergeIsMaximum(entries, id);
    var k: nat :| IsBest(entries, id, k) && Merge(entries).records[id] == entries[k].record;
    assert Reports(entries, id, entries[k].record.state);
    forall s | Reports(entries, id, s) ensures Rank(s) <= Rank(entries[k].record.state) {
      var e :| e in entries && e.id == id && e.record.state == s;
      var j :| 0 <= j < |entries| && entries[j] == e;
    }
  }

  /** The words of a report line: number, state, queue and raw state. */
  lemma ReportLineIsRead(id: string, r: Record)
    requires ' ' !in id && ' ' !in r.queue && ' ' !in r.raw
    ensures var line := ReportLine(id, r);
            && line[|line| - 1] == '\n'
            && Split(line[..|line| - 1], ' ') == ["", id, StateName(r.state), r.queue, r.raw]
  {
    hide StateName, Split;
    NameIsWord(r.state);
    WordsAreRead(id, StateName(r.state), r.queue, r.raw);
    var text := " " + id + " " + StateName(r.state) + " " + r.queue + " " + r.raw;
    assert ReportLine(id, r) == text + "\n" && (text + "\n")[..|text|] == text;
  }

  lemma WordsAreRead(a: string, b: string, c: string, d: string)
    requires ' ' !in a && ' ' !in b && ' ' !in c && ' ' !in d
    ensures Split(" " + a + " " + b + " " + c + " " + d, ' ') == ["", a, b, c, d]
  {
    hide Split, Join;
    SplitOfJoin(["", a, b, c, d], ' ');
    JoinFive("", a, b, c, d);
    assert "" + " " == " ";
  }

  lemma NameIsWord(s: JobState)
    ensures ' ' !in StateName(s)
  {
  }

  lemma JoinFive(a: string, b: string, c: string, d: string, e: string)
    ensures Join([a, b, c, d, e], ' ') == a + " " + b + " " + c + " " + d + " " + e
  {
    assert [a, b, c, d, e][1..] == [b, c, d, e] && [b, c, d, e][1..] == [c, d, e];
    assert [c, d, e][1..] == [d, e] && [d, e][1..] == [e];
    assert Join([d, e], ' ') == d + [' '] + e;
    assert Join([c, d, e], ' ') == c + [' '] + (d + [' '] + e);
    assert Join([b, c, d, e], ' ') == b + [' '] + (c + [' '] + (d + [' '] + e));
  }

  /** The words by which the peer knows the states; they differ. */
  lemma StatesAreNamed(s: JobState, t: JobState)
    ensures StateName(QUEUED) == "QUEUED" && StateName(RUNNING) == "RUNNING" && StateName(SUSPENDED) == "SUSPENDED"
    ensures StateName(COMPLETED) == "COMPLETED" && StateName(UNKNOWN) == "UNKNOWN"
    ensures StateName(s) == StateName(t) ==> s == t
  {
  }

  /** The states reported do not depend on the order or repetition of lines. */
  lemma StatesIgnoreOrder(a: seq<Entry>, b: seq<Entry>, id: string)
    requires forall e :: e in a <==> e in b
    ensures id in Merge(a).records <==> id in Merge(b).records
    ensures id in Merge(a).records ==> Merge(a).records[id].state == Merge(b).records[id].state
  {
    MergeIsMaximum(a, id);
    MergeIsMaximum(b, id);
    if id in Merge(a).records {
      var i: nat :| IsBest(a, id, i) && Merge(a).records[id] == a[i].record;
      var j: nat :| IsBest(b, id, j) && Merge(b).records[id] == b[j].record;
      assert a[i] in b && b[j] in a;
      SameRank(a[i].record.state, b[j].record.state);
    }
  }

  lemma SameRank(s: JobState, t: JobState)
    ensures Rank(s) == Rank(t) ==> s == t
  {
  }

  function Lookup(s: States, id: string): Option<Record> {
    if id in s.records then Some(s.records[id]) else None
  }

  function Better(a: Option<Record>, b: Option<Record>): Option<Record> {
    match (a, b)
    case (None, _) => b
    case (_, None) => a
    case (Some(x), Some(y)) => if Rank(y.state) > Rank(x.state) then b else a
  }

  lemma LookupAdded(s: States, e: Entry, id: string)
    ensures Lookup(Add(s, e), id) == if e.id == id then Better(Lookup(s, id), Some(e.record)) else Lookup(s, id)
  {
  }

  lemma BetterIsAssociative(a: Option<Record>, b: Option<Record>, c: Option<Record>)
    ensures Better(Better(a, b), c) == Better(a, Better(b, c))
  {
  }

  /** Merging one listing after another is merging the two results. */
  lemma {:induction false} MergeOfConcat(a: seq<Entry>, b: seq<Entry>, id: string)
    ensures Lookup(Merge(a + b), id) == Better(Lookup(Merge(a), id), Lookup(Merge(b), id))
  {
    hide Add, Lookup, Better;
    if b == [] {
      assert a + b == a;
      NothingAdded(Merge(a), id);
    } else {
      var init, last := b[..|b| - 1], b[|b| - 1];
      MergeOfConcat(a, init, id);
      assert a + b == (a + init) + [last];
      MergeSnoc(a + init, last);
      LookupAdded(Merge(a + init), last, id);
      LookupAdded(Merge(init), last, id);
      BetterIsAssociative(Lookup(Merge(a), id), Lookup(Merge(init), id), Some(last.record));
    }
  }

  lemma NothingAdded(s: States, id: string)
    ensures Better(Lookup(s, id), Lookup(Merge([]), id)) == Lookup(s, id)
  {
  }
}
