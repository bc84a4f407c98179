/** Reading Torque's job details, whose long attribute values are wrapped over lines that begin with a
    tab (parse_job_details, torque/BSS.py). */
module TorqueDetails {
  import opened Text

  const SENTINEL := "_end_\n"

  predicate StartsWithTab(line: string) {
    line != "" && line[0] == '\t'
  }

  /** The lines the loop hands on, from a given value of its two variables. */
  function Unfold(lines: seq<string>, last: string, multi: bool): seq<string> {
    if lines == [] then []
    else if StartsWithTab(lines[0]) then Unfold(lines[1..], last + Strip(lines[0]), true)
    else if multi then [last, lines[0]] + Unfold(lines[1..], "", false)
    else [lines[0]] + Unfold(lines[1..], lines[0], false)
  }

  /** A line with an equals sign stores its right side under its left side. */
  function Store(result: map<string, string>, line: string): map<string, string> {
    var n := IndexOf(line, '=');
    if n == |line| then result else result[Strip(line[..n]) := Strip(line[n + 1..])]
  }

  function StoreAll(result: map<string, string>, lines: seq<string>): map<string, string>
    decreases lines
  {
    if lines == [] then result else StoreAll(Store(result, lines[0]), lines[1..])
  }

  /** The meaning of parse_job_details on the lines of the raw information. */
  function Details(lines: seq<string>): map<string, string> {
    StoreAll(map[], Unfold(lines + [SENTINEL], "", false))
  }

  lemma {:induction false} StoreAllSnoc(result: map<string, string>, lines: seq<string>, line: string)
    ensures StoreAll(result, lines + [line]) == Store(StoreAll(result, lines), line)
    decreases lines
  {
    hide Store;
    if lines == [] {
      assert (lines + [line])[1..] == [];
    } else {
      assert (lines + [line])[1..] == lines[1..] + [line];
      StoreAllSnoc(Store(result, lines[0]), lines[1..], line);
    }
  }

  method ParseJobDetails(rawLines: seq<string>) returns (result: map<string, string>)
    ensures result == Details(rawLines)
  {
    hide Store, Strip, SENTINEL;
    var lines := rawLines + [SENTINEL];
    var mergedLines: seq<string> := [];
    var last := "";
    var multi := false;
    ghost var all := Unfold(lines, "", false);
    for i := 0 to |lines|
      invariant all == mergedLines + Unfold(lines[i..], last, multi)
    {
      var line := lines[i];
      assert lines[i..][0] == line && lines[i..][1..] == lines[i + 1..];
      if StartsWithTab(line) {
        multi := true;
        last := last + Strip(line);
      } else {
        if multi {
          mergedLines := mergedLines + [last];
          multi := false;
          last := "";
        } else {
          last := line;
        }
        mergedLines := mergedLines + [line];
      }
    }
    assert lines[|lines|..] == [] && mergedLines + [] == mergedLines;
    assert all == mergedLines;
    result := map[];
    for i := 0 to |mergedLines|
      invariant result == StoreAll(map[], mergedLines[..i])
    {
      StoreAllSnoc(map[], mergedLines[..i], mergedLines[i]);
      assert mergedLines[..i + 1] == mergedLines[..i] + [mergedLines[i]];
      result := Store(result, mergedLines[i]);
    }
    assert mergedLines[..|mergedLines|] == mergedLines;
  }

  // ---- attributes and how they are written

  /** An attribute's first line and its continuation lines. */
  datatype Attribute = Attribute(head: string, continuations: seq<string>)

  predicate WellFormed(a: Attribute) {
    && !StartsWithTab(a.head)
    && ('=' in a.head || a.continuations == [])
    && forall c :: c in a.continuations ==> StartsWithTab(c)
  }

  predicate IsWrapped(a: Attribute) {
    a.continuations != []
  }

  function Fold(attributes: seq<Attribute>): seq<string> {
    if attributes == [] then []
    else [attributes[0].head] + (attributes[0].continuations + Fold(attributes[1..]))
  }

  /** The continuation lines' text, joined. */
  function Joined(continuations: seq<string>): string {
    if continuations == [] then "" else Strip(continuations[0]) + Joined(continuations[1..])
  }

  /** The attribute on one line. */
  function Whole(a: Attribute): string {
    a.head + Joined(a.continuations)
  }

  function Key(a: Attribute): string {
    Strip(a.head[..IndexOf(a.head, '=')])
  }

  /** What the attributes say: each key's value is its whole text behind the equals sign. */
  function Meaning(result: map<string, string>, attributes: seq<Attribute>): map<string, string>
    decreases attributes
  {
    if attributes == [] then result else Meaning(Store(result, Whole(attributes[0])), attributes[1..])
  }

  /** What the loop hands on for the attributes: each first line as it is, and for a wrapped attribute
      also the joined text, which lacks the first line when the attribute before was wrapped, too. */
  function Emitted(attributes: seq<Attribute>, afterWrapped: bool): seq<string> {
    if attributes == [] then []
    else
      var a := attributes[0];
      [a.head]
      + (if IsWrapped(a) then [(if afterWrapped then "" else a.head) + Joined(a.continuations)] else [])
      + Emitted(attributes[1..], IsWrapped(a))
  }

  lemma {:induction false} UnfoldContinuations(cs: seq<string>, rest: seq<string>, last: string, multi: bool)
    requires forall c :: c in cs ==> StartsWithTab(c)
    ensures Unfold(cs + rest, last, multi) == Unfold(rest, last + Joined(cs), multi || cs != [])
  {
    hide Strip, StartsWithTab;
    if cs == [] {
      assert cs + rest == rest && last + "" == last;
    } else {
      assert (cs + rest)[0] == cs[0] && (cs + rest)[1..] == cs[1..] + rest;
      assert cs[0] in cs;
      UnfoldContinuations(cs[1..], rest, last + Strip(cs[0]), true);
      assert last + Strip(cs[0]) + Joined(cs[1..]) == last + Joined(cs);
    }
  }

  lemma {:induction false} UnfoldFold(attributes: seq<Attribute>, end: string, last: string, multi: bool)
    requires forall a :: a in attributes ==> WellFormed(a)
    requires !StartsWithTab(end)
    ensures Unfold(Fold(attributes) + [end], last, multi) ==
            (if multi then [last] else []) + (Emitted(attributes, multi) + [end])
  {
    hide Strip, Joined, StartsWithTab, Unfold, Emitted;
    var lines := Fold(attributes) + [end];
    if attributes == [] {
      assert lines == [end] && lines[1..] == [];
      UnfoldPlain(lines, last, multi);
      NothingToUnfold(if multi then "" else end, multi);
    } else {
      var a, rest := attributes[0], attributes[1..];
      assert WellFormed(a);
      var tail := Fold(rest) + [end];
      assert lines == [a.head] + (a.continuations + tail);
      assert lines[1..] == a.continuations + tail;
      var last' := if multi then "" else a.head;
      var joined := last' + Joined(a.continuations);
      UnfoldContinuations(a.continuations, tail, last', false);
      UnfoldFold(rest, end, joined, IsWrapped(a));
      var more := Emitted(rest, IsWrapped(a)) + [end];
      var own := if IsWrapped(a) then [joined] else [];
      assert Unfold(lines[1..], last', false) == own + more;
      UnfoldPlain(lines, last, multi);
      assert Emitted(attributes, multi) == [a.head] + own + Emitted(rest, IsWrapped(a)) by {
        EmittedCons(attributes, multi);
      }
      assert [a.head] + (own + more) == ([a.head] + own + Emitted(rest, IsWrapped(a))) + [end];
    }
  }

  lemma NothingToUnfold(last: string, multi: bool)
    ensures Unfold([], last, false) == [] && Emitted([], multi) == []
  {
  }

  lemma UnfoldPlain(lines: seq<string>, last: string, multi: bool)
    requires lines != [] && !StartsWithTab(lines[0])
    ensures Unfold(lines, last, multi) ==
            (if multi then [last] else []) + ([lines[0]] + Unfold(lines[1..], if multi then "" else lines[0], false))
  {
    hide StartsWithTab;
  }

  lemma EmittedCons(attributes: seq<Attribute>, afterWrapped: bool)
    requires attributes != []
    ensures var a := attributes[0];
            var joined := (if afterWrapped then "" else a.head) + Joined(a.continuations);
            Emitted(attributes, afterWrapped) ==
            [a.head] + (if IsWrapped(a) then [joined] else []) + Emitted(attributes[1..], IsWrapped(a))
  {
  }

  /** A continuation text is lost on an attribute that directly follows a wrapped one. */
  predicate Loses(attributes: seq<Attribute>, afterWrapped: bool, i: nat)
    requires i < |attributes|
  {
    && (if i == 0 then afterWrapped else IsWrapped(attributes[i - 1]))
    && Joined(attributes[i].continuations) != ""
  }

  predicate LosesNothing(attributes: seq<Attribute>, afterWrapped: bool) {
    forall i :: 0 <= i < |attributes| ==> !Loses(attributes, afterWrapped, i)
  }

  lemma LosesNothingTail(attributes: seq<Attribute>, afterWrapped: bool)
    requires attributes != []
    ensures LosesNothing(attributes, afterWrapped) <==>
            !Loses(attributes, afterWrapped, 0) && LosesNothing(attributes[1..], IsWrapped(attributes[0]))
  {
    var rest := attributes[1..];
    forall i | 0 < i < |attributes|
      ensures Loses(attributes, afterWrapped, i) <==> Loses(rest, IsWrapped(attributes[0]), i - 1)
    {
    }
    assert forall i :: 0 <= i < |rest| ==> rest[i] == attributes[i + 1];
    if !LosesNothing(rest, IsWrapped(attributes[0])) {
      var i :| 0 <= i < |rest| && Loses(rest, IsWrapped(attributes[0]), i);
      assert Loses(attributes, afterWrapped, i + 1);
    }
  }

  /** Storing the whole attribute replaces what its first line alone stored. */
  lemma WholeReplacesHead(result: map<string, string>, a: Attribute)
    requires '=' in a.head
    ensures Store(Store(result, a.head), Whole(a)) == Store(result, Whole(a))
    ensures Store(result, Whole(a)).Keys == result.Keys + {Key(a)}
  {
    hide Strip, Joined;
    var n := IndexOf(a.head, '=');
    assert Whole(a)[..n] == a.head[..n];
    IndexOfIs(Whole(a), '=', n);
  }

  /** What an attribute that loses nothing contributes is what it says. */
  lemma FaithfulStep(result: map<string, string>, a: Attribute, afterWrapped: bool)
    requires WellFormed(a) && !(afterWrapped && Joined(a.continuations) != "")
    ensures StoreAll(result, Emitted([a], afterWrapped)) == Store(result, Whole(a))
  {
    hide Strip, StoreAll, Emitted, IndexOf, Joined, StartsWithTab;
    EmittedOne(result, a, afterWrapped);
    if !IsWrapped(a) {
      assert Joined([]) == "" by { JoinedNothing(); }
      assert Whole(a) == a.head;
    } else if afterWrapped {
      assert Whole(a) == a.head;
      assert Store(Store(result, a.head), "") == Store(result, a.head);
    } else {
      WholeReplacesHead(result, a);
    }
  }

  lemma JoinedNothing()
    ensures Joined([]) == ""
  {
  }

  lemma EmittedOne(result: map<string, string>, a: Attribute, afterWrapped: bool)
    ensures StoreAll(result, Emitted([a], afterWrapped)) ==
            if IsWrapped(a)
            then Store(Store(result, a.head), (if afterWrapped then "" else a.head) + Joined(a.continuations))
            else Store(result, a.head)
  {
    hide Store, Joined, StoreAll;
    var second := (if afterWrapped then "" else a.head) + Joined(a.continuations);
    assert Emitted([a][1..], IsWrapped(a)) == [];
    StoreTwo(result, a.head, second);
    if IsWrapped(a) {
      assert Emitted([a], afterWrapped) == [a.head, second];
    } else {
      assert Emitted([a], afterWrapped) == [a.head];
    }
  }

  lemma StoreTwo(result: map<string, string>, first: string, second: string)
    ensures StoreAll(result, [first]) == Store(result, first)
    ensures StoreAll(result, [first, second]) == Store(Store(result, first), second)
  {
    hide Store;
    assert [first][1..] == [] && [first, second][1..] == [second] && [second][1..] == [];
    assert StoreAll(Store(result, first), [second]) == Store(Store(result, first), second);
  }

  lemma {:induction false} StoreAllConcat(result: map<string, string>, a: seq<string>, b: seq<string>)
    ensures StoreAll(result, a + b) == StoreAll(StoreAll(result, a), b)
    decreases a
  {
    hide Store;
    if a == [] {
      assert a + b == b;
    } else {
      assert (a + b)[0] == a[0] && (a + b)[1..] == a[1..] + b;
      StoreAllConcat(Store(result, a[0]), a[1..], b);
    }
  }

  lemma EmittedSplits(attributes: seq<Attribute>, afterWrapped: bool, result: map<string, string>)
    requires attributes != []
    ensures var a := attributes[0];
            StoreAll(result, Emitted(attributes, afterWrapped)) ==
            StoreAll(StoreAll(result, Emitted([a], afterWrapped)), Emitted(attributes[1..], IsWrapped(a)))
  {
    hide Store, Joined, StoreAll;
    var a := attributes[0];
    assert Emitted([a][1..], IsWrapped(a)) == [];
    assert Emitted(attributes, afterWrapped) == Emitted([a], afterWrapped) + Emitted(attributes[1..], IsWrapped(a));
    StoreAllConcat(result, Emitted([a], afterWrapped), Emitted(attributes[1..], IsWrapped(a)));
  }

  lemma {:induction false} FaithfulAll(result: map<string, string>, attributes: seq<Attribute>, afterWrapped: bool)
    requires (forall a :: a in attributes ==> WellFormed(a)) && LosesNothing(attributes, afterWrapped)
    ensures StoreAll(result, Emitted(attributes, afterWrapped)) == Meaning(result, attributes)
    decreases attributes
  {
    hide Store, Emitted, Joined, WellFormed, LosesNothing, Whole;
    if attributes == [] {
      NothingToUnfold("", afterWrapped);
    } else {
      var a := attributes[0];
      assert a in attributes;
      LosesNothingTail(attributes, afterWrapped);
      EmittedSplits(attributes, afterWrapped, result);
      FaithfulStep(result, a, afterWrapped);
      FaithfulAll(Store(result, Whole(a)), attributes[1..], IsWrapped(a));
    }
  }

  // ---- the other direction: a lost text shows in the result

  predicate HasKey(a: Attribute) {
    '=' in a.head
  }

  predicate DistinctKeys(attributes: seq<Attribute>) {
    forall i, j :: 0 <= i < j < |attributes| && HasKey(attributes[i]) && HasKey(attributes[j])
      ==> Key(attributes[i]) != Key(attributes[j])
  }

  /** A joined text that is not empty begins and ends with a visible character. */
  lemma {:induction false} JoinedIsTrimmed(cs: seq<string>)
    ensures var j := Joined(cs); j != "" ==> !IsSpace(j[0]) && !IsSpace(j[|j| - 1])
  {
    hide IsSpace;
    if cs != [] {
      JoinedIsTrimmed(cs[1..]);
      assert Strip(cs[0]) + "" == Strip(cs[0]);
    }
  }

  lemma {:induction false} StripLeftConcat(h: string, t: string)
    requires t != "" && !IsSpace(t[0])
    ensures StripLeft(h + t) == StripLeft(h) + t
  {
    hide IsSpace;
    if h == "" {
      assert h + t == t;
    } else {
      assert (h + t)[0] == h[0] && (h + t)[1..] == h[1..] + t;
      if IsSpace(h[0]) {
        StripLeftConcat(h[1..], t);
      }
    }
  }

  /** The whole value is longer than what either the first line or the lost text alone can give. */
  lemma WholeIsLonger(h: string, t: string)
    requires t != "" && !IsSpace(t[0]) && !IsSpace(t[|t| - 1])
    ensures |Strip(h)| < |Strip(h + t)| && |t| <= |Strip(h + t)|
  {
    hide IsSpace;
    StripLeftConcat(h, t);
    var s := StripLeft(h) + t;
    assert s[|s| - 1] == t[|t| - 1];
  }

  lemma StoreAt(result: map<string, string>, line: string, n: nat)
    requires n < |line| && line[n] == '=' && '=' !in line[..n]
    ensures Store(result, line) == result[Strip(line[..n]) := Strip(line[n + 1..])]
  {
    hide Strip, IndexOf;
    IndexOfIs(line, '=', n);
  }

  lemma StoresShorter(result: map<string, string>, line: string, key: string, value: string)
    requires key in result && |result[key]| < |value| && |line| <= |value|
    ensures key in Store(result, line) && Store(result, line)[key] != value
  {
    hide IndexOf, StripLeft, StripRight;
  }

  lemma LossStep(result: map<string, string>, other: map<string, string>, a: Attribute)
    requires WellFormed(a) && Joined(a.continuations) != ""
    ensures Key(a) in StoreAll(result, Emitted([a], true)) && Key(a) in Store(other, Whole(a))
    ensures StoreAll(result, Emitted([a], true))[Key(a)] != Store(other, Whole(a))[Key(a)]
  {
    hide Strip, StoreAll, Store, Emitted, Joined, StartsWithTab, IsSpace, IndexOf;
    var j := Joined(a.continuations);
    if !IsWrapped(a) {
      JoinedNothing();
    }
    EmittedOne(result, a, true);
    JoinedIsTrimmed(a.continuations);
    var n := IndexOf(a.head, '=');
    var h := a.head[n + 1..];
    WholeIsLonger(h, j);
    assert Whole(a)[..n] == a.head[..n] && Whole(a)[n + 1..] == h + j;
    StoreAt(other, Whole(a), n);
    StoreAt(result, a.head, n);
    assert "" + j == j;
    StoresShorter(Store(result, a.head), j, Key(a), Strip(h + j));
  }

  lemma {:induction false} MeaningKeepsOthers(result: map<string, string>, attributes: seq<Attribute>, key: string)
    requires forall a :: a in attributes && HasKey(a) ==> Key(a) != key
    requires forall a :: a in attributes ==> WellFormed(a)
    requires key in result
    ensures key in Meaning(result, attributes) && Meaning(result, attributes)[key] == result[key]
    decreases attributes
  {
    hide Strip, Joined, StartsWithTab;
    if attributes != [] {
      var a := attributes[0];
      assert a in attributes && WellFormed(a);
      if HasKey(a) {
        StoresOwnKey(result, a, key);
      } else {
        JoinedNothing();
        assert Whole(a) == a.head;
      }
      MeaningKeepsOthers(Store(result, Whole(a)), attributes[1..], key);
    }
  }

  lemma StoresOwnKey(result: map<string, string>, a: Attribute, key: string)
    requires HasKey(a) && key != Key(a) && key in result
    ensures key in Store(result, Whole(a)) && Store(result, Whole(a))[key] == result[key]
  {
    hide Strip, Joined;
    var n := IndexOf(a.head, '=');
    assert Whole(a)[..n] == a.head[..n];
    IndexOfIs(Whole(a), '=', n);
  }

  lemma {:induction false} LossShows(result: map<string, string>, other: map<string, string>,
                                     attributes: seq<Attribute>, afterWrapped: bool) returns (key: string)
    requires (forall a :: a in attributes ==> WellFormed(a)) && DistinctKeys(attributes)
    requires !LosesNothing(attributes, afterWrapped)
    ensures key in StoreAll(result, Emitted(attributes, afterWrapped)) && key in Meaning(other, attributes)
    ensures StoreAll(result, Emitted(attributes, afterWrapped))[key] != Meaning(other, attributes)[key]
    decreases attributes
  {
    hide Store, Strip, StoreAll, Emitted, Joined, Key, WellFormed;
    var a, rest := attributes[0], attributes[1..];
    assert a in attributes;
    LosesNothingTail(attributes, afterWrapped);
    EmittedSplits(attributes, afterWrapped, result);
    var result' := StoreAll(result, Emitted([a], afterWrapped));
    assert forall b :: b in rest ==> b in attributes;
    assert forall i :: 0 <= i < |rest| ==> rest[i] == attributes[i + 1];
    if !LosesNothing(rest, IsWrapped(a)) {
      key := LossShows(result', Store(other, Whole(a)), rest, IsWrapped(a));
    } else {
      key := Key(a);
      HasKeyIfLost(a);
      LossStep(result, other, a);
      FaithfulAll(result', rest, IsWrapped(a));
      MeaningKeepsOthers(result', rest, key);
      MeaningKeepsOthers(Store(other, Whole(a)), rest, key);
    }
  }

  lemma HasKeyIfLost(a: Attribute)
    requires WellFormed(a) && Joined(a.continuations) != ""
    ensures HasKey(a)
  {
  }

  lemma StoresWhole(result: map<string, string>, a: Attribute, left: string, right: string)
    requires a.head == left + "=" + right && '=' !in left
    ensures HasKey(a) && Key(a) == Strip(left)
    ensures Store(result, Whole(a)) == result[Strip(left) := Strip(right + Joined(a.continuations))]
  {
    hide Strip, Joined, Store;
    var n := |left|;
    assert a.head[..n] == left && a.head[n] == '=';
    IndexOfIs(a.head, '=', n);
    var whole := Whole(a);
    assert whole[..n] == left && whole[n] == '=' && whole[n + 1..] == right + Joined(a.continuations);
    StoreAt(result, whole, n);
  }

  lemma {:induction false} MeaningHolds(result: map<string, string>, attributes: seq<Attribute>, i: nat,
                                        left: string, right: string)
    requires i < |attributes| && DistinctKeys(attributes) && forall a :: a in attributes ==> WellFormed(a)
    requires attributes[i].head == left + "=" + right && '=' !in left
    ensures var m := Meaning(result, attributes);
            Strip(left) in m && m[Strip(left)] == Strip(right + Joined(attributes[i].continuations))
    decreases attributes
  {
    hide Strip, Joined, Store, WellFormed, Whole, Key;
    var a, rest := attributes[0], attributes[1..];
    assert forall b :: b in rest ==> b in attributes;
    if i == 0 {
      StoresWhole(result, a, left, right);
      forall b | b in rest && HasKey(b) ensures Key(b) != Strip(left) {
        var j :| 0 <= j < |rest| && rest[j] == b;
        assert attributes[j + 1] == b;
      }
      MeaningKeepsOthers(Store(result, Whole(a)), rest, Strip(left));
    } else {
      assert forall j :: 0 <= j < |rest| ==> rest[j] == attributes[j + 1];
      MeaningHolds(Store(result, Whole(a)), rest, i - 1, left, right);
    }
  }

  lemma {:induction false} MeaningHoldsOnly(result: map<string, string>, attributes: seq<Attribute>, key: string)
    requires forall a :: a in attributes ==> WellFormed(a)
    requires key in Meaning(result, attributes) && key !in result
    ensures exists a :: a in attributes && HasKey(a) && Key(a) == key
    decreases attributes
  {
    hide Strip, Joined;
    if attributes != [] {
      var a, rest := attributes[0], attributes[1..];
      assert a in attributes;
      if HasKey(a) && Key(a) == key {
      } else {
        if HasKey(a) {
          var n := IndexOf(a.head, '=');
          assert a.head == a.head[..n] + "=" + a.head[n + 1..];
          StoresWhole(result, a, a.head[..n], a.head[n + 1..]);
        } else {
          JoinedNothing();
          assert Whole(a) == a.head;
        }
        MeaningHoldsOnly(Store(result, Whole(a)), rest, key);
        var b :| b in rest && HasKey(b) && Key(b) == key;
        assert b in attributes;
      }
    }
  }

  /** What the attributes mean, entry by entry: a first line "left = right" stores under left, without the
      space around it, what right and the continuation lines hold, and nothing else is stored. */
  lemma MeaningIsByKey(attributes: seq<Attribute>, i: nat, before: string, key: string, after: string, right: string)
    requires forall a :: a in attributes ==> WellFormed(a)
    requires DistinctKeys(attributes) && i < |attributes|
    requires IsBlank(before) && IsBlank(after) && '=' !in before + key + after
    requires key != "" && !IsSpace(key[0]) && !IsSpace(key[|key| - 1])
    requires attributes[i].head == before + key + after + "=" + right
    ensures var m := Meaning(map[], attributes);
            && key in m && m[key] == Strip(right + Joined(attributes[i].continuations))
            && forall k :: k in m ==> exists a :: a in attributes && HasKey(a) && Key(a) == k
  {
    hide Strip, Joined, Meaning, WellFormed, DistinctKeys, IsBlank, Key, HasKey;
    StripIsExact(before, key, after);
    MeaningHolds(map[], attributes, i, before + key + after, right);
    forall k | k in Meaning(map[], attributes) ensures exists a :: a in attributes && HasKey(a) && Key(a) == k {
      MeaningHoldsOnly(map[], attributes, k);
    }
  }

  /** Parsing folded attributes with distinct keys gives exactly what the attributes say if and only if
      no attribute with continuation text directly follows a wrapped attribute. */
  lemma DetailsAreExact(attributes: seq<Attribute>)
    requires (forall a :: a in attributes ==> WellFormed(a)) && DistinctKeys(attributes)
    ensures Details(Fold(attributes)) == Meaning(map[], attributes) <==> LosesNothing(attributes, false)
  {
    hide Unfold, Fold, Meaning, Strip, LosesNothing, WellFormed, DistinctKeys;
    DetailsOfFold(attributes);
    if LosesNothing(attributes, false) {
      FaithfulAll(map[], attributes, false);
    } else {
      var key := LossShows(map[], map[], attributes, false);
    }
  }

  lemma DetailsOfFold(attributes: seq<Attribute>)
    requires forall a :: a in attributes ==> WellFormed(a)
    ensures Details(Fold(attributes)) == StoreAll(map[], Emitted(attributes, false))
  {
    hide Unfold, Fold, StoreAll, Emitted, Strip, WellFormed;
    UnfoldFold(attributes, SENTINEL, "", false);
    var none: seq<string> := [];
    assert none + (Emitted(attributes, false) + [SENTINEL]) == Emitted(attributes, false) + [SENTINEL];
    StoreAllSnoc(map[], Emitted(attributes, false), SENTINEL);
    SentinelIsIgnored(StoreAll(map[], Emitted(attributes, false)));
  }

  lemma SentinelIsIgnored(result: map<string, string>)
    ensures Store(result, SENTINEL) == result
  {
    assert '=' !in SENTINEL;
  }

  const FIRST := Attribute("a=1", ["\t2"])
  const SECOND := Attribute("b=3", ["\t4"])

  /** Two wrapped attributes in a row: the second one loses its continuation. */
  lemma AdjacentWrappedLoses()
    ensures WellFormed(FIRST) && WellFormed(SECOND) && DistinctKeys([FIRST, SECOND])
    ensures Details(Fold([FIRST, SECOND])) != Meaning(map[], [FIRST, SECOND])
  {
    hide Strip, Details, Meaning, Fold;
    assert FIRST.head[1] == '=' && SECOND.head[1] == '=';
    KeyIs(FIRST, 'a');
    KeyIs(SECOND, 'b');
    assert Joined(SECOND.continuations) == Strip("\t4") != "" by {
      StripFinds("\t4", 1);
      assert Joined(["\t4"]) == Strip("\t4") + Joined(["\t4"][1..]) && ["\t4"][1..] == [];
    }
    assert Loses([FIRST, SECOND], false, 1);
    DetailsAreExact([FIRST, SECOND]);
  }

  lemma KeyIs(a: Attribute, key: char)
    requires |a.head| > 1 && a.head[0] == key && a.head[1] == '=' && key != '=' && !IsSpace(key)
    ensures Key(a) == [key]
  {
    IndexOfIs(a.head, '=', 1);
    assert a.head[..1] == [key] && [key][1..] == [];
  }

  lemma StripFinds(s: string, i: nat)
    requires i < |s| && !IsSpace(s[i])
    ensures Strip(s) != ""
  {
    var left := StripLeft(s);
    assert left[i - (|s| - |left|)] == s[i];
  }
}
