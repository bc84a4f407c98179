/** Strings as the worker sees them: lines, whitespace, literal search. */
module Text {

  datatype Option<+T> = None | Some(value: T)

  const NL: string := "\n"

  /** The characters that Python's strip() and the class \s treat as space (Latin-1 range). */
  predicate IsSpace(c: char) {
    c in {' ', '\t', '\n', '\r', '\U{0B}', '\U{0C}', '\U{1C}', '\U{1D}', '\U{1E}', '\U{1F}', '\U{85}', '\U{A0}'}
  }

  predicate IsDigit(c: char) {
    '0' <= c <= '9'
  }

  /** Position of the first c in s, or |s| when there is none. */
  function IndexOf(s: string, c: char): (n: nat)
    ensures n <= |s|
    ensures n < |s| ==> s[n] == c
    ensures forall i :: 0 <= i < n ==> s[i] != c
    ensures n == |s| <==> c !in s
  {
    if s == "" then 0 else if s[0] == c then 0 else 1 + IndexOf(s[1..], c)
  }

  lemma IndexOfIs(s: string, c: char, n: nat)
    requires n < |s| && s[n] == c && c !in s[..n]
    ensures IndexOf(s, c) == n
  {
    assert forall i :: 0 <= i < n ==> s[i] == s[..n][i];
  }

  /** What one readline() returns: everything up to and including the next newline. */
  function FirstLine(s: string): (line: string)
    ensures line <= s
    ensures s != "" ==> line != ""
  {
    var n := IndexOf(s, '\n');
    if n < |s| then s[..n + 1] else s
  }

  predicate OccursAt(s: string, sub: string, i: nat) {
    i + |sub| <= |s| && s[i..i + |sub|] == sub
  }

  predicate Contains(s: string, sub: string) {
    exists i: nat | i <= |s| :: OccursAt(s, sub, i)
  }

  function StripLeft(s: string): (r: string)
    ensures r == "" || !IsSpace(r[0])
    ensures |r| <= |s| && r == s[|s| - |r|..]
    ensures forall i :: 0 <= i < |s| - |r| ==> IsSpace(s[i])
  {
    if s != "" && IsSpace(s[0]) then StripLeft(s[1..]) else s
  }

  function StripRight(s: string): (r: string)
    ensures r == "" || !IsSpace(r[|r| - 1])
    ensures r <= s
    ensures forall i :: |r| <= i < |s| ==> IsSpace(s[i])
  {
    if s != "" && IsSpace(s[|s| - 1]) then StripRight(s[..|s| - 1]) else s
  }

  function Strip(s: string): (r: string)
    ensures r == "" || (!IsSpace(r[0]) && !IsSpace(r[|r| - 1]))
    ensures |r| <= |s|
  {
    StripRight(StripLeft(s))
  }

  predicate IsBlank(s: string) {
    forall i :: 0 <= i < |s| ==> IsSpace(s[i])
  }

  lemma {:induction false} StripLeftOf(before: string, s: string)
    requires IsBlank(before) && (s == "" || !IsSpace(s[0]))
    ensures StripLeft(before + s) == s
  {
    if before == "" {
      assert before + s == s;
    } else {
      assert (before + s)[1..] == before[1..] + s;
      StripLeftOf(before[1..], s);
    }
  }

  lemma {:induction false} StripRightOf(s: string, after: string)
    requires IsBlank(after) && (s == "" || !IsSpace(s[|s| - 1]))
    ensures StripRight(s + after) == s
  {
    if after == "" {
      assert s + after == s;
    } else {
      var init := after[..|after| - 1];
      assert (s + after)[..|s + after| - 1] == s + init;
      StripRightOf(s, init);
    }
  }

  /** strip() takes off all white space at both ends, and nothing else. */
  lemma StripIsExact(before: string, s: string, after: string)
    requires IsBlank(before) && IsBlank(after)
    requires s != "" && !IsSpace(s[0]) && !IsSpace(s[|s| - 1])
    ensures Strip(before + s + after) == s
  {
    hide IsSpace, StripLeft, StripRight, IsBlank;
    assert before + s + after == before + (s + after);
    assert (s + after)[0] == s[0];
    StripLeftOf(before, s + after);
    StripRightOf(s, after);
  }

  lemma StripOfBlank(s: string)
    requires IsBlank(s)
    ensures Strip(s) == ""
  {
    StripLeftOf(s, "");
    assert s + "" == s;
  }

  lemma Regrouped(a: string, b: string, c: string)
    ensures a + (b + c) == a + b + c
  {
  }

  /** Concatenation of a list of strings. */
  function Concat(parts: seq<string>): string {
    if parts == [] then "" else parts[0] + Concat(parts[1..])
  }

  lemma {:induction false} ConcatAppend(a: seq<string>, b: seq<string>)
    ensures Concat(a + b) == Concat(a) + Concat(b)
  {
    if a == [] {
      assert a + b == b;
    } else {
      ConcatAppend(a[1..], b);
      assert (a + b)[1..] == a[1..] + b;
    }
  }

  lemma ConcatSnoc(a: seq<string>, s: string)
    ensures Concat(a + [s]) == Concat(a) + s
  {
    ConcatAppend(a, [s]);
    assert Concat([s]) == s + Concat([]);
  }

  /** str.split with a separator of one character */
  function Split(s: string, c: char): (parts: seq<string>)
    ensures parts != []
    ensures forall p :: p in parts ==> c !in p
  {
    var n := IndexOf(s, c);
    if n == |s| then [s] else [s[..n]] + Split(s[n + 1..], c)
  }

  /** str.join with a separator of one character */
  function Join(parts: seq<string>, c: char): string
    requires parts != []
  {
    if |parts| == 1 then parts[0] else parts[0] + [c] + Join(parts[1..], c)
  }

  /** Nothing is lost or moved by splitting. */
  lemma {:induction false} JoinOfSplit(s: string, c: char)
    ensures Join(Split(s, c), c) == s
  {
    var n := IndexOf(s, c);
    if n < |s| {
      var rest := s[n + 1..];
      JoinOfSplit(rest, c);
      assert Split(s, c) == [s[..n]] + Split(rest, c) && Split(s, c)[1..] == Split(rest, c);
      assert s == s[..n] + [c] + rest;
    }
  }

  lemma SplitFirst(part: string, rest: string, c: char)
    requires c !in part
    ensures Split(part + [c] + rest, c) == [part] + Split(rest, c)
  {
    var s := part + [c] + rest;
    assert s[..|part|] == part && s[|part| + 1..] == rest;
    IndexOfIs(s, c, |part|);
  }

  /** Parts without the separator are read back, in order. */
  lemma {:induction false} SplitOfJoin(parts: seq<string>, c: char)
    requires parts != [] && forall part :: part in parts ==> c !in part
    ensures Split(Join(parts, c), c) == parts
  {
    assert parts[0] in parts;
    if |parts| > 1 {
      SplitFirst(parts[0], Join(parts[1..], c), c);
      SplitOfJoin(parts[1..], c);
    }
  }

  /** Two parts exactly when there is one separator. */
  lemma SplitInTwo(s: string, a: string, b: string, c: char)
    requires c !in a && c !in b
    ensures Split(s, c) == [a, b] <==> s == a + [c] + b
  {
    JoinOfSplit(s, c);
    SplitOfJoin([a, b], c);
    assert [a, b][1..] == [b];
  }
}
