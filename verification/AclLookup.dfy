/** Which ACL flavour is configured for a path (check_support, lib/ACL.py). */
module AclLookup {

  /** A configured path and its value, in the order of the configuration. */
  datatype Entry = Entry(key: string, value: string)

  const NO_ACL := "NONE"

  /** Keys are used as patterns at the start of the path. Of the characters that a configuration key
      may have, only the dot is special: it stands for any character but a newline. */
  predicate Matches(key: string, path: string) {
    |key| <= |path| && forall i :: 0 <= i < |key| ==> key[i] == path[i] || (key[i] == '.' && path[i] != '\n')
  }

  datatype Best = Best(size: nat, value: string)

  function Improve(best: Best, e: Entry, path: string): Best {
    if Matches(e.key, path) && |e.key| > best.size then Best(|e.key|, e.value) else best
  }

  function FindBest(acl: seq<Entry>, path: string): Best {
    if acl == [] then Best(0, NO_ACL)
    else Improve(FindBest(acl[..|acl| - 1], path), acl[|acl| - 1], path)
  }

  function Answer(acl: seq<Entry>, path: string): string {
    FindBest(acl, path).value
  }

  method CheckSupport(path: string, acl: seq<Entry>) returns (result: string)
    ensures result == Answer(acl, path)
  {
    var bestMatch: nat := 0;
    var bestResult := NO_ACL;
    for i := 0 to |acl|
      invariant FindBest(acl[..i], path) == Best(bestMatch, bestResult)
    {
      assert acl[..i + 1][..i] == acl[..i];
      if Matches(acl[i].key, path) {
        var size := |acl[i].key|;
        if size > bestMatch {
          bestMatch := size;
          bestResult := acl[i].value;
        }
      }
    }
    assert acl[..|acl|] == acl;
    BestWithoutMatch(acl, path);
    result := if bestMatch > 0 then bestResult else NO_ACL;
  }

  lemma BestWithoutMatch(acl: seq<Entry>, path: string)
    ensures FindBest(acl, path).size == 0 ==> FindBest(acl, path).value == NO_ACL
  {
  }

  predicate Counts(e: Entry, path: string) {
    e.key != "" && Matches(e.key, path)
  }

  /** The entry matches and no matching entry has a longer key. */
  ghost predicate IsLongest(acl: seq<Entry>, e: Entry, path: string) {
    && e in acl && Counts(e, path)
    && forall f :: f in acl && Counts(f, path) ==> |f.key| <= |e.key|
  }

  lemma {:induction false} FindBestIsLongest(acl: seq<Entry>, path: string)
    ensures var b := FindBest(acl, path);
            && (b.size == 0 <==> forall e :: e in acl ==> !Counts(e, path))
            && (b.size == 0 ==> b.value == NO_ACL)
            && (b.size > 0 ==> exists e :: IsLongest(acl, e, path) && |e.key| == b.size && e.value == b.value)
  {
    if acl != [] {
      var init, last := acl[..|acl| - 1], acl[|acl| - 1];
      FindBestIsLongest(init, path);
      assert forall e :: e in acl <==> e in init || e == last;
      var b := FindBest(init, path);
      if Counts(last, path) && |last.key| > b.size {
        if b.size > 0 {
          var e :| IsLongest(init, e, path) && |e.key| == b.size && e.value == b.value;
        }
        assert IsLongest(acl, last, path);
      } else if b.size > 0 {
        var e :| IsLongest(init, e, path) && |e.key| == b.size && e.value == b.value;
        assert IsLongest(acl, e, path);
      }
    }
  }

  /** The entries with the longest matching key all have one value. */
  ghost predicate LongestAgree(acl: seq<Entry>, path: string) {
    forall e, f :: IsLongest(acl, e, path) && IsLongest(acl, f, path) ==> e.value == f.value
  }

  ghost predicate SameEntries(a: seq<Entry>, b: seq<Entry>) {
    forall e :: e in a <==> e in b
  }

  lemma AgreeingAnswer(acl: seq<Entry>, acl': seq<Entry>, path: string)
    requires SameEntries(acl, acl') && LongestAgree(acl, path)
    ensures Answer(acl', path) == Answer(acl, path)
  {
    hide Matches, FindBest, Counts;
    FindBestIsLongest(acl, path);
    FindBestIsLongest(acl', path);
    if FindBest(acl, path).size > 0 {
      assert FindBest(acl', path).size > 0;
      var e :| IsLongest(acl, e, path) && |e.key| == FindBest(acl, path).size && e.value == FindBest(acl, path).value;
      var f :| IsLongest(acl', f, path) && |f.key| == FindBest(acl', path).size
               && f.value == FindBest(acl', path).value;
      assert IsLongest(acl, f, path);
    }
  }

  /** An entry that comes first and is longest decides. */
  lemma {:induction false} FirstLongestWins(acl: seq<Entry>, path: string)
    requires acl != [] && IsLongest(acl, acl[0], path)
    ensures FindBest(acl, path) == Best(|acl[0].key|, acl[0].value)
  {
    var init, last := acl[..|acl| - 1], acl[|acl| - 1];
    if init == [] {
      assert FindBest(init, path) == Best(0, NO_ACL);
    } else {
      assert forall e :: e in init ==> e in acl;
      FirstLongestWins(init, path);
      assert last in acl;
    }
  }

  /** The answer is the same for every order of the configuration exactly when the longest matching
      keys agree on the value. */
  lemma OrderMatters(acl: seq<Entry>, path: string)
    ensures (forall acl' :: SameEntries(acl, acl') && |acl'| == |acl| ==> Answer(acl', path) == Answer(acl, path))
            <==> LongestAgree(acl, path)
  {
    hide Matches, FindBest, Counts, Answer;
    if LongestAgree(acl, path) {
      forall acl' | SameEntries(acl, acl') && |acl'| == |acl| ensures Answer(acl', path) == Answer(acl, path) {
        AgreeingAnswer(acl, acl', path);
      }
    } else {
      var e, f :| IsLongest(acl, e, path) && IsLongest(acl, f, path) && e.value != f.value;
      MovedToFront(acl, e, path);
      MovedToFront(acl, f, path);
    }
  }

  function ToFront(acl: seq<Entry>, i: nat): seq<Entry>
    requires i < |acl|
  {
    [acl[i]] + acl[..i] + acl[i + 1..]
  }

  lemma MovedToFront(acl: seq<Entry>, e: Entry, path: string)
    requires IsLongest(acl, e, path)
    ensures exists acl' :: SameEntries(acl, acl') && |acl'| == |acl| && Answer(acl', path) == e.value
  {
    var i :| 0 <= i < |acl| && acl[i] == e;
    var acl' := ToFront(acl, i);
    assert acl == acl[..i] + [acl[i]] + acl[i + 1..];
    assert SameEntries(acl, acl');
    assert IsLongest(acl', e, path);
    FirstLongestWins(acl', path);
  }

  predicate IsLiteral(key: string) {
    '.' !in key
  }

  function Keys(acl: seq<Entry>): set<string> {
    set e | e in acl :: e.key
  }

  predicate IsLongestPrefixOf(keys: set<string>, key: string, path: string) {
    key in keys && key != "" && key <= path && forall k :: k in keys && k <= path ==> |k| <= |key|
  }

  predicate AllLiteral(keys: set<string>) {
    forall k :: k in keys ==> IsLiteral(k)
  }

  /** Keys without dots are matched literally: the value is that of the longest configured non-empty
      prefix of the path, "NONE" when there is none, and the order of the entries is irrelevant. */
  lemma LiteralKeysGiveLongestPrefix(acl: seq<Entry>, path: string)
    requires AllLiteral(Keys(acl))
    requires forall e, f :: e in acl && f in acl && e.key == f.key ==> e.value == f.value
    ensures LongestAgree(acl, path)
    ensures (forall e :: e in acl && e.key != "" ==> !(e.key <= path)) ==> Answer(acl, path) == NO_ACL
    ensures forall e :: e in acl && IsLongestPrefixOf(Keys(acl), e.key, path) ==> Answer(acl, path) == e.value
  {
    forall e | e in acl ensures e.key in Keys(acl) && (Matches(e.key, path) <==> e.key <= path) {
      assert IsLiteral(e.key);
    }
    forall e, f | IsLongest(acl, e, path) && IsLongest(acl, f, path) ensures e.value == f.value {
      assert e.key == path[..|e.key|] == f.key;
    }
    FindBestIsLongest(acl, path);
    forall e | e in acl && IsLongestPrefixOf(Keys(acl), e.key, path)
      ensures Answer(acl, path) == e.value
    {
      assert IsLongest(acl, e, path);
    }
  }

  /** With a dot in a key two keys of one length can match the same path, and then the first counts. */
  lemma DotKeysClash()
    ensures var a, b := Entry("/a.", "POSIX"), Entry("/ab", "NONE");
            Answer([a, b], "/ab") == "POSIX" && Answer([b, a], "/ab") == "NONE"
  {
    var a, b := Entry("/a.", "POSIX"), Entry("/ab", "NONE");
    assert Matches(a.key, "/ab") && Matches(b.key, "/ab");
    assert IsLongest([a, b], a, "/ab") && IsLongest([b, a], b, "/ab");
    FirstLongestWins([a, b], "/ab");
    FirstLongestWins([b, a], "/ab");
  }

  // ---- keys as directories

  /** A directory's name without trailing slashes; empty for the root. */
  function Dir(key: string): (dir: string)
    ensures dir <= key && (forall i :: |dir| <= i < |key| ==> key[i] == '/')
    ensures dir != "" ==> dir[|dir| - 1] != '/'
  {
    if key != "" && key[|key| - 1] == '/' then Dir(key[..|key| - 1]) else key
  }

  /** The path is the directory that the key names, or lies in it. */
  predicate Under(key: string, path: string) {
    key != "" && (path == Dir(key) || Dir(key) + "/" <= path)
  }

  predicate IsLongestDir(keys: set<string>, key: string, path: string) {
    key in keys && Under(key, path) && forall k :: k in keys && Under(k, path) ==> |Dir(k)| <= |Dir(key)|
  }

  /** The value of the longest configured directory that contains the path, "NONE" without one. */
  ghost predicate IsDirValue(acl: seq<Entry>, path: string, value: string) {
    || (exists e :: e in acl && IsLongestDir(Keys(acl), e.key, path) && e.value == value)
    || (value == NO_ACL && forall k :: k in Keys(acl) ==> !Under(k, path))
  }

  /** No directory is configured twice with different values. */
  predicate IsUnambiguous(acl: seq<Entry>) {
    forall e, f :: e in acl && f in acl && Dir(e.key) == Dir(f.key) ==> e.value == f.value
  }

  /** The directory of the key is configured in a spelling that is a prefix of the path. */
  predicate IsSpelled(keys: set<string>, key: string, path: string) {
    exists k :: k in keys && k != "" && k <= path && Dir(k) == Dir(key)
  }

  /** The longest configured prefix of the path ends where a component of the path ends, and trailing
      slashes do not keep the longest containing directory from being a prefix. */
  ghost predicate EndsAtBoundary(keys: set<string>, path: string) {
    && (forall k :: IsLongestPrefixOf(keys, k, path) ==> Under(k, path))
    && (forall d :: IsLongestDir(keys, d, path) ==> IsSpelled(keys, d, path))
  }

  lemma {:induction false} LongestDirExists(acl: seq<Entry>, path: string)
    ensures (exists d :: IsLongestDir(Keys(acl), d, path)) || forall k :: k in Keys(acl) ==> !Under(k, path)
  {
    hide Dir, Under;
    if acl != [] {
      var init, last := acl[..|acl| - 1], acl[|acl| - 1].key;
      LongestDirExists(init, path);
      assert acl == init + [acl[|acl| - 1]];
      assert Keys(acl) == Keys(init) + {last};
      if Under(last, path) && forall k :: k in Keys(init) && Under(k, path) ==> |Dir(k)| <= |Dir(last)| {
        assert IsLongestDir(Keys(acl), last, path);
      } else if d :| IsLongestDir(Keys(init), d, path) {
        assert IsLongestDir(Keys(acl), d, path);
      }
    }
  }

  /** For literal keys the code answers from a longest prefix, or "NONE" without one. */
  lemma LiteralAnswer(acl: seq<Entry>, path: string)
    requires AllLiteral(Keys(acl))
    ensures || (Answer(acl, path) == NO_ACL && forall k :: k in Keys(acl) && k != "" ==> !(k <= path))
            || exists e :: e in acl && IsLongestPrefixOf(Keys(acl), e.key, path) && Answer(acl, path) == e.value
  {
    forall e | e in acl ensures e.key in Keys(acl) && (Matches(e.key, path) <==> e.key <= path) {
      assert IsLiteral(e.key);
    }
    FindBestIsLongest(acl, path);
    if FindBest(acl, path).size > 0 {
      var e :| IsLongest(acl, e, path) && |e.key| == FindBest(acl, path).size && e.value == FindBest(acl, path).value;
      assert IsLongestPrefixOf(Keys(acl), e.key, path);
    }
  }

  lemma LongestPrefixIsUnique(keys: set<string>, a: string, b: string, path: string)
    requires IsLongestPrefixOf(keys, a, path) && IsLongestPrefixOf(keys, b, path)
    ensures a == b
  {
    assert a == path[..|a|] == b;
  }

  /** A shorter prefix of the path names no longer directory: a directory's name does not end in a slash. */
  lemma ShorterKeyShorterDir(a: string, b: string, path: string)
    requires a <= path && b <= path && |b| <= |a|
    ensures |Dir(b)| <= |Dir(a)|
  {
    var n, dir := |Dir(b)|, Dir(a);
    assert forall i :: |dir| <= i < |a| ==> a[i] == '/';
    if n > 0 {
      assert Dir(b)[n - 1] != '/' && b[n - 1] == Dir(b)[n - 1];
      hide Dir;
      assert a[n - 1] == path[n - 1] == b[n - 1];
    }
  }

  lemma BoundaryIsLongestDir(acl: seq<Entry>, key: string, path: string)
    requires EndsAtBoundary(Keys(acl), path) && IsLongestPrefixOf(Keys(acl), key, path)
    ensures IsLongestDir(Keys(acl), key, path)
  {
    hide Dir, Keys, Under;
    LongestDirExists(acl, path);
    var d :| IsLongestDir(Keys(acl), d, path);
    var k :| k in Keys(acl) && k != "" && k <= path && Dir(k) == Dir(d);
    ShorterKeyShorterDir(key, k, path);
  }

  /** The documented reading: at a boundary the answer is that of the longest directory. */
  lemma BoundaryGivesDirectory(acl: seq<Entry>, path: string)
    requires AllLiteral(Keys(acl)) && IsUnambiguous(acl) && EndsAtBoundary(Keys(acl), path)
    ensures IsDirValue(acl, path, Answer(acl, path))
  {
    hide Answer, Dir, IsLongestPrefixOf, Under, AllLiteral, Keys;
    LiteralAnswer(acl, path);
    if e :| e in acl && IsLongestPrefixOf(Keys(acl), e.key, path) && Answer(acl, path) == e.value {
      BoundaryIsLongestDir(acl, e.key, path);
    } else {
      LongestDirExists(acl, path);
    }
  }

  /** The same keys with values that tell directories apart. */
  function Marked(acl: seq<Entry>): (marked: seq<Entry>)
    ensures |marked| == |acl|
    ensures forall i :: 0 <= i < |acl| ==> marked[i] == Entry(acl[i].key, "@" + Dir(acl[i].key))
  {
    seq(|acl|, i requires 0 <= i < |acl| => Entry(acl[i].key, "@" + Dir(acl[i].key)))
  }

  ghost predicate IsMarked(acl: seq<Entry>) {
    forall e :: e in acl ==> e.value == "@" + Dir(e.key)
  }

  lemma MarkedKeys(acl: seq<Entry>)
    ensures Keys(Marked(acl)) == Keys(acl) && IsMarked(Marked(acl))
  {
    hide Dir;
    var marked := Marked(acl);
    forall k ensures k in Keys(marked) <==> k in Keys(acl) {
      if k in Keys(acl) {
        var i :| 0 <= i < |acl| && acl[i].key == k;
        assert marked[i] in marked;
      }
      if k in Keys(marked) {
        var i :| 0 <= i < |marked| && marked[i].key == k;
        assert acl[i] in acl;
      }
    }
  }

  lemma MarksTellApart(a: Entry, b: Entry)
    requires a.value == "@" + Dir(a.key) && b.value == "@" + Dir(b.key)
    ensures a.value == b.value <==> Dir(a.key) == Dir(b.key)
    ensures a.value != NO_ACL
  {
    assert a.value[1..] == Dir(a.key) && b.value[1..] == Dir(b.key);
    assert a.value[0] == '@' && NO_ACL[0] == 'N';
  }

  /** Off a boundary the marked configuration is answered wrongly. */
  lemma MarkedIsWrong(acl: seq<Entry>, path: string)
    requires AllLiteral(Keys(acl)) && IsMarked(acl) && IsDirValue(acl, path, Answer(acl, path))
    ensures EndsAtBoundary(Keys(acl), path)
  {
    hide Answer, Dir, AllLiteral, Keys, IsLongestPrefixOf, Under, IsLongestDir, NO_ACL;
    LiteralAnswer(acl, path);
    var keys := Keys(acl);
    forall k | IsLongestPrefixOf(keys, k, path) ensures Under(k, path) {
      PrefixIsPrefix(keys, k, path);
      var e :| e in acl && IsLongestPrefixOf(keys, e.key, path) && Answer(acl, path) == e.value;
      LongestPrefixIsUnique(keys, k, e.key, path);
      MarksTellApart(e, e);
      var d :| d in acl && IsLongestDir(keys, d.key, path) && d.value == Answer(acl, path);
      MarksTellApart(d, e);
      SameDirUnder(keys, d.key, k, path);
    }
    forall d | IsLongestDir(keys, d, path) ensures IsSpelled(keys, d, path) {
      var f :| f in acl && IsLongestDir(keys, f.key, path) && f.value == Answer(acl, path) by {
        LongestDirIsUnder(keys, d, path);
      }
      MarksTellApart(f, f);
      var e :| e in acl && IsLongestPrefixOf(keys, e.key, path) && Answer(acl, path) == e.value;
      MarksTellApart(e, f);
      LongestDirsAgree(keys, d, f.key, path);
      PrefixIsPrefix(keys, e.key, path);
    }
  }

  lemma PrefixIsPrefix(keys: set<string>, k: string, path: string)
    requires IsLongestPrefixOf(keys, k, path)
    ensures k in keys && k != "" && k <= path
  {
  }

  lemma LongestDirIsUnder(keys: set<string>, d: string, path: string)
    requires IsLongestDir(keys, d, path)
    ensures d in keys && Under(d, path)
  {
  }

  lemma SameDirUnder(keys: set<string>, d: string, k: string, path: string)
    requires IsLongestDir(keys, d, path) && Dir(k) == Dir(d) && k != ""
    ensures Under(k, path)
  {
  }

  lemma LongestDirsAgree(keys: set<string>, a: string, b: string, path: string)
    requires IsLongestDir(keys, a, path) && IsLongestDir(keys, b, path)
    ensures Dir(a) == Dir(b)
  {
    hide Dir;
    assert Dir(a) <= path && Dir(b) <= path;
    assert Dir(a) == path[..|Dir(a)|] == Dir(b);
  }

  /** The documentation calls keys directories. With literal keys the code gives the value of the longest
      configured directory that contains the path, whatever the values are, exactly when the longest
      configured prefix ends at a boundary of the path. */
  lemma DirectoriesAreExact(acl: seq<Entry>, path: string)
    requires AllLiteral(Keys(acl))
    ensures (forall acl' :: Keys(acl') == Keys(acl) && IsUnambiguous(acl')
               ==> IsDirValue(acl', path, Answer(acl', path)))
            <==> EndsAtBoundary(Keys(acl), path)
  {
    hide Answer, EndsAtBoundary, IsDirValue, Keys, AllLiteral, Dir;
    if EndsAtBoundary(Keys(acl), path) {
      forall acl' | Keys(acl') == Keys(acl) && IsUnambiguous(acl') ensures IsDirValue(acl', path, Answer(acl', path)) {
        BoundaryGivesDirectory(acl', path);
      }
    } else {
      var marked := Marked(acl);
      MarkedKeys(acl);
      assert IsUnambiguous(marked);
      if IsDirValue(marked, path, Answer(marked, path)) {
        MarkedIsWrong(marked, path);
      }
    }
  }

  /** The key /home covers /homework, although that is no path in the directory /home. */
  lemma HomeCoversHomework()
    ensures var acl := [Entry("/home", "POSIX")];
            && Answer(acl, "/homework") == "POSIX"
            && !Under("/home", "/homework") && IsDirValue(acl, "/homework", NO_ACL)
  {
    var e := Entry("/home", "POSIX");
    assert IsLongest([e], e, "/homework");
    FirstLongestWins([e], "/homework");
    assert Dir("/home") == "/home";
    assert "/homework"[5] == 'w' && (Dir("/home") + "/")[5] == '/';
  }
}
