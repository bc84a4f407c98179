/** Choosing a primary group and supplementary groups (lib/BecomeUser.py, first half). The functions
    say what is chosen over one database; the methods compute it through the cache. */
module Groups {
  import opened Text
  import opened OsDatabase

  const DEFAULT_GID := "DEFAULT_GID"

  datatype Policy = Policy(enforceOsGids: bool, failOnInvalid: bool)

  function UidOf(db: Database, user: string): int {
    match Passwd(db, user)
    case None => -1
    case Some(e) => e.uid
  }

  function GidOf(db: Database, user: string): int {
    match Passwd(db, user)
    case None => -1
    case Some(e) => e.gid
  }

  function HomeOf(db: Database, user: string): Option<string> {
    match Passwd(db, user)
    case None => None
    case Some(e) => Some(e.home)
  }

  function GidsOf(db: Database, useId: bool, user: string): seq<int> {
    match Passwd(db, user)
    case None => []
    case Some(e) => (match GidsFor(db, user, e.gid, useId) case None => [] case Some(gids) => gids)
  }

  function GroupGidOf(db: Database, name: string): int {
    match FindGroup(db.groups, name)
    case None => -1
    case Some(g) => g.gid
  }

  function UnknownPrimary(name: string): string {
    "Attempt to run a task with an unknown primary group: " + name
  }

  function UnknownSupplementary(name: string): string {
    "Attempt to run a task with an unknown supplementary group " + name
  }

  function NotAMember(user: string, name: string): string {
    "The user " + user + " is not a member of the group " + name
  }

  /** The database's groups of a user: the default gid and the listed gids. */
  predicate InOwnGroups(db: Database, useId: bool, user: string, gid: int) {
    gid == GidOf(db, user) || gid in GidsOf(db, useId, user)
  }

  /** For a known user these are the default gid and exactly the gids that the system lists. */
  lemma OwnGroupsAreExact(db: Database, useId: bool, user: string, gid: int)
    requires Passwd(db, user).Some?
    ensures InOwnGroups(db, useId, user, gid) <==>
              gid == Passwd(db, user).value.gid || IsListedFor(db, useId, user, gid)
  {
    GidsAreExact(db, user, GidOf(db, user), useId);
  }

  predicate Accepts(db: Database, useId: bool, p: Policy, gid: int, user: string) {
    p.enforceOsGids ==> InOwnGroups(db, useId, user, gid)
  }

  function PrimaryGroup(db: Database, useId: bool, p: Policy, primary: string, user: string): Answer<int> {
    if primary == DEFAULT_GID then Value(GidOf(db, user))
    else
      var known := GroupGidOf(db, primary);
      if known == -1 && p.failOnInvalid then Raised(UnknownPrimary(primary))
      else
        var gid := if known == -1 then GidOf(db, user) else known;
        if Accepts(db, useId, p, gid, user) then Value(gid)
        else if p.failOnInvalid then Raised(NotAMember(user, primary))
        else Value(GidOf(db, user))
  }

  /** The primary group, for every database, policy and name. It is refused exactly in strict mode for an
      invalid name; else it is the named group's gid, or the user's default if that is asked for or the
      name is invalid. */
  lemma PrimaryGroupIsExact(db: Database, useId: bool, p: Policy, primary: string, user: string)
    ensures var r := PrimaryGroup(db, useId, p, primary, user);
            && (r.Raised? <==> p.failOnInvalid && Invalid(db, useId, p, user, primary))
            && (r.Value? ==>
                  r.value == if primary == DEFAULT_GID || Invalid(db, useId, p, user, primary)
                             then GidOf(db, user) else GroupGidOf(db, primary))
  {
  }

  /** Insertion into a dictionary's key order. */
  function Insert(keys: seq<int>, key: int): seq<int> {
    if key in keys then keys else keys + [key]
  }

  function InsertAll(keys: seq<int>, more: seq<int>): seq<int>
    decreases more
  {
    if more == [] then keys else InsertAll(Insert(keys, more[0]), more[1..])
  }

  function Collect(db: Database, useId: bool, p: Policy, names: seq<string>, user: string,
                   keys: seq<int>, addedDefault: bool): Answer<seq<int>> {
    if names == [] then Value(keys)
    else if names[0] == DEFAULT_GID then
      Collect(db, useId, p, names[1..], user,
              if addedDefault then keys else InsertAll(keys, GidsOf(db, useId, user)), true)
    else
      var gid := GroupGidOf(db, names[0]);
      if gid == -1 && p.failOnInvalid then Raised(UnknownSupplementary(names[0]))
      else if gid == -1 then Collect(db, useId, p, names[1..], user, keys, addedDefault)
      else if !Accepts(db, useId, p, gid, user) && p.failOnInvalid then Raised(NotAMember(user, names[0]))
      else Collect(db, useId, p, names[1..], user, Insert(keys, gid), addedDefault)
  }

  function SupplementaryGroups(db: Database, useId: bool, p: Policy, names: seq<string>, primary: int, user: string)
    : Answer<seq<int>>
  {
    Collect(db, useId, p, names, user, [primary], false)
  }

  predicate NoDuplicates(s: seq<int>) {
    forall i, j :: 0 <= i < j < |s| ==> s[i] != s[j]
  }

  /** A requested name that strict mode refuses. */
  predicate Invalid(db: Database, useId: bool, p: Policy, user: string, name: string) {
    name != DEFAULT_GID &&
    (GroupGidOf(db, name) == -1 || !Accepts(db, useId, p, GroupGidOf(db, name), user))
  }

  /** The gid of some requested group. */
  ghost predicate NamedBy(db: Database, names: seq<string>, gid: int) {
    gid != -1 && exists name :: name in names && name != DEFAULT_GID && GroupGidOf(db, name) == gid
  }

  /** The gid belongs to what the requested names stand for. */
  ghost predicate StandsFor(db: Database, useId: bool, user: string, names: seq<string>, gid: int) {
    NamedBy(db, names, gid) || (DEFAULT_GID in names && gid in GidsOf(db, useId, user))
  }

  lemma {:induction false} InsertAllIs(keys: seq<int>, more: seq<int>)
    ensures keys <= InsertAll(keys, more)
    ensures NoDuplicates(keys) ==> NoDuplicates(InsertAll(keys, more))
    ensures forall g :: g in InsertAll(keys, more) <==> g in keys || g in more
    decreases more
  {
    if more != [] {
      InsertAllIs(Insert(keys, more[0]), more[1..]);
    }
  }

  lemma NamedByFirst(db: Database, names: seq<string>, gid: int)
    requires names != []
    ensures NamedBy(db, names, gid) <==>
            NamedBy(db, names[1..], gid)
            || (gid != -1 && names[0] != DEFAULT_GID && GroupGidOf(db, names[0]) == gid)
  {
    assert forall name :: name in names <==> name == names[0] || name in names[1..];
  }

  lemma {:induction false} CollectIsExact(db: Database, useId: bool, p: Policy, names: seq<string>, user: string,
                                          keys: seq<int>, addedDefault: bool)
    ensures match Collect(db, useId, p, names, user, keys, addedDefault)
            case Raised(_) => p.failOnInvalid && exists name :: name in names && Invalid(db, useId, p, user, name)
            case Value(out) =>
              && (p.failOnInvalid ==> forall name :: name in names ==> !Invalid(db, useId, p, user, name))
              && keys <= out && (NoDuplicates(keys) ==> NoDuplicates(out))
              && forall g :: g in out <==>
                   || g in keys || NamedBy(db, names, g)
                   || (!addedDefault && DEFAULT_GID in names && g in GidsOf(db, useId, user))
  {
    if names != [] {
      var gid := GroupGidOf(db, names[0]);
      var keys', added' := keys, addedDefault;
      if names[0] == DEFAULT_GID {
        InsertAllIs(keys, GidsOf(db, useId, user));
        keys' := if addedDefault then keys else InsertAll(keys, GidsOf(db, useId, user));
        added' := true;
      } else if gid != -1 {
        keys' := Insert(keys, gid);
      }
      CollectIsExact(db, useId, p, names[1..], user, keys', added');
      forall g ensures NamedBy(db, names, g) <==>
                       NamedBy(db, names[1..], g) || (g != -1 && names[0] != DEFAULT_GID && gid == g)
      {
        NamedByFirst(db, names, g);
      }
      assert forall name :: name in names <==> name == names[0] || name in names[1..];
      assert Invalid(db, useId, p, user, names[0]) <==>
             names[0] != DEFAULT_GID && (gid == -1 || !Accepts(db, useId, p, gid, user));
    }
  }

  /** What a request for supplementary groups yields, for every database, policy and list of names:
      the primary gid first, no gid twice, and exactly the gids the names stand for. It raises
      exactly in strict mode with an invalid name among them. */
  lemma SupplementaryGroupsAreExact(db: Database, useId: bool, p: Policy, names: seq<string>, primary: int,
                                    user: string)
    ensures SupplementaryGroups(db, useId, p, names, primary, user).Raised? <==>
            p.failOnInvalid && exists name :: name in names && Invalid(db, useId, p, user, name)
    ensures var r := SupplementaryGroups(db, useId, p, names, primary, user);
            r.Value? ==>
              && r.value != [] && r.value[0] == primary && NoDuplicates(r.value)
              && forall g :: g in r.value <==> g == primary || StandsFor(db, useId, user, names, g)
  {
    CollectIsExact(db, useId, p, names, user, [primary], false);
  }

  /** Repeating or reordering the requested names changes neither the set of gids nor whether the
      request is refused. */
  lemma RepetitionIsIrrelevant(db: Database, useId: bool, p: Policy, names: seq<string>, names': seq<string>,
                               primary: int, user: string)
    requires forall name :: name in names <==> name in names'
    ensures var r, r' := SupplementaryGroups(db, useId, p, names, primary, user),
                         SupplementaryGroups(db, useId, p, names', primary, user);
            (r.Value? <==> r'.Value?) && (r.Value? ==> forall g :: g in r.value <==> g in r'.value)
  {
    SupplementaryGroupsAreExact(db, useId, p, names, primary, user);
    SupplementaryGroupsAreExact(db, useId, p, names', primary, user);
  }

  /** Strict mode: every gid handed to the kernel is one of the user's own. */
  lemma StrictGroupsAreOwn(db: Database, useId: bool, p: Policy, names: seq<string>, user: string)
    requires p.enforceOsGids && p.failOnInvalid && names != []
    requires PrimaryGroup(db, useId, p, names[0], user).Value?
    ensures var primary := PrimaryGroup(db, useId, p, names[0], user).value;
            var r := SupplementaryGroups(db, useId, p, names, primary, user);
            && InOwnGroups(db, useId, user, primary)
            && (r.Value? ==> forall g :: g in r.value ==> InOwnGroups(db, useId, user, g))
  {
    var primary := PrimaryGroup(db, useId, p, names[0], user).value;
    SupplementaryGroupsAreExact(db, useId, p, names, primary, user);
  }

  /** Lenient mode enforces the operating system's groups exactly when every known requested group
      is already one of the user's: a foreign group is reported as skipped but still added. */
  lemma LenientGroupsAreOwn(db: Database, useId: bool, p: Policy, names: seq<string>, user: string)
    requires p.enforceOsGids && !p.failOnInvalid && names != []
    ensures PrimaryGroup(db, useId, p, names[0], user).Value?
    ensures var primary := PrimaryGroup(db, useId, p, names[0], user).value;
            var r := SupplementaryGroups(db, useId, p, names, primary, user);
            && r.Value? && InOwnGroups(db, useId, user, primary)
            && ((forall g :: g in r.value ==> InOwnGroups(db, useId, user, g)) <==>
                forall name :: name in names && name != DEFAULT_GID && GroupGidOf(db, name) != -1
                  ==> InOwnGroups(db, useId, user, GroupGidOf(db, name)))
  {
    var primary := PrimaryGroup(db, useId, p, names[0], user).value;
    SupplementaryGroupsAreExact(db, useId, p, names, primary, user);
    var out := SupplementaryGroups(db, useId, p, names, primary, user).value;
    forall name | name in names && name != DEFAULT_GID && GroupGidOf(db, name) != -1
      ensures GroupGidOf(db, name) in out
    {
      assert NamedBy(db, names, GroupGidOf(db, name));
    }
  }

  /** In particular a primary group that lenient mode rejects for want of membership comes back as
      a supplementary group. */
  lemma RejectedPrimaryComesBack(db: Database, useId: bool, p: Policy, names: seq<string>, user: string)
    requires p.enforceOsGids && !p.failOnInvalid && names != [] && names[0] != DEFAULT_GID
    requires GroupGidOf(db, names[0]) != -1 && !InOwnGroups(db, useId, user, GroupGidOf(db, names[0]))
    ensures PrimaryGroup(db, useId, p, names[0], user) == Value(GidOf(db, user))
    ensures var r := SupplementaryGroups(db, useId, p, names, GidOf(db, user), user);
            r.Value? && GroupGidOf(db, names[0]) in r.value
  {
    SupplementaryGroupsAreExact(db, useId, p, names, GidOf(db, user), user);
    assert NamedBy(db, names, GroupGidOf(db, names[0]));
  }

  lemma LenientAdds(db: Database, useId: bool, p: Policy, name: string, user: string, primary: int)
    requires p.enforceOsGids && !p.failOnInvalid && name != DEFAULT_GID
    requires GroupGidOf(db, name) != -1 && GroupGidOf(db, name) != primary
    ensures SupplementaryGroups(db, useId, p, [name], primary, user) == Value([primary, GroupGidOf(db, name)])
  {
    var gid := GroupGidOf(db, name);
    assert [name][0] == name && [name][1..] == [];
    assert Insert([primary], gid) == [primary, gid];
    assert Collect(db, useId, p, [], user, [primary, gid], false) == Value([primary, gid]);
  }

  /** A small database over which lenient mode hands the kernel a group that the user is not in: ann's
      own group is 100, and she asks for wheel. */
  lemma LenientAddsForeignGroup()
    ensures var db := SMALL_DATABASE;
            && !InOwnGroups(db, false, "ann", 10) && GidOf(db, "ann") == 100
            && SupplementaryGroups(db, false, Policy(true, false), ["wheel"], 100, "ann") == Value([100, 10])
  {
    hide DEFAULT_GID, SupplementaryGroups;
    var groups := SMALL_DATABASE.groups;
    assert groups[1..] == [GroupEntry("wheel", 10, [])];
    assert "wheel" != "staff";
    WheelIsAName();
    LenientAdds(SMALL_DATABASE, false, Policy(true, false), "wheel", "ann", 100);
  }

  lemma WheelIsAName()
    ensures "wheel" != DEFAULT_GID
  {
    assert |"wheel"| == 5;
  }

  const SMALL_DATABASE := Database(map["ann" := PasswdEntry(1000, 100, "/home/ann")],
                                   [GroupEntry("staff", 100, []), GroupEntry("wheel", 10, [])], map[])
}
