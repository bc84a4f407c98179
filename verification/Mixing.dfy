/** When the identity of a switch is of one record of a database that changes meanwhile. */
module Mixing {
  import opened Text
  import opened OsDatabase
  import opened CacheView
  import opened Staleness
  import opened Groups
  import opened Served
  import opened Resolution

  /** The two histories are the same up to an instant. */
  ghost predicate Agree(h: int -> Database, h': int -> Database, until: int) {
    forall t :: t <= until ==> h'(t) == h(t)
  }

  function Over(o: Origin, h: int -> Database): Origin {
    o.(history := h)
  }

  lemma TruthAgrees(v: View, h: int -> Database, h': int -> Database, useId: bool, until: int)
    requires IsTrue(v, h, useId) && v.lastStamp <= until && Agree(h, h', until)
    ensures IsTrue(v, h', useId)
  {
    hide IsDataOf;
    forall user ensures UserIsTrue(v, h', useId, user) {
      assert UserIsTrue(v, h, useId, user);
    }
    forall group ensures GroupIsTrue(v, h', group) {
      assert GroupIsTrue(v, h, group);
    }
  }

  /** What was answered by some instant does not depend on what the database holds later. */
  lemma PastAgrees(o: Origin, midway: Origin, h: int -> Database, user: string, d: UserData)
    requires IsProper(o) && IsLater(o, midway) && UserAnswer(o, midway.asked, user, d)
    requires Agree(o.history, h, midway.asked)
    ensures IsProper(Over(o, h)) && IsLater(Over(o, h), Over(midway, h))
    ensures UserAnswer(Over(o, h), midway.asked, user, d)
  {
    hide IsTrue, IsDataOf, UserFollows, GroupFollows;
    TruthAgrees(o.view, o.history, h, o.useId, midway.asked);
    TruthAgrees(midway.view, o.history, h, o.useId, midway.asked);
    forall u ensures UserFollows(Over(o, h), midway.view, midway.asked, u) {
      SameUserFollows(o, Over(o, h), midway.view, midway.asked, u);
    }
    forall g ensures GroupFollows(Over(o, h), midway.view, g) {
      SameGroupFollows(o, Over(o, h), midway.view, midway.asked, g);
    }
  }

  lemma SameUserFollows(o: Origin, o': Origin, v: View, now: int, user: string)
    requires Follows(o, v, now) && o' == o.(history := o'.history)
    ensures UserFollows(o', v, now, user)
  {
    hide IsTrue;
    assert UserFollows(o, v, now, user);
  }

  lemma SameGroupFollows(o: Origin, o': Origin, v: View, now: int, group: string)
    requires Follows(o, v, now) && o' == o.(history := o'.history)
    ensures GroupFollows(o', v, group)
  {
    hide IsTrue;
    assert GroupFollows(o, v, group);
  }

  // ---- a database that changes for the worse

  /** Groups of the given names, all with one gid. */
  function NamedGroups(names: seq<string>, gid: int): seq<GroupEntry> {
    if names == [] then [] else [GroupEntry(names[0], gid, [])] + NamedGroups(names[1..], gid)
  }

  lemma {:induction false} NamedGroupsAre(names: seq<string>, gid: int, user: string)
    ensures GidsListing(NamedGroups(names, gid), user) == []
    ensures forall name :: name in names ==>
              var g := FindGroup(NamedGroups(names, gid), name); g.Some? && g.value.gid == gid
  {
    if names != [] {
      NamedGroupsAre(names[1..], gid, user);
    }
  }

  /** The user with another gid and another home, and all requested groups with that gid. */
  function Changed(d: UserData, requested: seq<string>, user: string): Database {
    var gid := OtherGid(d);
    Database(map[user := PasswdEntry(d.uid, gid, OtherHome(d))], NamedGroups(requested, gid), map[])
  }

  function OtherGid(d: UserData): (gid: int)
    ensures gid > 0 && gid != d.gid
  {
    if d.gid < 0 then 1 else d.gid + 1
  }

  function OtherHome(d: UserData): (home: string)
    ensures d.home != Some(home)
  {
    if d.home == Some("") then "/" else ""
  }

  function ChangedData(d: UserData, useId: bool): UserData {
    UserData(d.uid, OtherGid(d), Some(OtherHome(d)), if useId then [] else [OtherGid(d)])
  }

  lemma ChangedHolds(d: UserData, requested: seq<string>, useId: bool, user: string)
    ensures var db := Changed(d, requested, user);
            && IsDataOf(db, db, useId, user, ChangedData(d, useId))
            && forall name :: name in requested ==>
                 var g := FindGroup(db.groups, name); g.Some? && g.value.gid == OtherGid(d)
  {
    var gid := OtherGid(d);
    NamedGroupsAre(requested, gid, user);
    assert GidsListing(NamedGroups(requested, gid), user) + [gid] == [gid];
  }

  /** The ids over the changed database, with the old uid. */
  function MixedIds(d: UserData, requested: seq<string>, useId: bool): UserIds
    requires requested != []
  {
    UserIds(d.uid, OtherGid(d), if requested[0] == "NONE" then ChangedData(d, useId).gids else [OtherGid(d)])
  }

  /** If every answer about the user and the requested groups is from the changed database, the rest of
      the identity is of the new record, under every policy. */
  lemma ChangedIsChosen(o: Origin, now: int, p: Policy, requested: seq<string>, user: string, d: UserData)
    requires requested != [] && UserAnswer(o, now, user, ChangedData(d, o.useId))
    requires forall name :: name in requested ==> GroupAnswer(o, now, name, OtherGid(d))
    ensures ChosenServed(o, now, p, requested, user, OtherGid(d), MixedIds(d, requested, o.useId).gids)
    ensures HomeServed(o, now, user, OtherHome(d))
  {
    hide UserAnswer, GroupAnswer, OtherGid, OtherHome;
    var gid, d' := OtherGid(d), ChangedData(d, o.useId);
    assert DefaultServed(o, now, user, gid) && OwnServed(o, now, user, gid);
    assert gid != -1;
    if requested[0] != "NONE" {
      assert PrimaryServed(o, now, p, requested[0], user, gid);
      forall name | name in requested ensures Covered(o, now, p, name, user, [gid]) {
        assert GroupAnswer(o, now, name, gid);
        assert forall g :: g in d'.gids ==> g in [gid];
      }
    }
  }

  /** Once the entry prepared for the uid has expired, the database can change so that the identity is of
      two records. */
  lemma ExpiredMixes(o: Origin, midway: Origin, now: int, p: Policy, requested: seq<string>, user: string)
    returns (h: int -> Database)
    requires IsProper(o) && IsLater(o, midway) && midway.asked < now && requested != []
    requires UserAnswer(o, midway.asked, user, DataIn(midway.view, user))
    requires DataIn(midway.view, user).uid != -1 && DataIn(midway.view, user).uid != 0
    requires !IsCurrent(midway.view, o.ttl, user, now)
    ensures Agree(o.history, h, midway.asked)
    ensures var d := DataIn(midway.view, user);
            Resolved(Over(o, h), Over(midway, h), now, p, requested, user, MixedIds(d, requested, o.useId),
                     OtherHome(d))
  {
    var d := DataIn(midway.view, user);
    var db := Changed(d, requested, user);
    h := t => if t <= midway.asked then o.history(t) else db;
    var o', midway' := Over(o, h), Over(midway, h);
    PastAgrees(o, midway, h, user, d);
    ChangedHolds(d, requested, o.useId, user);
    NewAnswers(midway', now, requested, user, d, db);
    hide IsProper, IsLater, UserAnswer, GroupAnswer, ChosenServed, HomeServed, DataIn, OtherGid, OtherHome;
    ChangedIsChosen(midway', now, p, requested, user, d);
  }

  lemma NewAnswers(o: Origin, now: int, requested: seq<string>, user: string, d: UserData, db: Database)
    requires o.asked <= now && o.history(now) == db && !IsCurrent(o.view, o.ttl, user, now)
    requires IsDataOf(db, db, o.useId, user, ChangedData(d, o.useId))
    requires forall name :: name in requested ==>
               var g := FindGroup(db.groups, name); g.Some? && g.value.gid == OtherGid(d)
    ensures UserAnswer(o, now, user, ChangedData(d, o.useId))
    ensures forall name :: name in requested ==> GroupAnswer(o, now, name, OtherGid(d))
  {
    hide IsDataOf, ChangedData;
    assert FreshData(o, now, user, ChangedData(d, o.useId));
  }

  /** The exact condition for one record. After the uid has been answered, the rest of the identity is of
      the same record, whatever becomes of the database and whatever is resolved over it, if and only if
      the entry prepared for the uid has not expired in the end. It holds for every request, also one
      for the system's own groups ("NONE") or for DEFAULT_GID, and under every policy. */
  lemma OneRecordIsExact(o: Origin, midway: Origin, now: int, p: Policy, requested: seq<string>, user: string)
    requires IsProper(o) && IsLater(o, midway) && midway.asked < now && requested != []
    requires UserAnswer(o, midway.asked, user, DataIn(midway.view, user))
    requires DataIn(midway.view, user).uid != -1 && DataIn(midway.view, user).uid != 0
    ensures (forall h: int -> Database, ids: UserIds, home: string ::
               Agree(o.history, h, midway.asked)
               && Resolved(Over(o, h), Over(midway, h), now, p, requested, user, ids, home)
               ==> IsOfRecord(DataIn(midway.view, user), p, requested, ids, home))
            <==> IsCurrent(midway.view, o.ttl, user, now)
  {
    hide IsProper, IsLater, UserAnswer, Resolved, DataIn, Agree;
    var d := DataIn(midway.view, user);
    if IsCurrent(midway.view, o.ttl, user, now) {
      forall h: int -> Database, ids: UserIds, home: string |
        Agree(o.history, h, midway.asked)
        && Resolved(Over(o, h), Over(midway, h), now, p, requested, user, ids, home)
        ensures IsOfRecord(d, p, requested, ids, home)
      {
        OneRecord(Over(o, h), Over(midway, h), now, p, requested, user, ids, home);
      }
    } else {
      var h := ExpiredMixes(o, midway, now, p, requested, user);
      assert !IsOfRecord(d, p, requested, MixedIds(d, requested, o.useId), OtherHome(d));
    }
  }

  // ---- a run with two records in one identity

  const EARLY := Database(map["ann" := PasswdEntry(1, 1, "/a")], [], map[])
  const LATE := Database(map["ann" := PasswdEntry(2, 2, "/b")], [], map[])
  const MOVING: int -> Database := t => if t < 10 then EARLY else LATE
  const EMPTY := Snapshot(map[], map[], map[], map[], map[], map[], map[], map[], map[], 0)

  /** The cache after the uid was asked for at instant 0, and after the gid was asked for at instant 10. */
  function First(): View { Prepared(EMPTY, MOVING, false, 5, "ann", Clock(0, 0, 0, 0)) }
  function Second(): View { Prepared(First(), MOVING, false, 5, "ann", Clock(10, 10, 10, 10)) }

  /** Without that condition an identity can mix two records: ann's record changes at instant 10, her
      entry expires after 5, and the uid that become_user asked for at instant 0 is joined with the
      gid, the groups and the home that it asks for at instant 10. */
  lemma MixedRecords()
    ensures var uid, d := DataIn(First(), "ann").uid, DataIn(Second(), "ann");
            && d.home.Some?
            && Resolved(Origin(MOVING, false, 5, EMPTY, 0), Origin(MOVING, false, 5, First(), 0), 10,
                        Policy(true, true), ["NONE"], "ann", UserIds(uid, d.gid, d.gids), d.home.value)
            && forall t ::
                 var e := Passwd(MOVING(t), "ann");
                 e.Some? ==> !(e.value.uid == uid && e.value.gid == d.gid)
                             && !(e.value.uid == uid && e.value.home == d.home.value)
  {
    hide First, Second, IsTrue, Follows;
    var o := Origin(MOVING, false, 5, EMPTY, 0);
    var midway := Origin(MOVING, false, 5, First(), 0);
    var d := DataIn(Second(), "ann");
    MixedViews();
    ViewsAreAnswers(o, midway);
    hide UserAnswer, DataIn, EMPTY, MOVING;
    var ids := UserIds(DataIn(First(), "ann").uid, d.gid, d.gids);
    assert HomeServed(midway, 10, "ann", d.home.value);
    assert ChosenServed(midway, 10, Policy(true, true), ["NONE"], "ann", ids.gid, ids.gids);
  }

  lemma ViewsAreAnswers(o: Origin, midway: Origin)
    requires o == Origin(MOVING, false, 5, EMPTY, 0) && midway == Origin(MOVING, false, 5, First(), 0)
    ensures IsProper(o) && IsLater(o, midway)
    ensures UserAnswer(o, 0, "ann", DataIn(First(), "ann")) && UserAnswer(midway, 10, "ann", DataIn(Second(), "ann"))
  {
    hide IsTrue, UserAnswer, Prepared, Follows, DataIn;
    EmptyIsTrue();
    OriginFollows(o);
    PreparedFollows(o, EMPTY, 0, "ann", Clock(0, 0, 0, 0), 0);
    FollowsIsTrue(o, First(), 0);
    OriginFollows(midway);
    PreparedFollows(midway, First(), 0, "ann", Clock(10, 10, 10, 10), 10);
  }

  lemma FollowsIsTrue(o: Origin, v: View, now: int)
    requires Follows(o, v, now)
    ensures IsTrue(v, o.history, o.useId) && v.lastStamp <= now
  {
  }

  lemma EmptyIsTrue()
    ensures IsTrue(EMPTY, MOVING, false) && EMPTY.lastStamp == 0
  {
  }

  lemma MixedViews()
    ensures DataIn(First(), "ann") == UserData(1, 1, Some("/a"), [1])
    ensures DataIn(Second(), "ann") == UserData(2, 2, Some("/b"), [2])
  {
  }
}
