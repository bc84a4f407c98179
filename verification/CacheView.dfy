/** The contents of the user cache as a value: what each step of lib/UserCache.py makes of it, and how
    it relates to the changing database. */
module CacheView {
  import opened Text
  import opened OsDatabase

  /** dict.get: a missing key and a stored None look the same */
  function Get<K, V>(m: map<K, Option<V>>, key: K): Option<V> {
    if key in m then m[key] else None
  }

  function OrMinusOne(id: Option<int>): int {
    if id.Some? then id.value else -1
  }

  /** Instants at which a user's record and group list were looked up. */
  datatype Sighting = Sighting(entryAt: int, gidsAt: int)

  /** Everything a cache holds at one moment, with the instants behind it. */
  datatype View = Snapshot(
    allGroups: map<string, Option<seq<int>>>, uids: map<string, Option<int>>, gids: map<string, Option<int>>,
    homes: map<string, Option<string>>, groups: map<string, Option<int>>,
    userStamps: map<string, Option<int>>, groupStamps: map<string, Option<int>>,
    userSeen: map<string, Sighting>, groupSeen: map<string, int>, lastStamp: int)

  /** What the getters answer about a user. */
  datatype UserData = UserData(uid: int, gid: int, home: Option<string>, gids: seq<int>)

  const NO_DATA := UserData(-1, -1, None, [])

  function DataIn(v: View, user: string): UserData {
    UserData(OrMinusOne(Get(v.uids, user)), OrMinusOne(Get(v.gids, user)), Get(v.homes, user),
             match Get(v.allGroups, user) case Some(gs) => gs case None => [])
  }

  /** The data of a record read from one state of the database and a group list read from another. */
  ghost predicate IsDataOf(entryDb: Database, gidsDb: Database, useId: bool, user: string, d: UserData) {
    var e := Passwd(entryDb, user);
    && e.Some? && d.uid == e.value.uid && d.gid == e.value.gid && d.home == Some(e.value.home)
    && GidsFor(gidsDb, user, e.value.gid, useId) == Some(d.gids)
  }

  /** Such a group list holds exactly the gids that the system listed and the default gid. */
  lemma DataIsExact(entryDb: Database, gidsDb: Database, useId: bool, user: string, d: UserData)
    requires IsDataOf(entryDb, gidsDb, useId, user, d)
    ensures IsGidList(gidsDb, useId, user, d.gid, d.gids)
  {
    GidsAreExact(gidsDb, user, d.gid, useId);
  }

  // ---- the cache is true: what it holds under a stamp was in the database

  ghost predicate UserIsTrue(v: View, history: int -> Database, useId: bool, user: string) {
    Get(v.userStamps, user).Some? ==>
      && user in v.userSeen && Get(v.uids, user).Some? && Get(v.gids, user).Some?
      && var s := v.userSeen[user];
      && s.entryAt <= s.gidsAt <= Get(v.userStamps, user).value <= v.lastStamp
      && IsDataOf(history(s.entryAt), history(s.gidsAt), useId, user, DataIn(v, user))
  }

  ghost predicate GroupIsTrue(v: View, history: int -> Database, group: string) {
    Get(v.groupStamps, group).Some? ==>
      && group in v.groupSeen
      && v.groupSeen[group] <= Get(v.groupStamps, group).value <= v.lastStamp
      && var g := FindGroup(history(v.groupSeen[group]).groups, group);
      && g.Some?
      && Get(v.groups, group) == Some(g.value.gid)
  }

  ghost predicate IsTrue(v: View, history: int -> Database, useId: bool) {
    && (forall user :: UserIsTrue(v, history, useId, user))
    && (forall group :: GroupIsTrue(v, history, group))
  }

  /** A stored group list holds exactly the gids that the system listed and the default gid. */
  lemma StoredListIsExact(v: View, history: int -> Database, useId: bool, user: string)
    requires IsTrue(v, history, useId) && Get(v.userStamps, user).Some?
    ensures user in v.userSeen
    ensures IsGidList(history(v.userSeen[user].gidsAt), useId, user, DataIn(v, user).gid, DataIn(v, user).gids)
  {
    hide IsGidList, DataIn, IsDataOf;
    assert UserIsTrue(v, history, useId, user);
    var s := v.userSeen[user];
    DataIsExact(history(s.entryAt), history(s.gidsAt), useId, user, DataIn(v, user));
  }

  // ---- the steps of the cache

  function Dropped(v: View, user: string): View {
    v.(uids := v.uids[user := None], gids := v.gids[user := None], homes := v.homes[user := None],
       allGroups := v.allGroups[user := None], userStamps := v.userStamps[user := None])
  }

  function WithEntry(v: View, user: string, e: PasswdEntry): View {
    v.(uids := v.uids[user := Some(e.uid)], gids := v.gids[user := Some(e.gid)], homes := v.homes[user := Some(e.home)])
  }

  function Stamped(v: View, user: string, list: seq<int>, seen: Sighting, t: int): View {
    v.(allGroups := v.allGroups[user := Some(list)], userStamps := v.userStamps[user := Some(t)],
       userSeen := v.userSeen[user := seen], lastStamp := t)
  }

  function GroupDropped(v: View, group: string): View {
    v.(groups := v.groups[group := None], groupStamps := v.groupStamps[group := None])
  }

  function GroupStamped(v: View, group: string, gid: int, at: int, t: int): View {
    v.(groups := v.groups[group := Some(gid)], groupStamps := v.groupStamps[group := Some(t)],
       groupSeen := v.groupSeen[group := at], lastStamp := t)
  }

  /** The instants of one getter call: expiry check, look up of the record, look up of the group list,
      stamp. */
  datatype Clock = Clock(checked: int, entryAt: int, gidsAt: int, stamp: int)

  predicate WithinSpan(c: Clock, from: int, to: int) {
    from <= c.checked <= c.entryAt <= c.gidsAt <= c.stamp <= to
  }

  /** The user's stamp has not expired at instant t. */
  predicate IsCurrent(v: View, ttl: nat, user: string, t: int) {
    Get(v.userStamps, user).Some? && Get(v.userStamps, user).value + ttl >= t
  }

  predicate GroupIsCurrent(v: View, ttl: nat, group: string, t: int) {
    Get(v.groupStamps, group).Some? && Get(v.groupStamps, group).value + ttl >= t
  }

  /** update_user_info, when no look up raises anything but KeyError. */
  function Refreshed(v: View, history: int -> Database, useId: bool, user: string, c: Clock): View {
    match Passwd(history(c.entryAt), user)
    case None => Dropped(v, user)
    case Some(e) =>
      match GidsFor(history(c.gidsAt), user, e.gid, useId)
      case None => WithEntry(Dropped(v, user), user, e)
      case Some(list) =>
        Stamped(WithEntry(Dropped(v, user), user, e), user, list, Sighting(c.entryAt, c.gidsAt), c.stamp)
  }

  /** The group list can be read whenever there is a record. */
  ghost predicate Readable(history: int -> Database, useId: bool, user: string, c: Clock) {
    var e := Passwd(history(c.entryAt), user);
    e.Some? ==> GidsFor(history(c.gidsAt), user, e.value.gid, useId).Some?
  }

  /** prepare_users */
  function Prepared(v: View, history: int -> Database, useId: bool, ttl: nat, user: string, c: Clock): View {
    if IsCurrent(v, ttl, user, c.checked) then v else Refreshed(v, history, useId, user, c)
  }

  /** The view after a refresh that raised: nothing is stamped. */
  ghost predicate IsInterrupted(v: View, v': View, user: string) {
    v' == Dropped(v, user) || exists e :: v' == WithEntry(Dropped(v, user), user, e)
  }

  /** update_group_info and prepare_groups */
  function GroupRefreshed(v: View, history: int -> Database, group: string, c: Clock): View {
    match FindGroup(history(c.entryAt).groups, group)
    case None => GroupDropped(v, group)
    case Some(g) => GroupStamped(GroupDropped(v, group), group, g.gid, c.entryAt, c.stamp)
  }

  function GroupPrepared(v: View, history: int -> Database, ttl: nat, group: string, c: Clock): View {
    if GroupIsCurrent(v, ttl, group, c.checked) then v else GroupRefreshed(v, history, group, c)
  }

  /** Within the time to live after its stamp an entry is served as it is; from then on, and without a
      stamp, it is looked up again. */
  lemma ServedUntilExpired(v: View, history: int -> Database, useId: bool, ttl: nat, user: string, c: Clock)
    ensures match Get(v.userStamps, user)
            case None => Prepared(v, history, useId, ttl, user, c) == Refreshed(v, history, useId, user, c)
            case Some(stamp) =>
              && (c.checked <= stamp + ttl ==> Prepared(v, history, useId, ttl, user, c) == v)
              && (c.checked > stamp + ttl ==>
                    Prepared(v, history, useId, ttl, user, c) == Refreshed(v, history, useId, user, c))
  {
    hide Refreshed;
  }

  lemma GroupServedUntilExpired(v: View, history: int -> Database, ttl: nat, group: string, c: Clock)
    ensures match Get(v.groupStamps, group)
            case None => GroupPrepared(v, history, ttl, group, c) == GroupRefreshed(v, history, group, c)
            case Some(stamp) =>
              && (c.checked <= stamp + ttl ==> GroupPrepared(v, history, ttl, group, c) == v)
              && (c.checked > stamp + ttl ==>
                    GroupPrepared(v, history, ttl, group, c) == GroupRefreshed(v, history, group, c))
  {
    hide GroupRefreshed;
  }

  // ---- a step about one name leaves the others alone and keeps the cache true

  predicate SameUser(v: View, v': View, user: string) {
    && DataIn(v', user) == DataIn(v, user)
    && Get(v'.uids, user) == Get(v.uids, user) && Get(v'.gids, user) == Get(v.gids, user)
    && Get(v'.userStamps, user) == Get(v.userStamps, user)
    && (user in v'.userSeen <==> user in v.userSeen) && (user in v.userSeen ==> v'.userSeen[user] == v.userSeen[user])
  }

  predicate SameGroup(v: View, v': View, group: string) {
    && Get(v'.groups, group) == Get(v.groups, group)
    && Get(v'.groupStamps, group) == Get(v.groupStamps, group)
    && (group in v'.groupSeen <==> group in v.groupSeen)
    && (group in v.groupSeen ==> v'.groupSeen[group] == v.groupSeen[group])
  }

  /** v' holds what v holds, except perhaps about one user. */
  ghost predicate OthersKept(v: View, v': View, user: string) {
    && v'.lastStamp >= v.lastStamp
    && (forall group :: SameGroup(v, v', group))
    && (forall other :: other != user ==> SameUser(v, v', other))
  }

  ghost predicate OtherGroupsKept(v: View, v': View, group: string) {
    && v'.lastStamp >= v.lastStamp
    && (forall user :: SameUser(v, v', user))
    && (forall other :: other != group ==> SameGroup(v, v', other))
  }

  lemma SameUserIsTrue(v: View, v': View, history: int -> Database, useId: bool, user: string)
    requires SameUser(v, v', user) && v'.lastStamp >= v.lastStamp && UserIsTrue(v, history, useId, user)
    ensures UserIsTrue(v', history, useId, user)
  {
    hide IsDataOf;
  }

  /** A change that concerns one user keeps the cache true if it is true about that user. */
  lemma UserChangeKeepsTruth(v: View, v': View, history: int -> Database, useId: bool, user: string)
    requires IsTrue(v, history, useId) && OthersKept(v, v', user) && UserIsTrue(v', history, useId, user)
    ensures IsTrue(v', history, useId)
  {
    hide UserIsTrue, SameUser;
    forall u | u != user ensures UserIsTrue(v', history, useId, u) {
      SameUserIsTrue(v, v', history, useId, u);
    }
    forall g ensures GroupIsTrue(v', history, g) {
      assert GroupIsTrue(v, history, g) && SameGroup(v, v', g);
    }
  }

  lemma GroupChangeKeepsTruth(v: View, v': View, history: int -> Database, useId: bool, group: string)
    requires IsTrue(v, history, useId) && OtherGroupsKept(v, v', group) && GroupIsTrue(v', history, group)
    ensures IsTrue(v', history, useId)
  {
    hide UserIsTrue, SameUser;
    forall u ensures UserIsTrue(v', history, useId, u) {
      SameUserIsTrue(v, v', history, useId, u);
    }
    forall g | g != group ensures GroupIsTrue(v', history, g) {
      assert GroupIsTrue(v, history, g) && SameGroup(v, v', g);
    }
  }

  lemma DroppedKeepsTruth(v: View, history: int -> Database, useId: bool, user: string)
    requires IsTrue(v, history, useId)
    ensures OthersKept(v, Dropped(v, user), user) && IsTrue(Dropped(v, user), history, useId)
    ensures Get(Dropped(v, user).userStamps, user).None? && DataIn(Dropped(v, user), user) == NO_DATA
  {
    hide IsDataOf, GroupIsTrue;
    UserChangeKeepsTruth(v, Dropped(v, user), history, useId, user);
  }

  lemma EntryKeepsTruth(v: View, history: int -> Database, useId: bool, user: string, e: PasswdEntry)
    requires IsTrue(v, history, useId) && Get(v.userStamps, user).None?
    ensures OthersKept(v, WithEntry(v, user, e), user) && IsTrue(WithEntry(v, user, e), history, useId)
  {
    hide IsDataOf, GroupIsTrue;
    UserChangeKeepsTruth(v, WithEntry(v, user, e), history, useId, user);
  }

  lemma StampKeepsTruth(v: View, history: int -> Database, useId: bool, user: string, e: PasswdEntry, list: seq<int>,
                        seen: Sighting, t: int)
    requires IsTrue(v, history, useId) && v.lastStamp <= t && seen.entryAt <= seen.gidsAt <= t
    requires Passwd(history(seen.entryAt), user) == Some(e)
    requires GidsFor(history(seen.gidsAt), user, e.gid, useId) == Some(list)
    requires Get(v.uids, user) == Some(e.uid) && Get(v.gids, user) == Some(e.gid) && Get(v.homes, user) == Some(e.home)
    ensures OthersKept(v, Stamped(v, user, list, seen, t), user)
    ensures IsTrue(Stamped(v, user, list, seen, t), history, useId)
  {
    hide GroupIsTrue;
    UserChangeKeepsTruth(v, Stamped(v, user, list, seen, t), history, useId, user);
  }

  lemma OthersKeptTwice(v: View, v1: View, v2: View, user: string)
    requires OthersKept(v, v1, user) && OthersKept(v1, v2, user)
    ensures OthersKept(v, v2, user)
  {
    forall other | other != user ensures SameUser(v, v2, other) {
      assert SameUser(v, v1, other) && SameUser(v1, v2, other);
    }
    forall group ensures SameGroup(v, v2, group) {
      assert SameGroup(v, v1, group) && SameGroup(v1, v2, group);
    }
  }

  lemma WithEntryHolds(v: View, user: string, e: PasswdEntry)
    ensures var v' := WithEntry(v, user, e);
            && Get(v'.uids, user) == Some(e.uid) && Get(v'.gids, user) == Some(e.gid)
            && Get(v'.homes, user) == Some(e.home)
            && v'.userStamps == v.userStamps && v'.lastStamp == v.lastStamp
  {
  }

  /** Equal in what neither dropping nor storing a record changes. */
  predicate SameRest(v: View, v': View) {
    && v'.groups == v.groups && v'.groupStamps == v.groupStamps
    && v'.userSeen == v.userSeen && v'.groupSeen == v.groupSeen && v'.lastStamp == v.lastStamp
  }

  lemma WithEntryIs(v: View, v': View, user: string, e: PasswdEntry)
    requires v'.uids == v.uids[user := Some(e.uid)] && v'.gids == v.gids[user := Some(e.gid)]
    requires v'.homes == v.homes[user := Some(e.home)]
    requires v'.allGroups == v.allGroups && v'.userStamps == v.userStamps && SameRest(v, v')
    ensures v' == WithEntry(v, user, e)
  {
  }

  lemma DroppedIs(v: View, v': View, user: string)
    requires v'.uids == v.uids[user := None] && v'.gids == v.gids[user := None] && v'.homes == v.homes[user := None]
    requires v'.allGroups == v.allGroups[user := None] && v'.userStamps == v.userStamps[user := None]
    requires SameRest(v, v')
    ensures v' == Dropped(v, user)
  {
  }

  /** A refresh keeps the cache true and touches one user only; the user is then either unknown and
      was missing from the database, or holds what the database held. */
  lemma RefreshKeepsTruth(v: View, history: int -> Database, useId: bool, user: string, c: Clock)
    requires IsTrue(v, history, useId) && Readable(history, useId, user, c)
    requires v.lastStamp <= c.stamp && c.entryAt <= c.gidsAt <= c.stamp
    ensures var v' := Refreshed(v, history, useId, user, c);
            && IsTrue(v', history, useId) && OthersKept(v, v', user) && v'.lastStamp <= c.stamp
            && match Passwd(history(c.entryAt), user)
               case None => Get(v'.userStamps, user).None? && DataIn(v', user) == NO_DATA
               case Some(_) => Get(v'.userStamps, user) == Some(c.stamp) && user in v'.userSeen
                               && v'.userSeen[user] == Sighting(c.entryAt, c.gidsAt)
  {
    hide IsTrue, OthersKept, Dropped, WithEntry, DataIn;
    DroppedKeepsTruth(v, history, useId, user);
    DroppedStamp(v, user);
    match Passwd(history(c.entryAt), user)
    case None =>
    case Some(e) =>
      var v1 := Dropped(v, user);
      var v2 := WithEntry(v1, user, e);
      var list := GidsFor(history(c.gidsAt), user, e.gid, useId).value;
      EntryKeepsTruth(v1, history, useId, user, e);
      WithEntryHolds(v1, user, e);
      StampKeepsTruth(v2, history, useId, user, e, list, Sighting(c.entryAt, c.gidsAt), c.stamp);
      OthersKeptTwice(v, v1, v2, user);
      OthersKeptTwice(v, v2, Stamped(v2, user, list, Sighting(c.entryAt, c.gidsAt), c.stamp), user);
  }

  lemma DroppedStamp(v: View, user: string)
    ensures Dropped(v, user).lastStamp == v.lastStamp
  {
  }

  lemma InterruptionKeepsTruth(v: View, v': View, history: int -> Database, useId: bool, user: string)
    requires IsTrue(v, history, useId) && IsInterrupted(v, v', user)
    ensures IsTrue(v', history, useId) && OthersKept(v, v', user) && v'.lastStamp == v.lastStamp
    ensures Get(v'.userStamps, user).None?
  {
    hide IsTrue, OthersKept, DataIn;
    DroppedKeepsTruth(v, history, useId, user);
    if v' != Dropped(v, user) {
      var e :| v' == WithEntry(Dropped(v, user), user, e);
      EntryKeepsTruth(Dropped(v, user), history, useId, user, e);
      OthersKeptTwice(v, Dropped(v, user), v', user);
    }
  }

  lemma GroupDropKeepsTruth(v: View, history: int -> Database, useId: bool, group: string)
    requires IsTrue(v, history, useId)
    ensures IsTrue(GroupDropped(v, group), history, useId) && OtherGroupsKept(v, GroupDropped(v, group), group)
  {
    hide UserIsTrue;
    GroupChangeKeepsTruth(v, GroupDropped(v, group), history, useId, group);
  }

  lemma GroupStampKeepsTruth(v: View, history: int -> Database, useId: bool, group: string, g: GroupEntry,
                             at: int, t: int)
    requires IsTrue(v, history, useId) && v.lastStamp <= t && at <= t
    requires FindGroup(history(at).groups, group) == Some(g)
    ensures var v' := GroupStamped(v, group, g.gid, at, t);
            IsTrue(v', history, useId) && OtherGroupsKept(v, v', group)
  {
    hide UserIsTrue;
    GroupChangeKeepsTruth(v, GroupStamped(v, group, g.gid, at, t), history, useId, group);
  }

  lemma OtherGroupsKeptTwice(v: View, v1: View, v2: View, group: string)
    requires OtherGroupsKept(v, v1, group) && OtherGroupsKept(v1, v2, group)
    ensures OtherGroupsKept(v, v2, group)
  {
    hide DataIn;
    forall other | other != group ensures SameGroup(v, v2, other) {
      assert SameGroup(v, v1, other) && SameGroup(v1, v2, other);
    }
    forall user ensures SameUser(v, v2, user) {
      assert SameUser(v, v1, user) && SameUser(v1, v2, user);
    }
  }

  /** A refresh of a group keeps the cache true and touches that group only. */
  lemma GroupRefreshKeepsTruth(v: View, history: int -> Database, useId: bool, group: string, c: Clock)
    requires IsTrue(v, history, useId) && v.lastStamp <= c.stamp && c.entryAt <= c.stamp
    ensures var v' := GroupRefreshed(v, history, group, c);
            && IsTrue(v', history, useId) && OtherGroupsKept(v, v', group) && v'.lastStamp <= c.stamp
            && match FindGroup(history(c.entryAt).groups, group)
               case None => Get(v'.groupStamps, group).None? && Get(v'.groups, group).None?
               case Some(g) => Get(v'.groupStamps, group) == Some(c.stamp) && Get(v'.groups, group) == Some(g.gid)
                               && group in v'.groupSeen && v'.groupSeen[group] == c.entryAt
  {
    hide IsTrue, OtherGroupsKept;
    GroupDropKeepsTruth(v, history, useId, group);
    var v1 := GroupDropped(v, group);
    match FindGroup(history(c.entryAt).groups, group)
    case None =>
    case Some(g) =>
      GroupStampKeepsTruth(v1, history, useId, group, g, c.entryAt, c.stamp);
      OtherGroupsKeptTwice(v, v1, GroupStamped(v1, group, g.gid, c.entryAt, c.stamp), group);
  }
}
