/** The cache of user and group data (class UserCache, lib/UserCache.py). */
module UserCache {
  import opened Text
  import opened OsDatabase
  import opened CacheView

  class UserCache {
    const host: Host
    const ttl: nat
    const useId: bool
    var allGroups: map<string, Option<seq<int>>>
    var uids: map<string, Option<int>>
    var gids: map<string, Option<int>>
    var homes: map<string, Option<string>>
    var groups: map<string, Option<int>>
    var userStamps: map<string, Option<int>>
    var groupStamps: map<string, Option<int>>
    ghost var userSeen: map<string, Sighting>
    ghost var groupSeen: map<string, int>
    ghost var lastStamp: int

    constructor (host: Host, ttl: nat, useId: bool)
      ensures Valid() && this.host == host && this.ttl == ttl && this.useId == useId
    {
      this.host, this.ttl, this.useId := host, ttl, useId;
      allGroups, uids, gids, homes, groups := map[], map[], map[], map[], map[];
      userStamps, groupStamps := map[], map[];
      userSeen, groupSeen, lastStamp := map[], map[], host.now;
    }

    /** The copy that a forked child works on. */
    constructor Copy(from: UserCache)
      requires from.Valid()
      ensures Valid() && host == from.host && ttl == from.ttl && useId == from.useId && View() == from.View()
    {
      host, ttl, useId := from.host, from.ttl, from.useId;
      allGroups, uids, gids, homes, groups := from.allGroups, from.uids, from.gids, from.homes, from.groups;
      userStamps, groupStamps := from.userStamps, from.groupStamps;
      userSeen, groupSeen, lastStamp := from.userSeen, from.groupSeen, from.lastStamp;
    }

    ghost function View(): View
      reads this
    {
      Snapshot(allGroups, uids, gids, homes, groups, userStamps, groupStamps, userSeen, groupSeen, lastStamp)
    }

    /** What the cache holds under a stamp was in the database. */
    ghost predicate Valid()
      reads this, host
    {
      IsTrue(View(), host.history, useId) && lastStamp <= host.now
    }

    /** The effect of a getter's preparation. It fails when a look up raises something other than
        KeyError; the user is then left without a stamp, so that the next call looks it up again. */
    twostate predicate UserCall(user: string, ok: bool, c: Clock)
      reads this, host
    {
      && Valid() && WithinSpan(c, old(host.now), host.now)
      && if ok
         then (IsCurrent(old(View()), ttl, user, c.checked) || Readable(host.history, useId, user, c))
              && View() == Prepared(old(View()), host.history, useId, ttl, user, c)
         else !IsCurrent(old(View()), ttl, user, c.checked) && IsInterrupted(old(View()), View(), user)
              && !host.Dependable()
    }

    twostate predicate GroupCall(group: string, ok: bool, c: Clock)
      reads this, host
    {
      && Valid() && WithinSpan(c, old(host.now), host.now)
      && if ok then View() == GroupPrepared(old(View()), host.history, ttl, group, c)
         else View() == GroupDropped(old(View()), group) && !host.Dependable()
    }

    method Expired(stamp: Option<int>) returns (expired: bool, ghost checked: int)
      modifies host
      ensures old(host.now) <= checked == host.now
      ensures expired <==> stamp.None? || stamp.value + ttl < checked
    {
      expired := stamp.None?;
      var t := host.Time();
      checked := t;
      if stamp.Some? {
        expired := stamp.value + ttl < t;
      }
    }

    /** The first half of update_user_info: everything known about the user is dropped. */
    method Forget(user: string)
      modifies `uids, `gids, `homes, `allGroups, `userStamps
      ensures View() == Dropped(old(View()), user)
    {
      hide Dropped;
      ghost var v := View();
      uids, gids, homes := uids[user := None], gids[user := None], homes[user := None];
      allGroups, userStamps := allGroups[user := None], userStamps[user := None];
      DroppedIs(v, View(), user);
    }

    method StoreEntry(user: string, e: PasswdEntry)
      modifies `uids, `gids, `homes
      ensures View() == WithEntry(old(View()), user, e)
    {
      hide WithEntry;
      ghost var v := View();
      uids, gids, homes := uids[user := Some(e.uid)], gids[user := Some(e.gid)], homes[user := Some(e.home)];
      WithEntryIs(v, View(), user, e);
    }

    method StoreGids(user: string, list: seq<int>, ghost seen: Sighting) returns (ghost t: int)
      modifies `allGroups, `userStamps, `userSeen, `lastStamp, host
      ensures old(host.now) <= t == host.now
      ensures View() == Stamped(old(View()), user, list, seen, t)
    {
      allGroups := allGroups[user := Some(list)];
      var now := host.Time();
      userStamps := userStamps[user := Some(now)];
      userSeen := userSeen[user := seen];
      lastStamp := now;
      t := now;
    }

    method UpdateUserInfo(user: string) returns (ok: bool, ghost c: Clock)
      requires Valid()
      modifies this, host
      ensures Valid() && WithinSpan(c, old(host.now), host.now) && c.checked == old(host.now)
      ensures ok ==>
                Readable(host.history, useId, user, c) && View() == Refreshed(old(View()), host.history, useId, user, c)
      ensures ok && Passwd(host.history(c.entryAt), user).Some? ==>
                IsGidList(host.history(c.gidsAt), useId, user, DataIn(View(), user).gid, DataIn(View(), user).gids)
      ensures !ok ==> IsInterrupted(old(View()), View(), user) && !host.Dependable()
    {
      hide IsTrue, OthersKept, DataIn, Dropped, WithEntry, Stamped, IsGidList;
      ghost var v, asked := View(), host.now;
      Forget(user);
      var entry, at := host.Getpwnam(user);
      c := Clock(asked, at, host.now, host.now);
      if entry.Missing? {
        RefreshKeepsTruth(v, host.history, useId, user, c);
        return true, c;
      }
      if entry.Error? {
        InterruptionKeepsTruth(v, View(), host.history, useId, user);
        return false, c;
      }
      var e := entry.value;
      StoreEntry(user, e);
      var list, gidsAt := host.GetGids(user, e.gid, useId);
      c := Clock(asked, at, gidsAt, host.now);
      if list.Error? {
        InterruptionKeepsTruth(v, View(), host.history, useId, user);
        return false, c;
      }
      ghost var t := StoreGids(user, list.value, Sighting(at, gidsAt));
      c := Clock(asked, at, gidsAt, t);
      RefreshKeepsTruth(v, host.history, useId, user, c);
      StoredListIsExact(View(), host.history, useId, user);
      ok := true;
    }

    method ForgetGroup(group: string)
      modifies `groups, `groupStamps
      ensures View() == GroupDropped(old(View()), group)
    {
      groups := groups[group := None];
      groupStamps := groupStamps[group := None];
    }

    method StoreGroup(group: string, gid: int, ghost at: int) returns (ghost t: int)
      modifies `groups, `groupStamps, `groupSeen, `lastStamp, host
      ensures old(host.now) <= t == host.now
      ensures View() == GroupStamped(old(View()), group, gid, at, t)
    {
      groups := groups[group := Some(gid)];
      var now := host.Time();
      groupStamps := groupStamps[group := Some(now)];
      groupSeen := groupSeen[group := at];
      lastStamp := now;
      t := now;
    }

    method UpdateGroupInfo(group: string) returns (ok: bool, ghost c: Clock)
      requires Valid()
      modifies this, host
      ensures Valid() && WithinSpan(c, old(host.now), host.now) && c.checked == old(host.now)
      ensures ok ==> View() == GroupRefreshed(old(View()), host.history, group, c)
      ensures !ok ==> View() == GroupDropped(old(View()), group) && !host.Dependable()
    {
      hide IsTrue, OtherGroupsKept, GroupDropped, GroupStamped;
      ghost var v, asked := View(), host.now;
      ForgetGroup(group);
      var entry, at := host.Getgrnam(group);
      c := Clock(asked, at, host.now, host.now);
      if entry.Missing? {
        GroupRefreshKeepsTruth(v, host.history, useId, group, c);
        return true, c;
      }
      if entry.Error? {
        GroupDropKeepsTruth(v, host.history, useId, group);
        assert View().lastStamp == v.lastStamp;
        return false, c;
      }
      ghost var t := StoreGroup(group, entry.value.gid, at);
      c := Clock(asked, at, t, t);
      GroupRefreshKeepsTruth(v, host.history, useId, group, c);
      ok := true;
    }

    method PrepareUsers(user: string) returns (ok: bool, ghost c: Clock)
      requires Valid()
      modifies this, host
      ensures UserCall(user, ok, c)
    {
      var expired;
      ghost var checked;
      expired, checked := Expired(Get(userStamps, user));
      c := Clock(checked, checked, checked, checked);
      ok := true;
      if expired {
        ok, c := UpdateUserInfo(user);
      }
    }

    method PrepareGroups(group: string) returns (ok: bool, ghost c: Clock)
      requires Valid()
      modifies this, host
      ensures GroupCall(group, ok, c)
    {
      var expired;
      ghost var checked;
      expired, checked := Expired(Get(groupStamps, group));
      c := Clock(checked, checked, checked, checked);
      ok := true;
      if expired {
        ok, c := UpdateGroupInfo(group);
      }
    }

    method GetUid(user: string) returns (r: Answer<int>, ghost c: Clock)
      requires Valid()
      modifies this, host
      ensures UserCall(user, r.Value?, c)
      ensures r.Value? ==> r.value == DataIn(View(), user).uid
    {
      var ok;
      var reason: string := *;
      ok, c := PrepareUsers(user);
      r := if ok then Value(OrMinusOne(Get(uids, user))) else Raised(reason);
    }

    method GetGid(user: string) returns (r: Answer<int>, ghost c: Clock)
      requires Valid()
      modifies this, host
      ensures UserCall(user, r.Value?, c)
      ensures r.Value? ==> r.value == DataIn(View(), user).gid
    {
      var ok;
      var reason: string := *;
      ok, c := PrepareUsers(user);
      r := if ok then Value(OrMinusOne(Get(gids, user))) else Raised(reason);
    }

    method GetGids(user: string) returns (r: Answer<seq<int>>, ghost c: Clock)
      requires Valid()
      modifies this, host
      ensures UserCall(user, r.Value?, c)
      ensures r.Value? ==> r.value == DataIn(View(), user).gids
      ensures r.Value? && Get(userStamps, user).Some? ==>
                && user in userSeen
                && IsGidList(host.history(userSeen[user].gidsAt), useId, user, DataIn(View(), user).gid, r.value)
    {
      hide IsTrue, IsGidList, Prepared, IsInterrupted, Readable;
      var ok;
      var reason: string := *;
      ok, c := PrepareUsers(user);
      r := if ok then Value(match Get(allGroups, user) case Some(gs) => gs case None => []) else Raised(reason);
      if ok && Get(userStamps, user).Some? {
        StoredListIsExact(View(), host.history, useId, user);
      }
    }

    method GetHome(user: string) returns (r: Answer<Option<string>>, ghost c: Clock)
      requires Valid()
      modifies this, host
      ensures UserCall(user, r.Value?, c)
      ensures r.Value? ==> r.value == DataIn(View(), user).home
    {
      var ok;
      var reason: string := *;
      ok, c := PrepareUsers(user);
      r := if ok then Value(Get(homes, user)) else Raised(reason);
    }

    method GetGroupGid(group: string) returns (r: Answer<int>, ghost c: Clock)
      requires Valid()
      modifies this, host
      ensures GroupCall(group, r.Value?, c)
      ensures r.Value? ==> r.value == OrMinusOne(Get(groups, group))
    {
      var ok;
      var reason: string := *;
      ok, c := PrepareGroups(group);
      r := if ok then Value(OrMinusOne(Get(groups, group))) else Raised(reason);
    }
  }
}
