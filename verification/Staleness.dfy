/** How old an answer of the user cache can be (lib/UserCache.py over any host). */
module Staleness {
  import opened Text
  import opened OsDatabase
  import opened CacheView

  /** The point from which a series of getter calls is looked at: what the cache held then, and when
      that was. */
  datatype Origin = Origin(history: int -> Database, useId: bool, ttl: nat, view: View, asked: int)

  ghost predicate IsProper(o: Origin) {
    IsTrue(o.view, o.history, o.useId) && o.view.lastStamp <= o.asked
  }

  /** The user's data read from the database at instants of the span. */
  ghost predicate FreshData(o: Origin, now: int, user: string, d: UserData) {
    exists at, gidsAt :: o.asked <= at <= gidsAt <= now && IsDataOf(o.history(at), o.history(gidsAt), o.useId, user, d)
  }

  ghost predicate MissingWithin(o: Origin, now: int, user: string) {
    exists at :: o.asked <= at <= now && Passwd(o.history(at), user).None?
  }

  /** What a getter called in the span from the origin to now may answer from: the entry of the origin
      if that had not expired there, data looked up in the span, or a failed look up in the span. As
      long as the origin's entry has not expired it is the only answer. */
  ghost predicate UserAnswer(o: Origin, now: int, user: string, d: UserData) {
    && (|| (IsCurrent(o.view, o.ttl, user, o.asked) && d == DataIn(o.view, user))
        || FreshData(o, now, user, d)
        || (d == NO_DATA && MissingWithin(o, now, user)))
    && (IsCurrent(o.view, o.ttl, user, now) ==> d == DataIn(o.view, user))
  }

  ghost predicate GroupAnswer(o: Origin, now: int, group: string, gid: int) {
    || (GroupIsCurrent(o.view, o.ttl, group, o.asked) && gid == OrMinusOne(Get(o.view.groups, group)))
    || (exists at :: o.asked <= at <= now && FindGroup(o.history(at).groups, group).Some?
                     && gid == FindGroup(o.history(at).groups, group).value.gid)
    || (gid == -1 && exists at :: o.asked <= at <= now && FindGroup(o.history(at).groups, group).None?)
  }

  lemma UserAnswerLasts(o: Origin, now: int, now': int, user: string, d: UserData)
    requires UserAnswer(o, now, user, d) && now <= now'
    ensures UserAnswer(o, now', user, d)
  {
    hide IsDataOf, DataIn;
  }

  lemma GroupAnswerLasts(o: Origin, now: int, now': int, group: string, gid: int)
    requires GroupAnswer(o, now, group, gid) && now <= now'
    ensures GroupAnswer(o, now', group, gid)
  {
  }

  /** At the origin the cache holds what was looked up at these instants, under a stamp that has not
      expired there. */
  ghost predicate IsCachedSince(o: Origin, user: string, at: int, gidsAt: int) {
    && Get(o.view.userStamps, user).Some? && user in o.view.userSeen
    && o.view.userSeen[user] == Sighting(at, gidsAt)
    && gidsAt <= Get(o.view.userStamps, user).value
    && o.asked <= Get(o.view.userStamps, user).value + o.ttl
  }

  /** What was looked up at these instants may be served in the span: since the origin, or cached there. */
  ghost predicate IsRecent(o: Origin, now: int, user: string, at: int, gidsAt: int) {
    at <= gidsAt <= now && (at >= o.asked || IsCachedSince(o, user, at, gidsAt))
  }

  ghost predicate GroupIsCachedSince(o: Origin, group: string, at: int) {
    && Get(o.view.groupStamps, group).Some? && group in o.view.groupSeen
    && o.view.groupSeen[group] == at <= Get(o.view.groupStamps, group).value
    && o.asked <= Get(o.view.groupStamps, group).value + o.ttl
  }

  /** Bounded staleness of everything a getter says about a user. An answer other than "unknown" is
      one record and one group list that the database held, looked up in this order: since the origin, or
      before a stamp that was at most the time to live old at the origin. A user is called unknown only
      if missing at an instant of the span. */
  lemma BoundedStaleness(o: Origin, now: int, user: string, d: UserData)
    requires IsProper(o) && o.asked <= now && UserAnswer(o, now, user, d)
    ensures d == NO_DATA ==> MissingWithin(o, now, user)
    ensures d != NO_DATA ==>
              exists at, gidsAt ::
                && IsRecent(o, now, user, at, gidsAt)
                && IsDataOf(o.history(at), o.history(gidsAt), o.useId, user, d)
                && IsGidList(o.history(gidsAt), o.useId, user, d.gid, d.gids)
  {
    hide IsGidList;
    assert UserIsTrue(o.view, o.history, o.useId, user);
    if IsCurrent(o.view, o.ttl, user, o.asked) && d == DataIn(o.view, user) {
      var s := o.view.userSeen[user];
      assert IsDataOf(o.history(s.entryAt), o.history(s.gidsAt), o.useId, user, d);
      assert IsRecent(o, now, user, s.entryAt, s.gidsAt);
      DataIsExact(o.history(s.entryAt), o.history(s.gidsAt), o.useId, user, d);
    } else if FreshData(o, now, user, d) {
      var at, gidsAt :| o.asked <= at <= gidsAt <= now && IsDataOf(o.history(at), o.history(gidsAt), o.useId, user, d);
      assert IsRecent(o, now, user, at, gidsAt);
      DataIsExact(o.history(at), o.history(gidsAt), o.useId, user, d);
    }
  }

  /** The same for group names. */
  lemma BoundedGroupStaleness(o: Origin, now: int, group: string, gid: int)
    requires IsProper(o) && o.asked <= now && GroupAnswer(o, now, group, gid)
    ensures || (gid == -1 && exists at :: o.asked <= at <= now && FindGroup(o.history(at).groups, group).None?)
            || exists at ::
                 && at <= now
                 && FindGroup(o.history(at).groups, group).Some?
                 && gid == FindGroup(o.history(at).groups, group).value.gid
                 && (at >= o.asked || GroupIsCachedSince(o, group, at))
  {
    assert GroupIsTrue(o.view, o.history, group);
    if GroupIsCurrent(o.view, o.ttl, group, o.asked) && gid == OrMinusOne(Get(o.view.groups, group)) {
      var at := o.view.groupSeen[group];
      assert FindGroup(o.history(at).groups, group).Some? && GroupIsCachedSince(o, group, at);
    }
  }

  // ---- following the cache through a series of calls

  /** Since the origin the user's entry is unchanged, or it has been refreshed or dropped, which takes
      an expired stamp. */
  ghost predicate UserFollows(o: Origin, v: View, now: int, user: string) {
    || SameUser(o.view, v, user)
    || (&& !IsCurrent(o.view, o.ttl, user, now)
        && (Get(v.userStamps, user).Some? ==> user in v.userSeen && v.userSeen[user].entryAt >= o.asked))
  }

  ghost predicate GroupFollows(o: Origin, v: View, group: string) {
    || SameGroup(o.view, v, group)
    || (Get(v.groupStamps, group).Some? ==> group in v.groupSeen && v.groupSeen[group] >= o.asked)
  }

  ghost predicate Follows(o: Origin, v: View, now: int) {
    && o.asked <= now && v.lastStamp <= now
    && IsTrue(v, o.history, o.useId)
    && (forall user :: UserFollows(o, v, now, user))
    && (forall group :: GroupFollows(o, v, group))
  }

  lemma OriginFollows(o: Origin)
    requires IsProper(o)
    ensures Follows(o, o.view, o.asked)
  {
  }

  lemma FollowsLater(o: Origin, v: View, now: int, now': int)
    requires Follows(o, v, now) && now <= now'
    ensures Follows(o, v, now')
  {
    hide SameUser, IsTrue;
    forall user ensures UserFollows(o, v, now', user) {
      assert UserFollows(o, v, now, user);
    }
  }

  lemma UserChangeFollows(o: Origin, v: View, now: int, v': View, now': int, user: string)
    requires Follows(o, v, now) && now <= now' && OthersKept(v, v', user)
    requires IsTrue(v', o.history, o.useId) && v'.lastStamp <= now' && UserFollows(o, v', now', user)
    ensures Follows(o, v', now')
  {
    hide IsTrue, DataIn;
    forall other ensures UserFollows(o, v', now', other) {
      if other != user {
        assert UserFollows(o, v, now, other) && SameUser(v, v', other);
      }
    }
    forall group ensures GroupFollows(o, v', group) {
      assert GroupFollows(o, v, group) && SameGroup(v, v', group);
    }
  }

  lemma GroupChangeFollows(o: Origin, v: View, now: int, v': View, now': int, group: string)
    requires Follows(o, v, now) && now <= now' && OtherGroupsKept(v, v', group)
    requires IsTrue(v', o.history, o.useId) && v'.lastStamp <= now' && GroupFollows(o, v', group)
    ensures Follows(o, v', now')
  {
    hide IsTrue, DataIn;
    forall other ensures UserFollows(o, v', now', other) {
      assert UserFollows(o, v, now, other) && SameUser(v, v', other);
    }
    forall other ensures GroupFollows(o, v', other) {
      if other != group {
        assert GroupFollows(o, v, other) && SameGroup(v, v', other);
      }
    }
  }

  /** An entry under a stamp that is current when it is asked for, in a cache that follows the origin,
      is an answer. */
  lemma CurrentIsAnswer(o: Origin, v: View, now: int, user: string, t: int)
    requires Follows(o, v, now) && now <= t && IsCurrent(v, o.ttl, user, t)
    ensures UserAnswer(o, now, user, DataIn(v, user))
  {
    hide IsDataOf, DataIn;
    assert UserFollows(o, v, now, user) && UserIsTrue(v, o.history, o.useId, user);
    if !SameUser(o.view, v, user) {
      var s := v.userSeen[user];
      assert IsDataOf(o.history(s.entryAt), o.history(s.gidsAt), o.useId, user, DataIn(v, user));
    }
  }

  /** One getter call: the cache still follows the origin, and what it then holds about the user is an
      answer. */
  lemma PreparedFollows(o: Origin, v: View, now: int, user: string, c: Clock, now': int)
    requires Follows(o, v, now) && WithinSpan(c, now, now')
    requires IsCurrent(v, o.ttl, user, c.checked) || Readable(o.history, o.useId, user, c)
    ensures var v' := Prepared(v, o.history, o.useId, o.ttl, user, c);
            Follows(o, v', now') && UserAnswer(o, now', user, DataIn(v', user))
  {
    hide IsDataOf, DataIn, Refreshed, IsTrue, Follows, UserAnswer;
    if IsCurrent(v, o.ttl, user, c.checked) {
      CurrentIsAnswer(o, v, now, user, c.checked);
      UserAnswerLasts(o, now, now', user, DataIn(v, user));
      FollowsLater(o, v, now, now');
    } else {
      RefreshFollows(o, v, now, user, c, now');
    }
  }

  lemma RefreshFollows(o: Origin, v: View, now: int, user: string, c: Clock, now': int)
    requires Follows(o, v, now) && WithinSpan(c, now, now') && Readable(o.history, o.useId, user, c)
    requires !IsCurrent(v, o.ttl, user, c.checked)
    ensures var v' := Refreshed(v, o.history, o.useId, user, c);
            Follows(o, v', now') && UserAnswer(o, now', user, DataIn(v', user))
  {
    hide IsDataOf, DataIn, IsTrue, Refreshed;
    var v' := Refreshed(v, o.history, o.useId, user, c);
    RefreshKeepsTruth(v, o.history, o.useId, user, c);
    assert UserFollows(o, v, now, user);
    UserChangeFollows(o, v, now, v', now', user);
    RefreshedData(v', o, user, c);
    UserAnswerLasts(o, c.gidsAt, now', user, DataIn(v', user));
  }

  lemma RefreshedData(v': View, o: Origin, user: string, c: Clock)
    requires IsTrue(v', o.history, o.useId)
    requires match Passwd(o.history(c.entryAt), user)
             case None => DataIn(v', user) == NO_DATA
             case Some(_) => Get(v'.userStamps, user) == Some(c.stamp) && user in v'.userSeen
                             && v'.userSeen[user] == Sighting(c.entryAt, c.gidsAt)
    requires o.asked <= c.entryAt <= c.gidsAt && !IsCurrent(o.view, o.ttl, user, c.gidsAt)
    ensures UserAnswer(o, c.gidsAt, user, DataIn(v', user))
  {
    hide IsDataOf, DataIn;
    assert UserIsTrue(v', o.history, o.useId, user);
  }

  lemma InterruptionFollows(o: Origin, v: View, now: int, v': View, user: string, checked: int, now': int)
    requires Follows(o, v, now) && now <= checked <= now' && !IsCurrent(v, o.ttl, user, checked)
    requires IsInterrupted(v, v', user)
    ensures Follows(o, v', now')
  {
    hide IsDataOf, DataIn, IsTrue;
    InterruptionKeepsTruth(v, v', o.history, o.useId, user);
    assert UserFollows(o, v, now, user);
    UserChangeFollows(o, v, now, v', now', user);
  }

  lemma CurrentGroupIsAnswer(o: Origin, v: View, now: int, group: string, t: int)
    requires Follows(o, v, now) && now <= t && GroupIsCurrent(v, o.ttl, group, t)
    ensures GroupAnswer(o, now, group, OrMinusOne(Get(v.groups, group)))
  {
    assert GroupFollows(o, v, group) && GroupIsTrue(v, o.history, group);
  }

  lemma GroupPreparedFollows(o: Origin, v: View, now: int, group: string, c: Clock, now': int)
    requires Follows(o, v, now) && WithinSpan(c, now, now')
    ensures var v' := GroupPrepared(v, o.history, o.ttl, group, c);
            Follows(o, v', now') && GroupAnswer(o, now', group, OrMinusOne(Get(v'.groups, group)))
  {
    hide IsTrue, GroupRefreshed, UserFollows;
    if GroupIsCurrent(v, o.ttl, group, c.checked) {
      CurrentGroupIsAnswer(o, v, now, group, c.checked);
      GroupAnswerLasts(o, now, now', group, OrMinusOne(Get(v.groups, group)));
      FollowsLater(o, v, now, now');
    } else {
      var v' := GroupRefreshed(v, o.history, group, c);
      GroupRefreshKeepsTruth(v, o.history, o.useId, group, c);
      GroupChangeFollows(o, v, now, v', now', group);
    }
  }

  lemma GroupDropFollows(o: Origin, v: View, now: int, group: string, now': int)
    requires Follows(o, v, now) && now <= now'
    ensures Follows(o, GroupDropped(v, group), now')
  {
    hide UserIsTrue, DataIn, SameUser;
    GroupDropKeepsTruth(v, o.history, o.useId, group);
    GroupChangeFollows(o, v, now, GroupDropped(v, group), now', group);
  }

  // ---- a later origin

  /** A later point of the same run, from which the rest of the calls can be looked at as well. */
  ghost predicate IsLater(o: Origin, o': Origin) {
    && o'.history == o.history && o'.useId == o.useId && o'.ttl == o.ttl
    && IsProper(o') && Follows(o, o'.view, o'.asked)
  }

  lemma UserAnswerFromLater(o: Origin, o': Origin, now: int, user: string, d: UserData)
    requires IsLater(o, o') && o'.asked <= now && UserAnswer(o', now, user, d)
    ensures UserAnswer(o, now, user, d)
  {
    hide IsDataOf, DataIn, IsTrue;
    assert UserFollows(o, o'.view, o'.asked, user);
    if IsCurrent(o'.view, o.ttl, user, o'.asked) && d == DataIn(o'.view, user) {
      CurrentIsAnswer(o, o'.view, o'.asked, user, o'.asked);
      UserAnswerLasts(o, o'.asked, now, user, d);
    }
  }

  lemma GroupAnswerFromLater(o: Origin, o': Origin, now: int, group: string, gid: int)
    requires IsLater(o, o') && o'.asked <= now && GroupAnswer(o', now, group, gid)
    ensures GroupAnswer(o, now, group, gid)
  {
    hide IsTrue, UserFollows;
    if GroupIsCurrent(o'.view, o.ttl, group, o'.asked) && gid == OrMinusOne(Get(o'.view.groups, group)) {
      CurrentGroupIsAnswer(o, o'.view, o'.asked, group, o'.asked);
      GroupAnswerLasts(o, o'.asked, now, group, gid);
    }
  }
}
