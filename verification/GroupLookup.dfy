/** Choosing groups through the cache (lib/BecomeUser.py, first half), over any host. */
module GroupLookup {
  import opened OsDatabase
  import opened CacheView
  import opened Staleness
  import opened UserCache
  import opened Groups
  import opened Served

  /** The present as an origin. */
  ghost function OriginOf(cache: UserCache): Origin
    reads cache, cache.host
  {
    Origin(cache.host.history, cache.useId, cache.ttl, cache.View(), cache.host.now)
  }

  /** The cache has come from the origin by getter calls. */
  ghost predicate Tracks(o: Origin, cache: UserCache)
    reads cache, cache.host
  {
    && cache.Valid() && IsProper(o)
    && o.history == cache.host.history && o.useId == cache.useId && o.ttl == cache.ttl
    && Follows(o, cache.View(), cache.host.now)
  }

  ghost function StableDb(cache: UserCache): Database {
    cache.host.history(0)
  }

  /** A database that does not change and holds no unparsable group list. */
  ghost predicate IsConstant(history: int -> Database) {
    (forall t :: history(t) == history(0)) && (forall user :: IdOf(history(0), user) != Garbled)
  }

  /** On a host whose database does not change, every answer is the database's. */
  lemma ConstantAnswer(o: Origin, now: int, user: string, d: UserData)
    requires IsProper(o) && UserAnswer(o, now, user, d) && IsConstant(o.history)
    ensures var db := o.history(0);
            && d.uid == UidOf(db, user) && d.gid == GidOf(db, user) && d.gids == GidsOf(db, o.useId, user)
            && d.home == HomeOf(db, user)
  {
    assert UserIsTrue(o.view, o.history, o.useId, user);
  }

  lemma ConstantGroupAnswer(o: Origin, now: int, group: string, gid: int)
    requires IsProper(o) && GroupAnswer(o, now, group, gid) && IsConstant(o.history)
    ensures gid == GroupGidOf(o.history(0), group)
  {
    assert GroupIsTrue(o.view, o.history, group);
  }

  /** What a getter call does for a cache that tracks an origin. */
  lemma CallTracks(o: Origin, v: View, now: int, user: string, c: Clock, v': View, now': int)
    requires IsProper(o) && Follows(o, v, now) && WithinSpan(c, now, now')
    requires IsCurrent(v, o.ttl, user, c.checked) || Readable(o.history, o.useId, user, c)
    requires v' == Prepared(v, o.history, o.useId, o.ttl, user, c)
    ensures Follows(o, v', now') && UserAnswer(o, now', user, DataIn(v', user))
    ensures IsConstant(o.history) ==>
              var db := o.history(0);
              DataIn(v', user)
              == UserData(UidOf(db, user), GidOf(db, user), HomeOf(db, user), GidsOf(db, o.useId, user))
  {
    hide Follows, UserAnswer, IsProper, Prepared, Readable, DataIn, IsConstant;
    PreparedFollows(o, v, now, user, c, now');
    if IsConstant(o.history) {
      ConstantAnswer(o, now', user, DataIn(v', user));
    }
  }

  lemma GroupCallTracks(o: Origin, v: View, now: int, group: string, c: Clock, v': View, now': int)
    requires IsProper(o) && Follows(o, v, now) && WithinSpan(c, now, now')
    requires v' == GroupPrepared(v, o.history, o.ttl, group, c)
    ensures Follows(o, v', now') && GroupAnswer(o, now', group, OrMinusOne(Get(v'.groups, group)))
    ensures IsConstant(o.history) ==> OrMinusOne(Get(v'.groups, group)) == GroupGidOf(o.history(0), group)
  {
    hide Follows, GroupAnswer, IsProper, GroupPrepared, IsConstant;
    GroupPreparedFollows(o, v, now, group, c, now');
    if IsConstant(o.history) {
      ConstantGroupAnswer(o, now', group, OrMinusOne(Get(v'.groups, group)));
    }
  }

  method UserGid(user: string, cache: UserCache, ghost o: Origin) returns (r: Answer<int>)
    requires Tracks(o, cache)
    modifies cache, cache.host
    ensures Tracks(o, cache) && cache.host.now >= old(cache.host.now)
    ensures r.Value? ==> DefaultServed(o, cache.host.now, user, r.value)
    ensures cache.host.Stable() ==> r == Value(GidOf(StableDb(cache), user))
    ensures cache.host.Dependable() ==> r.Value?
  {
    hide Follows, UserAnswer, IsProper, IsTrue, Prepared, Readable, DataIn, IsInterrupted;
    ghost var v, now := cache.View(), cache.host.now;
    ghost var c;
    r, c := cache.GetGid(user);
    if r.Value? {
      CallTracks(o, v, now, user, c, cache.View(), cache.host.now);
    } else {
      InterruptionFollows(o, v, now, cache.View(), user, c.checked, cache.host.now);
    }
  }

  method UserGids(user: string, cache: UserCache, ghost o: Origin) returns (r: Answer<seq<int>>, ghost d: UserData)
    requires Tracks(o, cache)
    modifies cache, cache.host
    ensures Tracks(o, cache) && cache.host.now >= old(cache.host.now)
    ensures r.Value? ==> UserAnswer(o, cache.host.now, user, d) && r.value == d.gids
    ensures cache.host.Stable() ==> r == Value(GidsOf(StableDb(cache), cache.useId, user))
    ensures cache.host.Dependable() ==> r.Value?
  {
    hide Follows, UserAnswer, IsProper, IsTrue, Prepared, Readable, DataIn, IsInterrupted;
    ghost var v, now := cache.View(), cache.host.now;
    ghost var c;
    r, c := cache.GetGids(user);
    d := DataIn(cache.View(), user);
    if r.Value? {
      CallTracks(o, v, now, user, c, cache.View(), cache.host.now);
    } else {
      InterruptionFollows(o, v, now, cache.View(), user, c.checked, cache.host.now);
    }
  }

  method GroupGid(group: string, cache: UserCache, ghost o: Origin) returns (r: Answer<int>)
    requires Tracks(o, cache)
    modifies cache, cache.host
    ensures Tracks(o, cache) && cache.host.now >= old(cache.host.now)
    ensures r.Value? ==> GroupAnswer(o, cache.host.now, group, r.value)
    ensures cache.host.Stable() ==> r == Value(GroupGidOf(StableDb(cache), group))
    ensures cache.host.Dependable() ==> r.Value?
  {
    hide Follows, GroupAnswer, IsProper, IsTrue, GroupPrepared, GroupDropped;
    ghost var v, now := cache.View(), cache.host.now;
    ghost var c;
    r, c := cache.GetGroupGid(group);
    if r.Value? {
      GroupCallTracks(o, v, now, group, c, cache.View(), cache.host.now);
    } else {
      GroupDropFollows(o, v, now, group, cache.host.now);
    }
  }

  method CheckMembership(gid: int, user: string, p: Policy, cache: UserCache, ghost o: Origin) returns (r: Answer<bool>)
    requires Tracks(o, cache)
    modifies cache, cache.host
    ensures Tracks(o, cache) && cache.host.now >= old(cache.host.now)
    ensures r.Value? ==> MembershipServed(o, cache.host.now, p, user, gid, r.value)
    ensures cache.host.Stable() ==> r == Value(Accepts(StableDb(cache), cache.useId, p, gid, user))
    ensures cache.host.Dependable() ==> r.Value?
  {
    hide Tracks, UserAnswer;
    if !p.enforceOsGids {
      return Value(true);
    }
    var own := UserGid(user, cache, o);
    if own.Raised? {
      return Raised(own.reason);
    }
    if gid == own.value {
      return Value(true);
    }
    ghost var d :| UserAnswer(o, cache.host.now, user, d) && own.value == d.gid;
    ghost var now := cache.host.now;
    var all;
    ghost var d';
    all, d' := UserGids(user, cache, o);
    if all.Raised? {
      return Raised(all.reason);
    }
    UserAnswerLasts(o, now, cache.host.now, user, d);
    r := Value(gid in all.value);
  }

  method GetPrimaryGroup(primary: string, user: string, p: Policy, cache: UserCache, ghost o: Origin)
    returns (r: Answer<int>)
    requires Tracks(o, cache)
    modifies cache, cache.host
    ensures Tracks(o, cache) && cache.host.now >= old(cache.host.now)
    ensures r.Value? ==> PrimaryServed(o, cache.host.now, p, primary, user, r.value)
    ensures r.Raised? && cache.host.Dependable() ==> RefusalServed(o, cache.host.now, p, [primary], user)
    ensures cache.host.Stable() ==> r == PrimaryGroup(StableDb(cache), cache.useId, p, primary, user)
  {
    hide Tracks, UserAnswer, GroupAnswer, DefaultServed, OwnServed, DisownedServed, MembershipServed;
    if primary == DEFAULT_GID {
      r := UserGid(user, cache, o);
      return;
    }
    r := GroupGid(primary, cache, o);
    if r.Raised? {
      return;
    }
    ghost var named, t1 := r.value, cache.host.now;
    if r.value == -1 {
      if p.failOnInvalid {
        assert primary in [primary] && RejectedServed(o, cache.host.now, p, primary, user);
        return Raised(UnknownPrimary(primary));
      }
      r := UserGid(user, cache, o);
      if r.Raised? {
        return;
      }
    }
    ghost var gid, t2 := r.value, cache.host.now;
    var member := CheckMembership(r.value, user, p, cache, o);
    if member.Raised? {
      return Raised(member.reason);
    }
    ghost var t3 := cache.host.now;
    if !member.value {
      if p.failOnInvalid {
        NotAMemberIsServed(o, t1, t3, p, primary, user, gid);
        assert primary in [primary];
        return Raised(NotAMember(user, primary));
      }
      r := UserGid(user, cache, o);
      if r.Raised? {
        return;
      }
    }
    PrimaryIsServed(o, p, primary, user, named, gid, t1, t2, member.value, t3, r.value, cache.host.now);
  }

  lemma NotAMemberIsServed(o: Origin, t: int, now: int, p: Policy, name: string, user: string, gid: int)
    requires t <= now && GroupAnswer(o, t, name, gid) && MembershipServed(o, now, p, user, gid, false)
    ensures RejectedServed(o, now, p, name, user)
  {
    hide UserAnswer, GroupAnswer;
    GroupAnswerLasts(o, t, now, name, gid);
  }

  /** The steps of get_primary_group for a named group: the group's gid, the default if that is
      unknown, the membership check, and the default if that failed. */
  lemma PrimaryIsServed(o: Origin, p: Policy, primary: string, user: string, named: int, gid: int, t1: int, t2: int,
                        member: bool, t3: int, final: int, now: int)
    requires primary != DEFAULT_GID && t1 <= t2 <= t3 <= now
    requires GroupAnswer(o, t1, primary, named)
    requires if named == -1 then !p.failOnInvalid && DefaultServed(o, t2, user, gid) else gid == named
    requires MembershipServed(o, t3, p, user, gid, member)
    requires if member then final == gid else !p.failOnInvalid && DefaultServed(o, now, user, final)
    ensures PrimaryServed(o, now, p, primary, user, final)
  {
    hide UserAnswer, GroupAnswer, DefaultServed, OwnServed, DisownedServed;
    GroupAnswerLasts(o, t1, now, primary, named);
    LaterWidens(o, t3, now);
    MembershipWidens(o, t3, o, now, p, user, gid, member);
    LaterWidens(o, t2, now);
    OwnWidens(o, t2, o, now, user, gid);
  }

  method GetSupplementaryGroups(names: seq<string>, primary: int, user: string, p: Policy, cache: UserCache,
                                ghost o: Origin)
    returns (r: Answer<seq<int>>)
    requires Tracks(o, cache)
    modifies cache, cache.host
    ensures Tracks(o, cache) && cache.host.now >= old(cache.host.now)
    ensures r.Value? ==> SupplementaryServed(o, cache.host.now, p, names, primary, user, r.value)
    ensures r.Raised? && cache.host.Dependable() ==> RefusalServed(o, cache.host.now, p, names, user)
    ensures cache.host.Stable() ==>
              r == SupplementaryGroups(StableDb(cache), cache.useId, p, names, primary, user)
  {
    hide Tracks, UserAnswer, GroupAnswer, SupplementaryServed, NamedServed, DisownedServed;
    ghost var db := StableDb(cache);
    var supGids := [primary];
    var addedDefault := false;
    NothingServed(o, cache.host.now, p, primary, user);
    for i := 0 to |names|
      invariant Tracks(o, cache) && cache.host.now >= old(cache.host.now)
      invariant SupplementaryServed(o, cache.host.now, p, names[..i], primary, user, supGids)
      invariant addedDefault <==> DEFAULT_GID in names[..i]
      invariant cache.host.Stable() ==>
                  SupplementaryGroups(db, cache.useId, p, names, primary, user)
                  == Collect(db, cache.useId, p, names[i..], user, supGids, addedDefault)
    {
      var g := names[i];
      ghost var t, out := cache.host.now, supGids;
      assert names[i..][0] == g && names[i..][1..] == names[i + 1..];
      assert names[..i + 1] == names[..i] + [g];
      if g == DEFAULT_GID {
        if !addedDefault {
          addedDefault := true;
          var defaults;
          ghost var d;
          defaults, d := UserGids(user, cache, o);
          if defaults.Raised? {
            return Raised(defaults.reason);
          }
          supGids := InsertAll(supGids, defaults.value);
          ListIsServed(o, t, cache.host.now, p, names[..i], primary, user, out, d);
        } else {
          SameNameServed(o, t, p, names[..i], g, primary, user, out);
        }
      } else {
        var gid := GroupGid(g, cache, o);
        if gid.Raised? {
          return Raised(gid.reason);
        }
        if gid.value == -1 {
          if p.failOnInvalid {
            assert g in names && RejectedServed(o, cache.host.now, p, g, user);
            return Raised(UnknownSupplementary(g));
          }
          UnknownIsServed(o, t, cache.host.now, p, names[..i], g, primary, user, out);
          continue;
        }
        ghost var t1 := cache.host.now;
        var member := CheckMembership(gid.value, user, p, cache, o);
        if member.Raised? {
          return Raised(member.reason);
        }
        if !member.value && p.failOnInvalid {
          NotAMemberIsServed(o, t1, cache.host.now, p, g, user, gid.value);
          assert g in names;
          return Raised(NotAMember(user, g));
        }
        supGids := Insert(supGids, gid.value);
        GroupIsServed(o, t, t1, cache.host.now, p, names[..i], g, primary, user, out, gid.value, member.value);
      }
    }
    assert names[..|names|] == names;
    r := Value(supGids);
  }

  lemma NothingServed(o: Origin, now: int, p: Policy, primary: int, user: string)
    ensures SupplementaryServed(o, now, p, [], primary, user, [primary])
  {
  }

  lemma ListIsServed(o: Origin, t: int, now: int, p: Policy, names: seq<string>, primary: int, user: string,
                     out: seq<int>, d: UserData)
    requires SupplementaryServed(o, t, p, names, primary, user, out) && t <= now && UserAnswer(o, now, user, d)
    ensures SupplementaryServed(o, now, p, names + [DEFAULT_GID], primary, user, InsertAll(out, d.gids))
  {
    hide UserAnswer, GroupAnswer;
    InsertAllIs(out, d.gids);
    ServesOneMore(o, t, now, p, names, DEFAULT_GID, primary, user, out, InsertAll(out, d.gids));
  }

  lemma SameNameServed(o: Origin, now: int, p: Policy, names: seq<string>, name: string, primary: int, user: string,
                       out: seq<int>)
    requires SupplementaryServed(o, now, p, names, primary, user, out) && name in names
    ensures SupplementaryServed(o, now, p, names + [name], primary, user, out)
  {
    hide UserAnswer, GroupAnswer, Sourced;
    ServesOneMore(o, now, now, p, names, name, primary, user, out, out);
  }

  lemma UnknownIsServed(o: Origin, t: int, now: int, p: Policy, names: seq<string>, name: string, primary: int,
                        user: string, out: seq<int>)
    requires SupplementaryServed(o, t, p, names, primary, user, out) && t <= now
    requires name != DEFAULT_GID && GroupAnswer(o, now, name, -1) && !p.failOnInvalid
    ensures SupplementaryServed(o, now, p, names + [name], primary, user, out)
  {
    hide UserAnswer, GroupAnswer, Sourced;
    ServesOneMore(o, t, now, p, names, name, primary, user, out, out);
  }

  lemma GroupIsServed(o: Origin, t: int, t1: int, now: int, p: Policy, names: seq<string>, name: string, primary: int,
                      user: string, out: seq<int>, gid: int, member: bool)
    requires SupplementaryServed(o, t, p, names, primary, user, out) && t <= t1 <= now
    requires name != DEFAULT_GID && gid != -1 && GroupAnswer(o, t1, name, gid)
    requires MembershipServed(o, now, p, user, gid, member) && (p.failOnInvalid ==> member)
    ensures SupplementaryServed(o, now, p, names + [name], primary, user, Insert(out, gid))
  {
    hide UserAnswer, GroupAnswer;
    GroupAnswerLasts(o, t1, now, name, gid);
    assert name in [name];
    ServesOneMore(o, t, now, p, names, name, primary, user, out, Insert(out, gid));
  }
}
