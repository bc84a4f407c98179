/** The identity a request resolves to (become_user up to its first system call, lib/BecomeUser.py): over
    one database, and over a host whose database changes meanwhile. */
module Resolution {
  import opened Text
  import opened OsDatabase
  import opened CacheView
  import opened Staleness
  import opened Groups
  import opened Served

  datatype UserIds = UserIds(uid: int, gid: int, gids: seq<int>)

  /** The gids for a request over one database: the system's own choice, or the requested groups. */
  function ChosenGroups(db: Database, useId: bool, p: Policy, requested: seq<string>, user: string)
    : Answer<(int, seq<int>)>
    requires requested != []
  {
    if requested[0] == "NONE" then Value((GidOf(db, user), GidsOf(db, useId, user)))
    else
      match PrimaryGroup(db, useId, p, requested[0], user)
      case Raised(e) => Raised(e)
      case Value(primary) =>
        match SupplementaryGroups(db, useId, p, requested, primary, user)
        case Raised(e) => Raised(e)
        case Value(gids) => Value((primary, gids))
  }

  function UnknownUser(user: string): string {
    "Attempted to run a task for an unknown user " + user
  }

  function RootUser(user: string): string {
    "Attempted to run a command as root " + user
  }

  /** What become_user decides over one database before it touches the process: the ids to take on,
      or the exception. */
  function ResolvedIds(db: Database, useId: bool, p: Policy, requested: seq<string>, user: string): Answer<UserIds>
    requires requested != []
  {
    var uid := UidOf(db, user);
    if uid == -1 then Raised(UnknownUser(user))
    else if uid == 0 then Raised(RootUser(user))
    else
      match ChosenGroups(db, useId, p, requested, user)
      case Raised(e) => Raised(e)
      case Value(chosen) => Value(UserIds(uid, chosen.0, chosen.1))
  }

  /** Over one database: a request is refused exactly for an unknown user, for root, or, in strict mode and
      unless it leaves the choice to the system, for a name that is invalid. Otherwise the uid and the
      gids are the user's own, or those that the names stand for with the primary one first. */
  lemma ResolvedIsExact(db: Database, useId: bool, p: Policy, requested: seq<string>, user: string)
    requires requested != []
    ensures ResolvedIds(db, useId, p, requested, user).Raised? <==>
              || Passwd(db, user).None? || UidOf(db, user) in {-1, 0}
              || (p.failOnInvalid && requested[0] != "NONE"
                  && exists name :: name in requested && Invalid(db, useId, p, user, name))
    ensures ResolvedIds(db, useId, p, requested, user).Value? ==>
              var ids := ResolvedIds(db, useId, p, requested, user).value;
              && ids.uid == Passwd(db, user).value.uid
              && if requested[0] == "NONE" then ids.gid == GidOf(db, user) && ids.gids == GidsOf(db, useId, user)
                 else
                   && ids.gid == (if requested[0] == DEFAULT_GID || Invalid(db, useId, p, user, requested[0])
                                  then GidOf(db, user) else GroupGidOf(db, requested[0]))
                   && [ids.gid] <= ids.gids && NoDuplicates(ids.gids)
                   && forall g :: g in ids.gids <==> g == ids.gid || StandsFor(db, useId, user, requested, g)
  {
    hide PrimaryGroup, SupplementaryGroups, Invalid, StandsFor, NoDuplicates;
    PrimaryGroupIsExact(db, useId, p, requested[0], user);
    var primary := PrimaryGroup(db, useId, p, requested[0], user);
    assert requested[0] in requested;
    if primary.Value? {
      SupplementaryGroupsAreExact(db, useId, p, requested, primary.value, user);
    }
  }

  /** The identity come by over any host. The uid was answered between the origin and a midway point,
      when the user's entry had just been prepared, and groups and home between that point and now. */
  ghost predicate Resolved(o: Origin, midway: Origin, now: int, p: Policy, requested: seq<string>, user: string,
                           ids: UserIds, home: string)
  {
    && IsProper(o) && IsLater(o, midway) && midway.asked <= now
    && ids.uid != -1 && ids.uid != 0
    && UserAnswer(o, midway.asked, user, DataIn(midway.view, user)) && ids.uid == DataIn(midway.view, user).uid
    && ChosenServed(midway, now, p, requested, user, ids.gid, ids.gids)
    && HomeServed(midway, now, user, home)
  }

  lemma UidWasHeld(o: Origin, now: int, user: string, d: UserData)
    requires IsProper(o) && o.asked <= now && UserAnswer(o, now, user, d) && d.uid != -1
    ensures exists at, gidsAt ::
              && IsRecent(o, now, user, at, gidsAt)
              && Passwd(o.history(at), user).Some? && Passwd(o.history(at), user).value.uid == d.uid
  {
    BoundedStaleness(o, now, user, d);
    hide IsProper, UserAnswer, IsRecent;
    var at, gidsAt :| IsRecent(o, now, user, at, gidsAt)
                      && IsDataOf(o.history(at), o.history(gidsAt), o.useId, user, d);
    assert Passwd(o.history(at), user).value.uid == d.uid;
  }

  /** The same seen from the origin alone: uid, groups and home are answers since the origin, and the
      uid was assigned to the user in a record looked up since then or cached under a stamp that had
      not expired at the origin. */
  lemma ResolvedSinceOrigin(o: Origin, midway: Origin, now: int, p: Policy, requested: seq<string>, user: string,
                            ids: UserIds, home: string)
    requires Resolved(o, midway, now, p, requested, user, ids, home)
    ensures ChosenServed(o, now, p, requested, user, ids.gid, ids.gids) && HomeServed(o, now, user, home)
    ensures exists at, gidsAt ::
              && IsRecent(o, now, user, at, gidsAt)
              && Passwd(o.history(at), user).Some? && Passwd(o.history(at), user).value.uid == ids.uid
  {
    assert o.asked <= midway.asked;
    hide IsProper, IsLater, UserAnswer, ChosenServed, HomeServed, DataIn, IsRecent;
    LaterWidens(o, midway.asked, now);
    UidWasHeld(o, now, user, DataIn(midway.view, user));
    EarlierOriginWidens(o, midway, now);
    ChosenWidens(midway, now, o, now, p, requested, user, ids.gid, ids.gids);
    HomeWidens(midway, now, o, now, user, home);
  }

  /** The database held the gid as one of the user's own, or it is the mark for a missing user, which no
      system call accepts. */
  ghost predicate OwnHeldOrMissing(o: Origin, now: int, user: string, gid: int) {
    OwnHeld(o, now, user, gid) || (gid == -1 && MissingWithin(o, now, user))
  }

  /** Over any host: with group enforcement the database held the primary gid as one of the user's own,
      at an instant no older than the time to live allows, and in strict mode every gid; so it is under
      any policy for a request that names no groups. A gid of -1 stands for a user who went missing. */
  lemma IdsWereHeld(o: Origin, midway: Origin, now: int, p: Policy, requested: seq<string>, user: string,
                    ids: UserIds, home: string)
    requires Resolved(o, midway, now, p, requested, user, ids, home)
    ensures p.enforceOsGids || requested[0] == "NONE" ==> OwnHeldOrMissing(o, now, user, ids.gid)
    ensures (p.enforceOsGids && p.failOnInvalid) || requested[0] == "NONE" ==>
              forall g :: g in ids.gids ==> OwnHeldOrMissing(o, now, user, g)
  {
    ResolvedSinceOrigin(o, midway, now, p, requested, user, ids, home);
    hide IsProper, UserAnswer, ChosenServed, HomeServed, DataIn, OwnServed, OwnHeld;
    EnforcedIsOwn(o, now, p, requested, user, ids.gid, ids.gids);
    forall g | OwnServed(o, now, user, g) ensures OwnHeldOrMissing(o, now, user, g) {
      OwnWasHeld(o, now, user, g);
    }
  }

  /** The identity is of one record and the group list read with it: uid, home and, unless another group
      is asked for, the gids. */
  predicate IsOfRecord(d: UserData, p: Policy, requested: seq<string>, ids: UserIds, home: string)
    requires requested != []
  {
    && ids.uid == d.uid && Some(home) == d.home
    && (requested[0] == "NONE" ==> ids.gid == d.gid && ids.gids == d.gids)
    && (requested[0] == DEFAULT_GID ==>
          && ids.gid == d.gid && (forall g :: g in d.gids ==> g in ids.gids)
          && ((forall name :: name in requested ==> name == DEFAULT_GID) ==>
                forall g :: g in ids.gids ==> g == d.gid || g in d.gids))
    && (p.enforceOsGids ==> ids.gid == d.gid || ids.gid in d.gids)
    && (p.enforceOsGids && p.failOnInvalid ==> forall g :: g in ids.gids ==> g == d.gid || g in d.gids)
  }

  /** If the user's entry, as prepared for the uid, has still not expired in the end, the whole identity
      is of that one record. An entry that had not expired at the origin and has not expired in the end
      is that entry. */
  lemma OneRecord(o: Origin, midway: Origin, now: int, p: Policy, requested: seq<string>, user: string, ids: UserIds,
                  home: string)
    requires Resolved(o, midway, now, p, requested, user, ids, home)
    ensures IsCurrent(o.view, o.ttl, user, now) ==>
              IsCurrent(midway.view, o.ttl, user, now) && DataIn(midway.view, user) == DataIn(o.view, user)
    ensures IsCurrent(midway.view, o.ttl, user, now) ==>
              var d := DataIn(midway.view, user);
              && IsOfRecord(d, p, requested, ids, home)
              && exists at, gidsAt ::
                   at <= gidsAt <= now && IsDataOf(o.history(at), o.history(gidsAt), o.useId, user, d)
  {
    hide DataIn, IsDataOf, SupplementaryServed, IsTrue;
    assert UserFollows(o, midway.view, midway.asked, user);
    if IsCurrent(midway.view, o.ttl, user, now) {
      var d := DataIn(midway.view, user);
      assert UserIsTrue(midway.view, o.history, o.useId, user) by { IsTrueOf(midway.view, o.history, o.useId, user); }
      var s := midway.view.userSeen[user];
      assert IsDataOf(o.history(s.entryAt), o.history(s.gidsAt), o.useId, user, d);
      if requested[0] == DEFAULT_GID {
        DefaultListIsCurrent(midway, now, p, requested, user, ids);
      }
      if p.enforceOsGids && p.failOnInvalid {
        EnforcedIsOwn(midway, now, p, requested, user, ids.gid, ids.gids);
      }
    }
  }

  lemma DefaultListIsCurrent(o: Origin, now: int, p: Policy, requested: seq<string>, user: string, ids: UserIds)
    requires ChosenServed(o, now, p, requested, user, ids.gid, ids.gids) && requested[0] == DEFAULT_GID
    requires IsCurrent(o.view, o.ttl, user, now)
    ensures var d := DataIn(o.view, user);
            && ids.gid == d.gid && (forall g :: g in d.gids ==> g in ids.gids)
            && ((forall name :: name in requested ==> name == DEFAULT_GID) ==>
                  forall g :: g in ids.gids ==> g == d.gid || g in d.gids)
  {
    hide DataIn, IsDataOf, GroupAnswer, IsCurrent;
    var d := DataIn(o.view, user);
    assert |"NONE"| < |DEFAULT_GID|;
    assert Covered(o, now, p, requested[0], user, ids.gids);
    forall g | g in ids.gids && forall name :: name in requested ==> name == DEFAULT_GID
      ensures g == d.gid || g in d.gids
    {
      if g != ids.gid {
        assert Sourced(o, now, p, requested, user, g);
      }
    }
  }

  lemma IsTrueOf(v: View, history: int -> Database, useId: bool, user: string)
    requires IsTrue(v, history, useId)
    ensures UserIsTrue(v, history, useId, user)
  {
  }
}
