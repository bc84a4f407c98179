/** Which ids a request may be given over a host whose database changes while it is served: the
    relations that the choice of groups in lib/BecomeUser.py keeps, answer by answer. */
module Served {
  import opened Text
  import opened OsDatabase
  import opened CacheView
  import opened Staleness
  import opened Groups

  /** The user's default gid, as answered in the span. */
  ghost predicate DefaultServed(o: Origin, now: int, user: string, gid: int) {
    exists d :: UserAnswer(o, now, user, d) && gid == d.gid
  }

  /** One of the user's own gids, as answered in the span. */
  ghost predicate OwnServed(o: Origin, now: int, user: string, gid: int) {
    exists d :: UserAnswer(o, now, user, d) && (gid == d.gid || gid in d.gids)
  }

  ghost predicate GidsServed(o: Origin, now: int, user: string, gids: seq<int>) {
    exists d :: UserAnswer(o, now, user, d) && gids == d.gids
  }

  ghost predicate HomeServed(o: Origin, now: int, user: string, home: string) {
    exists d :: UserAnswer(o, now, user, d) && d.home == Some(home)
  }

  /** A gid that was found neither to be the user's default nor in the user's list. */
  ghost predicate DisownedServed(o: Origin, now: int, user: string, gid: int) {
    exists d, d' :: UserAnswer(o, now, user, d) && UserAnswer(o, now, user, d') && gid != d.gid && gid !in d'.gids
  }

  /** What the membership check said of a gid. */
  ghost predicate MembershipServed(o: Origin, now: int, p: Policy, user: string, gid: int, member: bool) {
    if member then p.enforceOsGids ==> OwnServed(o, now, user, gid)
    else p.enforceOsGids && DisownedServed(o, now, user, gid)
  }

  /** The gid of the named group, accepted for the user as the policy demands. */
  ghost predicate NamedServed(o: Origin, now: int, p: Policy, name: string, user: string, gid: int) {
    gid != -1 && GroupAnswer(o, now, name, gid) && (p.enforceOsGids ==> OwnServed(o, now, user, gid))
  }

  ghost predicate RejectedServed(o: Origin, now: int, p: Policy, name: string, user: string) {
    || GroupAnswer(o, now, name, -1)
    || (p.enforceOsGids && exists gid :: GroupAnswer(o, now, name, gid) && DisownedServed(o, now, user, gid))
  }

  /** Why a request may be refused: in strict mode one of its names was rejected. */
  ghost predicate RefusalServed(o: Origin, now: int, p: Policy, names: seq<string>, user: string) {
    p.failOnInvalid && exists name :: name in names && name != DEFAULT_GID && RejectedServed(o, now, p, name, user)
  }

  /** The primary gid: that of the named group, or the user's default if that is asked for or, in
      lenient mode, the named group was rejected. */
  ghost predicate PrimaryServed(o: Origin, now: int, p: Policy, primary: string, user: string, gid: int) {
    if primary == DEFAULT_GID then DefaultServed(o, now, user, gid)
    else
      || NamedServed(o, now, p, primary, user, gid)
      || (!p.failOnInvalid && RejectedServed(o, now, p, primary, user) && DefaultServed(o, now, user, gid))
  }

  /** Where a supplementary gid comes from: the user's list, or a requested group, which in strict mode
      is one of the user's own. */
  ghost predicate Sourced(o: Origin, now: int, p: Policy, names: seq<string>, user: string, gid: int) {
    || (DEFAULT_GID in names && exists d :: UserAnswer(o, now, user, d) && gid in d.gids)
    || (exists name :: name in names && name != DEFAULT_GID && gid != -1 && GroupAnswer(o, now, name, gid)
                       && (p.failOnInvalid && p.enforceOsGids ==> OwnServed(o, now, user, gid)))
  }

  /** What becomes of a requested name: the user's whole list, the gid of the group, or, in lenient
      mode, nothing for an unknown group. */
  ghost predicate Covered(o: Origin, now: int, p: Policy, name: string, user: string, out: seq<int>) {
    if name == DEFAULT_GID then exists d :: UserAnswer(o, now, user, d) && forall g :: g in d.gids ==> g in out
    else exists gid :: GroupAnswer(o, now, name, gid) && if gid == -1 then !p.failOnInvalid else gid in out
  }

  ghost predicate SupplementaryServed(o: Origin, now: int, p: Policy, names: seq<string>, primary: int, user: string,
                                      out: seq<int>)
  {
    && [primary] <= out && NoDuplicates(out)
    && (forall g :: g in out ==> g == primary || Sourced(o, now, p, names, user, g))
    && (forall name :: name in names ==> Covered(o, now, p, name, user, out))
  }

  ghost predicate ChosenServed(o: Origin, now: int, p: Policy, requested: seq<string>, user: string, gid: int,
                               gids: seq<int>)
  {
    requested != [] &&
    if requested[0] == "NONE" then DefaultServed(o, now, user, gid) && GidsServed(o, now, user, gids)
    else PrimaryServed(o, now, p, requested[0], user, gid) && SupplementaryServed(o, now, p, requested, gid, user, gids)
  }

  // ---- a longer span, or one that starts earlier, serves no less

  /** Every answer over the one span is an answer over the other. */
  ghost predicate Widens(o: Origin, now: int, o': Origin, now': int) {
    && (forall user, d :: UserAnswer(o, now, user, d) ==> UserAnswer(o', now', user, d))
    && (forall group, gid :: GroupAnswer(o, now, group, gid) ==> GroupAnswer(o', now', group, gid))
  }

  lemma LaterWidens(o: Origin, now: int, now': int)
    requires now <= now'
    ensures Widens(o, now, o, now')
  {
    forall user, d | UserAnswer(o, now, user, d) ensures UserAnswer(o, now', user, d) {
      UserAnswerLasts(o, now, now', user, d);
    }
    forall group, gid | GroupAnswer(o, now, group, gid) ensures GroupAnswer(o, now', group, gid) {
      GroupAnswerLasts(o, now, now', group, gid);
    }
  }

  lemma EarlierOriginWidens(o: Origin, o': Origin, now: int)
    requires IsLater(o, o') && o'.asked <= now
    ensures Widens(o', now, o, now)
  {
    hide IsLater, UserAnswer, GroupAnswer;
    forall user, d | UserAnswer(o', now, user, d) ensures UserAnswer(o, now, user, d) {
      UserAnswerFromLater(o, o', now, user, d);
    }
    forall group, gid | GroupAnswer(o', now, group, gid) ensures GroupAnswer(o, now, group, gid) {
      GroupAnswerFromLater(o, o', now, group, gid);
    }
  }

  lemma OwnWidens(o: Origin, now: int, o': Origin, now': int, user: string, gid: int)
    requires Widens(o, now, o', now')
    ensures OwnServed(o, now, user, gid) ==> OwnServed(o', now', user, gid)
    ensures DefaultServed(o, now, user, gid) ==> DefaultServed(o', now', user, gid)
    ensures DisownedServed(o, now, user, gid) ==> DisownedServed(o', now', user, gid)
  {
    hide UserAnswer, GroupAnswer;
  }

  lemma MembershipWidens(o: Origin, now: int, o': Origin, now': int, p: Policy, user: string, gid: int, member: bool)
    requires Widens(o, now, o', now') && MembershipServed(o, now, p, user, gid, member)
    ensures MembershipServed(o', now', p, user, gid, member)
  {
    OwnWidens(o, now, o', now', user, gid);
  }

  lemma RejectedWidens(o: Origin, now: int, o': Origin, now': int, p: Policy, name: string, user: string)
    requires Widens(o, now, o', now') && RejectedServed(o, now, p, name, user)
    ensures RejectedServed(o', now', p, name, user)
  {
    hide UserAnswer, GroupAnswer, DisownedServed;
    if !GroupAnswer(o, now, name, -1) {
      var g :| GroupAnswer(o, now, name, g) && DisownedServed(o, now, user, g);
      OwnWidens(o, now, o', now', user, g);
    }
  }

  lemma PrimaryWidens(o: Origin, now: int, o': Origin, now': int, p: Policy, primary: string, user: string, gid: int)
    requires Widens(o, now, o', now') && PrimaryServed(o, now, p, primary, user, gid)
    ensures PrimaryServed(o', now', p, primary, user, gid)
  {
    hide UserAnswer, GroupAnswer, OwnServed, DefaultServed, DisownedServed;
    OwnWidens(o, now, o', now', user, gid);
    if RejectedServed(o, now, p, primary, user) {
      RejectedWidens(o, now, o', now', p, primary, user);
    }
  }

  lemma SourcedWidens(o: Origin, now: int, o': Origin, now': int, p: Policy, names: seq<string>, names': seq<string>,
                      user: string, gid: int)
    requires Widens(o, now, o', now') && Sourced(o, now, p, names, user, gid)
    requires forall name :: name in names ==> name in names'
    ensures Sourced(o', now', p, names', user, gid)
  {
    hide UserAnswer, GroupAnswer, OwnServed;
    OwnWidens(o, now, o', now', user, gid);
  }

  lemma CoveredWidens(o: Origin, now: int, o': Origin, now': int, p: Policy, name: string, user: string,
                      out: seq<int>, out': seq<int>)
    requires Widens(o, now, o', now') && Covered(o, now, p, name, user, out) && forall g :: g in out ==> g in out'
    ensures Covered(o', now', p, name, user, out')
  {
    hide UserAnswer, GroupAnswer;
  }

  lemma SupplementaryWidens(o: Origin, now: int, o': Origin, now': int, p: Policy, names: seq<string>, primary: int,
                            user: string, out: seq<int>)
    requires Widens(o, now, o', now') && SupplementaryServed(o, now, p, names, primary, user, out)
    ensures SupplementaryServed(o', now', p, names, primary, user, out)
  {
    hide UserAnswer, GroupAnswer, Sourced, Covered, Widens;
    forall g | g in out && g != primary ensures Sourced(o', now', p, names, user, g) {
      SourcedWidens(o, now, o', now', p, names, names, user, g);
    }
    forall name | name in names ensures Covered(o', now', p, name, user, out) {
      CoveredWidens(o, now, o', now', p, name, user, out, out);
    }
  }

  lemma ChosenWidens(o: Origin, now: int, o': Origin, now': int, p: Policy, requested: seq<string>, user: string,
                     gid: int, gids: seq<int>)
    requires Widens(o, now, o', now') && ChosenServed(o, now, p, requested, user, gid, gids)
    ensures ChosenServed(o', now', p, requested, user, gid, gids)
  {
    hide UserAnswer, GroupAnswer, PrimaryServed, SupplementaryServed, DefaultServed;
    if requested[0] == "NONE" {
      OwnWidens(o, now, o', now', user, gid);
    } else {
      PrimaryWidens(o, now, o', now', p, requested[0], user, gid);
      SupplementaryWidens(o, now, o', now', p, requested, gid, user, gids);
    }
  }

  lemma HomeWidens(o: Origin, now: int, o': Origin, now': int, user: string, home: string)
    requires Widens(o, now, o', now') && HomeServed(o, now, user, home)
    ensures HomeServed(o', now', user, home)
  {
    hide UserAnswer, GroupAnswer;
  }

  // ---- one step of collecting supplementary gids

  /** The next name adds no gid, one gid, or a whole list; the result serves one name more. */
  lemma ServesOneMore(o: Origin, now: int, now': int, p: Policy, names: seq<string>, name: string, primary: int,
                      user: string, out: seq<int>, out': seq<int>)
    requires SupplementaryServed(o, now, p, names, primary, user, out) && now <= now'
    requires [primary] <= out' && NoDuplicates(out') && forall g :: g in out ==> g in out'
    requires forall g :: g in out' && g !in out ==> Sourced(o, now', p, [name], user, g)
    requires Covered(o, now', p, name, user, out')
    ensures SupplementaryServed(o, now', p, names + [name], primary, user, out')
  {
    hide UserAnswer, GroupAnswer, Sourced, Covered, Widens;
    LaterWidens(o, now, now');
    forall g | g in out' && g != primary ensures Sourced(o, now', p, names + [name], user, g) {
      if g in out {
        SourcedWidens(o, now, o, now', p, names, names + [name], user, g);
      } else {
        WidensItself(o, now');
        SourcedWidens(o, now', o, now', p, [name], names + [name], user, g);
      }
    }
    forall n | n in names + [name] ensures Covered(o, now', p, n, user, out') {
      if n in names {
        CoveredWidens(o, now, o, now', p, n, user, out, out');
      }
    }
  }

  lemma WidensItself(o: Origin, now: int)
    ensures Widens(o, now, o, now)
  {
  }

  // ---- enforcement

  /** Over any host: with group enforcement the primary gid is the user's own, as answered in the span of
      the request, and in strict mode so is every gid handed to the kernel. */
  lemma EnforcedIsOwn(o: Origin, now: int, p: Policy, requested: seq<string>, user: string, gid: int, gids: seq<int>)
    requires ChosenServed(o, now, p, requested, user, gid, gids)
    ensures p.enforceOsGids || requested[0] == "NONE" ==> OwnServed(o, now, user, gid)
    ensures (p.enforceOsGids && p.failOnInvalid) || requested[0] == "NONE" ==>
              forall g :: g in gids ==> OwnServed(o, now, user, g)
  {
    hide UserAnswer, GroupAnswer;
    if requested[0] != "NONE" && p.enforceOsGids && p.failOnInvalid {
      forall g | g in gids ensures OwnServed(o, now, user, g) {
        if g != gid {
          assert Sourced(o, now, p, requested, user, g);
        }
      }
    }
  }

  /** The database held the gid as one of the user's own: as the default gid of a record, or listed for
      the user. Both were looked up no earlier than the time to live allows. */
  ghost predicate OwnHeld(o: Origin, now: int, user: string, gid: int) {
    exists at, gidsAt ::
      && IsRecent(o, now, user, at, gidsAt)
      && Passwd(o.history(at), user).Some?
      && (gid == Passwd(o.history(at), user).value.gid || IsListedFor(o.history(gidsAt), o.useId, user, gid))
  }

  /** An own gid was in the database, or it is the mark for a user who was missing in the span. */
  lemma OwnWasHeld(o: Origin, now: int, user: string, gid: int)
    requires IsProper(o) && o.asked <= now && OwnServed(o, now, user, gid)
    ensures OwnHeld(o, now, user, gid) || (gid == -1 && MissingWithin(o, now, user))
  {
    hide UserAnswer, IsProper, IsRecent;
    var d :| UserAnswer(o, now, user, d) && (gid == d.gid || gid in d.gids);
    BoundedStaleness(o, now, user, d);
    if d != NO_DATA {
      var at, gidsAt :| IsRecent(o, now, user, at, gidsAt)
                        && IsDataOf(o.history(at), o.history(gidsAt), o.useId, user, d)
                        && IsGidList(o.history(gidsAt), o.useId, user, d.gid, d.gids);
      assert gid == d.gid || IsListedFor(o.history(gidsAt), o.useId, user, gid);
    }
  }
}
