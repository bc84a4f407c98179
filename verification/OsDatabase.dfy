/** The operating system's user database, which changes over time, and the clock. */
module OsDatabase {
  import opened Text

  datatype PasswdEntry = PasswdEntry(uid: int, gid: int, home: string)
  datatype GroupEntry = GroupEntry(name: string, gid: int, members: seq<string>)

  /** What "id -G <user>" gives: an error exit, output that is not a list of numbers, or the gids. */
  datatype IdOutput = Failed | Garbled | Listed(gids: seq<int>)

  datatype Database = Database(
    passwd: map<string, PasswdEntry>,
    groups: seq<GroupEntry>,
    ids: map<string, IdOutput>)

  function Passwd(db: Database, user: string): Option<PasswdEntry> {
    if user in db.passwd then Some(db.passwd[user]) else None
  }

  function FindGroup(groups: seq<GroupEntry>, name: string): Option<GroupEntry> {
    if groups == [] then None
    else if groups[0].name == name then Some(groups[0])
    else FindGroup(groups[1..], name)
  }

  function IdOf(db: Database, user: string): IdOutput {
    if user in db.ids then db.ids[user] else Failed
  }

  /** gids of the groups that list the user as a member, in database order */
  function GidsListing(groups: seq<GroupEntry>, user: string): seq<int> {
    if groups == [] then []
    else (if user in groups[0].members then [groups[0].gid] else []) + GidsListing(groups[1..], user)
  }

  /** The gids the cache stores for a user; None when the output of id cannot be parsed. */
  function GidsFor(db: Database, user: string, gid: int, useId: bool): (gids: Option<seq<int>>)
    ensures gids.Some? && gids.value != [] ==> gid in gids.value
  {
    if useId then
      match IdOf(db, user)
      case Failed => Some([])
      case Garbled => None
      case Listed(gids) => Some(if gid in gids then gids else gids + [gid])
    else Some(GidsListing(db.groups, user) + [gid])
  }

  /** A call's value, or an exception that escaped from it. */
  datatype Answer<+T> = Value(value: T) | Raised(reason: string)

  /** The group named so that comes first in the database. */
  lemma {:induction false} FindGroupIsFirst(groups: seq<GroupEntry>, name: string)
    ensures FindGroup(groups, name).None? <==> forall i :: 0 <= i < |groups| ==> groups[i].name != name
    ensures FindGroup(groups, name).Some? ==>
              exists i :: 0 <= i < |groups| && groups[i] == FindGroup(groups, name).value && groups[i].name == name
                          && forall j :: 0 <= j < i ==> groups[j].name != name
  {
    if groups != [] && groups[0].name != name {
      var rest := groups[1..];
      FindGroupIsFirst(rest, name);
      if FindGroup(rest, name).Some? {
        var i :| 0 <= i < |rest| && rest[i] == FindGroup(rest, name).value && rest[i].name == name
                 && forall j :: 0 <= j < i ==> rest[j].name != name;
        assert groups[i + 1] == rest[i];
        assert forall j :: 0 < j < i + 1 ==> groups[j] == rest[j - 1];
      }
      assert forall i :: 0 < i < |groups| ==> groups[i] == rest[i - 1];
    } else if groups != [] {
      assert groups[0] == FindGroup(groups, name).value;
    }
  }

  /** The system lists the gid for the user: id prints it, or a group that has it names the user. */
  ghost predicate IsListedFor(db: Database, useId: bool, user: string, gid: int) {
    if useId then user in db.ids && db.ids[user].Listed? && gid in db.ids[user].gids
    else exists g :: g in db.groups && g.gid == gid && user in g.members
  }

  /** Exactly the gids that the system lists and the default gid; nothing when id fails. */
  ghost predicate IsGidList(db: Database, useId: bool, user: string, gid: int, gids: seq<int>) {
    if useId && (user !in db.ids || db.ids[user] == Failed) then gids == []
    else forall g :: g in gids <==> g == gid || IsListedFor(db, useId, user, g)
  }

  lemma {:induction false} ListingIsExact(groups: seq<GroupEntry>, user: string, gid: int)
    ensures gid in GidsListing(groups, user) <==> exists g :: g in groups && g.gid == gid && user in g.members
  {
    if groups != [] {
      ListingIsExact(groups[1..], user, gid);
      assert forall g :: g in groups <==> g == groups[0] || g in groups[1..];
    }
  }

  /** The group list looked up for a user, and when none can be. */
  lemma GidsAreExact(db: Database, user: string, gid: int, useId: bool)
    ensures GidsFor(db, user, gid, useId).None? <==> useId && IdOf(db, user) == Garbled
    ensures GidsFor(db, user, gid, useId).Some? ==> IsGidList(db, useId, user, gid, GidsFor(db, user, gid, useId).value)
  {
    if !useId {
      forall g ensures g in GidsListing(db.groups, user) <==> IsListedFor(db, useId, user, g) {
        ListingIsExact(db.groups, user, g);
      }
    }
  }

  datatype LookupResult<+T> = Found(value: T) | Missing | Error

  /** The host: its database and its running processes at every instant, and the current instant. A
      reliable host answers every query; otherwise any query may raise. */
  class Host {
    const history: int -> Database
    const running: int -> set<int>
    const reliable: bool
    var now: int

    constructor (history: int -> Database, running: int -> set<int>, reliable: bool)
      ensures this.history == history && this.running == running && this.reliable == reliable
    {
      this.history, this.running, this.reliable := history, running, reliable;
      now := 0;
    }

    /** The database never changes, answers always, and holds no unparsable group list. */
    ghost predicate Stable() {
      && reliable
      && (forall t :: history(t) == history(0))
      && (forall user :: IdOf(history(0), user) != Garbled)
    }

    /** Every query is answered, and there is no unparsable group list. */
    ghost predicate Dependable() {
      reliable && forall t, user :: IdOf(history(t), user) != Garbled
    }

    /** Time passes between any two steps, and never runs backwards. */
    method Elapse()
      modifies this
      ensures now >= old(now)
    {
      var d: int := *;
      if d > 0 {
        now := now + d;
      }
    }

    /** time.time() */
    method Time() returns (t: int)
      modifies this
      ensures old(now) <= t == now
    {
      Elapse();
      t := now;
    }

    method Getpwnam(user: string) returns (r: LookupResult<PasswdEntry>, ghost at: int)
      modifies this
      ensures old(now) <= at <= now
      ensures r.Found? ==> Passwd(history(at), user) == Some(r.value)
      ensures r.Missing? ==> Passwd(history(at), user).None?
      ensures r.Error? ==> !reliable
    {
      Elapse();
      at := now;
      var raises: bool := *;
      r := if raises && !reliable then Error
           else match Passwd(history(now), user)
                case Some(e) => Found(e)
                case None => Missing;
      Elapse();
    }

    method Getgrnam(name: string) returns (r: LookupResult<GroupEntry>, ghost at: int)
      modifies this
      ensures old(now) <= at <= now
      ensures r.Found? ==> FindGroup(history(at).groups, name) == Some(r.value)
      ensures r.Missing? ==> FindGroup(history(at).groups, name).None?
      ensures r.Error? ==> !reliable
    {
      Elapse();
      at := now;
      var raises: bool := *;
      r := if raises && !reliable then Error
           else match FindGroup(history(now).groups, name)
                case Some(e) => Found(e)
                case None => Missing;
      Elapse();
    }

    /** get_gids_4user_nc: group list through "id -G" or getgrall(). */
    method GetGids(user: string, gid: int, useId: bool) returns (r: LookupResult<seq<int>>, ghost at: int)
      modifies this
      ensures old(now) <= at <= now
      ensures r.Found? ==> GidsFor(history(at), user, gid, useId) == Some(r.value)
      ensures r.Found? ==> IsGidList(history(at), useId, user, gid, r.value)
      ensures !r.Missing?
      ensures r.Error? ==> !reliable || IdOf(history(at), user) == Garbled
    {
      hide IsGidList;
      Elapse();
      at := now;
      var raises: bool := *;
      r := if raises && !reliable then Error
           else match GidsFor(history(now), user, gid, useId)
                case Some(gids) => Found(gids)
                case None => Error;
      GidsAreExact(history(now), user, gid, useId);
      Elapse();
    }
  }
}
