/** Switching the process to a user and back (lib/BecomeUser.py, second half). */
module BecomeUser {
  import opened Text
  import opened Credentials
  import opened OsDatabase
  import opened CacheView
  import opened Staleness
  import opened UserCache
  import opened Groups
  import opened Served
  import opened GroupLookup
  import opened Resolution

  datatype Environment = Environment(home: string, user: string, logname: string)

  const NEUTRAL_ENVIRONMENT := Environment("/tmp", "nobody", "nobody")

  /** How a system call ended: done, refused for want of permission, or failed for any other reason
      (bad argument, resource limits). */
  datatype CallStatus = Done | Refused | Faulted

  /** The process: its credentials and the three environment variables the worker sets. */
  class Process {
    var creds: Creds
    var env: Environment

    constructor (creds: Creds, env: Environment)
      ensures this.creds == creds && this.env == env
    {
      this.creds, this.env := creds, env;
    }

    method Apply(change: Granted) returns (s: CallStatus)
      modifies `creds
      ensures s == Done ==> change == Granted(creds)
      ensures s != Done ==> creds == old(creds)
      ensures s == Refused ==> change.Denied?
    {
      s := *;
      if change.Denied? {
        s := Refused;
      } else if s == Refused {
        s := Faulted;
      } else if s == Done {
        creds := change.creds;
      }
    }

    /** setgid(2); -1 and other negative ids are rejected before any permission check. */
    method SetGid(g: int) returns (s: CallStatus)
      modifies `creds
      ensures s == Done ==> g >= 0 && SetGidTo(old(creds), g) == Granted(creds)
      ensures s != Done ==> creds == old(creds)
      ensures s == Refused ==> SetGidTo(old(creds), g).Denied?
    {
      if g < 0 {
        return Faulted;
      }
      s := Apply(SetGidTo(creds, g));
    }

    /** setgroups(2), which accepts no negative ids either. */
    method SetGroups(gs: set<int>) returns (s: CallStatus)
      modifies `creds
      ensures s == Done ==> forall g :: g in gs ==> g >= 0
      ensures s == Done ==> Credentials.SetGroups(old(creds), gs) == Granted(creds)
      ensures s != Done ==> creds == old(creds)
      ensures s == Refused ==> Credentials.SetGroups(old(creds), gs).Denied?
    {
      if exists g :: g in gs && g < 0 {
        return Faulted;
      }
      s := Apply(Credentials.SetGroups(creds, gs));
    }

    method SetEGid(g: int) returns (s: CallStatus)
      modifies `creds
      ensures s == Done ==> g >= 0 && SetEffectiveGid(old(creds), g) == Granted(creds)
      ensures s != Done ==> creds == old(creds)
      ensures s == Refused ==> SetEffectiveGid(old(creds), g).Denied?
    {
      if g < 0 {
        return Faulted;
      }
      s := Apply(SetEffectiveGid(creds, g));
    }

    /** setresuid(2). Ids below -1 are rejected. -1 would leave an id as it is, but is never passed: the
        kernel's own ids are not negative, and become_user refuses it as that of an unknown user. */
    method SetResUid(r: int, e: int, su: int) returns (s: CallStatus)
      modifies `creds
      ensures s == Done ==> r >= 0 && e >= 0 && su >= 0
      ensures s == Done ==> Credentials.SetResUid(old(creds), r, e, su) == Granted(creds)
      ensures s != Done ==> creds == old(creds)
      ensures s == Refused ==> Credentials.SetResUid(old(creds), r, e, su).Denied?
    {
      if r < 0 || e < 0 || su < 0 {
        return Faulted;
      }
      s := Apply(Credentials.SetResUid(creds, r, e, su));
    }
  }

  function SetOf(s: seq<int>): set<int> {
    set g | g in s
  }

  /** Settings fixed by initialize(): the ids to return to and the switching policy. */
  datatype Settings = Settings(switchUid: bool, openSessions: bool, uid: int, gid: int, policy: Policy)

  /** initialize(): remember the effective ids; a process running as root always switches. */
  function Initialize(c: Creds, switchUid: bool, openSessions: bool, policy: Policy): Settings {
    Settings(switchUid || c.euid == 0, openSessions, c.euid, c.egid, policy)
  }

  method ChooseGroups(user: string, requested: seq<string>, p: Policy, cache: UserCache, ghost o: Origin)
    returns (r: Answer<(int, seq<int>)>)
    requires requested != [] && Tracks(o, cache)
    modifies cache, cache.host
    ensures Tracks(o, cache) && cache.host.now >= old(cache.host.now)
    ensures r.Value? ==> ChosenServed(o, cache.host.now, p, requested, user, r.value.0, r.value.1)
    ensures r.Raised? && cache.host.Dependable() ==>
              requested[0] != "NONE" && RefusalServed(o, cache.host.now, p, requested, user)
    ensures cache.host.Stable() ==> r == ChosenGroups(StableDb(cache), cache.useId, p, requested, user)
  {
    hide Tracks, UserAnswer, PrimaryServed, SupplementaryServed, DefaultServed, RejectedServed;
    if requested[0] == "NONE" {
      var gid := UserGid(user, cache, o);
      if gid.Raised? {
        return Raised(gid.reason);
      }
      ghost var now := cache.host.now;
      var gids;
      ghost var d;
      gids, d := UserGids(user, cache, o);
      if gids.Raised? {
        return Raised(gids.reason);
      }
      LaterWidens(o, now, cache.host.now);
      OwnWidens(o, now, o, cache.host.now, user, gid.value);
      return Value((gid.value, gids.value));
    }
    var primary := GetPrimaryGroup(requested[0], user, p, cache, o);
    if primary.Raised? {
      assert forall name :: name in [requested[0]] ==> name in requested;
      return Raised(primary.reason);
    }
    ghost var now := cache.host.now;
    var gids := GetSupplementaryGroups(requested, primary.value, user, p, cache, o);
    if gids.Raised? {
      return Raised(gids.reason);
    }
    LaterWidens(o, now, cache.host.now);
    PrimaryWidens(o, now, o, cache.host.now, p, requested[0], user, primary.value);
    r := Value((primary.value, gids.value));
  }

  /** The credentials are those of a switch to the target interrupted after some calls. */
  ghost predicate InterruptedSwitch(before: Creds, after: Creds, stage: nat, t: Target, home: int) {
    stage <= SWITCH_CALLS && t.uid != 0 && Switched(before, stage, t, home) == Granted(after)
  }

  /** Ids that the kernel accepts for a user other than root. */
  predicate IsKernelIds(ids: UserIds) {
    ids.uid > 0 && ids.gid >= 0 && forall g :: g in ids.gids ==> g >= 0
  }

  /** The four system calls, in order; stops at the first that does not succeed. */
  method SwitchIds(proc: Process, ids: UserIds, home: int) returns (ok: bool, ghost stage: nat)
    requires ids.uid != 0 && ids.uid != -1
    modifies proc`creds
    ensures InterruptedSwitch(old(proc.creds), proc.creds, stage, Target(ids.uid, ids.gid, SetOf(ids.gids)), home)
    ensures ok <==> stage == SWITCH_CALLS
    ensures ok ==> SetGid in old(proc.creds).effective && IsKernelIds(ids)
  {
    ghost var t := Target(ids.uid, ids.gid, SetOf(ids.gids));
    ghost var c0 := proc.creds;
    stage := 0;
    ok := false;
    var s := proc.SetGid(ids.gid);
    if s != Done { return; }
    stage := 1;
    assert Switched(c0, 1, t, home) == SwitchCall(c0, 0, t, home);
    s := proc.SetGroups(SetOf(ids.gids));
    if s != Done { return; }
    assert forall g :: g in ids.gids ==> g in SetOf(ids.gids);
    stage := 2;
    assert Switched(c0, 2, t, home) == Granted(proc.creds);
    s := proc.SetEGid(ids.gid);
    if s != Done { return; }
    stage := 3;
    assert Switched(c0, 3, t, home) == Granted(proc.creds);
    s := proc.SetResUid(ids.uid, ids.uid, home);
    if s != Done { return; }
    stage := 4;
    assert Switched(c0, 4, t, home) == Granted(proc.creds);
    ok := true;
  }

  /** A switch all of whose calls were granted has taken effect: the three read-backs that follow
      in become_user cannot fail. */
  lemma CompleteSwitchRunsAs(before: Creds, after: Creds, t: Target, home: int)
    requires InterruptedSwitch(before, after, SWITCH_CALLS, t, home)
    ensures RunsAs(after, t) && after.suid == home && SetGid in before.effective
  {
    assert Switched(before, 3, t, home).Granted?;
    assert Switched(before, 2, t, home).Granted?;
    assert Switched(before, 1, t, home).Granted?;
  }

  /** The user's uid, unknown users and root refused. The rest of the call is looked at from midway. */
  method ResolveUid(user: string, cache: UserCache, ghost o: Origin) returns (r: Answer<int>, ghost midway: Origin)
    requires Tracks(o, cache)
    modifies cache, cache.host
    ensures Tracks(o, cache) && cache.host.now >= old(cache.host.now)
    ensures midway == OriginOf(cache)
    ensures r.Value? ==>
              && r.value != 0 && r.value != -1 && r.value == DataIn(midway.view, user).uid
              && UserAnswer(o, midway.asked, user, DataIn(midway.view, user))
    ensures r.Raised? && cache.host.Dependable() ==>
              DataIn(midway.view, user).uid in {-1, 0} && UserAnswer(o, midway.asked, user, DataIn(midway.view, user))
    ensures cache.host.Stable() ==>
              var uid := UidOf(StableDb(cache), user);
              r == if uid == -1 then Raised(UnknownUser(user))
                   else if uid == 0 then Raised(RootUser(user)) else Value(uid)
  {
    hide Follows, UserAnswer, IsProper, IsTrue, Prepared, Readable, DataIn, IsInterrupted;
    ghost var v, now := cache.View(), cache.host.now;
    ghost var c;
    r, c := cache.GetUid(user);
    midway := OriginOf(cache);
    if r.Raised? {
      InterruptionFollows(o, v, now, cache.View(), user, c.checked, cache.host.now);
      return;
    }
    CallTracks(o, v, now, user, c, cache.View(), cache.host.now);
    if r.value == -1 {
      return Raised(UnknownUser(user)), midway;
    }
    if r.value == 0 {
      return Raised(RootUser(user)), midway;
    }
  }

  lemma MidwayIsLater(o: Origin, cache: UserCache)
    requires Tracks(o, cache)
    ensures IsProper(o) && IsLater(o, OriginOf(cache)) && Tracks(OriginOf(cache), cache)
  {
    OriginFollows(OriginOf(cache));
  }

  /** Everything become_user decides before it touches the process. */
  method ResolveIds(user: string, requested: seq<string>, p: Policy, cache: UserCache, ghost o: Origin)
    returns (r: Answer<UserIds>, ghost midway: Origin)
    requires requested != [] && Tracks(o, cache)
    modifies cache, cache.host
    ensures cache.Valid() && cache.host.now >= old(cache.host.now)
    ensures r.Value? ==>
              && Tracks(midway, cache) && IsProper(o) && IsLater(o, midway)
              && r.value.uid != 0 && r.value.uid != -1 && r.value.uid == DataIn(midway.view, user).uid
              && UserAnswer(o, midway.asked, user, DataIn(midway.view, user))
              && ChosenServed(midway, cache.host.now, p, requested, user, r.value.gid, r.value.gids)
    ensures r.Raised? && cache.host.Dependable() ==>
              || (DataIn(midway.view, user).uid in {-1, 0}
                  && UserAnswer(o, midway.asked, user, DataIn(midway.view, user)))
              || (requested[0] != "NONE" && RefusalServed(midway, cache.host.now, p, requested, user))
    ensures cache.host.Stable() ==> r == ResolvedIds(StableDb(cache), cache.useId, p, requested, user)
  {
    hide ChosenGroups, UserAnswer, ChosenServed, Follows, IsProper, IsLater, DataIn, RefusalServed;
    var uid;
    uid, midway := ResolveUid(user, cache, o);
    if uid.Raised? {
      return Raised(uid.reason), midway;
    }
    MidwayIsLater(o, cache);
    var chosen := ChooseGroups(user, requested, p, cache, midway);
    if chosen.Raised? {
      return Raised(chosen.reason), midway;
    }
    r := Value(UserIds(uid.value, chosen.value.0, chosen.value.1));
  }

  /** HOME, USER and LOGNAME; a home of None cannot be stored and raises. */
  method SetEnvironment(user: string, proc: Process, cache: UserCache, ghost o: Origin) returns (ok: bool)
    requires Tracks(o, cache)
    modifies proc`env, cache, cache.host
    ensures Tracks(o, cache) && cache.host.now >= old(cache.host.now)
    ensures !ok ==> proc.env == old(proc.env)
    ensures ok ==> proc.env.user == proc.env.logname == user && HomeServed(o, cache.host.now, user, proc.env.home)
    ensures ok && cache.host.Stable() ==> HomeOf(StableDb(cache), user) == Some(proc.env.home)
  {
    hide Follows, UserAnswer, IsProper, IsTrue, Prepared, Readable, DataIn, IsInterrupted;
    ghost var v, now := cache.View(), cache.host.now;
    var home, c := cache.GetHome(user);
    if home.Value? {
      CallTracks(o, v, now, user, c, cache.View(), cache.host.now);
    } else {
      InterruptionFollows(o, v, now, cache.View(), user, c.checked, cache.host.now);
    }
    ok := home.Value? && home.value.Some?;
    if ok {
      proc.env := Environment(home.value.value, user, user);
    }
  }

  /** What holds when become_user returns True with switching on. */
  ghost predicate SwitchedTo(proc: Process, user: string, ids: UserIds, t: Target, stage: nat, st: Settings)
    reads proc
  {
    && IsKernelIds(ids)
    && t == Target(ids.uid, ids.gid, SetOf(ids.gids)) && stage == SWITCH_CALLS
    && RunsAs(proc.creds, t) && proc.creds.suid == st.uid
    && proc.env.user == proc.env.logname == user
  }

  /** become_user. The result holds the ids switched to, nothing when switching is off, or the
      exception; stage and target say how far the credentials got. */
  method Become(user: string, requested: seq<string>, st: Settings, proc: Process, cache: UserCache, ghost o: Origin)
    returns (r: Answer<Option<UserIds>>, ghost stage: nat, ghost target: Target, ghost midway: Origin)
    requires requested != [] && Tracks(o, cache)
    modifies proc, cache, cache.host
    ensures cache.Valid() && cache.host.now >= old(cache.host.now)
    ensures !st.switchUid ==>
              && proc.creds == old(proc.creds) && proc.env == old(proc.env)
              && (r.Raised? <==> st.uid == 0) && (r.Value? ==> r.value.None?)
    ensures st.switchUid ==> InterruptedSwitch(old(proc.creds), proc.creds, stage, target, st.uid)
    ensures st.switchUid && r.Value? ==>
              && r.value.Some?
              && SwitchedTo(proc, user, r.value.value, target, stage, st)
              && Resolved(o, midway, cache.host.now, st.policy, requested, user, r.value.value, proc.env.home)
    ensures st.switchUid && cache.host.Stable() ==>
              var db := StableDb(cache);
              match ResolvedIds(db, cache.useId, st.policy, requested, user)
              case Raised(e) => r == Raised(e)
              case Value(ids) => r.Value? ==> r.value.value == ids && HomeOf(db, user) == Some(proc.env.home)
  {
    hide ResolvedIds, Tracks, UserAnswer, ChosenServed, HomeServed, IsProper, IsLater, DataIn;
    stage, target, midway := 0, Target(1, 0, {}), o;
    TracksIsValid(o, cache);
    if !st.switchUid {
      r := if st.uid == 0 then Raised("Running as root and not setting uids --- this is not allowed.") else Value(None);
      return;
    }
    var resolved;
    resolved, midway := ResolveIds(user, requested, st.policy, cache, o);
    if resolved.Raised? {
      r := Raised(resolved.reason);
      return;
    }
    var ids := resolved.value;
    ghost var now := cache.host.now;
    target := Target(ids.uid, ids.gid, SetOf(ids.gids));
    var ok;
    ok, stage := SwitchIds(proc, ids, st.uid);
    if !ok {
      var reason: string := *;
      r := Raised(reason);
      return;
    }
    CompleteSwitchRunsAs(old(proc.creds), proc.creds, target, st.uid);
    // the read-backs of the real and effective ids and of the group set
    assert (proc.creds.ruid, proc.creds.euid) == (ids.uid, ids.uid);
    assert (proc.creds.rgid, proc.creds.egid) == (ids.gid, ids.gid);
    assert proc.creds.groups == SetOf(ids.gids);
    ok := SetEnvironment(user, proc, cache, midway);
    TracksIsValid(midway, cache);
    if !ok {
      var reason: string := *;
      r := Raised(reason);
      return;
    }
    LaterWidens(midway, now, cache.host.now);
    ChosenWidens(midway, now, midway, cache.host.now, st.policy, requested, user, ids.gid, ids.gids);
    r := Value(Some(ids));
  }

  lemma TracksIsValid(o: Origin, cache: UserCache)
    requires Tracks(o, cache)
    ensures cache.Valid() && o.asked <= cache.host.now
  {
  }

  /** restore_id, when switching is on: back to the ids and the environment of the start. */
  method RestoreId(st: Settings, proc: Process) returns (s: CallStatus)
    modifies proc
    ensures s == Done ==>
              && proc.env == NEUTRAL_ENVIRONMENT && IsNeutral(proc.creds, st.uid, st.gid)
              && Restored(old(proc.creds), st.uid, st.gid) == Granted(proc.creds)
              && Capable(proc.creds) && (WellFormed(old(proc.creds)) ==> WellFormed(proc.creds))
    ensures Restorable(old(proc.creds), st.uid) ==> s != Refused
  {
    RestorableIsExact(proc.creds, st.uid, st.gid);
    s := proc.SetResUid(st.uid, st.uid, st.uid);
    if s != Done { return; }
    s := proc.SetGid(st.gid);
    if s != Done { return; }
    s := proc.SetGroups({st.gid});
    if s != Done { return; }
    s := proc.SetEGid(st.gid);
    if s != Done { return; }
    proc.env := NEUTRAL_ENVIRONMENT;
  }
}
