/** The process credentials and the Linux rules for changing them: setresuid(2), setgid(2),
    setegid(3), setgroups(2), and capabilities(7) on what a change of user ids does to the
    capability sets. Ids are non-negative. */
module Credentials {

  datatype Capability = SetUid | SetGid

  datatype Creds = Creds(
    ruid: int, euid: int, suid: int,
    rgid: int, egid: int, sgid: int,
    groups: set<int>,
    permitted: set<Capability>, effective: set<Capability>)

  predicate WellFormed(c: Creds) {
    c.effective <= c.permitted
  }

  datatype Granted = Granted(creds: Creds) | Denied

  function Uids(c: Creds): set<int> {
    {c.ruid, c.euid, c.suid}
  }

  /** capabilities(7): dropping the last zero uid clears everything, leaving effective uid 0 clears
      the effective set, entering it copies the permitted set. */
  function AdjustCapabilities(old_: Creds, c: Creds): Creds {
    if 0 in Uids(old_) && 0 !in Uids(c) then c.(permitted := {}, effective := {})
    else if old_.euid == 0 && c.euid != 0 then c.(effective := {})
    else if old_.euid != 0 && c.euid == 0 then c.(effective := c.permitted)
    else c
  }

  function SetResUid(c: Creds, r: int, e: int, s: int): Granted {
    if SetUid in c.effective || {r, e, s} <= Uids(c)
    then Granted(AdjustCapabilities(c, c.(ruid := r, euid := e, suid := s)))
    else Denied
  }

  function SetGidTo(c: Creds, g: int): Granted {
    if SetGid in c.effective then Granted(c.(rgid := g, egid := g, sgid := g))
    else if g == c.rgid || g == c.sgid then Granted(c.(egid := g))
    else Denied
  }

  function SetEffectiveGid(c: Creds, g: int): Granted {
    if SetGid in c.effective || g in {c.rgid, c.egid, c.sgid} then Granted(c.(egid := g)) else Denied
  }

  function SetGroups(c: Creds, gs: set<int>): Granted {
    if SetGid in c.effective then Granted(c.(groups := gs)) else Denied
  }

  /** The system calls of a switch, in the order become_user makes them. */
  datatype Target = Target(uid: int, gid: int, gids: set<int>)

  const SWITCH_CALLS := 4

  function SwitchCall(c: Creds, n: nat, t: Target, home: int): Granted
    requires n < SWITCH_CALLS
  {
    if n == 0 then SetGidTo(c, t.gid)
    else if n == 1 then SetGroups(c, t.gids)
    else if n == 2 then SetEffectiveGid(c, t.gid)
    else SetResUid(c, t.uid, t.uid, home)
  }

  /** Credentials after the first n calls of a switch, if all were granted. */
  function Switched(c: Creds, n: nat, t: Target, home: int): Granted
    requires n <= SWITCH_CALLS
  {
    if n == 0 then Granted(c)
    else
      match Switched(c, n - 1, t, home)
      case Denied => Denied
      case Granted(d) => SwitchCall(d, n - 1, t, home)
  }

  /** restore_id: user ids first, then group ids. */
  function Restored(c: Creds, uid: int, gid: int): Granted {
    match SetResUid(c, uid, uid, uid)
    case Denied => Denied
    case Granted(c1) =>
      match SetGidTo(c1, gid)
      case Denied => Denied
      case Granted(c2) =>
        match SetGroups(c2, {gid})
        case Denied => Denied
        case Granted(c3) => SetEffectiveGid(c3, gid)
  }

  predicate IsNeutral(c: Creds, uid: int, gid: int) {
    && c.ruid == c.euid == c.suid == uid
    && c.rgid == c.egid == c.sgid == gid
    && c.groups == {gid}
  }

  predicate RunsAs(c: Creds, t: Target) {
    && c.ruid == c.euid == t.uid
    && c.rgid == c.egid == t.gid
    && c.groups == t.gids
  }

  /** A start from which user switching works and can be undone: root, or an unprivileged user
      none of whose ids is 0, holding the group capability. */
  predicate Capable(c: Creds) {
    SetGid in c.effective && (c.euid == 0 || (c.ruid != 0 && c.suid != 0))
  }

  /** Exactly the credentials from which restore_id is granted. */
  predicate Restorable(c: Creds, uid: int) {
    && (uid in Uids(c) || SetUid in c.effective)
    && (if uid == 0
        then SetGid in (if c.euid == 0 then c.effective else c.permitted)
        else 0 !in Uids(c) && SetGid in c.effective)
  }

  lemma RestorableIsExact(c: Creds, uid: int, gid: int)
    ensures Restored(c, uid, gid).Granted? <==> Restorable(c, uid)
    ensures Restorable(c, uid) ==>
              var d := Restored(c, uid, gid).creds;
              IsNeutral(d, uid, gid) && Capable(d) && (WellFormed(c) ==> WellFormed(d))
  {
  }

  /** One call of a switch away from a restorable state leads to a restorable state again; the
      saved uid keeps the way back open. */
  lemma SwitchCallKeepsRestorable(c: Creds, n: nat, t: Target, home: int)
    requires n < SWITCH_CALLS && WellFormed(c)
    requires c.euid == home && Restorable(c, home) && t.uid != 0
    requires SwitchCall(c, n, t, home).Granted?
    ensures var d := SwitchCall(c, n, t, home).creds;
            WellFormed(d) && Restorable(d, home) && (n < 3 ==> d.euid == home)
  {
  }

  lemma {:induction false} EveryStageIsRestorable(c: Creds, n: nat, t: Target)
    requires n <= SWITCH_CALLS && WellFormed(c) && Capable(c) && t.uid != 0
    requires Switched(c, n, t, c.euid).Granted?
    ensures var d := Switched(c, n, t, c.euid).creds;
            WellFormed(d) && Restorable(d, c.euid) && (n < SWITCH_CALLS ==> d.euid == c.euid)
  {
    if n > 0 {
      EveryStageIsRestorable(c, n - 1, t);
      SwitchCallKeepsRestorable(Switched(c, n - 1, t, c.euid).creds, n - 1, t, c.euid);
    }
  }

  /** If a switch can be interrupted after n calls, restore_id is granted there. */
  ghost predicate CanReturn(c: Creds, n: nat, t: Target, gid: int) {
    n <= SWITCH_CALLS && t.uid != 0 && Switched(c, n, t, c.euid).Granted?
    ==> Restored(Switched(c, n, t, c.euid).creds, c.euid, gid).Granted?
  }

  /** restore_id is granted after every possible interruption of a switch to any non-root target
      exactly when the process started Capable, and it then always ends in the neutral credentials,
      which are Capable again. */
  lemma RestoreNeverDenied(c: Creds, gid: int)
    requires WellFormed(c)
    ensures Capable(c) <==> forall n: nat, t: Target :: CanReturn(c, n, t, gid)
    ensures Capable(c) ==>
              forall n: nat, t: Target :: n <= SWITCH_CALLS && t.uid != 0 && Switched(c, n, t, c.euid).Granted?
                ==> var d := Restored(Switched(c, n, t, c.euid).creds, c.euid, gid);
                    d.Granted? && IsNeutral(d.creds, c.euid, gid) && Capable(d.creds)
  {
    if Capable(c) {
      forall n: nat, t: Target | n <= SWITCH_CALLS && t.uid != 0 && Switched(c, n, t, c.euid).Granted?
        ensures var r := Restored(Switched(c, n, t, c.euid).creds, c.euid, gid);
                r.Granted? && IsNeutral(r.creds, c.euid, gid) && Capable(r.creds)
      {
        EveryStageIsRestorable(c, n, t);
        RestorableIsExact(Switched(c, n, t, c.euid).creds, c.euid, gid);
      }
    } else {
      RestorableIsExact(c, c.euid, gid);
      assert !CanReturn(c, 0, Target(1, gid, {}), gid);
    }
  }

  /** The order inside restore_id matters: after a complete switch away from root, asking for the
      group ids before the user ids is denied whenever the neutral gid differs from the user's. */
  lemma GroupsFirstIsDenied(c: Creds, t: Target, gid: int)
    requires Capable(c) && c.euid == 0 && t.uid != 0 && gid != t.gid
    requires Switched(c, SWITCH_CALLS, t, 0).Granted?
    ensures SetGidTo(Switched(c, SWITCH_CALLS, t, 0).creds, gid).Denied?
  {
    assert Switched(c, 3, t, 0).Granted?;
    assert Switched(c, 2, t, 0).Granted?;
    assert Switched(c, 1, t, 0).Granted?;
  }

  /** So does the saved uid: a switch that also gave it up could not be undone. */
  lemma SavedUidIsNeeded(c: Creds, uid: int, gid: int)
    requires WellFormed(c) && Capable(c) && c.euid == 0 && uid != 0
    requires SetResUid(c, uid, uid, uid).Granted?
    ensures Restored(SetResUid(c, uid, uid, uid).creds, 0, gid).Denied?
  {
  }

  /** A start that is not Capable: real uid 0 behind an unprivileged effective uid, with every capability.
      Restoring is denied even if no switch was made, for it gives up the last uid that is 0. */
  lemma HiddenRootIsDenied()
    ensures var c := Creds(0, 1000, 1000, 100, 100, 100, {100}, {SetUid, SetGid}, {SetUid, SetGid});
            WellFormed(c) && !Capable(c) && Restored(c, c.euid, c.egid).Denied?
  {
    var c := Creds(0, 1000, 1000, 100, 100, 100, {100}, {SetUid, SetGid}, {SetUid, SetGid});
    RestorableIsExact(c, 1000, 100);
  }
}
