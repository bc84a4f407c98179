/** A worker from its start to its end (lib/TSI.py with initialize, lib/BecomeUser.py): what the credentials
    that the process is started with and the configuration mean for all of its requests. */
module Startup {
  import opened Text
  import opened Framing
  import opened Connector
  import opened Requests
  import opened Credentials
  import opened OsDatabase
  import opened CacheView
  import opened Staleness
  import opened UserCache
  import opened Groups
  import opened BecomeUser
  import opened Reaper
  import opened Worker
  import opened Transcripts

  /** What an administrator sets. */
  datatype Configuration = Configuration(switchUid: bool, openSessions: bool, policy: Policy, ttl: nat, useId: bool)

  /** Requests are run under the requesting users: this is configured, or the process is started as root. */
  predicate ServesUsers(c: Creds, config: Configuration) {
    config.switchUid || c.euid == 0
  }

  /** If a handler ran, it ran safely under the user named in the request. */
  ghost predicate RanAsUser(history: int -> Database, config: Configuration, t: Turn) {
    t.handled.Some? && t.handled.value.attempt.Ran? ==>
      && t.handled.value.start.Some?
      && Safe(Origin(history, config.useId, config.ttl, t.before.cache, t.before.now), config.policy, t.message,
              t.handled.value.start.value)
  }

  /** The ids and the environment that a worker has between requests. */
  predicate IsBackHome(c: Creds, m: Moment) {
    && m.creds.ruid == m.creds.euid == m.creds.suid == c.euid
    && m.creds.rgid == m.creds.egid == m.creds.sgid == c.egid
    && m.creds.groups == {c.egid}
    && m.env == Environment("/tmp", "nobody", "nobody")
  }

  /** The request was handed to a child with a session of its own. */
  predicate InChild(t: Turn) {
    t.handled.Some? && t.handled.value.session.Some?
  }

  predicate SpawnsForUser(command: Option<Command>) {
    command.Some? && Name(command.value) in {"TSI_EXECUTESCRIPT", "TSI_RUN_ON_LOGIN_NODE", "TSI_SUBMIT", "TSI_UFTP"}
  }

  /** The turn's command is that of the request, and all but a ping are handled. */
  predicate Dispatched(t: Turn) {
    && t.command == FirstMatch(Table(DISPATCHED), t.message)
    && (t.handled.Some? <==> t.command.Some? && !t.command.value.Ping?)
  }

  /** What a completed turn of a worker for users has done. */
  ghost predicate ServedUser(history: int -> Database, c: Creds, config: Configuration, t: Turn) {
    && Dispatched(t) && RanAsUser(history, config, t)
    && (InChild(t) <==> t.handled.Some? && config.openSessions && SpawnsForUser(t.command))
    && (t.handled.Some? && !InChild(t) ==> IsBackHome(c, t.after))
    && (t.handled.None? || InChild(t) ==> t.after.creds == t.before.creds && t.after.env == t.before.env)
  }

  /** A turn of a worker that serves nobody but itself. */
  predicate ServedAsSelf(c: Creds, t: Turn) {
    Dispatched(t) && t.before.creds == t.after.creds == c && !InChild(t)
  }

  lemma {:induction false} UnchangedThroughout(running: int -> set<int>, log: seq<Turn>, first: Moment, last: Moment)
    requires Linked(running, log, first, last)
    requires forall i :: 0 <= i < |log| ==> log[i].after.creds == log[i].before.creds
    ensures last.creds == first.creds
    ensures forall i :: 0 <= i < |log| ==> log[i].before.creds == first.creds
  {
    if log != [] {
      var init := log[..|log| - 1];
      UnchangedThroughout(running, init, first, log[|log| - 1].before);
      assert forall i :: 0 <= i < |init| ==> log[i] == init[i];
    }
  }

  /** The commands whose processes outlive the request. */
  lemma SpawningCommands(c: Command)
    ensures Spawns(c) <==> SpawnsForUser(Some(c))
  {
    assert Spawns(c) ==> SpawnsForUser(Some(c));
    assert ExecuteScript == c || RunOnLoginNode == c || Submit == c || Uftp == c || !Spawns(c);
    if SpawnsForUser(Some(c)) && !Spawns(c) {
      NamesDiffer(c, if Name(c) == "TSI_EXECUTESCRIPT" then ExecuteScript
                     else if Name(c) == "TSI_RUN_ON_LOGIN_NODE" then RunOnLoginNode
                     else if Name(c) == "TSI_SUBMIT" then Submit else Uftp);
    }
  }

  /** One run of a worker. If it is to serve users, every handler that runs does so safely under the user
      named in its request, and after every request handled in this process the ids are those of the
      start and the environment is harmless. Otherwise the credentials never change. */
  method RunFrom(c: Creds, env: Environment, config: Configuration, host: Host, control: ControlChannel, oneShot: bool)
    returns (exit: Exit, final: Creds, ghost log: seq<Turn>, ghost aborted: Option<Turn>)
    requires WellFormed(c) && (ServesUsers(c, config) ==> Capable(c))
    requires "" !in control.input
    modifies host, control
    ensures exit != Escaped(RestoreRefused) && (exit.Returned? <==> aborted.None?)
    ensures exit.Returned? ==> Accounted(log, Messages(old(control.input), END_LINE), Messages(control.input, END_LINE),
                                         old(control.output), control.output)
    ensures ServesUsers(c, config) ==>
              && (forall i :: 0 <= i < |log| ==> ServedUser(host.history, c, config, log[i]))
              && (aborted.Some? ==> RanAsUser(host.history, config, aborted.value))
    ensures !ServesUsers(c, config) ==> final == c && forall i :: 0 <= i < |log| ==> ServedAsSelf(c, log[i])
  {
    hide Safe, Exact, IsTrue, Accounted, Linked, Capable, FirstMatch, Table, END_LINE, Messages;
    hide Worker.TurnIsSafe, Worker.TurnIsUndone, ServedUser, RanAsUser, ServedAsSelf;
    var st := Initialize(c, config.switchUid, config.openSessions, config.policy);
    var conn := new Connector(control, "");
    var proc := new Process(c, env);
    var cache := new UserCache(host, config.ttl, config.useId);
    var children := new Children([]);
    var worker := new Worker(st, Table(DISPATCHED), conn, proc, cache, children);
    StartsReady(worker, c, config.switchUid, config.openSessions, config.policy);
    ghost var first := worker.Present();
    exit, log, aborted := worker.Run(oneShot);
    final := proc.creds;
    if ServesUsers(c, config) {
      forall i | 0 <= i < |log| ensures ServedUser(host.history, c, config, log[i]) {
        TurnServedUser(worker, c, config, log[i]);
      }
      if aborted.Some? {
        SafeTurnRanAsUser(worker, c, config, aborted.value);
      }
    } else {
      forall i | 0 <= i < |log|
        ensures log[i].after.creds == log[i].before.creds && !InChild(log[i]) && Dispatched(log[i])
      {
        TurnServedSelf(worker, c, config, log[i]);
      }
      UnchangedThroughout(host.running, log, first,
                          if aborted.Some? then aborted.value.before else worker.Present());
      if aborted.Some? {
        AbortedServedSelf(worker, c, config, aborted.value);
      }
      forall i | 0 <= i < |log| ensures ServedAsSelf(c, log[i]) {
        ServedSelfIs(c, log[i]);
      }
    }
  }

  lemma ServedSelfIs(c: Creds, t: Turn)
    requires Dispatched(t) && t.before.creds == t.after.creds == c && !InChild(t)
    ensures ServedAsSelf(c, t)
  {
  }

  lemma SafeTurnRanAsUser(w: Worker, c: Creds, config: Configuration, t: Turn)
    requires w.st == Initialize(c, config.switchUid, config.openSessions, config.policy) && ServesUsers(c, config)
    requires w.cache.ttl == config.ttl && w.cache.useId == config.useId && w.TurnIsSafe(t)
    ensures RanAsUser(w.cache.host.history, config, t)
  {
    hide Safe, Exact;
  }

  lemma TurnServedSelf(w: Worker, c: Creds, config: Configuration, t: Turn)
    requires w.st == Initialize(c, config.switchUid, config.openSessions, config.policy) && !ServesUsers(c, config)
    requires w.table == Table(DISPATCHED) && w.TurnIsSafe(t) && w.TurnIsUndone(t)
    ensures t.after.creds == t.before.creds && !InChild(t) && Dispatched(t)
  {
    hide Safe, Exact, FirstMatch, Table;
  }

  lemma AbortedServedSelf(w: Worker, c: Creds, config: Configuration, t: Turn)
    requires w.st == Initialize(c, config.switchUid, config.openSessions, config.policy) && !ServesUsers(c, config)
    requires w.TurnIsSafe(t)
    ensures t.after.creds == t.before.creds
  {
    hide Safe, Exact;
  }

  lemma TurnServedUser(w: Worker, c: Creds, config: Configuration, t: Turn)
    requires w.st == Initialize(c, config.switchUid, config.openSessions, config.policy) && ServesUsers(c, config)
    requires w.table == Table(DISPATCHED)
    requires w.cache.ttl == config.ttl && w.cache.useId == config.useId
    requires w.TurnIsSafe(t) && w.TurnIsUndone(t)
    ensures ServedUser(w.cache.host.history, c, config, t)
  {
    hide Safe, Exact, FirstMatch, Table, SpawnsForUser, Spawns, IsNeutral, IsBackHome, NEUTRAL_ENVIRONMENT;
    if t.command.Some? {
      SpawningCommands(t.command.value);
    }
    NeutralIsHome(c, t.after);
  }

  lemma NeutralIsHome(c: Creds, m: Moment)
    ensures IsNeutral(m.creds, c.euid, c.egid) && m.env == NEUTRAL_ENVIRONMENT ==> IsBackHome(c, m)
  {
  }
}
