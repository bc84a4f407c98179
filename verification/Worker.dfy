/** The worker: one request after the other, each run under the requesting user's identity
    (process and handle_function, lib/TSI.py). */
module Worker {
  import opened Text
  import opened Framing
  import opened Connector
  import opened Requests
  import opened Credentials
  import opened OsDatabase
  import opened CacheView
  import opened Staleness
  import opened UserCache
  import opened Groups
  import opened Served
  import opened GroupLookup
  import opened Resolution
  import opened BecomeUser
  import opened Reaper

  const UNKNOWN := "Unknown #TSI_* command"
  const VERSION := "__VERSION__"

  /** One execution of a handler: what it wrote, the children it left, and its exception if any. */
  datatype HandlerRun = HandlerRun(messages: seq<string>, spawned: seq<int>, error: Option<string>)

  /** Opening a PAM session: done, refused by PAM, or not even constructed. */
  datatype Session = Opened | OpenFailed(reason: string) | Unavailable(reason: string)

  /** The try block either got to run the handler or raised before it. */
  datatype Attempt = Ran(run: HandlerRun) | Prevented(reason: string)

  datatype Cause = WriteFailed | CallFailed | RestoreRefused | ForkFailed

  /** handle_function returns, or an exception escapes and ends the worker. */
  datatype Exit = Returned | Escaped(cause: Cause)

  /** The process at the instant a handler starts, and the midway point at which the user's entry had
      been prepared for the uid. */
  datatype Start = Start(user: string, groups: seq<string>, ids: UserIds, creds: Creds, env: Environment,
                         midway: Origin, at: int)

  /** A handled request. It is clean when no write to the control channel failed. */
  datatype Handled = Handled(session: Option<Session>, start: Option<Start>, attempt: Attempt, clean: bool)

  /** What the handler wrote itself. */
  function Output(a: Attempt): string {
    match a
    case Prevented(_) => ""
    case Ran(run) => Sent(run.messages)
  }

  /** The exception that the try block ended with. */
  function ErrorOf(a: Attempt): Option<string> {
    match a
    case Prevented(reason) => Some(reason)
    case Ran(run) => run.error
  }

  /** A handled request's reply: the handler's output, and one line more if there was an exception. */
  function Reply(a: Attempt): string {
    match ErrorOf(a)
    case None => Output(a)
    case Some(e) => Output(a) + (FailedLine(e) + NL)
  }

  lemma ReplyWithFailure(before: string, a: Attempt)
    requires ErrorOf(a).Some?
    ensures before + Output(a) + FailedLine(ErrorOf(a).value) + NL == before + Reply(a)
  {
    var line := FailedLine(ErrorOf(a).value);
    hide Output, FailedLine, ErrorOf;
    Regrouped(before, Output(a), line + NL);
    Regrouped(before + Output(a), line, NL);
  }

  function Spawned(a: Attempt): seq<int> {
    match a
    case Prevented(_) => []
    case Ran(run) => run.spawned
  }

  /** Handler-execution safety: the handler runs as the user named in the request, who is neither
      root nor unknown, under exactly the ids and groups resolved for that user since the origin, none of
      which is the mark of a missing user or group. */
  ghost predicate Safe(o: Origin, p: Policy, message: string, s: Start) {
    && IdentityOf(message).Some?
    && s.user == IdentityOf(message).value.user && s.groups == Split(IdentityOf(message).value.groups, ':')
    && IsKernelIds(s.ids) && RunsAs(s.creds, Target(s.ids.uid, s.ids.gid, SetOf(s.ids.gids)))
    && s.env.user == s.env.logname == s.user
    && Resolved(o, s.midway, s.at, p, s.groups, s.user, s.ids, s.env.home)
  }

  /** On a host whose database does not change, ids and home are the database's own. */
  ghost predicate Exact(host: Host, useId: bool, p: Policy, s: Start) {
    var db := host.history(0);
    host.Stable() ==>
      && s.groups != [] && ResolvedIds(db, useId, p, s.groups, s.user) == Value(s.ids)
      && HomeOf(db, s.user) == Some(s.env.home)
  }

  /** What safety means for the ids under which a handler runs: the uid was the user's in a record that
      is recent; with group enforcement the database held the gid, and in strict mode every group, as the
      user's own, and always for a request that names no groups. */
  lemma SafeIdsWereHeld(o: Origin, p: Policy, message: string, s: Start)
    requires Safe(o, p, message, s)
    ensures s.creds.ruid == s.creds.euid == s.ids.uid > 0
    ensures s.creds.rgid == s.creds.egid == s.ids.gid >= 0
    ensures forall g :: (g in s.creds.groups <==> g in s.ids.gids) && (g in s.creds.groups ==> g >= 0)
    ensures exists at, gidsAt ::
              && IsRecent(o, s.at, s.user, at, gidsAt)
              && Passwd(o.history(at), s.user).Some? && Passwd(o.history(at), s.user).value.uid == s.creds.euid
    ensures p.enforceOsGids || s.groups[0] == "NONE" ==> OwnHeld(o, s.at, s.user, s.creds.egid)
    ensures (p.enforceOsGids && p.failOnInvalid) || s.groups[0] == "NONE" ==>
              forall g :: g in s.creds.groups ==> OwnHeld(o, s.at, s.user, g)
  {
    hide Resolved, OwnHeld, IsRecent;
    ResolvedSinceOrigin(o, s.midway, s.at, p, s.groups, s.user, s.ids, s.env.home);
    IdsWereHeld(o, s.midway, s.at, p, s.groups, s.user, s.ids, s.env.home);
  }

  /** The exception with which a request is refused over one database, if it is. */
  function Refusal(db: Database, useId: bool, p: Policy, message: string): Option<string> {
    match IdentityOf(message)
    case None => Some("No user/group info given")
    case Some(id) =>
      match ResolvedIds(db, useId, p, Split(id.groups, ':'), id.user)
      case Raised(e) => Some(e)
      case Value(_) => None
  }

  /** Unless a session could not be opened, a stable host refuses the requests it has to refuse, and
      with the same reply whether or not the request is handed to a child. */
  ghost predicate RefusedAlike(host: Host, useId: bool, p: Policy, message: string, h: Handled) {
    host.Stable() && Refusal(host.history(0), useId, p, message).Some? && (h.session.Some? ==> h.session.value.Opened?)
    ==> h.attempt == Prevented(Refusal(host.history(0), useId, p, message).value)
  }

  /** The process, the contents of its cache, its children and the clock at one moment of the main loop. */
  datatype Moment = Moment(creds: Creds, env: Environment, cache: View, children: seq<int>, now: int)

  /** One turn of the main loop: the request, the moments before and after it, and what was done.
      Without a command, or for a ping, no handler is dispatched. */
  datatype Turn = Turn(message: string, command: Option<Command>, before: Moment, after: Moment,
                       handled: Option<Handled>, clean: bool)

  /** These processes run over the whole span. */
  ghost predicate RunThrough(running: int -> set<int>, pids: set<int>, from: int, to: int) {
    forall t :: from <= t <= to ==> pids <= running(t)
  }

  /** No child that runs throughout is dropped from the list, nor moved. */
  ghost predicate ChildrenKept(running: int -> set<int>, a: Moment, b: Moment) {
    forall pids: set<int> ::
      RunThrough(running, pids, a.now, b.now) ==> Live(b.children, pids) == Live(a.children, pids)
  }

  /** Between two turns nothing happens but that time passes and finished children are removed. */
  ghost predicate Continues(running: int -> set<int>, a: Moment, b: Moment) {
    a.now <= b.now && b == a.(now := b.now, children := b.children) && ChildrenKept(running, a, b)
  }

  /** The turns follow each other from the first moment to the last. */
  ghost predicate Linked(running: int -> set<int>, log: seq<Turn>, first: Moment, last: Moment) {
    if log == [] then Continues(running, first, last)
    else
      && Linked(running, log[..|log| - 1], first, log[|log| - 1].before)
      && Continues(running, log[|log| - 1].after, last)
  }

  lemma StaysPut(running: int -> set<int>, m: Moment)
    ensures Continues(running, m, m)
  {
  }

  lemma LinkedStart(running: int -> set<int>, m: Moment)
    ensures Linked(running, [], m, m)
  {
  }

  lemma ContinuesTwice(running: int -> set<int>, a: Moment, b: Moment, c: Moment)
    requires Continues(running, a, b) && Continues(running, b, c)
    ensures Continues(running, a, c)
  {
    forall pids | RunThrough(running, pids, a.now, c.now) ensures Live(c.children, pids) == Live(a.children, pids) {
      assert RunThrough(running, pids, a.now, b.now) && RunThrough(running, pids, b.now, c.now);
    }
  }

  lemma LinkedStep(running: int -> set<int>, log: seq<Turn>, t: Turn, first: Moment)
    requires Linked(running, log, first, t.before)
    ensures Linked(running, log + [t], first, t.after)
  {
    assert (log + [t])[..|log|] == log;
    StaysPut(running, t.after);
  }

  lemma LinkedWaiting(running: int -> set<int>, log: seq<Turn>, first: Moment, last: Moment, later: Moment)
    requires Linked(running, log, first, last) && Continues(running, last, later)
    ensures Linked(running, log, first, later)
  {
    ContinuesTwice(running, if log == [] then first else log[|log| - 1].after, last, later);
  }

  /** A clean-up removes only children that have finished. */
  lemma CleanupContinues(running: int -> set<int>, a: Moment, b: Moment, alive: set<int>)
    requires a.now <= b.now && b == a.(now := b.now, children := b.children)
    requires alive == running(a.now) && Live(b.children, alive) == Live(a.children, alive)
    ensures Continues(running, a, b)
  {
    forall pids | RunThrough(running, pids, a.now, b.now) ensures Live(b.children, pids) == Live(a.children, pids) {
      LiveOfLive(a.children, alive, pids);
      LiveOfLive(b.children, alive, pids);
    }
  }

  /** The children that the turns left to this process, in order. */
  function Offspring(log: seq<Turn>): seq<int> {
    if log == [] then [] else Offspring(log[..|log| - 1]) + Offshoots(log[|log| - 1].handled)
  }

  /** The children of a handler that ran in this process; those of a forked child are not its own. */
  function Offshoots(handled: Option<Handled>): seq<int> {
    if handled.Some? && handled.value.session.None? then Spawned(handled.value.attempt) else []
  }

  /** No live child is ever forgotten: over a whole run, restricted to processes that run throughout, the
      child list is that of the start followed by the children of the turns, in order. */
  lemma {:induction false} LiveChildrenStay(running: int -> set<int>, log: seq<Turn>, first: Moment, last: Moment,
                                            pids: set<int>)
    requires Linked(running, log, first, last) && RunThrough(running, pids, first.now, last.now)
    requires forall i :: 0 <= i < |log| ==>
               && log[i].before.now <= log[i].after.now
               && log[i].after.children == log[i].before.children + Offshoots(log[i].handled)
    ensures first.now <= last.now
    ensures Live(last.children, pids) == Live(first.children + Offspring(log), pids)
  {
    hide Live, Spawned;
    if log == [] {
      assert first.children + Offspring(log) == first.children;
    } else {
      var init, t := log[..|log| - 1], log[|log| - 1];
      SpanOf(running, log, first, last);
      assert RunThrough(running, pids, first.now, t.before.now) && RunThrough(running, pids, t.after.now, last.now);
      LiveChildrenStay(running, init, first, t.before, pids);
      hide Linked, Continues, RunThrough;
      var earlier, own := first.children + Offspring(init), Offshoots(t.handled);
      LiveOfConcat(t.before.children, own, pids);
      LiveOfConcat(earlier, own, pids);
      assert first.children + Offspring(log) == earlier + own;
    }
  }

  lemma {:induction false} SpanOf(running: int -> set<int>, log: seq<Turn>, first: Moment, last: Moment)
    requires Linked(running, log, first, last)
    requires forall i :: 0 <= i < |log| ==> log[i].before.now <= log[i].after.now
    ensures first.now <= last.now
    ensures log != [] ==> first.now <= log[|log| - 1].before.now <= log[|log| - 1].after.now <= last.now
  {
    if log != [] {
      SpanOf(running, log[..|log| - 1], first, log[|log| - 1].before);
    }
  }

  function FixedText(command: Option<Command>): string {
    if command.None? then UNKNOWN else VERSION
  }

  /** A turn's reply, without the terminator. */
  function Body(command: Option<Command>, handled: Option<Handled>): string {
    match handled
    case Some(h) => Reply(h.attempt)
    case None => (if command.None? then FailedLine(FixedText(command)) else OkText(Some(FixedText(command)))) + NL
  }

  lemma BodyWithoutHandler(before: string, command: Option<Command>)
    ensures command.None? ==> before + FailedLine(FixedText(command)) + NL == before + Body(command, None)
    ensures command.Some? ==> before + OkText(Some(FixedText(command))) + NL == before + Body(command, None)
  {
  }

  /** Everything a turn writes. */
  function TurnText(t: Turn): string {
    Body(t.command, t.handled) + END_LINE
  }

  function Transcript(log: seq<Turn>): string {
    if log == [] then "" else Transcript(log[..|log| - 1]) + TurnText(log[|log| - 1])
  }

  /** The log accounts for the messages sent, as far as the rest still to come, and for the output. */
  ghost predicate Accounted(log: seq<Turn>, sent: seq<string>, rest: seq<string>, before: string, output: string) {
    && |log| <= |sent| && sent[|log|..] == rest
    && (forall i :: 0 <= i < |log| ==> log[i].message == sent[i])
    && ((forall i :: 0 <= i < |log| ==> log[i].clean) ==> output == before + Transcript(log))
  }

  lemma AccountedStep(log: seq<Turn>, t: Turn, sent: seq<string>, rest: seq<string>, before: string,
                      output: string, output': string)
    requires Accounted(log, sent, [t.message] + rest, before, output)
    requires t.clean ==> output' == output + TurnText(t)
    ensures Accounted(log + [t], sent, rest, before, output')
  {
    hide TurnText, Transcript;
    TranscriptSnoc(before, log, t);
    assert sent[|log|] == sent[|log|..][0] == t.message;
    assert sent[|log| + 1..] == sent[|log|..][1..] == rest;
    var log' := log + [t];
    if forall i :: 0 <= i < |log'| ==> log'[i].clean {
      assert log'[|log|].clean;
      assert forall i :: 0 <= i < |log| ==> log[i] == log'[i];
    }
  }

  lemma AccountedReading(log: seq<Turn>, t: Turn, sent: seq<string>, rest: seq<string>, before: string, output: string)
    requires Accounted(log, sent, [t.message] + rest, before, output)
    ensures |log| < |sent| && sent[|log|] == t.message
    ensures forall i :: 0 <= i < |log| ==> log[i].message == sent[i]
  {
    assert sent[|log|] == sent[|log|..][0];
  }

  class Worker {
    const st: Settings
    const table: seq<Entry>
    const conn: Connector
    const proc: Process
    const cache: UserCache
    const children: Children

    constructor (st: Settings, table: seq<Entry>, conn: Connector, proc: Process, cache: UserCache, children: Children)
      ensures this.st == st && this.table == table && this.conn == conn
      ensures this.proc == proc && this.cache == cache && this.children == children
    {
      this.st, this.table, this.conn := st, table, conn;
      this.proc, this.cache, this.children := proc, cache, children;
    }

    /** The child after fork(): its own process, cache, child list and output buffer, each a copy of the
        parent's, and the same control channel. */
    constructor Forked(parent: Worker)
      requires parent.cache.Valid()
      ensures st == parent.st && table == parent.table
      ensures fresh(conn) && conn.control == parent.conn.control && conn.buffer == parent.conn.buffer
      ensures fresh(proc) && proc.creds == parent.proc.creds && proc.env == parent.proc.env
      ensures fresh(cache) && cache.Valid() && cache.host == parent.cache.host
      ensures cache.ttl == parent.cache.ttl && cache.useId == parent.cache.useId && cache.View() == parent.cache.View()
      ensures fresh(children) && children.pids == parent.children.pids
    {
      st, table := parent.st, parent.table;
      conn := new Connector(parent.conn.control, parent.conn.buffer);
      proc := new Process(parent.proc.creds, parent.proc.env);
      cache := new UserCache.Copy(parent.cache);
      children := new Children(parent.children.pids);
    }

    /** The loop-head invariant: nothing is left in the output buffer, and with switching on, the
        process can switch and come back. */
    ghost predicate Ready()
      reads proc, cache, cache.host, conn
    {
      && cache.Valid() && conn.buffer == "" && (forall e :: e in table ==> !e.command.StartForwarding?)
      && (st.switchUid ==> WellFormed(proc.creds) && proc.creds.euid == st.uid && Capable(proc.creds))
    }

    ghost predicate AtRest()
      reads proc
    {
      proc.env == NEUTRAL_ENVIRONMENT && IsNeutral(proc.creds, st.uid, st.gid)
    }

    ghost function Present(): Moment
      reads proc, cache, cache.host, children
    {
      Moment(proc.creds, proc.env, cache.View(), children.pids, cache.host.now)
    }

    ghost function OriginAt(m: Moment): Origin {
      Origin(cache.host.history, cache.useId, cache.ttl, m.cache, m.now)
    }

    /** The handler's own look up of a home directory (get_user_info); no other touches the cache. */
    method ConsultCache()
      requires cache.Valid()
      modifies cache, cache.host
      ensures cache.Valid() && cache.host.now >= old(cache.host.now)
    {
      hide IsTrue, IsCurrent, Readable, Prepared, IsInterrupted;
      var consults: bool := *;
      if consults {
        var user: string := *;
        var home, c := cache.GetHome(user);
      }
    }

    /** The handler writes its messages; a failing write raises inside the handler. */
    method RunHandler() returns (run: HandlerRun, clean: bool)
      requires cache.Valid() && conn.buffer == ""
      modifies conn`buffer, conn.control`output, children, cache, cache.host
      ensures cache.Valid() && cache.host.now >= old(cache.host.now)
      ensures clean ==> conn.buffer == "" && conn.control.output == old(conn.control.output) + Sent(run.messages)
      ensures !clean ==> run.error.Some?
      ensures children.pids == old(children.pids) + run.spawned
    {
      hide IsTrue;
      run := *;
      clean := true;
      ghost var before := conn.control.output;
      assert run.messages[..0] == [];
      ConsultCache();
      for i := 0 to |run.messages|
        invariant cache.Valid() && cache.host.now >= old(cache.host.now)
        invariant conn.buffer == "" && conn.control.output == before + Sent(run.messages[..i])
        invariant children.pids == old(children.pids)
      {
        SentOne(run.messages[..i], run.messages[i]);
        assert run.messages[..i + 1] == run.messages[..i] + [run.messages[i]];
        NothingBuffered(conn);
        clean := conn.WriteMessage(run.messages[i]);
        if !clean {
          var reason: string := *;
          run := run.(error := Some(reason));
          children.Add(run.spawned);
          return;
        }
      }
      assert run.messages[..|run.messages|] == run.messages;
      children.Add(run.spawned);
    }

    /** The identity part of the try block: read the identity, open the session, become the user. */
    method SwitchUser(message: string, session: Option<Session>)
      returns (failure: Option<string>, ghost start: Option<Start>)
      requires Ready() && st.switchUid
      modifies proc, cache, cache.host
      ensures cache.Valid() && cache.host.now >= old(cache.host.now)
      ensures WellFormed(proc.creds) && Restorable(proc.creds, st.uid)
      ensures failure.None? ==>
                && start.Some? && start.value.creds == proc.creds && start.value.env == proc.env
                && Safe(old(OriginOf(cache)), st.policy, message, start.value) && start.value.at <= cache.host.now
                && Exact(cache.host, cache.useId, st.policy, start.value)
      ensures cache.host.Stable() && (session.Some? ==> session.value.Opened?) ==>
                var refusal := Refusal(StableDb(cache), cache.useId, st.policy, message);
                refusal.Some? ==> failure == refusal
    {
      hide ResolvedIds;
      start := None;
      EveryStageIsRestorable(proc.creds, 0, Target(1, 0, {}));
      var id := IdentityOf(message);
      if id.None? {
        return Some("No user/group info given"), None;
      }
      if session.Some? && !session.value.Opened? {
        return Some(session.value.reason), None;
      }
      var user, groups := id.value.user, Split(id.value.groups, ':');
      ghost var o := OriginOf(cache);
      NowTracks(cache);
      var r, stage, target, midway := Become(user, groups, st, proc, cache, o);
      EveryStageIsRestorable(old(proc.creds), stage, target);
      if r.Raised? {
        return Some(r.reason), None;
      }
      failure := None;
      start := Some(Start(user, groups, r.value.value, proc.creds, proc.env, midway, cache.host.now));
    }

    /** The try block: switch, then run the handler. */
    method TryRequest(message: string, session: Option<Session>) returns (failure: Option<string>, ghost h: Handled)
      requires Ready()
      modifies proc, cache, cache.host, children, conn`buffer, conn.control`output
      ensures cache.Valid() && cache.host.now >= old(cache.host.now)
      ensures if st.switchUid then WellFormed(proc.creds) && Restorable(proc.creds, st.uid)
              else proc.creds == old(proc.creds) && proc.env == old(proc.env)
      ensures failure == ErrorOf(h.attempt) && (!h.clean ==> failure.Some?)
      ensures h.clean ==> conn.buffer == "" && conn.control.output == old(conn.control.output) + Output(h.attempt)
      ensures children.pids == old(children.pids) + Spawned(h.attempt)
      ensures st.switchUid && h.attempt.Ran? ==> h.start.Some?
      ensures h.start.Some? ==>
                && Safe(old(OriginOf(cache)), st.policy, message, h.start.value) && h.start.value.at <= cache.host.now
                && Exact(cache.host, cache.useId, st.policy, h.start.value)
      ensures h.session == session
      ensures st.switchUid ==> RefusedAlike(cache.host, cache.useId, st.policy, message, h)
    {
      ghost var start: Option<Start> := None;
      if st.switchUid {
        failure, start := SwitchUser(message, session);
        if failure.Some? {
          h := Handled(session, None, Prevented(failure.value), true);
          assert conn.control.output == old(conn.control.output) + "";
          return;
        }
      }
      var run, clean := RunHandler();
      failure := run.error;
      h := Handled(session, start, Ran(run), clean);
    }

    /** handle_function in the process that runs the handler: try block, failure report, restore. */
    method RunRequest(command: Command, message: string, session: Option<Session>)
      returns (exit: Exit, ghost h: Handled)
      requires Ready()
      modifies proc, cache, cache.host, children, conn`buffer, conn.control`output
      ensures cache.Valid() && cache.host.now >= old(cache.host.now)
      ensures h.clean ==> conn.control.output == old(conn.control.output) + Reply(h.attempt)
      ensures h.clean || exit.Returned? ==> conn.buffer == ""
      ensures children.pids == old(children.pids) + Spawned(h.attempt)
      ensures exit != Escaped(RestoreRefused)
      ensures st.switchUid && exit.Returned? && !command.StartForwarding? ==> AtRest() && Ready()
      ensures !st.switchUid ==> proc.creds == old(proc.creds) && proc.env == old(proc.env)
      ensures st.switchUid && h.attempt.Ran? ==> h.start.Some?
      ensures h.start.Some? ==>
                && Safe(old(OriginOf(cache)), st.policy, message, h.start.value) && h.start.value.at <= cache.host.now
                && Exact(cache.host, cache.useId, st.policy, h.start.value)
      ensures h.session == session
      ensures st.switchUid ==> RefusedAlike(cache.host, cache.useId, st.policy, message, h)
    {
      hide Safe, Exact, IsTrue, Refusal, FailedLine, Output, IsNeutral;
      var failure;
      failure, h := TryRequest(message, session);
      if failure.Some? {
        if h.clean {
          NothingBuffered(conn);
        }
        var ok := conn.Failed(failure.value);
        ReplyWithFailure(old(conn.control.output), h.attempt);
        h := h.(clean := h.clean && ok);
        if !ok {
          return Escaped(WriteFailed), h;
        }
      }
      if st.switchUid && !command.StartForwarding? {
        var s := RestoreId(st, proc);
        if s != Done {
          return Escaped(if s == Refused then RestoreRefused else CallFailed), h;
        }
      }
      exit := Returned;
    }

    /** A spawning command under PAM sessions is handed to a forked child. */
    predicate Forks(command: Command) {
      st.switchUid && st.openSessions && Spawns(command)
    }

    /** handle_function. With a session to open, the request runs in a child that shares nothing but
        the control channel, and the parent only waits for it. Nothing is buffered when the child is
        forked, so no text is sent twice, nor when a child that came to its end is left by os._exit(),
        which drops the buffer. A child in which no session object was made, for want of an identity
        line or of PAM, ends by an exception instead (lib/TSI.py:350); its reply has then been sent, too. */
    method HandleFunction(command: Command, message: string) returns (exit: Exit, ghost h: Handled)
      requires Ready()
      modifies proc, cache, cache.host, children, conn`buffer, conn.control`output
      ensures cache.Valid() && cache.host.now >= old(cache.host.now)
      ensures exit != Escaped(RestoreRefused)
      ensures exit.Returned? ==> conn.buffer == ""
      ensures exit.Returned? && h.clean ==> conn.control.output == old(conn.control.output) + Reply(h.attempt)
      ensures h.start.Some? ==>
                && Safe(old(OriginOf(cache)), st.policy, message, h.start.value) && h.start.value.at <= cache.host.now
                && Exact(cache.host, cache.useId, st.policy, h.start.value)
      ensures st.switchUid && h.attempt.Ran? ==> h.start.Some?
      ensures Forks(command) || !st.switchUid ==> proc.creds == old(proc.creds) && proc.env == old(proc.env)
      ensures Forks(command) ==> unchanged(cache) && unchanged(children)
      ensures st.switchUid && !Forks(command) && exit.Returned? && !command.StartForwarding? ==> AtRest() && Ready()
      ensures !Forks(command) ==> children.pids == old(children.pids) + Spawned(h.attempt)
      ensures st.switchUid && exit.Returned? ==> RefusedAlike(cache.host, cache.useId, st.policy, message, h)
      ensures exit.Returned? ==> (h.session.Some? <==> Forks(command))
    {
      if !Forks(command) {
        exit, h := RunRequest(command, message, None);
        return;
      }
      h := Handled(None, None, Prevented(""), false);
      var forked: bool := *;
      if !forked {
        return Escaped(ForkFailed), h;
      }
      var child := new Worker.Forked(this);
      var session: Session := *;
      var childExit;
      childExit, h := child.RunRequest(command, message, Some(session));
      // what os._exit(0) drops, or the exception with which a child without a session object ends
      assert childExit.Returned? ==> child.conn.buffer == "";
      exit := Returned;
    }

    /** Every handler that runs, also one whose turn never ends, is safe, as seen from the moment
        before the turn: what it runs under was cached and unexpired then, or was looked up since. */
    ghost predicate TurnIsSafe(t: Turn) {
      && t.before.now <= t.after.now
      && (t.handled.Some? ==>
            && (st.switchUid && t.handled.value.attempt.Ran? ==> t.handled.value.start.Some?)
            && (t.handled.value.start.Some? ==>
                  && Safe(OriginAt(t.before), st.policy, t.message, t.handled.value.start.value)
                  && t.handled.value.start.value.at <= t.after.now
                  && Exact(cache.host, cache.useId, st.policy, t.handled.value.start.value)))
      && (!st.switchUid ==> t.after.creds == t.before.creds && t.after.env == t.before.env)
    }

    /** At the end of a turn a process that switched is neutral again, any other is as it was; the
        cache changes only in a turn that handles a request in this process, and only such a turn adds
        children. */
    ghost predicate TurnIsUndone(t: Turn) {
      && t.command == FirstMatch(table, t.message)
      && (t.handled.Some? <==> t.command.Some? && !t.command.value.Ping?)
      && (t.handled.Some? ==> (t.handled.value.session.Some? <==> Forks(t.command.value)))
      && (if t.handled.Some? && st.switchUid && !Forks(t.command.value)
          then IsNeutral(t.after.creds, st.uid, st.gid) && t.after.env == NEUTRAL_ENVIRONMENT
          else t.after.creds == t.before.creds && t.after.env == t.before.env)
      && (t.handled.None? || Forks(t.command.value) ==> t.after.cache == t.before.cache)
      && t.after.children == t.before.children + Offshoots(t.handled)
    }

    /** The replies that need no handler. */
    method Announce(command: Option<Command>) returns (ok: bool)
      requires command.None? || command.value.Ping?
      requires conn.buffer == ""
      modifies conn`buffer, conn.control`output
      ensures ok ==> conn.buffer == "" && conn.control.output == old(conn.control.output) + Body(command, None)
    {
      NothingBuffered(conn);
      BodyWithoutHandler(conn.control.output, command);
      var text := FixedText(command);
      if command.None? {
        ok := conn.Failed(text);
      } else {
        ok := conn.Ok(Some(text));
      }
    }

    /** Replies to one message, up to the terminator line. */
    method Dispatch(command: Option<Command>, message: string)
      returns (exit: Exit, ghost handled: Option<Handled>, ghost clean: bool)
      requires Ready() && (command.Some? ==> !command.value.StartForwarding?)
      modifies proc, cache, cache.host, children, conn`buffer, conn.control`output
      ensures cache.Valid() && cache.host.now >= old(cache.host.now)
      ensures exit != Escaped(RestoreRefused)
      ensures handled.Some? <==> command.Some? && !command.value.Ping?
      ensures handled.None? || Forks(command.value) ==> cache.View() == old(cache.View())
      ensures handled.Some? && st.switchUid && handled.value.attempt.Ran? ==> handled.value.start.Some?
      ensures handled.Some? && handled.value.start.Some? ==>
                && Safe(old(OriginOf(cache)), st.policy, message, handled.value.start.value)
                && handled.value.start.value.at <= cache.host.now
                && Exact(cache.host, cache.useId, st.policy, handled.value.start.value)
      ensures exit.Returned? ==> Ready()
      ensures exit.Returned? && handled.Some? ==> (handled.value.session.Some? <==> Forks(command.value))
      ensures exit.Returned? ==>
                children.pids == old(children.pids) + Offshoots(handled)
      ensures !st.switchUid ==> proc.creds == old(proc.creds) && proc.env == old(proc.env)
      ensures exit.Returned? && handled.Some? && st.switchUid && !Forks(command.value) ==> AtRest()
      ensures exit.Returned? && !(handled.Some? && st.switchUid && !Forks(command.value)) ==>
                proc.creds == old(proc.creds) && proc.env == old(proc.env)
      ensures exit.Returned? && clean ==> conn.control.output == old(conn.control.output) + Body(command, handled)
    {
      hide Safe, Exact, IsTrue, Reply, FailedLine, OkText;
      if command.None? || command.value.Ping? {
        handled := None;
        var ok := Announce(command);
        clean := ok;
        exit := if ok then Returned else Escaped(WriteFailed);
      } else {
        ghost var h;
        exit, h := HandleFunction(command.value, message);
        handled, clean := Some(h), h.clean;
      }
    }

    /** One turn, after a message has been read. */
    method Serve(message: string) returns (exit: Exit, ghost t: Turn)
      requires Ready()
      modifies proc, cache, cache.host, children, conn`buffer, conn.control`output
      ensures cache.Valid()
      ensures exit != Escaped(RestoreRefused)
      ensures t.message == message && t.before == old(Present()) && t.after == Present()
      ensures TurnIsSafe(t)
      ensures exit.Returned? ==> Ready() && TurnIsUndone(t)
      ensures exit.Returned? && t.clean ==> conn.control.output == old(conn.control.output) + TurnText(t)
    {
      hide Safe, Exact, IsTrue, TurnText, Body, END_LINE;
      var command := FindCommand(table, message);
      FirstMatchIsListed(table, message);
      ghost var before := Present();
      ghost var handled, clean;
      exit, handled, clean := Dispatch(command, message);
      if exit.Returned? {
        NothingBuffered(conn);
        var ok := conn.WriteMessage(END);
        if !ok {
          exit, clean := Escaped(WriteFailed), false;
        }
      }
      t := Turn(message, command, before, Present(), handled, clean);
      TurnTextIs(old(conn.control.output), t);
    }

    /** Reads the first of the outstanding messages. Time passes while the worker waits. */
    method ReadRequest() returns (received: Received)
      requires "" !in conn.control.input
      modifies conn.control`input, cache.host
      ensures "" !in conn.control.input && cache.host.now >= old(cache.host.now)
      ensures received.Closed? ==>
                Messages(old(conn.control.input), END_LINE) == [] == Messages(conn.control.input, END_LINE)
      ensures received.Message? ==>
                && |conn.control.input| < |old(conn.control.input)|
                && Messages(old(conn.control.input), END_LINE)
                   == [received.body] + Messages(conn.control.input, END_LINE)
    {
      cache.host.Elapse();
      received := conn.ReadMessage();
    }

    /** One round of the main loop: finished children are removed, and the next request, if there is one,
        is served. */
    method NextTurn() returns (received: Received, exit: Exit, ghost t: Option<Turn>)
      requires Ready() && "" !in conn.control.input
      modifies proc, cache, cache.host, children, conn`buffer, conn.control
      ensures "" !in conn.control.input && exit != Escaped(RestoreRefused)
      ensures (received.Closed? <==> t.None?) && (received.Closed? ==> exit.Returned?) && (exit.Returned? ==> Ready())
      ensures received.Closed? ==>
                && Messages(old(conn.control.input), END_LINE) == [] == Messages(conn.control.input, END_LINE)
                && conn.control.output == old(conn.control.output)
                && Continues(cache.host.running, old(Present()), Present())
      ensures t.Some? ==>
                && |conn.control.input| < |old(conn.control.input)|
                && Messages(old(conn.control.input), END_LINE) == [t.value.message] + Messages(conn.control.input, END_LINE)
                && Continues(cache.host.running, old(Present()), t.value.before) && t.value.after == Present()
                && TurnIsSafe(t.value) && (exit.Returned? ==> TurnIsUndone(t.value))
                && (exit.Returned? && t.value.clean ==>
                      conn.control.output == old(conn.control.output) + TurnText(t.value))
    {
      hide Safe, Exact, IsTrue, Worker.TurnIsSafe, Worker.TurnIsUndone, TurnText, Continues, Live, Messages;
      ghost var last := Present();
      var alive := cache.host.running(cache.host.now);
      children.Cleanup(alive);
      received := ReadRequest();
      CleanupContinues(cache.host.running, last, Present(), alive);
      if received.Closed? {
        return received, Returned, None;
      }
      ghost var turn;
      exit, turn := Serve(received.body);
      t := Some(turn);
    }

    /** The main loop. Runs until the input ends, one request when oneShot, or an exception escapes;
        the turn in which that happens is reported apart from the completed ones. */
    method Run(oneShot: bool) returns (exit: Exit, ghost log: seq<Turn>, ghost aborted: Option<Turn>)
      requires Ready() && "" !in conn.control.input
      modifies proc, cache, cache.host, children, conn`buffer, conn.control
      ensures exit != Escaped(RestoreRefused) && (exit.Returned? <==> aborted.None?)
      ensures exit.Returned? ==>
                && Accounted(log, Messages(old(conn.control.input), END_LINE), Messages(conn.control.input, END_LINE),
                             old(conn.control.output), conn.control.output)
                && Ready()
                && (if oneShot then |log| <= 1 else Messages(conn.control.input, END_LINE) == [])
                && (log == [] ==> Messages(conn.control.input, END_LINE) == [])
      ensures exit.Escaped? ==>
                var sent := Messages(old(conn.control.input), END_LINE);
                && |log| < |sent| && sent[|log|] == aborted.value.message
                && forall i :: 0 <= i < |log| ==> log[i].message == sent[i]
      ensures forall i :: 0 <= i < |log| ==> TurnIsSafe(log[i]) && TurnIsUndone(log[i])
      ensures Linked(cache.host.running, log, old(Present()), if aborted.Some? then aborted.value.before else Present())
      ensures aborted.Some? ==> TurnIsSafe(aborted.value) && aborted.value.after == Present()
    {
      hide Safe, Exact, IsTrue, Worker.TurnIsSafe, Worker.TurnIsUndone, TurnText, Transcript;
      hide Accounted, Linked, Continues, Messages;
      log, aborted := [], None;
      ghost var sent := Messages(conn.control.input, END_LINE);
      ghost var before := conn.control.output;
      ghost var first := Present();
      AccountedStart(sent, before);
      LinkedStart(cache.host.running, first);
      while true
        invariant Ready() && "" !in conn.control.input && aborted.None?
        invariant Accounted(log, sent, Messages(conn.control.input, END_LINE), before, conn.control.output)
        invariant oneShot ==> log == []
        invariant Linked(cache.host.running, log, first, Present())
        invariant forall i :: 0 <= i < |log| ==> TurnIsSafe(log[i]) && TurnIsUndone(log[i])
        decreases |conn.control.input|
      {
        ghost var last, output := Present(), conn.control.output;
        var received;
        ghost var turn;
        received, exit, turn := NextTurn();
        if received.Closed? {
          LinkedWaiting(cache.host.running, log, first, last, Present());
          return;
        }
        ghost var t, rest := turn.value, Messages(conn.control.input, END_LINE);
        LinkedWaiting(cache.host.running, log, first, last, t.before);
        if exit.Escaped? {
          AccountedReading(log, t, sent, rest, before, output);
          aborted := Some(t);
          return;
        }
        AccountedStep(log, t, sent, rest, before, output, conn.control.output);
        LinkedStep(cache.host.running, log, t, first);
        log := log + [t];
        if oneShot {
          return;
        }
      }
    }
  }

  lemma NothingBuffered(conn: Connector)
    requires conn.buffer == ""
    ensures conn.Written() == conn.control.output
  {
  }

  lemma NowTracks(cache: UserCache)
    requires cache.Valid()
    ensures Tracks(OriginOf(cache), cache)
  {
    OriginFollows(OriginOf(cache));
  }

  lemma AccountedStart(sent: seq<string>, before: string)
    ensures Accounted([], sent, sent, before, before)
  {
  }

  lemma TurnTextIs(before: string, t: Turn)
    ensures before + Body(t.command, t.handled) + END + NL == before + TurnText(t)
  {
    var body := Body(t.command, t.handled);
    assert END + NL == END_LINE;
    hide Body, END, NL, END_LINE;
    Regrouped(before, body, END_LINE);
    Regrouped(before + body, END, NL);
  }

  lemma TranscriptSnoc(before: string, log: seq<Turn>, t: Turn)
    ensures before + Transcript(log + [t]) == before + Transcript(log) + TurnText(t)
  {
    assert (log + [t])[..|log|] == log;
    hide TurnText;
    Regrouped(before, Transcript(log), TurnText(t));
  }
}
