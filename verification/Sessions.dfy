/**
 The session manager. Its table drops an expired session only when some call happens to look; the
 specification never drops anything and works out who is logged in from the past calls alone.
 */
module Sessions {
  import opened Wrappers

  datatype Identity = Identity(user: int, login: string, role: string)

  datatype Refusal = LimitReached | NoToken

  /** The table holds at most `limit` sessions; one expires when idle for longer than `idle`. */
  datatype Policy = Policy(limit: int, idle: int)

  /**
   A call with its clock readings: `now` decides what has expired, the later `at` becomes the
   session's last activity. A new token is absent when the random source fails.
   */
  datatype Call =
    | Create(token: Option<string>, who: Identity, now: int, at: int)
    | Get(key: string, now: int, at: int)
    | Delete(key: string)
    | Count(now: int)

  datatype Entry = Entry(who: Identity, seen: int)

  // ---- the specification: nothing is ever dropped except by Delete

  predicate Live(p: Policy, roster: map<string, Entry>, token: string, now: int) {
    token in roster && now - roster[token].seen <= p.idle
  }

  function LiveTokens(p: Policy, roster: map<string, Entry>, now: int): set<string> {
    set t | t in roster && Live(p, roster, t, now)
  }

  predicate Admits(p: Policy, roster: map<string, Entry>, now: int) {
    |LiveTokens(p, roster, now)| < p.limit
  }

  /** Every session ever opened and not deleted, with its last activity. */
  function After(p: Policy, roster: map<string, Entry>, call: Call): map<string, Entry> {
    match call
    case Create(token, who, now, at) =>
      if Admits(p, roster, now) && token.Some? then roster[token.value := Entry(who, at)] else roster
    case Get(t, now, at) => if Live(p, roster, t, now) then roster[t := roster[t].(seen := at)] else roster
    case Delete(t) => roster - {t}
    case Count(_) => roster
  }

  function Opened(p: Policy, log: seq<Call>): map<string, Entry> {
    if log == [] then map[] else After(p, Opened(p, log[..|log| - 1]), log[|log| - 1])
  }

  // ---- runs: the clock does not go back, and new tokens are new

  function Reading(call: Call, before: int): int {
    match call
    case Create(_, _, _, at) => at
    case Get(_, _, at) => at
    case Delete(_) => before
    case Count(now) => now
  }

  predicate OnTime(call: Call, clock: int) {
    match call
    case Create(_, _, now, at) => clock <= now <= at
    case Get(_, now, at) => clock <= now <= at
    case Delete(_) => true
    case Count(now) => clock <= now
  }

  function Issued(log: seq<Call>): set<string> {
    if log == [] then {} else
      var last := log[|log| - 1];
      Issued(log[..|log| - 1]) + if last.Create? && last.token.Some? then {last.token.value} else {}
  }

  /** The clock reads `start`, the calls follow, and then it reads `clock`. */
  ghost predicate Timed(start: int, log: seq<Call>, clock: int) {
    if log == [] then start == clock else
      var front, last := log[..|log| - 1], log[|log| - 1];
      exists before :: Timed(start, front, before) && OnTime(last, before) && clock == Reading(last, before)
  }

  predicate FreshTokens(log: seq<Call>) {
    log == [] ||
    var front, last := log[..|log| - 1], log[|log| - 1];
    FreshTokens(front) && (last.Create? && last.token.Some? ==> last.token.value !in Issued(front))
  }

  /** A session let in lives for the idle time from its last use, its own owner's, until it is deleted. */
  lemma SessionLaw(p: Policy, roster: map<string, Entry>, token: string, who: Identity, now: int, at: int, used: int,
                   again: int, later: int)
    requires |LiveTokens(p, roster, now)| < p.limit
    ensures var open := After(p, roster, Create(Some(token), who, now, at));
            && token in open && open[token].who == who
            && (Live(p, open, token, later) <==> later - at <= p.idle)
            && !Live(p, After(p, open, Delete(token)), token, later)
            && After(p, open, Count(used)) == open
            && (Live(p, After(p, open, Get(token, used, again)), token, later) <==>
                later - (if used - at <= p.idle then again else at) <= p.idle)
    ensures forall other :: other != token && other in roster ==>
              other in After(p, roster, Create(Some(token), who, now, at))
              && After(p, roster, Create(Some(token), who, now, at))[other] == roster[other]
  {
    hide LiveTokens;
  }

  // ---- the bound

  lemma SubsetSize(a: set<string>, b: set<string>)
    requires a <= b
    ensures |a| <= |b|
  {
    if a != {} {
      var x :| x in a;
      SubsetSize(a - {x}, b - {x});
    }
  }

  /** When a call looks at the clock, sessions it leaves live were live then, or it opened them. */
  lemma LiveStep(p: Policy, roster: map<string, Entry>, call: Call, later: int)
    requires !call.Delete? ==> call.now <= later
    ensures var looked := if call.Delete? then later else call.now;
            var left := LiveTokens(p, After(p, roster, call), later);
            && left <= LiveTokens(p, roster, looked)
                       + (if call.Create? && call.token.Some? then {call.token.value} else {})
            && (left <= LiveTokens(p, roster, looked) || (call.Create? && Admits(p, roster, call.now)))
  {
  }

  /** After any run the live sessions never exceed the limit, however long one waits. */
  lemma {:induction false} LiveBounded(p: Policy, start: int, log: seq<Call>, clock: int, later: int)
    requires Timed(start, log, clock) && clock <= later && p.limit >= 0
    ensures |LiveTokens(p, Opened(p, log), later)| <= p.limit
  {
    if log == [] {
      assert LiveTokens(p, Opened(p, log), later) == {};
    } else {
      var front, call := log[..|log| - 1], log[|log| - 1];
      var before :| Timed(start, front, before) && OnTime(call, before) && clock == Reading(call, before);
      var looked := if call.Delete? then later else call.now;
      LiveBounded(p, start, front, before, looked);
      BoundStep(p, Opened(p, front), call, later);
    }
  }

  lemma BoundStep(p: Policy, roster: map<string, Entry>, call: Call, later: int)
    requires !call.Delete? ==> call.now <= later
    requires |LiveTokens(p, roster, if call.Delete? then later else call.now)| <= p.limit
    ensures |LiveTokens(p, After(p, roster, call), later)| <= p.limit
  {
    LiveStep(p, roster, call, later);
    hide After;
    hide LiveTokens;
    var looked := if call.Delete? then later else call.now;
    var left := LiveTokens(p, After(p, roster, call), later);
    if left <= LiveTokens(p, roster, looked) {
      SubsetSize(left, LiveTokens(p, roster, looked));
    } else {
      SubsetSize(left, LiveTokens(p, roster, looked) + (if call.token.Some? then {call.token.value} else {}));
    }
  }

  /**
   The bound counts the sessions of everybody: once they fill it nobody gets another, whoever
   they are. README.md speaks of five sessions per user.
   */
  lemma BoundIsShared(p: Policy, roster: map<string, Entry>, who: Identity, token: string, now: int, at: int)
    requires token !in roster
    ensures After(p, roster, Create(Some(token), who, now, at)) != roster <==> |LiveTokens(p, roster, now)| < p.limit
  {
    assert roster[token := Entry(who, at)].Keys == roster.Keys + {token};
  }

  /** The live sessions of one user. */
  function LiveOf(p: Policy, roster: map<string, Entry>, user: int, now: int): set<string> {
    set t | t in LiveTokens(p, roster, now) && roster[t].who.user == user
  }

  /**
   When the bound is as good as one per user: after any run, a user is let in exactly when his own
   sessions are fewer than the limit, if and only if the table has room or every live session is his.
   */
  lemma PerUserExactly(p: Policy, start: int, log: seq<Call>, clock: int, user: int, now: int)
    requires Timed(start, log, clock) && clock <= now && p.limit >= 0
    ensures var roster := Opened(p, log);
            var live, own := LiveTokens(p, roster, now), LiveOf(p, roster, user, now);
            (Admits(p, roster, now) <==> |own| < p.limit) <==> |live| < p.limit || own == live
  {
    LiveBounded(p, start, log, clock, now);
    var roster := Opened(p, log);
    var live, own := LiveTokens(p, roster, now), LiveOf(p, roster, user, now);
    SubsetSize(own, live);
    if t :| t in live && t !in own {
      SubsetSize(own, live - {t});
    } else {
      assert own == live;
    }
  }

  /** After these calls nobody new is let in, although a user has no session at all. */
  ghost predicate LocksOut(p: Policy, log: seq<Call>, user: int) {
    && Timed(0, log, 0)
    && !Admits(p, Opened(p, log), 0)
    && forall t :: t in Opened(p, log) ==> Opened(p, log)[t].who.user != user
  }

  /** With the limit of five and fifteen minutes, one user's five sessions keep everybody else out. */
  lemma OneUserFillsTheTable(user: int, newcomer: int)
    requires user != newcomer
    ensures exists log :: LocksOut(Policy(5, 900), log, newcomer)
  {
    var p, who := Policy(5, 900), Identity(user, "a", "user");
    var names := ["a", "b", "c", "d", "e"];
    var log := Logins(who, names);
    FillTable(p, who, names);
    assert LiveTokens(p, Opened(p, log), 0) == {"a", "b", "c", "d", "e"};
    assert |{"a", "b", "c", "d", "e"}| == 5;
    assert LocksOut(p, log, newcomer);
  }

  function Logins(who: Identity, names: seq<string>): (log: seq<Call>)
    ensures |log| == |names|
  {
    seq(|names|, i requires 0 <= i < |names| => Create(Some(names[i]), who, 0, 0))
  }

  /** Logins at one moment all succeed while there is room. */
  lemma {:induction false} FillTable(p: Policy, who: Identity, names: seq<string>)
    requires |names| <= p.limit && p.idle >= 0
    ensures Timed(0, Logins(who, names), 0)
    ensures forall t :: t in Opened(p, Logins(who, names)) <==> t in names
    ensures forall t :: t in Opened(p, Logins(who, names)) ==> Opened(p, Logins(who, names))[t] == Entry(who, 0)
  {
    if names != [] {
      var front, last := names[..|names| - 1], names[|names| - 1];
      var log := Logins(who, names);
      FillTable(p, who, front);
      assert log[..|log| - 1] == Logins(who, front);
      var roster := Opened(p, Logins(who, front));
      SetOfSeq(front);
      assert LiveTokens(p, roster, 0) == set t | t in front;
      assert names == front + [last];
      assert Opened(p, log) == roster[last := Entry(who, 0)];
    }
  }

  lemma SetOfSeq(names: seq<string>)
    ensures |set t | t in names| <= |names|
  {
    if names != [] {
      var front, last := names[..|names| - 1], names[|names| - 1];
      SetOfSeq(front);
      assert names == front + [last];
      assert (set t | t in names) == (set t | t in front) + {last};
    }
  }

  // ---- a session's life as one unbroken chain of uses

  function LastUse(log: seq<Call>, token: string): int {
    if log == [] then 0 else
      var last := log[|log| - 1];
      match last
      case Create(t, _, _, at) => if t == Some(token) then at else LastUse(log[..|log| - 1], token)
      case Get(t, _, at) => if t == token then at else LastUse(log[..|log| - 1], token)
      case Delete(_) => LastUse(log[..|log| - 1], token)
      case Count(_) => LastUse(log[..|log| - 1], token)
  }

  /** Opened with room to spare, not deleted since, and never left idle for too long between uses. */
  predicate Unbroken(p: Policy, log: seq<Call>, token: string) {
    log != [] &&
    var front, last := log[..|log| - 1], log[|log| - 1];
    match last
    case Create(t, _, now, _) =>
      if t == Some(token) then Admits(p, Opened(p, front), now) else Unbroken(p, front, token)
    case Get(t, now, _) => Unbroken(p, front, token) && (t == token ==> now - LastUse(front, token) <= p.idle)
    case Delete(t) => t != token && Unbroken(p, front, token)
    case Count(_) => Unbroken(p, front, token)
  }

  lemma {:induction false} OpenedIsIssued(p: Policy, log: seq<Call>, token: string)
    requires token in Opened(p, log)
    ensures token in Issued(log)
  {
    var front, last := log[..|log| - 1], log[|log| - 1];
    if token in Opened(p, front) {
      OpenedIsIssued(p, front, token);
    }
  }

  lemma {:induction false} UnbrokenIsOpened(p: Policy, log: seq<Call>, token: string)
    requires Unbroken(p, log, token) && FreshTokens(log)
    ensures token in Opened(p, log) && Opened(p, log)[token].seen == LastUse(log, token)
  {
    hide LiveTokens;
    var front, last := log[..|log| - 1], log[|log| - 1];
    if !(last.Create? && last.token == Some(token)) {
      UnbrokenIsOpened(p, front, token);
    }
  }

  /** A token is logged in exactly when its chain of uses is unbroken up to now. */
  lemma {:induction false} LiveIffUnbroken(p: Policy, start: int, log: seq<Call>, clock: int, token: string, now: int)
    requires Timed(start, log, clock) && FreshTokens(log) && clock <= now
    ensures Live(p, Opened(p, log), token, now) <==> (Unbroken(p, log, token) && now - LastUse(log, token) <= p.idle)
  {
    hide LiveTokens;
    if Unbroken(p, log, token) {
      UnbrokenIsOpened(p, log, token);
    } else if log != [] {
      BrokenIsDead(p, start, log, clock, token, now);
    }
  }

  /** Once broken, a chain stays broken: later uses do not bring the session back. */
  lemma {:induction false} BrokenIsDead(p: Policy, start: int, log: seq<Call>, clock: int, token: string, now: int)
    requires Timed(start, log, clock) && FreshTokens(log) && clock <= now && !Unbroken(p, log, token)
    ensures !Live(p, Opened(p, log), token, now)
  {
    hide LiveTokens;
    if log != [] {
      var front, call := log[..|log| - 1], log[|log| - 1];
      var before :| Timed(start, front, before) && OnTime(call, before) && clock == Reading(call, before);
      if token in Opened(p, front) {
        OpenedIsIssued(p, front, token);
      }
      if !Unbroken(p, front, token) {
        BrokenIsDead(p, start, front, before, token, if call.Delete? then now else call.now);
      } else {
        UnbrokenIsOpened(p, front, token);
      }
    }
  }

  // ---- a table that forgets expired sessions against one that never forgets

  /** The table agrees with the roster, and whatever it lacks is not live. */
  ghost predicate Mirrors(p: Policy, table: map<string, Entry>, roster: map<string, Entry>, now: int) {
    && (forall t :: t in table ==> t in roster && roster[t] == table[t])
    && (forall t :: t in roster && t !in table ==> !Live(p, roster, t, now))
  }

  /** What pruning leaves of a table. */
  function Alive(p: Policy, table: map<string, Entry>, now: int): map<string, Entry> {
    map t | t in table && now - table[t].seen <= p.idle :: table[t]
  }

  /** Pruning keeps the table in step, and leaves exactly the live sessions. */
  lemma PruneMirrors(p: Policy, table: map<string, Entry>, roster: map<string, Entry>, clock: int, now: int)
    requires Mirrors(p, table, roster, clock) && clock <= now
    ensures Mirrors(p, Alive(p, table, now), roster, now)
    ensures Alive(p, table, now).Keys == LiveTokens(p, Alive(p, table, now), now)
  {
  }

  /** In a pruned table that is in step, a token is found exactly when it is live, with its own entry. */
  lemma FoundIsLive(p: Policy, table: map<string, Entry>, roster: map<string, Entry>, token: string, now: int)
    requires Mirrors(p, table, roster, now) && table.Keys == LiveTokens(p, table, now)
    ensures token in table <==> Live(p, table, token, now)
    ensures token in table <==> Live(p, roster, token, now)
    ensures token in table ==> token in roster && roster[token] == table[token]
    ensures table.Keys == LiveTokens(p, roster, now)
  {
    assert token in LiveTokens(p, table, now) <==> Live(p, table, token, now);
  }

  lemma FewerKeys<V>(m: map<string, V>, gone: set<string>)
    ensures (m - gone).Keys == m.Keys - gone && |m - gone| <= |m|
  {
    SubsetSize(m.Keys - gone, m.Keys);
    assert (m - gone).Keys == m.Keys - gone;
  }

  /** Both let the same sessions live, and a call keeps them in step. */
  lemma MirrorStep(p: Policy, table: map<string, Entry>, roster: map<string, Entry>, call: Call, clock: int)
    requires OnTime(call, clock) && Mirrors(p, table, roster, if call.Delete? then clock else call.now)
    ensures !call.Delete? ==> LiveTokens(p, table, call.now) == LiveTokens(p, roster, call.now)
    ensures Mirrors(p, After(p, table, call), After(p, roster, call), Reading(call, clock))
  {
    if !call.Delete? {
      assert LiveTokens(p, table, call.now) == LiveTokens(p, roster, call.now);
      hide LiveTokens;
      assert Mirrors(p, After(p, table, call), After(p, roster, call), call.now);
    }
  }

  /** A call handled on a pruned table keeps it in step with the roster of the longer log. */
  lemma LogStep(p: Policy, start: int, log: seq<Call>, clock: int, table: map<string, Entry>, call: Call)
    requires Timed(start, log, clock) && OnTime(call, clock)
    requires Mirrors(p, table, Opened(p, log), if call.Delete? then clock else call.now)
    ensures Timed(start, log + [call], Reading(call, clock))
    ensures Mirrors(p, After(p, table, call), Opened(p, log + [call]), Reading(call, clock))
    ensures !call.Delete? ==> LiveTokens(p, table, call.now) == LiveTokens(p, Opened(p, log), call.now)
  {
    assert (log + [call])[..|log + [call]| - 1] == log;
    MirrorStep(p, table, Opened(p, log), call, clock);
    hide After;
    hide LiveTokens;
    hide Mirrors;
  }

  // ---- the manager

  class Session {
    var token: string
    var who: Identity
    var lastActive: int

    constructor (token: string, who: Identity, lastActive: int)
      ensures this.token == token && this.who == who && this.lastActive == lastActive
    {
      this.token, this.who, this.lastActive := token, who, lastActive;
    }

    /** A copy for the caller, who may change it without touching the table. */
    method Clone() returns (copy: Session)
      ensures fresh(copy) && copy.token == token && copy.who == who && copy.lastActive == lastActive
    {
      copy := new Session(token, who, lastActive);
    }
  }

  ghost function Entries(sessions: map<string, Session>): (entries: map<string, Entry>)
    reads sessions.Values
    ensures entries.Keys == sessions.Keys
  {
    map t | t in sessions :: Entry(sessions[t].who, sessions[t].lastActive)
  }

  ghost predicate OwnTokens(sessions: map<string, Session>)
    reads sessions.Values
  {
    forall t :: t in sessions ==> sessions[t].token == t
  }

  /** Dropping sessions drops their values, and nothing else. */
  lemma DropEntries(sessions: map<string, Session>, gone: set<string>)
    requires OwnTokens(sessions)
    ensures Entries(sessions - gone) == Entries(sessions) - gone && OwnTokens(sessions - gone)
    ensures |sessions - gone| <= |sessions|
  {
    FewerKeys(sessions, gone);
  }

  /** Storing a session adds or replaces its own value, and nothing else. */
  lemma PutEntries(sessions: map<string, Session>, session: Session, next: map<string, Session>)
    requires OwnTokens(sessions) && next == sessions[session.token := session]
    ensures Entries(next) == Entries(sessions)[session.token := Entry(session.who, session.lastActive)]
    ensures OwnTokens(next) && |next| <= |sessions| + 1 && next.Values <= sessions.Values + {session}
  {
    assert next.Keys == sessions.Keys + {session.token};
  }

  /** Dropping exactly the sessions idle for too long is pruning. */
  lemma DropIsPrune(p: Policy, sessions: map<string, Session>, gone: set<string>, now: int)
    requires forall t :: t in sessions ==> (t in gone <==> now - sessions[t].lastActive > p.idle)
    ensures Entries(sessions) - gone == Alive(p, Entries(sessions), now)
  {
  }

  class Manager {
    const maxSessions: int
    const idleTimeout: int
    var sessions: map<string, Session>
    ghost const start: int
    ghost var log: seq<Call>
    ghost var clock: int

    ghost function Rules(): Policy {
      Policy(maxSessions, idleTimeout)
    }

    /** What the specification makes of the calls so far. */
    ghost function Spec(): map<string, Entry>
      reads this
    {
      Opened(Rules(), log)
    }

    /** The table as values. */
    ghost function Table(): map<string, Entry>
      reads `sessions, sessions.Values
    {
      Entries(sessions)
    }

    /** Each session is stored under its own token. */
    ghost predicate Keyed()
      reads `sessions, sessions.Values
    {
      OwnTokens(sessions)
    }

    ghost predicate Stored(now: int)
      reads this, sessions.Values
    {
      && Keyed()
      && Mirrors(Rules(), Table(), Spec(), now)
      && (|sessions| == 0 || |sessions| <= maxSessions)
    }

    ghost predicate Valid()
      reads this, sessions.Values
    {
      Timed(start, log, clock) && Stored(clock)
    }

    constructor (maxSessions: int, idleTimeout: int, ghost start: int)
      ensures Valid() && log == [] && clock == start && sessions == map[]
      ensures this.maxSessions == maxSessions && this.idleTimeout == idleTimeout
    {
      this.maxSessions, this.idleTimeout := maxSessions, idleTimeout;
      sessions := map[];
      this.start, log, clock := start, [], start;
    }

    /** Afterwards the table holds exactly the live sessions. */
    method PruneLocked(now: int)
      requires Valid() && clock <= now
      modifies `sessions
      ensures Stored(now)
      ensures sessions.Keys == LiveTokens(Rules(), Table(), now)
      ensures sessions.Values <= old(sessions.Values)
    {
      hide Timed;
      hide Opened;
      hide Live;
      hide LiveTokens;
      hide Mirrors;
      hide Entries;
      hide OwnTokens;
      hide Alive;
      ghost var all, table := sessions, Table();
      ghost var gone := DropExpired(now);
      DropEntries(all, gone);
      DropIsPrune(Rules(), all, gone, now);
      PruneMirrors(Rules(), table, Spec(), clock, now);
    }

    /** The loop: exactly the sessions idle for too long are dropped. */
    method DropExpired(now: int) returns (ghost gone: set<string>)
      modifies `sessions
      ensures sessions == old(sessions) - gone
      ensures forall t :: t in old(sessions) ==> (t in gone <==> now - old(sessions)[t].lastActive > idleTimeout)
    {
      var all, left := sessions, sessions.Keys;
      gone := {};
      while left != {}
        invariant left <= all.Keys && gone !! left && sessions == all - gone
        invariant forall t :: t in all && t !in left ==> (t in gone <==> now - all[t].lastActive > idleTimeout)
        decreases left
      {
        var token :| token in left;
        if now - sessions[token].lastActive > idleTimeout {
          sessions, gone := sessions - {token}, gone + {token};
        }
        left := left - {token};
      }
    }

    /** Note a call that found the table pruned. */
    ghost method Note(call: Call)
      requires Timed(start, log, clock) && OnTime(call, clock)
      requires Mirrors(Rules(), Table(), Spec(), if call.Delete? then clock else call.now)
      modifies `log, `clock
      ensures log == old(log) + [call] && clock == Reading(call, old(clock)) && Timed(start, log, clock)
      ensures Table() == old(Table()) && Mirrors(Rules(), After(Rules(), Table(), call), Spec(), clock)
      ensures !call.Delete? ==> LiveTokens(Rules(), Table(), call.now) == LiveTokens(Rules(), old(Spec()), call.now)
    {
      hide Timed;
      hide Opened;
      hide Mirrors;
      hide LiveTokens;
      hide After;
      hide Live;
      LogStep(Rules(), start, log, clock, Table(), call);
      log, clock := log + [call], Reading(call, clock);
    }

    method Store(token: string, who: Identity, at: int) returns (copy: Session)
      requires Keyed()
      modifies `sessions
      ensures Keyed() && Table() == old(Table())[token := Entry(who, at)]
      ensures |sessions| <= |old(sessions)| + 1
      ensures fresh(sessions.Values - old(sessions.Values))
      ensures fresh(copy) && copy !in sessions.Values
      ensures copy.token == token && copy.who == who && copy.lastActive == at
    {
      hide Entries;
      hide OwnTokens;
      var session := new Session(token, who, at);
      Put(session);
      copy := session.Clone();
    }

    method Put(session: Session)
      requires Keyed()
      modifies `sessions
      ensures Keyed() && Table() == old(Table())[session.token := Entry(session.who, session.lastActive)]
      ensures |sessions| <= |old(sessions)| + 1 && sessions.Values <= old(sessions.Values) + {session}
    {
      hide Entries;
      hide OwnTokens;
      var next := sessions[session.token := session];
      PutEntries(sessions, session, next);
      sessions := next;
    }

    method Touch(token: string, at: int) returns (copy: Session)
      requires Keyed() && token in sessions
      modifies sessions[token]
      ensures Keyed() && Table() == old(Table())[token := old(Table())[token].(seen := at)]
      ensures fresh(copy) && copy !in sessions.Values
      ensures copy.token == token && copy.who == old(Table())[token].who && copy.lastActive == at
    {
      var session := sessions[token];
      session.lastActive := at;
      copy := session.Clone();
    }

    method Create(who: Identity, token: Option<string>, now: int, at: int) returns (r: Result<Session, Refusal>)
      requires Valid() && clock <= now <= at
      modifies this
      ensures Valid() && log == old(log) + [Call.Create(token, who, now, at)] && clock == at
      ensures fresh(sessions.Values - old(sessions.Values))
      ensures r.Err? && r.error == LimitReached <==> !Admits(Rules(), old(Spec()), now)
      ensures r.Ok? <==> Admits(Rules(), old(Spec()), now) && token.Some?
      ensures r.Ok? ==> fresh(r.value) && r.value !in sessions.Values
      ensures r.Ok? ==> r.value.token == token.value && r.value.who == who && r.value.lastActive == at
    {
      hide Timed;
      hide Opened;
      hide Mirrors;
      PruneLocked(now);
      Note(Call.Create(token, who, now, at));
      assert |sessions| < maxSessions <==> Admits(Rules(), Table(), now);
      hide LiveTokens;
      if |sessions| >= maxSessions {
        return Err(LimitReached);
      }
      if token.None? {
        return Err(NoToken);
      }
      var copy := Store(token.value, who, at);
      r := Ok(copy);
    }

    method Get(token: string, now: int, at: int) returns (r: Option<Session>)
      requires Valid() && clock <= now <= at
      modifies this, sessions.Values
      ensures Valid() && log == old(log) + [Call.Get(token, now, at)] && clock == at
      ensures fresh(sessions.Values - old(sessions.Values))
      ensures r.Some? <==> Live(Rules(), old(Spec()), token, now)
      ensures r.Some? ==> fresh(r.value) && r.value !in sessions.Values
      ensures r.Some? ==> r.value.token == token && r.value.who == old(Spec())[token].who && r.value.lastActive == at
    {
      hide Timed;
      hide Opened;
      hide Mirrors;
      hide LiveTokens;
      hide Live;
      hide Entries;
      hide OwnTokens;
      PruneLocked(now);
      FoundIsLive(Rules(), Table(), Spec(), token, now);
      Note(Call.Get(token, now, at));
      if token !in sessions {
        return None;
      }
      var copy := Touch(token, at);
      r := Some(copy);
    }

    method Remove(token: string)
      requires Keyed()
      modifies `sessions
      ensures Keyed() && Table() == old(Table()) - {token} && |sessions| <= |old(sessions)|
      ensures sessions.Values <= old(sessions.Values)
    {
      hide Entries;
      hide OwnTokens;
      DropEntries(sessions, {token});
      sessions := sessions - {token};
    }

    method Delete(token: string)
      requires Valid()
      modifies this
      ensures Valid() && log == old(log) + [Call.Delete(token)] && clock == old(clock)
      ensures fresh(sessions.Values - old(sessions.Values))
    {
      hide Timed;
      hide Opened;
      hide Mirrors;
      Note(Call.Delete(token));
      Remove(token);
    }

    method Count(now: int) returns (n: nat)
      requires Valid() && clock <= now
      modifies this
      ensures Valid() && log == old(log) + [Call.Count(now)] && clock == now
      ensures fresh(sessions.Values - old(sessions.Values))
      ensures n == |LiveTokens(Rules(), old(Spec()), now)|
    {
      hide Timed;
      hide Opened;
      hide Mirrors;
      hide LiveTokens;
      PruneLocked(now);
      Note(Call.Count(now));
      n := |sessions|;
    }
  }
}
