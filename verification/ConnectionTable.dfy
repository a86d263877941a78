/** The connection loop of server/MetricServerHandler.cpp on values: what one iteration does to the
    table of connections and to the open descriptors, and what holds over every run of it. */
module ConnectionTable {
  import opened CStrings
  import opened Sockets
  import opened Service
  import opened MetricDatabase
  import Client

  const POLLIN := 1
  const POLLERR := 8
  const POLLHUP := 16
  const POLLNVAL := 32

  datatype Config = Config(listener: int, tlsListener: Option<int>, maxConnections: nat)

  datatype Conn = Conn(fd: int, tls: bool)

  datatype State = State(conns: seq<Conn>, open: set<int>, db: map<string, string>)

  /** Everything the outside decides in one iteration: whether the exit flag is seen after `poll`, what
      `poll` returns and writes, what `accept` finds, the new metrics, and each connection's exchange. */
  datatype Round = Round(
    stopSeen: bool, ready: int, interrupted: bool, mask: int -> int,
    http: Offer, https: Offer, sample: Sample, exchange: int -> Exchange)

  datatype Step = GoOn(s: State) | Leave(s: State) | OverLimit(s: State, extra: int) | Abort(s: State)

  predicate Unexpected(mask: int) { mask != POLLIN && mask != 0 }

  predicate ListenerFault(cfg: Config, r: Round) {
    Unexpected(r.mask(cfg.listener)) || (cfg.tlsListener.Some? && Unexpected(r.mask(cfg.tlsListener.value)))
  }

  /** One listener's turn. The limit is tested after the connection has been accepted. */
  function Admit(cfg: Config, s: State, fires: bool, offer: Offer, tls: bool): Step {
    if !fires then GoOn(s)
    else match Client.Accepted(s.open, offer, tls)
      case None => GoOn(s)
      case Some(fd) =>
        if |s.conns| > cfg.maxConnections then OverLimit(s.(open := s.open + {fd}), fd)
        else GoOn(s.(open := s.open + {fd}, conns := s.conns + [Conn(fd, tls)]))
  }

  /** What one listener contributes: the connection it accepts, if it fires and `accept` gives one. */
  function Newcomer(open: set<int>, fires: bool, offer: Offer, tls: bool): seq<Conn> {
    if fires && Client.Accepted(open, offer, tls).Some? then [Conn(offer.fd, tls)] else []
  }

  function Fds(conns: seq<Conn>): set<int> { set c | c in conns :: c.fd }

  /** The connections accepted in an iteration, the plain listener's before the TLS listener's. */
  function Newcomers(cfg: Config, s: State, r: Round): seq<Conn> {
    var plain := Newcomer(s.open, r.mask(cfg.listener) == POLLIN, r.http, false);
    var tlsFires := cfg.tlsListener.Some? && r.mask(cfg.tlsListener.value) == POLLIN;
    plain + Newcomer(s.open + Fds(plain), tlsFires, r.https, true)
  }

  /** Both listeners' turns, plain first. */
  function Admitted(cfg: Config, s: State, r: Round): Step {
    var a := Admit(cfg, s, r.mask(cfg.listener) == POLLIN, r.http, false);
    if !a.GoOn? then a
    else Admit(cfg, a.s, cfg.tlsListener.Some? && r.mask(cfg.tlsListener.value) == POLLIN, r.https, true)
  }

  /** Whether an older connection stays: served and kept alive, or reported with a mask that is neither
      idle, readable nor hung up. */
  ghost predicate Stays(c: Conn, r: Round, db: map<string, string>) {
    if r.mask(c.fd) == POLLIN then KeepsAlive(r.exchange(c.fd), db)
    else r.mask(c.fd) != 0 && r.mask(c.fd) != POLLHUP
  }

  ghost function Survivors(conns: seq<Conn>, r: Round, db: map<string, string>): seq<Conn> {
    if conns == [] then []
    else
      var last := conns[|conns| - 1];
      Survivors(conns[..|conns| - 1], r, db) + if Stays(last, r, db) then [last] else []
  }

  ghost function Dropped(conns: seq<Conn>, r: Round, db: map<string, string>): set<int> {
    set i | 0 <= i < |conns| && !Stays(conns[i], r, db) :: conns[i].fd
  }

  /** Serving and compaction: of the first `older` connections the survivors, then the new ones. */
  ghost function Served(s: State, older: nat, r: Round): State
    requires older <= |s.conns|
  {
    s.(conns := Survivors(s.conns[..older], r, s.db) + s.conns[older..],
       open := s.open - Dropped(s.conns[..older], r, s.db))
  }

  /** Accepting, refreshing the database, and serving. */
  ghost function ServeStep(cfg: Config, s: State, r: Round): Step {
    var a := Admitted(cfg, s, r);
    if !a.GoOn? then a
    else GoOn(Served(a.s.(db := Store(a.s.db, Written(r.sample))), |s.conns|, r))
  }

  /** What leaves for a peer. */
  datatype Sent = Sent(fd: int, bytes: string)

  /** What a connection is sent when it is looked at: its reply, if it reported data. */
  ghost function ReplyTo(fd: int, r: Round, db: map<string, string>): seq<Sent> {
    if r.mask(fd) == POLLIN then [Sent(fd, OnTheWire(r.exchange(fd), db))] else []
  }

  /** What the older connections are sent while they are served, in the table's order. */
  ghost function Replies(conns: seq<Conn>, r: Round, db: map<string, string>): seq<Sent> {
    if conns == [] then [] else Replies(conns[..|conns| - 1], r, db) + ReplyTo(conns[|conns| - 1].fd, r, db)
  }

  lemma {:induction false} RepliesNone(r: Round, db: map<string, string>)
    ensures Replies([], r, db) == []
  {
  }

  lemma {:induction false} RepliesNext(conns: seq<Conn>, n: nat, r: Round, db: map<string, string>)
    requires n < |conns|
    ensures Replies(conns[..n + 1], r, db) == Replies(conns[..n], r, db) + ReplyTo(conns[n].fd, r, db)
  {
    assert conns[..n + 1][..n] == conns[..n];
  }

  ghost function Iterate(cfg: Config, s: State, r: Round): Step {
    if r.stopSeen then Leave(s)
    else if r.ready == 0 || (r.ready < 0 && r.interrupted) then GoOn(s)
    else if r.ready < 0 || ListenerFault(cfg, r) then Abort(s)
    else ServeStep(cfg, s, r)
  }

  lemma {:induction false} ServeStepIs(cfg: Config, s: State, r: Round)
    ensures var a := Admitted(cfg, s, r);
            ServeStep(cfg, s, r) == if !a.GoOn? then a
                                    else GoOn(Served(a.s.(db := Store(a.s.db, Written(r.sample))), |s.conns|, r))
  {
    hide Admitted, Served, Written, Store;
  }

  /** What an iteration sends: a completed serving one answers from the database just refreshed. */
  ghost function Sends(cfg: Config, s: State, r: Round): seq<Sent> {
    if r.ready > 0 && Iterate(cfg, s, r).GoOn? then Replies(s.conns, r, Store(s.db, Written(r.sample))) else []
  }

  // ---- runs ----

  datatype Ending = FlagSeen | LimitReached(extra: int) | ProcessExit
  datatype Result = Result(ending: Ending, s: State)

  /** A run that goes through the given iterations unless it ends before; then the flag is seen. */
  ghost function Run(cfg: Config, s: State, rounds: seq<Round>): Result
    decreases |rounds|
  {
    if rounds == [] then Result(FlagSeen, s)
    else match Iterate(cfg, s, rounds[0])
      case GoOn(t) => Run(cfg, t, rounds[1..])
      case Leave(t) => Result(FlagSeen, t)
      case OverLimit(t, extra) => Result(LimitReached(extra), t)
      case Abort(t) => Result(ProcessExit, t)
  }

  lemma {:induction false} RunStep(cfg: Config, s: State, rounds: seq<Round>, i: nat)
    requires i < |rounds|
    ensures var step := Iterate(cfg, s, rounds[i]);
            Run(cfg, s, rounds[i..]) == match step
                                        case GoOn(t) => Run(cfg, t, rounds[i + 1..])
                                        case Leave(t) => Result(FlagSeen, t)
                                        case OverLimit(t, extra) => Result(LimitReached(extra), t)
                                        case Abort(t) => Result(ProcessExit, t)
  {
    assert rounds[i..][1..] == rounds[i + 1..];
  }

  /** Everything a run sends, in order. */
  ghost function Log(cfg: Config, s: State, rounds: seq<Round>): seq<Sent>
    decreases |rounds|
  {
    if rounds == [] then []
    else
      var step := Iterate(cfg, s, rounds[0]);
      Sends(cfg, s, rounds[0]) + if step.GoOn? then Log(cfg, step.s, rounds[1..]) else []
  }

  lemma {:induction false} RunEnds(cfg: Config, s: State)
    ensures Run(cfg, s, []) == Result(FlagSeen, s) && Log(cfg, s, []) == []
  {
  }

  lemma {:induction false} LogStep(cfg: Config, s: State, rounds: seq<Round>, i: nat, sent: seq<Sent>)
    requires i < |rounds|
    ensures var step := Iterate(cfg, s, rounds[i]);
            sent + Log(cfg, s, rounds[i..]) ==
              sent + Sends(cfg, s, rounds[i]) + if step.GoOn? then Log(cfg, step.s, rounds[i + 1..]) else []
    ensures !Iterate(cfg, s, rounds[i]).GoOn? ==> sent + Log(cfg, s, rounds[i..]) == sent + Sends(cfg, s, rounds[i])
  {
    hide Iterate, Sends;
    assert rounds[i..][1..] == rounds[i + 1..];
    var step, now := Iterate(cfg, s, rounds[i]), Sends(cfg, s, rounds[i]);
    var later := if step.GoOn? then Log(cfg, step.s, rounds[i + 1..]) else [];
    assert sent + (now + later) == sent + now + later;
  }

  function Listeners(cfg: Config): set<int> {
    {cfg.listener} + if cfg.tlsListener.Some? then {cfg.tlsListener.value} else {}
  }

  /** The descriptors of the process that are neither listeners nor connections: those that are left
      when a shutdown has closed both. */
  function Others(cfg: Config, s: State): set<int> { s.open - Fds(s.conns) - Listeners(cfg) }

  ghost predicate DistinctFds(conns: seq<Conn>) {
    forall i, j | 0 <= i < j < |conns| :: conns[i].fd != conns[j].fd
  }

  /** The table at the head of the loop. */
  ghost predicate Inv(cfg: Config, s: State) {
    && (forall l | l in Listeners(cfg) :: l > 0 && l in s.open)
    && (cfg.tlsListener.Some? ==> cfg.listener != cfg.tlsListener.value)
    && (forall c | c in s.conns :: c.fd > 0 && c.fd in s.open && c.fd !in Listeners(cfg))
    && (forall c | c in s.conns :: c.tls ==> cfg.tlsListener.Some?)
    && DistinctFds(s.conns)
    && |s.conns| <= cfg.maxConnections + 1
  }

  function Boot(cfg: Config, open: set<int>, s: Sample): State {
    State([], open + Listeners(cfg), Store(map[], Written(s)))
  }

  ghost predicate CanBoot(cfg: Config, open: set<int>) {
    && (forall l | l in Listeners(cfg) :: l > 0 && l !in open)
    && (cfg.tlsListener.Some? ==> cfg.listener != cfg.tlsListener.value)
  }

  // ---- one iteration ----

  lemma {:induction false} SurvivorsAre(conns: seq<Conn>, r: Round, db: map<string, string>)
    ensures forall c :: c in Survivors(conns, r, db) <==> c in conns && Stays(c, r, db)
    ensures |Survivors(conns, r, db)| <= |conns|
  {
    if conns != [] {
      SurvivorsAre(conns[..|conns| - 1], r, db);
      assert conns == conns[..|conns| - 1] + [conns[|conns| - 1]];
    }
  }

  lemma {:induction false} SurvivorsDistinct(conns: seq<Conn>, r: Round, db: map<string, string>)
    requires DistinctFds(conns)
    ensures DistinctFds(Survivors(conns, r, db))
  {
    if conns != [] {
      var front, last := conns[..|conns| - 1], conns[|conns| - 1];
      SurvivorsDistinct(front, r, db);
      SurvivorsAre(front, r, db);
      var kept := Survivors(front, r, db);
      forall i | 0 <= i < |kept| ensures kept[i].fd != last.fd {
        assert kept[i] in front;
        var j :| 0 <= j < |front| && front[j] == kept[i];
        assert conns[j] == front[j];
      }
    }
  }

  /** What the listeners' turns keep, and what they add: fresh descriptors behind the older ones. */
  ghost predicate Admits(cfg: Config, s: State, a: Step) {
    match a
    case GoOn(t) =>
      && Inv(cfg, t) && Others(cfg, t) == Others(cfg, s) && s.open <= t.open && t.db == s.db
      && s.conns <= t.conns && forall i | |s.conns| <= i < |t.conns| :: t.conns[i].fd !in s.open
    case OverLimit(t, extra) =>
      && Inv(cfg, t) && extra !in s.open && Others(cfg, t) == Others(cfg, s) + {extra}
      && |t.conns| == cfg.maxConnections + 1
    case _ => false
  }

  lemma AdmitKeeps(cfg: Config, s: State, fires: bool, offer: Offer, tls: bool)
    requires Inv(cfg, s) && (tls && fires ==> cfg.tlsListener.Some?)
    ensures var a := Admit(cfg, s, fires, offer, tls);
            Admits(cfg, s, a)
  {
    var a := Admit(cfg, s, fires, offer, tls);
    if a.GoOn? && a.s != s {
      var c := a.s.conns[|s.conns|];
      assert a.s.conns == s.conns + [c];
      assert Fds(a.s.conns) == Fds(s.conns) + {c.fd};
    }
  }

  lemma AdmitAdds(cfg: Config, s: State, fires: bool, offer: Offer, tls: bool)
    ensures var a, added := Admit(cfg, s, fires, offer, tls), Newcomer(s.open, fires, offer, tls);
            a.GoOn? ==> a.s.conns == s.conns + added && a.s.open == s.open + Fds(added)
  {
  }

  lemma AdmitsTwice(cfg: Config, s: State, t: State, a: Step)
    requires Admits(cfg, s, GoOn(t)) && Admits(cfg, t, a)
    ensures Admits(cfg, s, a)
  {
    if a.GoOn? {
      forall i | |s.conns| <= i < |a.s.conns| ensures a.s.conns[i].fd !in s.open {
        if i < |t.conns| { assert a.s.conns[i] == t.conns[i]; }
      }
    }
  }

  /** Both turns keep the table sound, and one that is completed adds just what the listeners accepted. */
  lemma AdmittedKeeps(cfg: Config, s: State, r: Round)
    requires Inv(cfg, s)
    ensures Admits(cfg, s, Admitted(cfg, s, r))
    ensures Admitted(cfg, s, r).GoOn? ==> Admitted(cfg, s, r).s.conns == s.conns + Newcomers(cfg, s, r)
  {
    var fires := cfg.tlsListener.Some? && r.mask(cfg.tlsListener.value) == POLLIN;
    AdmitKeeps(cfg, s, r.mask(cfg.listener) == POLLIN, r.http, false);
    var a := Admit(cfg, s, r.mask(cfg.listener) == POLLIN, r.http, false);
    if a.GoOn? {
      AdmitKeeps(cfg, a.s, fires, r.https, true);
      AdmitsTwice(cfg, s, a.s, Admitted(cfg, s, r));
      AdmitAdds(cfg, s, r.mask(cfg.listener) == POLLIN, r.http, false);
      AdmitAdds(cfg, a.s, fires, r.https, true);
    }
  }

  lemma AdmittedIsSound(cfg: Config, s: State, r: Round)
    requires Inv(cfg, s)
    ensures Admitted(cfg, s, r).GoOn? || Admitted(cfg, s, r).OverLimit?
    ensures Inv(cfg, Admitted(cfg, s, r).s)
    ensures Admitted(cfg, s, r).GoOn? ==>
              Admitted(cfg, s, r).s.db == s.db && s.conns <= Admitted(cfg, s, r).s.conns
  {
    hide Inv, Admitted, Newcomers;
    AdmittedKeeps(cfg, s, r);
  }

  lemma DistinctReplace(front: seq<Conn>, kept: seq<Conn>, tail: seq<Conn>)
    requires DistinctFds(front + tail) && DistinctFds(kept)
    requires forall c | c in kept :: c in front
    ensures DistinctFds(kept + tail)
  {
    var all, t := front + tail, kept + tail;
    forall i, j | 0 <= i < j < |t| ensures t[i].fd != t[j].fd {
      if i < |kept| <= j {
        assert kept[i] in front;
        var k :| 0 <= k < |front| && front[k] == kept[i];
        assert all[k] == t[i] && all[|front| + j - |kept|] == t[j];
      } else if |kept| <= i {
        assert all[|front| + i - |kept|] == t[i] && all[|front| + j - |kept|] == t[j];
      } else {
        assert t[i] == kept[i] && t[j] == kept[j];
      }
    }
  }

  /** Among distinct descriptors, a dropped one belongs to no connection that stays. */
  lemma DroppedExactly(conns: seq<Conn>, older: nat, r: Round, db: map<string, string>)
    requires DistinctFds(conns) && older <= |conns|
    ensures forall c | c in conns[..older] :: c.fd in Dropped(conns[..older], r, db) <==> !Stays(c, r, db)
    ensures forall c | c in conns[older..] :: c.fd !in Dropped(conns[..older], r, db)
  {
    var front := conns[..older];
    forall i, j | 0 <= i < older && 0 <= j < |conns| && front[i].fd == conns[j].fd ensures i == j {
      assert front[i] == conns[i];
    }
    forall c | c in front && c.fd in Dropped(front, r, db) ensures !Stays(c, r, db) {
      var i :| 0 <= i < older && !Stays(front[i], r, db) && front[i].fd == c.fd;
      var j :| 0 <= j < older && front[j] == c;
      assert conns[j] == c;
    }
    forall c | c in conns[older..] ensures c.fd !in Dropped(front, r, db) {
      var j :| 0 <= j < |conns[older..]| && conns[older..][j] == c;
      assert conns[older + j] == c;
    }
  }

  /** Serving splits the table's descriptors into those of the new table and the dropped ones. */
  lemma {:induction false} DroppedAndKept(conns: seq<Conn>, older: nat, r: Round, db: map<string, string>)
    requires DistinctFds(conns) && older <= |conns|
    ensures var kept := Survivors(conns[..older], r, db) + conns[older..];
            var dropped := Dropped(conns[..older], r, db);
            Fds(conns) == Fds(kept) + dropped && Fds(kept) !! dropped
  {
    var front := conns[..older];
    var kept := Survivors(front, r, db) + conns[older..];
    SurvivorsAre(front, r, db);
    DroppedExactly(conns, older, r, db);
    assert conns == front + conns[older..];
    forall c | c in conns ensures c.fd in Fds(kept) || c.fd in Dropped(front, r, db) {
      if c in front && Stays(c, r, db) { assert c in kept; }
      if c in conns[older..] { assert c in kept; }
    }
  }

  lemma ServedKeeps(cfg: Config, s: State, older: nat, r: Round)
    requires Inv(cfg, s) && older <= |s.conns|
    ensures Inv(cfg, Served(s, older, r)) && Others(cfg, Served(s, older, r)) == Others(cfg, s)
  {
    var front, tail, t := s.conns[..older], s.conns[older..], Served(s, older, r);
    assert s.conns == front + tail;
    assert DistinctFds(t.conns) && |t.conns| <= |s.conns| && forall c | c in t.conns :: c in s.conns by {
      SurvivorsAre(front, r, s.db);
      SurvivorsDistinct(front, r, s.db);
      DistinctReplace(front, Survivors(front, r, s.db), tail);
    }
    var dropped := Dropped(front, r, s.db);
    assert Fds(s.conns) == Fds(t.conns) + dropped && Fds(t.conns) !! dropped by {
      DroppedAndKept(s.conns, older, r, s.db);
    }
    assert forall c | c in t.conns :: c.fd in Fds(t.conns);
    assert forall fd | fd in dropped :: fd in Fds(s.conns);
  }

  /** One iteration: a completed one keeps the table sound and touches no other descriptor; the limit
      branch leaves just the connection it accepted open besides. */
  lemma IterateKeeps(cfg: Config, s: State, r: Round)
    requires Inv(cfg, s)
    ensures match Iterate(cfg, s, r)
            case GoOn(t) => Inv(cfg, t) && Others(cfg, t) == Others(cfg, s)
            case OverLimit(t, extra) =>
              && Inv(cfg, t) && extra !in s.open && Others(cfg, t) == Others(cfg, s) + {extra}
              && |t.conns| == cfg.maxConnections + 1
            case Leave(t) => t == s && r.stopSeen
            case Abort(t) => t == s && !r.stopSeen
  {
    hide Admitted, Served, Written, Store, ListenerFault;
    if !r.stopSeen && r.ready > 0 && !ListenerFault(cfg, r) {
      AdmittedKeeps(cfg, s, r);
      var a := Admitted(cfg, s, r);
      if a.GoOn? {
        var u := a.s.(db := Store(a.s.db, Written(r.sample)));
        assert Inv(cfg, u) && Others(cfg, u) == Others(cfg, a.s);
        ServedKeeps(cfg, u, |s.conns|, r);
      }
    }
  }

  lemma OldOnesOpen(s: State, u: State, r: Round)
    requires s.conns <= u.conns && DistinctFds(u.conns) && s.open <= u.open
    requires forall c | c in s.conns :: c.fd in s.open
    ensures var t := Served(u, |s.conns|, r);
            && (forall c | c in s.conns :: c.fd in t.open <==> Stays(c, r, u.db))
            && (forall fd | fd in s.open :: fd in t.open || fd in Fds(s.conns))
  {
    assert u.conns[..|s.conns|] == s.conns;
    DroppedExactly(u.conns, |s.conns|, r, u.db);
    assert forall c | c in s.conns :: c in u.conns;
    assert forall fd | fd in Dropped(s.conns, r, u.db) :: fd in Fds(s.conns);
  }

  /** What a completed serving iteration leaves: the admitted connections, served. */
  lemma CompletedIteration(cfg: Config, s: State, r: Round)
    requires !r.stopSeen && r.ready > 0 && Iterate(cfg, s, r).GoOn?
    ensures Admitted(cfg, s, r).GoOn?
    ensures var u := Admitted(cfg, s, r).s;
            Iterate(cfg, s, r).s == Served(u.(db := Store(u.db, Written(r.sample))), |s.conns|, r)
  {
    hide Admitted, Written, Store, Served;
  }

  lemma {:induction false} NewOnesOpen(s: State, u: State, added: seq<Conn>, r: Round)
    requires u.conns == s.conns + added
    requires forall i | |s.conns| <= i < |u.conns| :: u.conns[i].fd !in s.open
    requires forall c | c in Served(u, |s.conns|, r).conns :: c.fd in Served(u, |s.conns|, r).open
    ensures Served(u, |s.conns|, r).conns == Survivors(s.conns, r, u.db) + added
    ensures forall c | c in added :: c.fd !in s.open && c.fd in Served(u, |s.conns|, r).open
  {
    hide Survivors, Dropped;
    assert u.conns[..|s.conns|] == s.conns && u.conns[|s.conns|..] == added;
    forall c | c in added ensures c.fd !in s.open && c in Served(u, |s.conns|, r).conns {
      var i :| 0 <= i < |added| && added[i] == c;
      assert u.conns[|s.conns| + i] == c;
    }
  }

  /** The survivors, exactly: after a completed serving iteration the table holds, in order, the older
      connections that stay and then those its listeners accepted in it, on descriptors that were not
      open before; an older connection's descriptor is open just when it stays, and no other descriptor
      is closed. */
  lemma {:induction false} SurvivorTheorem(cfg: Config, s: State, r: Round)
    requires Inv(cfg, s) && !r.stopSeen && r.ready > 0 && Iterate(cfg, s, r).GoOn?
    ensures var t, db := Iterate(cfg, s, r).s, Store(s.db, Written(r.sample));
            && t.db == db
            && t.conns == Survivors(s.conns, r, db) + Newcomers(cfg, s, r)
            && (forall c | c in Newcomers(cfg, s, r) :: c.fd !in s.open && c.fd in t.open)
            && (forall c | c in s.conns :: c.fd in t.open <==> Stays(c, r, db))
            && (forall fd | fd in s.open :: fd in t.open || fd in Fds(s.conns))
  {
    hide Iterate, Admitted, Newcomers, Written, Store, Survivors, Dropped;
    AdmittedKeeps(cfg, s, r);
    IterateKeeps(cfg, s, r);
    CompletedIteration(cfg, s, r);
    var u := Admitted(cfg, s, r).s.(db := Store(s.db, Written(r.sample)));
    NewOnesOpen(s, u, Newcomers(cfg, s, r), r);
    OldOnesOpen(s, u, r);
  }

  /** The database an iteration leaves. */
  lemma DatabaseAfter(cfg: Config, s: State, r: Round)
    requires Iterate(cfg, s, r).GoOn?
    ensures Iterate(cfg, s, r).s.db == if r.ready > 0 then Store(s.db, Written(r.sample)) else s.db
  {
    hide Written, Store;
  }

  /** Which older connections are in the table afterwards. */
  lemma SurvivorsInTable(cfg: Config, s: State, r: Round)
    requires Inv(cfg, s) && !r.stopSeen && r.ready > 0 && Iterate(cfg, s, r).GoOn?
    ensures forall c | c in s.conns ::
              c in Iterate(cfg, s, r).s.conns <==> Stays(c, r, Store(s.db, Written(r.sample)))
  {
    SurvivorTheorem(cfg, s, r);
    IterateKeeps(cfg, s, r);
    var db, t := Store(s.db, Written(r.sample)), Iterate(cfg, s, r).s;
    SurvivorsAre(s.conns, r, db);
    forall c | c in s.conns ensures c in t.conns <==> Stays(c, r, db) {
      if Stays(c, r, db) { assert c in Survivors(s.conns, r, db); }
    }
  }

  // ---- whole runs ----

  /** The state at the head of the loop after some completed iterations, if the run gets that far. */
  ghost function Head(cfg: Config, s: State, rounds: seq<Round>): Option<State>
    decreases |rounds|
  {
    if rounds == [] then Some(s)
    else
      var step := Iterate(cfg, s, rounds[0]);
      if step.GoOn? then Head(cfg, step.s, rounds[1..]) else None
  }

  /** Alignment and capacity over every run: whenever the loop is at its head, the table is sound and
      the descriptors outside it are those of the beginning. */
  lemma {:induction false} EveryHeadIsSound(cfg: Config, s: State, rounds: seq<Round>)
    requires Inv(cfg, s)
    ensures Head(cfg, s, rounds).Some? ==>
              Inv(cfg, Head(cfg, s, rounds).value) && Others(cfg, Head(cfg, s, rounds).value) == Others(cfg, s)
    decreases |rounds|
  {
    if rounds != [] {
      IterateKeeps(cfg, s, rounds[0]);
      var step := Iterate(cfg, s, rounds[0]);
      if step.GoOn? { EveryHeadIsSound(cfg, step.s, rounds[1..]); }
    }
  }

  lemma {:induction false} RunKeeps(cfg: Config, s: State, rounds: seq<Round>)
    requires Inv(cfg, s)
    ensures var run := Run(cfg, s, rounds);
            && Inv(cfg, run.s)
            && match run.ending
               case LimitReached(extra) =>
                 && Others(cfg, run.s) == Others(cfg, s) + {extra} && extra !in Others(cfg, s)
                 && |run.s.conns| == cfg.maxConnections + 1
               case _ => Others(cfg, run.s) == Others(cfg, s)
    decreases |rounds|
  {
    if rounds != [] {
      IterateKeeps(cfg, s, rounds[0]);
      var step := Iterate(cfg, s, rounds[0]);
      if step.GoOn? { RunKeeps(cfg, step.s, rounds[1..]); }
    }
  }

  lemma BootIsSound(cfg: Config, open: set<int>, sample: Sample)
    requires CanBoot(cfg, open)
    ensures Inv(cfg, Boot(cfg, open, sample)) && Others(cfg, Boot(cfg, open, sample)) == open
  {
  }

  /** Descriptor conservation: a run that ends because of the exit flag, or with the process, closes
      everything it opened; one that ends at the connection limit leaves exactly the descriptor open
      that it had just accepted. */
  lemma {:induction false} DescriptorsAreConserved(cfg: Config, open: set<int>, sample: Sample, rounds: seq<Round>)
    requires CanBoot(cfg, open)
    ensures var run := Run(cfg, Boot(cfg, open, sample), rounds);
            match run.ending
            case LimitReached(extra) => Others(cfg, run.s) == open + {extra} && extra !in open
            case _ => Others(cfg, run.s) == open
  {
    BootIsSound(cfg, open, sample);
    RunKeeps(cfg, Boot(cfg, open, sample), rounds);
  }

  // ---- the capacity bound is tight ----

  lemma {:induction false} AllStay(conns: seq<Conn>, r: Round, db: map<string, string>)
    requires forall c | c in conns :: Stays(c, r, db)
    ensures Survivors(conns, r, db) == conns
  {
    if conns != [] {
      AllStay(conns[..|conns| - 1], r, db);
      assert conns == conns[..|conns| - 1] + [conns[|conns| - 1]];
    }
  }

  /** What `poll` can write for an entry that asks for POLLIN: any of that and the three conditions that
      are reported unasked, POLLERR, POLLHUP and POLLNVAL. Nothing else is asked for. */
  predicate PollWrites(mask: int) { 0 <= mask < 2 * POLLNVAL && mask % POLLERR in {0, POLLIN} }

  /** The descriptors in the vector handed to `poll`, in its order. */
  function Watched(cfg: Config, s: State): seq<int> {
    [cfg.listener] + (if cfg.tlsListener.Some? then [cfg.tlsListener.value] else [])
    + seq(|s.conns|, i requires 0 <= i < |s.conns| => s.conns[i].fd)
  }

  /** How many of them a mask reports. */
  function Reported(fds: seq<int>, mask: int -> int): nat {
    if fds == [] then 0
    else Reported(fds[..|fds| - 1], mask) + if mask(fds[|fds| - 1]) != 0 then 1 else 0
  }

  /** Whether `poll` can return this for the table: the number of entries it reports, with masks it can
      write. */
  ghost predicate Delivers(cfg: Config, s: State, r: Round) {
    r.ready > 0 ==>
      r.ready == Reported(Watched(cfg, s), r.mask) && forall fd | fd in Watched(cfg, s) :: PollWrites(r.mask(fd))
  }

  /** A run in which every `poll` returns something it can return. */
  ghost predicate Possible(cfg: Config, s: State, rounds: seq<Round>)
    decreases |rounds|
  {
    rounds != [] ==>
      && Delivers(cfg, s, rounds[0])
      && (Iterate(cfg, s, rounds[0]).GoOn? ==> Possible(cfg, Iterate(cfg, s, rounds[0]).s, rounds[1..]))
  }

  /** An iteration in which `poll` times out. */
  function Idle(): Round {
    Round(false, 0, false, _ => 0, Nothing, Nothing, Sample(0, 0, 0, 0, 0, 0, None, None, None),
          _ => Exchange([], false, Zeros(16), Zeros(16), []))
  }

  /** An iteration in which the plain listener fires and every one of `n` connections has data of a peer
      that has hung up. */
  function Arrival(cfg: Config, n: nat, fd: int): Round {
    Idle().(
      ready := n + 1,
      mask := x => if x == cfg.listener then POLLIN else if cfg.tlsListener == Some(x) then 0 else POLLIN + POLLHUP,
      http := Connection(fd, true))
  }

  lemma {:induction false} AllReported(fds: seq<int>, mask: int -> int)
    requires forall fd | fd in fds :: mask(fd) != 0
    ensures Reported(fds, mask) == |fds|
  {
    if fds != [] {
      var front, last := fds[..|fds| - 1], fds[|fds| - 1];
      AllReported(front, mask);
      assert last in fds && mask(last) != 0;
      assert Reported(fds, mask) == Reported(front, mask) + 1;
    }
  }

  lemma {:induction false} ReportedConcat(a: seq<int>, b: seq<int>, mask: int -> int)
    ensures Reported(a + b, mask) == Reported(a, mask) + Reported(b, mask)
  {
    if b == [] {
      assert a + b == a;
    } else {
      ReportedConcat(a, b[..|b| - 1], mask);
      assert (a + b)[..|a + b| - 1] == a + b[..|b| - 1];
    }
  }

  lemma ReportedOne(fd: int, mask: int -> int)
    ensures Reported([fd], mask) == if mask(fd) != 0 then 1 else 0
  {
    assert [fd][..0] == [];
  }

  lemma ArrivalCounts(cfg: Config, s: State, fd: int)
    requires Inv(cfg, s)
    ensures Reported(Watched(cfg, s), Arrival(cfg, |s.conns|, fd).mask) == |s.conns| + 1
  {
    var mask := Arrival(cfg, |s.conns|, fd).mask;
    var fds := seq(|s.conns|, i requires 0 <= i < |s.conns| => s.conns[i].fd);
    var tls := if cfg.tlsListener.Some? then [cfg.tlsListener.value] else [];
    forall x | x in fds ensures mask(x) != 0 {
      var i :| 0 <= i < |fds| && fds[i] == x;
      assert s.conns[i] in s.conns;
    }
    AllReported(fds, mask);
    ReportedConcat([cfg.listener] + tls, fds, mask);
    ReportedConcat([cfg.listener], tls, mask);
    ReportedOne(cfg.listener, mask);
    if cfg.tlsListener.Some? { ReportedOne(cfg.tlsListener.value, mask); }
  }

  lemma ArrivalIsDelivered(cfg: Config, s: State, fd: int)
    requires Inv(cfg, s)
    ensures Delivers(cfg, s, Arrival(cfg, |s.conns|, fd))
  {
    hide Reported, Watched, Inv;
    ArrivalCounts(cfg, s, fd);
    assert forall x :: PollWrites(Arrival(cfg, |s.conns|, fd).mask(x));
  }

  lemma ArrivalIsAdmitted(cfg: Config, s: State, fd: int)
    requires Inv(cfg, s) && fd > 0 && fd !in s.open
    ensures var r, t := Arrival(cfg, |s.conns|, fd), s.(open := s.open + {fd});
            && !r.stopSeen && r.ready == |s.conns| + 1 && !ListenerFault(cfg, r)
            && Admitted(cfg, s, r) == if |s.conns| > cfg.maxConnections then OverLimit(t, fd)
                                      else GoOn(t.(conns := s.conns + [Conn(fd, false)]))
  {
  }

  lemma {:induction false} ArrivalKeepsAll(cfg: Config, s: State, fd: int, db: map<string, string>)
    requires Inv(cfg, s)
    ensures Survivors(s.conns, Arrival(cfg, |s.conns|, fd), db) == s.conns
  {
    AllStay(s.conns, Arrival(cfg, |s.conns|, fd), db);
  }

  lemma ArrivalJoins(cfg: Config, s: State) returns (r: Round)
    requires Inv(cfg, s)
    ensures Delivers(cfg, s, r)
    ensures |s.conns| <= cfg.maxConnections ==>
              Iterate(cfg, s, r).GoOn? && |Iterate(cfg, s, r).s.conns| == |s.conns| + 1
    ensures |s.conns| == cfg.maxConnections + 1 ==> Iterate(cfg, s, r).OverLimit?
  {
    hide Delivers, Inv, Admitted, Arrival, ListenerFault, Survivors, Dropped, Written, Store;
    var fd := FreeDescriptor(s.open);
    r := Arrival(cfg, |s.conns|, fd);
    ArrivalIsDelivered(cfg, s, fd);
    ArrivalIsAdmitted(cfg, s, fd);
    ArrivalKeepsAll(cfg, s, fd, Store(s.db, Written(r.sample)));
    assert (s.conns + [Conn(fd, false)])[..|s.conns|] == s.conns;
  }

  lemma {:induction false} HeadAppend(cfg: Config, s: State, rounds: seq<Round>, r: Round)
    requires Head(cfg, s, rounds).Some?
    ensures var last := Iterate(cfg, Head(cfg, s, rounds).value, r);
            && Head(cfg, s, rounds + [r]) == (if last.GoOn? then Some(last.s) else None)
            && (last.OverLimit? ==> Run(cfg, s, rounds + [r]) == Result(LimitReached(last.extra), last.s))
            && (Possible(cfg, s, rounds) && Delivers(cfg, Head(cfg, s, rounds).value, r) ==>
                  Possible(cfg, s, rounds + [r]))
    decreases |rounds|
  {
    if rounds == [] {
      assert (rounds + [r])[1..] == [];
    } else {
      assert (rounds + [r])[1..] == rounds[1..] + [r];
      HeadAppend(cfg, Iterate(cfg, s, rounds[0]).s, rounds[1..], r);
    }
  }

  /** From an empty table every size up to the limit plus one is reached, so the bound is tight. */
  lemma {:induction false} EverySizeIsReached(cfg: Config, s: State, n: nat) returns (rounds: seq<Round>)
    requires Inv(cfg, s) && s.conns == [] && n <= cfg.maxConnections + 1
    ensures Possible(cfg, s, rounds)
    ensures Head(cfg, s, rounds).Some? && |Head(cfg, s, rounds).value.conns| == n
    decreases n
  {
    if n == 0 { return []; }
    rounds := EverySizeIsReached(cfg, s, n - 1);
    EveryHeadIsSound(cfg, s, rounds);
    var r := ArrivalJoins(cfg, Head(cfg, s, rounds).value);
    HeadAppend(cfg, s, rounds, r);
    rounds := rounds + [r];
  }

  /** And from there the limit branch: some run leaves a descriptor behind. */
  lemma LimitIsReached(cfg: Config, s: State) returns (rounds: seq<Round>)
    requires Inv(cfg, s) && s.conns == []
    ensures Possible(cfg, s, rounds)
    ensures Run(cfg, s, rounds).ending.LimitReached?
  {
    rounds := EverySizeIsReached(cfg, s, cfg.maxConnections + 1);
    EveryHeadIsSound(cfg, s, rounds);
    var r := ArrivalJoins(cfg, Head(cfg, s, rounds).value);
    HeadAppend(cfg, s, rounds, r);
    rounds := rounds + [r];
  }
}
