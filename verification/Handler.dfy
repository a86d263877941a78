/** The metric server's connection loop (server/MetricServerHandler.cpp) as it runs: `fds` and `clients`
    are two vectors kept in step, offset by the listeners, with entries overwritten, pushed and erased in
    place. Every method is proved against the value-level table of ConnectionTable. */
module Handler {
  import opened CStrings
  import opened Sockets
  import opened HttpRequest
  import opened Service
  import opened ConnectionTable
  import opened Vectors
  import opened MetricDatabase
  import C = Client

  /** An entry of the vector handed to `poll`. */
  datatype PollFd = PollFd(fd: int, events: int, revents: int)

  lemma {:induction false} SelectAligned(ps: seq<PollFd>, cs: seq<Conn>, keep: seq<bool>)
    requires |ps| == |cs| == |keep|
    requires forall k | 0 <= k < |ps| && keep[k] :: ps[k].fd == cs[k].fd
    ensures |Select(ps, keep)| == |Select(cs, keep)|
    ensures forall k | 0 <= k < |Select(ps, keep)| :: Select(ps, keep)[k].fd == Select(cs, keep)[k].fd
  {
    if ps != [] {
      var n := |ps| - 1;
      SelectAligned(ps[..n], cs[..n], keep[..n]);
    }
  }

  ghost predicate StayFlags(conns: seq<Conn>, keep: seq<bool>, older: nat, r: Round, m: map<string, string>) {
    older <= |conns| == |keep| && forall k | 0 <= k < |conns| :: keep[k] <==> k >= older || Stays(conns[k], r, m)
  }

  /** Survivors and newcomers, as a selection. */
  lemma {:induction false} SelectIsServed(cs: seq<Conn>, keep: seq<bool>, older: nat, r: Round, db: map<string, string>)
    requires StayFlags(cs, keep, older, r, db)
    ensures Select(cs, keep) == Survivors(cs[..older], r, db) + cs[older..]
  {
    if cs != [] {
      var n := |cs| - 1;
      SelectIsServed(cs[..n], keep[..n], if older > n then n else older, r, db);
      if older <= n {
        assert cs[..n][..older] == cs[..older] && cs[older..] == cs[..n][older..] + [cs[n]];
      } else {
        assert cs[..older] == cs && cs[..n][..n] == cs[..n];
      }
    }
  }

  ghost function ConnsOf(clients: seq<C.Client>): (s: seq<Conn>)
    reads clients
    ensures |s| == |clients|
    ensures forall i | 0 <= i < |s| :: s[i] == Conn(clients[i].sockfd, clients[i].useSSL > 0)
  {
    seq(|clients|, i requires 0 <= i < |clients| reads clients => Conn(clients[i].sockfd, clients[i].useSSL > 0))
  }

  ghost predicate Separate(clients: seq<C.Client>) {
    forall i, j | 0 <= i < j < |clients| ::
      clients[i] != clients[j] && clients[i].recvBuffer != clients[j].recvBuffer
  }

  lemma SeparateSnoc(clients: seq<C.Client>, client: C.Client, others: set<object>)
    requires Separate(clients) && client !in others && client.recvBuffer !in others
    requires forall k | 0 <= k < |clients| :: clients[k] in others && clients[k].recvBuffer in others
    ensures Separate(clients + [client])
  {
  }

  lemma ConnsSnoc(clients: seq<C.Client>, client: C.Client)
    ensures ConnsOf(clients + [client]) == ConnsOf(clients) + [Conn(client.sockfd, client.useSSL > 0)]
  {
  }

  lemma {:induction false} SelectConns(clients: seq<C.Client>, keep: seq<bool>)
    requires |clients| == |keep|
    ensures ConnsOf(Select(clients, keep)) == Select(ConnsOf(clients), keep)
  {
    if clients != [] {
      var n := |clients| - 1;
      SelectConns(clients[..n], keep[..n]);
      assert ConnsOf(clients)[..n] == ConnsOf(clients[..n]);
    }
  }

  lemma {:induction false} SelectSeparate(clients: seq<C.Client>, keep: seq<bool>)
    requires |clients| == |keep| && Separate(clients)
    ensures Separate(Select(clients, keep))
  {
    if clients != [] {
      var n := |clients| - 1;
      SelectSeparate(clients[..n], keep[..n]);
      SelectMembers(clients[..n], keep[..n]);
      var kept := Select(clients[..n], keep[..n]);
      forall i | 0 <= i < |kept| ensures kept[i] != clients[n] && kept[i].recvBuffer != clients[n].recvBuffer {
        assert kept[i] in kept;
        var k :| 0 <= k < n && clients[..n][k] == kept[i];
        assert clients[k] == kept[i];
      }
    }
  }

  /** An unsigned `size() - 1`. */
  function LastIndex(size: nat): int { if size == 0 then WORD - 1 else size - 1 }

  datatype Control = Continue | Break | BreakAtLimit(extra: int) | Exit

  function PositiveFds(conns: seq<Conn>): set<int> { set c | c in conns && c.fd > 0 :: c.fd }

  lemma PositiveFrom(conns: seq<Conn>, i: nat)
    requires i < |conns|
    ensures PositiveFds(conns[i..]) == PositiveFds(conns[i + 1..]) + if conns[i].fd > 0 then {conns[i].fd} else {}
  {
    assert conns[i..] == [conns[i]] + conns[i + 1..];
  }

  lemma AllPositive(conns: seq<Conn>)
    requires forall c | c in conns :: c.fd > 0
    ensures PositiveFds(conns) == Fds(conns)
  {
  }

  ghost predicate Polled(fds: seq<PollFd>, r: Round) {
    forall k | 0 <= k < |fds| :: fds[k].revents == r.mask(fds[k].fd)
  }

  function NewFd(before: State, after: State): int {
    if |after.conns| <= |before.conns| then 0 else after.conns[|before.conns|].fd
  }

  function Joined(before: State, after: State, fd: int): seq<PollFd> {
    if |after.conns| == |before.conns| then [] else [PollFd(fd, POLLIN, 0)]
  }

  /** The entries both turns add, and the descriptors the loop remembers as just accepted. */
  ghost predicate BothJoined(cfg: Config, s: State, b: State, r: Round, ps: seq<PollFd>, all: seq<PollFd>,
                             newfd: int, newfdHttps: int)
  {
    var a := Admit(cfg, s, r.mask(cfg.listener) == POLLIN, r.http, false).s;
    newfd == NewFd(s, a) && newfdHttps == NewFd(a, b) && all == ps + Joined(s, a, newfd) + Joined(a, b, newfdHttps)
  }

  /** What the serving loop finds: older entries with the mask `poll` wrote, and new ones untouched. */
  ghost predicate Arrived(cfg: Config, ps: seq<PollFd>, conns: seq<Conn>, older: nat, newfd: int, newfdHttps: int,
                          r: Round)
    requires older <= |conns|
  {
    && |ps| == |conns|
    && (forall k | 0 <= k < |ps| :: ps[k].fd == conns[k].fd)
    && (forall k | 0 <= k < older :: ps[k].revents == r.mask(ps[k].fd) && ps[k].fd != newfd && ps[k].fd != newfdHttps)
    && (forall k | older <= k < |ps| :: ps[k].revents == 0 && ps[k].fd == if conns[k].tls then newfdHttps else newfd)
    && (forall k | 0 <= k < |ps| :: conns[k].fd > 0 && (conns[k].tls ==> cfg.tlsListener.Some?))
  }

  /** One listener's turn: nothing, or one connection on a fresh descriptor behind the others. */
  ghost predicate Turned(s: State, a: State, tls: bool, fd: int, entries: seq<PollFd>) {
    || (a.conns == s.conns && fd == 0 && entries == [])
    || (a.conns == s.conns + [Conn(fd, tls)] && fd > 0 && fd !in s.open && entries == [PollFd(fd, POLLIN, 0)])
  }

  lemma TurnIs(cfg: Config, s: State, fires: bool, offer: Offer, tls: bool)
    requires Admit(cfg, s, fires, offer, tls).GoOn?
    ensures var a := Admit(cfg, s, fires, offer, tls).s;
            Turned(s, a, tls, NewFd(s, a), Joined(s, a, NewFd(s, a))) && s.open <= a.open && (!fires ==> a == s)
  {
  }

  lemma ArrivedFrom(cfg: Config, s: State, a: State, b: State, r: Round, ps: seq<PollFd>, newfd: int, newfdHttps: int,
                    plain: seq<PollFd>, tls: seq<PollFd>)
    requires Turned(s, a, false, newfd, plain) && Turned(a, b, true, newfdHttps, tls) && s.open <= a.open
    requires cfg.tlsListener.None? ==> b == a
    requires |ps| == |s.conns|
    requires forall k | 0 <= k < |ps| :: ps[k].fd == s.conns[k].fd && ps[k].revents == r.mask(ps[k].fd)
    requires forall k | 0 <= k < |ps| :: s.conns[k].fd > 0 && s.conns[k].fd in s.open
                                         && (s.conns[k].tls ==> cfg.tlsListener.Some?)
    ensures |s.conns| <= |b.conns| && Arrived(cfg, ps + plain + tls, b.conns, |s.conns|, newfd, newfdHttps, r)
  {
  }

  lemma ArrivedNow(cfg: Config, s: State, b: State, r: Round, ps: seq<PollFd>, all: seq<PollFd>,
                   newfd: int, newfdHttps: int)
    requires Inv(cfg, s) && Admitted(cfg, s, r) == GoOn(b)
    requires BothJoined(cfg, s, b, r, ps, all, newfd, newfdHttps)
    requires |ps| == |s.conns|
    requires forall k | 0 <= k < |ps| :: ps[k].fd == s.conns[k].fd && ps[k].revents == r.mask(ps[k].fd)
    ensures |s.conns| <= |b.conns|
    ensures Arrived(cfg, all, b.conns, |s.conns|, newfd, newfdHttps, r)
  {
    hide Admit, Arrived, NewFd, Joined, Turned;
    var a := Admit(cfg, s, r.mask(cfg.listener) == POLLIN, r.http, false).s;
    TurnIs(cfg, s, r.mask(cfg.listener) == POLLIN, r.http, false);
    TurnIs(cfg, a, cfg.tlsListener.Some? && r.mask(cfg.tlsListener.value) == POLLIN, r.https, true);
    assert forall k | 0 <= k < |ps| :: s.conns[k] in s.conns;
    ArrivedFrom(cfg, s, a, b, r, ps, newfd, newfdHttps, Joined(s, a, newfd), Joined(a, b, newfdHttps));
  }

  const DEAD := Conn(-1, false)

  /** The connections after the first `n` have been looked at: those not kept are dead. */
  ghost function Marked(conns: seq<Conn>, keep: seq<bool>, n: nat): (r: seq<Conn>)
    requires n <= |conns| == |keep|
    ensures |r| == |conns|
  {
    seq(|conns|, k requires 0 <= k < |conns| => if k < n && !keep[k] then DEAD else conns[k])
  }

  lemma {:induction false} ServedConns(was: seq<Conn>, keep: seq<bool>, older: nat, r: Round, m: map<string, string>)
    requires StayFlags(was, keep, older, r, m)
    ensures Select(Marked(was, keep, |keep|), keep) == Survivors(was[..older], r, m) + was[older..]
  {
    SelectAgrees(Marked(was, keep, |keep|), was, keep);
    SelectIsServed(was, keep, older, r, m);
  }

  /** The code's test for a connection to be killed without being read. */
  predicate Killed(cfg: Config, p: PollFd, tls: bool, newfd: int, newfdHttps: int) {
    || p.revents == POLLHUP
    || (p.fd != newfd && p.revents == 0 && !tls)
    || (cfg.tlsListener.Some? && p.fd != newfdHttps && p.revents == 0 && tls)
  }

  ghost predicate EntryStays(cfg: Config, p: PollFd, tls: bool, newfd: int, newfdHttps: int, r: Round,
                             m: map<string, string>)
  {
    if p.revents == POLLIN then KeepsAlive(r.exchange(p.fd), m) else !Killed(cfg, p, tls, newfd, newfdHttps)
  }

  ghost predicate Dispatchable(cfg: Config, ps: seq<PollFd>, conns: seq<Conn>) {
    |ps| == |conns| && forall k | 0 <= k < |conns| :: conns[k].fd > 0
  }

  ghost function Verdicts(cfg: Config, ps: seq<PollFd>, conns: seq<Conn>, newfd: int, newfdHttps: int, r: Round,
                          m: map<string, string>): seq<bool>
    requires |ps| == |conns|
  {
    seq(|ps|, k requires 0 <= k < |ps| => EntryStays(cfg, ps[k], conns[k].tls, newfd, newfdHttps, r, m))
  }

  /** The code's tests on events, TLS and "just accepted" come down to what the table says. */
  lemma VerdictsStay(cfg: Config, ps: seq<PollFd>, conns: seq<Conn>, older: nat, newfd: int, newfdHttps: int,
                     r: Round, m: map<string, string>)
    requires older <= |conns| && Arrived(cfg, ps, conns, older, newfd, newfdHttps, r)
    ensures Dispatchable(cfg, ps, conns)
    ensures StayFlags(conns, Verdicts(cfg, ps, conns, newfd, newfdHttps, r, m), older, r, m)
  {
    var keep := Verdicts(cfg, ps, conns, newfd, newfdHttps, r, m);
    forall k | 0 <= k < |conns| ensures keep[k] <==> k >= older || Stays(conns[k], r, m) {
      assert keep[k] == EntryStays(cfg, ps[k], conns[k].tls, newfd, newfdHttps, r, m);
    }
  }

  ghost predicate AliveFlags(ps: seq<PollFd>, off: nat, keep: seq<bool>) {
    && |ps| == off + |keep|
    && (forall k | 0 <= k < off :: ps[k].fd >= 0)
    && (forall k | 0 <= k < |keep| :: keep[k] <==> ps[off + k].fd >= 0)
  }

  lemma MarkedAlive(fds: seq<PollFd>, off: nat, conns: seq<Conn>, was: seq<Conn>, keep: seq<bool>)
    requires |fds| == off + |conns| && |conns| == |was| == |keep|
    requires conns == Marked(was, keep, |keep|)
    requires forall k | 0 <= k < off :: fds[k].fd >= 0
    requires forall k | 0 <= k < |conns| :: fds[off + k].fd == conns[k].fd && was[k].fd > 0
    ensures AliveFlags(fds, off, keep)
  {
    forall k | 0 <= k < |keep| ensures keep[k] <==> fds[off + k].fd >= 0 {
      assert conns[k] == if keep[k] then was[k] else DEAD;
    }
  }

  ghost function ClosedFds(conns: seq<Conn>, keep: seq<bool>, n: nat): set<int>
    requires n <= |conns| == |keep|
  {
    if n == 0 then {} else ClosedFds(conns, keep, n - 1) + if keep[n - 1] then {} else {conns[n - 1].fd}
  }

  lemma {:induction false} ClosedFdsAre(conns: seq<Conn>, keep: seq<bool>, n: nat)
    requires n <= |conns| == |keep|
    ensures ClosedFds(conns, keep, n) == set k | 0 <= k < n && !keep[k] :: conns[k].fd
  {
    if n > 0 { ClosedFdsAre(conns, keep, n - 1); }
  }

  lemma {:induction false} ClosedIsDropped(conns: seq<Conn>, keep: seq<bool>, older: nat, r: Round,
                                            m: map<string, string>)
    requires StayFlags(conns, keep, older, r, m)
    ensures ClosedFds(conns, keep, |keep|) == Dropped(conns[..older], r, m)
  {
    ClosedFdsAre(conns, keep, |keep|);
    assert forall k | 0 <= k < older :: conns[..older][k] == conns[k];
  }

  lemma {:induction false} AskedFromBuffer(x: Exchange, buffer: seq<char>)
    requires C.Received(x.incoming, x.staleAgain).Some?
    requires var data := C.Received(x.incoming, x.staleAgain).value;
             |data| <= C.ROOM && buffer == data + Zeros(C.BUFFER_SIZE - |data|)
    ensures |buffer| == C.BUFFER_SIZE && Next(buffer, 0, NUL) < C.BUFFER_SIZE
    ensures Asked(x) == Parsed(Text(buffer), Fresh(x.metricJunk, x.connectionJunk))
    ensures Asked(x).Some? ==> HasEnd(Asked(x).value)
  {
    hide Parsed, HasEnd;
    C.BufferText(C.Received(x.incoming, x.staleAgain).value);
    ParsedHasEnd(Text(buffer), Fresh(x.metricJunk, x.connectionJunk));
  }

  /** What an entry is sent, and what the first `n` entries are sent. */
  ghost function EntrySends(p: PollFd, r: Round, m: map<string, string>): seq<Sent> {
    if p.revents == POLLIN then [Sent(p.fd, OnTheWire(r.exchange(p.fd), m))] else []
  }

  ghost function EntriesSend(ps: seq<PollFd>, n: nat, r: Round, m: map<string, string>): seq<Sent>
    requires n <= |ps|
  {
    if n == 0 then [] else EntriesSend(ps, n - 1, r, m) + EntrySends(ps[n - 1], r, m)
  }

  lemma {:induction false} EntriesSendNone(ps: seq<PollFd>, r: Round, m: map<string, string>)
    ensures EntriesSend(ps, 0, r, m) == []
  {
  }

  lemma EntriesSendNext(ps: seq<PollFd>, n: nat, r: Round, m: map<string, string>)
    requires n < |ps|
    ensures EntriesSend(ps, n + 1, r, m) == EntriesSend(ps, n, r, m) + EntrySends(ps[n], r, m)
  {
  }

  /** The older entries are sent the table's replies, the new ones nothing. */
  lemma {:induction false} EntriesSendReplies(cfg: Config, ps: seq<PollFd>, conns: seq<Conn>, older: nat, newfd: int,
                                              newfdHttps: int, r: Round, m: map<string, string>, n: nat)
    requires older <= |conns| && Arrived(cfg, ps, conns, older, newfd, newfdHttps, r) && n <= |ps|
    ensures EntriesSend(ps, n, r, m) == Replies(conns[..if n < older then n else older], r, m)
    decreases n
  {
    hide OnTheWire, Replies;
    RepliesNone(r, m);
    if n > 0 {
      EntriesSendReplies(cfg, ps, conns, older, newfd, newfdHttps, r, m, n - 1);
      if n <= older { RepliesNext(conns, n - 1, r, m); }
    }
  }

  lemma MarkedLater(conns: seq<Conn>, keep: seq<bool>, n: nat)
    requires n < |conns| == |keep|
    ensures Marked(conns, keep, n)[n] == conns[n]
  {
  }

  lemma MarkedStep(conns: seq<Conn>, keep: seq<bool>, n: nat)
    requires n < |conns| == |keep|
    ensures Marked(conns, keep, n + 1) == if keep[n] then Marked(conns, keep, n) else Marked(conns, keep, n)[n := DEAD]
  {
  }

  class Handler {
    const kernel: Kernel
    const db: MetricDatabase
    const cfg: Config
    var fds: seq<PollFd>
    var clients: seq<C.Client>
    ghost var repr: set<object>  // the clients and their buffers

    ghost function Conns(): (s: seq<Conn>)
      reads this, clients
      ensures |s| == |clients|
      ensures forall i | 0 <= i < |s| :: s[i] == Conn(clients[i].sockfd, clients[i].useSSL > 0)
    {
      ConnsOf(clients)
    }

    ghost function View(): State
      reads this, clients, kernel, db
    {
      State(Conns(), kernel.open, db.mdb)
    }

    function Offset(): nat { if cfg.tlsListener.Some? then 2 else 1 }

    /** The two vectors are in step, entry by entry. This holds in the middle of an iteration too. */
    ghost predicate InStep()
      reads this, clients
    {
      && this !in repr && kernel !in repr && db !in repr
      && |fds| == Offset() + |clients|
      && fds[0].fd == cfg.listener
      && (cfg.tlsListener.Some? ==> fds[1].fd == cfg.tlsListener.value)
      && (forall i | 0 <= i < |clients| :: fds[Offset() + i].fd == clients[i].sockfd)
      && (forall i | 0 <= i < |clients| ::
            clients[i] in repr && clients[i].recvBuffer in repr && clients[i].Valid())
      && Separate(clients)
    }

    ghost predicate Valid()
      reads this, clients, kernel, db
    {
      InStep() && Inv(cfg, View())
    }

    /** Starting up: the first refresh, then the listeners. */
    constructor (kernel: Kernel, cfg: Config, first: Sample)
      requires CanBoot(cfg, kernel.open)
      modifies kernel
      ensures this.kernel == kernel && this.cfg == cfg && fresh(db) && repr == {}
      ensures Valid() && View() == Boot(cfg, old(kernel.open), first)
    {
      hide Written, Store, Inv, Told, LeftAlone, Numbers;
      this.kernel, this.cfg := kernel, cfg;
      db := new MetricDatabase();
      fds := [PollFd(cfg.listener, POLLIN, 0)];
      clients, repr := [], {};
      new;
      BootIsSound(cfg, kernel.open, first);
      db.Update(first);
      kernel.Listen(cfg.listener);
      if cfg.tlsListener.Some? {
        kernel.Listen(cfg.tlsListener.value);
        fds := fds + [PollFd(cfg.tlsListener.value, POLLIN, 0)];
      }
      assert kernel.open == old(kernel.open) + Listeners(cfg) && Conns() == [];
    }

    /** The entry's connection is closed and the entry marked for erasing. */
    method Kill(i: nat, events: int)
      requires Offset() <= i < |fds| == Offset() + |clients| && clients[i - Offset()].Valid()
      modifies this`fds, kernel, clients[i - Offset()], clients[i - Offset()].recvBuffer
      ensures fds == old(fds)[i := PollFd(-1, events, 0)]
      ensures var c := clients[i - Offset()];
              && c.useSSL == 0
              && (old(c.sockfd) > 0 ==> c.sockfd == -1 && kernel.open == old(kernel.open) - {old(c.sockfd)})
              && (old(c.sockfd) <= 0 ==> c.sockfd == old(c.sockfd) && kernel.open == old(kernel.open))
    {
      clients[i - Offset()].Clear(kernel);
      fds := fds[i := PollFd(-1, events, 0)];
    }

    /** Receive and parse. A connection that fails to receive is closed, though its client may not
        know: `_sockfd` keeps its value after a hard error. */
    method Ask(c: C.Client, x: Exchange, req: Request) returns (rc: int)
      requires c.Valid() && req.Valid() && req.View() == Fresh(x.metricJunk, x.connectionJunk)
      requires c.recvBuffer != req.metric && c.recvBuffer != req.connection
      modifies kernel, c, c.recvBuffer, req`kind, req.metric, req.connection
      ensures rc == 0 || rc == C.RECEIVE_FAILED || rc == -1
      ensures rc == 0 <==> Asked(x).Some?
      ensures rc == 0 ==> req.View() == Asked(x).value && HasEnd(req.View())
      ensures rc == C.RECEIVE_FAILED || (kernel.open == old(kernel.open) && c.sockfd == old(c.sockfd))
      ensures rc == C.RECEIVE_FAILED ==>
                kernel.open == old(kernel.open) - {old(c.sockfd)} && (c.sockfd == old(c.sockfd) || c.sockfd == -1)
      ensures c.useSSL == old(c.useSSL)
    {
      rc := c.Receive(kernel, x.incoming, x.staleAgain);
      if rc >= 0 {
        AskedFromBuffer(x, c.recvBuffer[..]);
        rc := req.Parse(c.recvBuffer);
      }
    }

    /** The branch for an entry that reported data: receive, parse, answer, and keep or close. */
    method ServeReadable(i: nat, x: Exchange) returns (wire: seq<char>)
      requires InStep() && Offset() <= i < |fds| && fds[i].fd > 0
      modifies this`fds, kernel, clients[i - Offset()], clients[i - Offset()].recvBuffer
      ensures wire == OnTheWire(x, db.mdb)
      ensures |fds| == |old(fds)| && fds == old(fds)[i := fds[i]]
      ensures var c := clients[i - Offset()];
              if KeepsAlive(x, db.mdb)
              then fds[i] == old(fds[i]).(revents := 0) && kernel.open == old(kernel.open)
                   && c.sockfd == old(c.sockfd) && c.useSSL == old(c.useSSL)
              else fds[i].fd == -1 && c.sockfd == -1 && c.useSSL == 0
                   && kernel.open == old(kernel.open) - {old(c.sockfd)}
    {
      hide Separate, Answer, Parsed;
      var c := clients[i - Offset()];
      var req := new Request(x.metricJunk, x.connectionJunk);
      var rc := Ask(c, x, req);
      if rc < 0 {
        Kill(i, if rc == -1 then POLLIN else 0);
        return "";
      }
      var reply := HttpErrorCheck(req, db);
      rc, wire := c.Send(kernel, reply, x.outgoing);
      if rc < 0 {
        Kill(i, POLLIN);
        return;
      }
      var keep := req.WantsKeepAlive();
      if keep {
        fds := fds[i := fds[i].(revents := 0)];
        return;
      }
      Kill(i, POLLIN);
    }

    lemma OthersApart(j: nat)
      requires Separate(clients) && j < |clients|
      ensures forall k | 0 <= k < |clients| && k != j ::
                clients[k] != clients[j] && clients[k].recvBuffer != clients[j].recvBuffer
    {
    }

    /** One entry of the serving loop: answered if it reported data, killed if the code's tests say so. */
    method ServeOrKill(i: nat, r: Round, newfd: int, newfdHttps: int, ghost keep: bool) returns (sent: seq<Sent>)
      requires InStep() && Offset() <= i < |fds| && fds[i].fd > 0
      requires keep == EntryStays(cfg, fds[i], clients[i - Offset()].useSSL > 0, newfd, newfdHttps, r, db.mdb)
      modifies this`fds, kernel, clients[i - Offset()], clients[i - Offset()].recvBuffer
      ensures |fds| == |old(fds)| && fds == old(fds)[i := fds[i]]
      ensures var c := clients[i - Offset()];
              if keep
              then fds[i].fd == old(fds[i]).fd && kernel.open == old(kernel.open)
                   && c.sockfd == old(c.sockfd) && c.useSSL == old(c.useSSL)
              else fds[i].fd == -1 && c.sockfd == -1 && c.useSSL == 0
                   && kernel.open == old(kernel.open) - {old(c.sockfd)}
      ensures sent == EntrySends(old(fds[i]), r, db.mdb)
    {
      hide KeepsAlive, OnTheWire, Separate;
      sent := [];
      if fds[i].fd > 0 && fds[i].revents == POLLIN {
        var fd := fds[i].fd;
        var wire := ServeReadable(i, r.exchange(fd));
        sent := [Sent(fd, wire)];
      } else if fds[i].fd > 0 && Killed(cfg, fds[i], clients[i - Offset()].useSSL > 0, newfd, newfdHttps) {
        Kill(i, POLLIN);
      }
    }

    /** A change to one connection and its entry alike leaves the vectors in step. */
    lemma StillInStep(before: seq<PollFd>, was: seq<Conn>, j: nat)
      requires this !in repr && kernel !in repr && db !in repr && Separate(clients)
      requires forall k | 0 <= k < |clients| ::
                 clients[k] in repr && clients[k].recvBuffer in repr && clients[k].Valid()
      requires |fds| == |before| == Offset() + |clients| && j < |clients| == |was|
      requires before[0].fd == cfg.listener && (cfg.tlsListener.Some? ==> before[1].fd == cfg.tlsListener.value)
      requires forall k | 0 <= k < |was| :: before[Offset() + k].fd == was[k].fd
      requires forall k | 0 <= k < |clients| && k != j :: clients[k].sockfd == was[k].fd
      requires fds == before[Offset() + j := fds[Offset() + j]] && fds[Offset() + j].fd == clients[j].sockfd
      ensures InStep()
    {
    }

    /** All the other entries, and their being in step, are untouched. */
    method ServeEntry(i: nat, r: Round, newfd: int, newfdHttps: int, ghost keep: bool) returns (sent: seq<Sent>)
      requires InStep() && Offset() <= i < |fds| && fds[i].fd > 0
      requires keep == EntryStays(cfg, fds[i], clients[i - Offset()].useSSL > 0, newfd, newfdHttps, r, db.mdb)
      modifies this`fds, kernel, clients[i - Offset()], clients[i - Offset()].recvBuffer
      ensures InStep() && |fds| == |old(fds)| && fds == old(fds)[i := fds[i]]
      ensures Conns() == if keep then old(Conns()) else old(Conns())[i - Offset() := DEAD]
      ensures kernel.open == if keep then old(kernel.open) else old(kernel.open) - {old(fds[i]).fd}
      ensures sent == EntrySends(old(fds[i]), r, db.mdb)
    {
      hide EntryStays, EntrySends, Separate;
      ghost var before, was, j := fds, Conns(), i - Offset();
      OthersApart(j);
      sent := ServeOrKill(i, r, newfd, newfdHttps, keep);
      forall k | 0 <= k < |clients| && k != j
        ensures clients[k].sockfd == was[k].fd && (clients[k].useSSL > 0) == was[k].tls
      {
        assert clients[k] != clients[j];
      }
      StillInStep(before, was, j);
      assert Conns() == if keep then was else was[j := DEAD];
    }

    /** The serving loop's books after `n` connections. */
    ghost predicate Dispatched(ps: seq<PollFd>, was: seq<Conn>, open: set<int>, keep: seq<bool>, n: nat)
      reads this, clients, kernel
    {
      && InStep() && |was| == |keep| == |clients| && n <= |clients| && |fds| == |ps|
      && (forall k | 0 <= k < Offset() || Offset() + n <= k < |fds| :: fds[k] == ps[k])
      && Conns() == Marked(was, keep, n)
      && kernel.open == open - ClosedFds(was, keep, n)
    }

    lemma InRange(ps: seq<PollFd>, was: seq<Conn>, open: set<int>, keep: seq<bool>, n: nat)
      requires Dispatched(ps, was, open, keep, n)
      ensures n <= |clients| == |was| && |fds| == |ps| == Offset() + |clients|
      ensures this !in repr && kernel !in repr && db !in repr
      ensures n < |clients| ==> clients[n] in repr && clients[n].recvBuffer in repr
    {
    }

    lemma DispatchedNext(ps: seq<PollFd>, was: seq<Conn>, open: set<int>, keep: seq<bool>, n: nat,
                         before: seq<PollFd>, conns: seq<Conn>, stillOpen: set<int>)
      requires InStep() && n < |was| == |keep| == |clients| && |fds| == |before| == |ps|
      requires forall k | 0 <= k < Offset() || Offset() + n <= k < |before| :: before[k] == ps[k]
      requires conns == Marked(was, keep, n) && stillOpen == open - ClosedFds(was, keep, n)
      requires fds == before[Offset() + n := fds[Offset() + n]]
      requires Conns() == if keep[n] then conns else conns[n := DEAD]
      requires kernel.open == if keep[n] then stillOpen else stillOpen - {was[n].fd}
      ensures Dispatched(ps, was, open, keep, n + 1)
    {
      MarkedStep(was, keep, n);
    }

    method DispatchStep(i: nat, r: Round, newfd: int, newfdHttps: int, ghost n: nat,
                        ghost ps: seq<PollFd>, ghost was: seq<Conn>, ghost open: set<int>, ghost keep: seq<bool>)
      returns (sent: seq<Sent>)
      requires Dispatched(ps, was, open, keep, n) && i == Offset() + n < |fds|
      requires Dispatchable(cfg, ps[Offset()..], was)
      requires keep == Verdicts(cfg, ps[Offset()..], was, newfd, newfdHttps, r, db.mdb)
      modifies this`fds, kernel, clients[i - Offset()], clients[i - Offset()].recvBuffer
      ensures Dispatched(ps, was, open, keep, n + 1)
      ensures sent == EntrySends(ps[Offset()..][n], r, db.mdb)
    {
      hide EntryStays, EntrySends, Marked, ClosedFds;
      ghost var before, conns, stillOpen := fds, Conns(), kernel.open;
      assert fds[i] == ps[i] == ps[Offset()..][n];
      assert Conns()[n] == was[n] by { MarkedLater(was, keep, n); }
      sent := ServeEntry(i, r, newfd, newfdHttps, keep[n]);
      DispatchedNext(ps, was, open, keep, n, before, conns, stillOpen);
    }

    /** The serving loop over all connections: those that stay are unchanged, the others are closed and
        marked in both vectors, and the readable ones have been sent their replies. */
    method Dispatch(r: Round, newfd: int, newfdHttps: int, ghost was: seq<Conn>, ghost keep: seq<bool>)
      returns (sent: seq<Sent>)
      requires Dispatched(fds, was, kernel.open, keep, 0)
      requires Dispatchable(cfg, fds[Offset()..], was)
      requires keep == Verdicts(cfg, fds[Offset()..], was, newfd, newfdHttps, r, db.mdb)
      modifies this`fds, kernel, repr
      ensures Dispatched(old(fds), was, old(kernel.open), keep, |clients|)
      ensures sent == EntriesSend(old(fds[Offset()..]), |was|, r, db.mdb)
    {
      hide Verdicts, Dispatched, EntriesSend;
      InRange(fds, was, kernel.open, keep, 0);
      var i := Offset();
      ghost var n, ps, open := 0, fds, kernel.open;
      sent := [];
      EntriesSendNone(ps[Offset()..], r, db.mdb);
      while i < |fds|
        invariant i == Offset() + n && n <= |was| == |clients| && |fds| == |ps| == Offset() + |was|
        invariant Dispatched(ps, was, open, keep, n)
        invariant sent == EntriesSend(ps[Offset()..], n, r, db.mdb)
      {
        InRange(ps, was, open, keep, n);
        var more := DispatchStep(i, r, newfd, newfdHttps, n, ps, was, open, keep);
        InRange(ps, was, open, keep, n + 1);
        EntriesSendNext(ps[Offset()..], n, r, db.mdb);
        sent := sent + more;
        i, n := i + 1, n + 1;
      }
    }

    /** One turn of the compaction loop: erase the entry from both vectors, or step over it. */
    method CompactStep(idx: nat, ghost ps: seq<PollFd>, ghost cs: seq<C.Client>, ghost keep: seq<bool>, ghost k: nat)
      returns (next: nat)
      requires |ps| == Offset() + |cs| && |keep| == |cs| && k < |ps|
      requires AliveFlags(ps, Offset(), keep)
      requires InStepFiltered(fds, clients, ps, cs, keep, Offset(), k, idx)
      modifies this`fds, this`clients
      ensures InStepFiltered(fds, clients, ps, cs, keep, Offset(), k + 1, next)
    {
      InStepStep(fds, clients, ps, cs, keep, Offset(), k, idx);
      if fds[idx].fd < 0 {
        fds := Erase(fds, idx);
        clients := Erase(clients, idx - Offset());
        next := idx;
      } else {
        next := idx + 1;
      }
    }

    /** The compaction loop: dead entries are erased from both vectors in place. */
    method Compact(ghost keep: seq<bool>)
      requires |fds| == Offset() + |clients| && |keep| == |clients|
      requires AliveFlags(fds, Offset(), keep)
      modifies this`fds, this`clients
      ensures fds == old(fds[..Offset()]) + Select(old(fds[Offset()..]), keep)
      ensures clients == Select(old(clients), keep)
    {
      ghost var ps, cs, k := fds, clients, 0;
      InStepStart(ps, cs, keep, Offset());
      var idx := 0;
      while idx <= LastIndex(|fds|)
        invariant 0 <= k <= |ps| && 0 <= idx
        invariant InStepFiltered(fds, clients, ps, cs, keep, Offset(), k, idx)
        decreases |ps| - k
      {
        InStepCounts(fds, clients, ps, cs, keep, Offset(), k, idx);
        idx := CompactStep(idx, ps, cs, keep, k);
        k := k + 1;
      }
      InStepCounts(fds, clients, ps, cs, keep, Offset(), k, idx);
      InStepEnd(fds, clients, ps, cs, keep, Offset(), idx);
    }

    /** What compaction leaves of two vectors in step, `cs` and the entries `front + ps`, is in step. */
    lemma {:induction false} Compacted(front: seq<PollFd>, ps: seq<PollFd>, cs: seq<C.Client>, keep: seq<bool>)
      requires this !in repr && kernel !in repr && db !in repr
      requires Separate(cs) && |front| == Offset() && |ps| == |cs| == |keep|
      requires front[0].fd == cfg.listener && (cfg.tlsListener.Some? ==> front[1].fd == cfg.tlsListener.value)
      requires forall k | 0 <= k < |cs| :: cs[k] in repr && cs[k].recvBuffer in repr && cs[k].Valid()
      requires forall k | 0 <= k < |cs| :: ps[k].fd == cs[k].sockfd
      requires fds == front + Select(ps, keep) && clients == Select(cs, keep)
      ensures InStep() && Conns() == Select(ConnsOf(cs), keep)
    {
      hide Select, Separate;
      SelectConns(cs, keep);
      SelectSeparate(cs, keep);
      SelectAligned(ps, ConnsOf(cs), keep);
      SelectWithin(cs, keep);
      forall k | 0 <= k < |clients|
        ensures clients[k] in repr && clients[k].recvBuffer in repr && clients[k].Valid()
      {
        var j :| 0 <= j < |cs| && cs[j] == clients[k];
      }
      forall k | 0 <= k < |clients| ensures fds[Offset() + k].fd == clients[k].sockfd {
        assert fds[Offset() + k] == Select(ps, keep)[k] && Conns()[k].fd == clients[k].sockfd;
      }
    }

    /** Compaction keeps the vectors in step. */
    method CompactTable(ghost keep: seq<bool>)
      requires InStep() && AliveFlags(fds, Offset(), keep)
      modifies this`fds, this`clients
      ensures InStep() && Conns() == Select(old(Conns()), keep)
    {
      hide Select, Separate;
      ghost var front, ps, cs := fds[..Offset()], fds[Offset()..], clients;
      Compact(keep);
      Compacted(front, ps, cs, keep);
    }

    lemma NoneDispatched(keep: seq<bool>)
      requires InStep() && |keep| == |clients|
      ensures Dispatched(fds, Conns(), kernel.open, keep, 0)
    {
      assert Marked(Conns(), keep, 0) == Conns();
    }

    lemma AllDispatched(ps: seq<PollFd>, was: seq<Conn>, open: set<int>, keep: seq<bool>, older: nat, r: Round)
      requires Dispatched(ps, was, open, keep, |clients|) && StayFlags(was, keep, older, r, db.mdb)
      requires (forall k | 0 <= k < |was| :: was[k].fd > 0) && forall k | 0 <= k < Offset() :: ps[k].fd > 0
      ensures AliveFlags(fds, Offset(), keep)
      ensures kernel.open == open - Dropped(was[..older], r, db.mdb)
    {
      hide Marked, ClosedFds, Dropped, AliveFlags, StayFlags, Separate;
      MarkedAlive(fds, Offset(), Conns(), was, keep);
      ClosedIsDropped(was, keep, older, r, db.mdb);
    }

    /** The dispatch with its verdicts read as the table reads them. */
    method DispatchTable(r: Round, newfd: int, newfdHttps: int, ghost older: nat)
      returns (sent: seq<Sent>, ghost keep: seq<bool>)
      requires InStep() && older <= |clients|
      requires Arrived(cfg, fds[Offset()..], Conns(), older, newfd, newfdHttps, r)
      requires forall k | 0 <= k < Offset() :: fds[k].fd > 0
      modifies this`fds, kernel, repr
      ensures InStep() && AliveFlags(fds, Offset(), keep)
      ensures StayFlags(old(Conns()), keep, older, r, db.mdb)
      ensures Conns() == Marked(old(Conns()), keep, |keep|)
      ensures kernel.open == old(kernel.open) - Dropped(old(Conns()[..older]), r, db.mdb)
      ensures sent == Replies(old(Conns()[..older]), r, db.mdb)
    {
      hide Verdicts, Dropped, EntriesSend, Replies, Marked, Separate, Arrived, AliveFlags, StayFlags;
      ghost var ps, was := fds, Conns();
      keep := Verdicts(cfg, fds[Offset()..], was, newfd, newfdHttps, r, db.mdb);
      VerdictsStay(cfg, fds[Offset()..], was, older, newfd, newfdHttps, r, db.mdb);
      NoneDispatched(keep);
      EntriesSendReplies(cfg, fds[Offset()..], was, older, newfd, newfdHttps, r, db.mdb, |was|);
      sent := Dispatch(r, newfd, newfdHttps, was, keep);
      AllDispatched(ps, was, old(kernel.open), keep, older, r);
    }

    /** Serving after the listeners' turns: dispatch, then compaction. */
    method Serve(r: Round, newfd: int, newfdHttps: int, ghost older: nat) returns (sent: seq<Sent>)
      requires InStep() && older <= |clients|
      requires Arrived(cfg, fds[Offset()..], Conns(), older, newfd, newfdHttps, r)
      requires forall k | 0 <= k < Offset() :: fds[k].fd > 0
      modifies this`fds, this`clients, kernel, repr
      ensures InStep() && View() == Served(old(View()), older, r)
      ensures sent == Replies(old(Conns()[..older]), r, db.mdb)
    {
      ghost var was := Conns();
      ghost var keep;
      sent, keep := DispatchTable(r, newfd, newfdHttps, older);
      CompactTable(keep);
      ServedConns(was, keep, older, r, db.mdb);
    }

    /** `poll` returning with some descriptors ready writes every entry's `revents`. */
    method Poll(mask: int -> int)
      requires InStep()
      modifies this`fds
      ensures InStep() && |fds| == |old(fds)|
      ensures forall k | 0 <= k < |fds| :: fds[k].fd == old(fds)[k].fd && fds[k].revents == mask(fds[k].fd)
    {
      var ps := fds;
      fds := seq(|ps|, k requires 0 <= k < |ps| => ps[k].(revents := mask(ps[k].fd)));
    }

    /** The connection joins both vectors; its listener's event is taken back. */
    method Push(slot: nat, client: C.Client)
      requires InStep() && slot < Offset()
      requires client.Valid() && client !in repr && client.recvBuffer !in repr
      modifies this`fds, this`clients, this`repr
      ensures InStep() && repr == old(repr) + {client, client.recvBuffer}
      ensures Conns() == old(Conns()) + [Conn(client.sockfd, client.useSSL > 0)]
      ensures fds[Offset()..] == old(fds[Offset()..]) + [PollFd(client.sockfd, POLLIN, 0)]
      ensures slot == 0 && Offset() == 2 ==> fds[1] == old(fds[1])
    {
      hide Separate;
      SeparateSnoc(clients, client, repr);
      ConnsSnoc(clients, client);
      fds := fds[slot := fds[slot].(revents := 0)] + [PollFd(client.sockfd, POLLIN, 0)];
      clients := clients + [client];
      repr := repr + {client, client.recvBuffer};
    }

    /** A listener's turn, for the listener in slot 0 (plain) or 1 (TLS). */
    method Accept(slot: nat, offer: Offer) returns (newfd: int, limit: bool)
      requires InStep() && slot < Offset()
      modifies this`fds, this`clients, this`repr, kernel
      ensures InStep() && fresh(repr - old(repr))
      ensures var a := Admit(cfg, old(View()), true, offer, slot == 1);
              && View() == a.s && limit == a.OverLimit? && (limit ==> newfd == a.extra)
              && (!limit ==> fds[Offset()..] == old(fds[Offset()..])
                             + if |a.s.conns| == |old(clients)| then [] else [PollFd(newfd, POLLIN, 0)])
              && (!limit && |a.s.conns| == |old(clients)| ==> newfd == 0)
      ensures slot == 0 && Offset() == 2 ==> fds[1] == old(fds[1])
    {
      hide Separate;
      var client := new C.Client();
      var rc := client.Accept(kernel, offer, slot == 1);
      if rc < 0 {
        fds := fds[0 := fds[0].(revents := 0)];
        client.Clear(kernel);
        assert Conns() == old(Conns());
        return 0, false;
      }
      newfd := client.sockfd;
      if |clients| > cfg.maxConnections {
        assert Conns() == old(Conns());
        return newfd, true;
      }
      Push(slot, client);
      limit := false;
    }

    /** Accepting on a listener if it fired. */
    method ListenerTurn(slot: nat, fires: bool, offer: Offer) returns (newfd: int, limit: bool)
      requires InStep() && slot < Offset()
      modifies this`fds, this`clients, this`repr, kernel
      ensures InStep() && fresh(repr - old(repr))
      ensures var a := Admit(cfg, old(View()), fires, offer, slot == 1);
              && View() == a.s && limit == a.OverLimit? && (limit ==> newfd == a.extra)
              && (!limit ==> fds[Offset()..] == old(fds[Offset()..]) + Joined(old(View()), a.s, newfd))
              && (!limit ==> newfd == NewFd(old(View()), a.s))
      ensures slot == 0 && Offset() == 2 ==> fds[1] == old(fds[1])
    {
      newfd, limit := 0, false;
      if fires {
        newfd, limit := Accept(slot, offer);
        ghost var n := |old(clients)|;
        assert !limit && |clients| > n ==> Conns()[n].fd == fds[Offset()..][n].fd;
      }
    }

    /** Both listeners' turns, plain first. */
    method AcceptBoth(r: Round) returns (newfd: int, newfdHttps: int, over: Option<int>)
      requires Valid() && Polled(fds, r)
      modifies this`fds, this`clients, this`repr, kernel
      ensures InStep() && fresh(repr - old(repr))
      ensures var a := Admitted(cfg, old(View()), r);
              && View() == a.s && (over.Some? <==> a.OverLimit?) && (over.Some? ==> over.value == a.extra)
      ensures over.None? ==>
                BothJoined(cfg, old(View()), View(), r, old(fds[Offset()..]), fds[Offset()..], newfd, newfdHttps)
    {
      ghost var s := View();
      AdmitKeeps(cfg, s, r.mask(cfg.listener) == POLLIN, r.http, false);
      var limit;
      newfd, limit := ListenerTurn(0, fds[0].revents == POLLIN, r.http);
      newfdHttps := 0;
      if limit { return newfd, newfdHttps, Some(newfd); }
      if cfg.tlsListener.Some? {
        newfdHttps, limit := ListenerTurn(1, fds[1].revents == POLLIN, r.https);
        if limit { return newfd, newfdHttps, Some(newfdHttps); }
      }
      over := None;
    }

    /** The first `n` connections are still there, in both vectors, and no others. */
    ghost predicate Draining(was: seq<Conn>, n: nat)
      reads this, clients
    {
      && this !in repr && kernel !in repr && db !in repr && Separate(clients)
      && |fds| == |clients| == n <= |was|
      && forall k | 0 <= k < n ::
           clients[k] in repr && clients[k].recvBuffer in repr && clients[k].Valid() && clients[k].sockfd == was[k].fd
    }

    method DrainStep(i: nat, ghost was: seq<Conn>)
      requires Draining(was, i + 1)
      modifies this`fds, this`clients, kernel, clients[i], clients[i].recvBuffer
      ensures Draining(was, i)
      ensures kernel.open == old(kernel.open) - if was[i].fd > 0 then {was[i].fd} else {}
    {
      fds := Erase(fds, i);
      clients[i].Clear(kernel);
      clients := Erase(clients, i);
    }

    /** The listeners' entries leave `fds`, so that both vectors are aligned without an offset. */
    method DropListeners()
      requires InStep()
      modifies this`fds
      ensures Draining(Conns(), |clients|)
    {
      fds := Erase(fds, 0);
      if cfg.tlsListener.Some? {
        fds := Erase(fds, 0);
      }
    }

    /** The drain loop: from the last entry down, erase it from both vectors and close its connection. */
    method Drain()
      requires InStep()
      modifies this`fds, this`clients, kernel, repr
      ensures fds == [] && clients == []
      ensures kernel.open == old(kernel.open) - PositiveFds(old(Conns()))
    {
      ghost var was := Conns();
      DropListeners();
      var i := |fds| - 1;
      while i >= 0
        invariant -1 <= i < |was| && Draining(was, i + 1)
        invariant kernel.open == old(kernel.open) - PositiveFds(was[i + 1..])
        decreases i
      {
        DrainStep(i, was);
        PositiveFrom(was, i);
        i := i - 1;
      }
      assert was[0..] == was;
    }

    lemma ClosePositive()
      requires Valid()
      ensures PositiveFds(Conns()) == Fds(Conns())
    {
      AllPositive(Conns());
    }

    /** The shutdown path behind the loop. */
    method Finish()
      requires Valid()
      modifies this`fds, this`clients, kernel, repr
      ensures kernel.open == Others(cfg, old(View()))
    {
      ClosePositive();
      Drain();
      kernel.Close(cfg.listener);
      if cfg.tlsListener.Some? {
        kernel.Close(cfg.tlsListener.value);
      }
    }

    /** The paths to `exit(1)`: the plain listener, every connection, then the TLS listener. */
    method ClearEverything()
      requires Valid()
      modifies this`fds, this`clients, kernel, repr
      ensures kernel.open == Others(cfg, old(View()))
    {
      hide Separate, Inv;
      ghost var was := Conns();
      ClosePositive();
      kernel.Close(cfg.listener);
      var i := 0;
      while i < |clients|
        invariant 0 <= i <= |clients| == |was|
        invariant this !in repr && kernel !in repr && db !in repr && Separate(clients)
        invariant forall k | 0 <= k < |clients| ::
                    clients[k] in repr && clients[k].recvBuffer in repr && clients[k].Valid()
        invariant forall k | i <= k < |clients| :: clients[k].sockfd == was[k].fd
        invariant kernel.open == old(kernel.open) - {cfg.listener} - PositiveFds(was[..i])
        modifies kernel, repr
      {
        OthersApart(i);
        clients[i].Clear(kernel);
        assert was[..i + 1] == was[..i] + [was[i]];
        i := i + 1;
      }
      assert was[..|was|] == was;
      fds, clients := [], [];
      if cfg.tlsListener.Some? {
        kernel.Close(cfg.tlsListener.value);
      }
    }

    /** Refreshing the database leaves the connections alone. */
    method Refresh(sample: Sample)
      requires InStep()
      modifies db
      ensures InStep() && View() == old(View()).(db := Store(old(db.mdb), Written(sample)))
    {
      hide Told, LeftAlone, Written, Store;
      db.Update(sample);
      assert Conns() == old(Conns());
    }

    method RefreshAndServe(r: Round, newfd: int, newfdHttps: int, ghost older: nat) returns (sent: seq<Sent>)
      requires Valid() && older <= |clients|
      requires Arrived(cfg, fds[Offset()..], Conns(), older, newfd, newfdHttps, r)
      modifies this`fds, this`clients, kernel, db, repr
      ensures InStep() && View() == Served(old(View()).(db := Store(old(db.mdb), Written(r.sample))), older, r)
      ensures sent == Replies(old(Conns()[..older]), r, Store(old(db.mdb), Written(r.sample)))
    {
      hide Written, Store, Served, Arrived, Separate, Replies;
      assert cfg.listener in Listeners(cfg) && (cfg.tlsListener.Some? ==> cfg.tlsListener.value in Listeners(cfg));
      Refresh(r.sample);
      sent := Serve(r, newfd, newfdHttps, older);
    }

    /** The part of an iteration behind the checks on `poll`. */
    method ServeRound(r: Round) returns (over: Option<int>, sent: seq<Sent>)
      requires Valid() && Polled(fds, r)
      modifies this`fds, this`clients, this`repr, kernel, db, repr
      ensures fresh(repr - old(repr))
      ensures var step := ServeStep(cfg, old(View()), r);
              && (step.GoOn? || step.OverLimit?)
              && InStep() && View() == step.s && (over.Some? <==> step.OverLimit?)
              && (over.Some? ==> over.value == step.extra)
      ensures sent == if over.Some? then [] else Replies(old(Conns()), r, Store(old(db.mdb), Written(r.sample)))
    {
      hide ServeStep, Inv, Admitted, Served, Written, Store, Replies, BothJoined, Arrived, Others, Separate;
      ghost var s, ps := View(), fds[Offset()..];
      AdmittedIsSound(cfg, s, r);
      ServeStepIs(cfg, s, r);
      var newfd, newfdHttps;
      newfd, newfdHttps, over := AcceptBoth(r);
      sent := [];
      if over.None? {
        assert View().conns[..|s.conns|] == s.conns;
        ArrivedNow(cfg, s, View(), r, ps, fds[Offset()..], newfd, newfdHttps);
        ghost var joined := View();
        sent := RefreshAndServe(r, newfd, newfdHttps, |s.conns|);
        assert View() == Served(joined.(db := Store(joined.db, Written(r.sample))), |s.conns|, r);
      }
    }

    /** One iteration of the loop. */
    method Iterate(r: Round) returns (c: Control, sent: seq<Sent>)
      requires Valid()
      modifies this`fds, this`clients, this`repr, kernel, db, repr
      ensures fresh(repr - old(repr))
      ensures match ConnectionTable.Iterate(cfg, old(View()), r)
              case GoOn(t) => c == Continue && Valid() && View() == t
              case Leave(t) => c == Break && Valid() && View() == t
              case OverLimit(t, extra) => c == BreakAtLimit(extra) && Valid() && View() == t
              case Abort(t) => c == Exit && kernel.open == Others(cfg, t)
      ensures sent == Sends(cfg, old(View()), r)
    {
      hide ServeStep, Written, Store, Replies, Others, Separate, Inv;
      ghost var s := View();
      IterateKeeps(cfg, s, r);
      if r.ready > 0 {
        Poll(r.mask);
      }
      assert View() == s;
      if r.stopSeen { return Break, []; }
      if r.ready == 0 { return Continue, []; }
      if r.ready < 0 {
        if r.interrupted { return Continue, []; }
        ClearEverything();
        return Exit, [];
      }
      if Unexpected(fds[0].revents) || (cfg.tlsListener.Some? && Unexpected(fds[1].revents)) {
        ClearEverything();
        return Exit, [];
      }
      var over;
      over, sent := ServeRound(r);
      c := if over.Some? then BreakAtLimit(over.value) else Continue;
    }

    /** The loop and the shutdown behind it, for the iterations until the exit flag is seen at its head. */
    method Loop(rounds: seq<Round>) returns (ending: Ending, sent: seq<Sent>)
      requires Valid()
      modifies this`fds, this`clients, this`repr, kernel, db, repr
      ensures var run := Run(cfg, old(View()), rounds);
              ending == run.ending && kernel.open == Others(cfg, run.s)
      ensures sent == Log(cfg, old(View()), rounds)
    {
      hide ConnectionTable.Iterate, Run, Log, Written, Store, Others, Sends, Valid;
      ghost var s, run, log := View(), Run(cfg, View(), rounds), Log(cfg, View(), rounds);
      sent := [];
      var i := 0;
      while i < |rounds|
        invariant 0 <= i <= |rounds| && Valid() && s == View() && fresh(repr - old(repr))
        invariant run == Run(cfg, s, rounds[i..]) && log == sent + Log(cfg, s, rounds[i..])
      {
        RunStep(cfg, s, rounds, i);
        LogStep(cfg, s, rounds, i, sent);
        var c, more := Iterate(rounds[i]);
        s := View();
        sent := sent + more;
        match c {
          case Continue =>
            i := i + 1;
          case Break =>
            Finish();
            return FlagSeen, sent;
          case BreakAtLimit(extra) =>
            Finish();
            return LimitReached(extra), sent;
          case Exit =>
            return ProcessExit, sent;
        }
      }
      assert rounds[i..] == [];
      RunEnds(cfg, s);
      Finish();
      ending := FlagSeen;
    }
  }

  /** `TR_MetricServerHandlerStart`: whatever happens, a handler that leaves because of the exit flag, or
      takes the process with it, has closed everything it opened; at the connection limit it leaves the
      one descriptor it had just accepted. */
  method Start(kernel: Kernel, cfg: Config, first: Sample, rounds: seq<Round>)
    returns (ending: Ending, sent: seq<Sent>)
    requires CanBoot(cfg, kernel.open)
    modifies kernel
    ensures sent == Log(cfg, Boot(cfg, old(kernel.open), first), rounds)
    ensures ending == Run(cfg, Boot(cfg, old(kernel.open), first), rounds).ending
    ensures match ending
            case LimitReached(extra) => kernel.open == old(kernel.open) + {extra} && extra !in old(kernel.open)
            case _ => kernel.open == old(kernel.open)
  {
    DescriptorsAreConserved(cfg, kernel.open, first, rounds);
    var handler := new Handler(kernel, cfg, first);
    ending, sent := handler.Loop(rounds);
  }
}
