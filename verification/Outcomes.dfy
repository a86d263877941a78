/** What becomes of a connection and what its peer is told, in terms of the bytes on the wire and the masks
    `poll` writes. */
module Outcomes {
  import opened CStrings
  import opened Sockets
  import opened HttpRequest
  import opened HttpResponse
  import opened MetricBody
  import opened MetricDatabase
  import opened Service
  import opened ConnectionTable
  import opened RequestProofs
  import Client

  // ---- the reply ----

  const PAGE_TYPE: string := "Content-Type" + " : " + "text/plain; version=0.0.4; charset=utf-8"

  lemma PageTypeIs()
    ensures HeaderText(Header(CONTENT_TYPE, TEXT_PLAIN)) == PAGE_TYPE
  {
  }

  lemma JudgedHeaders(v: Verdict)
    ensures v.BadRequest? ==> HeaderTexts(AnswerHeaders(v)) == ["HTTP/1.1 400 Bad Request"]
    ensures v.NotFound? ==> HeaderTexts(AnswerHeaders(v)) == ["HTTP/1.1 404 Not Found"]
    ensures v.Metrics? || v.Liveness? ==> HeaderTexts(AnswerHeaders(v)) == ["HTTP/1.1 200 OK", PAGE_TYPE]
  {
    OneText(Header("", StatusLine(v)));
    TwoTexts(Header("", StatusLine(v)), Header(CONTENT_TYPE, TEXT_PLAIN));
    PageTypeIs();
  }

  /** Which page a target is for. */
  predicate ForMetrics(target: string) { Contains(target, "/metrics") || Contains(target, "%2Fmetrics") }

  predicate ForLiveness(target: string) { Contains(target, "/liveness") || Contains(target, "%2Fliveness") }

  /** What a request that arrives comes down to once it is parsed. */
  lemma RequestParsed(x: Exchange, verb: string, target: string, version: string, headers: seq<string>)
    requires Arrives(x, verb, target, version, headers)
    ensures Asked(x).Some? && (Asked(x).value.kind == 0 <==> verb == "GET")
    ensures verb == "GET" && |target| <= 14 ==> MetricText(Asked(x).value) == target
  {
    hide Parsed, Fresh, MetricText;
    ArrivedIsParsed(x, verb, target, version, headers);
    RequestRoundTrip(verb, target, version, headers, Fresh(x.metricJunk, x.connectionJunk));
  }

  /** Routing: any request but a GET is told 400; a GET for the metrics gets the page, one for the liveness
      an empty one, any other 404. */
  lemma Routing(x: Exchange, verb: string, target: string, version: string, headers: seq<string>,
                m: map<string, string>)
    requires Arrives(x, verb, target, version, headers)
    ensures Asked(x).Some?
    ensures verb != "GET" ==> ReadMessage(Reply(x, m)) == Some(Message(["HTTP/1.1 400 Bad Request"], ""))
    ensures verb == "GET" && |target| <= 14 ==>
              ReadMessage(Reply(x, m)) ==
                if ForMetrics(target) then Some(Message(["HTTP/1.1 200 OK", PAGE_TYPE], BodyOf(m)))
                else if ForLiveness(target) then Some(Message(["HTTP/1.1 200 OK", PAGE_TYPE], ""))
                else Some(Message(["HTTP/1.1 404 Not Found"], ""))
  {
    hide Parsed, Fresh, Contains, Answer, HeaderTexts, AnswerHeaders, Arrives;
    RequestParsed(x, verb, target, version, headers);
    var v := Judge(Asked(x).value.kind, MetricText(Asked(x).value));
    AnswerIsRead(v, m);
    JudgedHeaders(v);
  }

  /** A peer that takes everything is sent the whole reply, and a script without hard errors never
      fails; after a failure the connection is closed. */
  lemma WholeReplyIsSent(x: Exchange, m: map<string, string>)
    requires Asked(x).Some?
    ensures Client.Takes(x.outgoing) >= |Reply(x, m)| ==> OnTheWire(x, m) == Reply(x, m)
    ensures (forall o | o in x.outgoing :: !o.SendFailed?) ==> !Client.Breaks(x.outgoing, |Reply(x, m)|)
    ensures Client.Breaks(x.outgoing, |Reply(x, m)|) ==> !KeepsAlive(x, m)
  {
    hide Reply;
    if forall o | o in x.outgoing :: !o.SendFailed? {
      forall i: nat ensures !Client.BreaksAt(x.outgoing, i, |Reply(x, m)|) {
        if i < |x.outgoing| { assert x.outgoing[i] in x.outgoing; }
      }
    }
  }

  /** A message without an empty line, or none at all, is answered with nothing, and its connection closed. */
  lemma Refused(x: Exchange, m: map<string, string>)
    requires |Client.Payload(x.incoming)| < Client.ROOM && Without(Client.Payload(x.incoming), NUL)
    requires Client.Stop(x.incoming) == Client.Failed || !Contains(Client.Payload(x.incoming), "\r\n\r\n")
    ensures OnTheWire(x, m) == "" && !KeepsAlive(x, m)
  {
    Client.ChunkingIndependence(x.incoming, x.staleAgain);
    Client.BufferText(Client.Payload(x.incoming));
  }

  // ---- keep-alive ----

  /** A request whose first `Connection` header is the k-th, with the value v. */
  ghost predicate HasConnection(headers: seq<string>, k: nat, v: string) {
    && k < |headers| && headers[k] == "Connection: " + v
    && forall i | 0 <= i < k :: !("Connection:" <= headers[i])
  }

  ghost predicate WellFormed(headers: seq<string>) { forall h | h in headers :: h != "" && Without(h, CR) }

  lemma {:induction false} FirstNamedIs(lines: seq<string>, k: nat)
    requires k < |lines| && "Connection:" <= lines[k] && forall i | 0 <= i < k :: !("Connection:" <= lines[i])
    ensures FirstNamed(lines) == Some(k)
  {
    FirstNamedIsFirst(lines);
  }

  lemma {:induction false} NoneNamed(lines: seq<string>)
    requires forall l | l in lines :: !("Connection:" <= l)
    ensures FirstNamed(lines) == None
  {
    if lines != [] {
      assert lines[0] in lines && forall l | l in lines[1..] :: l in lines;
      NoneNamed(lines[1..]);
    }
  }

  /** The header that decides in a request that arrives. */
  lemma ConnectionArrives(x: Exchange, verb: string, target: string, version: string, headers: seq<string>)
    requires Arrives(x, verb, target, version, headers) && WellFormed(headers)
    ensures var text := Render(verb, target, version, headers);
            && Find(text, BLANK_LINE, 0) == Some(|text| - 4)
            && Asked(x).Some?
            && (AsksKeepAlive(Asked(x).value)
                <==> Gives(KEEP_ALIVE, ConnectionField(text, |text| - 4), x.connectionJunk[0 := NUL]))
  {
    hide Parsed, Gives, ConnectionField, AsksKeepAlive, Render;
    var text := Render(verb, target, version, headers);
    HeadersRoundTrip(verb, target, version, headers);
    ArrivedIsParsed(x, verb, target, version, headers);
    KeepAliveDecision(text, |text| - 4, Fresh(x.metricJunk, x.connectionJunk));
  }

  lemma FieldArrives(verb: string, target: string, version: string, headers: seq<string>)
    requires PlainWord(verb) && PlainWord(target) && Without(version, CR) && WellFormed(headers)
    ensures var text := Render(verb, target, version, headers);
            && OccursAt(text, BLANK_LINE, |text| - 4)
            && (forall k: nat, v | HasConnection(headers, k, v) :: ConnectionField(text, |text| - 4) == Valued(v))
            && ((forall h | h in headers :: !("Connection:" <= h)) ==> ConnectionField(text, |text| - 4) == Absent)
  {
    hide ConnectionField, Render;
    var text := Render(verb, target, version, headers);
    HeadersRoundTrip(verb, target, version, headers);
    FieldOfLines(text, |text| - 4);
    forall k: nat, v | HasConnection(headers, k, v) ensures ConnectionField(text, |text| - 4) == Valued(v) {
      assert headers[k][..11] == "Connection:" && headers[k][12..] == v;
      FirstNamedIs(headers, k);
    }
    if forall h | h in headers :: !("Connection:" <= h) {
      NoneNamed(headers);
    }
  }

  lemma ArrivesPlain(x: Exchange, verb: string, target: string, version: string, headers: seq<string>)
    requires Arrives(x, verb, target, version, headers)
    ensures PlainWord(verb) && PlainWord(target) && Without(version, CR)
  {
  }

  /** Keep-alive, from the bytes of the request to the decision: a `Connection` value that starts with
      `keep-alive` keeps the connection, any other value that memory cannot complete to it closes it, and so
      does a request without the header. */
  lemma KeepAliveOutcome(x: Exchange, verb: string, target: string, version: string, headers: seq<string>,
                         m: map<string, string>)
    requires Arrives(x, verb, target, version, headers) && WellFormed(headers)
    requires forall o | o in x.outgoing :: !o.SendFailed?
    ensures forall k: nat, v | HasConnection(headers, k, v) ::
              && ("keep-alive" <= v ==> KeepsAlive(x, m))
              && (!("keep-alive" <= v) && !(v != "" && v < "keep-alive") ==> !KeepsAlive(x, m))
              && (v == "close" ==> !KeepsAlive(x, m))
    ensures (forall h | h in headers :: !("Connection:" <= h)) ==> !KeepsAlive(x, m)
  {
    hide AsksKeepAlive, Reply, ConnectionField, Render, Asked, Arrives, ValueGives, HasConnection;
    assert Arrives(x, verb, target, version, headers);
    ArrivesPlain(x, verb, target, version, headers);
    ConnectionArrives(x, verb, target, version, headers);
    FieldArrives(verb, target, version, headers);
    WholeReplyIsSent(x, m);
    forall k: nat, v | HasConnection(headers, k, v)
      ensures "keep-alive" <= v ==> KeepsAlive(x, m)
      ensures !("keep-alive" <= v) && !(v != "" && v < "keep-alive") ==> !KeepsAlive(x, m)
      ensures v == "close" ==> !KeepsAlive(x, m)
    {
      StartKeeps(v, x.connectionJunk[0 := NUL]);
      if v == "close" { assert v[0] == 'c' && "keep-alive"[0] == 'k'; }
    }
  }

  /** And in the table: after a completed iteration that served it, a connection whose request asked to be
      kept is there, and one whose request asked to be closed is not. */
  lemma KeptInTable(cfg: Config, s: State, r: Round, c: Conn, verb: string, target: string, version: string,
                    headers: seq<string>, k: nat, v: string)
    requires Inv(cfg, s) && !r.stopSeen && r.ready > 0 && Iterate(cfg, s, r).GoOn?
    requires c in s.conns && r.mask(c.fd) == 1
    requires Arrives(r.exchange(c.fd), verb, target, version, headers) && WellFormed(headers)
    requires HasConnection(headers, k, v) && forall o | o in r.exchange(c.fd).outgoing :: !o.SendFailed?
    ensures "keep-alive" <= v ==> c in Iterate(cfg, s, r).s.conns && c.fd in Iterate(cfg, s, r).s.open
    ensures v == "close" ==> c !in Iterate(cfg, s, r).s.conns && c.fd !in Iterate(cfg, s, r).s.open
  {
    hide Iterate, Inv, KeepsAlive, Arrives, HasConnection, Written, Store, Survivors, Newcomers;
    var db := Store(s.db, Written(r.sample));
    SurvivorsInTable(cfg, s, r);
    SurvivorTheorem(cfg, s, r);
    KeepAliveOutcome(r.exchange(c.fd), verb, target, version, headers, db);
  }

  /** A connection that reports anything but data: idle ones and those hung up are closed, others stay. */
  lemma OtherMasks(cfg: Config, s: State, r: Round, c: Conn)
    requires Inv(cfg, s) && !r.stopSeen && r.ready > 0 && Iterate(cfg, s, r).GoOn?
    requires c in s.conns && r.mask(c.fd) != 1
    ensures c in Iterate(cfg, s, r).s.conns <==> r.mask(c.fd) != 0 && r.mask(c.fd) != 16
    ensures c.fd in Iterate(cfg, s, r).s.open <==> r.mask(c.fd) != 0 && r.mask(c.fd) != 16
  {
    hide Iterate, Inv, KeepsAlive, Written, Store, Survivors, Newcomers;
    SurvivorsInTable(cfg, s, r);
    SurvivorTheorem(cfg, s, r);
  }

  // ---- what an iteration does, by what `poll` says ----

  lemma ServeNeverAborts(cfg: Config, s: State, r: Round)
    ensures !ServeStep(cfg, s, r).Abort?
  {
    hide Served, Written, Store;
  }

  /** The flag ends the loop whatever `poll` returned; a timeout and an interruption do nothing; another
      failure and an unexpected event at a listener end the process. */
  lemma PollOutcome(cfg: Config, s: State, r: Round)
    ensures r.stopSeen ==> Iterate(cfg, s, r) == Leave(s)
    ensures !r.stopSeen && r.ready == 0 ==> Iterate(cfg, s, r) == GoOn(s)
    ensures !r.stopSeen && r.ready < 0 ==> Iterate(cfg, s, r) == if r.interrupted then GoOn(s) else Abort(s)
    ensures !r.stopSeen && r.ready > 0 ==>
              (Iterate(cfg, s, r) == Abort(s) <==> exists l :: l in Listeners(cfg) && r.mask(l) !in {0, 1})
    ensures Inv(cfg, s) && !r.stopSeen && r.ready > 0 && (forall l | l in Listeners(cfg) :: r.mask(l) in {0, 1}) ==>
              Iterate(cfg, s, r).GoOn? || Iterate(cfg, s, r).OverLimit?
  {
    hide Admitted, Served, Written, Store, Inv;
    if exists l :: l in Listeners(cfg) && r.mask(l) !in {0, 1} {
      var l :| l in Listeners(cfg) && r.mask(l) !in {0, 1};
      assert l == cfg.listener || cfg.tlsListener == Some(l);
    } else {
      assert cfg.listener in Listeners(cfg) && (cfg.tlsListener.Some? ==> cfg.tlsListener.value in Listeners(cfg));
    }
    if Inv(cfg, s) { AdmittedIsSound(cfg, s, r); }
    ServeNeverAborts(cfg, s, r);
  }

  /** Who is accepted: on the plain listener any connection offered on a free descriptor, on the TLS
      listener one that has shaken hands. */
  lemma NewcomersAre(cfg: Config, s: State, r: Round)
    ensures var plain := r.mask(cfg.listener) == 1 && r.http.Connection? && r.http.fd > 0 && r.http.fd !in s.open;
            var open := s.open + if plain then {r.http.fd} else {};
            var tls := cfg.tlsListener.Some? && r.mask(cfg.tlsListener.value) == 1 && r.https.Connection?
                       && r.https.handshake && r.https.fd > 0 && r.https.fd !in open;
            Newcomers(cfg, s, r) == (if plain then [Conn(r.http.fd, false)] else [])
                                    + (if tls then [Conn(r.https.fd, true)] else [])
  {
  }

  lemma NoFault(cfg: Config, r: Round)
    requires forall l | l in Listeners(cfg) :: r.mask(l) in {0, 1}
    ensures !ListenerFault(cfg, r)
  {
    assert cfg.listener in Listeners(cfg) && r.mask(cfg.listener) in {0, 1};
    if cfg.tlsListener.Some? {
      var l := cfg.tlsListener.value;
      assert l in Listeners(cfg);
      assert r.mask(l) in {0, 1};
    }
  }

  lemma LimitOfTurns(cfg: Config, s: State, r: Round)
    ensures var n := |Newcomers(cfg, s, r)|;
            Admitted(cfg, s, r).OverLimit? <==> n > 0 && |s.conns| + n - 1 > cfg.maxConnections
    ensures Admitted(cfg, s, r).GoOn? || Admitted(cfg, s, r).OverLimit?
  {
    var fires := r.mask(cfg.listener) == POLLIN;
    var a := Admit(cfg, s, fires, r.http, false);
    if a.GoOn? { AdmitAdds(cfg, s, fires, r.http, false); }
  }

  /** When the limit is reached: an accepted connection finds more than the configured number before it. */
  lemma LimitExactly(cfg: Config, s: State, r: Round)
    requires !r.stopSeen && r.ready > 0 && forall l | l in Listeners(cfg) :: r.mask(l) in {0, 1}
    ensures var n := |Newcomers(cfg, s, r)|;
            Iterate(cfg, s, r).OverLimit? <==> n > 0 && |s.conns| + n - 1 > cfg.maxConnections
  {
    hide Served, Written, Store, Admitted, Newcomers;
    LimitOfTurns(cfg, s, r);
    NoFault(cfg, r);
  }
}
