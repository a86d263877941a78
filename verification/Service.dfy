/** Answering one request: `httpErrorCheck` of server/MetricServerHandler.cpp, and everything that
    happens on one connection from the first byte received to the keep-alive decision. */
module Service {
  import opened CStrings
  import opened MessageLines
  import opened MetricBody
  import opened MetricDatabase
  import opened HttpRequest
  import opened HttpResponse
  import opened Sockets
  import Client
  import RequestProofs

  const OK_LINE: string := "HTTP/1.1 200 OK"
  const BAD_REQUEST_LINE: string := "HTTP/1.1 400 Bad Request"
  const NOT_FOUND_LINE: string := "HTTP/1.1 404 Not Found"
  const CONTENT_TYPE: string := "Content-Type"
  const TEXT_PLAIN: string := "text/plain; version=0.0.4; charset=utf-8"

  predicate WantsMetrics(target: string) { Contains(target, "/metrics") || Contains(target, "%2Fmetrics") }
  predicate WantsLiveness(target: string) { Contains(target, "/liveness") || Contains(target, "%2Fliveness") }

  datatype Verdict = BadRequest | NotFound | Metrics | Liveness

  function Judge(kind: int, target: string): Verdict {
    if kind != HTTP_GET then BadRequest
    else if WantsMetrics(target) then Metrics
    else if WantsLiveness(target) then Liveness
    else NotFound
  }

  function StatusLine(v: Verdict): string {
    match v
    case BadRequest => BAD_REQUEST_LINE
    case NotFound => NOT_FOUND_LINE
    case Metrics => OK_LINE
    case Liveness => OK_LINE
  }

  function AnswerHeaders(v: Verdict): seq<Header> {
    if v.BadRequest? || v.NotFound? then [Header("", StatusLine(v))]
    else [Header("", StatusLine(v)), Header(CONTENT_TYPE, TEXT_PLAIN)]
  }

  ghost function AnswerBody(v: Verdict, m: map<string, string>): string { if v.Metrics? then BodyOf(m) else "" }

  ghost function Answer(v: Verdict, m: map<string, string>): string { Frame(AnswerHeaders(v), AnswerBody(v, m)) }

  lemma OneText(h: Header)
    ensures HeaderTexts([h]) == [HeaderText(h)]
  {
    HeaderTextsCons(h, []);
    assert [h] + [] == [h];
  }

  lemma OneHeader(status: string, body: string)
    ensures Frame([Header("", status)], body) == [] + status + CRLF + CRLF + body
  {
    OneText(Header("", status));
    JoinCons(status, []);
    assert [status] + [] == [status];
  }

  lemma TwoTexts(g: Header, h: Header)
    ensures HeaderTexts([g, h]) == [HeaderText(g), HeaderText(h)]
  {
    HeaderTextsCons(g, [h]);
    OneText(h);
    assert [g] + [h] == [g, h];
  }

  lemma TwoHeaders(status: string, h: Header, body: string)
    ensures Frame([Header("", status), h], body) == [] + status + CRLF + HeaderText(h) + CRLF + CRLF + body
  {
    TwoTexts(Header("", status), h);
    JoinCons(status, [HeaderText(h)]);
    JoinCons(HeaderText(h), []);
    assert [HeaderText(h)] + [] == [HeaderText(h)] && [status] + [HeaderText(h)] == [status, HeaderText(h)];
  }

  method HttpErrorCheck(req: Request, db: MetricDatabase) returns (reply: seq<char>)
    requires req.Valid() && HasEnd(req.View())
    ensures reply == Answer(Judge(req.View().kind, MetricText(req.View())), db.mdb)
  {
    var rep := new Response();
    var metric := req.GetMetric();
    if req.kind != HTTP_GET {
      rep.AddHeaderField("", BAD_REQUEST_LINE);
      rep.AddBody("");
      OneHeader(BAD_REQUEST_LINE, "");
      reply := rep.PrepareHttpResponse();
      return;
    }
    if !WantsMetrics(metric) && !WantsLiveness(metric) {
      rep.AddHeaderField("", NOT_FOUND_LINE);
      rep.AddBody("");
      OneHeader(NOT_FOUND_LINE, "");
      reply := rep.PrepareHttpResponse();
      return;
    }
    var body := "";
    rep.AddHeaderField("", OK_LINE);
    rep.AddHeaderField(CONTENT_TYPE, TEXT_PLAIN);
    if WantsMetrics(metric) {
      body := db.PrepareAllMetricsBody();
    }
    rep.AddBody(body);
    TwoHeaders(OK_LINE, Header(CONTENT_TYPE, TEXT_PLAIN), body);
    reply := rep.PrepareHttpResponse();
  }

  lemma StatusLineIsClean(v: Verdict)
    ensures StatusLine(v) != "" && Without(StatusLine(v), CR)
  {
    assert Without(BAD_REQUEST_LINE, CR) && Without(NOT_FOUND_LINE, CR) && Without(OK_LINE, CR);
  }

  lemma ContentTypeWords()
    ensures Without(CONTENT_TYPE, CR) && Without(" : ", CR) && Without(TEXT_PLAIN, CR)
  {
  }

  lemma ContentTypeIsClean()
    ensures HeaderText(Header(CONTENT_TYPE, TEXT_PLAIN)) != ""
    ensures Without(HeaderText(Header(CONTENT_TYPE, TEXT_PLAIN)), CR)
  {
    ContentTypeWords();
  }

  lemma StatusTexts(v: Verdict)
    ensures var texts := HeaderTexts(AnswerHeaders(v));
            texts != [] && texts[0] == StatusLine(v) && forall l | l in texts :: l != "" && Without(l, CR)
  {
    var status, h := Header("", StatusLine(v)), Header(CONTENT_TYPE, TEXT_PLAIN);
    OneText(status);
    TwoTexts(status, h);
    StatusLineIsClean(v);
    ContentTypeIsClean();
  }

  /** A client that splits the reply at its first empty line reads the status and the exact body. */
  lemma AnswerIsRead(v: Verdict, m: map<string, string>)
    ensures ReadMessage(Answer(v, m)) == Some(Message(HeaderTexts(AnswerHeaders(v)), AnswerBody(v, m)))
    ensures HeaderTexts(AnswerHeaders(v)) != [] && HeaderTexts(AnswerHeaders(v))[0] == StatusLine(v)
  {
    StatusTexts(v);
    FrameRoundTrip(AnswerHeaders(v), AnswerBody(v, m));
  }

  // ---- one exchange on a connection ----

  /** Everything the outside decides about serving one readable connection: what arrives, what the
      peer takes, and what the uninitialised memory of the request object holds. */
  datatype Exchange = Exchange(
    incoming: seq<Recv>, staleAgain: bool, metricJunk: Block, connectionJunk: Block, outgoing: seq<Send>)

  /** The parsed request, if one was received and is well formed. */
  function Asked(x: Exchange): Option<Fields> {
    match Client.Received(x.incoming, x.staleAgain)
    case None => None
    case Some(data) => Parsed(Text(data), Fresh(x.metricJunk, x.connectionJunk))
  }

  ghost function Reply(x: Exchange, m: map<string, string>): string
    requires Asked(x).Some?
  {
    Answer(Judge(Asked(x).value.kind, MetricText(Asked(x).value)), m)
  }

  /** The bytes that leave for the peer. */
  ghost function OnTheWire(x: Exchange, m: map<string, string>): string {
    if Asked(x).None? then ""
    else Reply(x, m)[..Min(Client.Takes(x.outgoing), |Reply(x, m)|)]
  }

  /** Received, parsed, answered without a send error, and asked to keep the connection. */
  ghost predicate KeepsAlive(x: Exchange, m: map<string, string>) {
    && Asked(x).Some?
    && !Client.Breaks(x.outgoing, |Reply(x, m)|)
    && AsksKeepAlive(Asked(x).value)
  }

  /** A well-formed request that arrives whole, in whatever pieces, and fits the buffer. */
  ghost predicate Arrives(x: Exchange, verb: string, target: string, version: string, headers: seq<string>) {
    && RequestProofs.PlainWord(verb) && RequestProofs.PlainWord(target) && Without(version, CR)
    && Client.Payload(x.incoming) == RequestProofs.Render(verb, target, version, headers)
    && Without(Client.Payload(x.incoming), NUL) && |Client.Payload(x.incoming)| < Client.ROOM
    && Client.Stop(x.incoming) != Client.Failed
  }

  /** A GET for the metrics: the path stands where `_metric` still holds the target. */
  ghost predicate AsksForMetrics(x: Exchange, target: string, version: string, headers: seq<string>) {
    && Arrives(x, "GET", target, version, headers)
    && (Contains(RequestProofs.Seen(target), "/metrics") || Contains(RequestProofs.Seen(target), "%2Fmetrics"))
  }

  /** What its reader finds in a reply: status 200, and these numbers on the page. */
  ghost predicate Shows(reply: string, numbers: map<string, int>) {
    var message := ReadMessage(reply);
    && message.Some? && |message.value.lines| > 0 && message.value.lines[0] == OK_LINE
    && Numbers(MapOf(Entries(message.value.body))) == numbers
  }

  lemma ArrivedIsParsed(x: Exchange, verb: string, target: string, version: string, headers: seq<string>)
    requires Arrives(x, verb, target, version, headers)
    ensures Asked(x).Some?
    ensures Asked(x) == Parsed(RequestProofs.Render(verb, target, version, headers),
                               Fresh(x.metricJunk, x.connectionJunk))
  {
    hide Parsed, Fresh;
    var request := RequestProofs.Render(verb, target, version, headers);
    Client.ChunkingIndependence(x.incoming, x.staleAgain);
    assert |request| > 0;
    Client.BufferText(request);
    RequestProofs.RequestRoundTrip(verb, target, version, headers, Fresh(x.metricJunk, x.connectionJunk));
  }

  lemma {:induction false} ContainsLonger(s: string, longer: string, pattern: string)
    requires s <= longer && Contains(s, pattern)
    ensures Contains(longer, pattern)
  {
    FindInPrefix(s, longer[|s|..], pattern);
    assert s + longer[|s|..] == longer;
  }

  lemma MetricsAreAsked(target: string, version: string, headers: seq<string>, x: Exchange)
    requires AsksForMetrics(x, target, version, headers)
    ensures Asked(x).Some? && Judge(Asked(x).value.kind, MetricText(Asked(x).value)) == Metrics
  {
    hide Parsed, Fresh, Contains;
    ArrivedIsParsed(x, "GET", target, version, headers);
    RequestProofs.RequestRoundTrip("GET", target, version, headers, Fresh(x.metricJunk, x.connectionJunk));
    var seen, text := RequestProofs.Seen(target), MetricText(Asked(x).value);
    assert seen <= text;
    if Contains(seen, "/metrics") { ContainsLonger(seen, text, "/metrics"); }
    if Contains(seen, "%2Fmetrics") { ContainsLonger(seen, text, "%2Fmetrics"); }
  }

  lemma {:induction false} MetricsAnswer(samples: seq<Sample>)
    ensures Shows(Answer(Metrics, Refreshed(samples)), Latest(Concat(samples)))
  {
    AnswerIsRead(Metrics, Refreshed(samples));
    ScrapeRecoversNumbers(samples);
  }

  /** From the bytes of the request to the numbers on the page: however a GET for the metrics arrives
      in pieces, the peer that is sent the reply to its end reads every metric with the last number
      refreshed, and a peer cut short has read a prefix of that reply. */
  lemma {:induction false} MetricsEndToEnd(target: string, version: string, headers: seq<string>, x: Exchange,
                                            samples: seq<Sample>)
    requires AsksForMetrics(x, target, version, headers)
    ensures Asked(x).Some?
    ensures OnTheWire(x, Refreshed(samples)) <= Reply(x, Refreshed(samples))
    ensures Shows(Reply(x, Refreshed(samples)), Latest(Concat(samples)))
  {
    MetricsAreAsked(target, version, headers, x);
    MetricsAnswer(samples);
  }
}
