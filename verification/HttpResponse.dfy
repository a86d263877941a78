/** Response framing (server/MetricHttpResponse.cpp) and reading a framed message back. */
module HttpResponse {
  import opened CStrings
  import opened MessageLines

  datatype Header = Header(field: string, value: string)
  datatype Message = Message(lines: seq<string>, body: string)

  /** A header without a field name is the status line. The separator has a space before its colon. */
  function HeaderText(h: Header): string { if h.field == "" then h.value else h.field + " : " + h.value }

  function HeaderTexts(headers: seq<Header>): seq<string> {
    if headers == [] then [] else [HeaderText(headers[0])] + HeaderTexts(headers[1..])
  }

  lemma {:induction false} HeaderTextsCons(h: Header, headers: seq<Header>)
    ensures HeaderTexts([h] + headers) == [HeaderText(h)] + HeaderTexts(headers)
  {
    assert ([h] + headers)[1..] == headers;
  }

  function Frame(headers: seq<Header>, body: string): string { Join(HeaderTexts(headers)) + CRLF + body }

  /** Section 3 of RFC 7230: the lines up to the first empty line, and the body behind it. */
  function ReadMessage(s: string): Option<Message> {
    match Find(s, BLANK_LINE, 0)
    case None => None
    case Some(i) => Some(Message(LinesIn(s, 0, i + 2), s[i + 4..]))
  }

  class Response {
    var msg: seq<char>

    constructor ()
      ensures msg == []
    {
      msg := [];
    }

    method AddHeaderField(field: string, value: string)
      modifies this
      ensures msg == old(msg) + HeaderText(Header(field, value)) + CRLF
    {
      if field != "" {
        msg := msg + field;
        msg := msg + [' '] + [':'] + [' '];
      }
      msg := msg + value;
      msg := msg + [CR] + [LF];
    }

    method AddBody(body: string)
      modifies this
      ensures msg == old(msg) + CRLF + body
    {
      msg := msg + [CR] + [LF];
      msg := msg + body;
    }

    method PrepareHttpResponse() returns (bytes: seq<char>)
      ensures bytes == msg
    {
      bytes := msg;
    }
  }

  lemma {:induction false} FindInPrefix(s: string, t: string, pattern: string)
    requires Find(s, pattern, 0).Some?
    ensures Find(s + t, pattern, 0) == Find(s, pattern, 0)
  {
    var e := Find(s, pattern, 0).value;
    forall i | 0 <= i <= e ensures OccursAt(s + t, pattern, i) <==> OccursAt(s, pattern, i) {
      assert (s + t)[i..i + |pattern|] == s[i..i + |pattern|];
    }
    FindFirst(s, pattern, 0);
    FindIs(s + t, pattern, 0, e);
  }

  lemma {:induction false} HeadFirst(head: string, body: string, lines: seq<string>)
    requires lines != [] && head == Join(lines)
    requires forall l | l in lines :: l != "" && Without(l, CR)
    ensures |head| >= 2 && Find(head + CRLF + body, BLANK_LINE, 0) == Some(|head| - 2)
    ensures (head + CRLF + body)[|head| + 2..] == body
  {
    FirstBlank(lines);
    FindInPrefix(head + CRLF, body, BLANK_LINE);
  }

  /** The framing round trip, for any body at all: a body may contain empty lines of its own. */
  lemma {:induction false} FrameRoundTrip(headers: seq<Header>, body: string)
    requires headers != []
    requires forall l | l in HeaderTexts(headers) :: l != "" && Without(l, CR)
    ensures ReadMessage(Frame(headers, body)) == Some(Message(HeaderTexts(headers), body))
  {
    var lines := HeaderTexts(headers);
    var head := Join(lines);
    var s := Frame(headers, body);
    HeadFirst(head, body, lines);
    assert LinesIn(s, 0, |head|) == lines by {
      assert OccursAt(s, head, 0) by { assert s[0..|head|] == head; }
      LinesOfJoin(s, 0, lines);
    }
    assert ReadMessage(s).value.lines == lines && ReadMessage(s).value.body == body;
  }
}
