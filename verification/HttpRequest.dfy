/** The request parser of server/MetricHttpRequest.cpp: a pointer walk over a NUL-terminated buffer
    that fills three fields. `Parsed` says what it computes; RequestProofs says what that means. */
module HttpRequest {
  import opened CStrings

  const HTTP_GET := 0
  const HTTP_HEAD := 1
  const HTTP_POST := 2
  const HTTP_PUT := 3
  const HTTP_DELETE := 4
  const HTTP_PATCH := 5
  const HTTP_NA := -1

  const KEEP_ALIVE: string := "keep-alive"

  const FIELD_SIZE: nat := 16
  const LINE_SIZE: nat := 64
  const WORD: int := 0x1_0000_0000_0000_0000

  /** Sixteen bytes of memory, whatever they hold. */
  type Block = s: seq<char> | |s| == FIELD_SIZE witness seq(FIELD_SIZE, _ => NUL)

  datatype Fields = Fields(kind: int, metric: Block, connection: Block)

  /** The fields of a new request: both strings are empty, the bytes behind their NUL are arbitrary. */
  function Fresh(metricJunk: Block, connectionJunk: Block): Fields {
    Fields(HTTP_NA, metricJunk[0 := NUL], connectionJunk[0 := NUL])
  }

  function KindOf(token: string): int {
    if token == "GET" then HTTP_GET
    else if token == "HEAD" then HTTP_HEAD
    else if token == "POST" then HTTP_POST
    else if token == "PUT" then HTTP_PUT
    else if token == "DELETE" then HTTP_DELETE
    else if token == "PATCH" then HTTP_PATCH
    else HTTP_NA
  }

  function RequestLine(text: string): string { text[..Min(Next(text, 0, CR), LINE_SIZE - 1)] }

  /** The effect of the i-th token of the request line: method, target, and nothing from there on. */
  function WithToken(f: Fields, i: nat, token: string): Fields {
    if i == 0 then f.(kind := KindOf(token))
    else if i == 1 then f.(metric := Copied(f.metric, token, Min(|token| + 1, FIELD_SIZE - 1)))
    else f
  }

  function WithTokens(f: Fields, tokens: seq<string>): Fields {
    if tokens == [] then f
    else if |tokens| == 1 then WithToken(f, 0, tokens[0])
    else WithToken(WithToken(f, 0, tokens[0]), 1, tokens[1])
  }

  lemma WithTokensStep(f: Fields, tokens: seq<string>, i: nat)
    requires i < |tokens|
    ensures WithTokens(f, tokens[..i + 1]) == WithToken(WithTokens(f, tokens[..i]), i, tokens[i])
  {
  }

  /** What the request line leaves behind: the method of its first word, and the first fifteen characters
      of its second, terminated if there are fewer. */
  ghost predicate Stored(f: Fields, tokens: seq<string>) {
    && (tokens != [] ==> (f.kind == 0 <==> tokens[0] == "GET"))
    && (|tokens| > 1 ==>
          var n := |tokens[1]|;
          && f.metric[..Min(n, 15)] == tokens[1][..Min(n, 15)]
          && (n < 15 ==> f.metric[n] == NUL))
  }

  lemma TokensAreStored(f: Fields, tokens: seq<string>)
    ensures Stored(WithTokens(f, tokens), tokens)
  {
  }

  /** The field name the scan sees at a position: up to the next colon, at most 15 characters. */
  function FieldAt(text: string, at: nat): string
    requires at <= |text|
  {
    text[at..Min(Next(text, at, ':'), at + FIELD_SIZE - 1)]
  }

  const FIELD_NAME: string := "Connection"
  const FIELD_START: string := "Connection:"

  /** The test for the one field the parser looks for. */
  predicate NamesField(text: string, at: nat)
    requires at <= |text|
  {
    StrSame(FieldAt(text, at), FIELD_NAME)
  }

  lemma {:induction false} CrAhead(text: string, at: nat, last: nat)
    requires OccursAt(text, BLANK_LINE, last) && at <= last + 2
    ensures Next(text, at, CR) <= last + 2
    ensures at <= last ==> Next(text, at, CR) <= last
  {
    assert text[last..last + 4][0] == CR && text[last..last + 4][2] == CR;
  }

  /** The position of the first line, walking from `at` to the blank line at `last`, whose field
      name is `Connection`. */
  function Walk(text: string, at: nat, last: nat): (r: Option<nat>)
    requires OccursAt(text, BLANK_LINE, last) && at <= last + 4
    ensures r.Some? ==> at <= r.value <= last + 1 && NamesField(text, r.value)
    decreases last + 4 - at
  {
    if at >= last + 2 then None
    else if NamesField(text, at) then Some(at)
    else
      CrAhead(text, at, last);
      Walk(text, Next(text, at, CR) + 2, last)
  }

  lemma {:induction false} NameIsWhole(text: string, at: nat)
    requires at <= |text| && FieldAt(text, at) == FIELD_NAME
    ensures Next(text, at, ':') == at + 10 && OccursAt(text, FIELD_NAME, at)
  {
    assert Min(Next(text, at, ':'), at + 15) - at == 10;
  }

  lemma NameHasNoBreak()
    ensures |FIELD_NAME| == 10
    ensures forall j | 0 <= j < 10 :: FIELD_NAME[j] != CR && FIELD_NAME[j] != LF && FIELD_NAME[j] != ':'
  {
  }

  lemma StartIsNameAndColon()
    ensures |FIELD_START| == 11 && FIELD_START[10] == ':'
    ensures forall j | 0 <= j < 10 :: FIELD_START[j] == FIELD_NAME[j]
  {
  }

  lemma {:induction false} NameThenMore(text: string, at: nat, last: nat)
    requires OccursAt(text, BLANK_LINE, last) && at <= last + 1
    requires Next(text, at, ':') == at + 10 && OccursAt(text, FIELD_NAME, at)
    ensures OccursAt(text, FIELD_START, at) && at + 11 <= Next(text, at, CR) <= last
  {
    OccursChars(text, BLANK_LINE, last);
    OccursChars(text, FIELD_NAME, at);
    NameHasNoBreak();
    assert text[last] == BLANK_LINE[0] && text[last + 1] == BLANK_LINE[1] && text[last + 2] == BLANK_LINE[2];
    assert forall i | at <= i < at + 10 :: text[i] == FIELD_NAME[i - at] && text[i] != CR && text[i] != LF;
    assert at != last + 1 && at + 10 <= last;
    assert text[at + 10] == ':';
    StartIsNameAndColon();
    OccursFromChars(text, FIELD_START, at);
    CrAhead(text, at, last);
  }

  lemma StartThenName(text: string, at: nat)
    requires OccursAt(text, FIELD_START, at)
    ensures FieldAt(text, at) == FIELD_NAME
  {
    OccursChars(text, FIELD_START, at);
    NameHasNoBreak();
    StartIsNameAndColon();
    assert text[at + 10] == ':';
    assert forall i | at <= i < at + 10 :: text[i] == FIELD_START[i - at] == FIELD_NAME[i - at];
    NextIs(text, at, ':', at + 10);
    assert text[at..at + 10] == FIELD_NAME;
  }

  /** A matching name is followed by a colon on the same line, so the copy starts inside the text. */
  lemma {:induction false} NameThenColon(text: string, at: nat, last: nat)
    requires OccursAt(text, BLANK_LINE, last) && at <= last + 1
    ensures NamesField(text, at) <==> OccursAt(text, FIELD_START, at)
    ensures NamesField(text, at) ==> Next(text, at, ':') == at + 10 && at + 11 <= Next(text, at, CR) <= last
  {
    StrSameIsEqual(FieldAt(text, at), FIELD_NAME);
    if FieldAt(text, at) == FIELD_NAME {
      NameIsWhole(text, at);
      NameThenMore(text, at, last);
    }
    if OccursAt(text, FIELD_START, at) {
      StartThenName(text, at);
    }
  }

  /** The number of value bytes copied: an unsigned difference, which wraps for `Connection:` alone. */
  function ValueBytes(lineChars: nat, fieldChars: nat): nat {
    Min((lineChars - fieldChars - 2) % WORD, FIELD_SIZE - 1)
  }

  function ConnectionAfter(text: string, at: nat, connection: Block): Block
    requires at + 12 <= |text|
  {
    Copied(connection, text[at + 12..], ValueBytes(Next(text, at, CR) - at, 10))[10 := NUL]
  }

  lemma {:induction false} ConnectionStored(text: string, at: nat, before: Block, copy: Block, n: nat)
    requires at + 12 <= |text| && n == ValueBytes(Next(text, at, CR) - at, 10)
    requires copy == Copied(before, text[at + 12..], n)
    ensures copy[10 := NUL] == ConnectionAfter(text, at, before)
  {
  }

  /** The `_connection` bytes after walking the header lines from `at`. */
  function Scanned(text: string, at: nat, last: nat, connection: Block): Block
    requires OccursAt(text, BLANK_LINE, last) && at <= last + 4
  {
    match Walk(text, at, last)
    case None => connection
    case Some(p) =>
      NameThenColon(text, p, last);
      ConnectionAfter(text, p, connection)
  }

  lemma WalkStep(text: string, at: nat, last: nat)
    requires OccursAt(text, BLANK_LINE, last) && at < last + 2
    ensures Next(text, at, CR) + 2 <= last + 4
    ensures Walk(text, at, last) ==
              if NamesField(text, at) then Some(at) else Walk(text, Next(text, at, CR) + 2, last)
  {
    CrAhead(text, at, last);
  }

  /** What `parse` does to a request object for a given text; `None` is `invalidRequest`. */
  function Parsed(text: string, f: Fields): Option<Fields> {
    match Find(text, BLANK_LINE, 0)
    case None => None
    case Some(last) =>
      CrAhead(text, 0, last);
      Some(WithTokens(f, Tokens(RequestLine(text)))
           .(connection := Scanned(text, Next(text, 0, CR) + 2, last, f.connection)))
  }

  /** `strcmp(getConnection(), "keep-alive") == 0` */
  predicate AsksKeepAlive(f: Fields) { Text(f.connection) == KEEP_ALIVE }

  lemma {:induction false} ParsedConnection(text: string, last: nat, f: Fields)
    requires Find(text, BLANK_LINE, 0) == Some(last)
    ensures Parsed(text, f).Some? && Next(text, 0, CR) + 2 <= last + 4
    ensures AsksKeepAlive(Parsed(text, f).value) <==>
              Text(Scanned(text, Next(text, 0, CR) + 2, last, f.connection)) == KEEP_ALIVE
  {
    CrAhead(text, 0, last);
  }

  /** `getMetric` read as a C string. An unterminated `_metric` runs on into `_connection`, which
      follows it in the object. */
  function MetricText(f: Fields): string { Text(f.metric + f.connection) }

  /** That read stops inside the object. */
  predicate HasEnd(f: Fields) { NUL in f.connection }

  lemma ParsedHasEnd(text: string, f: Fields)
    requires f.connection[0] == NUL
    ensures Parsed(text, f).Some? ==> HasEnd(Parsed(text, f).value)
  {
    if Parsed(text, f).Some? {
      var last := Find(text, BLANK_LINE, 0).value;
      CrAhead(text, 0, last);
      var bytes := Scanned(text, Next(text, 0, CR) + 2, last, f.connection);
      assert bytes[0] == NUL || bytes[10] == NUL;
    }
  }

  lemma {:induction false} NextFrom(text: string, at: nat, c: char)
    requires at <= |text|
    ensures at + Next(text[at..], 0, c) == Next(text, at, c)
  {
    NextIs(text[at..], 0, c, Next(text, at, c) - at);
  }

  lemma {:induction false} LineCopied(text: string, blank: seq<char>)
    requires |blank| == LINE_SIZE && forall i | 0 <= i < LINE_SIZE :: blank[i] == NUL
    requires Without(text, NUL)
    ensures var line := Copied(blank, text, Min(Next(text, 0, CR), LINE_SIZE - 1));
            Next(line, 0, NUL) < LINE_SIZE && Text(line) == RequestLine(text)
  {
    var n := Min(Next(text, 0, CR), LINE_SIZE - 1);
    var line := Copied(blank, text, n);
    assert line[n] == NUL;
    NextIs(line, 0, NUL, n);
  }

  method StrEqual(buffer: array<char>, at: nat, s: string) returns (same: bool)
    requires at <= buffer.Length && Next(buffer[..], at, NUL) < buffer.Length
    requires Without(s, NUL)
    ensures same == (TextAt(buffer[..], at) == s)
  {
    ghost var text := TextAt(buffer[..], at);
    var k := 0;
    while k < |s| && buffer[at + k] == s[k]
      invariant k <= |s| && k <= |text| && text[..k] == s[..k]
    {
      assert s[k] != NUL;
      k := k + 1;
    }
    same := k == |s| && buffer[at + k] == NUL;
    if k < |s| && |text| == |s| { assert text[k] != s[k]; }
    if k == |s| { assert s[..k] == s; }
  }

  /** `strcspn` and `strncpy` from a pointer into the message, in terms of the whole text. */
  method SpanTo(req: array<char>, at: nat, c: char) returns (n: nat)
    requires Next(req[..], 0, NUL) < req.Length && at <= |Text(req[..])|
    ensures at + n == Next(Text(req[..]), at, c)
  {
    TextAtInside(req[..], 0, at);
    NextFrom(Text(req[..]), at, c);
    n := Strcspn(req, at, c);
  }

  method CopyFrom(dst: array<char>, req: array<char>, at: nat, n: nat)
    requires dst != req && n <= dst.Length
    requires Next(req[..], 0, NUL) < req.Length && at <= |Text(req[..])|
    modifies dst
    ensures dst[..] == Copied(old(dst[..]), old(Text(req[..]))[at..], n)
  {
    TextAtInside(req[..], 0, at);
    Strncpy(dst, req, at, n);
  }

  /** The test at one line: the field name is copied out, terminated, and compared. */
  method FieldIs(req: array<char>, at: nat, name: string) returns (same: bool)
    requires Next(req[..], 0, NUL) < req.Length && at <= |Text(req[..])|
    requires Without(name, NUL)
    ensures same == StrSame(FieldAt(Text(req[..]), at), name)
  {
    ghost var text := Text(req[..]);
    var fieldChars := SpanTo(req, at, ':');
    var field := new char[FIELD_SIZE](_ => NUL);
    var n := Min(fieldChars, FIELD_SIZE - 1);
    CopyFrom(field, req, at, n);
    field[n] := NUL;
    assert field[..][..n] == text[at..][..n] == FieldAt(text, at);
    assert Without(field[..][..n], NUL);
    NextIs(field[..], 0, NUL, n);
    assert Text(field[..]) == text[at..][..n] == FieldAt(text, at);
    same := StrEqual(field, 0, name);
    StrSameIsEqual(FieldAt(text, at), name);
  }

  /** One line of the walk: whether it is the one looked for, and where the next begins. */
  method LineStep(req: array<char>, at: nat, last: nat, ghost text: string) returns (here: bool, next: nat)
    requires Next(req[..], 0, NUL) < req.Length && text == Text(req[..])
    requires OccursAt(text, BLANK_LINE, last) && at < last + 2
    ensures here == NamesField(text, at)
    ensures at < next == Next(text, at, CR) + 2 <= last + 4
  {
    CrAhead(text, at, last);
    var numChars := SpanTo(req, at, CR);
    next := at + numChars + 2;
    here := FieldIs(req, at, FIELD_NAME);
  }

  /** The header walk from `start` to the blank line at `last`. */
  method WalkHeaders(req: array<char>, start: nat, last: nat) returns (found: Option<nat>)
    requires Next(req[..], 0, NUL) < req.Length
    requires OccursAt(Text(req[..]), BLANK_LINE, last) && start <= last + 4
    ensures found == Walk(Text(req[..]), start, last)
  {
    ghost var text := Text(req[..]);
    var starter := start;
    while starter < last + 2
      invariant start <= starter <= last + 4 && text == Text(req[..])
      invariant Walk(text, starter, last) == Walk(text, start, last)
      decreases last + 4 - starter
    {
      WalkStep(text, starter, last);
      var here, next := LineStep(req, starter, last, text);
      if here { return Some(starter); }
      starter := next;
    }
    found := None;
  }

  /** What a call of `strtok_r` left behind, when `tokens` were still to come. */
  ghost predicate Pending(buffer: seq<char>, arg: Option<nat>, saved: nat, tokens: seq<string>)
    requires saved <= |buffer|
  {
    if tokens == [] then arg == None
    else
      && arg.Some? && arg.value <= |buffer| && Next(buffer, arg.value, NUL) < |buffer|
      && TextAt(buffer, arg.value) == tokens[0]
      && Tokens(TextAt(buffer, saved)) == tokens[1..]
  }

  class Request {
    var kind: int
    const metric: array<char>
    const connection: array<char>

    ghost predicate Valid() {
      metric.Length == connection.Length == FIELD_SIZE && metric != connection
    }

    ghost function View(): Fields
      requires Valid()
      reads this, metric, connection
    {
      Fields(kind, metric[..], connection[..])
    }

    constructor (metricJunk: Block, connectionJunk: Block)
      ensures Valid() && fresh(metric) && fresh(connection)
      ensures View() == Fresh(metricJunk, connectionJunk)
    {
      kind := HTTP_NA;
      metric := new char[FIELD_SIZE](i requires 0 <= i < FIELD_SIZE => metricJunk[i]);
      connection := new char[FIELD_SIZE](i requires 0 <= i < FIELD_SIZE => connectionJunk[i]);
      new;
      assert metric[..] == metricJunk && connection[..] == connectionJunk;
      metric[0] := NUL;
      connection[0] := NUL;
    }

    method SetKind(buffer: array<char>, at: nat)
      requires Valid() && at <= buffer.Length && Next(buffer[..], at, NUL) < buffer.Length
      modifies this`kind
      ensures kind == KindOf(TextAt(buffer[..], at))
    {
      var isGet := StrEqual(buffer, at, "GET");
      var isHead := StrEqual(buffer, at, "HEAD");
      var isPost := StrEqual(buffer, at, "POST");
      var isPut := StrEqual(buffer, at, "PUT");
      var isDelete := StrEqual(buffer, at, "DELETE");
      var isPatch := StrEqual(buffer, at, "PATCH");
      if isGet { kind := HTTP_GET; }
      else if isHead { kind := HTTP_HEAD; }
      else if isPost { kind := HTTP_POST; }
      else if isPut { kind := HTTP_PUT; }
      else if isDelete { kind := HTTP_DELETE; }
      else if isPatch { kind := HTTP_PATCH; }
      else { kind := HTTP_NA; }
    }

    method StoreToken(i: nat, buffer: array<char>, at: nat)
      requires Valid() && buffer != metric && buffer != connection
      requires at <= buffer.Length && Next(buffer[..], at, NUL) < buffer.Length
      modifies this`kind, metric
      ensures View() == WithToken(old(View()), i, TextAt(buffer[..], at))
    {
      if i == 0 {
        SetKind(buffer, at);
      } else if i == 1 {
        var length := Strlen(buffer, at);
        Strncpy(metric, buffer, at, Min(length + 1, FIELD_SIZE - 1));
      }
    }

    /** The tokenising loop over the copied request line. */
    method ParseRequestLine(firstHeader: array<char>)
      requires Valid() && firstHeader != metric && firstHeader != connection
      requires Next(firstHeader[..], 0, NUL) < firstHeader.Length
      modifies this`kind, metric, firstHeader
      ensures View() == WithTokens(old(View()), Tokens(old(Text(firstHeader[..]))))
      ensures Stored(View(), Tokens(old(Text(firstHeader[..]))))
    {
      hide Stored;
      ghost var tokens := Tokens(Text(firstHeader[..]));
      ghost var start := View();
      var arg: Option<nat>, saved: nat := StrtokR(firstHeader, 0);
      var i := 0;
      while arg.Some? && i < 3
        invariant i <= 3 && i <= |tokens|
        invariant saved <= firstHeader.Length && Next(firstHeader[..], saved, NUL) < firstHeader.Length
        invariant Pending(firstHeader[..], arg, saved, tokens[i..])
        invariant View() == WithTokens(start, tokens[..i])
        decreases 3 - i
      {
        assert tokens[i..][1..] == tokens[i + 1..];
        StoreToken(i, firstHeader, arg.value);
        WithTokensStep(start, tokens, i);
        arg, saved := StrtokR(firstHeader, saved);
        i := i + 1;
      }
      assert tokens[..|tokens|] == tokens;
      TokensAreStored(start, tokens);
    }

    /** `std::string(getMetric())` */
    method GetMetric() returns (s: string)
      requires Valid() && HasEnd(View())
      ensures s == MetricText(View())
    {
      ghost var bytes := metric[..] + connection[..];
      s := "";
      var k := 0;
      while k < FIELD_SIZE && metric[k] != NUL
        invariant k <= FIELD_SIZE && s == bytes[..k] && Without(bytes[..k], NUL)
      {
        s := s + [metric[k]];
        k := k + 1;
      }
      if k == FIELD_SIZE {
        ghost var end :| 0 <= end < FIELD_SIZE && connection[end] == NUL;
        while connection[k - FIELD_SIZE] != NUL
          invariant FIELD_SIZE <= k <= FIELD_SIZE + end
          invariant s == bytes[..k] && Without(bytes[..k], NUL)
          decreases FIELD_SIZE + end - k
        {
          s := s + [connection[k - FIELD_SIZE]];
          k := k + 1;
        }
      }
      NextIs(bytes, 0, NUL, k);
    }

    /** `strcmp(getConnection(), "keep-alive") == 0` */
    method WantsKeepAlive() returns (keep: bool)
      requires Valid() && HasEnd(View())
      ensures keep == AsksKeepAlive(View())
    {
      keep := StrEqual(connection, 0, KEEP_ALIVE);
    }

    method StoreConnection(req: array<char>, starter: nat, last: nat, numChars: nat)
      requires Valid() && req != connection
      requires Next(req[..], 0, NUL) < req.Length
      requires OccursAt(Text(req[..]), BLANK_LINE, last) && starter < last + 2
      requires NamesField(Text(req[..]), starter)
      requires starter + numChars == Next(Text(req[..]), starter, CR)
      modifies connection
      ensures starter + 12 <= |old(Text(req[..]))|
      ensures connection[..] == ConnectionAfter(old(Text(req[..])), starter, old(connection[..]))
    {
      ghost var text, before := Text(req[..]), connection[..];
      NameThenColon(text, starter, last);
      var fieldChars := SpanTo(req, starter, ':');
      assert fieldChars == 10;
      var n := ValueBytes(numChars, fieldChars);
      CopyFrom(connection, req, starter + fieldChars + 2, n);
      ghost var copy: Block := connection[..];
      assert copy == Copied(before, text[starter + 12..], n);
      connection[Min(10, FIELD_SIZE - 1)] := NUL;
      assert connection[..] == copy[10 := NUL];
      ConnectionStored(text, starter, before, copy, n);
    }

    /** The header scan and, where it stops, the copy of the value. */
    method ScanHeaders(req: array<char>, start: nat, last: nat)
      requires Valid() && req != connection
      requires Next(req[..], 0, NUL) < req.Length
      requires OccursAt(Text(req[..]), BLANK_LINE, last) && start <= last + 4
      modifies connection
      ensures connection[..] == Scanned(old(Text(req[..])), start, last, old(connection[..]))
    {
      var found := WalkHeaders(req, start, last);
      if found.Some? {
        CrAhead(Text(req[..]), found.value, last);
        var numChars := SpanTo(req, found.value, CR);
        StoreConnection(req, found.value, last, numChars);
      }
    }

    /** `parse(req)`, returning 0 for success and -1 for a message without a blank line. */
    method Parse(req: array<char>) returns (rc: int)
      requires Valid() && req != metric && req != connection
      requires Next(req[..], 0, NUL) < req.Length
      modifies this`kind, metric, connection
      ensures rc == old(if Parsed(Text(req[..]), View()).Some? then 0 else -1)
      ensures View() == if rc == 0 then old(Parsed(Text(req[..]), View())).value else old(View())
    {
      ghost var text := Text(req[..]);
      ghost var start := View();
      var numChars := Strcspn(req, 0, CR);
      var lastLine := Strstr(req, BLANK_LINE);
      if lastLine.None? { return -1; }
      var last := lastLine.value;
      var firstHeader := new char[LINE_SIZE](_ => NUL);
      ghost var blank := firstHeader[..];
      Strncpy(firstHeader, req, 0, Min(numChars, LINE_SIZE - 1));
      LineCopied(text, blank);
      ParseRequestLine(firstHeader);
      CrAhead(text, 0, last);
      ScanHeaders(req, numChars + 2, last);
      rc := 0;
    }
  }
}
