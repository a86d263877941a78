/** What the request parser computes, in terms of a message's lines (sections 3, 3.1.1 and 3.2 of
    RFC 7230): the header walk finds the first `Connection:` line, a rendered request comes back as it
    was, and the keep-alive decision is decided byte by byte. */
module RequestProofs {
  import opened CStrings
  import opened HttpRequest
  import opened MessageLines

  predicate Named(line: string) { FIELD_START <= line }

  /** The index of the first line named `Connection`. */
  function FirstNamed(lines: seq<string>): (k: Option<nat>)
    ensures k.Some? ==> k.value < |lines|
  {
    if lines == [] then None
    else if Named(lines[0]) then Some(0)
    else match FirstNamed(lines[1..]) case None => None case Some(k) => Some(k + 1)
  }

  lemma {:induction false} FirstNamedIsFirst(lines: seq<string>)
    ensures var k := FirstNamed(lines);
            if k.Some? then Named(lines[k.value]) && forall i | 0 <= i < k.value :: !Named(lines[i])
            else forall i | 0 <= i < |lines| :: !Named(lines[i])
  {
    if lines != [] && !Named(lines[0]) {
      FirstNamedIsFirst(lines[1..]);
      assert forall i | 0 < i < |lines| :: lines[i] == lines[1..][i - 1];
    }
  }

  function LineAt(text: string, at: nat): string
    requires at <= |text|
  {
    text[at..Next(text, at, CR)]
  }

  /** The header lines between the request line and the blank line at `last`. */
  function HeaderLines(text: string, last: nat): seq<string>
    requires last + 4 <= |text|
  {
    LinesIn(text, Next(text, 0, CR) + 2, last + 2)
  }

  lemma NamedAt(text: string, at: nat, last: nat)
    requires OccursAt(text, BLANK_LINE, last) && at < last + 2
    ensures NamesField(text, at) <==> Named(LineAt(text, at))
  {
    NameThenColon(text, at, last);
    var e := Next(text, at, CR);
    if Named(LineAt(text, at)) {
      assert text[at..e][..11] == text[at..at + 11];
    }
    if OccursAt(text, FIELD_START, at) {
      assert text[at..e][..11] == text[at..at + 11];
    }
  }

  /** The walk and the lines agree: both find nothing, or the walk stops at the line. */
  ghost predicate SameLine(text: string, walked: Option<nat>, lines: seq<string>, first: Option<nat>)
    requires first.Some? ==> first.value < |lines|
  {
    && (walked.Some? <==> first.Some?)
    && (walked.Some? ==> walked.value <= |text| && LineAt(text, walked.value) == lines[first.value])
  }

  lemma {:induction false} SameLineLater(text: string, walked: Option<nat>, lines: seq<string>)
    requires lines != [] && !Named(lines[0])
    requires SameLine(text, walked, lines[1..], FirstNamed(lines[1..]))
    ensures SameLine(text, walked, lines, FirstNamed(lines))
  {
    var k := FirstNamed(lines[1..]);
    assert FirstNamed(lines) == if k.Some? then Some(k.value + 1) else None;
    if k.Some? { assert lines[k.value + 1] == lines[1..][k.value]; }
  }

  lemma {:induction false} LinesStep(text: string, at: nat, last: nat)
    requires OccursAt(text, BLANK_LINE, last) && at < last + 2
    ensures Next(text, at, CR) <= last + 2
    ensures var lines := LinesIn(text, at, last + 2);
            && lines != [] && lines[0] == LineAt(text, at)
            && lines[1..] == LinesIn(text, Next(text, at, CR) + 2, last + 2)
  {
    CrAhead(text, at, last);
  }

  /** The header scan: from any position, the walk stops at the first line named exactly `Connection`,
      and finds nothing just when there is no such line. */
  lemma {:induction false} HeaderScan(text: string, at: nat, last: nat)
    requires OccursAt(text, BLANK_LINE, last) && at <= last + 4
    ensures var lines := LinesIn(text, at, last + 2);
            SameLine(text, Walk(text, at, last), lines, FirstNamed(lines))
    decreases last + 4 - at
  {
    if at < last + 2 {
      var lines, next := LinesIn(text, at, last + 2), Next(text, at, CR) + 2;
      LinesStep(text, at, last);
      NamedAt(text, at, last);
      WalkStep(text, at, last);
      if !Named(lines[0]) {
        HeaderScan(text, next, last);
        SameLineLater(text, Walk(text, next, last), lines);
      }
    }
  }

  // ---- the keep-alive decision ----

  /** A word of ten characters, as many as `_connection` keeps. */
  ghost predicate TenLetters(word: string) { |word| == 10 && Without(word, NUL) }

  lemma KeepAliveIsPlain()
    ensures TenLetters(KEEP_ALIVE)
  {
  }

  lemma TextOfTen(b: Block, word: string)
    requires TenLetters(word)
    ensures Text(b[10 := NUL]) == word <==> b[..10] == word
  {
    var c := b[10 := NUL];
    var e := Next(c, 0, NUL);
    if b[..10] == word {
      assert forall i | 0 <= i < 10 :: c[i] == b[..10][i];
      NextIs(c, 0, NUL, 10);
    }
    assert c[..10] == b[..10];
    if Text(c) == word { assert e == 10 && c[0..10] == c[..10]; }
  }

  /** Whether a value puts a word into `_connection`, given the bytes that were there before. A value
      shorter than ten characters is not terminated by the copy, so the old bytes complete it. */
  predicate ValueGives(word: string, value: string, before: Block) {
    if |value| >= 10 then word <= value
    else value != "" && value + before[|value|..10] == word
  }

  predicate ValueKeeps(value: string, before: Block) { ValueGives(KEEP_ALIVE, value, before) }

  lemma BytesOfNothing()
    ensures ValueBytes(11, 10) == 15
  {
  }

  lemma CopiedFifteen(before: Block, rest: string, word: string)
    requires TenLetters(word)
    ensures Copied(before, rest, 15)[..10] == word <==> word <= rest
  {
    var copy := Copied(before, rest, 15);
    if |rest| < 10 {
      assert copy[..10][|rest|] == NUL;
    } else {
      assert copy[..10] == rest[..10];
    }
  }

  lemma BareBytesDecide(rest: string, before: Block, word: string)
    requires TenLetters(word)
    ensures Copied(before, rest, ValueBytes(11, 10))[..10] == word <==> word <= rest
  {
    BytesOfNothing();
    CopiedFifteen(before, rest, word);
  }

  lemma BytesOfValue(lineChars: nat)
    requires 12 <= lineChars < WORD
    ensures ValueBytes(lineChars, 10) == Min(lineChars - 12, 15)
  {
  }

  lemma {:induction false} ValueOfLine(text: string, at: nat)
    requires at + 12 <= |text| && at + 12 <= Next(text, at, CR)
    ensures var value, rest := LineAt(text, at)[12..], text[at + 12..];
            |value| == Next(text, at, CR) - at - 12 <= |rest| && rest[..Min(|value|, 15)] == value[..Min(|value|, 15)]
  {
    var e := Next(text, at, CR);
    SplitSlice(text, at, e, 12);
    SplitSlice(text, at + 12, e, Min(e - at - 12, 15));
  }

  lemma CopiedValue(before: Block, rest: string, value: string, word: string)
    requires TenLetters(word) && before[0] == NUL
    requires var n := Min(|value|, 15); n <= |rest| && rest[..n] == value[..n]
    ensures Copied(before, rest, Min(|value|, 15))[..10] == word <==> ValueGives(word, value, before)
  {
    var n := Min(|value|, 15);
    var copy := Copied(before, rest, n);
    if |value| >= 10 {
      assert copy[..10] == value[..n][..10] == value[..10];
    } else {
      assert value[..n] == value;
      assert copy[..10] == value + before[|value|..10];
      if value == "" { assert copy[..10][0] == NUL; }
    }
  }

  lemma {:induction false} ValueBytesDecide(text: string, at: nat, before: Block, word: string)
    requires TenLetters(word)
    requires at + 12 <= |text| < WORD && at + 12 <= Next(text, at, CR) && before[0] == NUL
    ensures Copied(before, text[at + 12..], ValueBytes(Next(text, at, CR) - at, 10))[..10] == word
       <==> ValueGives(word, LineAt(text, at)[12..], before)
  {
    ValueOfLine(text, at);
    BytesOfValue(Next(text, at, CR) - at);
    CopiedValue(before, text[at + 12..], LineAt(text, at)[12..], word);
  }

  lemma {:induction false} ConnectionBytes(text: string, at: nat, before: Block, word: string)
    requires TenLetters(word)
    requires at + 12 <= |text| < WORD && at + 11 <= Next(text, at, CR) && before[0] == NUL
    ensures Text(ConnectionAfter(text, at, before)) == word
       <==> if Next(text, at, CR) == at + 11 then word <= text[at + 12..]
            else ValueGives(word, LineAt(text, at)[12..], before)
  {
    TextOfTen(Copied(before, text[at + 12..], ValueBytes(Next(text, at, CR) - at, 10)), word);
    if Next(text, at, CR) == at + 11 {
      BareBytesDecide(text[at + 12..], before, word);
    } else {
      ValueBytesDecide(text, at, before, word);
    }
  }

  /** What a message says in its first `Connection` line: nothing, a value from the second character
      after the colon on, or no value at all. A line that ends right after the colon makes the byte count
      wrap, and what follows the line's CR stands in for the value. */
  datatype Field = Absent | Valued(value: string) | Bare(following: string)

  function ConnectionField(text: string, last: nat): Field
    requires OccursAt(text, BLANK_LINE, last)
  {
    CrAhead(text, 0, last);
    match Walk(text, Next(text, 0, CR) + 2, last)
    case None => Absent
    case Some(p) =>
      NameThenColon(text, p, last);
      if Next(text, p, CR) == p + 11 then Bare(text[p + 12..]) else Valued(LineAt(text, p)[12..])
  }

  /** The field in terms of the header lines. */
  lemma FieldOfLines(text: string, last: nat)
    requires OccursAt(text, BLANK_LINE, last)
    ensures var lines, field := HeaderLines(text, last), ConnectionField(text, last);
            var k := FirstNamed(lines);
            && (field.Absent? <==> k.None?)
            && (field.Valued? <==> k.Some? && |lines[k.value]| >= 12)
            && (field.Valued? ==> field.value == lines[k.value][12..])
            && (field.Bare? ==> lines[k.value] == FIELD_START)
            && (field.Bare? && EveryCrHasLf(text) ==> field.following != "" && field.following[0] == LF)
  {
    CrAhead(text, 0, last);
    var start, lines := Next(text, 0, CR) + 2, HeaderLines(text, last);
    HeaderScan(text, start, last);
    var p := Walk(text, start, last);
    if p.Some? {
      NameThenColon(text, p.value, last);
      FirstNamedIsFirst(lines);
      assert lines[FirstNamed(lines).value] == LineAt(text, p.value);
    }
  }

  /** Whether a word ends up in `_connection`, exactly, given the bytes that were there before. */
  predicate Gives(word: string, field: Field, before: Block) {
    match field
    case Absent => false
    case Valued(value) => ValueGives(word, value, before)
    case Bare(following) => word <= following
  }

  lemma {:induction false} WordDecided(text: string, last: nat, before: Block, word: string)
    requires OccursAt(text, BLANK_LINE, last) && |text| < WORD && before[0] == NUL && TenLetters(word)
    ensures Next(text, 0, CR) + 2 <= last + 4
    ensures Text(Scanned(text, Next(text, 0, CR) + 2, last, before)) == word
       <==> Gives(word, ConnectionField(text, last), before)
  {
    CrAhead(text, 0, last);
    var p := Walk(text, Next(text, 0, CR) + 2, last);
    if p.None? {
      assert Text(before) == "";
    } else {
      NameThenColon(text, p.value, last);
      ConnectionBytes(text, p.value, before, word);
    }
  }

  /** The keep-alive decision on a whole message, exactly. */
  lemma {:induction false} KeepAliveDecision(text: string, last: nat, f: Fields)
    requires |text| < WORD && f.connection[0] == NUL
    requires Find(text, BLANK_LINE, 0) == Some(last)
    ensures Parsed(text, f).Some?
    ensures AsksKeepAlive(Parsed(text, f).value) <==> Gives(KEEP_ALIVE, ConnectionField(text, last), f.connection)
  {
    KeepAliveIsPlain();
    WordDecided(text, last, f.connection, KEEP_ALIVE);
    ParsedConnection(text, last, f);
  }

  /** Where every CR has its LF, a `Connection:` line without a value never asks to keep. */
  lemma {:induction false} BareNameCloses(text: string, last: nat, f: Fields)
    requires |text| < WORD && f.connection[0] == NUL && Find(text, BLANK_LINE, 0) == Some(last)
    requires EveryCrHasLf(text) && ConnectionField(text, last).Bare?
    ensures Parsed(text, f).Some? && !AsksKeepAlive(Parsed(text, f).value)
  {
    KeepAliveDecision(text, last, f);
    FieldOfLines(text, last);
  }

  lemma StartKeeps(value: string, before: Block)
    ensures KEEP_ALIVE <= value ==> ValueKeeps(value, before)
    ensures ValueKeeps(value, before) ==> KEEP_ALIVE <= value || (value != "" && value < KEEP_ALIVE)
  {
    if 0 < |value| < 10 { assert (value + before[|value|..10])[..|value|] == value; }
  }

  lemma BlankMemoryCloses(value: string, before: Block)
    requires !(KEEP_ALIVE <= value) && before[9] == NUL
    ensures !ValueKeeps(value, before)
  {
    if 0 < |value| < 10 { assert (value + before[|value|..10])[9] == NUL; }
  }

  lemma LuckyMemoryKeeps(value: string, before: Block)
    requires value != "" && value < KEEP_ALIVE && before[1..10] == KEEP_ALIVE[1..]
    ensures ValueKeeps(value, before)
  {
    assert before[|value|..10] == before[1..10][|value| - 1..];
    assert value + before[|value|..10] == KEEP_ALIVE;
  }

  /** The decision about a message parsed into a new request object over the given memory. */
  predicate Keeps(text: string, metricJunk: Block, connectionJunk: Block) {
    var parsed := Parsed(text, Fresh(metricJunk, connectionJunk));
    parsed.Some? && AsksKeepAlive(parsed.value)
  }

  lemma {:induction false} KeepsIsGiven(text: string, last: nat, j: Block, c: Block)
    requires |text| < WORD && Find(text, BLANK_LINE, 0) == Some(last)
    ensures Keeps(text, j, c) <==> Gives(KEEP_ALIVE, ConnectionField(text, last), c[0 := NUL])
  {
    KeepAliveDecision(text, last, Fresh(j, c));
  }

  lemma MemoryCannotMatter(value: string, keeps: (Block, Block) -> bool)
    requires forall j: Block, c: Block :: keeps(j, c) <==> ValueKeeps(value, c[0 := NUL])
    ensures (forall j: Block, c: Block :: keeps(j, c)) <==> KEEP_ALIVE <= value
    ensures (forall j: Block, c: Block :: !keeps(j, c)) <==>
              !(KEEP_ALIVE <= value) && !(value != "" && value < KEEP_ALIVE)
  {
    var blank: Block, lucky: Block := Zeros(FIELD_SIZE), KEEP_ALIVE + Zeros(6);
    forall j: Block, c: Block
      ensures KEEP_ALIVE <= value ==> keeps(j, c)
      ensures keeps(j, c) ==> KEEP_ALIVE <= value || (value != "" && value < KEEP_ALIVE)
    {
      StartKeeps(value, c[0 := NUL]);
    }
    if KEEP_ALIVE <= value {
      assert keeps(blank, blank);
    } else {
      BlankMemoryCloses(value, blank[0 := NUL]);
      assert !keeps(blank, blank);
    }
    if value != "" && value < KEEP_ALIVE {
      assert lucky[0 := NUL][1..10] == KEEP_ALIVE[1..];
      LuckyMemoryKeeps(value, lucky[0 := NUL]);
      assert keeps(blank, lucky);
    }
  }

  /** When the memory behind `_connection` cannot matter: with a value in the first `Connection` line, the
      decision is keep for every memory just when the value starts with `keep-alive`, and close for every
      memory just when, besides, the value is not a non-empty proper prefix of it. */
  lemma {:induction false} DecisionIndependentOfMemory(text: string, last: nat, value: string)
    requires |text| < WORD && Find(text, BLANK_LINE, 0) == Some(last)
    requires ConnectionField(text, last) == Valued(value)
    ensures (forall j: Block, c: Block :: Keeps(text, j, c)) <==> KEEP_ALIVE <= value
    ensures (forall j: Block, c: Block :: !Keeps(text, j, c)) <==>
              !(KEEP_ALIVE <= value) && !(value != "" && value < KEEP_ALIVE)
  {
    var keeps := (j: Block, c: Block) => Keeps(text, j, c);
    forall j: Block, c: Block
      ensures Keeps(text, j, c) <==> keeps(j, c)
      ensures keeps(j, c) <==> ValueKeeps(value, c[0 := NUL])
    {
      KeepsIsGiven(text, last, j, c);
    }
    MemoryCannotMatter(value, keeps);
  }

  /** Without such a line, or with one that ends at its colon, the memory never matters. */
  lemma {:induction false} OtherwiseMemoryIsUnused(text: string, last: nat, j: Block, c: Block,
                                                    otherJ: Block, otherC: Block)
    requires |text| < WORD && Find(text, BLANK_LINE, 0) == Some(last)
    requires !ConnectionField(text, last).Valued?
    ensures Keeps(text, j, c) == Keeps(text, otherJ, otherC)
  {
    KeepsIsGiven(text, last, j, c);
    KeepsIsGiven(text, last, otherJ, otherC);
  }

  // ---- requests as a client renders them ----

  function RequestLineOf(verb: string, target: string, version: string): string {
    verb + " " + target + " " + version
  }

  /** Section 3 of RFC 7230: a request line, header lines, and an empty line, each ended by CRLF. */
  function Render(verb: string, target: string, version: string, headers: seq<string>): string {
    RequestLineOf(verb, target, version) + CRLF + Join(headers) + CRLF
  }

  /** A word of the request line: it holds none of the characters that end one. */
  ghost predicate PlainWord(word: string) {
    word != "" && Without(word, ' ') && Without(word, CR) && Without(word, NUL)
  }

  /** As much of a target as `_metric` has room for. */
  function Seen(target: string): string { target[..Min(|target|, 15)] }

  lemma RequestLineFirst(verb: string, target: string, version: string, headers: seq<string>)
    requires PlainWord(verb) && PlainWord(target) && Without(version, CR)
    ensures var text, line := Render(verb, target, version, headers), RequestLineOf(verb, target, version);
            Next(text, 0, CR) == |line| && text[..|line|] == line
  {
    var text, line := Render(verb, target, version, headers), RequestLineOf(verb, target, version);
    assert text[..|line|] == line && text[|line|] == CR;
    assert forall i | 0 <= i < |line| :: text[i] == line[i];
    NextIs(text, 0, CR, |line|);
  }

  lemma {:induction false} TokenFront(token: string, rest: string)
    requires token != "" && Without(token, ' ')
    ensures Tokens(token + " " + rest) == [token] + Tokens(rest)
  {
    var s, n := token + " " + rest, |token|;
    assert s[0..n] == token && s[n + 1..|s|] == rest && s[0..|s|] == s;
    assert forall i | 0 <= i < n :: s[i] == token[i] && token[i] != ' ';
    TokensInside(s, 0, 0, n, |s|);
  }

  lemma {:induction false} OneToken(token: string)
    requires token != "" && Without(token, ' ')
    ensures Tokens(token) == [token]
  {
    assert token[0..|token|] == token;
    TokensInside(token, 0, 0, |token|, |token|);
  }

  /** The tokens of a line that is cut off: the first word, cut too if need be, and those of what is left. */
  lemma {:induction false} WordCut(word: string, rest: string, cut: nat)
    requires word != "" && Without(word, ' ') && 0 < cut <= |word| + 1 + |rest|
    ensures Tokens((word + " " + rest)[..cut]) ==
              if cut <= |word| then [word[..cut]] else [word] + Tokens(rest[..cut - |word| - 1])
  {
    var s := word + " " + rest;
    if cut <= |word| {
      assert s[..cut] == word[..cut];
      OneToken(word[..cut]);
    } else {
      assert s[..cut] == word + " " + rest[..cut - |word| - 1];
      TokenFront(word, rest[..cut - |word| - 1]);
    }
  }

  lemma {:induction false} RenderedIsJoined(verb: string, target: string, version: string, headers: seq<string>)
    ensures Render(verb, target, version, headers) == Join([RequestLineOf(verb, target, version)] + headers) + CRLF
  {
    JoinCons(RequestLineOf(verb, target, version), headers);
  }

  lemma RenderedHasBlank(verb: string, target: string, version: string, headers: seq<string>)
    ensures Find(Render(verb, target, version, headers), BLANK_LINE, 0).Some?
  {
    var lines := [RequestLineOf(verb, target, version)] + headers;
    RenderedIsJoined(verb, target, version, headers);
    EndsInCrlf(lines);
    var text, end := Join(lines) + CRLF, |Join(lines)| - 2;
    assert text[end..end + 4] == Join(lines)[end..] + CRLF;
    FoundIf(text, BLANK_LINE, end);
  }

  lemma RenderedLine(verb: string, target: string, version: string, headers: seq<string>)
    requires PlainWord(verb) && PlainWord(target) && Without(version, CR)
    ensures var line := verb + " " + (target + " " + version);
            RequestLine(Render(verb, target, version, headers)) == line[..Min(|line|, 63)]
  {
    RequestLineFirst(verb, target, version, headers);
    assert RequestLineOf(verb, target, version) == verb + " " + (target + " " + version);
  }

  /** The first two words of a rendered request, as the tokeniser sees them in at most 63 bytes. */
  lemma RenderedTokens(verb: string, target: string, version: string, headers: seq<string>)
    requires PlainWord(verb) && PlainWord(target) && Without(version, CR)
    ensures var tokens := Tokens(RequestLine(Render(verb, target, version, headers)));
            && |tokens| >= 1 && tokens[0] == verb[..Min(|verb|, 63)]
            && (|verb| <= 46 ==> |tokens| >= 2 && tokens[1] == target[..Min(|target|, 62 - |verb|)])
  {
    hide Tokens, RequestLine, Render;
    var rest := target + " " + version;
    var cut := Min(|verb| + 1 + |rest|, 63);
    RenderedLine(verb, target, version, headers);
    WordCut(verb, rest, cut);
    if cut > |verb| + 1 { WordCut(target, version, cut - |verb| - 1); }
  }

  lemma KindOfCut(verb: string)
    ensures KindOf(verb[..Min(|verb|, 63)]) == KindOf(verb) && (KindOf(verb) == 0 <==> verb == "GET")
  {
    if |verb| <= 63 { assert verb[..|verb|] == verb; }
  }

  lemma TargetIs(f: Fields, token: string, connection: Block)
    requires Without(token, NUL)
    ensures var metric := Copied(f.metric, token, Min(|token| + 1, FIELD_SIZE - 1));
            && metric[..|Seen(token)|] == Seen(token) && Seen(token) <= Text(metric + connection)
            && (|token| <= 14 ==> Text(metric + connection) == token)
  {
    var metric := Copied(f.metric, token, Min(|token| + 1, FIELD_SIZE - 1));
    var s, n := metric + connection, |Seen(token)|;
    assert metric[..n] == Seen(token);
    assert forall i | 0 <= i < n :: s[i] == token[i];
    if |token| <= 14 {
      assert s[|token|] == NUL;
      NextIs(s, 0, NUL, |token|);
    }
  }

  /** The round trip: a rendered request comes back with its method, and with its target as far as
      `_metric` holds it, whatever the version, the header lines and the memory of the request object. */
  lemma RequestRoundTrip(verb: string, target: string, version: string, headers: seq<string>, f: Fields)
    requires PlainWord(verb) && PlainWord(target) && Without(version, CR)
    ensures var parsed := Parsed(Render(verb, target, version, headers), f);
            && parsed.Some? && parsed.value.kind == KindOf(verb) && (parsed.value.kind == 0 <==> verb == "GET")
            && (|verb| <= 46 && |target| <= 14 ==> MetricText(parsed.value) == target)
            && (|verb| <= 46 && |target| >= 15 ==>
                  parsed.value.metric[..15] == target[..15] && target[..15] <= MetricText(parsed.value))
  {
    hide Render, RequestLine, Scanned;
    var text := Render(verb, target, version, headers);
    RenderedHasBlank(verb, target, version, headers);
    RenderedTokens(verb, target, version, headers);
    KindOfCut(verb);
    if |verb| <= 46 {
      var token := target[..Min(|target|, 62 - |verb|)];
      TargetIs(f, token, Parsed(text, f).value.connection);
      assert Seen(token) == Seen(target);
      assert |target| <= 14 ==> token == target;
    }
  }

  lemma RequestLineIsPlain(verb: string, target: string, version: string)
    requires PlainWord(verb) && PlainWord(target) && Without(version, CR)
    ensures RequestLineOf(verb, target, version) != "" && Without(RequestLineOf(verb, target, version), CR)
  {
  }

  lemma {:induction false} HeadersOfLines(lines: seq<string>)
    requires lines != [] && forall l | l in lines :: Without(l, CR)
    ensures var text := Join(lines) + CRLF;
            |text| >= 4 && HeaderLines(text, |text| - 4) == lines[1..]
  {
    EndsInCrlf(lines);
    OthersBehind(lines);
  }

  /** The header part of the round trip: the walk is over exactly the lines that were rendered. */
  lemma HeadersRoundTrip(verb: string, target: string, version: string, headers: seq<string>)
    requires PlainWord(verb) && PlainWord(target) && Without(version, CR)
    requires forall h | h in headers :: h != "" && Without(h, CR)
    ensures var text := Render(verb, target, version, headers);
            && Find(text, BLANK_LINE, 0) == Some(|text| - 4)
            && HeaderLines(text, |text| - 4) == headers
  {
    var lines := [RequestLineOf(verb, target, version)] + headers;
    RequestLineIsPlain(verb, target, version);
    RenderedIsJoined(verb, target, version, headers);
    FirstBlank(lines);
    HeadersOfLines(lines);
    assert lines[1..] == headers;
  }
}
