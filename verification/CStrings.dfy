/** The C strings the server works on: character buffers that end at their first NUL, and the
    library calls `strcspn`, `strstr`, `strncpy` and `strtok_r` as the request parser uses them.
    A pointer into a buffer is an index; a string argument is the text from an index to the next NUL. */
module CStrings {

  const NUL: char := '\0'
  const CR: char := '\r'
  const LF: char := '\n'
  const CRLF: string := "\r\n"
  const BLANK_LINE: string := "\r\n\r\n"

  datatype Option<+T> = None | Some(value: T)

  function Min(a: int, b: int): int { if a <= b then a else b }

  /** The first index at or after `at` that holds `c`, or `|s|` when there is none. */
  function Next(s: seq<char>, at: nat, c: char): (e: nat)
    requires at <= |s|
    ensures at <= e <= |s|
    ensures forall i | at <= i < e :: s[i] != c
    ensures e < |s| ==> s[e] == c
    decreases |s| - at
  {
    if at == |s| || s[at] == c then at else Next(s, at + 1, c)
  }

  ghost predicate Without(s: seq<char>, c: char) { c !in s }

  /** The string a pointer to index `at` of a buffer denotes. */
  function TextAt(s: seq<char>, at: nat): string
    requires at <= |s|
  {
    s[at..Next(s, at, NUL)]
  }

  lemma SliceOfSlice<T>(s: seq<T>, from: nat, to: nat, i: nat, j: nat)
    requires from <= to <= |s| && i <= j <= to - from
    ensures s[from..to][i..j] == s[from + i..from + j]
  {
    var inner, outer := s[from..to][i..j], s[from + i..from + j];
    forall k | 0 <= k < j - i
      ensures inner[k] == outer[k]
    {
      assert inner[k] == s[from..to][i + k];
    }
  }

  lemma SplitSlice<T>(s: seq<T>, from: nat, to: nat, k: nat)
    requires from <= from + k <= to <= |s|
    ensures s[from..to][..k] == s[from..from + k]
    ensures s[from..to][k..] == s[from + k..to]
  {
    SliceOfSlice(s, from, to, 0, k);
    SliceOfSlice(s, from, to, k, to - from);
    assert s[from..to][k..] == s[from..to][k..to - from];
  }

  lemma {:induction false} NextIs(s: seq<char>, at: nat, c: char, e: nat)
    requires at <= e <= |s|
    requires forall i | at <= i < e :: s[i] != c
    requires e == |s| || s[e] == c
    ensures Next(s, at, c) == e
  {
  }

  lemma {:induction false} TextAtInside(s: seq<char>, at: nat, n: nat)
    requires at <= |s| && n <= |TextAt(s, at)|
    ensures at + n <= |s| && Next(s, at + n, NUL) == Next(s, at, NUL)
    ensures TextAt(s, at + n) == TextAt(s, at)[n..]
  {
    NextIs(s, at + n, NUL, Next(s, at, NUL));
  }

  function Text(s: seq<char>): string { TextAt(s, 0) }

  /** `strcmp(a, b) == 0` */
  predicate StrSame(a: string, b: string) {
    if |a| == 0 || |b| == 0 then |a| == |b| else a[0] == b[0] && StrSame(a[1..], b[1..])
  }

  lemma {:induction false} StrSameIsEqual(a: string, b: string)
    ensures StrSame(a, b) <==> a == b
  {
    if |a| != 0 && |b| != 0 {
      StrSameIsEqual(a[1..], b[1..]);
      if a[0] == b[0] && a[1..] == b[1..] { assert a == [a[0]] + a[1..] == b; }
    }
  }

  function Zeros(n: nat): seq<char> { seq(n, _ => NUL) }

  /** What a buffer holds after `strncpy(dst, text, n)`: at most `n` characters of the text,
      NULs up to the n-th byte, and the old bytes from there on. */
  function Copied(dst: seq<char>, text: string, n: nat): (r: seq<char>)
    requires n <= |dst|
    ensures |r| == |dst|
  {
    var m := Min(n, |text|);
    text[..m] + Zeros(n - m) + dst[n..]
  }

  // ---- substring search ----

  predicate OccursAt(s: string, pattern: string, i: nat)
  {
    i + |pattern| <= |s| && s[i..i + |pattern|] == pattern
  }

  lemma OccursAtChar(s: string, pattern: string, i: nat, j: nat)
    requires j < |pattern|
    ensures OccursAt(s, pattern, i) ==> s[i + j] == pattern[j]
  {
    if OccursAt(s, pattern, i) {
      assert s[i..i + |pattern|][j] == s[i + j];
    }
  }

  lemma OccursFromChars(s: string, pattern: string, i: nat)
    requires i + |pattern| <= |s| && forall j | 0 <= j < |pattern| :: s[i + j] == pattern[j]
    ensures OccursAt(s, pattern, i)
  {
    forall j | 0 <= j < |pattern| ensures s[i..i + |pattern|][j] == pattern[j] {
    }
  }

  lemma OccursChars(s: string, pattern: string, i: nat)
    requires OccursAt(s, pattern, i)
    ensures forall j | 0 <= j < |pattern| :: s[i + j] == pattern[j]
  {
    forall j | 0 <= j < |pattern| ensures s[i + j] == pattern[j] {
      OccursAtChar(s, pattern, i, j);
    }
  }

  /** The index of the first occurrence of `pattern` at or after `from`. */
  function Find(s: string, pattern: string, from: nat): (r: Option<nat>)
    requires from <= |s|
    ensures r.Some? ==> from <= r.value && OccursAt(s, pattern, r.value)
    decreases |s| - from
  {
    if OccursAt(s, pattern, from) then Some(from)
    else if from == |s| then None
    else Find(s, pattern, from + 1)
  }

  lemma {:induction false} FindFirst(s: string, pattern: string, from: nat)
    requires from <= |s|
    ensures var r := Find(s, pattern, from);
            if r.Some? then forall i | from <= i < r.value :: !OccursAt(s, pattern, i)
            else forall i | from <= i :: !OccursAt(s, pattern, i)
    decreases |s| - from
  {
    if !OccursAt(s, pattern, from) && from < |s| { FindFirst(s, pattern, from + 1); }
  }

  lemma {:induction false} FoundIf(s: string, pattern: string, e: nat)
    requires OccursAt(s, pattern, e)
    ensures Find(s, pattern, 0).Some?
  {
    FindFirst(s, pattern, 0);
  }

  predicate Contains(s: string, pattern: string) { Find(s, pattern, 0).Some? }

  lemma {:induction false} FindIs(s: string, pattern: string, from: nat, e: nat)
    requires from <= e && OccursAt(s, pattern, e)
    requires forall i | from <= i < e :: !OccursAt(s, pattern, i)
    ensures Find(s, pattern, from) == Some(e)
    decreases e - from
  {
    if from < e { FindIs(s, pattern, from + 1, e); }
  }

  // ---- space-separated tokens ----

  function Tokens(s: string): seq<string>
    decreases |s|
  {
    if s == "" then []
    else if s[0] == ' ' then Tokens(s[1..])
    else
      var e := Next(s, 0, ' ');
      [s[..e]] + Tokens(s[e..])
  }

  lemma {:induction false} TokensSkip(s: string, at: nat, b: nat, end: nat)
    requires at <= b <= end <= |s| && forall i | at <= i < b :: s[i] == ' '
    ensures Tokens(s[at..end]) == Tokens(s[b..end])
    decreases b - at
  {
    if at < b {
      assert s[at..end][1..] == s[at + 1..end];
      TokensSkip(s, at + 1, b, end);
    }
  }

  lemma TokensBehind(s: seq<char>, e: nat, end: nat)
    requires e <= end <= |s| && (e == end || s[e] == ' ')
    ensures Tokens(s[e..end]) == Tokens(if e == end then "" else s[e + 1..end])
  {
    if e < end { TokensSkip(s, e, e + 1, end); }
  }

  lemma FirstToken(s: seq<char>, b: nat, e: nat, end: nat)
    requires b < e <= end <= |s| && (forall i | b <= i < e :: s[i] != ' ') && (e == end || s[e] == ' ')
    ensures Tokens(s[b..end]) == [s[b..e]] + Tokens(s[e..end])
  {
    var text := s[b..end];
    assert Next(text, 0, ' ') == e - b by { NextIs(text, 0, ' ', e - b); }
    SplitSlice(s, b, end, e - b);
    assert Tokens(text) == [text[..e - b]] + Tokens(text[e - b..]);
  }

  /** The first token lies between the leading spaces and the next space or the end. */
  lemma TokensInside(s: seq<char>, at: nat, b: nat, e: nat, end: nat)
    requires at <= b < e <= end <= |s|
    requires forall i | at <= i < b :: s[i] == ' '
    requires forall i | b <= i < e :: s[i] != ' '
    requires e == end || s[e] == ' '
    ensures Tokens(s[at..end]) == [s[b..e]] + Tokens(if e == end then "" else s[e + 1..end])
  {
    TokensSkip(s, at, b, end);
    FirstToken(s, b, e, end);
    TokensBehind(s, e, end);
  }

  // ---- the library calls on buffers ----

  /** `strcspn(buffer + at, [c])` */
  method Strcspn(buffer: array<char>, at: nat, c: char) returns (n: nat)
    requires at <= buffer.Length && Next(buffer[..], at, NUL) < buffer.Length
    ensures n == Next(TextAt(buffer[..], at), 0, c)
  {
    ghost var text := TextAt(buffer[..], at);
    n := 0;
    while buffer[at + n] != NUL && buffer[at + n] != c
      invariant n <= |text|
      invariant forall i | 0 <= i < n :: text[i] != c
      decreases |text| - n
    {
      n := n + 1;
    }
    NextIs(text, 0, c, n);
  }

  method Strlen(buffer: array<char>, at: nat) returns (n: nat)
    requires at <= buffer.Length && Next(buffer[..], at, NUL) < buffer.Length
    ensures n == |TextAt(buffer[..], at)|
  {
    n := 0;
    while buffer[at + n] != NUL
      invariant n <= |TextAt(buffer[..], at)|
      decreases |TextAt(buffer[..], at)| - n
    {
      n := n + 1;
    }
  }

  /** `strspn(buffer + at, " ")` */
  method Strspn(buffer: array<char>, at: nat) returns (n: nat)
    requires at <= buffer.Length && Next(buffer[..], at, NUL) < buffer.Length
    ensures at + n <= Next(buffer[..], at, NUL) && buffer[at + n] != ' '
    ensures forall i | at <= i < at + n :: buffer[i] == ' '
  {
    n := 0;
    while buffer[at + n] == ' '
      invariant at + n <= Next(buffer[..], at, NUL)
      invariant forall i | at <= i < at + n :: buffer[i] == ' '
      decreases Next(buffer[..], at, NUL) - n
    {
      n := n + 1;
    }
  }

  method Strstr(buffer: array<char>, pattern: string) returns (r: Option<nat>)
    requires Next(buffer[..], 0, NUL) < buffer.Length
    requires pattern != "" && Without(pattern, NUL)
    ensures r == Find(Text(buffer[..]), pattern, 0)
  {
    ghost var text := Text(buffer[..]);
    var i := 0;
    while buffer[i] != NUL
      invariant i <= |text|
      invariant Find(text, pattern, 0) == Find(text, pattern, i)
      decreases |text| - i
    {
      var j := 0;
      while j < |pattern| && buffer[i + j] == pattern[j]
        invariant j <= |pattern| && i + j <= |text|
        invariant forall k | 0 <= k < j :: text[i + k] == pattern[k]
      {
        assert buffer[i + j] != NUL;
        j := j + 1;
      }
      if j == |pattern| {
        OccursFromChars(text, pattern, i);
        return Some(i);
      }
      OccursAtChar(text, pattern, i, j);
      i := i + 1;
    }
    r := None;
  }

  method Strncpy(dst: array<char>, src: array<char>, at: nat, n: nat)
    requires dst != src && n <= dst.Length
    requires at <= src.Length && Next(src[..], at, NUL) < src.Length
    modifies dst
    ensures dst[..] == Copied(old(dst[..]), old(TextAt(src[..], at)), n)
  {
    ghost var text := TextAt(src[..], at);
    var k := 0;
    while k < n && src[at + k] != NUL
      invariant k <= n && k <= |text|
      invariant forall i | 0 <= i < k :: dst[i] == text[i]
      invariant forall i | k <= i < dst.Length :: dst[i] == old(dst[i])
    {
      assert at + k < at + |text|;
      dst[k] := src[at + k];
      k := k + 1;
    }
    ghost var m := k;
    while k < n
      invariant m <= k <= n
      invariant forall i | 0 <= i < m :: dst[i] == text[i]
      invariant forall i | m <= i < k :: dst[i] == NUL
      invariant forall i | k <= i < dst.Length :: dst[i] == old(dst[i])
    {
      dst[k] := NUL;
      k := k + 1;
    }
    assert m == Min(n, |text|);
    assert dst[..] == text[..m] + Zeros(n - m) + old(dst[..])[n..];
  }

  /** Where a span that `strcspn` measures lies in the buffer. */
  lemma {:induction false} SpanInside(s: seq<char>, at: nat, c: char)
    requires at <= |s|
    ensures var e := at + Next(TextAt(s, at), 0, c);
            && e <= Next(s, at, NUL) && (e < Next(s, at, NUL) ==> s[e] == c)
            && forall i | at <= i < e :: s[i] != c
  {
    var text := TextAt(s, at);
    var n := Next(text, 0, c);
    forall i | at <= i < at + n ensures s[i] != c {
      assert s[i] == text[i - at];
    }
    if n < |text| { assert text[n] == s[at + n]; }
  }

  /** A NUL written at `e` ends the text at `b` there. */
  lemma {:induction false} CutFront(before: seq<char>, after: seq<char>, b: nat, e: nat)
    requires b <= e < |before| && e <= Next(before, b, NUL) && after == before[e := NUL]
    ensures Next(after, b, NUL) == e && TextAt(after, b) == before[b..e]
  {
    NextIs(after, b, NUL, e);
    assert after[b..e] == before[b..e];
  }

  /** The text behind that NUL is what it was. */
  lemma {:induction false} CutBack(before: seq<char>, after: seq<char>, e: nat, save: nat)
    requires e <= save <= |before| && Next(before, save, NUL) < |before| && after == before[e := NUL]
    requires save == e ==> before[e] == NUL
    ensures Next(after, save, NUL) == Next(before, save, NUL) && TextAt(after, save) == TextAt(before, save)
  {
    NextIs(after, save, NUL, Next(before, save, NUL));
    assert save == e ==> after == before;
  }

  /** Cutting a token out of a buffer in place: `b..e` is the first token of the text at `at`. */
  lemma TokenCut(before: seq<char>, after: seq<char>, at: nat, b: nat, e: nat)
    requires at <= b < e < |before| && e <= Next(before, at, NUL) < |before|
    requires forall i | at <= i < b :: before[i] == ' '
    requires forall i | b <= i < e :: before[i] != ' '
    requires before[e] == NUL || before[e] == ' '
    requires after == before[e := NUL]
    ensures Next(after, b, NUL) == e
    ensures var save := if before[e] == NUL then e else e + 1;
            && Next(after, save, NUL) < |after|
            && Tokens(TextAt(before, at)) != [] && Tokens(TextAt(before, at))[0] == TextAt(after, b)
            && Tokens(TextAt(before, at))[1..] == Tokens(TextAt(after, save))
  {
    var end, save := Next(before, at, NUL), if before[e] == NUL then e else e + 1;
    TokensInside(before, at, b, e, end);
    NextIs(before, b, NUL, end);
    NextIs(before, save, NUL, end);
    CutFront(before, after, b, e);
    CutBack(before, after, e, save);
  }

  lemma {:induction false} NoToken(s: seq<char>, at: nat, b: nat)
    requires at <= b < |s| && s[b] == NUL && forall i | at <= i < b :: s[i] == ' '
    ensures Next(s, at, NUL) == b && Tokens(TextAt(s, at)) == []
  {
    NextIs(s, at, NUL, b);
    TokensSkip(s, at, b, b);
  }

  /** Ending the token that starts at `b`: a NUL replaces the space behind it. */
  method CutAt(buffer: array<char>, b: nat) returns (e: nat, save: nat)
    requires b < buffer.Length && Next(buffer[..], b, NUL) < buffer.Length
    requires buffer[b] != NUL && buffer[b] != ' '
    modifies buffer
    ensures b < e < buffer.Length && e <= Next(old(buffer[..]), b, NUL)
    ensures forall i | b <= i < e :: old(buffer[..])[i] != ' '
    ensures old(buffer[e]) == NUL || old(buffer[e]) == ' '
    ensures buffer[..] == old(buffer[..])[e := NUL] && save == if old(buffer[e]) == NUL then e else e + 1
  {
    SpanInside(buffer[..], b, ' ');
    var n := Strcspn(buffer, b, ' ');
    e := b + n;
    if buffer[e] == NUL {
      save := e;
    } else {
      buffer[e] := NUL;
      save := e + 1;
    }
  }

  /** `strtok_r(…, " ", &save)` continuing at `at`: the next token is cut out in place by a NUL.
      `None` is the NULL the call returns when no token is left. */
  method StrtokR(buffer: array<char>, at: nat) returns (token: Option<nat>, save: nat)
    requires at <= buffer.Length && Next(buffer[..], at, NUL) < buffer.Length
    modifies buffer
    ensures at <= save <= buffer.Length && Next(buffer[..], save, NUL) < buffer.Length
    ensures Tokens(old(TextAt(buffer[..], at))) == [] ==> token == None
    ensures Tokens(old(TextAt(buffer[..], at))) != [] ==>
              && token.Some? && token.value < save
              && Next(buffer[..], token.value, NUL) < buffer.Length
              && TextAt(buffer[..], token.value) == Tokens(old(TextAt(buffer[..], at)))[0]
              && Tokens(TextAt(buffer[..], save)) == Tokens(old(TextAt(buffer[..], at)))[1..]
  {
    ghost var before := buffer[..];
    var skipped := Strspn(buffer, at);
    var b := at + skipped;
    assert forall i | at <= i < b :: before[i] == ' ';
    NextIs(before, b, NUL, Next(before, at, NUL));
    if buffer[b] == NUL {
      NoToken(before, at, b);
      return None, b;
    }
    token := Some(b);
    var e;
    e, save := CutAt(buffer, b);
    TokenCut(before, buffer[..], at, b, e);
  }
}
