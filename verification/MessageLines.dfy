/** Message layout after section 3 of RFC 7230: lines ended by CRLF, then an empty line. */
module MessageLines {
  import opened CStrings

  /** The lines of `text[at..end]`: a line ends at a CR, and the character after the CR goes with it. */
  function LinesIn(text: string, at: nat, end: nat): (ls: seq<string>)
    requires end <= |text|
    ensures at < end ==> |ls| > 0
    decreases end - at
  {
    if at >= end then []
    else
      var e := Min(Next(text, at, CR), end);
      [text[at..e]] + LinesIn(text, e + 2, end)
  }

  function Join(lines: seq<string>): string {
    if lines == [] then "" else lines[0] + CRLF + Join(lines[1..])
  }

  lemma {:induction false} JoinCons(line: string, lines: seq<string>)
    ensures Join([line] + lines) == line + CRLF + Join(lines)
  {
    assert ([line] + lines)[1..] == lines;
  }

  ghost predicate EveryCrHasLf(text: string) {
    forall i | 0 <= i < |text| && text[i] == CR :: i + 1 < |text| && text[i + 1] == LF
  }

  lemma JoinedAt(text: string, at: nat, line: string, rest: string)
    requires OccursAt(text, line + CRLF + rest, at)
    ensures text[at..at + |line|] == line && text[at + |line|] == CR
    ensures text[at + |line| + 2..at + |line| + 2 + |rest|] == rest
  {
    var all, n := line + CRLF + rest, |line|;
    SplitSlice(text, at, at + |all|, n);
    SplitSlice(text, at, at + |all|, n + 2);
    assert all[..n] == line && all[n] == CR && all[n + 2..] == rest;
  }

  lemma {:induction false} LineEnds(text: string, at: nat, line: string)
    requires at + |line| < |text| && text[at..at + |line|] == line && text[at + |line|] == CR
    requires Without(line, CR)
    ensures Next(text, at, CR) == at + |line|
  {
    assert forall i | at <= i < at + |line| :: text[i] == text[at..at + |line|][i - at];
    NextIs(text, at, CR, at + |line|);
  }

  ghost predicate LineStands(text: string, at: nat, line: string) {
    at + |line| + 2 <= |text| && text[at..at + |line|] == line && text[at + |line|] == CR
  }

  /** The lines stand in the text from `at` to `end`, each with its CRLF behind it. */
  ghost predicate Laid(text: string, at: nat, lines: seq<string>, end: nat)
    decreases |lines|
  {
    if lines == [] then at == end
    else
      && LineStands(text, at, lines[0])
      && Laid(text, at + |lines[0]| + 2, lines[1..], end)
  }

  lemma {:induction false} JoinIsLaid(text: string, at: nat, lines: seq<string>)
    requires OccursAt(text, Join(lines), at)
    ensures Laid(text, at, lines, at + |Join(lines)|)
    decreases |lines|
  {
    if lines != [] {
      var line, rest := lines[0], Join(lines[1..]);
      JoinedAt(text, at, line, rest);
      JoinIsLaid(text, at + |line| + 2, lines[1..]);
    }
  }

  lemma FirstLine(text: string, at: nat, line: string, end: nat)
    requires LineStands(text, at, line) && Without(line, CR) && at + |line| + 2 <= end <= |text|
    ensures LinesIn(text, at, end) == [line] + LinesIn(text, at + |line| + 2, end)
  {
    LineEnds(text, at, line);
  }

  lemma {:induction false} LaidLines(text: string, at: nat, lines: seq<string>, end: nat)
    requires (forall i | 0 <= i < |lines| :: Without(lines[i], CR)) && Laid(text, at, lines, end) && end <= |text|
    ensures at <= end && LinesIn(text, at, end) == lines
    decreases |lines|
  {
    if lines != [] {
      LaidLines(text, at + |lines[0]| + 2, lines[1..], end);
      FirstLine(text, at, lines[0], end);
    }
  }

  /** Lines joined by CRLF come back, whatever stands before and after them. */
  lemma {:induction false} LinesOfJoin(text: string, at: nat, lines: seq<string>)
    requires forall l | l in lines :: Without(l, CR)
    requires OccursAt(text, Join(lines), at)
    ensures LinesIn(text, at, at + |Join(lines)|) == lines
  {
    forall i | 0 <= i < |lines| ensures Without(lines[i], CR) {
      assert lines[i] in lines;
    }
    JoinIsLaid(text, at, lines);
    LaidLines(text, at, lines, at + |Join(lines)|);
  }

  lemma {:induction false} LinesHoldNoCr(text: string, at: nat, end: nat)
    requires end <= |text|
    ensures forall i | 0 <= i < |LinesIn(text, at, end)| :: Without(LinesIn(text, at, end)[i], CR)
    decreases end - at
  {
    if at < end {
      var e := Min(Next(text, at, CR), end);
      LinesHoldNoCr(text, e + 2, end);
      assert Without(text[at..e], CR);
    }
  }

  lemma {:induction false} NextCrlf(text: string, at: nat, end: nat)
    requires EveryCrHasLf(text) && at + 2 <= end <= |text| && text[end - 2] == CR
    ensures var e := Next(text, at, CR);
            e + 2 <= end && text[e] == CR && text[e + 1] == LF && (e + 2 < end ==> e + 4 <= end)
  {
    assert text[end - 1] == LF;
  }

  lemma {:induction false} JoinFront(text: string, at: nat, e: nat, end: nat, others: seq<string>)
    requires at <= e && e + 2 <= end <= |text| && text[e] == CR && text[e + 1] == LF
    requires Join(others) == text[e + 2..end]
    ensures Join([text[at..e]] + others) == text[at..end]
  {
    JoinCons(text[at..e], others);
    assert text[at..end] == text[at..e] + CRLF + text[e + 2..end];
  }

  lemma {:induction false} JoinBack(text: string, at: nat, end: nat)
    requires EveryCrHasLf(text) && at <= end <= |text|
    requires at < end ==> at + 2 <= end && text[end - 2] == CR
    ensures Join(LinesIn(text, at, end)) == text[at..end]
    decreases end - at
  {
    if at < end {
      var e := Next(text, at, CR);
      NextCrlf(text, at, end);
      var others := LinesIn(text, e + 2, end);
      assert LinesIn(text, at, end) == [text[at..e]] + others;
      JoinBack(text, e + 2, end);
      JoinFront(text, at, e, end, others);
    }
  }

  /** Where every CR belongs to a CRLF, the lines are what CRLF splits the text into. */
  lemma {:induction false} JoinOfLines(text: string, at: nat, end: nat)
    requires EveryCrHasLf(text) && at <= end <= |text|
    requires at < end ==> at + 2 <= end && text[end - 2] == CR
    ensures Join(LinesIn(text, at, end)) == text[at..end]
    ensures forall l | l in LinesIn(text, at, end) :: Without(l, CR)
  {
    LinesHoldNoCr(text, at, end);
    JoinBack(text, at, end);
  }

  lemma {:induction false} EndsInCrlf(lines: seq<string>)
    requires lines != []
    ensures |Join(lines)| >= 2 && Join(lines)[|Join(lines)| - 2..] == CRLF
  {
    if |lines| > 1 { EndsInCrlf(lines[1..]); }
  }

  lemma {:induction false} LinesAfterFirst(text: string, end: nat, lines: seq<string>)
    requires lines != [] && Next(text, 0, CR) <= end <= |text| && 0 < end && LinesIn(text, 0, end) == lines
    ensures LinesIn(text, Next(text, 0, CR) + 2, end) == lines[1..]
  {
  }

  /** The lines behind the first one, in a message of lines and an empty line. */
  lemma {:induction false} OthersBehind(lines: seq<string>)
    requires lines != [] && forall l | l in lines :: Without(l, CR)
    ensures var text := Join(lines) + CRLF;
            LinesIn(text, Next(text, 0, CR) + 2, |Join(lines)|) == lines[1..]
  {
    var text, end := Join(lines) + CRLF, |Join(lines)|;
    assert OccursAt(text, Join(lines), 0);
    LinesOfJoin(text, 0, lines);
    EndsInCrlf(lines);
    assert text[end - 2] == Join(lines)[end - 2..][0] == CR;
    LinesAfterFirst(text, end, lines);
  }

  lemma NoBlankInFirst(line: string, rest: string, i: nat)
    requires Without(line, CR) && i < |line| + 2
    requires i == |line| ==> rest != "" && rest[0] != CR
    ensures !OccursAt(line + CRLF + rest, BLANK_LINE, i)
  {
    var s := line + CRLF + rest;
    OccursAtChar(s, BLANK_LINE, i, 0);
    OccursAtChar(s, BLANK_LINE, i, 2);
  }

  lemma NoBlankLater(line: string, rest: string, i: nat)
    requires !OccursAt(rest, BLANK_LINE, i)
    ensures !OccursAt(line + CRLF + rest, BLANK_LINE, |line| + 2 + i)
  {
    var s, from := line + CRLF + rest, |line| + 2;
    if i + 4 <= |rest| { assert s[from + i..from + i + 4] == rest[i..i + 4]; }
  }

  lemma {:induction false} NoBlankBefore(lines: seq<string>, i: nat)
    requires lines != [] && forall j | 0 <= j < |lines| :: lines[j] != "" && Without(lines[j], CR)
    requires i < |Join(lines)| - 2
    ensures !OccursAt(Join(lines) + CRLF, BLANK_LINE, i)
    decreases |lines|
  {
    var line, rest := lines[0], Join(lines[1..]) + CRLF;
    assert Join(lines) + CRLF == line + CRLF + rest;
    if i >= |line| + 2 {
      NoBlankBefore(lines[1..], i - |line| - 2);
      NoBlankLater(line, rest, i - |line| - 2);
    } else {
      if i == |line| { assert rest[0] == lines[1][0]; }
      NoBlankInFirst(line, rest, i);
    }
  }

  lemma {:induction false} FirstBlank(lines: seq<string>)
    requires lines != [] && forall l | l in lines :: l != "" && Without(l, CR)
    ensures |Join(lines)| >= 2
    ensures Find(Join(lines) + CRLF, BLANK_LINE, 0) == Some(|Join(lines)| - 2)
  {
    var s, end := Join(lines) + CRLF, |Join(lines)| - 2;
    EndsInCrlf(lines);
    assert s[end..end + 4] == Join(lines)[end..] + CRLF;
    forall j | 0 <= j < |lines| ensures lines[j] != "" && Without(lines[j], CR) {
      assert lines[j] in lines;
    }
    forall i | 0 <= i < end ensures !OccursAt(s, BLANK_LINE, i) {
      NoBlankBefore(lines, i);
    }
    FindIs(s, BLANK_LINE, 0, end);
  }
}
