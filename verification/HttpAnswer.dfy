/**
 * Responses as servers write them (src/net/http.js): any status line and header
 * fields, repeated or not, in either line-break convention, and every way the end
 * of the body can be told, the close of the connection among them.
 */
module HttpAnswer {
  import opened Common
  import opened HttpText
  import opened Http
  import opened HttpSend
  import opened HttpChunked

  // ------------------------------------------------------------- the status line

  function ThreeDigits(n: nat): string
    requires n < 1000
  {
    [Digit(n / 100), Digit(n / 10 % 10), Digit(n % 10)]
  }

  /** Nothing in it ends a line, for anybody (section 12.3 of ECMA-262). */
  predicate OnOneLine(s: string) { forall k :: 0 <= k < |s| ==> s[k] as int !in {10, 13, 0x2028, 0x2029} }

  lemma DotsExactly(s: string)
    ensures AllDots(s) <==> OnOneLine(s)
  {
    assert forall k :: 0 <= k < |s| ==> (Dot(s[k]) <==> s[k] as int !in {10, 13, 0x2028, 0x2029});
  }

  /** A version, three digits and, after a space, a reason that may be left out. */
  ghost predicate SaysStatus(line: string, status: nat, text: string) {
    status < 1000 && OnOneLine(text) &&
    exists major: char, minor: char :: IsDigit(major) && IsDigit(minor) &&
      var start := "HTTP/" + [major] + "." + [minor] + " " + ThreeDigits(status);
      line == start + " " + text || (line == start && text == "")
  }

  lemma StatusWritten(line: string, status: nat, text: string)
    requires SaysStatus(line, status, text)
    ensures ParseStatus(line) == Some(StatusLine(status, text)) && line != "" && line[0] == 'H' && OneLine(line)
  {
    var major: char, minor: char :| IsDigit(major) && IsDigit(minor) &&
      var start := "HTTP/" + [major] + "." + [minor] + " " + ThreeDigits(status);
      line == start + " " + text || (line == start && text == "");
    var start := "HTTP/" + [major] + "." + [minor] + " " + ThreeDigits(status);
    DigitsOf(status);
    DotsExactly(text);
    hide ThreeDigits;
    assert line[..12] == start && (|line| > 12 ==> line[13..] == text);
    StatusParsed(line, major, minor, status, text);
  }

  lemma StatusParsed(line: string, major: char, minor: char, status: nat, text: string)
    requires status < 1000 && IsDigit(major) && IsDigit(minor) && AllDots(text) && |line| >= 12
    requires line[..12] == "HTTP/" + [major] + "." + [minor] + " " + ThreeDigits(status)
    requires if |line| == 12 then text == "" else line[12] == ' ' && line[13..] == text
    ensures ParseStatus(line) == Some(StatusLine(status, text)) && line != "" && line[0] == 'H' && OneLine(line)
  {
    var version, digits := "HTTP/" + [major] + "." + [minor] + " ", ThreeDigits(status);
    assert line == version + digits + line[12..];
    assert line[..5] == "HTTP/";
    assert line[9] == digits[0] && line[10] == digits[1] && line[11] == digits[2];
    DigitsOf(status);
    hide ParseStatus;
    assert AllDots(line);
    DotsAreOneLine(line);
  }

  lemma DigitsOf(n: nat)
    requires n < 1000
    ensures var d := ThreeDigits(n);
            && IsDigit(d[0]) && IsDigit(d[1]) && IsDigit(d[2])
            && 100 * DigitValue(d[0]) + 10 * DigitValue(d[1]) + DigitValue(d[2]) == n
  {
    var h, t, u := n / 100, n / 10 % 10, n % 10;
    assert n / 10 == 10 * h + t && n == 10 * (n / 10) + u;
    assert DigitValue(Digit(h)) == h && DigitValue(Digit(t)) == t && DigitValue(Digit(u)) == u;
  }

  lemma DigitsBack(a: char, b: char, c: char)
    requires IsDigit(a) && IsDigit(b) && IsDigit(c)
    ensures var n := 100 * DigitValue(a) + 10 * DigitValue(b) + DigitValue(c); n < 1000 && ThreeDigits(n) == [a, b, c]
  {
    var x, y, z := DigitValue(a), DigitValue(b), DigitValue(c);
    var n := 100 * x + 10 * y + z;
    assert n / 100 == x && n / 10 == 10 * x + y && n % 10 == z;
  }

  lemma StatusRead(line: string, status: nat, text: string)
    requires ParseStatus(line) == Some(StatusLine(status, text))
    ensures SaysStatus(line, status, text)
  {
    DigitsBack(line[9], line[10], line[11]);
    DotsExactly(text);
    var start := "HTTP/" + [line[5]] + "." + [line[7]] + " " + ThreeDigits(status);
    assert line[..12] == start;
    if |line| == 12 { assert line == start; } else { assert line == start + " " + line[13..]; }
  }

  /** A line is taken for a status line exactly when it is one, and for the one it is. */
  lemma StatusExactly(line: string, status: nat, text: string)
    ensures ParseStatus(line) == Some(StatusLine(status, text)) <==> SaysStatus(line, status, text)
  {
    hide *;
    if SaysStatus(line, status, text) { StatusWritten(line, status, text); }
    if ParseStatus(line) == Some(StatusLine(status, text)) { StatusRead(line, status, text); }
  }

  // ------------------------------------------------------------- text

  /** White space, as `trim` takes it (section 12.2 of ECMA-262). */
  lemma SpaceExactly(c: char)
    ensures Space(c) <==>
              c as int in {9, 10, 11, 12, 13, 0x20, 0xA0, 0x1680, 0x2000, 0x2001, 0x2002, 0x2003, 0x2004, 0x2005, 0x2006,
                           0x2007, 0x2008, 0x2009, 0x200A, 0x2028, 0x2029, 0x202F, 0x205F, 0x3000, 0xFEFF}
  {
  }

  predicate AllSpace(s: string) { forall k :: 0 <= k < |s| ==> Space(s[k]) }

  lemma {:induction false} TrimStartExactly(s: string) returns (before: string)
    ensures s == before + TrimStart(s) && AllSpace(before)
    ensures TrimStart(s) == "" || !Space(TrimStart(s)[0])
  {
    hide Space;
    if s != "" && Space(s[0]) {
      before := TrimStartExactly(s[1..]);
      before := [s[0]] + before;
    } else {
      before := "";
    }
  }

  lemma {:induction false} TrimEndExactly(s: string) returns (after: string)
    ensures s == TrimEnd(s) + after && AllSpace(after)
    ensures TrimEnd(s) == "" || !Space(TrimEnd(s)[|TrimEnd(s)| - 1])
  {
    hide Space;
    if s != "" && Space(s[|s| - 1]) {
      after := TrimEndExactly(s[..|s| - 1]);
      after := after + [s[|s| - 1]];
    } else {
      after := "";
    }
  }

  /** Trimming takes white space off both ends, all of it, and nothing else. */
  lemma TrimExactly(s: string)
    ensures Trimmed(Trim(s))
    ensures exists before: string, after: string :: s == before + Trim(s) + after && AllSpace(before) && AllSpace(after)
  {
    var before := TrimStartExactly(s);
    var after := TrimEndExactly(TrimStart(s));
    assert Trim(s) != "" ==> Trim(s)[0] == TrimStart(s)[0];
    assert s == before + Trim(s) + after;
  }

  /** Only the letters of ASCII change their case. */
  lemma LowerExactly(s: string, k: nat)
    requires k < |s|
    ensures Lower(s)[k] as int == s[k] as int + if 65 <= s[k] as int <= 90 then 32 else 0
  {
  }

  // ------------------------------------------------------------- fields

  /** A field on the wire: a name, a colon, and a value, each with white space around it; or a line that is no field. */
  datatype Line =
    | Line(ahead: string, name: string, behind: string, before: string, value: string, after: string)
    | Other(text: string)

  predicate Blanks(s: string) { OneLine(s) && forall k :: 0 <= k < |s| ==> Space(s[k]) }

  predicate LineOk(l: Line) {
    match l
    case Line(ahead, name, behind, before, value, after) =>
      PlainName(name) && PlainValue(value) && Blanks(ahead) && Blanks(behind) && Blanks(before) && Blanks(after)
    case Other(text) => text != "" && OneLine(text) && ':' !in text
  }

  function LineText(l: Line): string {
    match l
    case Line(ahead, name, behind, before, value, after) => ahead + name + behind + ":" + (before + value + after)
    case Other(text) => text
  }

  predicate Names(l: Line, name: string) { l.Line? && Lower(l.name) == name }

  function Texts(lines: seq<Line>): seq<string> { seq(|lines|, k requires 0 <= k < |lines| => LineText(lines[k])) }

  /** Every value given under a name, in order. */
  function Named(lines: seq<Line>, name: string): seq<string>
    decreases |lines|
  {
    if lines == [] then []
    else
      var l := lines[|lines| - 1];
      Named(lines[..|lines| - 1], name) + if Names(l, name) then [l.value] else []
  }

  /** Several values as one. */
  function Commas(values: seq<string>): string
    requires values != []
  {
    if |values| == 1 then values[0] else values[0] + ", " + Commas(values[1..])
  }

  lemma {:induction false} CommasMore(values: seq<string>, v: string)
    requires values != []
    ensures Commas(values + [v]) == Commas(values) + ", " + v
  {
    if |values| > 1 {
      assert (values + [v])[1..] == values[1..] + [v];
      CommasMore(values[1..], v);
    } else {
      assert (values + [v])[1..] == [v];
    }
  }

  lemma {:induction false} TrimsBefore(before: string, s: string)
    requires Blanks(before)
    ensures TrimStart(before + s) == TrimStart(s)
  {
    if before == "" {
      assert before + s == s;
    } else {
      assert (before + s)[1..] == before[1..] + s;
      TrimsBefore(before[1..], s);
    }
  }

  lemma {:induction false} TrimsAfter(s: string, after: string)
    requires Blanks(after)
    ensures TrimEnd(s + after) == TrimEnd(s)
  {
    if after == "" {
      assert s + after == s;
    } else {
      var n := |after| - 1;
      assert (s + after)[..|s + after| - 1] == s + after[..n];
      TrimsAfter(s, after[..n]);
    }
  }

  /** White space around a value is not part of it. */
  lemma TrimsAround(before: string, s: string, after: string)
    requires Blanks(before) && Blanks(after) && Trimmed(s)
    ensures Trim(before + s + after) == s
  {
    assert before + s + after == before + (s + after);
    TrimsBefore(before, s + after);
    if s == "" {
      assert s + after == after && after + "" == after;
      TrimsBefore(after, "");
    } else {
      assert (s + after)[0] == s[0];
      TrimsAfter(s, after);
    }
  }

  /** The name and the value are what is on each side of the first colon. */
  lemma LineParts(l: Line)
    requires LineOk(l) && l.Line?
    ensures var line := LineText(l);
            var at := IndexOf(line, ':');
            at.Some? && Trim(line[..at.value]) == l.name && Trim(line[at.value + 1..]) == l.value
  {
    var line, given := LineText(l), l.ahead + l.name + l.behind;
    assert ':' !in given by { assert !Space(':'); }
    assert forall k :: 0 <= k < |given| ==> line[k] == given[k] && given[k] in given;
    assert line[..|given|] == given && line[|given| + 1..] == l.before + l.value + l.after;
    hide Blanks, OneLine, Trim, IndexOf, Space;
    IndexOfIs(line, ':', |given|);
    TrimsAround(l.ahead, l.name, l.behind);
    TrimsAround(l.before, l.value, l.after);
  }

  lemma LineWhole(l: Line)
    requires LineOk(l)
    ensures LineText(l) != "" && OneLine(LineText(l))
  {
    hide Space, Trimmed;
  }

  /** What a line does to the fields. */
  function LineAdded(h: Headers, l: Line): Headers {
    if l.Other? then h
    else
      var name := Lower(l.name);
      h[name := if name in h then h[name] + ", " + l.value else l.value]
  }

  lemma LineReads(h: Headers, l: Line)
    requires LineOk(l)
    ensures AddField(h, LineText(l)) == LineAdded(h, l)
  {
    if l.Line? { LineParts(l); } else { NoColon(l.text); }
    hide LineOk, IndexOf, Trim, Lower;
  }

  lemma NoColon(text: string)
    requires ':' !in text
    ensures IndexOf(text, ':').None?
  {
    hide IndexOf;
  }

  /** The fields say this and nothing else. */
  ghost predicate Gives(headers: Headers, lines: seq<Line>) { forall name: string :: Given(headers, lines, name) }

  ghost predicate Given(headers: Headers, lines: seq<Line>, name: string) {
    (name in headers <==> Named(lines, name) != []) && (name in headers ==> headers[name] == Commas(Named(lines, name)))
  }

  /** Each name has all the values given under it, joined in order. */
  lemma {:induction false} LinesRead(lines: seq<Line>)
    requires forall k :: 0 <= k < |lines| ==> LineOk(lines[k])
    ensures Gives(AddFields(map[], Texts(lines)), lines)
    decreases |lines|
  {
    if lines != [] {
      var n := |lines| - 1;
      hide AddField, LineText, AddFields, Texts, Gives;
      LinesRead(lines[..n]);
      TextsMore(lines);
      AddFieldsNext(map[], Texts(lines[..n]), LineText(lines[n]));
      LineReads(AddFields(map[], Texts(lines[..n])), lines[n]);
      GivesMore(AddFields(map[], Texts(lines[..n])), lines);
    }
  }

  lemma TextsMore(lines: seq<Line>)
    requires lines != []
    ensures var n := |lines| - 1; Texts(lines) == Texts(lines[..n]) + [LineText(lines[n])]
  {
    hide LineText;
  }

  lemma NamedMore(lines: seq<Line>, name: string)
    requires lines != []
    ensures var front, l := lines[..|lines| - 1], lines[|lines| - 1];
            Named(lines, name) == if Names(l, name) then Named(front, name) + [l.value] else Named(front, name)
  {
    var front := lines[..|lines| - 1];
    assert Named(front, name) + [] == Named(front, name);
    hide Names;
  }

  lemma GivesMore(h: Headers, lines: seq<Line>)
    requires lines != [] && Gives(h, lines[..|lines| - 1])
    ensures Gives(LineAdded(h, lines[|lines| - 1]), lines)
  {
    var front, l := lines[..|lines| - 1], lines[|lines| - 1];
    var next := LineAdded(h, l);
    forall name: string ensures Given(next, lines, name) {
      assert Given(h, front, name);
      NamedMore(lines, name);
      hide Lower, Named, Commas, Gives;
      if Names(l, name) {
        CommasOne(l.value);
        assert Named(front, name) == [] ==> Named(front, name) + [l.value] == [l.value];
        if Named(front, name) != [] { CommasMore(Named(front, name), l.value); }
      }
    }
  }

  lemma CommasOne(v: string)
    ensures Commas([v]) == v
  {
  }

  // ------------------------------------------------------------- the head

  datatype Answer = Answer(first: string, status: nat, text: string, lines: seq<Line>, eol: string)

  ghost predicate AnswerOk(a: Answer) {
    SaysStatus(a.first, a.status, a.text) && LineEnd(a.eol) && forall k :: 0 <= k < |a.lines| ==> LineOk(a.lines[k])
  }

  function HeadBytes(js: Js, a: Answer): Bytes {
    js.encode(JoinLines([a.first] + Texts(a.lines), a.eol) + a.eol + a.eol)
  }

  /** The parser has the status, the reason and the fields of the answer. */
  ghost predicate Says(p: Parser, a: Answer) {
    p.status == a.status && p.statusText == a.text && Gives(p.headers, a.lines)
  }

  /** Somewhere in what the codings are, in either case, it says `chunked`. */
  ghost predicate IsChunked(a: Answer) {
    var codings := Named(a.lines, "transfer-encoding");
    codings != [] && Within(Lower(Commas(codings)), "chunked")
  }

  ghost predicate Within(s: string, t: string) { exists before: string, after: string :: s == before + t + after }

  lemma ContainsExactly(s: string, t: string)
    ensures Contains(s, t) <==> Within(s, t)
  {
    if Contains(s, t) {
      var k :| 0 <= k <= |s| && OccursAt(s, t, k);
      assert s == s[..k] + t + s[k + |t|..];
    }
    if Within(s, t) {
      var before: string, after: string :| s == before + t + after;
      assert OccursAt(s, t, |before|);
    }
  }

  ghost predicate HasLength(a: Answer) { !IsChunked(a) && Named(a.lines, "content-length") != [] }

  ghost function LengthGiven(js: Js, a: Answer): Option<int>
    requires HasLength(a)
  {
    js.number(Commas(Named(a.lines, "content-length")))
  }

  ghost predicate LengthOk(js: Js, a: Answer)
    requires HasLength(a)
  {
    LengthGiven(js, a).Some? && LengthGiven(js, a).value >= 0
  }

  /** The statuses that are defined to have no body. */
  predicate NeverBody(a: Answer) { a.status == 204 || a.status == 304 || a.status / 100 == 1 }

  /** Only the close tells where the body ends. */
  ghost predicate UntilClose(a: Answer) { !IsChunked(a) && !HasLength(a) && !NeverBody(a) }

  lemma {:induction false} AllTexts(lines: seq<Line>)
    requires forall k :: 0 <= k < |lines| ==> LineOk(lines[k])
    ensures forall k :: 0 <= k < |Texts(lines)| ==> Texts(lines)[k] != "" && OneLine(Texts(lines)[k])
  {
    hide LineOk, OneLine, LineText;
    forall k | 0 <= k < |lines| ensures Texts(lines)[k] != "" && OneLine(Texts(lines)[k]) { LineWhole(lines[k]); }
  }

  lemma WholeLines(first: string, more: seq<string>)
    requires first != "" && OneLine(first) && forall k :: 0 <= k < |more| ==> more[k] != "" && OneLine(more[k])
    ensures var lines := [first] + more; Lines(lines) && lines[0] == first && lines[1..] == more
  {
    hide OneLine;
    var lines := [first] + more;
    assert forall k :: 0 < k < |lines| ==> lines[k] == more[k - 1];
  }

  lemma HeadWhole(a: Answer)
    requires AnswerOk(a)
    ensures var lines := [a.first] + Texts(a.lines);
            Lines(lines) && lines[0][0] == 'H' && LineEnd(a.eol) && lines[1..] == Texts(a.lines)
    ensures ParseStatus(a.first) == Some(StatusLine(a.status, a.text))
    ensures Gives(AddFields(map[], Texts(a.lines)), a.lines)
  {
    hide SaysStatus, ParseStatus, LineOk, AddFields, Gives, OneLine, Texts;
    StatusWritten(a.first, a.status, a.text);
    AllTexts(a.lines);
    LinesRead(a.lines);
    WholeLines(a.first, Texts(a.lines));
  }

  lemma LengthIsNotChunks(a: Answer)
    ensures HasLength(a) ==> !IsChunked(a)
  {
  }

  lemma SaysIs(p: Parser, a: Answer)
    ensures Says(p, a) <==> p.status == a.status && p.statusText == a.text && Gives(p.headers, a.lines)
  {
    hide Gives;
  }

  lemma ParsedHead(js: Js, p: Parser, text: string, lines: seq<string>, headers: Headers, a: Answer)
    requires lines != [] && SplitLines(text) == lines && ParseStatus(lines[0]) == Some(StatusLine(a.status, a.text))
    requires p.headers == map[] && AddFields(map[], lines[1..]) == headers && Gives(headers, a.lines)
    ensures var said := p.(status := a.status, statusText := a.text, headers := headers);
            ParseHead(js, p, text) ==
              if IsChunked(a) then said.(phase := ChunkSize)
              else if HasLength(a) then
                if LengthOk(js, a) then said.(phase := Length, remaining := LengthGiven(js, a).value)
                else said.(error := Some(BadLength))
              else if NeverBody(a) then said.(done := true)
              else said.(phase := Close)
  {
    FramedBy(js, headers, a);
    hide SplitLines, ParseStatus, AddFields, Contains, Lower, IsChunked, HasLength, LengthOk, LengthGiven, Gives;
  }

  /** What the fields say of the framing is what the lines do. */
  lemma FramedBy(js: Js, headers: Headers, a: Answer)
    requires Gives(headers, a.lines)
    ensures IsChunked(a) <==> "transfer-encoding" in headers && Contains(Lower(headers["transfer-encoding"]), "chunked")
    ensures !IsChunked(a) ==> (HasLength(a) <==> "content-length" in headers)
    ensures HasLength(a) ==> LengthGiven(js, a) == js.number(headers["content-length"]) && !IsChunked(a)
    ensures HasLength(a) ==> (LengthOk(js, a) <==> LengthGiven(js, a).Some? && LengthGiven(js, a).value >= 0)
    ensures NeverBody(a) <==> NoBody(a.status)
  {
    assert Given(headers, a.lines, "transfer-encoding") && Given(headers, a.lines, "content-length");
    hide Lower, Named, Commas, Gives, Contains, Within;
    if "transfer-encoding" in headers { ContainsExactly(Lower(headers["transfer-encoding"]), "chunked"); }
  }

  /** The head of the answer is found where it ends, and read for what it says. */
  lemma AnswerHead(js: Js, a: Answer, rest: Bytes)
    requires js.Sound() && AnswerOk(a)
    ensures var p := With(FRESH, HeadBytes(js, a) + rest);
            var t := HeadTurn(js, p);
            && p.phase.Head? && FindHead(p.buffer).Some?
            && FindHead(p.buffer).value.at + FindHead(p.buffer).value.length == |HeadBytes(js, a)|
            && Says(t.p, a) && t.p.body == [] && t.p.bodyLength == 0
            && (t.Again? ==> t.p.error.None? && t.p.buffer == rest)
            && if HasLength(a) && !LengthOk(js, a) then t.Rest? && t.p.error == Some(BadLength)
               else
                 && t.Again? && t.p.done == (!IsChunked(a) && !HasLength(a) && NeverBody(a))
                 && t.p.phase == (if IsChunked(a) then ChunkSize else if HasLength(a) then Length else if NeverBody(a) then Head else Close)
                 && t.p.remaining == if HasLength(a) then LengthGiven(js, a).value else 0
  {
    hide *;
    var lines := [a.first] + Texts(a.lines);
    HeadWhole(a);
    HeadFound(js, lines, a.eol, rest);
    SplitLinesBack(lines, a.eol);
    var p := With(FRESH, HeadBytes(js, a) + rest);
    FreshParser(HeadBytes(js, a) + rest);
    LengthIsNotChunks(a);
    SaysIs(HeadTurn(js, p).p, a);
    HeadBytesAre(js, a);
    ParsedHead(js, p, JoinLines(lines, a.eol), lines, AddFields(map[], lines[1..]), a);
    HeadTurned(js, p);
  }

  lemma HeadBytesAre(js: Js, a: Answer)
    ensures HeadBytes(js, a) == js.encode(JoinLines([a.first] + Texts(a.lines), a.eol) + a.eol + a.eol)
  {
    hide JoinLines, Texts;
  }

  // ------------------------------------------------------------- how the body ends

  /** Nothing depends on the cuts unless the head says that there is no body. */
  lemma SteadyAnswer(js: Js, a: Answer, rest: Bytes)
    requires js.Sound() && AnswerOk(a)
    requires IsChunked(a) || HasLength(a) || !NeverBody(a) || FindHead(rest).None?
    ensures SteadyHead(js, With(FRESH, HeadBytes(js, a) + rest))
  {
    hide *;
    AnswerHead(js, a, rest);
    LengthIsNotChunks(a);
    var p := With(FRESH, HeadBytes(js, a) + rest);
    SteadyWhen(js, p);
  }

  /** What pushing the whole stream comes to. */
  lemma AnswerRuns(js: Js, maxBody: nat, a: Answer, rest: Bytes)
    requires js.Sound() && AnswerOk(a)
    ensures var t := HeadTurn(js, With(FRESH, HeadBytes(js, a) + rest));
            Push(js, maxBody, FRESH, HeadBytes(js, a) + rest) == if t.Again? then Run(js, maxBody, t.p) else t.p
  {
    hide *;
    AnswerHead(js, a, rest);
    FreshParser(HeadBytes(js, a) + rest);
    RunAtHead(js, maxBody, With(FRESH, HeadBytes(js, a) + rest));
    PushesFresh(js, maxBody, HeadBytes(js, a) + rest);
  }

  /** In pieces or at once, with the close behind it or without. */
  lemma InPieces(js: Js, maxBody: nat, a: Answer, rest: Bytes, pieces: seq<Bytes>)
    requires js.Sound() && AnswerOk(a) && Whole(pieces) == HeadBytes(js, a) + rest
    requires IsChunked(a) || HasLength(a) || !NeverBody(a) || FindHead(rest).None?
    ensures var p := PushAll(js, maxBody, FRESH, pieces);
            var t := HeadTurn(js, With(FRESH, HeadBytes(js, a) + rest));
            Same(p, if t.Again? then Run(js, maxBody, t.p) else t.p)
  {
    hide *;
    SteadyAnswer(js, a, rest);
    AnswerRuns(js, maxBody, a, rest);
    FragmentationIndependent(js, maxBody, pieces);
  }

  /**
   * An answer whose end only the close tells: it is not over before, whatever
   * the pieces, and the close gives what it says with everything behind the head
   * as its body. Past the cap the close throws.
   */
  lemma CloseReadsBack(js: Js, maxBody: nat, a: Answer, body: Bytes, pieces: seq<Bytes>)
    requires js.Sound() && AnswerOk(a) && UntilClose(a)
    requires Whole(pieces) == HeadBytes(js, a) + body
    ensures var p := PushAll(js, maxBody, FRESH, pieces);
            var (q, thrown) := End(maxBody, p);
            && !Over(p) && (thrown <==> |body| > maxBody)
            && (!thrown ==> q.done && q.error.None? && Says(q, a) && q.body == body)
  {
    hide *;
    UntilCloseIs(a);
    AnswerHead(js, a, body);
    InPieces(js, maxBody, a, body, pieces);
    var q := HeadTurn(js, With(FRESH, HeadBytes(js, a) + body)).p;
    ClosesWith(js, maxBody, q, body);
    SameIs(PushAll(js, maxBody, FRESH, pieces), q);
    var r := End(maxBody, q).0;
    SaysIs(q, a);
    SaysIs(r, a);
  }

  lemma UntilCloseIs(a: Answer)
    ensures UntilClose(a) <==> !IsChunked(a) && !HasLength(a) && !NeverBody(a)
  {
  }

  lemma ClosesWith(js: Js, maxBody: nat, q: Parser, body: Bytes)
    requires q.phase.Close? && !q.done && q.error.None? && q.buffer == body && q.body == [] && q.bodyLength == 0
    ensures Run(js, maxBody, q) == q && !Over(q)
    ensures var (r, thrown) := End(maxBody, q);
            && (thrown <==> |body| > maxBody)
            && (!thrown ==>
                  && r.done && r.error.None? && r.body == body
                  && (r.status, r.statusText, r.headers) == (q.status, q.statusText, q.headers))
  {
    assert [] + body == body;
  }

  /** An answer that has no body by its status is over with its head, and so it stays. */
  lemma BodilessReadsBack(js: Js, maxBody: nat, a: Answer, rest: Bytes, pieces: seq<Bytes>)
    requires js.Sound() && AnswerOk(a) && !IsChunked(a) && !HasLength(a) && NeverBody(a) && FindHead(rest).None?
    requires Whole(pieces) == HeadBytes(js, a) + rest
    ensures var p := PushAll(js, maxBody, FRESH, pieces); p.done && p.error.None? && Says(p, a) && p.body == []
  {
    hide *;
    AnswerHead(js, a, rest);
    InPieces(js, maxBody, a, rest, pieces);
    var q := HeadTurn(js, With(FRESH, HeadBytes(js, a) + rest)).p;
    RestsHeadless(js, maxBody, q);
    var p := PushAll(js, maxBody, FRESH, pieces);
    SameIs(p, q);
    SaysIs(q, a);
    SaysIs(p, a);
  }

  lemma RestsHeadless(js: Js, maxBody: nat, q: Parser)
    requires q.phase.Head? && FindHead(q.buffer).None?
    ensures Run(js, maxBody, q) == q
  {
    hide FindHead, ParseHead;
  }

  /**
   * An answer that gives its length: over as soon as so many bytes are there, and
   * those are its body; short of them the close says how many are missing. What
   * is no length is refused.
   */
  lemma LengthReadsBack(js: Js, maxBody: nat, a: Answer, rest: Bytes, pieces: seq<Bytes>)
    requires js.Sound() && AnswerOk(a) && HasLength(a)
    requires Whole(pieces) == HeadBytes(js, a) + rest
    ensures var p := PushAll(js, maxBody, FRESH, pieces);
            if !LengthOk(js, a) then p.error == Some(BadLength)
            else
              var n := LengthGiven(js, a).value;
              if Min(n, |rest|) > maxBody then p.error == Some(TooLarge)
              else if |rest| >= n then p.done && p.error.None? && Says(p, a) && p.body == rest[..n]
              else !Over(p) && End(maxBody, p).0.error == Some(ClosedInBody(n - |rest|)) && !End(maxBody, p).1
  {
    hide *;
    AnswerHead(js, a, rest);
    InPieces(js, maxBody, a, rest, pieces);
    var t := HeadTurn(js, With(FRESH, HeadBytes(js, a) + rest));
    var p := PushAll(js, maxBody, FRESH, pieces);
    if LengthOk(js, a) {
      LengthIsNotChunks(a);
      GivenIs(js, a);
      LengthRuns(js, maxBody, t.p);
      SameIs(p, Run(js, maxBody, t.p));
      SaysIs(t.p, a);
      SaysIs(p, a);
    } else {
      SameIs(p, t.p);
    }
  }

  lemma GivenIs(js: Js, a: Answer)
    requires HasLength(a) && LengthOk(js, a)
    ensures LengthGiven(js, a).Some? && LengthGiven(js, a).value >= 0
  {
    hide LengthGiven, HasLength;
  }

  lemma LengthRuns(js: Js, maxBody: nat, q: Parser)
    requires q.phase.Length? && !q.done && q.error.None? && q.body == [] && q.bodyLength == 0
    ensures var r, n, rest := Run(js, maxBody, q), q.remaining, q.buffer;
            if Min(n, |rest|) > maxBody then r.error == Some(TooLarge)
            else if |rest| >= n then
              r.done && r.error.None? && r.body == rest[..n] && (r.status, r.statusText, r.headers) == (q.status, q.statusText, q.headers)
            else !Over(r) && End(maxBody, r).0.error == Some(ClosedInBody(n - |rest|)) && !End(maxBody, r).1
  {
    hide Run;
    RunRests(js, maxBody, q);
  }

  /** A size line: the size with white space around it, and after a semicolon anything at all. */
  lemma ExtensionIgnored(before: string, size: string, after: string, extension: string)
    requires Blanks(before) && Blanks(after) && Trimmed(size) && ';' !in size
    ensures SizeText(before + size + after) == SizeText(before + size + after + ";" + extension) == size
  {
    var text := before + size + after;
    var line := text + ";" + extension;
    assert forall k :: 0 <= k < |text| ==> text[k] != ';' && line[k] == text[k] by {
      assert forall k :: 0 <= k < |before| ==> Space(before[k]);
      assert forall k :: 0 <= k < |after| ==> Space(after[k]);
    }
    IndexOfIs(line, ';', |text|);
    assert line[..|text|] == text;
    assert IndexOf(text, ';').None?;
    hide IndexOf, Trim, Space;
    TrimsAround(before, size, after);
  }

  /** An answer in chunks: the data of the chunks in order, whatever the pieces. */
  lemma ChunksReadBack(
      js: Js, maxBody: nat, a: Answer, chunks: seq<Chunk>, last: Bytes, afterLast: Bytes, end: Bytes, pieces: seq<Bytes>)
    requires js.Sound() && AnswerOk(a) && IsChunked(a)
    requires forall k :: 0 <= k < |chunks| ==> ChunkOk(js, chunks[k])
    requires SaysSize(js, last, 0) && Newline(afterLast) && Terminated(end) && |DataOf(chunks)| <= maxBody
    requires Whole(pieces) == HeadBytes(js, a) + (FramedAll(chunks) + (last + afterLast + end))
    ensures var p := PushAll(js, maxBody, FRESH, pieces); p.done && p.error.None? && Says(p, a) && p.body == DataOf(chunks)
  {
    hide *;
    var head := HeadBytes(js, a);
    AnswerHead(js, a, []);
    LengthIsNotChunks(a);
    assert head + [] == head;
    FreshParser(head);
    ChunkedReadsBack(js, maxBody, head, chunks, last, afterLast, end, pieces);
    SaysIs(HeadTurn(js, With(FRESH, head)).p, a);
    SaysIs(PushAll(js, maxBody, FRESH, pieces), a);
  }

  /** A stream that ends inside its head is refused at the close, and not before. */
  lemma HeadMissing(js: Js, maxBody: nat, pieces: seq<Bytes>)
    requires FindHead(Whole(pieces)).None?
    ensures var p := PushAll(js, maxBody, FRESH, pieces);
            !Over(p) && End(maxBody, p).0.error == Some(ClosedInHead) && !End(maxBody, p).1
  {
    hide FindHead, ParseHead, PushAll;
    FreshParser(Whole(pieces));
    FragmentationIndependent(js, maxBody, pieces);
  }

  /** A head that does not start with a status line is refused as it is. */
  lemma NoStatusRefused(js: Js, maxBody: nat, lines: seq<string>, eol: string, rest: Bytes, pieces: seq<Bytes>)
    requires js.Sound() && Lines(lines) && LineEnd(eol) && lines[0][0] != '\U{FEFF}'
    requires forall status: nat, text: string :: !SaysStatus(lines[0], status, text)
    requires Whole(pieces) == js.encode(JoinLines(lines, eol) + eol + eol) + rest
    ensures PushAll(js, maxBody, FRESH, pieces).error == Some(NotHttp)
  {
    hide *;
    SplitLinesBack(lines, eol);
    var input := js.encode(JoinLines(lines, eol) + eol + eol) + rest;
    HeadFound(js, lines, eol, rest);
    FreshParser(input);
    if ParseStatus(lines[0]).Some? {
      var r := ParseStatus(lines[0]).value;
      StatusAs(lines[0]);
      StatusExactly(lines[0], r.status, r.text);
    }
    RefusedHead(js, With(FRESH, input), lines, JoinLines(lines, eol));
    RunAtHead(js, maxBody, With(FRESH, input));
    PushesFresh(js, maxBody, input);
    SteadyWhen(js, With(FRESH, input));
    FragmentationIndependent(js, maxBody, pieces);
    SameIs(PushAll(js, maxBody, FRESH, pieces), HeadTurn(js, With(FRESH, input)).p);
  }

  lemma StatusAs(line: string)
    ensures ParseStatus(line).Some? ==> ParseStatus(line) == Some(StatusLine(ParseStatus(line).value.status, ParseStatus(line).value.text))
  {
    hide ParseStatus;
  }

  lemma RefusedHead(js: Js, p: Parser, lines: seq<string>, text: string)
    requires lines != [] && SplitLines(text) == lines && ParseStatus(lines[0]).None? && FindHead(p.buffer).Some?
    requires js.decode(p.buffer[..FindHead(p.buffer).value.at]) == text
    ensures HeadTurn(js, p).Rest? && HeadTurn(js, p).p.error == Some(NotHttp)
  {
    hide FindHead, SplitLines, ParseStatus;
  }
}
