/**
 * Requests as clients write them (src/net/http.js): any request line and header
 * fields, in either line-break convention, and a body of the length they give.
 */
module HttpAsked {
  import opened Common
  import opened HttpText
  import H = Http
  import opened HttpSend
  import opened HttpRequest
  import A = HttpAnswer

  // ------------------------------------------------------------- the request line

  /** A method in capitals, a target without white space, and a version. */
  ghost predicate AsksFor(line: string, m: string, target: string) {
    && m != "" && (forall k :: 0 <= k < |m| ==> 65 <= m[k] as int <= 90)
    && target != "" && (forall k :: 0 <= k < |target| ==> !Space(target[k]))
    && exists major: char, minor: char :: IsDigit(major) && IsDigit(minor) && line == m + " " + target + Ending(major, minor)
  }

  function Ending(major: char, minor: char): (s: string)
    ensures |s| == 9
  {
    " HTTP/" + [major] + "." + [minor]
  }

  lemma EndingIs(major: char, minor: char)
    requires IsDigit(major) && IsDigit(minor)
    ensures Ending(major, minor)[0] == ' ' && Version(Ending(major, minor)[1..])
  {
    var v := Ending(major, minor)[1..];
    assert v == "HTTP/" + [major] + "." + [minor];
    assert v[..5] == "HTTP/";
  }

  lemma VersionIs(v: string)
    requires Version(v)
    ensures IsDigit(v[5]) && IsDigit(v[7]) && " " + v == Ending(v[5], v[7])
  {
    assert v == v[..5] + [v[5]] + [v[6]] + [v[7]];
  }

  lemma CapitalsExactly(m: string)
    ensures AllUpper(m) <==> m != "" && forall k :: 0 <= k < |m| ==> 65 <= m[k] as int <= 90
  {
    assert forall k :: 0 <= k < |m| ==> (IsUpper(m[k]) <==> 65 <= m[k] as int <= 90);
  }

  lemma LineWritten(line: string, m: string, target: string)
    requires AsksFor(line, m, target)
    ensures ParseRequestLine(line) == Some(RequestLine(m, target)) && line != "" && line[0] == m[0] && OneLine(line)
  {
    hide *;
    CapitalsExactly(m);
    var major, minor := Parts(line, m, target);
    var tail := target + Ending(major, minor);
    assert line == m + " " + tail;
    LineSplits(m, tail);
    Behind(target, Ending(major, minor));
    EndingIs(major, minor);
    LineTaken(line, m, target, tail);
    WholeLine(line, m, target, major, minor);
  }

  lemma Parts(line: string, m: string, target: string) returns (major: char, minor: char)
    requires AsksFor(line, m, target)
    ensures IsDigit(major) && IsDigit(minor) && line == m + " " + target + Ending(major, minor)
    ensures m != "" && ' ' !in m && NoSpace(target) && (forall k :: 0 <= k < |m| ==> 65 <= m[k] as int <= 90)
  {
    hide Ending, IsDigit;
    major, minor :| IsDigit(major) && IsDigit(minor) && line == m + " " + target + Ending(major, minor);
  }

  lemma LineTaken(line: string, m: string, target: string, tail: string)
    requires IndexOf(line, ' ') == Some(|m|) && line[..|m|] == m && line[|m| + 1..] == tail
    requires |tail| == |target| + 9 && tail[..|target|] == target && tail[|target|] == ' ' && Version(tail[|target| + 1..])
    requires AllUpper(m) && NoSpace(target)
    ensures ParseRequestLine(line) == Some(RequestLine(m, target))
  {
    NoSpaceSome(target);
    hide IndexOf, Version, AllUpper, NoSpace;
  }

  lemma WholeLine(line: string, m: string, target: string, major: char, minor: char)
    requires IsDigit(major) && IsDigit(minor) && line == m + " " + target + Ending(major, minor) && NoSpace(target)
    requires m != "" && forall k :: 0 <= k < |m| ==> 65 <= m[k] as int <= 90
    ensures line != "" && line[0] == m[0] && OneLine(line)
  {
    NoSpaceOneLine(target);
    assert OneLine(m) && OneLine(" ") && OneLine(Ending(major, minor));
    hide OneLine, Ending, NoSpace;
    OneLineConcat(m, " ");
    OneLineConcat(m + " ", target);
    OneLineConcat(m + " " + target, Ending(major, minor));
  }

  lemma LineRead(line: string, m: string, target: string)
    requires ParseRequestLine(line) == Some(RequestLine(m, target))
    ensures AsksFor(line, m, target)
  {
    var v := Apart(line, m, target);
    CapitalsExactly(m);
    VersionIs(v);
    hide ParseRequestLine, Version, AllUpper, Ending;
    assert line == m + " " + target + Ending(v[5], v[7]);
  }

  /** A line that is taken for a request is its parts. */
  lemma Apart(line: string, m: string, target: string) returns (v: string)
    requires ParseRequestLine(line) == Some(RequestLine(m, target))
    ensures Version(v) && AllUpper(m) && NoSpace(target) && line == m + " " + target + (" " + v)
  {
    hide Version, AllUpper, NoSpace;
    var at := IndexOf(line, ' ').value;
    var rest := line[at + 1..];
    var n := |rest| - 9;
    v := rest[n + 1..];
    hide IndexOf, ParseRequestLine;
    assert line == m + " " + rest && rest == target + (" " + v);
  }

  /** A line is taken for a request exactly when it is one, and for the one it is. */
  lemma RequestLineExactly(line: string, m: string, target: string)
    ensures ParseRequestLine(line) == Some(RequestLine(m, target)) <==> AsksFor(line, m, target)
  {
    hide *;
    if AsksFor(line, m, target) { LineWritten(line, m, target); }
    if ParseRequestLine(line) == Some(RequestLine(m, target)) { LineRead(line, m, target); }
  }

  // ------------------------------------------------------------- fields

  /** Of the values given under a name the last one counts. */
  ghost predicate Gives(headers: Headers, lines: seq<A.Line>) { forall name: string :: Given(headers, lines, name) }

  ghost predicate Given(headers: Headers, lines: seq<A.Line>, name: string) {
    var values := A.Named(lines, name);
    (name in headers <==> values != []) && (name in headers ==> headers[name] == values[|values| - 1])
  }

  /** What a line does to the fields. */
  function LineSet(h: Headers, l: A.Line): Headers { if l.Other? then h else h[Lower(l.name) := l.value] }

  lemma LineSets(h: Headers, l: A.Line)
    requires A.LineOk(l)
    ensures SetField(h, A.LineText(l)) == LineSet(h, l)
  {
    if l.Line? { A.LineParts(l); } else { A.NoColon(l.text); }
    hide A.LineOk, IndexOf, Trim, Lower;
  }

  lemma {:induction false} LinesSet(lines: seq<A.Line>)
    requires forall k :: 0 <= k < |lines| ==> A.LineOk(lines[k])
    ensures Gives(SetFields(map[], A.Texts(lines)), lines)
    decreases |lines|
  {
    if lines != [] {
      var n := |lines| - 1;
      hide SetField, A.LineText, A.Texts, Gives;
      LinesSet(lines[..n]);
      A.TextsMore(lines);
      LineSets(SetFields(map[], A.Texts(lines[..n])), lines[n]);
      GivesMore(SetFields(map[], A.Texts(lines[..n])), lines);
    }
  }

  lemma GivesMore(h: Headers, lines: seq<A.Line>)
    requires lines != [] && Gives(h, lines[..|lines| - 1])
    ensures Gives(LineSet(h, lines[|lines| - 1]), lines)
  {
    var front, l := lines[..|lines| - 1], lines[|lines| - 1];
    var next := LineSet(h, l);
    forall name: string ensures Given(next, lines, name) {
      assert Given(h, front, name);
      A.NamedMore(lines, name);
      hide Lower, A.Named, Gives;
    }
  }

  // ------------------------------------------------------------- the request

  datatype Question = Question(first: string, method_: string, target: string, lines: seq<A.Line>, eol: string)

  ghost predicate QuestionOk(q: Question) {
    AsksFor(q.first, q.method_, q.target) && LineEnd(q.eol) && forall k :: 0 <= k < |q.lines| ==> A.LineOk(q.lines[k])
  }

  function HeadBytes(js: Js, q: Question): Bytes {
    js.encode(JoinLines([q.first] + A.Texts(q.lines), q.eol) + q.eol + q.eol)
  }

  ghost predicate Says(p: Parser, q: Question) {
    p.method_ == q.method_ && p.target == q.target && Gives(p.headers, q.lines)
  }

  /** How much body the fields say; none when they say nothing. */
  function LengthGiven(js: Js, q: Question): Option<int> {
    var lengths := A.Named(q.lines, "content-length");
    if lengths == [] || lengths[|lengths| - 1] == "" then Some(0) else js.number(lengths[|lengths| - 1])
  }

  predicate LengthOk(js: Js, q: Question) { LengthGiven(js, q).Some? && LengthGiven(js, q).value >= 0 }

  lemma HeadWhole(q: Question)
    requires QuestionOk(q)
    ensures var lines := [q.first] + A.Texts(q.lines);
            Lines(lines) && lines[0][0] != '\U{FEFF}' && LineEnd(q.eol) && lines[1..] == A.Texts(q.lines)
    ensures ParseRequestLine(q.first) == Some(RequestLine(q.method_, q.target))
    ensures Gives(SetFields(map[], A.Texts(q.lines)), q.lines)
  {
    LineWritten(q.first, q.method_, q.target);
    assert q.method_[0] as int <= 90;
    hide AsksFor, ParseRequestLine, A.LineOk, SetFields, Gives, OneLine, A.Texts;
    A.AllTexts(q.lines);
    LinesSet(q.lines);
    A.WholeLines(q.first, A.Texts(q.lines));
  }

  lemma ParsedHead(js: Js, p: Parser, text: string, lines: seq<string>, headers: Headers, q: Question)
    requires lines != [] && SplitLines(text) == lines && ParseRequestLine(lines[0]) == Some(RequestLine(q.method_, q.target))
    requires p.headers == map[] && !p.done && SetFields(map[], lines[1..]) == headers && Gives(headers, q.lines)
    ensures var said := p.(method_ := q.method_, target := q.target, headers := headers);
            ParseHead(js, p, text) ==
              if !LengthOk(js, q) then said.(error := Some(BadLength))
              else
                var n := LengthGiven(js, q).value;
                said.(remaining := n, phase := if n > 0 then Body else Done, done := n == 0)
  {
    LengthFollows(js, headers, q);
    hide SplitLines, ParseRequestLine, SetFields, Gives, LengthOf, LengthGiven;
  }

  lemma LengthFollows(js: Js, headers: Headers, q: Question)
    requires Gives(headers, q.lines)
    ensures LengthOf(js, headers) == LengthGiven(js, q)
  {
    assert Given(headers, q.lines, "content-length");
    hide A.Named, Gives;
  }

  lemma SameIs(p: Parser, q: Parser)
    requires Same(p, q)
    ensures p.error == q.error && (q.error.None? ==> p.done == q.done)
    ensures q.error.None? && q.done ==> (p.method_, p.target, p.headers, p.body) == (q.method_, q.target, q.headers, q.body)
    ensures !Over(q) ==> p == q
  {
  }

  lemma SaysIs(p: Parser, q: Question)
    ensures Says(p, q) <==> p.method_ == q.method_ && p.target == q.target && Gives(p.headers, q.lines)
  {
    hide Gives;
  }

  lemma HeadBytesAre(js: Js, q: Question)
    ensures HeadBytes(js, q) == js.encode(JoinLines([q.first] + A.Texts(q.lines), q.eol) + q.eol + q.eol)
  {
    hide JoinLines, A.Texts;
  }

  /** What is left to do once the head has been read. */
  lemma PushedHead(js: Js, maxBody: nat, q: Question, rest: Bytes)
    requires js.Sound() && QuestionOk(q)
    ensures var r := Push(js, maxBody, FRESH, HeadBytes(js, q) + rest);
            if !LengthOk(js, q) then r.error == Some(BadLength)
            else
              var n := LengthGiven(js, q).value;
              exists headers ::
                && Gives(headers, q.lines)
                && var said := Parser(q.method_, q.target, headers, n == 0, None, rest, [], 0, n, if n > 0 then Body else Done);
                   r == if n > 0 then TakeBody(said, maxBody) else said
  {
    hide *;
    var lines := [q.first] + A.Texts(q.lines);
    HeadWhole(q);
    HeadFound(js, lines, q.eol, rest);
    SplitLinesBack(lines, q.eol);
    HeadBytesAre(js, q);
    var input := HeadBytes(js, q) + rest;
    var p := With(FRESH, input);
    FreshIs(input);
    var headers := SetFields(map[], lines[1..]);
    ParsedHead(js, p, JoinLines(lines, q.eol), lines, headers, q);
    RunHead(js, maxBody, p);
    PushFresh(js, maxBody, input);
    if LengthOk(js, q) { GivenIs(js, q); }
  }

  lemma GivenIs(js: Js, q: Question)
    requires LengthOk(js, q)
    ensures LengthGiven(js, q).Some? && LengthGiven(js, q).value >= 0
  {
    hide LengthGiven;
  }

  lemma PushFresh(js: Js, maxBody: nat, input: Bytes)
    ensures Push(js, maxBody, FRESH, input) == Run(js, maxBody, With(FRESH, input))
  {
    hide Run;
  }

  lemma RunHead(js: Js, maxBody: nat, p: Parser)
    requires p.phase.Head? && H.FindHead(p.buffer).Some?
    ensures var head := H.FindHead(p.buffer).value;
            var parsed := ParseHead(js, p, js.decode(p.buffer[..head.at]));
            var q := parsed.(buffer := p.buffer[head.at + head.length..]);
            Run(js, maxBody, p) ==
              if parsed.error.Some? then parsed else if parsed.phase.Body? then TakeBody(q, maxBody) else q
  {
    hide H.FindHead, ParseHead, TakeBody;
  }

  /**
   * A request however it is written and cut: over with the last byte of the body
   * its fields give, with its method, its target, its fields and exactly that
   * body; not before; and refused when the length is none or past the cap.
   */
  lemma RequestReads(js: Js, maxBody: nat, q: Question, rest: Bytes, pieces: seq<Bytes>)
    requires js.Sound() && QuestionOk(q) && H.Whole(pieces) == HeadBytes(js, q) + rest
    ensures var p := PushAll(js, maxBody, FRESH, pieces);
            if !LengthOk(js, q) then p.error == Some(BadLength)
            else
              var n := LengthGiven(js, q).value;
              if Min(n, |rest|) > maxBody then p.error == Some(TooLarge)
              else if |rest| >= n then p.done && p.error.None? && Says(p, q) && p.body == rest[..n]
              else !Over(p)
  {
    hide *;
    PushedHead(js, maxBody, q, rest);
    FragmentationIndependent(js, maxBody, pieces);
    var p, r := PushAll(js, maxBody, FRESH, pieces), Push(js, maxBody, FRESH, HeadBytes(js, q) + rest);
    SameIs(p, r);
    if LengthOk(js, q) {
      GivenIs(js, q);
      var n := LengthGiven(js, q).value;
      var headers :|
        && Gives(headers, q.lines)
        && var said := Parser(q.method_, q.target, headers, n == 0, None, rest, [], 0, n, if n > 0 then Body else Done);
           r == if n > 0 then TakeBody(said, maxBody) else said;
      BodyTaken(maxBody, Parser(q.method_, q.target, headers, n == 0, None, rest, [], 0, n, if n > 0 then Body else Done));
      OverIs(r);
      OverIs(p);
      SaysIs(p, q);
      SaysIs(r, q);
    }
  }

  lemma OverIs(p: Parser)
    ensures Over(p) <==> p.done || p.error.Some?
  {
  }

  lemma BodyTaken(maxBody: nat, p: Parser)
    requires p.error.None? && p.body == [] && p.length == 0 && p.done == (p.remaining == 0)
    ensures var r, n, rest := if p.remaining > 0 then TakeBody(p, maxBody) else p, p.remaining, p.buffer;
            && (Min(n, |rest|) > maxBody ==> r.error == Some(TooLarge))
            && (Min(n, |rest|) <= maxBody ==> r.error.None? && (r.done <==> |rest| >= n))
            && (r.error.None? && r.done ==>
                  r.body == rest[..n] && (r.method_, r.target, r.headers) == (p.method_, p.target, p.headers))
  {
  }

  /** A head that does not start with a request line is refused as it is. */
  lemma NoRequestRefused(js: Js, maxBody: nat, lines: seq<string>, eol: string, rest: Bytes, pieces: seq<Bytes>)
    requires js.Sound() && Lines(lines) && LineEnd(eol) && lines[0][0] != '\U{FEFF}'
    requires forall m: string, target: string :: !AsksFor(lines[0], m, target)
    requires H.Whole(pieces) == js.encode(JoinLines(lines, eol) + eol + eol) + rest
    ensures PushAll(js, maxBody, FRESH, pieces).error == Some(NotHttp)
  {
    hide *;
    SplitLinesBack(lines, eol);
    var input := js.encode(JoinLines(lines, eol) + eol + eol) + rest;
    HeadFound(js, lines, eol, rest);
    FreshIs(input);
    var first := ParseRequestLine(lines[0]);
    if first.Some? {
      var r := first.value;
      assert first == Some(RequestLine(r.method_, r.target));
      RequestLineExactly(lines[0], r.method_, r.target);
    }
    RefusedHead(js, With(FRESH, input), lines, JoinLines(lines, eol));
    RunHead(js, maxBody, With(FRESH, input));
    PushFresh(js, maxBody, input);
    FragmentationIndependent(js, maxBody, pieces);
    SameIs(PushAll(js, maxBody, FRESH, pieces), Push(js, maxBody, FRESH, input));
  }

  lemma RefusedHead(js: Js, p: Parser, lines: seq<string>, text: string)
    requires lines != [] && SplitLines(text) == lines && ParseRequestLine(lines[0]).None?
    ensures ParseHead(js, p, text).error == Some(NotHttp)
  {
    hide SplitLines, ParseRequestLine;
  }
}
