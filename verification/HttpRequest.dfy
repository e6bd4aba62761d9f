/**
 * The other direction (src/net/http.js): a request serialised, and the
 * incremental request parser that reads it back, however it was cut up.
 */
module HttpRequest {
  import opened Common
  import opened HttpText
  import H = Http
  import opened HttpSend

  datatype RequestError = NotHttp | BadLength | TooLarge

  datatype Phase = Head | Body | Done

  datatype Parser = Parser(
    method_: string, target: string, headers: Headers, done: bool, error: Option<RequestError>,
    buffer: Bytes, body: Bytes, length: nat, remaining: nat, phase: Phase)

  const FRESH := Parser("", "", map[], false, None, [], [], 0, 0, Head)

  predicate Over(p: Parser) { p.done || p.error.Some? }

  // ------------------------------------------------------------- the head

  datatype RequestLine = RequestLine(method_: string, target: string)

  predicate IsUpper(c: char) { 'A' <= c <= 'Z' }

  predicate AllUpper(s: string) { s != "" && forall k :: 0 <= k < |s| ==> IsUpper(s[k]) }

  predicate NoSpace(s: string) { s != "" && forall k :: 0 <= k < |s| ==> !Space(s[k]) }

  /** `HTTP/` and two digits with a dot between them. */
  predicate Version(s: string) {
    |s| == 8 && s[..5] == "HTTP/" && IsDigit(s[5]) && s[6] == '.' && IsDigit(s[7])
  }

  /** The method and the target, apart at the first space and before the version. */
  function ParseRequestLine(line: string): Option<RequestLine> {
    var at := IndexOf(line, ' ');
    if at.None? then None
    else
      var rest := line[at.value + 1..];
      if |rest| < 10 || rest[|rest| - 9] != ' ' || !Version(rest[|rest| - 8..]) then None
      else if !AllUpper(line[..at.value]) || !NoSpace(rest[..|rest| - 9]) then None
      else Some(RequestLine(line[..at.value], rest[..|rest| - 9]))
  }

  /** Here a repeated field replaces the one before. */
  function SetField(headers: Headers, line: string): Headers {
    var at := IndexOf(line, ':');
    if at.None? then headers else headers[Lower(Trim(line[..at.value])) := Trim(line[at.value + 1..])]
  }

  function SetFields(headers: Headers, lines: seq<string>): Headers
    decreases |lines|
  {
    if lines == [] then headers else SetField(SetFields(headers, lines[..|lines| - 1]), lines[|lines| - 1])
  }

  /** An absent or empty length is none at all. */
  function LengthOf(js: Js, headers: Headers): Option<int> {
    if "content-length" !in headers || headers["content-length"] == "" then Some(0) else js.number(headers["content-length"])
  }

  function ParseHead(js: Js, p: Parser, text: string): Parser {
    var lines := SplitLines(text);
    var first := ParseRequestLine(lines[0]);
    if first.None? then p.(error := Some(NotHttp))
    else
      var q := p.(method_ := first.value.method_, target := first.value.target, headers := SetFields(p.headers, lines[1..]));
      var length := LengthOf(js, q.headers);
      if length.None? || length.value < 0 then q.(error := Some(BadLength))
      else q.(remaining := length.value, phase := if length.value > 0 then Body else Done, done := q.done || length.value == 0)
  }

  // ------------------------------------------------------------- the parser

  function TakeBody(p: Parser, maxBody: nat): Parser {
    var take := if p.remaining < |p.buffer| then p.remaining else |p.buffer|;
    Taken(p, p.buffer[..take], p.buffer[take..], maxBody)
  }

  /** With these bytes of the body taken and the rest left in the buffer. */
  function Taken(p: Parser, bytes: Bytes, rest: Bytes, maxBody: nat): Parser
    requires |bytes| <= p.remaining
  {
    if bytes != [] && p.length + |bytes| > maxBody then p.(length := p.length + |bytes|, error := Some(TooLarge))
    else
      var r := p.(length := p.length + |bytes|, body := p.body + bytes, buffer := rest, remaining := p.remaining - |bytes|);
      if r.remaining == 0 then r.(done := true) else r
  }

  /** The head parsed, and cut off unless it was refused. */
  function Headed(js: Js, p: Parser, head: H.Break): Parser
    requires head.at + head.length <= |p.buffer|
  {
    var q := ParseHead(js, p, js.decode(p.buffer[..head.at]));
    if q.error.Some? then q else q.(buffer := p.buffer[head.at + head.length..])
  }

  function Run(js: Js, maxBody: nat, p: Parser): Parser {
    if p.phase.Head? then
      var head := H.FindHead(p.buffer);
      if head.None? then p
      else
        var q := Headed(js, p, head.value);
        if q.error.None? && q.phase.Body? then TakeBody(q, maxBody) else q
    else if p.phase.Body? then TakeBody(p, maxBody)
    else p
  }

  function Push(js: Js, maxBody: nat, p: Parser, bytes: Bytes): Parser {
    if Over(p) then p else Run(js, maxBody, p.(buffer := p.buffer + bytes))
  }

  function PushAll(js: Js, maxBody: nat, p: Parser, pieces: seq<Bytes>): Parser
    decreases |pieces|
  {
    if pieces == [] then p
    else Push(js, maxBody, PushAll(js, maxBody, p, pieces[..|pieces| - 1]), pieces[|pieces| - 1])
  }

  // ------------------------------------------------------------- however it was cut up

  function With(p: Parser, more: Bytes): Parser { p.(buffer := p.buffer + more) }

  /** The same failure, the same request, or, while neither is over, the same parser. */
  ghost predicate Same(p: Parser, q: Parser) {
    && p.error == q.error
    && (p.error.None? ==> p.done == q.done)
    && (p.error.None? && p.done ==>
          p.method_ == q.method_ && p.target == q.target && p.headers == q.headers && p.body == q.body)
    && (!Over(p) ==> p == q)
  }

  lemma ParseKeepsBuffer(js: Js, p: Parser, more: Bytes, text: string)
    ensures ParseHead(js, With(p, more), text) == With(ParseHead(js, p, text), more)
    ensures ParseHead(js, p, text).buffer == p.buffer && (ParseHead(js, p, text).phase.Body? ==> ParseHead(js, p, text).done == p.done)
  {
    hide SplitLines, ParseRequestLine, SetFields, LengthOf;
  }

  /** A body taken in two goes. */
  lemma BodyMore(js: Js, maxBody: nat, p: Parser, more: Bytes)
    requires !Over(p) && p.phase.Body?
    ensures Same(Push(js, maxBody, TakeBody(p, maxBody), more), TakeBody(With(p, more), maxBody))
  {
    if p.remaining <= |p.buffer| {  } else { BodyPart(js, maxBody, p, more); }
  }

  lemma BodyPart(js: Js, maxBody: nat, p: Parser, more: Bytes)
    requires !Over(p) && p.phase.Body? && p.remaining > |p.buffer|
    ensures Same(Push(js, maxBody, TakeBody(p, maxBody), more), TakeBody(With(p, more), maxBody))
  {
    var take := if p.remaining - |p.buffer| < |more| then p.remaining - |p.buffer| else |more|;
    var piece, rest := more[..take], more[take..];
    assert p.buffer == p.buffer + [] && p.buffer + more == p.buffer + piece + rest && more == piece + rest;
    var q := Taken(p, p.buffer, [], maxBody);
    TakenTwice(p, piece, rest, more, maxBody);
    if Over(q) {
      PushOver(js, maxBody, q, more);
      hide TakeBody, Taken, Push;
    } else {
      assert q.buffer + more == more;
      assert Push(js, maxBody, q, more) == TakeBody(With(q, more), maxBody);
      hide TakeBody, Taken, Push;
    }
  }

  lemma TakenTwice(p: Parser, piece: Bytes, rest: Bytes, more: Bytes, maxBody: nat)
    requires !Over(p) && p.phase.Body? && |p.buffer| < p.remaining && |p.buffer + piece| <= p.remaining
    ensures var q := Taken(p, p.buffer, [], maxBody);
            var once := Taken(With(p, more), p.buffer + piece, rest, maxBody);
            if Over(q) then Same(q, once) else Same(Taken(With(q, more), piece, rest, maxBody), once)
  {
    assert p.body + (p.buffer + piece) == p.body + p.buffer + piece;
  }

  lemma HeadedMore(js: Js, p: Parser, head: H.Break, more: Bytes)
    requires head.at + head.length <= |p.buffer|
    ensures Headed(js, With(p, more), head) == With(Headed(js, p, head), more)
  {
    var b := p.buffer + more;
    assert b[..head.at] == p.buffer[..head.at];
    assert b[head.at + head.length..] == p.buffer[head.at + head.length..] + more;
    ParseKeepsBuffer(js, p, more, js.decode(p.buffer[..head.at]));
    hide ParseHead;
  }

  lemma HeadedPhase(js: Js, p: Parser, head: H.Break)
    requires head.at + head.length <= |p.buffer| && p.error.None? && !p.done
    ensures var q := Headed(js, p, head); q.error.None? ==> !q.phase.Head? && (q.done <==> q.phase.Done?)
  {
    ParsedPhase(js, p, js.decode(p.buffer[..head.at]));
    hide ParseHead;
  }

  /** The head, once it is there, is read the same with more behind it. */
  lemma HeadMore(js: Js, maxBody: nat, p: Parser, more: Bytes)
    requires !Over(p) && p.phase.Head? && H.FindHead(p.buffer).Some?
    ensures Same(Push(js, maxBody, Run(js, maxBody, p), more), Run(js, maxBody, With(p, more)))
  {
    var head := H.FindHead(p.buffer).value;
    H.FindBlockStable(p.buffer, more, 0);
    HeadedMore(js, p, head, more);
    HeadedPhase(js, p, head);
    var q := Headed(js, p, head);
    assert H.FindHead(With(p, more).buffer) == Some(head);
    hide Headed, TakeBody, H.FindHead, Push;
    assert Run(js, maxBody, p) == if q.error.None? && q.phase.Body? then TakeBody(q, maxBody) else q;
    assert Run(js, maxBody, With(p, more)) == if q.error.None? && q.phase.Body? then TakeBody(With(q, more), maxBody) else With(q, more);
    hide Run;
    if q.error.None? && q.phase.Body? { BodyMore(js, maxBody, q, more); } else { PushOver(js, maxBody, q, more); }
  }

  lemma PushOver(js: Js, maxBody: nat, p: Parser, more: Bytes)
    requires p.done || p.error.Some?
    ensures Push(js, maxBody, p, more) == p
  {
  }

  lemma ParsedPhase(js: Js, p: Parser, text: string)
    requires p.error.None? && !p.done
    ensures var q := ParseHead(js, p, text); q.error.None? ==> !q.phase.Head? && (q.done <==> q.phase.Done?)
  {
    hide SplitLines, ParseRequestLine, SetFields, LengthOf;
  }

  lemma RunMore(js: Js, maxBody: nat, p: Parser, more: Bytes)
    requires !Over(p) && !p.phase.Done?
    ensures Same(Push(js, maxBody, Run(js, maxBody, p), more), Run(js, maxBody, With(p, more)))
  {
    if p.phase.Head? {
      if H.FindHead(p.buffer).Some? { HeadMore(js, maxBody, p, more); }
      hide H.FindHead, Headed, TakeBody;
    } else {
      BodyMore(js, maxBody, p, more);
      hide TakeBody;
    }
  }

  /** However the stream is cut into pieces, the request read is the one read from the whole: without exception. */
  lemma {:induction false} CutAnyhow(js: Js, maxBody: nat, p: Parser, pieces: seq<Bytes>)
    requires !Over(p) && !p.phase.Done? && Run(js, maxBody, p) == p
    ensures Same(PushAll(js, maxBody, p, pieces), Push(js, maxBody, p, H.Whole(pieces)))
    decreases |pieces|
  {
    if pieces == [] {
      assert With(p, []) == p by { assert p.buffer + [] == p.buffer; }
    } else {
      var front, last := pieces[..|pieces| - 1], pieces[|pieces| - 1];
      var early, all := H.Whole(front), H.Whole(pieces);
      assert With(With(p, early), last) == With(p, all) by { assert p.buffer + early + last == p.buffer + all; }
      hide Run, H.Whole;
      CutAnyhow(js, maxBody, p, front);
      RunMore(js, maxBody, With(p, early), last);
      var q, one := PushAll(js, maxBody, p, front), Push(js, maxBody, p, early);
      assert Same(Push(js, maxBody, one, last), Run(js, maxBody, With(p, all)));
    }
  }

  lemma FragmentationIndependent(js: Js, maxBody: nat, pieces: seq<Bytes>)
    ensures Same(PushAll(js, maxBody, FRESH, pieces), Push(js, maxBody, FRESH, H.Whole(pieces)))
  {
    assert Run(js, maxBody, FRESH) == FRESH;
    CutAnyhow(js, maxBody, FRESH, pieces);
  }

  // ------------------------------------------------------------- serialising

  function UpperChar(c: char): char { if 'a' <= c <= 'z' then (c as int - 32) as char else c }

  /** Upper case; only ASCII letters have one here. */
  function Upper(s: string): (r: string)
    ensures |r| == |s|
  {
    seq(|s|, k requires 0 <= k < |s| => UpperChar(s[k]))
  }

  function FirstLine(method_: string, path: string): string { Upper(method_) + " " + path + " HTTP/1.1" }

  function ExtraLines(fields: seq<Field>, host: string, payload: Option<Bytes>): seq<string> {
    (if "host" in SentNames(fields) then [] else [FieldLine("Host", host)])
    + (if "connection" in SentNames(fields) then [] else [FieldLine("Connection", "close")])
    + (if payload.None? || "content-length" in SentNames(fields) then [] else [FieldLine("Content-Length", Decimal(|payload.value|))])
  }

  function HeadLines(
      method_: string, path: string, fields: seq<Field>, host: string, payload: Option<Bytes>): seq<string>
  {
    [FirstLine(method_, path)] + FieldLines(fields) + ExtraLines(fields, host, payload)
  }

  function PayloadBytes(payload: Option<Bytes>): Bytes { if payload.None? then [] else payload.value }

  function RequestBytes(
      js: Js, method_: string, path: string, fields: seq<Field>, host: string, payload: Option<Bytes>): Bytes
  {
    js.encode(JoinLines(HeadLines(method_, path, fields, host, payload), "\r\n") + "\r\n\r\n") + PayloadBytes(payload)
  }

  method EncodeRequest(
      js: Js, method_: string, path: string, fields: seq<Field>, host: string, payload: Option<Bytes>)
      returns (out: Bytes)
    ensures out == RequestBytes(js, method_, path, fields, host, payload)
  {
    hide Decimal, Lower, JoinLines, Upper;
    var lines := [FirstLine(method_, path)];
    var sent: set<string> := {};
    for k := 0 to |fields|
      invariant lines == [FirstLine(method_, path)] + FieldLines(fields[..k])
      invariant sent == SentNames(fields[..k])
    {
      assert fields[..k + 1][..k] == fields[..k];
      var f := fields[k];
      if f.value.None? { continue; }
      sent := sent + {Lower(f.name)};
      lines := lines + [FieldLine(f.name, f.value.value)];
    }
    assert fields[..|fields|] == fields;
    ghost var given := lines;
    if "host" !in sent { lines := lines + [FieldLine("Host", host)]; }
    if "connection" !in sent { lines := lines + [FieldLine("Connection", "close")]; }
    if payload.Some? && "content-length" !in sent { lines := lines + [FieldLine("Content-Length", Decimal(|payload.value|))]; }
    assert lines == given + ExtraLines(fields, host, payload);
    assert lines == HeadLines(method_, path, fields, host, payload);
    var head := js.encode(JoinLines(lines, "\r\n") + "\r\n\r\n");
    if payload.None? {
      assert head + [] == head;
      return head;
    }
    return head + payload.value;
  }

  // ------------------------------------------------------------- reading it back

  predicate Letters(s: string) { s != "" && forall k :: 0 <= k < |s| ==> 'A' <= s[k] <= 'Z' || 'a' <= s[k] <= 'z' }

  /** A request the encoder can carry: a method of letters, a target without spaces, plain fields with distinct names. */
  predicate Sendable(method_: string, path: string, fields: seq<Field>, host: string, payload: Option<Bytes>) {
    && Letters(method_) && NoSpace(path) && WellFormed(fields) && Unframed(fields) && PlainValue(host)
    && (payload.Some? ==> |payload.value| < 0x20_0000_0000_0000)
  }

  /** The fields as a reader should find them. */
  function FoundAll(fields: seq<Field>, host: string, payload: Option<Bytes>): Headers {
    var h := if "host" in SentNames(fields) then Found(fields) else Found(fields)["host" := host];
    var k := if "connection" in SentNames(fields) then h else h["connection" := "close"];
    if payload.None? || "content-length" in SentNames(fields) then k else k["content-length" := Decimal(|payload.value|)]
  }

  lemma NoSpaceOneLine(s: string)
    requires NoSpace(s)
    ensures OneLine(s)
  {
    assert Space('\r') && Space('\n');
  }

  /** The request line that is sent is the one that is read. */
  lemma FirstLineReads(method_: string, path: string)
    requires Letters(method_) && NoSpace(path)
    ensures ParseRequestLine(FirstLine(method_, path)) == Some(RequestLine(Upper(method_), path))
    ensures FirstLine(method_, path) != "" && OneLine(FirstLine(method_, path)) && FirstLine(method_, path)[0] != '\U{FEFF}'
  {
    NoSpaceOneLine(path);
    var m := Upper(method_);
    hide Upper, NoSpace, Letters;
    LineParses(m, path);
    assert OneLine(" ") && OneLine(" HTTP/1.1");
    hide OneLine, ParseRequestLine;
    OneLineConcat(m, " ");
    OneLineConcat(m + " ", path);
    OneLineConcat(m + " " + path, " HTTP/1.1");
    assert IsUpper(m[0]);
  }

  lemma VersionReads()
    ensures Version("HTTP/1.1") && |" HTTP/1.1"| == 9 && " HTTP/1.1"[0] == ' ' && " HTTP/1.1"[1..] == "HTTP/1.1"
  {
  }

  lemma LineParses(m: string, path: string)
    requires AllUpper(m) && ' ' !in m && NoSpace(path)
    ensures ParseRequestLine(m + " " + path + " HTTP/1.1") == Some(RequestLine(m, path))
  {
    VersionReads();
    NoSpaceSome(path);
    LineSplits(m, path + " HTTP/1.1");
    TailSplits(path);
    hide Version, AllUpper, NoSpace, IndexOf;
    assert m + " " + path + " HTTP/1.1" == m + " " + (path + " HTTP/1.1");
  }

  lemma LineSplits(m: string, tail: string)
    requires ' ' !in m
    ensures var line := m + " " + tail;
            IndexOf(line, ' ') == Some(|m|) && line[..|m|] == m && line[|m| + 1..] == tail
  {
    var line := m + " " + tail;
    assert forall k :: 0 <= k < |m| ==> line[k] == m[k] && m[k] in m;
    IndexOfIs(line, ' ', |m|);
  }

  lemma TailSplits(path: string)
    ensures var tail := path + " HTTP/1.1";
            && |tail| == |path| + 9 && tail[..|tail| - 9] == path && tail[|tail| - 9] == ' '
            && tail[|tail| - 8..] == "HTTP/1.1"
  {
    var v: string := " HTTP/1.1";
    assert |v| == 9 && v[0] == ' ' && v[1..] == "HTTP/1.1";
    Behind(path, v);
  }

  lemma Behind(a: string, b: string)
    requires b != []
    ensures (a + b)[..|a|] == a && (a + b)[|a|] == b[0] && (a + b)[|a| + 1..] == b[1..]
  {
  }

  lemma NoSpaceSome(s: string)
    requires NoSpace(s)
    ensures s != ""
  {
  }

  lemma FieldSets(h: Headers, name: string, value: string)
    requires PlainName(name) && PlainValue(value)
    ensures SetField(h, FieldLine(name, value)) == h[Lower(name) := value]
  {
    var line := FieldLine(name, value);
    assert forall k :: 0 <= k < |name| ==> line[k] == name[k] && name[k] in name;
    IndexOfIs(line, ':', |name|);
    assert line[..|name|] == name && line[|name| + 1..] == " " + value;
    hide IndexOf, Trim, OneLine, Space;
    TrimPlain(name);
    TrimPlain(value);
  }

  lemma {:induction false} FieldsSet(fields: seq<Field>)
    requires WellFormed(fields)
    ensures SetFields(map[], FieldLines(fields)) == Found(fields)
    decreases |fields|
  {
    if fields != [] {
      var n := |fields| - 1;
      var f := fields[n];
      WellFormedFront(fields);
      FieldsUnfold(fields);
      hide FieldLine, FieldLines, Found, SentNames, Lower, PlainName, PlainValue, WellFormed, SetField;
      FieldsSet(fields[..n]);
      if f.value.Some? { FieldSets(Found(fields[..n]), f.name, f.value.value); }
    }
  }

  /** One more line of our own, unless the caller sent it. */
  lemma ExtraSets(h: Headers, lines: seq<string>, name: string, lower: string, value: string)
    requires PlainName(name) && PlainValue(value) && Lower(name) == lower
    ensures SetFields(h, lines + [FieldLine(name, value)]) == SetFields(h, lines)[lower := value]
  {
    hide FieldLine, Lower, PlainName, PlainValue;
    FieldSets(SetFields(h, lines), name, value);
  }

  /** The head's lines with our own Host, and with our own Connection as well. */
  function WithHost(fields: seq<Field>, host: string): seq<string> {
    if "host" in SentNames(fields) then FieldLines(fields) else FieldLines(fields) + [FieldLine("Host", host)]
  }

  function WithConnection(fields: seq<Field>, host: string): seq<string> {
    if "connection" in SentNames(fields) then WithHost(fields, host) else WithHost(fields, host) + [FieldLine("Connection", "close")]
  }

  lemma ExtraIs(fields: seq<Field>, host: string, payload: Option<Bytes>)
    ensures FieldLines(fields) + ExtraLines(fields, host, payload) ==
              if payload.None? || "content-length" in SentNames(fields) then WithConnection(fields, host)
              else WithConnection(fields, host) + [FieldLine("Content-Length", Decimal(|payload.value|))]
  {
    hide FieldLine, FieldLines, SentNames, Decimal;
  }

  lemma HostReads(fields: seq<Field>, host: string)
    requires WellFormed(fields) && PlainValue(host)
    ensures SetFields(map[], WithHost(fields, host)) == if "host" in SentNames(fields) then Found(fields) else Found(fields)["host" := host]
  {
    FieldsSet(fields);
    OwnHost();
    hide FieldLine, Lower, PlainName, PlainValue, FieldLines, SentNames, Found, SetFields, WellFormed;
    if "host" !in SentNames(fields) { ExtraSets(map[], FieldLines(fields), "Host", "host", host); }
  }

  lemma OwnHost()
    ensures Lower("Host") == "host" && PlainName("Host")
  {
  }

  lemma ConnectionReads(fields: seq<Field>, host: string)
    requires WellFormed(fields) && PlainValue(host)
    ensures SetFields(map[], WithConnection(fields, host)) == FoundAll(fields, host, None)
  {
    HostReads(fields, host);
    OwnNames();
    hide FieldLine, Lower, PlainName, PlainValue, FieldLines, SentNames, Found, SetFields, WellFormed, WithHost;
    if "connection" !in SentNames(fields) { ExtraSets(map[], WithHost(fields, host), "Connection", "connection", "close"); }
  }

  /** Every field sent is read back, the caller's for our own where there are any, and nothing else. */
  lemma HeadReads(fields: seq<Field>, host: string, payload: Option<Bytes>)
    requires WellFormed(fields) && PlainValue(host)
    ensures SetFields(map[], FieldLines(fields) + ExtraLines(fields, host, payload)) == FoundAll(fields, host, payload)
  {
    ExtraIs(fields, host, payload);
    ConnectionReads(fields, host);
    OwnNames();
    hide FieldLine, Lower, PlainName, PlainValue, FieldLines, SentNames, Found, SetFields, WellFormed, WithConnection,
         ExtraLines, Decimal;
    if payload.Some? && "content-length" !in SentNames(fields) {
      DecimalPlain(|payload.value|);
      ExtraSets(map[], WithConnection(fields, host), "Content-Length", "content-length", Decimal(|payload.value|));
    }
  }

  lemma HeadLinesWhole(method_: string, path: string, fields: seq<Field>, host: string, payload: Option<Bytes>)
    requires Sendable(method_, path, fields, host, payload)
    ensures var lines := HeadLines(method_, path, fields, host, payload);
            Lines(lines) && lines[0] == FirstLine(method_, path) && lines[1..] == FieldLines(fields) + ExtraLines(fields, host, payload)
  {
    FirstLineReads(method_, path);
    FieldLinesWhole(fields);
    OwnNames();
    FieldLineWhole("Host", host);
    FieldLineWhole("Connection", "close");
    if payload.Some? {
      DecimalPlain(|payload.value|);
      FieldLineWhole("Content-Length", Decimal(|payload.value|));
    }
    AllLines(FirstLine(method_, path), FieldLines(fields), ExtraLines(fields, host, payload));
    HeadIs(method_, path, fields, host, payload);
  }

  lemma AllLines(first: string, a: seq<string>, b: seq<string>)
    requires first != "" && OneLine(first)
    requires forall k :: 0 <= k < |a| ==> a[k] != "" && OneLine(a[k])
    requires forall k :: 0 <= k < |b| ==> b[k] != "" && OneLine(b[k])
    ensures Lines([first] + a + b)
  {
    hide OneLine;
  }

  lemma HeadIs(method_: string, path: string, fields: seq<Field>, host: string, payload: Option<Bytes>)
    ensures var lines := HeadLines(method_, path, fields, host, payload);
            && lines == [FirstLine(method_, path)] + FieldLines(fields) + ExtraLines(fields, host, payload)
            && lines[0] == FirstLine(method_, path) && lines[1..] == FieldLines(fields) + ExtraLines(fields, host, payload)
  {
    hide FirstLine, FieldLines, ExtraLines;
  }

  lemma LengthFound(js: Js, fields: seq<Field>, host: string, payload: Option<Bytes>)
    requires js.Sound() && WellFormed(fields) && Unframed(fields) && (payload.Some? ==> |payload.value| < 0x20_0000_0000_0000)
    ensures LengthOf(js, FoundAll(fields, host, payload)) == Some(|PayloadBytes(payload)|)
  {
    FieldsRead(fields);
    hide Decimal, Found, SentNames, WellFormed, AddFields, FieldLines;
    if payload.Some? { assert js.number(Decimal(|payload.value|)) == Some(|payload.value|); }
  }

  /** The head as the parser takes it: the body, if any, is what remains. */
  lemma HeadParses(
      js: Js, p: Parser, method_: string, path: string, fields: seq<Field>, host: string, payload: Option<Bytes>)
    requires js.Sound() && Sendable(method_, path, fields, host, payload) && p.headers == map[] && !p.done
    ensures var n := |PayloadBytes(payload)|;
            ParseHead(js, p, JoinLines(HeadLines(method_, path, fields, host, payload), "\r\n")) ==
              p.(method_ := Upper(method_), target := path, headers := FoundAll(fields, host, payload),
                 remaining := n, phase := if n > 0 then Body else Done, done := n == 0)
  {
    var lines := HeadLines(method_, path, fields, host, payload);
    HeadLinesWhole(method_, path, fields, host, payload);
    SplitLinesBack(lines, "\r\n");
    FirstLineReads(method_, path);
    HeadReads(fields, host, payload);
    LengthFound(js, fields, host, payload);
    hide HeadLines, JoinLines, SplitLines, ParseRequestLine, SetFields, LengthOf, FoundAll, Upper, PayloadBytes,
         Lines, FirstLine, FieldLines, ExtraLines, Js.Sound, WellFormed, OneLine;
  }

  /**
   * A request that was serialised is read back as it was sent, in whatever
   * pieces it arrives; past the cap it is refused.
   */
  lemma RequestReadsBack(
      js: Js, maxBody: nat, method_: string, path: string, fields: seq<Field>, host: string, payload: Option<Bytes>, pieces: seq<Bytes>)
    requires js.Sound() && Sendable(method_, path, fields, host, payload)
    requires H.Whole(pieces) == RequestBytes(js, method_, path, fields, host, payload)
    ensures var p := PushAll(js, maxBody, FRESH, pieces);
            if |PayloadBytes(payload)| > maxBody then p.error == Some(TooLarge)
            else p.error.None? && p.done && p.method_ == Upper(method_) && p.target == path
                 && p.headers == FoundAll(fields, host, payload) && p.body == PayloadBytes(payload)
  {
    hide *;
    var lines, body := HeadLines(method_, path, fields, host, payload), PayloadBytes(payload);
    HeadLinesWhole(method_, path, fields, host, payload);
    FirstWhole(method_, path, fields, host, payload);
    SentHeadFound(js, lines, body);
    SentBytesAre(js, method_, path, fields, host, payload);
    var input := H.Whole(pieces);
    var p := With(FRESH, input);
    FreshIs(input);
    HeadParses(js, p, method_, path, fields, host, payload);
    BodyReads(js, maxBody, p, body);
    FragmentationIndependent(js, maxBody, pieces);
    SameRead(js, maxBody, PushAll(js, maxBody, FRESH, pieces), input);
  }

  lemma FirstWhole(method_: string, path: string, fields: seq<Field>, host: string, payload: Option<Bytes>)
    requires Sendable(method_, path, fields, host, payload)
    ensures var line := FirstLine(method_, path); line != "" && line[0] != '\U{FEFF}'
  {
    FirstLineReads(method_, path);
    hide FirstLine, OneLine, Letters, NoSpace;
  }

  lemma SentBytesAre(js: Js, method_: string, path: string, fields: seq<Field>, host: string, payload: Option<Bytes>)
    ensures HeadLines(method_, path, fields, host, payload) != []
    ensures RequestBytes(js, method_, path, fields, host, payload) ==
              js.encode(JoinLines(HeadLines(method_, path, fields, host, payload), "\r\n") + "\r\n\r\n") + PayloadBytes(payload)
  {
    hide JoinLines, PayloadBytes, FieldLines, ExtraLines, FirstLine;
  }

  lemma FreshIs(input: Bytes)
    ensures With(FRESH, input) == Parser("", "", map[], false, None, input, [], 0, 0, Head) && !Over(With(FRESH, input))
  {
    assert [] + input == input;
  }

  lemma SameRead(js: Js, maxBody: nat, p: Parser, input: Bytes)
    requires Same(p, Push(js, maxBody, FRESH, input))
    ensures var r := Run(js, maxBody, With(FRESH, input));
            && p.error == r.error
            && (r.error.None? && r.done ==>
                  p.done && (p.method_, p.target, p.headers, p.body) == (r.method_, r.target, r.headers, r.body))
  {
    hide Run;
  }

  /** After a head that says how much follows, exactly that much. */
  lemma BodyReads(js: Js, maxBody: nat, p: Parser, body: Bytes)
    requires !Over(p) && p.phase.Head? && p.body == [] && p.length == 0
    requires H.FindHead(p.buffer).Some?
    requires var head := H.FindHead(p.buffer).value;
             var q := ParseHead(js, p, js.decode(p.buffer[..head.at]));
             && p.buffer[head.at + head.length..] == body && q.error.None? && q.remaining == |body| && q.body == [] && q.length == 0
             && q.phase == (if |body| > 0 then Body else Done) && q.done == (|body| == 0)
    ensures var head := H.FindHead(p.buffer).value;
            var q, r := ParseHead(js, p, js.decode(p.buffer[..head.at])), Run(js, maxBody, p);
            if |body| > maxBody then r.error == Some(TooLarge)
            else r.error.None? && r.done && r.body == body && (r.method_, r.target, r.headers) == (q.method_, q.target, q.headers)
  {
    var head := H.FindHead(p.buffer).value;
    var q := Headed(js, p, head);
    assert q == ParseHead(js, p, js.decode(p.buffer[..head.at])).(buffer := body);
    assert body + [] == body && [] + body == body;
    hide ParseHead, H.FindHead, TakeBody, Headed;
  }
}
