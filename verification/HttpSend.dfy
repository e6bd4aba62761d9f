/**
 * Serialising a response (src/net/http.js, `encodeResponse`), and reading it
 * back with the response parser.
 */
module HttpSend {
  import opened Common
  import opened HttpText
  import opened Http

  /** A header as the caller gave it; one without a value is not sent. */
  datatype Field = Field(name: string, value: Option<string>)

  function ReasonFor(status: nat): string {
    match status
    case 200 => "OK"
    case 201 => "Created"
    case 204 => "No Content"
    case 400 => "Bad Request"
    case 404 => "Not Found"
    case 405 => "Method Not Allowed"
    case 500 => "Internal Server Error"
    case _ => ""
  }

  function ReasonText(status: nat, statusText: string): string {
    if statusText != "" then statusText else ReasonFor(status)
  }

  function FirstLine(status: nat, statusText: string): string {
    "HTTP/1.1 " + Decimal(status) + " " + ReasonText(status, statusText)
  }

  function FieldLine(name: string, value: string): string { name + ": " + value }

  function FieldLines(fields: seq<Field>): seq<string>
    decreases |fields|
  {
    if fields == [] then []
    else
      var f := fields[|fields| - 1];
      FieldLines(fields[..|fields| - 1]) + if f.value.None? then [] else [FieldLine(f.name, f.value.value)]
  }

  /** The names sent, in lower case. */
  function SentNames(fields: seq<Field>): set<string>
    decreases |fields|
  {
    if fields == [] then {}
    else
      var f := fields[|fields| - 1];
      SentNames(fields[..|fields| - 1]) + if f.value.None? then {} else {Lower(f.name)}
  }

  function HeadLines(status: nat, statusText: string, fields: seq<Field>, length: nat): seq<string> {
    [FirstLine(status, statusText)] + FieldLines(fields)
    + (if "content-length" in SentNames(fields) then [] else [FieldLine("Content-Length", Decimal(length))])
    + (if "connection" in SentNames(fields) then [] else [FieldLine("Connection", "close")])
  }

  function ResponseBytes(js: Js, status: nat, statusText: string, fields: seq<Field>, payload: Bytes): Bytes {
    js.encode(JoinLines(HeadLines(status, statusText, fields, |payload|), "\r\n") + "\r\n\r\n") + payload
  }

  /** The lines collected one by one, then joined and put in front of the payload. */
  method EncodeResponse(
      js: Js, status: nat, statusText: string, fields: seq<Field>, payload: Bytes) returns (out: Bytes)
    ensures out == ResponseBytes(js, status, statusText, fields, payload)
  {
    hide Decimal, Lower, JoinLines;
    var lines := [FirstLine(status, statusText)];
    var sent: set<string> := {};
    for k := 0 to |fields|
      invariant lines == [FirstLine(status, statusText)] + FieldLines(fields[..k])
      invariant sent == SentNames(fields[..k])
    {
      assert fields[..k + 1][..k] == fields[..k];
      var f := fields[k];
      if f.value.None? { continue; }
      sent := sent + {Lower(f.name)};
      lines := lines + [FieldLine(f.name, f.value.value)];
    }
    assert fields[..|fields|] == fields;
    if "content-length" !in sent { lines := lines + [FieldLine("Content-Length", Decimal(|payload|))]; }
    if "connection" !in sent { lines := lines + [FieldLine("Connection", "close")]; }
    assert lines == HeadLines(status, statusText, fields, |payload|);
    return js.encode(JoinLines(lines, "\r\n") + "\r\n\r\n") + payload;
  }

  // ------------------------------------------------------------- the head in bytes

  predicate NoBreaks(b: Bytes) { forall k :: 0 <= k < |b| ==> b[k] != CR && b[k] != LF }

  lemma CharBytes(js: Js, c: char)
    requires js.Sound() && c != '\r' && c != '\n'
    ensures NoBreaks(js.encode([c])) && js.encode([c]) != []
  {
    if c as int >= 128 {
      assert High(js.encode([c]));
    } else {
      assert js.encode([c]) == [c as int as byte];
      assert '\r' as int == 13 && '\n' as int == 10;
    }
  }

  /** A line's bytes break no line. */
  lemma {:induction false} LineBytes(js: Js, s: string)
    requires js.Sound() && OneLine(s)
    ensures NoBreaks(js.encode(s)) && (s != "" ==> js.encode(s) != [])
  {
    if s != "" {
      assert s == [s[0]] + s[1..];
      assert js.encode(s) == js.encode([s[0]]) + js.encode(s[1..]);
      assert s[0] in s;
      CharBytes(js, s[0]);
      assert OneLine(s[1..]) by { assert forall c :: c in s[1..] ==> c in s; }
      LineBytes(js, s[1..]);
    }
  }

  lemma BreakBytes(js: Js)
    requires js.Sound()
    ensures js.encode("\r\n") == CRLF && js.encode("\n") == [LF]
  {
    var r, n: string := ['\r'], ['\n'];
    assert '\r' as int == 13 && '\n' as int == 10;
    assert js.encode(r) == [CR] && js.encode(n) == [LF];
    assert "\r\n" == r + n && "\n" == n;
    assert js.encode("\r\n") == js.encode(r) + js.encode(n);
  }

  ghost predicate Lines(lines: seq<string>) {
    lines != [] && forall k :: 0 <= k < |lines| ==> lines[k] != "" && OneLine(lines[k])
  }

  /** A blank line in bytes, in either convention. */
  function Blank(eol: string): Bytes { if eol == "\r\n" then CRLF + CRLF else [LF, LF] }

  /** No blank line inside the joined lines, whatever follows the blank line after them. */
  lemma {:induction false} NoBlankInside(js: Js, lines: seq<string>, eol: string, payload: Bytes, i: nat)
    requires js.Sound() && Lines(lines) && LineEnd(eol) && i < |js.encode(JoinLines(lines, eol))|
    ensures BlockBreakAt(js.encode(JoinLines(lines, eol)) + (Blank(eol) + payload), i).None?
    decreases |lines|
  {
    var first, more := js.encode(lines[0]), lines[1..];
    LineBytes(js, lines[0]);
    assert |lines| == 1 ==> JoinLines(lines, eol) == lines[0];
    assert more != [] ==> Lines(more);
    hide *;
    if |lines| == 1 {
      EndsPlainly(first, eol, payload, i);
    } else {
      EncodedLines(js, lines, eol);
      var rest, e, end := js.encode(JoinLines(more, eol)), js.encode(eol), Blank(eol) + payload;
      StartsPlainly(js, more, eol);
      assert first + e + rest + end == first + e + (rest + end);
      if i >= |first| + |e| {
        NoBlankInside(js, more, eol, payload, i - |first| - |e|);
        BreakShifts(first + e, rest + end, i - |first| - |e|);
      } else {
        NotAtBreak(first, e, rest + end, i);
      }
    }
  }

  /** Inside a line and at the one line break behind it no blank line starts. */
  lemma NotAtBreak(first: Bytes, e: Bytes, rest: Bytes, i: nat)
    requires NoBreaks(first) && (e == CRLF || e == [LF]) && rest != [] && rest[0] != CR && rest[0] != LF && i < |first| + |e|
    ensures BlockBreakAt(first + e + rest, i).None?
  {
    assert (first + e + rest)[|first| + |e|] == rest[0];
  }

  lemma EndsPlainly(first: Bytes, eol: string, payload: Bytes, i: nat)
    requires NoBreaks(first) && LineEnd(eol) && i < |first|
    ensures BlockBreakAt(first + (Blank(eol) + payload), i).None?
  {
  }

  lemma EncodedLines(js: Js, lines: seq<string>, eol: string)
    requires js.Sound() && |lines| > 1 && LineEnd(eol)
    ensures js.encode(JoinLines(lines, eol)) == js.encode(lines[0]) + js.encode(eol) + js.encode(JoinLines(lines[1..], eol))
    ensures js.encode(eol) == CRLF || js.encode(eol) == [LF]
  {
    BreakBytes(js);
    assert JoinLines(lines, eol) == lines[0] + eol + JoinLines(lines[1..], eol);
    hide JoinLines;
    assert js.encode(lines[0] + eol) == js.encode(lines[0]) + js.encode(eol);
  }

  lemma BreakShifts(a: Bytes, b: Bytes, i: nat)
    ensures BlockBreakAt(a + b, |a| + i) == BlockBreakAt(b, i)
  {
    assert forall k: nat :: k < |b| ==> (a + b)[|a| + k] == b[k];
  }

  lemma StartsPlainly(js: Js, lines: seq<string>, eol: string)
    requires js.Sound() && Lines(lines)
    ensures var b := js.encode(JoinLines(lines, eol)); b != [] && b[0] != CR && b[0] != LF
  {
    LineBytes(js, lines[0]);
    var first := js.encode(lines[0]);
    if |lines| > 1 {
      assert JoinLines(lines, eol) == lines[0] + (eol + JoinLines(lines[1..], eol));
      assert js.encode(JoinLines(lines, eol)) == first + js.encode(eol + JoinLines(lines[1..], eol));
    }
    assert first[0] == js.encode(JoinLines(lines, eol))[0];
  }

  lemma {:induction false} FindBlockIs(b: Bytes, from: nat, n: nat, length: nat)
    requires from <= n < |b| && BlockBreakAt(b, n) == Some(length)
    requires forall i: nat :: from <= i < n ==> BlockBreakAt(b, i).None?
    ensures FindBlock(b, from) == Some(Break(n, length))
    decreases n - from
  {
    if from < n { FindBlockIs(b, from + 1, n, length); }
  }

  lemma BlankBytes(js: Js, text: string, eol: string)
    requires js.Sound() && LineEnd(eol)
    ensures js.encode(text + eol + eol) == js.encode(text) + Blank(eol) && |Blank(eol)| == 2 * |eol| > 0
  {
    BreakBytes(js);
    assert js.encode(text + eol) == js.encode(text) + js.encode(eol);
  }

  /** The head is found at its end, and is the joined lines. */
  lemma HeadFound(js: Js, lines: seq<string>, eol: string, payload: Bytes)
    requires js.Sound() && Lines(lines) && LineEnd(eol) && lines[0][0] != '\U{FEFF}'
    ensures var b := js.encode(JoinLines(lines, eol) + eol + eol) + payload;
            var n := |js.encode(JoinLines(lines, eol))|;
            && FindHead(b) == Some(Break(n, 2 * |eol|)) && n + 2 * |eol| <= |b|
            && js.decode(b[..n]) == JoinLines(lines, eol) && b[n + 2 * |eol|..] == payload
  {
    hide *;
    LinesAre(lines);
    var text := JoinLines(lines, eol);
    var e := js.encode(text);
    BlankBytes(js, text, eol);
    Decoded(js, lines, eol);
    NoneInside(js, lines, eol, payload);
    BlankBreaks(e, eol, payload);
    var b := js.encode(text + eol + eol) + payload;
    assert b == e + (Blank(eol) + payload) && b[..|e|] == e;
    FindBlockIs(b, 0, |e|, 2 * |eol|);
    HeadIsBlock(b);
  }

  lemma LinesAre(lines: seq<string>)
    requires Lines(lines)
    ensures lines != [] && lines[0] != ""
  {
  }

  lemma HeadIsBlock(b: Bytes)
    ensures FindHead(b) == FindBlock(b, 0)
  {
    hide FindBlock;
  }

  lemma NoneInside(js: Js, lines: seq<string>, eol: string, payload: Bytes)
    requires js.Sound() && Lines(lines) && LineEnd(eol)
    ensures var e := js.encode(JoinLines(lines, eol));
            forall i: nat :: i < |e| ==> BlockBreakAt(e + (Blank(eol) + payload), i).None?
  {
    hide *;
    LinesAre(lines);
    var e := js.encode(JoinLines(lines, eol));
    forall i: nat | i < |e| ensures BlockBreakAt(e + (Blank(eol) + payload), i).None? {
      NoBlankInside(js, lines, eol, payload, i);
    }
  }

  lemma Decoded(js: Js, lines: seq<string>, eol: string)
    requires js.Sound() && Lines(lines) && lines[0][0] != '\U{FEFF}'
    ensures js.decode(js.encode(JoinLines(lines, eol))) == JoinLines(lines, eol)
  {
    assert JoinLines(lines, eol) != "" && JoinLines(lines, eol)[0] == lines[0][0];
  }

  lemma BlankBreaks(e: Bytes, eol: string, payload: Bytes)
    requires LineEnd(eol)
    ensures BlockBreakAt(e + (Blank(eol) + payload), |e|) == Some(2 * |eol|)
  {
    BreakShifts(e, Blank(eol) + payload, 0);
  }

  /** The head as it is sent. */
  lemma SentHeadFound(js: Js, lines: seq<string>, payload: Bytes)
    requires js.Sound() && Lines(lines) && lines[0][0] != '\U{FEFF}'
    ensures var b := js.encode(JoinLines(lines, "\r\n") + "\r\n\r\n") + payload;
            var n := |js.encode(JoinLines(lines, "\r\n"))|;
            && FindHead(b) == Some(Break(n, 4)) && n + 4 <= |b|
            && js.decode(b[..n]) == JoinLines(lines, "\r\n") && b[n + 4..] == payload
  {
    HeadFound(js, lines, "\r\n", payload);
    assert JoinLines(lines, "\r\n") + "\r\n" + "\r\n" == JoinLines(lines, "\r\n") + "\r\n\r\n";
    hide Js.Sound, JoinLines, FindHead, Lines;
  }

  // ------------------------------------------------------------- reading it back

  predicate PlainName(name: string) { ':' !in name && OneLine(name) && Trimmed(name) }

  predicate PlainValue(value: string) { OneLine(value) && Trimmed(value) }

  /** A field that can be sent as it is. */
  predicate PlainField(f: Field) { f.value.Some? ==> PlainName(f.name) && PlainValue(f.value.value) }

  /** No field of the caller's decides the framing. */
  predicate Unframed(fields: seq<Field>) { "content-length" !in SentNames(fields) && "transfer-encoding" !in SentNames(fields) }

  predicate WellFormed(fields: seq<Field>) {
    && (forall k :: 0 <= k < |fields| ==> PlainField(fields[k]))
    && (forall j, k :: 0 <= j < k < |fields| && fields[j].value.Some? && fields[k].value.Some? ==> Lower(fields[j].name) != Lower(fields[k].name))
  }

  /** The fields as a reader should find them. */
  function Found(fields: seq<Field>): Headers
    decreases |fields|
  {
    if fields == [] then map[]
    else
      var f := fields[|fields| - 1];
      var before := Found(fields[..|fields| - 1]);
      if f.value.None? then before else before[Lower(f.name) := f.value.value]
  }

  function FoundAll(fields: seq<Field>, length: nat): Headers {
    var h := if "content-length" in SentNames(fields) then Found(fields) else Found(fields)["content-length" := Decimal(length)];
    if "connection" in SentNames(fields) then h else h["connection" := "close"]
  }

  lemma TrimPlain(s: string)
    requires Trimmed(s)
    ensures Trim(s) == s && Trim(" " + s) == s
  {
    assert (" " + s)[1..] == s;
    assert TrimStart(" " + s) == TrimStart(s);
  }

  lemma FieldReads(h: Headers, name: string, value: string)
    requires PlainName(name) && PlainValue(value) && Lower(name) !in h
    ensures AddField(h, FieldLine(name, value)) == h[Lower(name) := value]
  {
    var line := FieldLine(name, value);
    assert forall k :: 0 <= k < |name| ==> line[k] == name[k] && name[k] in name;
    IndexOfIs(line, ':', |name|);
    assert line[..|name|] == name && line[|name| + 1..] == " " + value;
    hide IndexOf, Trim, OneLine, Space;
    TrimPlain(name);
    TrimPlain(value);
  }

  lemma AddFieldsNext(h: Headers, lines: seq<string>, line: string)
    ensures AddFields(h, lines + [line]) == AddField(AddFields(h, lines), line)
  {
    assert (lines + [line])[..|lines|] == lines;
  }

  lemma {:induction false} SentIs(fields: seq<Field>, name: string)
    requires name in SentNames(fields)
    ensures exists k :: 0 <= k < |fields| && fields[k].value.Some? && Lower(fields[k].name) == name
    decreases |fields|
  {
    var n := |fields| - 1;
    if fields[n].value.None? || Lower(fields[n].name) != name {
      SentIs(fields[..n], name);
      var k :| 0 <= k < n && fields[..n][k].value.Some? && Lower(fields[..n][k].name) == name;
      assert fields[k].value.Some? && Lower(fields[k].name) == name;
    }
  }

  lemma {:induction false} FieldsRead(fields: seq<Field>)
    requires WellFormed(fields)
    ensures AddFields(map[], FieldLines(fields)) == Found(fields) && Found(fields).Keys == SentNames(fields)
    decreases |fields|
  {
    if fields != [] {
      var n := |fields| - 1;
      var f := fields[n];
      WellFormedFront(fields);
      FieldsUnfold(fields);
      hide *;
      FieldsRead(fields[..n]);
      if f.value.Some? {
        NotSentYet(fields);
        AddFieldsNext(map[], FieldLines(fields[..n]), FieldLine(f.name, f.value.value));
        FieldReads(Found(fields[..n]), f.name, f.value.value);
      }
    }
  }

  lemma WellFormedFront(fields: seq<Field>)
    requires WellFormed(fields) && fields != []
    ensures var n := |fields| - 1;
            WellFormed(fields[..n]) && (fields[n].value.Some? ==> PlainName(fields[n].name) && PlainValue(fields[n].value.value))
  {
    assert PlainField(fields[|fields| - 1]);
    hide Lower, PlainName, PlainValue;
  }

  lemma FieldsUnfold(fields: seq<Field>)
    requires fields != []
    ensures var front, f := fields[..|fields| - 1], fields[|fields| - 1];
            if f.value.None? then
              FieldLines(fields) == FieldLines(front) && SentNames(fields) == SentNames(front) && Found(fields) == Found(front)
            else
              && FieldLines(fields) == FieldLines(front) + [FieldLine(f.name, f.value.value)]
              && SentNames(fields) == SentNames(front) + {Lower(f.name)}
              && Found(fields) == Found(front)[Lower(f.name) := f.value.value]
  {
    hide Lower, FieldLine;
  }

  lemma NotSentYet(fields: seq<Field>)
    requires WellFormed(fields) && fields != [] && fields[|fields| - 1].value.Some?
    ensures Lower(fields[|fields| - 1].name) !in SentNames(fields[..|fields| - 1])
  {
    var n := |fields| - 1;
    hide Lower, PlainField;
    if Lower(fields[n].name) in SentNames(fields[..n]) { SentIs(fields[..n], Lower(fields[n].name)); }
  }

  lemma OwnNames()
    ensures Lower("Content-Length") == "content-length" && Lower("Connection") == "connection"
    ensures PlainName("Content-Length") && PlainName("Connection") && PlainValue("close")
  {
    OwnLength();
    OwnConnection();
  }

  lemma OwnLength()
    ensures Lower("Content-Length") == "content-length" && PlainName("Content-Length")
  {
  }

  lemma OwnConnection()
    ensures Lower("Connection") == "connection" && PlainName("Connection") && PlainValue("close")
  {
  }

  lemma DecimalPlain(n: nat)
    ensures PlainValue(Decimal(n)) && OneLine(Decimal(n))
  {
    hide Decimal;
    var s := Decimal(n);
    assert forall c :: c in s ==> IsDigit(c);
    assert IsDigit(s[0]) && IsDigit(s[|s| - 1]);
  }

  /** The caller's fields, and our own length behind them unless one is theirs. */
  function WithLength(fields: seq<Field>, length: nat): seq<string> {
    if "content-length" in SentNames(fields) then FieldLines(fields)
    else FieldLines(fields) + [FieldLine("Content-Length", Decimal(length))]
  }

  lemma HeadLinesAre(status: nat, statusText: string, fields: seq<Field>, length: nat)
    ensures var lines := WithLength(fields, length);
            HeadLines(status, statusText, fields, length) ==
              [FirstLine(status, statusText)] + if "connection" in SentNames(fields) then lines else lines + [FieldLine("Connection", "close")]
  {
  }

  lemma LengthReads(fields: seq<Field>, length: nat)
    requires WellFormed(fields)
    ensures AddFields(map[], WithLength(fields, length)) ==
              if "content-length" in SentNames(fields) then Found(fields) else Found(fields)["content-length" := Decimal(length)]
    ensures Found(fields).Keys == SentNames(fields)
  {
    FieldsRead(fields);
    OwnNames();
    DecimalPlain(length);
    hide FieldLine, Lower, PlainName, PlainValue, FieldLines, SentNames, Found, AddFields, WellFormed, Decimal;
    if "content-length" !in SentNames(fields) {
      AddFieldsNext(map[], FieldLines(fields), FieldLine("Content-Length", Decimal(length)));
      FieldReads(Found(fields), "Content-Length", Decimal(length));
    }
  }

  /** Every field sent is read back, the caller's length and connection for our own where there are any, and nothing else. */
  lemma HeadReads(status: nat, statusText: string, fields: seq<Field>, length: nat)
    requires WellFormed(fields)
    ensures AddFields(map[], HeadLines(status, statusText, fields, length)[1..]) == FoundAll(fields, length)
    ensures HeadLines(status, statusText, fields, length)[0] == FirstLine(status, statusText)
  {
    LengthReads(fields, length);
    OwnNames();
    HeadLinesAre(status, statusText, fields, length);
    hide FieldLine, Lower, PlainName, PlainValue, FirstLine, SentNames, Found, AddFields, WellFormed, Decimal, HeadLines,
         WithLength;
    var lines := WithLength(fields, length);
    if "connection" !in SentNames(fields) {
      AddFieldsNext(map[], lines, FieldLine("Connection", "close"));
      FieldReads(AddFields(map[], lines), "Connection", "close");
    }
  }

  /** A response the encoder can carry: three status digits, a reason on one line, plain fields with distinct names and none that frames. */
  predicate Sendable(status: nat, statusText: string, fields: seq<Field>, length: nat) {
    100 <= status < 1000 && AllDots(statusText) && WellFormed(fields) && Unframed(fields) && length < 0x20_0000_0000_0000
  }

  lemma FieldLineWhole(name: string, value: string)
    requires PlainName(name) && PlainValue(value)
    ensures FieldLine(name, value) != "" && OneLine(FieldLine(name, value))
  {
  }

  lemma {:induction false} FieldLinesWhole(fields: seq<Field>)
    requires WellFormed(fields)
    ensures forall k :: 0 <= k < |FieldLines(fields)| ==> FieldLines(fields)[k] != "" && OneLine(FieldLines(fields)[k])
    decreases |fields|
  {
    if fields != [] {
      var n := |fields| - 1;
      FieldLinesWhole(fields[..n]);
      var f := fields[n];
      if f.value.Some? {
        assert PlainField(f);
        FieldLineWhole(f.name, f.value.value);
      }
      hide FieldLine, OneLine, Lower, PlainName, PlainValue;
    }
  }

  lemma FirstLineWhole(status: nat, statusText: string)
    requires 100 <= status < 1000 && AllDots(statusText)
    ensures var line := FirstLine(status, statusText);
            && line != "" && line[0] == 'H' && OneLine(line)
            && ParseStatus(line) == Some(StatusLine(status, ReasonText(status, statusText)))
  {
    hide *;
    var text, digits := ReasonText(status, statusText), Decimal(status);
    ReasonDots(status, statusText);
    DotsAreOneLine(text);
    StatusReads(status, text);
    DecimalPlain(status);
    LiteralsPlain();
    OneLineConcat("HTTP/1.1 ", digits);
    OneLineConcat("HTTP/1.1 " + digits, " ");
    OneLineConcat("HTTP/1.1 " + digits + " ", text);
    FirstLineIs(status, statusText);
  }

  lemma FirstLineIs(status: nat, statusText: string)
    ensures FirstLine(status, statusText) == "HTTP/1.1 " + Decimal(status) + " " + ReasonText(status, statusText)
    ensures FirstLine(status, statusText) != "" && FirstLine(status, statusText)[0] == 'H'
  {
    hide Decimal;
  }

  /** A reason of the caller's is kept; otherwise these statuses have one, and no others. */
  lemma ReasonsGiven(status: nat, statusText: string)
    ensures statusText != "" ==> ReasonText(status, statusText) == statusText
    ensures ReasonText(200, "") == "OK" && ReasonText(201, "") == "Created" && ReasonText(204, "") == "No Content"
    ensures ReasonText(400, "") == "Bad Request" && ReasonText(404, "") == "Not Found"
    ensures ReasonText(405, "") == "Method Not Allowed" && ReasonText(500, "") == "Internal Server Error"
    ensures status !in {200, 201, 204, 400, 404, 405, 500} ==> ReasonText(status, "") == ""
  {
  }

  lemma ReasonDots(status: nat, statusText: string)
    requires AllDots(statusText)
    ensures AllDots(ReasonText(status, statusText))
  {
    if statusText == "" {
      match status {
        case 200 => assert ReasonFor(status) == "OK";
        case 201 => assert ReasonFor(status) == "Created";
        case 204 => assert ReasonFor(status) == "No Content";
        case 400 => assert ReasonFor(status) == "Bad Request";
        case 404 => assert ReasonFor(status) == "Not Found";
        case 405 => assert ReasonFor(status) == "Method Not Allowed";
        case 500 => assert ReasonFor(status) == "Internal Server Error";
        case _ => assert ReasonFor(status) == "";
      }
      hide ReasonFor;
    }
  }

  lemma LiteralsPlain()
    ensures OneLine("HTTP/1.1 ") && OneLine(" ")
  {
  }

  lemma DotsAreOneLine(s: string)
    requires AllDots(s)
    ensures OneLine(s)
  {
  }

  lemma OneLineConcat(a: string, b: string)
    requires OneLine(a) && OneLine(b)
    ensures OneLine(a + b)
  {
  }

  /** The head lines are whole lines, and the first begins with an H. */
  lemma HeadLinesWhole(status: nat, statusText: string, fields: seq<Field>, length: nat)
    requires Sendable(status, statusText, fields, length)
    ensures var lines := HeadLines(status, statusText, fields, length); Lines(lines) && lines[0][0] == 'H'
  {
    FirstLineWhole(status, statusText);
    FieldLinesWhole(fields);
    OwnNames();
    DecimalPlain(length);
    HeadLinesAre(status, statusText, fields, length);
    FieldLineWhole("Content-Length", Decimal(length));
    FieldLineWhole("Connection", "close");
    hide FieldLine, Lower, PlainName, PlainValue, FirstLine, FieldLines, SentNames, WellFormed, Decimal, HeadLines,
         OneLine, ParseStatus;
  }

  /** The parser's view of the head: a body of the payload's length follows. */
  lemma HeadParses(js: Js, p: Parser, status: nat, statusText: string, fields: seq<Field>, length: nat)
    requires js.Sound() && Sendable(status, statusText, fields, length) && p.headers == map[]
    ensures ParseHead(js, p, JoinLines(HeadLines(status, statusText, fields, length), "\r\n")) ==
              p.(status := status, statusText := ReasonText(status, statusText), headers := FoundAll(fields, length),
                 remaining := length, phase := Length)
  {
    hide *;
    var lines := HeadLines(status, statusText, fields, length);
    HeadLinesWhole(status, statusText, fields, length);
    UnfoldSendable(js, status, statusText, fields, length);
    SplitLinesBack(lines, "\r\n");
    FirstLineWhole(status, statusText);
    HeadReads(status, statusText, fields, length);
    FoundFraming(fields, length);
    ParseHeadLength(js, p, JoinLines(lines, "\r\n"), length);
  }

  lemma UnfoldSendable(js: Js, status: nat, statusText: string, fields: seq<Field>, length: nat)
    requires js.Sound() && Sendable(status, statusText, fields, length)
    ensures 100 <= status < 1000 && AllDots(statusText) && WellFormed(fields) && Unframed(fields) && js.number(Decimal(length)) == Some(length)
  {
  }

  lemma SplitLinesBack(lines: seq<string>, eol: string)
    requires Lines(lines) && LineEnd(eol)
    ensures lines != [] && SplitLines(JoinLines(lines, eol)) == lines
  {
    SplitJoin(lines, eol);
  }

  lemma FoundFraming(fields: seq<Field>, length: nat)
    requires WellFormed(fields) && Unframed(fields)
    ensures var h := FoundAll(fields, length);
            "transfer-encoding" !in h && "content-length" in h && h["content-length"] == Decimal(length)
  {
    FieldsRead(fields);
    hide Decimal, Found, SentNames, WellFormed;
  }

  /** Framed by a length when that is what the fields say. */
  lemma ParseHeadLength(js: Js, p: Parser, text: string, length: nat)
    requires var lines := SplitLines(text);
             var first, headers := ParseStatus(lines[0]), AddFields(p.headers, lines[1..]);
             first.Some? && "transfer-encoding" !in headers && "content-length" in headers &&
             js.number(headers["content-length"]) == Some(length)
    ensures var first, headers := ParseStatus(SplitLines(text)[0]).value, AddFields(p.headers, SplitLines(text)[1..]);
            ParseHead(js, p, text) ==
              p.(status := first.status, statusText := first.text, headers := headers, remaining := length, phase := Length)
  {
    hide SplitLines, ParseStatus, AddFields, Contains, Lower;
  }

  /** Serialised, in one push. */
  lemma ReadsBackWhole(js: Js, maxBody: nat, status: nat, statusText: string, fields: seq<Field>, payload: Bytes)
    requires js.Sound() && Sendable(status, statusText, fields, |payload|)
    ensures var input := ResponseBytes(js, status, statusText, fields, payload);
            var p := Push(js, maxBody, FRESH, input);
            && SteadyHead(js, With(FRESH, input))
            && (if |payload| > maxBody then p.error == Some(TooLarge)
                else p.error.None? && p.done && p.status == status && p.statusText == ReasonText(status, statusText)
                     && p.headers == FoundAll(fields, |payload|) && p.body == payload)
  {
    hide *;
    var lines := HeadLines(status, statusText, fields, |payload|);
    HeadLinesWhole(status, statusText, fields, |payload|);
    SentHeadFound(js, lines, payload);
    SentBytesAre(js, status, statusText, fields, payload);
    var input := ResponseBytes(js, status, statusText, fields, payload);
    var p := With(FRESH, input);
    FreshParser(input);
    HeadParses(js, p, status, statusText, fields, |payload|);
    HeadTurned(js, p);
    var q := p.(status := status, statusText := ReasonText(status, statusText), headers := FoundAll(fields, |payload|),
                remaining := |payload|, phase := Length, buffer := payload);
    assert HeadTurn(js, p) == Again(q);
    SteadyWhen(js, p);
    PushesFresh(js, maxBody, input);
    RunAtHead(js, maxBody, p);
    LengthTaken(js, maxBody, q);
  }

  lemma SentBytesAre(js: Js, status: nat, statusText: string, fields: seq<Field>, payload: Bytes)
    ensures var lines := HeadLines(status, statusText, fields, |payload|);
            ResponseBytes(js, status, statusText, fields, payload) == js.encode(JoinLines(lines, "\r\n") + "\r\n\r\n") + payload
  {
    hide JoinLines, HeadLines;
  }

  lemma LengthTaken(js: Js, maxBody: nat, q: Parser)
    requires !q.done && q.error.None? && q.phase.Length? && q.remaining == |q.buffer| && q.body == [] && q.bodyLength == 0
    ensures var p := Run(js, maxBody, q);
            if |q.buffer| > maxBody then p.error == Some(TooLarge)
            else p.error.None? && p.done && p.body == q.buffer && (p.status, p.statusText, p.headers) == (q.status, q.statusText, q.headers)
  {
    hide Run;
    assert q.buffer[..|q.buffer|] == q.buffer;
    RunRests(js, maxBody, q);
  }

  /**
   * A response that was serialised is read back as it was sent, in whatever
   * pieces it arrives, without waiting for the close; past the cap it is refused.
   */
  lemma ResponseReadsBack(
      js: Js, maxBody: nat, status: nat, statusText: string, fields: seq<Field>, payload: Bytes, pieces: seq<Bytes>)
    requires js.Sound() && Sendable(status, statusText, fields, |payload|)
    requires Whole(pieces) == ResponseBytes(js, status, statusText, fields, payload)
    ensures var p := PushAll(js, maxBody, FRESH, pieces);
            if |payload| > maxBody then p.error == Some(TooLarge)
            else p.error.None? && p.done && p.status == status && p.statusText == ReasonText(status, statusText)
                 && p.headers == FoundAll(fields, |payload|) && p.body == payload
  {
    ReadsBackWhole(js, maxBody, status, statusText, fields, payload);
    hide Sendable, Js.Sound, ResponseBytes, SteadyHead, Push, PushAll, Whole, FoundAll, ReasonText, Run;
    FragmentationIndependent(js, maxBody, pieces);
  }

  // ------------------------------------------------------------- two heads in one stream

  /** A head that is a status line and nothing else. */
  function BareHead(js: Js, status: nat): Bytes { js.encode(JoinLines([FirstLine(status, "")], "\r\n") + "\r\n\r\n") }

  lemma BareHeadReads(js: Js, p: Parser, status: nat, rest: Bytes)
    requires js.Sound() && 100 <= status < 1000 && p.headers == map[] && p.error.None? && p.buffer == BareHead(js, status) + rest
    ensures FindHead(p.buffer).Some?
    ensures var q := p.(status := status, statusText := ReasonFor(status), buffer := rest);
            HeadTurn(js, p) == Again(if NoBody(status) then q.(done := true) else q.(phase := Close))
  {
    var lines := [FirstLine(status, "")];
    FirstLineWhole(status, "");
    hide FirstLine, ParseStatus, Decimal, OneLine, ReasonFor;
    assert Lines(lines);
    SentHeadFound(js, lines, rest);
    SplitLinesBack(lines, "\r\n");
    hide Js.Sound, JoinLines, SplitLines, FindHead, Contains;
    assert AddFields(p.headers, lines[1..]) == map[];
  }

  /**
   * A stream the response parser reads differently when it is cut: an answer
   * without a body, and another one right behind it.
   */
  lemma TwoAnswers(js: Js)
    requires js.Sound()
    ensures !SteadyHead(js, With(FRESH, BareHead(js, 204) + BareHead(js, 500)))
  {
    var second := BareHead(js, 500);
    var p := With(FRESH, BareHead(js, 204) + second);
    assert p.buffer == BareHead(js, 204) + second && second + [] == second;
    hide BareHead, HeadTurn, FindHead, Js.Sound, ReasonFor;
    BareHeadReads(js, p, 204, second);
    BareHeadReads(js, HeadTurn(js, p).p, 500, []);
  }
}
