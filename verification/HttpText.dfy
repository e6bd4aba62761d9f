/**
 * The text of an HTTP head (src/net/http.js): lines, the status line, header
 * fields, and the head a response is sent with.
 *
 * What the language runtime does with text is a parameter: UTF-8 both ways, the
 * number a string denotes, and hexadecimal. `Sound` is what is known of it.
 */
module HttpText {
  import opened Common

  const CR: byte := 13
  const LF: byte := 10
  const CRLF: Bytes := [CR, LF]

  datatype Js = Js(
    encode: string -> Bytes, decode: Bytes -> string,
    number: string -> Option<int>, hex: string -> Option<int>)
  {
    ghost predicate Sound() {
      && (forall s, t :: encode(s + t) == encode(s) + encode(t))
      && encode("") == []
      && (forall c: char :: c as int < 128 ==> encode([c]) == [c as int as byte])
      && (forall c: char :: c as int >= 128 ==> High(encode([c])))
      && (forall s :: (s == "" || s[0] != '\U{FEFF}') ==> decode(encode(s)) == s)
      && (forall n: nat :: n < 0x20_0000_0000_0000 ==> number(Decimal(n)) == Some(n))
    }
  }

  /** Bytes that are no ASCII character. */
  predicate High(b: Bytes) { b != [] && forall k :: 0 <= k < |b| ==> b[k] as int >= 128 }

  // ------------------------------------------------------------- numbers

  function Digit(d: nat): char
    requires d < 10
  {
    ('0' as int + d) as char
  }

  function Decimal(n: nat): (s: string)
    ensures s != "" && forall k :: 0 <= k < |s| ==> IsDigit(s[k])
  {
    if n < 10 then [Digit(n)] else Decimal(n / 10) + [Digit(n % 10)]
  }

  predicate IsDigit(c: char) { '0' <= c <= '9' }

  function DigitValue(c: char): nat
    requires IsDigit(c)
  {
    c as int - '0' as int
  }

  // ------------------------------------------------------------- lines

  function IndexOf(s: string, c: char): (at: Option<nat>)
    ensures at.Some? ==> at.value < |s| && s[at.value] == c && forall k :: 0 <= k < at.value ==> s[k] != c
    ensures at.None? ==> c !in s
  {
    if s == "" then None
    else if s[0] == c then Some(0)
    else
      var rest := IndexOf(s[1..], c);
      if rest.None? then None else Some(rest.value + 1)
  }

  /** Split at line feeds, each with the carriage return before it, if any. */
  function SplitLines(text: string): (lines: seq<string>)
    ensures lines != []
    decreases |text|
  {
    var at := IndexOf(text, '\n');
    if at.None? then [text]
    else
      var line := text[..at.value];
      [if line != "" && line[|line| - 1] == '\r' then line[..|line| - 1] else line] + SplitLines(text[at.value + 1..])
  }

  /** Either way a line ends. */
  predicate LineEnd(eol: string) { eol == "\r\n" || eol == "\n" }

  function JoinLines(lines: seq<string>, eol: string): string
    requires lines != []
  {
    if |lines| == 1 then lines[0] else lines[0] + eol + JoinLines(lines[1..], eol)
  }

  /** A line of its own: no carriage return, no line feed. */
  predicate OneLine(s: string) { '\r' !in s && '\n' !in s }

  lemma IndexOfIs(s: string, c: char, n: nat)
    requires n < |s| && s[n] == c && forall k :: 0 <= k < n ==> s[k] != c
    ensures IndexOf(s, c) == Some(n)
  {
    hide IndexOf;
    var at := IndexOf(s, c);
    assert s[n] in s;
  }

  /** The text up to the first line break, and what is behind it. */
  lemma FirstSplit(line: string, eol: string, rest: string)
    requires OneLine(line) && LineEnd(eol)
    ensures var text := line + eol + rest; SplitLines(text) == [line] + SplitLines(rest)
  {
    var text, n := line + eol + rest, |line| + |eol|;
    assert text[n - 1] == '\n' && text[n..] == rest;
    assert forall k :: 0 <= k < |line| ==> text[k] == line[k] && line[k] in line;
    assert |eol| == 2 ==> text[|line|] == '\r';
    IndexOfIs(text, '\n', n - 1);
    hide IndexOf;
    assert text[..n - 1] == if |eol| == 2 then line + "\r" else line;
    assert |eol| == 2 ==> text[..n - 1][..|line|] == line;
    assert |eol| == 1 && line != "" ==> line[|line| - 1] in line;
  }

  lemma {:induction false} SplitJoin(lines: seq<string>, eol: string)
    requires lines != [] && LineEnd(eol) && forall k :: 0 <= k < |lines| ==> OneLine(lines[k])
    ensures SplitLines(JoinLines(lines, eol)) == lines
    decreases |lines|
  {
    assert OneLine(lines[0]);
    if |lines| == 1 {
      assert IndexOf(lines[0], '\n').None?;
    } else {
      FirstSplit(lines[0], eol, JoinLines(lines[1..], eol));
      hide SplitLines, OneLine;
      SplitJoin(lines[1..], eol);
      assert lines == [lines[0]] + lines[1..];
    }
  }

  // ------------------------------------------------------------- fields

  /** White space, as the runtime trims it. */
  predicate Space(c: char) {
    || '\t' <= c <= '\r' || c == ' ' || c == '\U{A0}' || c == '\U{1680}' || '\U{2000}' <= c <= '\U{200A}'
    || c == '\U{2028}' || c == '\U{2029}' || c == '\U{202F}' || c == '\U{205F}' || c == '\U{3000}' || c == '\U{FEFF}'
  }

  function TrimStart(s: string): string {
    if s != "" && Space(s[0]) then TrimStart(s[1..]) else s
  }

  function TrimEnd(s: string): string {
    if s != "" && Space(s[|s| - 1]) then TrimEnd(s[..|s| - 1]) else s
  }

  function Trim(s: string): string { TrimEnd(TrimStart(s)) }

  predicate Trimmed(s: string) { s == "" || (!Space(s[0]) && !Space(s[|s| - 1])) }

  function LowerChar(c: char): char { if 'A' <= c <= 'Z' then (c as int + 32) as char else c }

  /** Lower case; only ASCII letters have one here. */
  function Lower(s: string): (r: string)
    ensures |r| == |s|
  {
    seq(|s|, k requires 0 <= k < |s| => LowerChar(s[k]))
  }

  type Headers = map<string, string>

  /** Repeated fields join with a comma. */
  function AddField(headers: Headers, line: string): Headers {
    var at := IndexOf(line, ':');
    if at.None? then headers
    else
      var name, value := Lower(Trim(line[..at.value])), Trim(line[at.value + 1..]);
      headers[name := if name in headers then headers[name] + ", " + value else value]
  }

  function AddFields(headers: Headers, lines: seq<string>): Headers
    decreases |lines|
  {
    if lines == [] then headers else AddField(AddFields(headers, lines[..|lines| - 1]), lines[|lines| - 1])
  }

  // ------------------------------------------------------------- the status line

  datatype StatusLine = StatusLine(status: nat, text: string)

  /** A character `.` matches. */
  predicate Dot(c: char) { c != '\n' && c != '\r' && c != '\U{2028}' && c != '\U{2029}' }

  predicate AllDots(s: string) { forall k :: 0 <= k < |s| ==> Dot(s[k]) }

  function ParseStatus(line: string): Option<StatusLine> {
    if |line| >= 12 && line[..5] == "HTTP/" && IsDigit(line[5]) && line[6] == '.' && IsDigit(line[7]) && line[8] == ' '
       && IsDigit(line[9]) && IsDigit(line[10]) && IsDigit(line[11])
       && (|line| == 12 || (line[12] == ' ' && AllDots(line[13..])))
    then Some(StatusLine(
                100 * DigitValue(line[9]) + 10 * DigitValue(line[10]) + DigitValue(line[11]),
                if |line| == 12 then "" else line[13..]))
    else None
  }

  lemma DecimalStatus(n: nat)
    requires 100 <= n < 1000
    ensures var s := Decimal(n);
            |s| == 3 && 100 * DigitValue(s[0]) + 10 * DigitValue(s[1]) + DigitValue(s[2]) == n
  {
    var s := Decimal(n);
    assert s == Decimal(n / 10) + [Digit(n % 10)];
    assert Decimal(n / 10) == Decimal(n / 100) + [Digit(n / 10 % 10)];
    assert Decimal(n / 100) == [Digit(n / 100)];
  }

  /** The status line that is sent is the one that is read. */
  lemma StatusReads(status: nat, text: string)
    requires 100 <= status < 1000 && AllDots(text)
    ensures ParseStatus("HTTP/1.1 " + Decimal(status) + " " + text) == Some(StatusLine(status, text))
  {
    DecimalStatus(status);
    var line := "HTTP/1.1 " + Decimal(status) + " " + text;
    assert line[..5] == "HTTP/";
    assert line[9] == Decimal(status)[0] && line[10] == Decimal(status)[1] && line[11] == Decimal(status)[2];
    assert line[13..] == text;
  }
}
