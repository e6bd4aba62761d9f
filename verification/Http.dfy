/**
 * The incremental response parser (src/net/http.js): fed bytes as they arrive,
 * it gives the same response however the stream was cut up.
 */
module Http {
  import opened Common
  import opened HttpText

  // ------------------------------------------------------------- scanning

  /** A block or line break: where, and how long. */
  datatype Break = Break(at: nat, length: nat)

  predicate ByteIs(b: Bytes, i: nat, c: byte) { i < |b| && b[i] == c }

  /** The break that starts here, if the head ends here. */
  function BlockBreakAt(b: Bytes, i: nat): Option<nat> {
    if ByteIs(b, i, CR) && ByteIs(b, i + 1, LF) && ByteIs(b, i + 2, CR) && ByteIs(b, i + 3, LF) then Some(4)
    else if ByteIs(b, i, LF) && ByteIs(b, i + 1, LF) then Some(2)
    else None
  }

  function LineBreakAt(b: Bytes, i: nat): Option<nat> {
    if ByteIs(b, i, CR) && ByteIs(b, i + 1, LF) then Some(2)
    else if ByteIs(b, i, LF) then Some(1)
    else None
  }

  function FindBlock(b: Bytes, from: nat): (r: Option<Break>)
    ensures r.Some? ==> from <= r.value.at && r.value.at + r.value.length <= |b| && r.value.length > 0
    decreases |b| - from
  {
    if from >= |b| then None
    else if BlockBreakAt(b, from).Some? then Some(Break(from, BlockBreakAt(b, from).value))
    else FindBlock(b, from + 1)
  }

  function FindLine(b: Bytes, from: nat): (r: Option<Break>)
    ensures r.Some? ==> from <= r.value.at && r.value.at + r.value.length <= |b| && r.value.length > 0
    decreases |b| - from
  {
    if from >= |b| then None
    else if LineBreakAt(b, from).Some? then Some(Break(from, LineBreakAt(b, from).value))
    else FindLine(b, from + 1)
  }

  /** Where a header block ends: the first blank line, in either convention. */
  function FindHead(b: Bytes): (r: Option<Break>)
    ensures r.Some? ==> r.value.at + r.value.length <= |b| && r.value.length > 0
  {
    FindBlock(b, 0)
  }

  function FindLineEnd(b: Bytes): (r: Option<Break>)
    ensures r.Some? ==> r.value.at + r.value.length <= |b| && r.value.length > 0
  {
    FindLine(b, 0)
  }

  function StartsWithNewline(b: Bytes): (n: nat)
    ensures n <= |b| && n <= 2
  {
    if ByteIs(b, 0, CR) && ByteIs(b, 1, LF) then 2 else if ByteIs(b, 0, LF) then 1 else 0
  }

  /** A found break stays the first one whatever arrives after it. */
  lemma {:induction false} FindBlockStable(b: Bytes, more: Bytes, from: nat)
    requires FindBlock(b, from).Some?
    ensures FindBlock(b + more, from) == FindBlock(b, from)
    decreases |b| - from
  {
    if BlockBreakAt(b, from).None? {
      FindBlockStable(b, more, from + 1);
      FoundIs(b, from + 1);
      assert BlockBreakAt(b + more, from).None?;
    }
  }

  lemma {:induction false} FoundIs(b: Bytes, from: nat)
    requires FindBlock(b, from).Some?
    ensures var r := FindBlock(b, from).value; BlockBreakAt(b, r.at) == Some(r.length)
    decreases |b| - from
  {
    if BlockBreakAt(b, from).None? { FoundIs(b, from + 1); }
  }

  lemma {:induction false} FindLineStable(b: Bytes, more: Bytes, from: nat)
    requires FindLine(b, from).Some?
    ensures FindLine(b + more, from) == FindLine(b, from)
    decreases |b| - from
  {
    if LineBreakAt(b, from).Some? {
      assert LineBreakAt(b + more, from) == LineBreakAt(b, from);
    } else {
      FindLineStable(b, more, from + 1);
      assert from + 1 < |b|;
      assert LineBreakAt(b + more, from).None?;
    }
  }

  // ------------------------------------------------------------- the parser

  datatype HttpError = NotHttp | BadLength | BadChunkSize | BadChunkEnd | TooLarge | ClosedInHead | ClosedInBody(missing: nat)

  datatype Phase = Head | Length | ChunkSize | ChunkData | Trailer | Close

  datatype Parser = Parser(
    status: nat, statusText: string, headers: Headers, done: bool, error: Option<HttpError>,
    buffer: Bytes, body: Bytes, bodyLength: nat, phase: Phase, remaining: nat)

  const FRESH := Parser(0, "", map[], false, None, [], [], 0, Head, 0)

  predicate Over(p: Parser) { p.done || p.error.Some? }

  /** One pass of the loop: come round again, or wait for more. */
  datatype Turn = Again(p: Parser) | Rest(p: Parser)

  function Fail(p: Parser, e: HttpError): Turn { Rest(p.(error := Some(e))) }

  predicate OccursAt(s: string, t: string, k: nat) { k + |t| <= |s| && s[k..k + |t|] == t }

  predicate Contains(s: string, t: string) { exists k :: 0 <= k <= |s| && OccursAt(s, t, k) }

  /** Taken into account before the cap is checked. */
  function TakeBody(p: Parser, bytes: Bytes, maxBody: nat): Parser {
    if bytes == [] then p
    else
      var q := p.(bodyLength := p.bodyLength + |bytes|);
      if q.bodyLength > maxBody then q.(error := Some(TooLarge)) else q.(body := p.body + bytes)
  }

  predicate NoBody(status: nat) { status == 204 || status == 304 || 100 <= status < 200 }

  /** The head's status, fields and framing. */
  function ParseHead(js: Js, p: Parser, text: string): Parser {
    var lines := SplitLines(text);
    var first := ParseStatus(lines[0]);
    if first.None? then p.(error := Some(NotHttp))
    else
      var headers := AddFields(p.headers, lines[1..]);
      var q := p.(status := first.value.status, statusText := first.value.text, headers := headers);
      if "transfer-encoding" in headers && Contains(Lower(headers["transfer-encoding"]), "chunked") then q.(phase := ChunkSize)
      else if "content-length" in headers then
        var length := js.number(headers["content-length"]);
        if length.None? || length.value < 0 then q.(error := Some(BadLength))
        else q.(remaining := length.value, phase := Length)
      else if NoBody(q.status) then q.(done := true)
      else q.(phase := Close)
  }

  function HeadTurn(js: Js, p: Parser): Turn {
    var head := FindHead(p.buffer);
    if head.None? then Rest(p)
    else
      var q := ParseHead(js, p, js.decode(p.buffer[..head.value.at]));
      if q.error.Some? then Rest(q) else Again(q.(buffer := p.buffer[head.value.at + head.value.length..]))
  }

  function LengthTurn(p: Parser, maxBody: nat): Turn {
    var take := if p.remaining < |p.buffer| then p.remaining else |p.buffer|;
    var q := TakeBody(p, p.buffer[..take], maxBody);
    if q.error.Some? then Rest(q)
    else
      var r := q.(buffer := p.buffer[take..], remaining := p.remaining - take);
      Rest(if r.remaining > 0 then r else r.(done := true))
  }

  /** The size before any extension, in hexadecimal. */
  function SizeText(line: string): string {
    var at := IndexOf(line, ';');
    Trim(if at.None? then line else line[..at.value])
  }

  function ChunkSizeTurn(js: Js, p: Parser): Turn {
    var line := FindLineEnd(p.buffer);
    if line.None? then Rest(p)
    else
      var size := js.hex(SizeText(js.decode(p.buffer[..line.value.at])));
      if size.None? || size.value < 0 then Fail(p, BadChunkSize)
      else
        var q := p.(buffer := p.buffer[line.value.at + line.value.length..]);
        Again(if size.value == 0 then q.(phase := Trailer) else q.(remaining := size.value, phase := ChunkData))
  }

  function TrailerTurn(p: Parser): Turn {
    var blank := StartsWithNewline(p.buffer);
    if blank > 0 then Rest(p.(buffer := p.buffer[blank..], done := true))
    else
      var trailers := FindHead(p.buffer);
      if trailers.None? then Rest(p)
      else Rest(p.(buffer := p.buffer[trailers.value.at + trailers.value.length..], done := true))
  }

  function ChunkDataTurn(p: Parser, maxBody: nat): Turn {
    if |p.buffer| < p.remaining + 1 then Rest(p)
    else
      var after := p.buffer[p.remaining..];
      var ending := StartsWithNewline(after);
      if ending == 0 then
        if |after| < 2 then Rest(p) else Fail(p, BadChunkEnd)
      else
        var q := TakeBody(p, p.buffer[..p.remaining], maxBody);
        if q.error.Some? then Rest(q)
        else Again(q.(buffer := p.buffer[p.remaining + ending..], remaining := 0, phase := ChunkSize))
  }

  function OneTurn(js: Js, maxBody: nat, p: Parser): (t: Turn)
    ensures t.Again? ==> |t.p.buffer| < |p.buffer| && t.p.error == p.error
  {
    match p.phase
    case Head => HeadTurn(js, p)
    case Length => LengthTurn(p, maxBody)
    case ChunkSize => ChunkSizeTurn(js, p)
    case Trailer => TrailerTurn(p)
    case ChunkData => ChunkDataTurn(p, maxBody)
    case Close => Rest(p)
  }

  function Run(js: Js, maxBody: nat, p: Parser): Parser
    decreases |p.buffer|
  {
    var t := OneTurn(js, maxBody, p);
    if t.Rest? then t.p else Run(js, maxBody, t.p)
  }

  function Push(js: Js, maxBody: nat, p: Parser, bytes: Bytes): Parser {
    if Over(p) then p else Run(js, maxBody, p.(buffer := p.buffer + bytes))
  }

  /** The peer closed. Past the cap this throws instead of recording an error. */
  function End(maxBody: nat, p: Parser): (Parser, bool) {
    if Over(p) then (p, false)
    else match p.phase
      case Close =>
        var q := TakeBody(p, p.buffer, maxBody);
        if q.error.Some? then (q.(error := None), true) else (q.(buffer := [], done := true), false)
      case Head => (p.(error := Some(ClosedInHead)), false)
      case _ => (p.(error := Some(ClosedInBody(p.remaining))), false)
  }

  function PushAll(js: Js, maxBody: nat, p: Parser, pieces: seq<Bytes>): Parser
    decreases |pieces|
  {
    if pieces == [] then p
    else Push(js, maxBody, PushAll(js, maxBody, p, pieces[..|pieces| - 1]), pieces[|pieces| - 1])
  }

  function Whole(pieces: seq<Bytes>): Bytes
    decreases |pieces|
  {
    if pieces == [] then [] else Whole(pieces[..|pieces| - 1]) + pieces[|pieces| - 1]
  }

  // ------------------------------------------------------------- what is counted

  /** Without an error the length counted is the body's, and within the cap; never less. */
  ghost predicate Counted(maxBody: nat, p: Parser) {
    |p.body| <= p.bodyLength && (p.error.None? ==> |p.body| == p.bodyLength <= maxBody)
  }

  lemma TakeCounts(maxBody: nat, p: Parser, bytes: Bytes)
    requires Counted(maxBody, p) && p.error.None?
    ensures Counted(maxBody, TakeBody(p, bytes, maxBody))
  {
  }

  lemma HeadCounts(js: Js, maxBody: nat, p: Parser)
    requires Counted(maxBody, p) && p.error.None?
    ensures Counted(maxBody, HeadTurn(js, p).p)
  {
    hide FindHead, SplitLines, ParseStatus, AddFields, Contains, Lower;
  }

  lemma TurnCounts(js: Js, maxBody: nat, p: Parser)
    requires Counted(maxBody, p) && p.error.None?
    ensures Counted(maxBody, OneTurn(js, maxBody, p).p)
  {
    hide HeadTurn, FindHead, FindLineEnd, SizeText, StartsWithNewline, TakeBody;
    match p.phase
    case Head => HeadCounts(js, maxBody, p);
    case Length => TakeCounts(maxBody, p, p.buffer[..if p.remaining < |p.buffer| then p.remaining else |p.buffer|]);
    case ChunkData => if p.remaining <= |p.buffer| { TakeCounts(maxBody, p, p.buffer[..p.remaining]); }
    case _ =>
  }

  lemma {:induction false} RunCounts(js: Js, maxBody: nat, p: Parser)
    requires Counted(maxBody, p) && p.error.None?
    ensures Counted(maxBody, Run(js, maxBody, p))
    decreases |p.buffer|
  {
    TurnCounts(js, maxBody, p);
    hide OneTurn, Counted;
    var t := OneTurn(js, maxBody, p);
    if t.Again? { RunCounts(js, maxBody, t.p); }
  }

  /** Pushing keeps the count, and so does the close unless it throws. */
  lemma CountKept(js: Js, maxBody: nat, p: Parser, bytes: Bytes)
    requires Counted(maxBody, p)
    ensures Counted(maxBody, Push(js, maxBody, p, bytes))
    ensures var (q, thrown) := End(maxBody, p); |q.body| <= q.bodyLength && (!thrown ==> Counted(maxBody, q))
  {
    hide Run;
    if !Over(p) { RunCounts(js, maxBody, p.(buffer := p.buffer + bytes)); }
  }

  // ------------------------------------------------------------- however it was cut up

  function With(p: Parser, more: Bytes): Parser { p.(buffer := p.buffer + more) }

  /** Nobody can tell them apart: the same failure, the same response, or, while neither is over, the same parser. */
  ghost predicate Same(p: Parser, q: Parser) {
    && p.error == q.error
    && (p.error.None? ==> p.done == q.done)
    && (p.error.None? && p.done ==>
          p.status == q.status && p.statusText == q.statusText && p.headers == q.headers && p.body == q.body)
    && (!Over(p) ==> p == q)
  }

  /**
   * The loop goes on looking for heads after one that has no body at all. This
   * says that every complete head it then finds is read as the same response.
   */
  ghost predicate Steady(js: Js, q: Parser)
    decreases |q.buffer|
  {
    FindHead(q.buffer).None? ||
    var t := HeadTurn(js, q);
    t.Again? && t.p == q.(buffer := t.p.buffer) && Steady(js, t.p)
  }

  ghost predicate SteadyHead(js: Js, p: Parser) {
    p.phase.Head? ==>
      var t := HeadTurn(js, p);
      t.Again? && t.p.done ==> Steady(js, t.p)
  }

  /** What a pass that comes round again has done is the same with more behind it. */
  lemma AgainMore(js: Js, maxBody: nat, p: Parser, more: Bytes)
    requires !Over(p) && OneTurn(js, maxBody, p).Again?
    ensures OneTurn(js, maxBody, With(p, more)) == Again(With(OneTurn(js, maxBody, p).p, more))
  {
    match p.phase
    case Head => HeadMore(js, p, more);
    case ChunkSize => ChunkSizeMore(js, p, more);
    case ChunkData => ChunkDataMore(p, maxBody, more);
    case Length =>
    case Trailer =>
    case Close =>
  }

  lemma HeadMore(js: Js, p: Parser, more: Bytes)
    requires FindHead(p.buffer).Some?
    ensures var t, u := HeadTurn(js, p), HeadTurn(js, With(p, more));
            if t.Again? then u == Again(With(t.p, more)) else u == Rest(With(t.p, more))
  {
    var head := FindHead(p.buffer).value;
    FindBlockStable(p.buffer, more, 0);
    SplitMore(p.buffer, head.at, more);
    SplitMore(p.buffer, head.at + head.length, more);
    hide FindHead, ParseHead;
    ParseKeepsBuffer(js, p, more, js.decode(p.buffer[..head.at]));
  }

  /** Parsing a head does not look at the buffer. */
  lemma ParseKeepsBuffer(js: Js, p: Parser, more: Bytes, text: string)
    ensures ParseHead(js, With(p, more), text) == With(ParseHead(js, p, text), more)
    ensures ParseHead(js, p, text).buffer == p.buffer
  {
    hide SplitLines, ParseStatus, AddFields, Lower, Contains;
  }

  lemma ChunkSizeMore(js: Js, p: Parser, more: Bytes)
    requires FindLineEnd(p.buffer).Some?
    ensures var t, u := ChunkSizeTurn(js, p), ChunkSizeTurn(js, With(p, more));
            if t.Again? then u == Again(With(t.p, more)) else u == Rest(With(t.p, more))
  {
    var line := FindLineEnd(p.buffer).value;
    FindLineStable(p.buffer, more, 0);
    SplitMore(p.buffer, line.at, more);
    SplitMore(p.buffer, line.at + line.length, more);
    hide FindLineEnd, SizeText;
  }

  lemma ChunkDataMore(p: Parser, maxBody: nat, more: Bytes)
    requires !Over(p) && |p.buffer| > p.remaining
    requires StartsWithNewline(p.buffer[p.remaining..]) > 0 || |p.buffer[p.remaining..]| >= 2
    ensures var t, u := ChunkDataTurn(p, maxBody), ChunkDataTurn(With(p, more), maxBody);
            if t.Again? then u == Again(With(t.p, more)) else u == Rest(With(t.p, more))
  {
    SplitMore(p.buffer, p.remaining, more);
    SplitMore(p.buffer, p.remaining + StartsWithNewline(p.buffer[p.remaining..]), more);
  }

  lemma TrailerMore(p: Parser, more: Bytes)
    requires !Over(p) && TrailerTurn(p).p.done
    ensures TrailerTurn(With(p, more)) == Rest(With(TrailerTurn(p).p, more))
  {
    var blank := StartsWithNewline(p.buffer);
    if blank > 0 {
      SplitMore(p.buffer, blank, more);
    } else {
      var trailers := FindHead(p.buffer).value;
      FindBlockStable(p.buffer, more, 0);
      SplitMore(p.buffer, trailers.at + trailers.length, more);
    }
  }

  lemma RunRests(js: Js, maxBody: nat, p: Parser)
    requires OneTurn(js, maxBody, p).Rest?
    ensures Run(js, maxBody, p) == OneTurn(js, maxBody, p).p
  {
    hide OneTurn;
  }

  lemma RunComesAgain(js: Js, maxBody: nat, p: Parser)
    requires OneTurn(js, maxBody, p).Again?
    ensures Run(js, maxBody, p) == Run(js, maxBody, OneTurn(js, maxBody, p).p)
  {
    hide OneTurn;
  }

  /** Taking bytes in two goes is taking them at once, and the cap falls on the same totals. */
  lemma TakeTwice(p: Parser, a: Bytes, b: Bytes, maxBody: nat)
    requires p.error.None?
    ensures var q := TakeBody(p, a, maxBody);
            if q.error.Some? then q.error == TakeBody(p, a + b, maxBody).error
            else
              var once, twice := TakeBody(p, a + b, maxBody), TakeBody(q, b, maxBody);
              once.error == twice.error && (once.error.None? ==> once == twice)
  {
    if a == [] {
      assert a + b == b;
    } else if b == [] {
      assert a + b == a;
    } else {
      assert p.body + (a + b) == (p.body + a) + b;
    }
  }

  /** A body of known length, taken in two goes. */
  lemma LengthMore(js: Js, maxBody: nat, p: Parser, more: Bytes)
    requires !Over(p) && p.phase.Length?
    ensures Same(Push(js, maxBody, LengthTurn(p, maxBody).p, more), LengthTurn(With(p, more), maxBody).p)
  {
    if p.remaining <= |p.buffer| {  } else { LengthPart(js, maxBody, p, more); }
  }

  lemma LengthPart(js: Js, maxBody: nat, p: Parser, more: Bytes)
    requires !Over(p) && p.phase.Length? && p.remaining > |p.buffer|
    ensures Same(Push(js, maxBody, LengthTurn(p, maxBody).p, more), LengthTurn(With(p, more), maxBody).p)
  {
    var b := p.buffer + more;
    var take := if p.remaining - |p.buffer| < |more| then p.remaining - |p.buffer| else |more|;
    var piece, rest := more[..take], more[take..];
    assert p.buffer == p.buffer + [] && b == (p.buffer + piece) + rest && more == piece + rest;
    LengthIs(p, maxBody, p.buffer, []);
    LengthIs(With(p, more), maxBody, p.buffer + piece, rest);
    TakeTwice(p, p.buffer, piece, maxBody);
    TakeLooksNot(p, p, more, p.buffer + piece, maxBody);
    var q := LengthTurn(p, maxBody).p;
    if q.error.None? {
      LengthNext(js, maxBody, q, piece, rest);
      TakeLooksNot(TakeBody(p, p.buffer, maxBody), q, more, piece, maxBody);
    }
    hide LengthTurn, TakeBody, Run;
  }

  lemma LengthNext(js: Js, maxBody: nat, q: Parser, piece: Bytes, rest: Bytes)
    requires !Over(q) && q.phase.Length? && q.buffer == []
    requires |piece| == if q.remaining < |piece + rest| then q.remaining else |piece + rest|
    ensures var t := TakeBody(With(q, piece + rest), piece, maxBody);
            Push(js, maxBody, q, piece + rest) == if t.error.Some? then t else Settled(t, rest, q.remaining - |piece|)
  {
    var r := With(q, piece + rest);
    assert r.buffer == piece + rest;
    LengthIs(r, maxBody, piece, rest);
    hide LengthTurn, TakeBody;
    assert OneTurn(js, maxBody, r) == LengthTurn(r, maxBody);
    hide OneTurn, Run;
    RunRests(js, maxBody, r);
  }

  function Settled(p: Parser, rest: Bytes, remaining: nat): Parser {
    var r := p.(buffer := rest, remaining := remaining);
    if remaining > 0 then r else r.(done := true)
  }

  lemma LengthIs(p: Parser, maxBody: nat, bytes: Bytes, rest: Bytes)
    requires p.error.None? && p.buffer == bytes + rest && |bytes| == if p.remaining < |p.buffer| then p.remaining else |p.buffer|
    ensures var t := TakeBody(p, bytes, maxBody);
            LengthTurn(p, maxBody) == Rest(if t.error.Some? then t else Settled(t, rest, p.remaining - |bytes|))
  {
    assert p.buffer[..|bytes|] == bytes && p.buffer[|bytes|..] == rest;
  }

  /** Taking body bytes depends on neither the buffer nor what remains. */
  lemma TakeLooksNot(p: Parser, q: Parser, more: Bytes, bytes: Bytes, maxBody: nat)
    requires p.error.None? && q == p.(buffer := q.buffer, remaining := q.remaining)
    ensures TakeBody(With(q, more), bytes, maxBody) ==
              TakeBody(p, bytes, maxBody).(buffer := q.buffer + more, remaining := q.remaining)
  {
  }

  /** A pass that does not come round again either waits, with nothing done, or is over; length-framed bodies apart. */
  lemma RestMore(js: Js, maxBody: nat, p: Parser, more: Bytes)
    requires !Over(p) && OneTurn(js, maxBody, p).Rest?
    ensures var q := OneTurn(js, maxBody, p).p;
            Same(Push(js, maxBody, q, more), Run(js, maxBody, With(p, more)))
  {
    var q := OneTurn(js, maxBody, p).p;
    if p.phase.Length? {
      LengthMore(js, maxBody, p, more);
      hide LengthTurn, Run;
      RunRests(js, maxBody, With(p, more));
    } else if Over(q) {
      OverMore(js, maxBody, p, more);
      RunRests(js, maxBody, With(p, more));
    } else {
      WaitsAsItWas(js, maxBody, p);
    }
  }

  lemma WaitsAsItWas(js: Js, maxBody: nat, p: Parser)
    requires !Over(p) && OneTurn(js, maxBody, p).Rest? && !Over(OneTurn(js, maxBody, p).p) && !p.phase.Length?
    ensures OneTurn(js, maxBody, p).p == p
  {
    hide FindHead, FindLineEnd, ParseHead, SizeText;
  }

  /** What is over stays over whatever follows. */
  lemma OverMore(js: Js, maxBody: nat, p: Parser, more: Bytes)
    requires !Over(p) && OneTurn(js, maxBody, p).Rest? && Over(OneTurn(js, maxBody, p).p) && !p.phase.Length?
    ensures OneTurn(js, maxBody, With(p, more)).Rest?
    ensures Same(OneTurn(js, maxBody, p).p, OneTurn(js, maxBody, With(p, more)).p)
  {
    match p.phase
    case Head => HeadMore(js, p, more); hide HeadTurn;
    case ChunkSize => ChunkSizeMore(js, p, more); hide ChunkSizeTurn;
    case ChunkData => ChunkDataMore(p, maxBody, more); hide ChunkDataTurn;
    case Trailer => TrailerMore(p, more); hide TrailerTurn;
    case Close =>
    case Length =>
  }

  /** Running on what has come and then on the rest is running on all of it. */
  lemma {:induction false} RunMore(js: Js, maxBody: nat, p: Parser, more: Bytes)
    requires !Over(p) && SteadyHead(js, With(p, more))
    ensures Same(Push(js, maxBody, Run(js, maxBody, p), more), Run(js, maxBody, With(p, more)))
    decreases |p.buffer|
  {
    var t := OneTurn(js, maxBody, p);
    if t.Rest? {
      RestMore(js, maxBody, p, more);
      RunRests(js, maxBody, p);
    } else {
      AgainMore(js, maxBody, p, more);
      RunComesAgain(js, maxBody, p);
      RunComesAgain(js, maxBody, With(p, more));
      if t.p.done {
        DoneHead(js, maxBody, p, more);
      } else {
        NeverHead(js, maxBody, p);
        hide OneTurn, Run;
        RunMore(js, maxBody, t.p, more);
      }
    }
  }

  /** No phase leads back to the head. */
  lemma NeverHead(js: Js, maxBody: nat, p: Parser)
    requires !Over(p) && OneTurn(js, maxBody, p).Again? && !OneTurn(js, maxBody, p).p.done
    ensures !OneTurn(js, maxBody, p).p.phase.Head?
  {
    hide FindHead, FindLineEnd, SizeText, SplitLines, ParseStatus, AddFields, Contains;
  }

  /** Over a steady stream the loop ends with the response it had. */
  lemma {:induction false} SteadyRuns(js: Js, maxBody: nat, q: Parser)
    requires q.done && q.error.None? && q.phase.Head? && Steady(js, q)
    ensures var r := Run(js, maxBody, q); r == q.(buffer := r.buffer)
    decreases |q.buffer|
  {
    hide ParseHead;
    if FindHead(q.buffer).None? {
      RunRests(js, maxBody, q);
    } else {
      RunComesAgain(js, maxBody, q);
      SteadyRuns(js, maxBody, HeadTurn(js, q).p);
    }
  }

  lemma {:induction false} SteadyBefore(js: Js, q: Parser, more: Bytes)
    requires q.error.None? && Steady(js, With(q, more))
    ensures Steady(js, q)
    decreases |q.buffer|
  {
    if FindHead(q.buffer).Some? {
      FindBlockStable(q.buffer, more, 0);
      HeadMore(js, q, more);
      var t := HeadTurn(js, q);
      hide HeadTurn;
      SteadyBefore(js, t.p, more);
    }
  }

  /** A head with no body at all ends the run there, as long as the stream is steady. */
  lemma DoneHead(js: Js, maxBody: nat, p: Parser, more: Bytes)
    requires !Over(p) && SteadyHead(js, With(p, more))
    requires OneTurn(js, maxBody, p).Again? && OneTurn(js, maxBody, p).p.done
    ensures var q := OneTurn(js, maxBody, p).p;
            Same(Push(js, maxBody, Run(js, maxBody, q), more), Run(js, maxBody, With(q, more)))
  {
    var q := OneTurn(js, maxBody, p).p;
    OnlyHeadsEnd(js, maxBody, p);
    HeadMore(js, p, more);
    assert Steady(js, With(q, more));
    hide Steady, Run, HeadTurn;
    SteadyBefore(js, q, more);
    SteadyRuns(js, maxBody, q);
    SteadyRuns(js, maxBody, With(q, more));
  }

  lemma OnlyHeadsEnd(js: Js, maxBody: nat, p: Parser)
    requires !Over(p) && OneTurn(js, maxBody, p).Again? && OneTurn(js, maxBody, p).p.done
    ensures p.phase.Head? && OneTurn(js, maxBody, p).p.phase.Head?
  {
    hide FindHead, FindLineEnd, SizeText, SplitLines, ParseStatus, AddFields, Contains;
  }

  /** A stream that is steady with more behind it was steady before. */
  lemma SteadyHeadBefore(js: Js, p: Parser, more: Bytes)
    requires !Over(p) && SteadyHead(js, With(p, more))
    ensures SteadyHead(js, p)
  {
    if p.phase.Head? && HeadTurn(js, p).Again? {
      HeadMore(js, p, more);
      hide Steady;
      if HeadTurn(js, p).p.done { SteadyBefore(js, HeadTurn(js, p).p, more); }
    }
  }

  /**
   * However the stream is cut into pieces, pushing them gives what pushing the
   * whole at once gives: the same error, or the same response, or the same
   * parser still waiting.
   */
  lemma {:induction false} CutAnyhow(js: Js, maxBody: nat, p: Parser, pieces: seq<Bytes>)
    requires !Over(p) && Run(js, maxBody, p) == p && SteadyHead(js, With(p, Whole(pieces)))
    ensures Same(PushAll(js, maxBody, p, pieces), Push(js, maxBody, p, Whole(pieces)))
    decreases |pieces|
  {
    if pieces == [] {
      assert With(p, []) == p by { assert p.buffer + [] == p.buffer; }
    } else {
      var front, last := pieces[..|pieces| - 1], pieces[|pieces| - 1];
      var early, all := Whole(front), Whole(pieces);
      assert With(With(p, early), last) == With(p, all) by { assert p.buffer + early + last == p.buffer + all; }
      hide SteadyHead, Run, Whole;
      SteadyHeadBefore(js, With(p, early), last);
      CutAnyhow(js, maxBody, p, front);
      RunMore(js, maxBody, With(p, early), last);
      var q, one := PushAll(js, maxBody, p, front), Push(js, maxBody, p, early);
      assert Same(Push(js, maxBody, one, last), Run(js, maxBody, With(p, all)));
    }
  }

  /** The whole of it, for a fresh parser: any pieces, then the close. */
  lemma FragmentationIndependent(js: Js, maxBody: nat, pieces: seq<Bytes>)
    requires SteadyHead(js, With(FRESH, Whole(pieces)))
    ensures var cut, whole := PushAll(js, maxBody, FRESH, pieces), Push(js, maxBody, FRESH, Whole(pieces));
            && Same(cut, whole)
            && Same(End(maxBody, cut).0, End(maxBody, whole).0) && End(maxBody, cut).1 == End(maxBody, whole).1
  {
    assert Run(js, maxBody, FRESH) == FRESH;
    CutAnyhow(js, maxBody, FRESH, pieces);
  }

  // ------------------------------------------------------------- a fresh parser

  lemma FreshParser(input: Bytes)
    ensures With(FRESH, input) == Parser(0, "", map[], false, None, input, [], 0, Head, 0)
  {
    assert [] + input == input;
  }

  lemma HeadTurned(js: Js, p: Parser)
    requires FindHead(p.buffer).Some?
    ensures var head := FindHead(p.buffer).value;
            var q := ParseHead(js, p, js.decode(p.buffer[..head.at]));
            HeadTurn(js, p) == if q.error.Some? then Rest(q) else Again(q.(buffer := p.buffer[head.at + head.length..]))
  {
    hide FindHead, ParseHead;
  }

  lemma SteadyWhen(js: Js, p: Parser)
    requires var t := HeadTurn(js, p); t.Again? ==> !t.p.done || FindHead(t.p.buffer).None?
    ensures SteadyHead(js, p)
  {
    hide HeadTurn, FindHead;
  }

  lemma PushesFresh(js: Js, maxBody: nat, input: Bytes)
    ensures Push(js, maxBody, FRESH, input) == Run(js, maxBody, With(FRESH, input))
  {
    hide Run;
  }

  // ------------------------------------------------------------- and when it is not

  lemma {:induction false} FindBlockReaches(b: Bytes, from: nat, i: nat)
    requires from <= i && BlockBreakAt(b, i).Some?
    ensures FindBlock(b, from).Some?
    decreases i - from
  {
    if BlockBreakAt(b, from).None? { FindBlockReaches(b, from + 1, i); }
  }

  /** The same head is found in the bytes up to its end. */
  lemma FindHeadPrefix(b: Bytes, n: nat)
    requires FindHead(b).Some? && FindHead(b).value.at + FindHead(b).value.length <= n <= |b|
    ensures FindHead(b[..n]) == FindHead(b)
  {
    var r := FindHead(b).value;
    FoundIs(b, 0);
    assert BlockBreakAt(b[..n], r.at) == BlockBreakAt(b, r.at);
    FindBlockReaches(b[..n], 0, r.at);
    FindBlockStable(b[..n], b[n..], 0);
    assert b[..n] + b[n..] == b;
  }

  /** The head was taken for one without a body, by what it says. */
  ghost predicate Bodiless(q: Parser) {
    && q.done && q.error.None? && q.phase.Head?
    && !("transfer-encoding" in q.headers && Contains(Lower(q.headers["transfer-encoding"]), "chunked"))
    && "content-length" !in q.headers && NoBody(q.status)
  }

  function Cut(p: Parser, n: nat): Parser
    requires n <= |p.buffer|
  {
    p.(buffer := p.buffer[..n])
  }

  /** With nothing in the buffer there is nothing to read. */
  lemma EmptyRests(js: Js, maxBody: nat, p: Parser)
    requires p.error.None? && p.done && p.buffer == []
    ensures var r := Run(js, maxBody, p);
            r.error.None? && r.done && (r.status, r.statusText, r.headers, r.body) == (p.status, p.statusText, p.headers, p.body)
  {
    hide Run;
    assert OneTurn(js, maxBody, p).Rest? by { hide ParseHead, SizeText; }
    RunRests(js, maxBody, p);
  }

  /** One head, and what is read from a buffer that ends with it or later. */
  lemma HeadCut(js: Js, q: Parser, n: nat)
    requires FindHead(q.buffer).Some?
    requires var h := FindHead(q.buffer).value; h.at + h.length + n <= |q.buffer|
    ensures var h, t := FindHead(q.buffer).value, HeadTurn(js, q);
            var k := h.at + h.length;
            if t.Again? then
              |t.p.buffer| == |q.buffer| - k && HeadTurn(js, Cut(q, k + n)) == Again(Cut(t.p, n))
            else HeadTurn(js, Cut(q, k + n)).Rest? && HeadTurn(js, Cut(q, k + n)).p.error.Some? && t.p.error.Some?
  {
    var h := FindHead(q.buffer).value;
    var k := h.at + h.length;
    var c := Cut(q, k + n);
    FindHeadPrefix(q.buffer, k + n);
    var more := q.buffer[k + n..];
    assert With(c, more) == q by { assert c.buffer + more == q.buffer; }
    HeadMore(js, c, more);
    hide ParseHead, FindHead;
    if HeadTurn(js, q).Again? {
      assert HeadTurn(js, c).Again?;
      assert With(HeadTurn(js, c).p, more) == HeadTurn(js, q).p;
      assert HeadTurn(js, q).p.buffer[..n] == HeadTurn(js, c).p.buffer;
    }
  }

  /** A further head that frames no body either, and says the same, is read as the same. */
  lemma SaysTheSame(js: Js, q: Parser)
    requires Bodiless(q) && HeadTurn(js, q).Again?
    requires var t := HeadTurn(js, q).p; (t.status, t.statusText, t.headers) == (q.status, q.statusText, q.headers)
    ensures HeadTurn(js, q).p == q.(buffer := HeadTurn(js, q).p.buffer)
  {
    hide FindHead, SplitLines, ParseStatus, AddFields, Contains;
  }

  lemma HeadKeepsDone(js: Js, q: Parser)
    requires q.done && q.error.None? && HeadTurn(js, q).Again?
    ensures HeadTurn(js, q).p.done && HeadTurn(js, q).p.error.None? && |HeadTurn(js, q).p.buffer| < |q.buffer|
  {
    hide FindHead, SplitLines, ParseStatus, AddFields, Contains;
  }

  lemma RunAtHead(js: Js, maxBody: nat, p: Parser)
    requires p.phase.Head?
    ensures var t := HeadTurn(js, p);
            Run(js, maxBody, p) == if t.Again? then Run(js, maxBody, t.p) else t.p
  {
    assert OneTurn(js, maxBody, p) == HeadTurn(js, p);
    hide HeadTurn, OneTurn;
  }

  /** The head that ends the agreement: refused, or saying something else. */
  lemma UnsteadyHere(js: Js, maxBody: nat, q: Parser) returns (n: nat)
    requires Bodiless(q) && FindHead(q.buffer).Some?
    requires var t := HeadTurn(js, q);
             t.Again? ==> (t.p.status, t.p.statusText, t.p.headers) != (q.status, q.statusText, q.headers)
    ensures n <= |q.buffer| && (Run(js, maxBody, Cut(q, n)).done || Run(js, maxBody, Cut(q, n)).error.Some?)
    ensures !Same(Run(js, maxBody, Cut(q, n)), q)
  {
    UnfoldBodiless(q);
    var h, t := FindHead(q.buffer).value, HeadTurn(js, q);
    n := h.at + h.length + 0;
    HeadCut(js, q, 0);
    CutPhase(q, n);
    RunAtHead(js, maxBody, Cut(q, n));
    if t.Again? {
      HeadKeepsDone(js, q);
      CutPhase(t.p, 0);
      EmptyRests(js, maxBody, Cut(t.p, 0));
    }
  }

  lemma UnfoldBodiless(q: Parser)
    requires Bodiless(q)
    ensures q.done && q.error.None? && q.phase.Head?
  {
  }

  /** Either the next head already ends the agreement, or it agrees and the rest does not. */
  lemma UnsteadyNext(js: Js, q: Parser)
    requires Bodiless(q) && !Steady(js, q)
    ensures q.done && q.error.None? && q.phase.Head? && FindHead(q.buffer).Some?
    ensures var t := HeadTurn(js, q);
            t.Again? && (t.p.status, t.p.statusText, t.p.headers) == (q.status, q.statusText, q.headers) ==>
              t.p == q.(buffer := t.p.buffer) && Bodiless(t.p) && !Steady(js, t.p) && |t.p.buffer| < |q.buffer|
  {
    var t := HeadTurn(js, q);
    hide HeadTurn, FindHead, Contains;
    if t.Again? && (t.p.status, t.p.statusText, t.p.headers) == (q.status, q.statusText, q.headers) {
      SaysTheSame(js, q);
      HeadKeepsDone(js, q);
    }
  }

  lemma SameUpToBuffer(r: Parser, p: Parser, q: Parser)
    requires p == q.(buffer := p.buffer) && q.done && !Same(r, p)
    ensures !Same(r, q)
  {
  }

  /** Where the stream first stops being steady the response read is another. */
  lemma {:induction false} Unsteady(js: Js, maxBody: nat, q: Parser) returns (n: nat)
    requires Bodiless(q) && !Steady(js, q)
    ensures n <= |q.buffer| && (Run(js, maxBody, Cut(q, n)).done || Run(js, maxBody, Cut(q, n)).error.Some?)
    ensures !Same(Run(js, maxBody, Cut(q, n)), q)
    decreases |q.buffer|
  {
    hide *;
    UnsteadyNext(js, q);
    var h, t := FindHead(q.buffer).value, HeadTurn(js, q);
    if t.Again? && (t.p.status, t.p.statusText, t.p.headers) == (q.status, q.statusText, q.headers) {
      var m := Unsteady(js, maxBody, t.p);
      n := h.at + h.length + m;
      HeadCut(js, q, 0);
      HeadCut(js, q, m);
      CutPhase(q, n);
      RunAtHead(js, maxBody, Cut(q, n));
      SameUpToBuffer(Run(js, maxBody, Cut(q, n)), t.p, q);
    } else {
      n := UnsteadyHere(js, maxBody, q);
    }
  }

  lemma CutPhase(q: Parser, n: nat)
    requires n <= |q.buffer|
    ensures Cut(q, n) == q.(buffer := Cut(q, n).buffer) && |Cut(q, n).buffer| == n
  {
  }

  lemma FirstHeadBodiless(js: Js, p: Parser)
    requires !Over(p) && p.phase.Head? && HeadTurn(js, p).Again? && HeadTurn(js, p).p.done
    ensures Bodiless(HeadTurn(js, p).p)
  {
    hide FindHead, SplitLines, ParseStatus, AddFields, Contains;
  }

  lemma PushTwo(js: Js, maxBody: nat, a: Bytes, b: Bytes)
    ensures PushAll(js, maxBody, FRESH, [a, b]) == Push(js, maxBody, Push(js, maxBody, FRESH, a), b)
    ensures Whole([a, b]) == a + b
  {
    hide Push;
    assert [a, b][..1] == [a] && [a][..0] == [];
    assert PushAll(js, maxBody, FRESH, [a]) == Push(js, maxBody, FRESH, a);
    assert Whole([a]) == [] + a;
  }

  /** The first push of a stream whose first head has no body, cut at that head's end or later. */
  lemma FirstPush(js: Js, maxBody: nat, input: Bytes, n: nat)
    requires var p := With(FRESH, input);
             FindHead(p.buffer).Some? && HeadTurn(js, p).Again? && HeadTurn(js, p).p.done && n <= |HeadTurn(js, p).p.buffer|
    ensures var q, k := HeadTurn(js, With(FRESH, input)).p, |input| - |HeadTurn(js, With(FRESH, input)).p.buffer|;
            k >= 0 && Push(js, maxBody, FRESH, input[..k + n]) == Run(js, maxBody, Cut(q, n))
  {
    hide *;
    FreshIs(input);
    var p := With(FRESH, input);
    HeadCut(js, p, 0);
    HeadCut(js, p, n);
    var k := |input| - |HeadTurn(js, p).p.buffer|;
    PushFresh(js, maxBody, input, k + n);
    CutPhase(p, k + n);
    CutPhase(HeadTurn(js, p).p, n);
    RunAtHead(js, maxBody, Cut(p, k + n));
  }

  lemma FreshIs(input: Bytes)
    ensures var p := With(FRESH, input); p.buffer == input && p.phase.Head? && !Over(p) && p.error.None? && !p.done
  {
    assert [] + input == input;
  }

  lemma PushFresh(js: Js, maxBody: nat, input: Bytes, n: nat)
    requires n <= |input| && With(FRESH, input).buffer == input
    ensures Push(js, maxBody, FRESH, input[..n]) == Run(js, maxBody, Cut(With(FRESH, input), n))
  {
    hide Run;
    assert With(FRESH, input[..n]) == Cut(With(FRESH, input), n);
  }

  /** When the stream is not steady, two ways of cutting it give different responses. */
  lemma CutsMatter(js: Js, maxBody: nat, input: Bytes) returns (a: seq<Bytes>, b: seq<Bytes>)
    requires !SteadyHead(js, With(FRESH, input))
    ensures Whole(a) == input && Whole(b) == input
    ensures !Same(PushAll(js, maxBody, FRESH, a), PushAll(js, maxBody, FRESH, b))
  {
    hide *;
    FreshIs(input);
    var p := With(FRESH, input);
    UnfoldSteadyHead(js, p);
    var q := HeadTurn(js, p).p;
    FirstHeadBodiless(js, p);
    UnfoldBodiless(q);
    HeadKept(js, p);
    var k := |input| - |q.buffer|;
    var n := Unsteady(js, maxBody, q);
    FirstPush(js, maxBody, input, 0);
    FirstPush(js, maxBody, input, n);
    CutPhase(q, 0);
    EmptyRests(js, maxBody, Cut(q, 0));
    a, b := [input[..k + 0], input[k + 0..]], [input[..k + n], input[k + n..]];
    var x, y := Push(js, maxBody, FRESH, input[..k + 0]), Push(js, maxBody, FRESH, input[..k + n]);
    PushTwo(js, maxBody, input[..k + 0], input[k + 0..]);
    PushTwo(js, maxBody, input[..k + n], input[k + n..]);
    assert input[..k + n] + input[k + n..] == input && input[..k + 0] + input[k + 0..] == input;
    PushOver(js, maxBody, x, input[k + 0..]);
    PushOver(js, maxBody, y, input[k + n..]);
    OtherThan(x, y, q);
  }

  lemma UnfoldSteadyHead(js: Js, p: Parser)
    requires !SteadyHead(js, p)
    ensures p.phase.Head? && HeadTurn(js, p).Again? && HeadTurn(js, p).p.done && !Steady(js, HeadTurn(js, p).p)
  {
    hide HeadTurn, Steady;
  }

  lemma PushOver(js: Js, maxBody: nat, p: Parser, bytes: Bytes)
    requires p.done || p.error.Some?
    ensures Push(js, maxBody, p, bytes) == p
  {
  }

  lemma OtherThan(x: Parser, y: Parser, q: Parser)
    requires q.done && q.error.None? && !Same(y, q)
    requires x.error.None? && x.done && (x.status, x.statusText, x.headers, x.body) == (q.status, q.statusText, q.headers, q.body)
    ensures !Same(x, y)
  {
  }

  lemma HeadKept(js: Js, p: Parser)
    requires HeadTurn(js, p).Again?
    ensures FindHead(p.buffer).Some? && |HeadTurn(js, p).p.buffer| <= |p.buffer|
  {
    hide FindHead, ParseHead;
  }

  /**
   * Exactly when the response does not depend on how the stream is cut: when
   * every complete head behind one without a body is read as the same response.
   */
  lemma IndependentExactly(js: Js, maxBody: nat, input: Bytes)
    ensures SteadyHead(js, With(FRESH, input)) <==>
              forall a: seq<Bytes>, b: seq<Bytes> :: Whole(a) == input && Whole(b) == input ==>
                Same(PushAll(js, maxBody, FRESH, a), PushAll(js, maxBody, FRESH, b))
  {
    if SteadyHead(js, With(FRESH, input)) {
      forall a: seq<Bytes>, b: seq<Bytes> | Whole(a) == input && Whole(b) == input
        ensures Same(PushAll(js, maxBody, FRESH, a), PushAll(js, maxBody, FRESH, b))
      {
        FragmentationIndependent(js, maxBody, a);
        FragmentationIndependent(js, maxBody, b);
      }
    } else {
      var a, b := CutsMatter(js, maxBody, input);
    }
  }
}
