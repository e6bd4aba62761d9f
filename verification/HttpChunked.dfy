/**
 * Chunked bodies (section 7.1 of RFC 9112), as the response parser reads them:
 * each chunk's size on a line, its data, a line break; a chunk of size zero; then
 * trailers up to a blank line. Either line-break convention will do.
 */
module HttpChunked {
  import opened Common
  import opened HttpText
  import opened Http
  import HttpSend

  /** The size line as it is on the wire, the data, and how each is ended. */
  datatype Chunk = Chunk(sizeLine: Bytes, afterSize: Bytes, data: Bytes, afterData: Bytes)

  predicate Newline(b: Bytes) { b == CRLF || b == [LF] }

  /** A size line, extensions and all, that says so many bytes. */
  predicate SaysSize(js: Js, line: Bytes, size: nat) {
    HttpSend.NoBreaks(line) && js.hex(SizeText(js.decode(line))) == Some(size)
  }

  predicate ChunkOk(js: Js, c: Chunk) {
    c.data != [] && SaysSize(js, c.sizeLine, |c.data|) && Newline(c.afterSize) && Newline(c.afterData)
  }

  function Framed(c: Chunk): Bytes { c.sizeLine + c.afterSize + c.data + c.afterData }

  function FramedAll(chunks: seq<Chunk>): Bytes {
    if chunks == [] then [] else Framed(chunks[0]) + FramedAll(chunks[1..])
  }

  function DataOf(chunks: seq<Chunk>): Bytes {
    if chunks == [] then [] else chunks[0].data + DataOf(chunks[1..])
  }

  /** What follows the last chunk: a blank line at once, or after trailers. */
  predicate Terminated(b: Bytes) { StartsWithNewline(b) > 0 || FindHead(b).Some? }

  lemma {:induction false} LineFound(line: Bytes, ending: Bytes, rest: Bytes, from: nat)
    requires HttpSend.NoBreaks(line) && Newline(ending) && from <= |line|
    ensures FindLine(line + ending + rest, from) == Some(Break(|line|, |ending|))
    decreases |line| - from
  {
    var b := line + ending + rest;
    assert forall k :: 0 <= k < |line| ==> b[k] == line[k];
    if from < |line| {
      LineFound(line, ending, rest, from + 1);
    } else {
      assert forall k :: 0 <= k < |ending| ==> b[|line| + k] == ending[k];
    }
  }

  /** A size line is read and cut off. */
  lemma SizeReads(js: Js, p: Parser, line: Bytes, ending: Bytes, rest: Bytes, size: nat)
    requires p.buffer == line + ending + rest && SaysSize(js, line, size) && Newline(ending)
    ensures ChunkSizeTurn(js, p) ==
              Again(if size == 0 then p.(buffer := rest, phase := Trailer)
                    else p.(buffer := rest, remaining := size, phase := ChunkData))
  {
    LineFound(line, ending, rest, 0);
    assert p.buffer[..|line|] == line && p.buffer[|line| + |ending|..] == rest;
    hide SizeText, FindLine, HttpSend.NoBreaks;
  }

  /** The data are read and their line break cut off. */
  lemma DataReads(p: Parser, data: Bytes, ending: Bytes, rest: Bytes, maxBody: nat)
    requires p.buffer == data + ending + rest && p.remaining == |data| && Newline(ending) && data != []
    requires p.error.None? && p.bodyLength + |data| <= maxBody
    ensures ChunkDataTurn(p, maxBody) ==
              Again(p.(buffer := rest, remaining := 0, phase := ChunkSize, body := p.body + data, bodyLength := p.bodyLength + |data|))
  {
    var after := p.buffer[|data|..];
    assert after == ending + rest && p.buffer[..|data|] == data;
    assert after[0] == ending[0] && (|ending| == 2 ==> after[1] == ending[1]);
    assert p.buffer[|data| + |ending|..] == rest;
  }

  /** One chunk more. */
  lemma ChunkReads(js: Js, maxBody: nat, p: Parser, c: Chunk, rest: Bytes)
    requires ChunkOk(js, c) && p.phase.ChunkSize? && p.remaining == 0 && p.error.None? && p.bodyLength + |c.data| <= maxBody
    requires p.buffer == Framed(c) + rest
    ensures Run(js, maxBody, p) ==
              Run(js, maxBody, p.(buffer := rest, body := p.body + c.data, bodyLength := p.bodyLength + |c.data|))
  {
    hide *;
    var after := c.data + c.afterData + rest;
    FramedIs(c, rest);
    UnfoldChunk(js, c);
    var q := p.(buffer := after, remaining := |c.data|, phase := ChunkData);
    var r := p.(buffer := rest, body := p.body + c.data, bodyLength := p.bodyLength + |c.data|);
    SizeReads(js, p, c.sizeLine, c.afterSize, after, |c.data|);
    DataReads(q, c.data, c.afterData, rest, maxBody);
    ChunkTurns(js, maxBody, p);
    ChunkTurns(js, maxBody, q);
    RunComesAgain(js, maxBody, p);
    RunComesAgain(js, maxBody, q);
  }

  lemma FramedIs(c: Chunk, rest: Bytes)
    ensures Framed(c) + rest == c.sizeLine + c.afterSize + (c.data + c.afterData + rest)
  {
  }

  lemma UnfoldChunk(js: Js, c: Chunk)
    requires ChunkOk(js, c)
    ensures c.data != [] && SaysSize(js, c.sizeLine, |c.data|) && Newline(c.afterSize) && Newline(c.afterData)
  {
    hide SaysSize, Newline;
  }

  lemma ChunkTurns(js: Js, maxBody: nat, p: Parser)
    ensures p.phase.ChunkSize? ==> OneTurn(js, maxBody, p) == ChunkSizeTurn(js, p)
    ensures p.phase.ChunkData? ==> OneTurn(js, maxBody, p) == ChunkDataTurn(p, maxBody)
  {
    hide ChunkSizeTurn, ChunkDataTurn, HeadTurn, LengthTurn, TrailerTurn;
  }

  /** Whatever follows some chunks is read with their data behind the body. */
  lemma {:induction false} AfterChunks(js: Js, maxBody: nat, p: Parser, chunks: seq<Chunk>, rest: Bytes)
    requires forall k :: 0 <= k < |chunks| ==> ChunkOk(js, chunks[k])
    requires p.phase.ChunkSize? && p.remaining == 0 && p.error.None? && p.bodyLength + |DataOf(chunks)| <= maxBody
    requires p.buffer == FramedAll(chunks) + rest
    ensures Run(js, maxBody, p) ==
              Run(js, maxBody, p.(buffer := rest, body := p.body + DataOf(chunks), bodyLength := p.bodyLength + |DataOf(chunks)|))
    decreases |chunks|
  {
    hide *;
    UnfoldChunks(chunks);
    if chunks == [] {
      assert p.buffer == rest && p.body + [] == p.body;
    } else {
      var c, next := chunks[0], FramedAll(chunks[1..]) + rest;
      assert p.buffer == Framed(c) + next;
      ChunkReads(js, maxBody, p, c, next);
      var q := p.(buffer := next, body := p.body + c.data, bodyLength := p.bodyLength + |c.data|);
      AfterChunks(js, maxBody, q, chunks[1..], rest);
      assert p.body + c.data + DataOf(chunks[1..]) == p.body + DataOf(chunks);
    }
  }

  /** Chunks, the last chunk, and what ends it. */
  lemma Dechunks(js: Js, maxBody: nat, p: Parser, chunks: seq<Chunk>, last: Bytes, afterLast: Bytes, end: Bytes)
    requires forall k :: 0 <= k < |chunks| ==> ChunkOk(js, chunks[k])
    requires SaysSize(js, last, 0) && Newline(afterLast) && Terminated(end)
    requires p.phase.ChunkSize? && p.remaining == 0 && !p.done && p.error.None? && p.bodyLength + |DataOf(chunks)| <= maxBody
    requires p.buffer == FramedAll(chunks) + (last + afterLast + end)
    ensures var q := Run(js, maxBody, p);
            && q.error.None? && q.done && q.body == p.body + DataOf(chunks)
            && (q.status, q.statusText, q.headers) == (p.status, p.statusText, p.headers)
  {
    hide *;
    var tail := last + afterLast + end;
    AfterChunks(js, maxBody, p, chunks, tail);
    var q := p.(buffer := tail, body := p.body + DataOf(chunks), bodyLength := p.bodyLength + |DataOf(chunks)|);
    LastReads(js, maxBody, q, last, afterLast, end);
  }

  lemma UnfoldChunks(chunks: seq<Chunk>)
    ensures chunks == [] ==> FramedAll(chunks) == [] && DataOf(chunks) == []
    ensures chunks != [] ==>
              FramedAll(chunks) == Framed(chunks[0]) + FramedAll(chunks[1..]) && DataOf(chunks) == chunks[0].data + DataOf(chunks[1..])
  {
    hide Framed;
  }

  lemma LastReads(js: Js, maxBody: nat, p: Parser, last: Bytes, afterLast: Bytes, end: Bytes)
    requires SaysSize(js, last, 0) && Newline(afterLast) && Terminated(end)
    requires p.phase.ChunkSize? && !p.done && p.error.None? && p.buffer == last + afterLast + end
    ensures var q := Run(js, maxBody, p);
            q.error.None? && q.done && q.body == p.body && (q.status, q.statusText, q.headers) == (p.status, p.statusText, p.headers)
  {
    SizeReads(js, p, last, afterLast, end, 0);
    var q := p.(buffer := end, phase := Trailer);
    assert OneTurn(js, maxBody, p) == Again(q) by { hide ChunkSizeTurn; }
    assert OneTurn(js, maxBody, q) == TrailerTurn(q);
    hide OneTurn, Run, FindHead;
    RunComesAgain(js, maxBody, p);
    RunRests(js, maxBody, q);
  }

  /**
   * A chunked response, in whatever pieces it arrives: once its head has been
   * read, the body is the data of its chunks in order.
   */
  lemma ChunkedReadsBack(
      js: Js, maxBody: nat, head: Bytes, chunks: seq<Chunk>, last: Bytes, afterLast: Bytes, end: Bytes, pieces: seq<Bytes>)
    requires FindHead(head).Some? && FindHead(head).value.at + FindHead(head).value.length == |head|
    requires var t := HeadTurn(js, With(FRESH, head)); t.Again? && t.p.phase.ChunkSize? && !t.p.done
    requires forall k :: 0 <= k < |chunks| ==> ChunkOk(js, chunks[k])
    requires SaysSize(js, last, 0) && Newline(afterLast) && Terminated(end) && |DataOf(chunks)| <= maxBody
    requires Whole(pieces) == head + (FramedAll(chunks) + (last + afterLast + end))
    ensures var p, h := PushAll(js, maxBody, FRESH, pieces), HeadTurn(js, With(FRESH, head)).p;
            && p.error.None? && p.done && p.body == DataOf(chunks)
            && (p.status, p.statusText, p.headers) == (h.status, h.statusText, h.headers)
  {
    hide *;
    var rest := FramedAll(chunks) + (last + afterLast + end);
    ChunkedRuns(js, maxBody, head, rest);
    var q := With(HeadTurn(js, With(FRESH, head)).p, rest);
    Dechunks(js, maxBody, q, chunks, last, afterLast, end);
    FragmentationIndependent(js, maxBody, pieces);
    SameIs(PushAll(js, maxBody, FRESH, pieces), Push(js, maxBody, FRESH, Whole(pieces)));
    assert [] + DataOf(chunks) == DataOf(chunks);
  }

  lemma SameIs(p: Parser, q: Parser)
    requires Same(p, q)
    ensures p.error == q.error && (q.error.None? ==> p.done == q.done)
    ensures q.error.None? && q.done ==> (p.status, p.statusText, p.headers, p.body) == (q.status, q.statusText, q.headers, q.body)
    ensures !Over(q) ==> p == q
  {
  }

  /** Behind the head the chunks are read, and nothing depends on the cuts. */
  lemma ChunkedRuns(js: Js, maxBody: nat, head: Bytes, rest: Bytes)
    requires FindHead(head).Some? && FindHead(head).value.at + FindHead(head).value.length == |head|
    requires var t := HeadTurn(js, With(FRESH, head)); t.Again? && t.p.phase.ChunkSize? && !t.p.done
    ensures var h := HeadTurn(js, With(FRESH, head)).p;
            var q := With(h, rest);
            && q.phase.ChunkSize? && q.remaining == 0 && !q.done && q.error.None? && q.bodyLength == 0 && q.body == [] && q.buffer == rest
            && (q.status, q.statusText, q.headers) == (h.status, h.statusText, h.headers)
            && SteadyHead(js, With(FRESH, head + rest)) && Push(js, maxBody, FRESH, head + rest) == Run(js, maxBody, q)
  {
    var p := With(FRESH, head);
    FreshIs(head);
    HeadMore(js, p, rest);
    ChunkedHead(js, head, rest);
    FreshIs(head + rest);
    hide HeadTurn, FindHead, Run;
    RunAtHead(js, maxBody, With(FRESH, head + rest));
    assert With(p, rest) == With(FRESH, head + rest);
  }

  /** The state in which the first chunk is read. */
  lemma ChunkedHead(js: Js, head: Bytes, rest: Bytes)
    requires FindHead(head).Some? && FindHead(head).value.at + FindHead(head).value.length == |head|
    requires var t := HeadTurn(js, With(FRESH, head)); t.Again? && t.p.phase.ChunkSize? && !t.p.done
    ensures var q := With(HeadTurn(js, With(FRESH, head)).p, rest);
            && q == HeadTurn(js, With(FRESH, head)).p.(buffer := rest)
            && q.phase.ChunkSize? && q.remaining == 0 && !q.done && q.error.None? && q.bodyLength == 0 && q.body == [] && q.buffer == rest
  {
    var p := With(FRESH, head);
    assert p.buffer == head;
    hide FindHead, SplitLines, ParseStatus, AddFields, Contains, Lower;
    assert head[|head|..] == [] && [] + rest == rest;
  }

  // ------------------------------------------------------------- and what is refused

  /** A chunk is the last straw, or is not one: why. */
  ghost predicate Refusal(js: Js, room: nat, b: Bytes, why: HttpError) {
    exists line: Bytes, ending: Bytes, rest: Bytes ::
      b == line + ending + rest && HttpSend.NoBreaks(line) && Newline(ending) && RefusedAt(js, room, line, rest, why)
  }

  /** Behind this size line: no size, too much of it, or no line break after the data. */
  ghost predicate RefusedAt(js: Js, room: nat, line: Bytes, rest: Bytes, why: HttpError) {
    var size := js.hex(SizeText(js.decode(line)));
    if size.None? || size.value < 0 then why.BadChunkSize?
    else
      && size.value > 0 && |rest| >= size.value + 2
      && var broken := StartsWithNewline(rest[size.value..]) == 0;
         if broken then why.BadChunkEnd? else size.value > room && why.TooLarge?
  }

  lemma RefusedRuns(js: Js, maxBody: nat, p: Parser, why: HttpError)
    requires p.phase.ChunkSize? && p.error.None? && p.bodyLength <= maxBody && Refusal(js, maxBody - p.bodyLength, p.buffer, why)
    ensures Run(js, maxBody, p).error == Some(why)
  {
    hide *;
    var line, ending, rest := UnfoldRefusal(js, maxBody - p.bodyLength, p.buffer, why);
    LineFound(line, ending, rest, 0);
    RefusedTurn(js, maxBody, p, line, ending, rest, why);
    var t := OneTurn(js, maxBody, p);
    if t.Again? {
      RunComesAgain(js, maxBody, p);
      RunRests(js, maxBody, t.p);
    } else {
      RunRests(js, maxBody, p);
    }
  }

  lemma UnfoldRefusal(js: Js, room: nat, b: Bytes, why: HttpError) returns (line: Bytes, ending: Bytes, rest: Bytes)
    requires Refusal(js, room, b, why)
    ensures b == line + ending + rest && HttpSend.NoBreaks(line) && Newline(ending) && RefusedAt(js, room, line, rest, why)
  {
    hide RefusedAt, HttpSend.NoBreaks, Newline;
    line, ending, rest :|
      b == line + ending + rest && HttpSend.NoBreaks(line) && Newline(ending) && RefusedAt(js, room, line, rest, why);
  }

  lemma RefusedTurn(js: Js, maxBody: nat, p: Parser, line: Bytes, ending: Bytes, rest: Bytes, why: HttpError)
    requires p.phase.ChunkSize? && p.error.None? && p.bodyLength <= maxBody
    requires p.buffer == line + ending + rest && FindLine(p.buffer, 0) == Some(Break(|line|, |ending|))
    requires RefusedAt(js, maxBody - p.bodyLength, line, rest, why)
    ensures var t := OneTurn(js, maxBody, p);
            if t.Again? then OneTurn(js, maxBody, t.p).Rest? && OneTurn(js, maxBody, t.p).p.error == Some(why)
            else t.p.error == Some(why)
  {
    assert p.buffer[..|line|] == line && p.buffer[|line| + |ending|..] == rest;
    hide SizeText, FindLine, StartsWithNewline;
    var size := js.hex(SizeText(js.decode(line)));
    if size.Some? && size.value > 0 {
      var q := p.(buffer := rest, remaining := size.value, phase := ChunkData);
      assert OneTurn(js, maxBody, p) == Again(q);
      hide OneTurn;
      DataRefused(js, maxBody, q, why);
    }
  }

  lemma DataRefused(js: Js, maxBody: nat, q: Parser, why: HttpError)
    requires q.phase.ChunkData? && q.error.None? && q.bodyLength <= maxBody && 0 < q.remaining && |q.buffer| >= q.remaining + 2
    requires if StartsWithNewline(q.buffer[q.remaining..]) == 0 then why.BadChunkEnd?
             else q.remaining > maxBody - q.bodyLength && why.TooLarge?
    ensures OneTurn(js, maxBody, q).Rest? && OneTurn(js, maxBody, q).p.error == Some(why)
  {
    hide StartsWithNewline;
  }

  /** A stream that breaks the rules of chunks is refused, and for the first breach, whatever the pieces. */
  lemma ChunksRefused(js: Js, maxBody: nat, head: Bytes, chunks: seq<Chunk>, bad: Bytes, why: HttpError, pieces: seq<Bytes>)
    requires FindHead(head).Some? && FindHead(head).value.at + FindHead(head).value.length == |head|
    requires var t := HeadTurn(js, With(FRESH, head)); t.Again? && t.p.phase.ChunkSize? && !t.p.done
    requires forall k :: 0 <= k < |chunks| ==> ChunkOk(js, chunks[k])
    requires |DataOf(chunks)| <= maxBody && Refusal(js, maxBody - |DataOf(chunks)|, bad, why)
    requires Whole(pieces) == head + (FramedAll(chunks) + bad)
    ensures PushAll(js, maxBody, FRESH, pieces).error == Some(why)
  {
    hide *;
    var rest := FramedAll(chunks) + bad;
    ChunkedRuns(js, maxBody, head, rest);
    var q := With(HeadTurn(js, With(FRESH, head)).p, rest);
    AfterChunks(js, maxBody, q, chunks, bad);
    var r := q.(buffer := bad, body := q.body + DataOf(chunks), bodyLength := q.bodyLength + |DataOf(chunks)|);
    RefusedRuns(js, maxBody, r, why);
    FragmentationIndependent(js, maxBody, pieces);
    SameIs(PushAll(js, maxBody, FRESH, pieces), Push(js, maxBody, FRESH, Whole(pieces)));
  }

  /**
   * What is missing when the stream ends between two chunks, or inside one: the
   * size of that chunk, its data being held back until it is whole.
   */
  ghost predicate Missing(js: Js, b: Bytes, missing: nat) {
    (b == [] && missing == 0) ||
    exists line: Bytes, ending: Bytes, part: Bytes ::
      b == line + ending + part && SaysSize(js, line, missing) && Newline(ending) && |part| <= missing && missing > 0
  }

  lemma MissingRuns(js: Js, maxBody: nat, p: Parser, missing: nat)
    requires p.phase.ChunkSize? && !Over(p) && p.remaining == 0 && Missing(js, p.buffer, missing)
    ensures var q := Run(js, maxBody, p); !Over(q) && End(maxBody, q) == (q.(error := Some(ClosedInBody(missing))), false)
  {
    hide Run, SaysSize, Newline, SizeText, FindHead;
    if p.buffer == [] && missing == 0 {
      RunRests(js, maxBody, p);
    } else {
      var line: Bytes, ending: Bytes, part: Bytes :|
        p.buffer == line + ending + part && SaysSize(js, line, missing) && Newline(ending) && |part| <= missing && missing > 0;
      SizeReads(js, p, line, ending, part, missing);
      var q := p.(buffer := part, remaining := missing, phase := ChunkData);
      assert OneTurn(js, maxBody, p) == Again(q) by { hide ChunkSizeTurn; }
      assert OneTurn(js, maxBody, q) == Rest(q);
      hide OneTurn;
      RunComesAgain(js, maxBody, p);
      RunRests(js, maxBody, q);
    }
  }

  /** A chunked stream that ends early is refused at the close, and not before. */
  lemma ChunksMissing(js: Js, maxBody: nat, head: Bytes, chunks: seq<Chunk>, part: Bytes, missing: nat, pieces: seq<Bytes>)
    requires FindHead(head).Some? && FindHead(head).value.at + FindHead(head).value.length == |head|
    requires var t := HeadTurn(js, With(FRESH, head)); t.Again? && t.p.phase.ChunkSize? && !t.p.done
    requires forall k :: 0 <= k < |chunks| ==> ChunkOk(js, chunks[k])
    requires |DataOf(chunks)| <= maxBody && Missing(js, part, missing)
    requires Whole(pieces) == head + (FramedAll(chunks) + part)
    ensures var p := PushAll(js, maxBody, FRESH, pieces);
            !Over(p) && End(maxBody, p).0.error == Some(ClosedInBody(missing)) && !End(maxBody, p).1
  {
    hide *;
    var rest := FramedAll(chunks) + part;
    ChunkedRuns(js, maxBody, head, rest);
    var q := With(HeadTurn(js, With(FRESH, head)).p, rest);
    AfterChunks(js, maxBody, q, chunks, part);
    var r := q.(buffer := part, body := q.body + DataOf(chunks), bodyLength := q.bodyLength + |DataOf(chunks)|);
    OverIs(r);
    MissingRuns(js, maxBody, r, missing);
    FragmentationIndependent(js, maxBody, pieces);
    SameIs(PushAll(js, maxBody, FRESH, pieces), Push(js, maxBody, FRESH, Whole(pieces)));
  }

  lemma OverIs(p: Parser)
    ensures Over(p) <==> p.done || p.error.Some?
  {
  }
}
