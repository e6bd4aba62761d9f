/** The two parsers as the objects they are (src/net/http.js), step for step what the functions say. */
module HttpParser {
  import opened Common
  import opened HttpText
  import H = Http
  import Q = HttpRequest

  /** The body parts as one. */
  function Joined(parts: seq<Bytes>): Bytes
    decreases |parts|
  {
    if parts == [] then [] else Joined(parts[..|parts| - 1]) + parts[|parts| - 1]
  }

  lemma JoinedNext(parts: seq<Bytes>, part: Bytes)
    ensures Joined(parts + [part]) == Joined(parts) + part
  {
    assert (parts + [part])[..|parts|] == parts;
  }

  // ------------------------------------------------------------- scanning

  method FindHead(b: Bytes) returns (r: Option<H.Break>)
    ensures r == H.FindHead(b)
  {
    for i := 0 to |b|
      invariant H.FindHead(b) == H.FindBlock(b, i)
    {
      if b[i] == CR && H.ByteIs(b, i + 1, LF) && H.ByteIs(b, i + 2, CR) && H.ByteIs(b, i + 3, LF) { return Some(H.Break(i, 4)); }
      if b[i] == LF && H.ByteIs(b, i + 1, LF) { return Some(H.Break(i, 2)); }
    }
    return None;
  }

  method FindLineEnd(b: Bytes) returns (r: Option<H.Break>)
    ensures r == H.FindLineEnd(b)
  {
    for i := 0 to |b|
      invariant H.FindLineEnd(b) == H.FindLine(b, i)
    {
      if b[i] == CR && H.ByteIs(b, i + 1, LF) { return Some(H.Break(i, 2)); }
      if b[i] == LF { return Some(H.Break(i, 1)); }
    }
    return None;
  }

  class ResponseParser {
    const js: Js
    const maxBody: nat

    var status: nat
    var statusText: string
    var headers: Headers
    var done: bool
    var error: Option<H.HttpError>
    var buffer: Bytes
    var parts: seq<Bytes>
    var bodyLength: nat
    var phase: H.Phase
    var remaining: nat

    function Abs(): H.Parser
      reads this
    {
      H.Parser(status, statusText, headers, done, error, buffer, Joined(parts), bodyLength, phase, remaining)
    }

    /** What is counted is what has been kept. */
    ghost predicate Valid()
      reads this
    {
      H.Counted(maxBody, Abs())
    }

    constructor (js: Js, maxBody: nat)
      ensures this.js == js && this.maxBody == maxBody && Abs() == H.FRESH && Valid()
    {
      this.js, this.maxBody := js, maxBody;
      status, statusText, headers, done, error := 0, "", map[], false, None;
      buffer, parts, bodyLength, phase, remaining := [], [], 0, H.Head, 0;
    }

    method Push(bytes: Bytes)
      modifies this
      ensures Abs() == H.Push(js, maxBody, old(Abs()), bytes)
      ensures old(Valid()) ==> Valid()
    {
      if Valid() { H.CountKept(js, maxBody, Abs(), bytes); }
      hide H.Run, Joined, H.Counted;
      if done || error.Some? { return; }
      buffer := buffer + bytes;
      Run();
    }

    method End() returns (thrown: bool)
      modifies this
      ensures (Abs(), thrown) == H.End(maxBody, old(Abs()))
      ensures old(Valid()) ==> |Joined(parts)| <= bodyLength && (!thrown ==> Valid())
    {
      if Valid() { H.CountKept(js, maxBody, Abs(), []); }
      hide Joined, H.Counted;
      if done || error.Some? { return false; }
      if phase.Close? {
        var tooLarge := TakeBody(buffer);
        if tooLarge { return true; }
        buffer, done := [], true;
        return false;
      }
      error := Some(if phase.Head? then H.ClosedInHead else H.ClosedInBody(remaining));
      return false;
    }

    /** The body so far: an array of the length counted, the parts copied in one after the other. */
    method Body() returns (out: array<byte>)
      requires |Joined(parts)| <= bodyLength
      ensures fresh(out)
      ensures out[..] == Joined(parts) + seq(bodyLength - |Joined(parts)|, _ => 0)
      ensures Valid() && error.None? ==> out[..] == Abs().body
    {
      hide Joined;
      out := new byte[bodyLength](_ => 0);
      var at := 0;
      assert Joined(parts[..0]) == [] by { JoinedNone(); }
      for k := 0 to |parts|
        invariant at == |Joined(parts[..k])| <= |Joined(parts)|
        invariant fresh(out) && out[..] == Joined(parts[..k]) + seq(bodyLength - at, _ => 0)
      {
        assert parts[..k + 1] == parts[..k] + [parts[k]];
        JoinedNext(parts[..k], parts[k]);
        JoinedFits(parts, k + 1);
        CopyIn(out, at, parts[k]);
        at := at + |parts[k]|;
      }
      assert parts[..|parts|] == parts;
    }

    /** `out.set(part, at)`, where there had been zeros. */
    static method CopyIn(out: array<byte>, at: nat, part: Bytes)
      requires at + |part| <= out.Length && out[at..] == seq(out.Length - at, _ => 0)
      modifies out
      ensures out[..] == old(out[..at]) + part + seq(out.Length - at - |part|, _ => 0)
    {
      forall j | 0 <= j < |part| { out[at + j] := part[j]; }
      assert forall j :: at <= j < out.Length ==> old(out[j]) == old(out[at..])[j - at];
    }

    static lemma JoinedNone()
      ensures Joined([]) == []
    {
    }

    lemma JoinedFits(parts: seq<Bytes>, k: nat)
      requires k <= |parts|
      ensures |Joined(parts[..k])| <= |Joined(parts)|
      decreases |parts| - k
    {
      if k == |parts| {
        assert parts[..k] == parts;
      } else {
        assert parts[..k + 1] == parts[..k] + [parts[k]];
        JoinedNext(parts[..k], parts[k]);
        JoinedFits(parts, k + 1);
      }
    }

    method Run()
      requires !done && error.None?
      modifies this
      ensures Abs() == H.Run(js, maxBody, old(Abs()))
    {
      hide *;
      var again := true;
      while again
        invariant H.Run(js, maxBody, old(Abs())) == if again then H.Run(js, maxBody, Abs()) else Abs()
        invariant again ==> error.None?
        decreases again, |buffer|
      {
        ghost var p := Abs();
        again := Turn();
        if again { H.RunComesAgain(js, maxBody, p); } else { H.RunRests(js, maxBody, p); }
      }
    }

    /** One pass of the loop. */
    method Turn() returns (again: bool)
      requires error.None?
      modifies this
      ensures H.OneTurn(js, maxBody, old(Abs())) == if again then H.Again(Abs()) else H.Rest(Abs())
      ensures again ==> error.None? && |buffer| < old(|buffer|)
    {
      hide Joined, H.HeadTurn, H.LengthTurn, H.ChunkSizeTurn, H.TrailerTurn, H.ChunkDataTurn;
      match phase {
        case Head => again := HeadTurn();
        case Length => LengthTurn(); again := false;
        case ChunkSize => again := ChunkSizeTurn();
        case Trailer => TrailerTurn(); again := false;
        case ChunkData => again := ChunkDataTurn();
        case Close => again := false;
      }
    }

    method HeadTurn() returns (again: bool)
      requires error.None?
      modifies this
      ensures H.HeadTurn(js, old(Abs())) == if again then H.Again(Abs()) else H.Rest(Abs())
    {
      hide Joined, H.FindHead, H.ParseHead;
      var head := FindHead(buffer);
      if head.None? { return false; }
      ghost var p := Abs();
      H.ParseKeepsBuffer(js, p, [], js.decode(buffer[..head.value.at]));
      var refused := ParseHead(js.decode(buffer[..head.value.at]));
      if refused { return false; }
      buffer := buffer[head.value.at + head.value.length..];
      return true;
    }

    method ParseHead(text: string) returns (refused: bool)
      requires error.None?
      modifies this
      ensures Abs() == H.ParseHead(js, old(Abs()), text) && refused == error.Some?
      ensures buffer == old(buffer)
    {
      hide Joined, SplitLines, ParseStatus, Lower, H.Contains, AddFields, H.NoBody;
      var lines := SplitLines(text);
      var first := ParseStatus(lines[0]);
      if first.None? {
        error := Some(H.NotHttp);
        return true;
      }
      status, statusText := first.value.status, first.value.text;
      TakeFields(lines[1..]);
      if "transfer-encoding" in headers && H.Contains(Lower(headers["transfer-encoding"]), "chunked") {
        phase := H.ChunkSize;
      } else if "content-length" in headers {
        var length := js.number(headers["content-length"]);
        if length.None? || length.value < 0 {
          error := Some(H.BadLength);
          return true;
        }
        remaining, phase := length.value, H.Length;
      } else if H.NoBody(status) {
        done := true;
      } else {
        phase := H.Close;
      }
      return false;
    }

    method TakeFields(lines: seq<string>)
      modifies `headers
      ensures headers == AddFields(old(headers), lines)
    {
      hide AddField;
      for k := 0 to |lines|
        invariant headers == AddFields(old(headers), lines[..k])
      {
        assert lines[..k + 1][..k] == lines[..k];
        headers := AddField(headers, lines[k]);
      }
      assert lines[..|lines|] == lines;
    }

    /** Body bytes are counted before they are refused. */
    method TakeBody(bytes: Bytes) returns (tooLarge: bool)
      requires error.None?
      modifies this`parts, this`bodyLength
      ensures var q := H.TakeBody(old(Abs()), bytes, maxBody);
              tooLarge == q.error.Some? && Abs() == q.(error := None)
    {
      if bytes == [] { return false; }
      bodyLength := bodyLength + |bytes|;
      if bodyLength > maxBody { return true; }
      JoinedNext(parts, bytes);
      parts := parts + [bytes];
      return false;
    }

    method LengthTurn()
      requires error.None?
      modifies this
      ensures H.LengthTurn(old(Abs()), maxBody) == H.Rest(Abs())
    {
      hide Joined;
      var take := if remaining < |buffer| then remaining else |buffer|;
      if take > 0 {
        var tooLarge := TakeBody(buffer[..take]);
        if tooLarge {
          error := Some(H.TooLarge);
          return;
        }
        buffer := buffer[take..];
        remaining := remaining - take;
      }
      if remaining > 0 { return; }
      done := true;
    }

    method ChunkSizeTurn() returns (again: bool)
      requires error.None?
      modifies this
      ensures H.ChunkSizeTurn(js, old(Abs())) == if again then H.Again(Abs()) else H.Rest(Abs())
    {
      hide Joined, H.FindLineEnd, H.SizeText;
      var line := FindLineEnd(buffer);
      if line.None? { return false; }
      var size := js.hex(H.SizeText(js.decode(buffer[..line.value.at])));
      if size.None? || size.value < 0 {
        error := Some(H.BadChunkSize);
        return false;
      }
      buffer := buffer[line.value.at + line.value.length..];
      if size.value == 0 {
        phase := H.Trailer;
        return true;
      }
      remaining, phase := size.value, H.ChunkData;
      return true;
    }

    method TrailerTurn()
      requires error.None?
      modifies this
      ensures H.TrailerTurn(old(Abs())) == H.Rest(Abs())
    {
      hide Joined, H.FindHead;
      var blank := H.StartsWithNewline(buffer);
      if blank > 0 {
        buffer, done := buffer[blank..], true;
        return;
      }
      var trailers := FindHead(buffer);
      if trailers.None? { return; }
      buffer, done := buffer[trailers.value.at + trailers.value.length..], true;
    }

    method ChunkDataTurn() returns (again: bool)
      requires error.None?
      modifies this
      ensures H.ChunkDataTurn(old(Abs()), maxBody) == if again then H.Again(Abs()) else H.Rest(Abs())
    {
      hide Joined;
      if |buffer| < remaining + 1 { return false; }
      var after := buffer[remaining..];
      var ending := H.StartsWithNewline(after);
      if ending == 0 {
        if |after| < 2 { return false; }
        error := Some(H.BadChunkEnd);
        return false;
      }
      var tooLarge := TakeBody(buffer[..remaining]);
      if tooLarge {
        error := Some(H.TooLarge);
        return false;
      }
      buffer := buffer[remaining + ending..];
      remaining, phase := 0, H.ChunkSize;
      return true;
    }
  }

  class RequestParser {
    const js: Js
    const maxBody: nat
    var method_: string
    var target: string
    var headers: Headers
    var done: bool
    var error: Option<Q.RequestError>
    var buffer: Bytes
    var body: Bytes
    var length: nat
    var remaining: nat
    var phase: Q.Phase

    function Abs(): Q.Parser
      reads this
    {
      Q.Parser(method_, target, headers, done, error, buffer, body, length, remaining, phase)
    }

    constructor (js: Js, maxBody: nat)
      ensures this.js == js && this.maxBody == maxBody && Abs() == Q.FRESH
    {
      this.js, this.maxBody := js, maxBody;
      method_, target, headers, done, error := "", "", map[], false, None;
      buffer, body, length, remaining, phase := [], [], 0, 0, Q.Head;
    }

    method Push(bytes: Bytes)
      modifies this
      ensures Abs() == Q.Push(js, maxBody, old(Abs()), bytes)
    {
      hide H.FindHead, Q.ParseHead, Q.TakeBody;
      if done || error.Some? { return; }
      buffer := buffer + bytes;
      if phase.Head? {
        var head := FindHead(buffer);
        if head.None? { return; }
        ghost var text := js.decode(buffer[..head.value.at]);
        Q.ParseKeepsBuffer(js, Abs(), [], text);
        ParseHead(js.decode(buffer[..head.value.at]));
        if error.Some? { return; }
        buffer := buffer[head.value.at + head.value.length..];
      }
      if !phase.Body? { return; }
      TakeBody();
    }

    method TakeBody()
      modifies this
      ensures Abs() == Q.TakeBody(old(Abs()), maxBody)
    {
      var take := if remaining < |buffer| then remaining else |buffer|;
      if take > 0 {
        length := length + take;
        if length > maxBody {
          error := Some(Q.TooLarge);
          return;
        }
        body := body + buffer[..take];
        buffer := buffer[take..];
        remaining := remaining - take;
      }
      if remaining == 0 { done := true; }
    }

    method ParseHead(text: string)
      modifies this
      ensures Abs() == Q.ParseHead(js, old(Abs()), text)
    {
      hide SplitLines, Q.ParseRequestLine, Q.SetField, Q.LengthOf;
      var lines := SplitLines(text);
      var first := Q.ParseRequestLine(lines[0]);
      if first.None? {
        error := Some(Q.NotHttp);
        return;
      }
      method_, target := first.value.method_, first.value.target;
      var fieldLines := lines[1..];
      for k := 0 to |fieldLines|
        modifies this`headers
        invariant headers == Q.SetFields(old(headers), fieldLines[..k])
      {
        assert fieldLines[..k + 1][..k] == fieldLines[..k];
        headers := Q.SetField(headers, fieldLines[k]);
      }
      assert fieldLines[..|fieldLines|] == fieldLines;
      var found := Q.LengthOf(js, headers);
      if found.None? || found.value < 0 {
        error := Some(Q.BadLength);
        return;
      }
      remaining := found.value;
      phase := if found.value > 0 then Q.Body else Q.Done;
      if found.value == 0 { done := true; }
    }
  }
}
