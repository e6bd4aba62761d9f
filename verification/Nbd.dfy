/**
 * A block device served over a byte stream (src/device/nbd.js): the drain loop
 * that takes whole items off the buffer, and the device behind it.
 */
module Nbd {
  import opened Common
  import opened Wire
  import opened Chunker
  import opened NbdProtocol

  datatype Disk = Disk(bytes: Bytes, epoch: seq<Range>, discarded: seq<Range>, flushes: nat)

  datatype Answer = Answer(error: u32, data: Option<Bytes>, disconnect: bool)

  function Fine(data: Option<Bytes>): Answer { Answer(NONE, data, false) }

  function Handle(d: Disk, r: Request): (Disk, Answer)
    requires r.kind == WRITE ==> |r.data| == r.length
  {
    var error := Validate(r, |d.bytes|);
    if error != NONE then (d, Answer(error, None, false))
    else if r.kind == READ then (d, Fine(Some(d.bytes[r.offset..r.offset + r.length])))
    else if r.kind == WRITE then
      (d.(bytes := WriteAt(d.bytes, r.offset, r.data), epoch := d.epoch + [Range(r.offset, r.length)]), Fine(None))
    else if r.kind == FLUSH then (d.(flushes := d.flushes + 1), Fine(None))
    else if r.kind == TRIM then (d.(discarded := d.discarded + [Range(r.offset, r.length)]), Fine(None))
    else if r.kind == DISCONNECT then (d, Answer(NONE, None, true))
    else (d, Answer(INVALID, None, false))
  }

  // ------------------------------------------------------------- the stream

  /** What the server does to the socket. */
  datatype Out = Sent(bytes: Bytes) | Ended

  datatype Server = Server(disk: Disk, buffer: Bytes, clientFlags: Option<u32>, negotiated: bool, out: seq<Out>)

  function Start(disk: Disk): Server { Server(disk, [], None, false, [Sent(GREETING)]) }

  datatype Turn = Again(s: Server) | Rest(s: Server)

  function FlagsTurn(s: Server): Turn {
    if |s.buffer| < 4 then Rest(s) else Again(s.(clientFlags := Some(U32At(s.buffer, 0)), buffer := s.buffer[4..]))
  }

  /** Anything but the export's name ends the connection. */
  function OptionTurn(s: Server): Turn
    requires s.clientFlags.Some? && |s.disk.bytes| < 0x20_0000_0000_0000
  {
    var option := ParseOption(s.buffer);
    if !option.Item? then Rest(s)
    else
      var t := s.(buffer := s.buffer[option.consumed..]);
      if option.value.option != EXPORT_NAME then Rest(t.(out := t.out + [Ended]))
      else Again(t.(out := t.out + [Sent(ExportBytes(|s.disk.bytes|, s.clientFlags.value / 2 % 2 == 1))], negotiated := true))
  }

  function RequestTurn(s: Server): Turn {
    var request := ParseRequest(s.buffer);
    if !request.Item? then Rest(s)
    else
      var (disk, answer) := Handle(s.disk, request.value);
      var t := s.(
        disk := disk, buffer := s.buffer[request.consumed..],
        out := s.out + [Sent(ReplyBytes(request.value.handle, answer.error))]
                     + if answer.data.Some? && answer.error == NONE then [Sent(answer.data.value)] else []);
      if answer.disconnect then Rest(t.(out := t.out + [Ended])) else Again(t)
  }

  predicate Sized(s: Server) { |s.disk.bytes| < 0x20_0000_0000_0000 }

  function OneTurn(s: Server): (t: Turn)
    requires Sized(s)
    ensures t.Again? ==> |t.s.buffer| < |s.buffer|
    ensures Sized(t.s) && |t.s.buffer| <= |s.buffer| && (t.s == s || |t.s.buffer| < |s.buffer|)
  {
    if s.negotiated then RequestTurn(s)
    else if s.clientFlags.None? then FlagsTurn(s)
    else OptionTurn(s)
  }

  function Drain(s: Server): (r: Server)
    requires Sized(s)
    ensures Sized(r)
    decreases |s.buffer|
  {
    var t := OneTurn(s);
    if t.Rest? then t.s else Drain(t.s)
  }

  function Feed(s: Server, bytes: Bytes): (r: Server)
    requires Sized(s)
    ensures Sized(r)
  {
    Drain(s.(buffer := s.buffer + bytes))
  }

  function FeedAll(s: Server, pieces: seq<Bytes>): (r: Server)
    requires Sized(s)
    ensures Sized(r)
    decreases |pieces|
  {
    if pieces == [] then s else Feed(FeedAll(s, pieces[..|pieces| - 1]), pieces[|pieces| - 1])
  }

  function Whole(pieces: seq<Bytes>): Bytes
    decreases |pieces|
  {
    if pieces == [] then [] else Whole(pieces[..|pieces| - 1]) + pieces[|pieces| - 1]
  }

  function With(s: Server, more: Bytes): Server { s.(buffer := s.buffer + more) }

  /** The buffer holds no whole item: nothing would come of another pass. */
  predicate Stalled(s: Server)
    requires Sized(s)
  {
    OneTurn(s) == Rest(s)
  }

  // ------------------------------------------------------------- however it was cut up

  ghost predicate SameTurn(t: Turn, u: Turn, more: Bytes) {
    u == if t.Again? then Again(With(t.s, more)) else Rest(With(t.s, more))
  }

  lemma FlagsMore(s: Server, more: Bytes)
    requires |s.buffer| >= 4
    ensures FlagsTurn(s).Again? && SameTurn(FlagsTurn(s), FlagsTurn(With(s, more)), more)
  {
    AtStable(s.buffer, more, 0);
    hide U32At;
    SplitMore(s.buffer, 4, more);
  }

  lemma OptionMore(s: Server, more: Bytes)
    requires s.clientFlags.Some? && Sized(s) && ParseOption(s.buffer).Item?
    ensures SameTurn(OptionTurn(s), OptionTurn(With(s, more)), more) && |OptionTurn(With(s, more)).s.buffer| < |s.buffer + more|
  {
    OptionStable(s.buffer, more);
    hide ParseOption, ExportBytes;
    SplitMore(s.buffer, ParseOption(s.buffer).consumed, more);
  }

  lemma RequestMore(s: Server, more: Bytes)
    requires ParseRequest(s.buffer).Item?
    ensures SameTurn(RequestTurn(s), RequestTurn(With(s, more)), more) && |RequestTurn(With(s, more)).s.buffer| < |s.buffer + more|
  {
    RequestStable(s.buffer, more);
    hide ParseRequest, Handle, ReplyBytes;
    SplitMore(s.buffer, ParseRequest(s.buffer).consumed, more);
  }

  /** A pass that did something found a whole item. */
  lemma Unstalled(s: Server)
    requires Sized(s) && !Stalled(s)
    ensures if s.negotiated then ParseRequest(s.buffer).Item? && OneTurn(s) == RequestTurn(s)
            else if s.clientFlags.None? then |s.buffer| >= 4 && OneTurn(s) == FlagsTurn(s)
            else ParseOption(s.buffer).Item? && OneTurn(s) == OptionTurn(s)
  {
    hide ParseRequest, ParseOption, Handle, U32At;
  }

  /** A pass that did something does the same with more behind it. */
  lemma TurnMore(s: Server, more: Bytes)
    requires Sized(s) && !Stalled(s)
    ensures Sized(With(s, more)) && !Stalled(With(s, more))
    ensures var t := OneTurn(s); OneTurn(With(s, more)) == if t.Again? then Again(With(t.s, more)) else Rest(With(t.s, more))
  {
    Unstalled(s);
    if s.negotiated { RequestMore(s, more); } else if s.clientFlags.None? { FlagsMore(s, more); } else { OptionMore(s, more); }
    hide ParseRequest, ParseOption, RequestTurn, FlagsTurn, OptionTurn;
  }

  lemma DrainRests(s: Server)
    requires Sized(s) && OneTurn(s).Rest?
    ensures Drain(s) == OneTurn(s).s
  {
    hide OneTurn;
  }

  lemma DrainGoesOn(s: Server)
    requires Sized(s) && OneTurn(s).Again?
    ensures Drain(s) == Drain(OneTurn(s).s)
  {
    hide OneTurn;
  }

  lemma WithSized(s: Server, more: Bytes)
    requires Sized(s)
    ensures Sized(With(s, more)) && Feed(s, more) == Drain(With(s, more))
  {
    hide Drain;
  }

  lemma StalledDrains(s: Server)
    requires Sized(s) && Stalled(s)
    ensures Drain(s) == s && !Ends(s)
  {
    hide OneTurn;
  }

  /** The drain comes to the end of the connection, not just of what has arrived. */
  predicate Ends(s: Server)
    requires Sized(s)
    decreases |s.buffer|
  {
    var t := OneTurn(s);
    if t.Again? then Ends(t.s) else t.s != s
  }

  lemma EndsHere(s: Server)
    requires Sized(s) && !Stalled(s)
    ensures var t := OneTurn(s); if t.Again? then Ends(s) == Ends(t.s) else Ends(s)
  {
    hide OneTurn;
  }

  /**
   * Once it has come to the end more bytes do not move it; until then draining
   * what has come and then the rest is draining all of it.
   */
  lemma {:induction false} EndsMore(s: Server, more: Bytes)
    requires Sized(s)
    ensures Sized(With(s, more))
    ensures Ends(s) ==> Ends(With(s, more)) && Drain(With(s, more)) == With(Drain(s), more)
    ensures !Ends(s) ==> Stalled(Drain(s)) && Feed(Drain(s), more) == Drain(With(s, more))
    decreases |s.buffer|
  {
    hide *;
    WithSized(s, more);
    if Stalled(s) {
      StalledDrains(s);
    } else {
      TurnMore(s, more);
      EndsHere(s);
      EndsHere(With(s, more));
      var t := OneTurn(s);
      if t.Again? {
        DrainGoesOn(s);
        DrainGoesOn(With(s, more));
        EndsMore(t.s, more);
      } else {
        DrainRests(s);
        DrainRests(With(s, more));
      }
    }
  }

  lemma WithTwice(s: Server, a: Bytes, b: Bytes)
    ensures With(With(s, a), b) == With(s, a + b) && With(s, []) == s
  {
    assert s.buffer + a + b == s.buffer + (a + b);
  }

  lemma {:induction false} CutAnyhow(s: Server, pieces: seq<Bytes>)
    requires Sized(s) && Stalled(s) && Sized(With(s, Whole(pieces))) && Stalled(Drain(With(s, Whole(pieces))))
    ensures FeedAll(s, pieces) == Drain(With(s, Whole(pieces)))
    decreases |pieces|
  {
    if pieces == [] {
      WithTwice(s, [], []);
      StalledDrains(s);
    } else {
      var front, last := pieces[..|pieces| - 1], pieces[|pieces| - 1];
      var early := Whole(front);
      assert Whole(pieces) == early + last;
      hide Drain, Whole, Stalled, Ends;
      WithTwice(s, early, last);
      WithSized(s, early);
      var w := With(s, early);
      EndsMore(w, last);
      WithSized(Drain(w), last);
      if Ends(w) {
        if !Stalled(Drain(w)) { TurnMore(Drain(w), last); }
        StalledDrains(With(Drain(w), last));
      }
      CutAnyhow(s, front);
    }
  }

  /** From the start of a connection, in any pieces: nothing depends on the cuts. */
  lemma FragmentationIndependent(disk: Disk, pieces: seq<Bytes>)
    requires |disk.bytes| < 0x20_0000_0000_0000
    requires Stalled(Drain(With(Start(disk), Whole(pieces))))
    ensures FeedAll(Start(disk), pieces) == Feed(Start(disk), Whole(pieces))
  {
    CutAnyhow(Start(disk), pieces);
  }

  // ------------------------------------------------------------- after the connection has ended

  function Cut(s: Server, n: nat): Server
    requires n <= |s.buffer|
  {
    s.(buffer := s.buffer[..n])
  }

  /** What a pass takes is a prefix of the buffer, and that prefix is enough for it. */
  lemma TurnCut(s: Server, n: nat)
    requires Sized(s) && !Stalled(s) && n <= |OneTurn(s).s.buffer|
    ensures var t, k := OneTurn(s), |s.buffer| - |OneTurn(s).s.buffer|;
            && k + n <= |s.buffer| && t.s.buffer == s.buffer[k..] && Sized(Cut(s, k + n)) && !Stalled(Cut(s, k + n))
            && OneTurn(Cut(s, k + n)) == if t.Again? then Again(Cut(t.s, n)) else Rest(Cut(t.s, n))
  {
    hide *;
    TurnPrefix(s);
    var t := OneTurn(s);
    var k := |s.buffer| - |t.s.buffer|;
    var more := s.buffer[k..k + n];
    Rejoins(s, k, n);
    TurnMore(Cut(s, k), more);
    Rejoins(t.s.(buffer := s.buffer[k..]), 0, n);
    EmptyWith(t.s, more);
    assert t.s.buffer[..n] == more;
    CutIs(t.s, n);
  }

  lemma Rejoins(s: Server, k: nat, n: nat)
    requires k + n <= |s.buffer|
    ensures With(Cut(s, k), s.buffer[k..k + n]) == Cut(s, k + n)
  {
    assert s.buffer[..k] + s.buffer[k..k + n] == s.buffer[..k + n];
  }

  lemma EmptyWith(s: Server, more: Bytes)
    ensures With(s.(buffer := []), more) == s.(buffer := more)
  {
    assert [] + more == more;
  }

  lemma TurnPrefix(s: Server)
    requires Sized(s) && !Stalled(s)
    ensures var t, k := OneTurn(s), |s.buffer| - |OneTurn(s).s.buffer|;
            && t.s.buffer == s.buffer[k..] && Sized(Cut(s, k)) && !Stalled(Cut(s, k))
            && OneTurn(Cut(s, k)) == if t.Again? then Again(t.s.(buffer := [])) else Rest(t.s.(buffer := []))
  {
    Unstalled(s);
    if s.negotiated { RequestCut(s); } else if s.clientFlags.None? { FlagsCut(s); } else { OptionCut(s); }
    hide ParseRequest, ParseOption, RequestTurn, FlagsTurn, OptionTurn;
  }

  /** Whether `u`, from the bytes taken alone, is what `t` was, with nothing left. */
  ghost predicate TookAll(s: Server, t: Turn, u: Turn, k: int) {
    && 0 < k <= |s.buffer| && t.s.buffer == s.buffer[k..] && |t.s.buffer| == |s.buffer| - k
    && u == if t.Again? then Again(t.s.(buffer := [])) else Rest(t.s.(buffer := []))
  }

  lemma FlagsCut(s: Server)
    requires |s.buffer| >= 4
    ensures TookAll(s, FlagsTurn(s), FlagsTurn(Cut(s, 4)), 4)
  {
    AtStable(s.buffer[..4], s.buffer[4..], 0);
    assert s.buffer[..4] + s.buffer[4..] == s.buffer;
    hide U32At;
  }

  lemma OptionCut(s: Server)
    requires s.clientFlags.Some? && Sized(s) && ParseOption(s.buffer).Item?
    ensures var k := ParseOption(s.buffer).consumed; TookAll(s, OptionTurn(s), OptionTurn(Cut(s, k)), k)
  {
    OptionPrefix(s.buffer);
    hide ParseOption, ExportBytes;
  }

  lemma RequestCut(s: Server)
    requires ParseRequest(s.buffer).Item?
    ensures var k := ParseRequest(s.buffer).consumed; TookAll(s, RequestTurn(s), RequestTurn(Cut(s, k)), k)
  {
    RequestPrefix(s.buffer);
    hide ParseRequest, Handle, ReplyBytes;
  }

  lemma EmptyStalls(s: Server)
    requires Sized(s) && s.buffer == []
    ensures Stalled(s) && Drain(s) == s
  {
  }

  /** A drain leaves a suffix of the buffer, and what it took alone would have led to the same. */
  lemma {:induction false} DrainCut(s: Server)
    requires Sized(s)
    ensures |Drain(s).buffer| <= |s.buffer|
    ensures var d, k := Drain(s), |s.buffer| - |Drain(s).buffer|;
            d.buffer == s.buffer[k..] && Sized(Cut(s, k)) && Drain(Cut(s, k)) == Cut(d, 0)
    decreases |s.buffer|
  {
    hide *;
    if Stalled(s) {
      StalledDrains(s);
      CutIs(s, 0);
      EmptyStalls(Cut(s, 0));
      assert s.buffer[0..] == s.buffer;
    } else {
      var t := OneTurn(s);
      if t.Again? {
        DrainGoesOn(s);
        DrainCut(t.s);
        var n := |t.s.buffer| - |Drain(s).buffer|;
        TurnCut(s, n);
        DrainGoesOn(Cut(s, |s.buffer| - |t.s.buffer| + n));
      } else {
        DrainRests(s);
        TurnCut(s, 0);
        DrainRests(Cut(s, |s.buffer| - |t.s.buffer| + 0));
      }
    }
  }

  lemma CutIs(s: Server, n: nat)
    requires n <= |s.buffer|
    ensures Cut(s, n) == s.(buffer := s.buffer[..n]) && |Cut(s, n).buffer| == n && (Sized(Cut(s, n)) <==> Sized(s))
  {
  }

  // ------------------------------------------------------------- up to the end, in any case

  lemma {:induction false} DrainLogs(s: Server)
    requires Sized(s)
    ensures s.out <= Drain(s).out
    decreases |s.buffer|
  {
    var t := OneTurn(s);
    hide OneTurn;
    if t.Again? { DrainLogs(t.s); }
  }

  /** Whatever the pieces, the server says at least what it says to the whole, in the same order. */
  lemma {:induction false} SaysAsMuch(s: Server, pieces: seq<Bytes>)
    requires Sized(s) && Stalled(s)
    ensures Sized(With(s, Whole(pieces))) && Drain(With(s, Whole(pieces))).out <= FeedAll(s, pieces).out
    decreases |pieces|
  {
    WithSized(s, Whole(pieces));
    if pieces == [] {
      WithTwice(s, [], []);
    } else {
      var front, last := pieces[..|pieces| - 1], pieces[|pieces| - 1];
      var early := Whole(front);
      assert Whole(pieces) == early + last;
      var f := FeedAll(s, front);
      assert FeedAll(s, pieces) == Feed(f, last);
      hide *;
      WithTwice(s, early, last);
      WithSized(s, early);
      var w := With(s, early);
      EndsMore(w, last);
      if Ends(w) {
        SaysAsMuch(s, front);
        WithSized(f, last);
        DrainLogs(With(f, last));
      } else {
        CutAnyhow(s, front);
      }
    }
  }

  // ------------------------------------------------------------- what is recorded

  /** Every byte that differs from what was there at the last seal is in a recorded range. */
  ghost predicate Recorded(sealedAs: Bytes, d: Disk) {
    |d.bytes| == |sealedAs| && forall k :: 0 <= k < |sealedAs| && d.bytes[k] != sealedAs[k] ==> Written(d.epoch, k)
  }

  lemma HandleRecords(sealedAs: Bytes, d: Disk, r: Request)
    requires Recorded(sealedAs, d) && (r.kind == WRITE ==> |r.data| == r.length)
    ensures Recorded(sealedAs, Handle(d, r).0)
  {
    var next := Handle(d, r).0;
    forall k | 0 <= k < |sealedAs| && next.bytes[k] != sealedAs[k] ensures Written(next.epoch, k) {
      if d.bytes[k] != sealedAs[k] {
        var j :| 0 <= j < |d.epoch| && Covers(d.epoch[j], k);
        assert Covers(next.epoch[j], k);
      } else {
        assert Covers(next.epoch[|d.epoch|], k);
      }
    }
  }

  lemma {:induction false} DrainRecords(sealedAs: Bytes, s: Server)
    requires Sized(s) && Recorded(sealedAs, s.disk)
    ensures Recorded(sealedAs, Drain(s).disk)
    decreases |s.buffer|
  {
    var t := OneTurn(s);
    if s.negotiated && ParseRequest(s.buffer).Item? { HandleRecords(sealedAs, s.disk, ParseRequest(s.buffer).value); }
    hide Recorded, ParseRequest, ParseOption, Handle;
    assert Recorded(sealedAs, t.s.disk);
    hide OneTurn;
    if t.Again? { DrainRecords(sealedAs, t.s); }
  }

  /** However long the client has been served, in whatever pieces. */
  lemma {:induction false} FeedRecords(sealedAs: Bytes, s: Server, pieces: seq<Bytes>)
    requires Sized(s) && Recorded(sealedAs, s.disk)
    ensures Recorded(sealedAs, FeedAll(s, pieces).disk)
    decreases |pieces|
  {
    if pieces != [] {
      var front, last := pieces[..|pieces| - 1], pieces[|pieces| - 1];
      FeedRecords(sealedAs, s, front);
      hide Recorded, Drain;
      DrainRecords(sealedAs, With(FeedAll(s, front), last));
    }
  }

  // ------------------------------------------------------------- a whole session

  /** A request a client may send: a handle of eight bytes, and a payload when it is a write. */
  predicate Sendable(r: Request) {
    r.flags == 0 && |r.handle| == 8 && |r.data| == if r.kind == WRITE then r.length else 0
  }

  predicate AllSendable(requests: seq<Request>) {
    forall k :: 0 <= k < |requests| ==> Sendable(requests[k]) && requests[k].kind != DISCONNECT
  }

  function Wired(r: Request): Bytes { RequestBytes(r.kind, r.handle, r.offset, r.length, r.data) }

  function AllWired(requests: seq<Request>): Bytes {
    if requests == [] then [] else Wired(requests[0]) + AllWired(requests[1..])
  }

  /** The reply's header, and what was read. */
  function Replied(r: Request, answer: Answer): seq<Out> {
    [Sent(ReplyBytes(r.handle, answer.error))] + if answer.data.Some? && answer.error == NONE then [Sent(answer.data.value)] else []
  }

  /** The requests answered in order, on the disk as the ones before left it. */
  function Served(disk: Disk, requests: seq<Request>): (Disk, seq<Out>)
    requires AllSendable(requests)
    decreases |requests|
  {
    if requests == [] then (disk, [])
    else
      var (next, answer) := Handle(disk, requests[0]);
      var (last, rest) := Served(next, requests[1..]);
      (last, Replied(requests[0], answer) + rest)
  }

  /** One request at the front of the buffer is answered, and consumed whole, refused or not. */
  lemma RequestServed(s: Server, r: Request, rest: Bytes)
    requires Sized(s) && s.negotiated && Sendable(r) && s.buffer == Wired(r) + rest
    ensures var (disk, answer) := Handle(s.disk, r);
            var t := s.(disk := disk, buffer := rest, out := s.out + Replied(r, answer));
            OneTurn(s) == if r.kind == DISCONNECT then Rest(t.(out := t.out + [Ended])) else Again(t)
  {
    hide Digits, U16Bytes, Number, U32At, U64At;
    RequestReadsBack(r.kind, r.handle, r.offset, r.length, r.data, rest);
    hide U32Bytes, U64Bytes;
    assert ParseRequest(s.buffer) == Item(r, REQUEST_BYTES + |r.data|);
    assert |Wired(r)| == REQUEST_BYTES + |r.data|;
    assert s.buffer[|Wired(r)|..] == rest;
    OnlyDisconnects(s.disk, r);
    hide ParseRequest, RequestBytes, ReplyBytes, Handle;
  }

  lemma OnlyDisconnects(d: Disk, r: Request)
    requires r.kind == WRITE ==> |r.data| == r.length
    ensures Handle(d, r).1.disconnect <==> r.kind == DISCONNECT
  {
    hide WriteAt;
  }

  /** Requests at the front of the buffer are answered in order before what is behind them is looked at. */
  lemma {:induction false} RequestsServed(s: Server, requests: seq<Request>, behind: Bytes)
    requires Sized(s) && s.negotiated && AllSendable(requests) && s.buffer == AllWired(requests) + behind
    ensures var (disk, out) := Served(s.disk, requests);
            var t := s.(disk := disk, buffer := behind, out := s.out + out);
            Sized(t) && Drain(s) == Drain(t)
    decreases |requests|
  {
    hide *;
    if requests == [] {
      NoneServed(s.disk);
      assert s.out + [] == s.out && [] + behind == behind;
    } else {
      FirstServed(s.disk, requests);
      var r, rest := requests[0], AllWired(requests[1..]) + behind;
      assert s.buffer == Wired(r) + rest;
      RequestServed(s, r, rest);
      DrainGoesOn(s);
      RequestsServed(OneTurn(s).s, requests[1..], behind);
      var (next, answer) := Handle(s.disk, r);
      var (last, more) := Served(next, requests[1..]);
      assert s.out + Replied(r, answer) + more == s.out + (Replied(r, answer) + more);
    }
  }

  lemma NoneServed(disk: Disk)
    ensures AllSendable([]) && Served(disk, []) == (disk, []) && AllWired([]) == []
  {
  }

  lemma FirstServed(disk: Disk, requests: seq<Request>)
    requires requests != [] && AllSendable(requests)
    ensures Sendable(requests[0]) && requests[0].kind != DISCONNECT && AllSendable(requests[1..])
    ensures requests[0].kind == WRITE ==> |requests[0].data| == requests[0].length
    ensures AllWired(requests) == Wired(requests[0]) + AllWired(requests[1..])
    ensures var (next, answer) := Handle(disk, requests[0]);
            var (last, rest) := Served(next, requests[1..]);
            Served(disk, requests) == (last, Replied(requests[0], answer) + rest)
  {
    hide Handle, Replied, Wired;
  }

  /**
   * A whole session, in whatever pieces it arrives: greeting, export, then each
   * request answered in order on the disk the ones before left.
   */
  lemma SessionServed(disk: Disk, flags: u32, name: Bytes, requests: seq<Request>, pieces: seq<Bytes>)
    requires |disk.bytes| < 0x20_0000_0000_0000 && |name| < 0x1_0000_0000 && AllSendable(requests)
    requires Whole(pieces) == U32Bytes(flags) + (OptionBytes(EXPORT_NAME, name) + AllWired(requests))
    ensures var (last, out) := Served(disk, requests);
            FeedAll(Start(disk), pieces) ==
              Server(last, [], Some(flags), true,
                     [Sent(GREETING), Sent(ExportBytes(|disk.bytes|, flags / 2 % 2 == 1))] + out)
  {
    hide *;
    var s, input, rest := Start(disk), Whole(pieces), AllWired(requests);
    StartIs(disk, input);
    var s1 := With(s, input);
    FlagsServed(s1, flags, OptionBytes(EXPORT_NAME, name) + rest);
    DrainGoesOn(s1);
    var s2 := OneTurn(s1).s;
    ExportServed(s2, name, rest);
    DrainGoesOn(s2);
    var s3 := OneTurn(s2).s;
    assert rest + [] == rest;
    RequestsServed(s3, requests, []);
    var (last, out) := Served(disk, requests);
    EmptyStalls(s3.(disk := last, buffer := [], out := s3.out + out));
    FragmentationIndependent(disk, pieces);
    WithSized(s, input);
    var sent := [Sent(ExportBytes(|disk.bytes|, flags / 2 % 2 == 1))];
    assert [Sent(GREETING)] + sent == [Sent(GREETING), Sent(ExportBytes(|disk.bytes|, flags / 2 % 2 == 1))];
  }

  lemma StartIs(disk: Disk, input: Bytes)
    requires |disk.bytes| < 0x20_0000_0000_0000
    ensures Sized(Start(disk)) && Sized(With(Start(disk), input))
    ensures With(Start(disk), input) == Server(disk, input, None, false, [Sent(GREETING)])
  {
    assert [] + input == input;
  }

  lemma FlagsServed(s: Server, flags: u32, rest: Bytes)
    requires Sized(s) && !s.negotiated && s.clientFlags.None? && s.buffer == U32Bytes(flags) + rest
    ensures OneTurn(s) == Again(s.(clientFlags := Some(flags), buffer := rest))
  {
    assert s.buffer[0..4] == U32Bytes(flags) && s.buffer[4..] == rest;
    U32Reads(s.buffer, 0, flags);
    hide U32At, U32Bytes;
  }

  lemma ExportServed(s: Server, name: Bytes, rest: Bytes)
    requires Sized(s) && !s.negotiated && s.clientFlags.Some? && |name| < 0x1_0000_0000
    requires s.buffer == OptionBytes(EXPORT_NAME, name) + rest
    ensures OneTurn(s) == Again(s.(
              buffer := rest, negotiated := true,
              out := s.out + [Sent(ExportBytes(|s.disk.bytes|, s.clientFlags.value / 2 % 2 == 1))]))
  {
    OptionReadsBack(EXPORT_NAME, name, rest);
    assert |OptionBytes(EXPORT_NAME, name)| == OPTION_BYTES + |name|;
    assert s.buffer[OPTION_BYTES + |name|..] == rest;
    hide ParseOption, OptionBytes, ExportBytes;
  }
}
