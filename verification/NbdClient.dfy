/**
 * A served block device from the client's end (src/device/nbd.js): what each
 * request is answered, and what a whole session reads back.
 */
module NbdClient {
  import opened Common
  import opened Wire
  import opened Chunker
  import opened NbdProtocol
  import opened Nbd
  import opened NbdCuts

  // ------------------------------------------------------------- one request

  /** The request runs past the end of a disk of this size; a flush and a disconnect have no place on it. */
  predicate Past(r: Request, size: nat) { r.kind != 3 && r.kind != 2 && r.offset + r.length > size }

  /** Reads, writes, disconnects, flushes and trims; there are no others. */
  function ErrorFor(r: Request, size: nat): u32 {
    if Past(r, size) then 28 else if r.kind <= 4 then 0 else 22
  }

  /** A write that is carried out, and the byte it puts at `k`. */
  predicate Puts(r: Request, size: nat, k: nat) {
    r.kind == 1 && !Past(r, size) && r.offset <= k < r.offset + r.length
  }

  /**
   * What a request does and is answered. A read gets the bytes of the disk from
   * its offset on; a write puts its data there, and is recorded; a flush is
   * counted, a trim noted, and nothing else touches anything.
   */
  lemma HandledRight(d: Disk, r: Request)
    requires r.kind == WRITE ==> |r.data| == r.length
    ensures var (e, answer) := Handle(d, r);
            && answer.error == ErrorFor(r, |d.bytes|) && (answer.disconnect <==> r.kind == 2)
            && (answer.data.Some? <==> r.kind == 0 && !Past(r, |d.bytes|))
            && (answer.data.Some? ==>
                  |answer.data.value| == r.length && forall k :: 0 <= k < r.length ==> answer.data.value[k] == d.bytes[r.offset + k])
            && |e.bytes| == |d.bytes|
            && (forall k :: 0 <= k < |d.bytes| ==>
                  e.bytes[k] == if Puts(r, |d.bytes|, k) then r.data[k - r.offset] else d.bytes[k])
            && e.epoch == d.epoch + (if r.kind == 1 && !Past(r, |d.bytes|) then [Range(r.offset, r.length)] else [])
            && e.discarded == d.discarded + (if r.kind == 4 && !Past(r, |d.bytes|) then [Range(r.offset, r.length)] else [])
            && e.flushes == d.flushes + if r.kind == 3 then 1 else 0
  {
    assert d.epoch + [] == d.epoch && d.discarded + [] == d.discarded;
  }

  // ------------------------------------------------------------- one request after another

  /** The byte at `k` after these requests: what the last write carried out there put, or what was there. */
  function ByteAfter(base: Bytes, requests: seq<Request>, k: nat): byte
    requires k < |base| && AllSendable(requests)
    decreases |requests|
  {
    if requests == [] then base[k]
    else
      var r := requests[|requests| - 1];
      if Puts(r, |base|, k) then r.data[k - r.offset] else ByteAfter(base, requests[..|requests| - 1], k)
  }

  /** The last write there decides. */
  lemma {:induction false} LastWriteDecides(base: Bytes, requests: seq<Request>, j: nat, k: nat)
    requires k < |base| && AllSendable(requests) && j < |requests| && Puts(requests[j], |base|, k)
    requires forall i :: j < i < |requests| ==> !Puts(requests[i], |base|, k)
    ensures ByteAfter(base, requests, k) == requests[j].data[k - requests[j].offset]
    decreases |requests|
  {
    if j < |requests| - 1 { LastWriteDecides(base, requests[..|requests| - 1], j, k); }
  }

  lemma {:induction false} NoWriteKeeps(base: Bytes, requests: seq<Request>, k: nat)
    requires k < |base| && AllSendable(requests)
    requires forall i :: 0 <= i < |requests| ==> !Puts(requests[i], |base|, k)
    ensures ByteAfter(base, requests, k) == base[k]
    decreases |requests|
  {
    if requests != [] { NoWriteKeeps(base, requests[..|requests| - 1], k); }
  }

  /** The disk has the bytes the requests left. */
  ghost predicate Left(base: Bytes, requests: seq<Request>, d: Disk)
    requires AllSendable(requests)
  {
    |d.bytes| == |base| && forall k :: 0 <= k < |base| ==> d.bytes[k] == ByteAfter(base, requests, k)
  }

  lemma LeftNext(base: Bytes, requests: seq<Request>, r: Request, d: Disk)
    requires AllSendable(requests) && Left(base, requests, d) && Sendable(r) && r.kind != DISCONNECT
    ensures AllSendable(requests + [r]) && Left(base, requests + [r], Handle(d, r).0)
  {
    HandledRight(d, r);
    hide Handle;
    assert (requests + [r])[..|requests|] == requests;
  }

  // ------------------------------------------------------------- what the client reads

  datatype Reply = Reply(error: u32, handle: Bytes, data: Bytes)

  /**
   * The client's side of the protocol: a header of sixteen bytes that starts with
   * the magic number, and behind it what was read, if it was a read and went
   * well. None when the bytes are no such reply.
   */
  function ReadReply(r: Request, b: Bytes): (reply: Option<Reply>)
    ensures reply.Some? ==> 16 + |reply.value.data| <= |b|
  {
    if |b| < 16 || U32At(b, 0) != 0x67446698 then None
    else
      var error := U32At(b, 4);
      var length := if r.kind == 0 && error == 0 then r.length else 0;
      if |b| < 16 + length then None else Some(Reply(error, b[8..16], b[16..16 + length]))
  }

  /** One reply to each request, and what is left. */
  function ReadReplies(requests: seq<Request>, b: Bytes): (r: Option<(seq<Reply>, Bytes)>)
    ensures r.Some? ==> |r.value.0| == |requests|
    decreases |requests|
  {
    if requests == [] then Some(([], b))
    else
      var reply := ReadReply(requests[0], b);
      if reply.None? then None
      else
        var rest := ReadReplies(requests[1..], b[16 + |reply.value.data|..]);
        if rest.None? then None else Some(([reply.value] + rest.value.0, rest.value.1))
  }

  /** The reply the request should have, `before` having come first. */
  ghost predicate RightReply(base: Bytes, before: seq<Request>, r: Request, reply: Reply)
    requires AllSendable(before)
  {
    && reply.error == ErrorFor(r, |base|) && reply.handle == r.handle
    && |reply.data| == (if r.kind == 0 && !Past(r, |base|) then r.length else 0)
    && forall k :: 0 <= k < |reply.data| && r.offset + k < |base| ==> reply.data[k] == ByteAfter(base, before, r.offset + k)
  }

  ghost predicate AllRight(base: Bytes, before: seq<Request>, requests: seq<Request>, replies: seq<Reply>)
    requires AllSendable(before) && AllSendable(requests)
  {
    |replies| == |requests| &&
    forall i :: 0 <= i < |requests| ==> RightReply(base, before + requests[..i], requests[i], replies[i])
  }

  /** The bytes of one reply: its header, and what was read. */
  function ReplyWired(r: Request, answer: Answer): Bytes {
    ReplyBytes(r.handle, answer.error) + if answer.data.Some? && answer.error == NONE then answer.data.value else []
  }

  lemma SaidReplied(out: seq<Out>, r: Request, answer: Answer)
    ensures Said(out + Replied(r, answer)) == Said(out) + ReplyWired(r, answer)
  {
    var header := Sent(ReplyBytes(r.handle, answer.error));
    hide ReplyBytes, Said;
    SaidNext(out, header);
    if answer.data.Some? && answer.error == NONE {
      var data := answer.data.value;
      SaidNext(out + [header], Sent(data));
      assert out + Replied(r, answer) == out + [header] + [Sent(data)];
    } else {
      assert out + Replied(r, answer) == out + [header] && Said(out) + (header.bytes + []) == Said(out) + header.bytes;
    }
  }

  /** One reply is read for what it is, whatever follows. */
  lemma ReplyReads(base: Bytes, before: seq<Request>, d: Disk, r: Request, rest: Bytes)
    requires AllSendable(before) && Left(base, before, d) && Sendable(r) && r.kind != DISCONNECT
    ensures var b := ReplyWired(r, Handle(d, r).1) + rest;
            var reply := ReadReply(r, b);
            reply.Some? && RightReply(base, before, r, reply.value) && b[16 + |reply.value.data|..] == rest
  {
    HandledRight(d, r);
    ReplyParts(r, Handle(d, r).1, rest);
    hide Handle, ByteAfter, U32At, ReplyWired;
  }

  lemma ReplyParts(r: Request, answer: Answer, rest: Bytes)
    requires |r.handle| == 8
    ensures var b := ReplyWired(r, answer) + rest;
            var data := if answer.data.Some? && answer.error == 0 then answer.data.value else [];
            && |b| == 16 + |data| + |rest| && U32At(b, 0) == 0x67446698 && U32At(b, 4) == answer.error
            && b[8..16] == r.handle && b[16..16 + |data|] == data && b[16 + |data|..] == rest
  {
    hide U32At, U32Bytes;
    var b := ReplyWired(r, answer) + rest;
    assert b[0..4] == U32Bytes(REPLY) && b[4..8] == U32Bytes(answer.error);
    U32Reads(b, 0, REPLY);
    U32Reads(b, 4, answer.error);
  }

  /** Every reply is right, and the disk is left as the requests left it. */
  lemma {:induction false} ServedRight(base: Bytes, before: seq<Request>, disk: Disk, requests: seq<Request>, rest: Bytes)
    requires AllSendable(before) && AllSendable(requests) && Left(base, before, disk)
    ensures AllSendable(before + requests)
    ensures var (last, out) := Served(disk, requests);
            var read := ReadReplies(requests, Said(out) + rest);
            && Left(base, before + requests, last) && read.Some? && read.value.1 == rest
            && AllRight(base, before, requests, read.value.0)
    decreases |requests|
  {
    hide *;
    if requests == [] {
      NoneRight(base, before, disk, rest);
    } else {
      var r, more := requests[0], requests[1..];
      FirstServed(disk, requests);
      var (next, answer) := Handle(disk, r);
      LeftNext(base, before, r, disk);
      ServedRight(base, before + [r], next, more, rest);
      var out := Served(next, more).1;
      SaidAfter(r, answer, out);
      var tail := Said(out) + rest;
      ReplyReads(base, before, disk, r, tail);
      assert Said(Replied(r, answer) + out) + rest == ReplyWired(r, answer) + tail;
      assert before + [r] + more == before + requests;
      OneMoreRead(requests, ReplyWired(r, answer) + tail);
      OneMoreRight(base, before, requests, ReadReplies(requests, ReplyWired(r, answer) + tail).value.0);
    }
  }

  lemma NoneRight(base: Bytes, before: seq<Request>, disk: Disk, rest: Bytes)
    requires AllSendable(before) && Left(base, before, disk)
    ensures before + [] == before && Served(disk, []) == (disk, []) && Said([]) == [] && [] + rest == rest
    ensures ReadReplies([], rest) == Some(([], rest)) && AllRight(base, before, [], [])
  {
  }

  lemma {:induction false} SaidBoth(out: seq<Out>, more: seq<Out>)
    ensures Said(out + more) == Said(out) + Said(more)
    decreases |more|
  {
    if more == [] {
      assert out + [] == out;
    } else {
      var n := |more| - 1;
      assert out + more == (out + more[..n]) + [more[n]];
      SaidBoth(out, more[..n]);
      SaidNext(out + more[..n], more[n]);
    }
  }

  lemma SaidAfter(r: Request, answer: Answer, out: seq<Out>)
    ensures Said(Replied(r, answer) + out) == ReplyWired(r, answer) + Said(out)
  {
    SaidBoth(Replied(r, answer), out);
    SaidReplied([], r, answer);
    hide Replied, ReplyWired;
    assert [] + Replied(r, answer) == Replied(r, answer);
  }

  lemma OneMoreRead(requests: seq<Request>, b: Bytes)
    requires requests != [] && ReadReply(requests[0], b).Some?
    requires ReadReplies(requests[1..], b[16 + |ReadReply(requests[0], b).value.data|..]).Some?
    ensures var reply := ReadReply(requests[0], b).value;
            var rest := ReadReplies(requests[1..], b[16 + |reply.data|..]).value;
            ReadReplies(requests, b) == Some(([reply] + rest.0, rest.1))
  {
    hide ReadReply;
  }

  lemma OneMoreRight(base: Bytes, before: seq<Request>, requests: seq<Request>, replies: seq<Reply>)
    requires requests != [] && AllSendable(before) && AllSendable(requests) && AllSendable(before + [requests[0]]) && replies != []
    requires RightReply(base, before, requests[0], replies[0])
    requires AllRight(base, before + [requests[0]], requests[1..], replies[1..])
    ensures AllRight(base, before, requests, replies)
  {
    hide RightReply;
    assert before + requests[..0] == before;
    forall i | 0 < i < |requests| ensures RightReply(base, before + requests[..i], requests[i], replies[i]) {
      assert before + [requests[0]] + requests[1..][..i - 1] == before + requests[..i];
      assert RightReply(base, before + [requests[0]] + requests[1..][..i - 1], requests[1..][i - 1], replies[1..][i - 1]);
    }
  }

  // ------------------------------------------------------------- a whole session

  /** Where the replies begin: behind the greeting and the export, padded unless the client asked for no padding. */
  function Opening(flags: u32): nat { if flags / 2 % 2 == 1 then 28 else 152 }

  /** The greeting and the export as the client reads them. */
  ghost predicate Opened(b: Bytes, flags: u32, size: nat) {
    && |b| >= Opening(flags) && U64At(b, 0) == 0x4e42444d41474943 && U64At(b, 8) == 0x49484156454f5054 && U16At(b, 16) == 3
    && U64At(b, 18) == size && U16At(b, 26) == 0x25 && forall k :: 28 <= k < Opening(flags) ==> b[k] == 0
  }

  lemma OpeningReads(flags: u32, size: nat, rest: Bytes)
    requires size < 0x20_0000_0000_0000
    ensures var b := GREETING + ExportBytes(size, flags / 2 % 2 == 1) + rest;
            Opened(b, flags, size) && b[Opening(flags)..] == rest
  {
    hide U16Bytes, U64Bytes, U16At, U64At;
    var b := GREETING + ExportBytes(size, flags / 2 % 2 == 1) + rest;
    assert b[0..8] == U64Bytes(HELLO) && b[8..16] == U64Bytes(OPTION) && b[16..18] == U16Bytes(3);
    assert b[18..26] == U64Bytes(size) && b[26..28] == U16Bytes(TRANSMISSION_FLAGS);
    U64Reads(b, 0, HELLO);
    U64Reads(b, 8, OPTION);
    U16Reads(b, 16, 3);
    U64Reads(b, 18, size);
    U16Reads(b, 26, TRANSMISSION_FLAGS);
  }

  /**
   * A client that connects, in whatever pieces its bytes arrive, reads the size
   * of the disk, and then one reply to each request in order: its handle, whether
   * it could be done, and for a read the bytes the last write to each place left.
   * Nothing else is sent, and the disk is left with what was written.
   */
  lemma SessionAnswered(disk: Disk, flags: u32, name: Bytes, requests: seq<Request>, pieces: seq<Bytes>)
    requires |disk.bytes| < 0x20_0000_0000_0000 && |name| < 0x1_0000_0000 && AllSendable(requests)
    requires Whole(pieces) == U32Bytes(flags) + (OptionBytes(EXPORT_NAME, name) + AllWired(requests))
    ensures var s := FeedAll(Start(disk), pieces);
            var b := Said(s.out);
            && Opened(b, flags, |disk.bytes|) && s.buffer == [] && Left(disk.bytes, requests, s.disk)
            && var read := ReadReplies(requests, b[Opening(flags)..]);
               read.Some? && read.value.1 == [] && AllRight(disk.bytes, [], requests, read.value.0)
  {
    hide *;
    SessionServed(disk, flags, name, requests, pieces);
    var (last, out) := Served(disk, requests);
    Untouched(disk);
    ServedRight(disk.bytes, [], disk, requests, []);
    var exported := ExportBytes(|disk.bytes|, flags / 2 % 2 == 1);
    SaidBoth([Sent(GREETING), Sent(exported)], out);
    SaidTwo(GREETING, exported);
    OpeningReads(flags, |disk.bytes|, Said(out));
    assert [] + requests == requests && Said(out) + [] == Said(out);
  }

  lemma Untouched(disk: Disk)
    ensures AllSendable([]) && Left(disk.bytes, [], disk)
  {
  }

  lemma SaidTwo(a: Bytes, b: Bytes)
    ensures Said([Sent(a), Sent(b)]) == a + b
  {
    SaidNext([], Sent(a));
    SaidNext([Sent(a)], Sent(b));
    assert [] + [Sent(a)] == [Sent(a)] && [Sent(a)] + [Sent(b)] == [Sent(a), Sent(b)] && [] + a == a;
  }

  // ------------------------------------------------------------- how a session ends

  /** A disconnect behind the requests is acknowledged, once they have been answered, and then the server ends too. */
  lemma SessionEnds(disk: Disk, flags: u32, name: Bytes, requests: seq<Request>, bye: Request, pieces: seq<Bytes>)
    requires |disk.bytes| < 0x20_0000_0000_0000 && |name| < 0x1_0000_0000 && AllSendable(requests)
    requires Sendable(bye) && bye.kind == 2
    requires Whole(pieces) == U32Bytes(flags) + (OptionBytes(EXPORT_NAME, name) + (AllWired(requests) + Wired(bye)))
    ensures var (last, out) := Served(disk, requests);
            FeedAll(Start(disk), pieces) ==
              Server(last, [], Some(flags), true,
                     [Sent(GREETING), Sent(ExportBytes(|disk.bytes|, flags / 2 % 2 == 1))] + out
                     + [Sent(ReplyBytes(bye.handle, 0)), Ended])
  {
    hide *;
    var s, input, rest := Start(disk), Whole(pieces), AllWired(requests) + Wired(bye);
    StartIs(disk, input);
    var s1 := With(s, input);
    FlagsServed(s1, flags, OptionBytes(EXPORT_NAME, name) + rest);
    DrainGoesOn(s1);
    var s2 := OneTurn(s1).s;
    ExportServed(s2, name, rest);
    DrainGoesOn(s2);
    var s3 := OneTurn(s2).s;
    RequestsServed(s3, requests, Wired(bye));
    var (last, out) := Served(disk, requests);
    var opening := [Sent(GREETING), Sent(ExportBytes(|disk.bytes|, flags / 2 % 2 == 1))];
    assert [Sent(GREETING)] + [Sent(ExportBytes(|disk.bytes|, flags / 2 % 2 == 1))] == opening;
    var s4 := s3.(disk := last, buffer := Wired(bye), out := opening + out);
    ByeServed(s4, bye);
    DrainRests(s4);
    EmptyStalls(OneTurn(s4).s);
    FragmentationIndependent(disk, pieces);
    WithSized(s, input);
  }

  lemma ByeServed(s: Server, bye: Request)
    requires Sized(s) && s.negotiated && Sendable(bye) && bye.kind == 2 && s.buffer == Wired(bye)
    ensures OneTurn(s) == Rest(s.(buffer := [], out := s.out + [Sent(ReplyBytes(bye.handle, 0)), Ended]))
  {
    hide *;
    assert Wired(bye) + [] == Wired(bye);
    ByeIs(bye);
    ByeHandled(s.disk, bye);
    RequestServed(s, bye, []);
    var said := [Sent(ReplyBytes(bye.handle, 0))];
    assert OneTurn(s) == Rest(s.(buffer := [], out := s.out + said + [Ended]));
    assert s.out + said + [Ended] == s.out + [Sent(ReplyBytes(bye.handle, 0)), Ended];
  }

  lemma ByeIs(bye: Request)
    ensures bye.kind == 2 <==> bye.kind == DISCONNECT
  {
  }

  lemma ByeHandled(disk: Disk, bye: Request)
    requires bye.kind == 2
    ensures var (next, answer) := Handle(disk, bye); next == disk && Replied(bye, answer) == [Sent(ReplyBytes(bye.handle, 0))]
  {
    hide ReplyBytes;
  }

  /** Asked for anything but the export the server ends at once: no size, no service. */
  lemma OptionRefused(disk: Disk, flags: u32, option: u32, data: Bytes, pieces: seq<Bytes>)
    requires |disk.bytes| < 0x20_0000_0000_0000 && |data| < 0x1_0000_0000 && option != 1
    requires Whole(pieces) == U32Bytes(flags) + OptionBytes(option, data)
    ensures FeedAll(Start(disk), pieces) == Server(disk, [], Some(flags), false, [Sent(GREETING), Ended])
  {
    hide *;
    var s, input := Start(disk), Whole(pieces);
    StartIs(disk, input);
    var s1 := With(s, input);
    FlagsServed(s1, flags, OptionBytes(option, data));
    DrainGoesOn(s1);
    var s2 := OneTurn(s1).s;
    RefusedEnds(s2, option, data);
    DrainRests(s2);
    EmptyStalls(OneTurn(s2).s);
    FragmentationIndependent(disk, pieces);
    WithSized(s, input);
    assert [Sent(GREETING)] + [Ended] == [Sent(GREETING), Ended];
  }

  lemma RefusedEnds(s: Server, option: u32, data: Bytes)
    requires Sized(s) && !s.negotiated && s.clientFlags.Some? && |data| < 0x1_0000_0000 && option != 1
    requires s.buffer == OptionBytes(option, data)
    ensures OneTurn(s) == Rest(s.(buffer := [], out := s.out + [Ended]))
  {
    OptionReadsBack(option, data, []);
    assert |OptionBytes(option, data)| == OPTION_BYTES + |data|;
    assert s.buffer + [] == s.buffer && s.buffer[OPTION_BYTES + |data|..] == [];
    hide ParseOption, OptionBytes, ExportBytes;
  }

  // ------------------------------------------------------------- where each field stands

  lemma RequestLayout(r: Request)
    requires |r.handle| == 8
    ensures var b := Wired(r);
            && |b| == 28 + |r.data| && b[..4] == [0x25, 0x60, 0x95, 0x13] && b[4..6] == [0, 0] && b[6..8] == U16Bytes(r.kind)
            && b[8..16] == r.handle && b[16..24] == U64Bytes(r.offset) && b[24..28] == U32Bytes(r.length) && b[28..] == r.data
  {
    U32Shifted(0x25609513);
    assert U16Bytes(0) == [0, 0];
    hide U16Bytes, U32Bytes, U64Bytes;
    assert Wired(r) + [] == Wired(r);
    RequestParts(Wired(r), r.kind, r.handle, r.offset, r.length, r.data, []);
  }

  lemma OptionLayout(option: u32, data: Bytes)
    requires |data| < 0x1_0000_0000
    ensures var b := OptionBytes(option, data);
            && |b| == 16 + |data| && b[..8] == U64Bytes(0x49484156454f5054) && b[8..12] == U32Bytes(option)
            && b[12..16] == U32Bytes(|data|) && b[16..] == data
  {
    hide U32Bytes, U64Bytes;
  }

  // ------------------------------------------------------------- what is no request

  /** The front of the buffer is whole enough to be seen for what it is not. */
  predicate Nonsense(s: Server) {
    if s.negotiated then |s.buffer| >= 28 && U32At(s.buffer, 0) != 0x25609513
    else s.clientFlags.Some? && |s.buffer| >= 16 && U64At(s.buffer, 0) != 0x49484156454f5054
  }

  lemma NonsenseStalls(s: Server, more: Bytes)
    requires Sized(s) && Nonsense(s)
    ensures Sized(With(s, more)) && Stalled(With(s, more))
  {
    AtStable(s.buffer, more, 0);
    hide U32At, U64At;
  }

  /** Bytes that are no request stop the server for good: it answers nothing more, whatever comes. */
  lemma NonsenseStops(s: Server, pieces: seq<Bytes>)
    requires Sized(s) && Nonsense(s)
    ensures FeedAll(s, pieces) == With(s, Whole(pieces))
  {
    hide *;
    NonsenseStalls(s, []);
    NonsenseStalls(s, Whole(pieces));
    WithTwice(s, [], []);
    StalledDrains(With(s, Whole(pieces)));
    CutAnyhow(s, pieces);
  }
}
