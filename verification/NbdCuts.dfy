/**
 * When it matters how a client's stream is cut (src/device/nbd.js). After the end
 * of a connection the server goes on with whatever is behind it as soon as more
 * bytes arrive, so a whole item there is served or not as the cuts fall.
 */
module NbdCuts {
  import opened Common
  import opened Wire
  import opened Chunker
  import opened NbdProtocol
  import opened Nbd

  /** The bytes the client is sent. */
  function Said(out: seq<Out>): Bytes
    decreases |out|
  {
    if out == [] then []
    else Said(out[..|out| - 1]) + if out[|out| - 1].Sent? then out[|out| - 1].bytes else []
  }

  /** The client is sent the same bytes, and the disk is left the same. */
  predicate SameService(s: Server, t: Server) { Said(s.out) == Said(t.out) && s.disk == t.disk }

  // ------------------------------------------------------------- what the bytes say

  /** Options that are all refused: each only ends the connection once more. */
  predicate OnlyRefused(b: Bytes)
    decreases |b|
  {
    var option := ParseOption(b);
    option.Item? ==> option.value.option != EXPORT_NAME && OnlyRefused(b[option.consumed..])
  }

  /** Requests with no whole one behind the first that disconnects. */
  predicate NoneBehind(b: Bytes)
    decreases |b|
  {
    var request := ParseRequest(b);
    request.Item? ==>
      var rest := b[request.consumed..];
      if request.value.kind == DISCONNECT then !ParseRequest(rest).Item? else NoneBehind(rest)
  }

  predicate OptionsEnd(b: Bytes) {
    var option := ParseOption(b);
    option.Item? ==>
      var rest := b[option.consumed..];
      if option.value.option == EXPORT_NAME then NoneBehind(rest) else OnlyRefused(rest)
  }

  /**
   * Nothing that would be answered is behind the end of the connection: no whole
   * request behind a disconnect, and no export behind a refused option.
   */
  predicate NothingBehind(input: Bytes) { |input| < 4 || OptionsEnd(input[4..]) }

  /** The same of a server part of the way through, with the rest of the stream in its buffer. */
  predicate Calm(s: Server) {
    if s.negotiated then NoneBehind(s.buffer)
    else if s.clientFlags.None? then NothingBehind(s.buffer)
    else OptionsEnd(s.buffer)
  }

  /** And of one whose connection has ended. */
  predicate Hushed(s: Server) {
    if s.negotiated then !ParseRequest(s.buffer).Item? else s.clientFlags.Some? && OnlyRefused(s.buffer)
  }

  // ------------------------------------------------------------- bytes sent

  lemma SaidNext(out: seq<Out>, o: Out)
    ensures Said(out + [o]) == Said(out) + if o.Sent? then o.bytes else []
  {
    assert (out + [o])[..|out|] == out;
  }

  lemma {:induction false} SaidMore(out: seq<Out>, more: seq<Out>)
    ensures Said(out) <= Said(out + more)
    decreases |more|
  {
    if more == [] {
      assert out + [] == out;
    } else {
      var n := |more| - 1;
      assert out + more == (out + more[..n]) + [more[n]];
      SaidMore(out, more[..n]);
      SaidNext(out + more[..n], more[n]);
    }
  }

  lemma SaidPrefix(out: seq<Out>, whole: seq<Out>)
    requires out <= whole
    ensures Said(out) <= Said(whole)
  {
    SaidMore(out, whole[|out|..]);
    hide Said;
    assert out + whole[|out|..] == whole;
  }

  /** What a drain says comes after what had been said. */
  lemma DrainSays(s: Server)
    requires Sized(s)
    ensures Said(s.out) <= Said(Drain(s).out)
  {
    hide *;
    DrainLogs(s);
    SaidPrefix(s.out, Drain(s).out);
  }

  // ------------------------------------------------------------- one pass

  /** Whether a pass finds anything. */
  lemma StalledIs(s: Server)
    requires Sized(s)
    ensures Stalled(s) <==>
              if s.negotiated then !ParseRequest(s.buffer).Item?
              else if s.clientFlags.None? then |s.buffer| < 4 else !ParseOption(s.buffer).Item?
  {
    hide ParseRequest, ParseOption, Handle, U32At, ExportBytes, ReplyBytes;
  }

  /** A refused option only ends the connection; an export is answered. */
  lemma OptionPass(s: Server)
    requires Sized(s) && !s.negotiated && s.clientFlags.Some? && ParseOption(s.buffer).Item?
    ensures var option, t := ParseOption(s.buffer), OneTurn(s);
            && t.s.buffer == s.buffer[option.consumed..] && t.s.clientFlags == s.clientFlags && t.s.disk == s.disk
            && (t.Again? <==> option.value.option == EXPORT_NAME) && t.s.negotiated == t.Again?
            && (t.Rest? ==> Said(t.s.out) == Said(s.out)) && (t.Again? ==> |Said(t.s.out)| > |Said(s.out)|)
  {
    hide ParseOption, Digits;
    var size := |s.disk.bytes|;
    SaidNext(s.out, Ended);
    SaidNext(s.out, Sent(ExportBytes(size, s.clientFlags.value / 2 % 2 == 1)));
    assert |ExportBytes(size, s.clientFlags.value / 2 % 2 == 1)| > 0;
    hide ExportBytes, Said;
  }

  /** A request is answered, and only a disconnect ends the connection. */
  lemma RequestPass(s: Server)
    requires Sized(s) && s.negotiated && ParseRequest(s.buffer).Item?
    ensures var request, t := ParseRequest(s.buffer), OneTurn(s);
            && t.s.buffer == s.buffer[request.consumed..] && t.s.negotiated
            && (t.Rest? <==> request.value.kind == DISCONNECT)
            && |Said(t.s.out)| > |Said(s.out)|
  {
    hide ParseRequest;
    var r := ParseRequest(s.buffer).value;
    OnlyDisconnects(s.disk, r);
    ReplySays(s.out, r, Handle(s.disk, r).1);
    hide Handle, ReplyBytes, Said;
  }

  /** A reply is never empty. */
  lemma ReplySays(out: seq<Out>, r: Request, answer: Answer)
    ensures var told := out + [Sent(ReplyBytes(r.handle, answer.error))]
                        + if answer.data.Some? && answer.error == NONE then [Sent(answer.data.value)] else [];
            |Said(told)| > |Said(out)| && |Said(told + [Ended])| > |Said(out)|
  {
    hide Digits;
    var head := Sent(ReplyBytes(r.handle, answer.error));
    assert |ReplyBytes(r.handle, answer.error)| > 0;
    hide ReplyBytes;
    var data := if answer.data.Some? && answer.error == NONE then [Sent(answer.data.value)] else [];
    SaidNext(out, head);
    SaidMore(out + [head], data);
    SaidMore(out + [head] + data, [Ended]);
    hide Said;
  }

  /** What a pass leaves behind it is calm exactly when what it found was. */
  lemma CalmTurn(s: Server)
    requires Sized(s) && !Stalled(s)
    ensures var t := OneTurn(s); Calm(s) <==> if t.Again? then Calm(t.s) else Hushed(t.s)
  {
    StalledIs(s);
    if s.negotiated {
      RequestPass(s);
    } else if s.clientFlags.Some? {
      OptionPass(s);
    } else {
      hide U32At;
      assert OneTurn(s) == FlagsTurn(s);
    }
    hide ParseRequest, ParseOption, OneTurn, FlagsTurn, Said;
  }

  lemma CalmStalled(s: Server)
    requires Sized(s) && Stalled(s)
    ensures Calm(s)
  {
    StalledIs(s);
    hide ParseRequest, ParseOption, OneTurn;
  }

  /** A stream is calm exactly when what is left behind its end is. */
  lemma {:induction false} CalmEnds(s: Server)
    requires Sized(s)
    ensures Calm(s) <==> (Ends(s) ==> Hushed(Drain(s)))
    decreases |s.buffer|
  {
    hide *;
    if Stalled(s) {
      StalledDrains(s);
      CalmStalled(s);
    } else {
      CalmTurn(s);
      EndsHere(s);
      var t := OneTurn(s);
      if t.Again? {
        DrainGoesOn(s);
        CalmEnds(t.s);
      } else {
        DrainRests(s);
      }
    }
  }

  // ------------------------------------------------------------- behind the end nothing is said

  /** More bytes do not take away an item. */
  lemma HushedBefore(x: Server, t: Bytes)
    requires Hushed(With(x, t))
    ensures x.negotiated ==> !ParseRequest(x.buffer).Item?
    ensures !x.negotiated ==> x.clientFlags.Some?
    ensures !x.negotiated && ParseOption(x.buffer).Item? ==>
              ParseOption(x.buffer).value.option != EXPORT_NAME &&
              OnlyRefused(x.buffer[ParseOption(x.buffer).consumed..] + t)
  {
    if x.negotiated {
      if ParseRequest(x.buffer).Item? { RequestStable(x.buffer, t); }
    } else if ParseOption(x.buffer).Item? {
      OptionStable(x.buffer, t);
      SplitMore(x.buffer, ParseOption(x.buffer).consumed, t);
    }
    hide ParseRequest, ParseOption;
  }

  lemma HushedDrain(x: Server, t: Bytes)
    requires Sized(x) && Hushed(With(x, t))
    ensures Hushed(With(Drain(x), t)) && SameService(Drain(x), x)
  {
    HushedBefore(x, t);
    StalledIs(x);
    if Stalled(x) {
      StalledDrains(x);
    } else {
      OptionPass(x);
      DrainRests(x);
    }
    hide ParseRequest, ParseOption, OneTurn, Drain, Said, OnlyRefused;
  }

  /** One more piece: `f` is what the pieces before led to, `d` what they lead to in one. */
  lemma HushedPiece(f: Server, d: Server, p: Bytes, t: Bytes)
    requires Sized(f) && Hushed(With(f, p + t)) && SameService(f, d)
    ensures Hushed(With(Feed(f, p), t)) && SameService(Feed(f, p), With(d, p))
  {
    hide Drain, Hushed, Said;
    WithTwice(f, p, t);
    WithSized(f, p);
    HushedDrain(With(f, p), t);
  }

  /**
   * However a calm stream is cut, with `t` still to come: the client has been
   * sent the same and the disk is the same, and until the end so is the server.
   */
  lemma {:induction false} CutCalmly(s: Server, pieces: seq<Bytes>, t: Bytes)
    requires Sized(s) && Stalled(s) && Calm(With(s, Whole(pieces) + t))
    ensures Sized(With(s, Whole(pieces)))
    ensures var f, w := FeedAll(s, pieces), With(s, Whole(pieces));
            SameService(f, Drain(w)) && if Ends(w) then Hushed(With(f, t)) else f == Drain(w)
    decreases |pieces|
  {
    WithSized(s, Whole(pieces));
    if pieces == [] {
      WithTwice(s, [], []);
      StalledDrains(s);
    } else {
      var front, p := pieces[..|pieces| - 1], pieces[|pieces| - 1];
      var early := Whole(front);
      var f := FeedAll(s, front);
      assert Whole(pieces) == early + p && FeedAll(s, pieces) == Feed(f, p);
      hide *;
      assert early + p + t == early + (p + t);
      CutCalmly(s, front, p + t);
      CutOnce(s, early, p, t, f);
    }
  }

  lemma CutOnce(s: Server, early: Bytes, p: Bytes, t: Bytes, f: Server)
    requires Sized(s) && Sized(f) && Sized(With(s, early)) && Calm(With(s, early + (p + t)))
    requires var w := With(s, early);
             SameService(f, Drain(w)) && if Ends(w) then Hushed(With(f, p + t)) else f == Drain(w)
    ensures Sized(With(s, early + p))
    ensures var g, w := Feed(f, p), With(s, early + p);
            SameService(g, Drain(w)) && if Ends(w) then Hushed(With(g, t)) else g == Drain(w)
  {
    hide *;
    var w := With(s, early);
    WithTwice(s, early, p);
    WithTwice(s, early, p + t);
    WithTwice(w, p, t);
    EndsMore(w, p);
    if Ends(w) {
      HushedPiece(f, Drain(w), p, t);
    } else {
      Reflexive(Feed(f, p));
      if Ends(With(w, p)) {
        EndsMore(With(w, p), t);
        CalmEnds(With(With(w, p), t));
      }
    }
  }

  lemma Reflexive(s: Server)
    ensures SameService(s, s)
  {
  }

  // ------------------------------------------------------------- and otherwise something is

  lemma {:induction false} WholeFirst(p: Bytes, pieces: seq<Bytes>)
    ensures Whole([p] + pieces) == p + Whole(pieces)
    decreases |pieces|
  {
    var all := [p] + pieces;
    if pieces == [] {
      assert all == [p] && all[..0] == [];
    } else {
      var n := |pieces| - 1;
      assert all[..|all| - 1] == [p] + pieces[..n];
      WholeFirst(p, pieces[..n]);
      assert p + Whole(pieces[..n]) + pieces[n] == p + (Whole(pieces[..n]) + pieces[n]);
    }
  }

  lemma {:induction false} FeedFirst(s: Server, p: Bytes, pieces: seq<Bytes>)
    requires Sized(s)
    ensures FeedAll(s, [p] + pieces) == FeedAll(Feed(s, p), pieces)
    decreases |pieces|
  {
    var all := [p] + pieces;
    hide Feed;
    if pieces == [] {
      assert all == [p] && all[..0] == [];
    } else {
      assert all[..|all| - 1] == [p] + pieces[..|pieces| - 1];
      FeedFirst(s, p, pieces[..|pieces| - 1]);
    }
  }

  /** The whole buffer in one piece. */
  lemma AtOnce(q: Server)
    requires Sized(q)
    ensures Whole([q.buffer]) == q.buffer && Sized(Cut(q, 0)) && FeedAll(Cut(q, 0), [q.buffer]) == Drain(q)
  {
    hide Drain;
    assert [q.buffer][..0] == [];
    assert FeedAll(Cut(q, 0), []) == Cut(q, 0);
    assert [] + q.buffer == q.buffer;
  }

  /** Behind the end of a connection, an item that is answered can be reached by some cuts. */
  lemma {:induction false} Loud(q: Server) returns (pieces: seq<Bytes>)
    requires Sized(q) && !Hushed(q) && (q.negotiated || q.clientFlags.Some?)
    ensures Sized(Cut(q, 0)) && Whole(pieces) == q.buffer
    ensures |Said(FeedAll(Cut(q, 0), pieces).out)| > |Said(q.out)|
    decreases |q.buffer|
  {
    hide *;
    FoundBehind(q);
    AtOnce(q);
    if !q.negotiated && OneTurn(q).Rest? {
      var k := |q.buffer| - |OneTurn(q).s.buffer|;
      RefusedAlone(q, OneTurn(q).s, k);
      var rest := Loud(OneTurn(q).s);
      FeedFirst(Cut(q, 0), q.buffer[..k], rest);
      WholeFirst(q.buffer[..k], rest);
      assert q.buffer[..k] + q.buffer[k..] == q.buffer;
      pieces := [q.buffer[..k]] + rest;
    } else {
      pieces := [q.buffer];
    }
  }

  /** There is an item: it is answered, or it is a refused option and what is answered is behind it. */
  lemma FoundBehind(q: Server)
    requires Sized(q) && !Hushed(q) && (q.negotiated || q.clientFlags.Some?)
    ensures !Stalled(q) && |OneTurn(q).s.buffer| < |q.buffer|
    ensures if !q.negotiated && OneTurn(q).Rest? then
              var t := OneTurn(q).s; t.clientFlags.Some? && !t.negotiated && !Hushed(t) && Said(t.out) == Said(q.out)
            else |Said(Drain(q).out)| > |Said(q.out)|
  {
    StalledIs(q);
    if q.negotiated { RequestPass(q); } else { OptionPass(q); }
    if OneTurn(q).Again? { DrainGoesOn(q); DrainSays(OneTurn(q).s); } else { DrainRests(q); }
    hide ParseRequest, ParseOption, OneTurn, Drain, Said;
  }

  /** A refused option alone leads where it leads with the rest behind it. */
  lemma RefusedAlone(q: Server, t: Server, k: nat)
    requires Sized(q) && !Stalled(q) && OneTurn(q) == Rest(t) && k == |q.buffer| - |t.buffer|
    ensures k <= |q.buffer| && t.buffer == q.buffer[k..]
    ensures Sized(Cut(q, 0)) && Feed(Cut(q, 0), q.buffer[..k]) == Cut(t, 0)
  {
    hide *;
    TurnCut(q, 0);
    assert k + 0 == k;
    var c := Cut(q, k);
    assert Sized(c) && OneTurn(c) == Rest(Cut(t, 0));
    DrainRests(c);
    FedAlone(q, k);
  }

  lemma FedAlone(q: Server, k: nat)
    requires Sized(q) && k <= |q.buffer|
    ensures Sized(Cut(q, 0)) && Sized(Cut(q, k)) && Feed(Cut(q, 0), q.buffer[..k]) == Drain(Cut(q, k))
  {
    hide Drain;
    assert [] + q.buffer[..k] == q.buffer[..k];
    assert With(Cut(q, 0), q.buffer[..k]) == Cut(q, k);
  }

  /** Only past the flags does a connection end. */
  lemma {:induction false} EndsPastFlags(s: Server)
    requires Sized(s) && Ends(s)
    ensures Drain(s).negotiated || Drain(s).clientFlags.Some?
    decreases |s.buffer|
  {
    hide ParseRequest, ParseOption, Handle, U32At, ExportBytes, ReplyBytes;
    var t := OneTurn(s);
    if t.Again? {
      EndsPastFlags(t.s);
    } else {
      assert Drain(s) == t.s;
    }
  }

  /** With something behind the end that is answered, two ways of cutting the stream send the client different bytes. */
  lemma CutsMatter(disk: Disk, input: Bytes) returns (a: seq<Bytes>, b: seq<Bytes>)
    requires |disk.bytes| < 0x20_0000_0000_0000 && !NothingBehind(input)
    ensures Whole(a) == input && Whole(b) == input
    ensures |Said(FeedAll(Start(disk), a).out)| < |Said(FeedAll(Start(disk), b).out)|
  {
    hide *;
    StartIs(disk, input);
    var s, w := Start(disk), With(Start(disk), input);
    StartCalm(disk, input);
    CalmEnds(w);
    EndsPastFlags(w);
    DrainCut(w);
    var d := Drain(w);
    var k := |input| - |d.buffer|;
    var rest := Loud(d);
    b := [input[..k]] + rest;
    FeedFirst(s, input[..k], rest);
    WholeFirst(input[..k], rest);
    FedCut(disk, input, k);
    a := [input];
    StartAtOnce(disk, input);
    assert input[..k] + input[k..] == input;
  }

  lemma FedCut(disk: Disk, input: Bytes, k: nat)
    requires |disk.bytes| < 0x20_0000_0000_0000 && k <= |input| && With(Start(disk), input).buffer == input
    ensures Sized(Start(disk)) && Feed(Start(disk), input[..k]) == Drain(Cut(With(Start(disk), input), k))
  {
    FedAlone(With(Start(disk), input), k);
    hide Drain;
    assert Cut(With(Start(disk), input), 0) == Start(disk);
  }

  lemma StartCalm(disk: Disk, input: Bytes)
    ensures Calm(With(Start(disk), input)) <==> NothingBehind(input)
  {
    assert [] + input == input;
    hide OptionsEnd;
  }

  lemma StartAtOnce(disk: Disk, input: Bytes)
    requires |disk.bytes| < 0x20_0000_0000_0000
    ensures Whole([input]) == input && FeedAll(Start(disk), [input]) == Drain(With(Start(disk), input))
  {
    hide Drain;
    assert [input][..0] == [];
    assert FeedAll(Start(disk), []) == Start(disk);
    assert [] + input == input;
  }

  // ------------------------------------------------------------- exactly

  /**
   * Exactly when the bytes the client is sent and the disk do not depend on how
   * the stream is cut: when nothing that would be answered is behind the end.
   */
  lemma IndependentExactly(disk: Disk, input: Bytes)
    requires |disk.bytes| < 0x20_0000_0000_0000
    ensures NothingBehind(input) <==>
              forall a: seq<Bytes>, b: seq<Bytes> :: Whole(a) == input && Whole(b) == input ==>
                SameService(FeedAll(Start(disk), a), FeedAll(Start(disk), b))
  {
    if NothingBehind(input) {
      forall a: seq<Bytes>, b: seq<Bytes> | Whole(a) == input && Whole(b) == input
        ensures SameService(FeedAll(Start(disk), a), FeedAll(Start(disk), b))
      {
        AsAtOnce(disk, a);
        AsAtOnce(disk, b);
      }
    } else {
      var a, b := CutsMatter(disk, input);
    }
  }

  lemma AsAtOnce(disk: Disk, pieces: seq<Bytes>)
    requires |disk.bytes| < 0x20_0000_0000_0000 && NothingBehind(Whole(pieces))
    ensures Sized(With(Start(disk), Whole(pieces)))
    ensures SameService(FeedAll(Start(disk), pieces), Drain(With(Start(disk), Whole(pieces))))
  {
    hide *;
    StartIs(disk, []);
    EmptyStarts(disk);
    StartCalm(disk, Whole(pieces));
    assert Whole(pieces) + [] == Whole(pieces);
    CutCalmly(Start(disk), pieces, []);
  }

  lemma EmptyStarts(disk: Disk)
    requires |disk.bytes| < 0x20_0000_0000_0000
    ensures Sized(Start(disk)) && Stalled(Start(disk))
  {
  }

  // ------------------------------------------------------------- a write behind a disconnect

  /**
   * A stream whose cuts show on the disk: a disconnect and a write behind it. In
   * one piece the byte is not written; cut between the two it is.
   */
  lemma WriteBehindEnd(disk: Disk, handle: Bytes, x: byte)
    requires 0 < |disk.bytes| < 0x20_0000_0000_0000 && |handle| == 8
    ensures var hello := U32Bytes(0) + (OptionBytes(EXPORT_NAME, []) + RequestBytes(DISCONNECT, handle, 0, 0, []));
            var write := RequestBytes(WRITE, handle, 0, 1, [x]);
            && !NothingBehind(hello + write)
            && FeedAll(Start(disk), [hello + write]).disk == disk
            && FeedAll(Start(disk), [hello, write]).disk.bytes == WriteAt(disk.bytes, 0, [x])
  {
    var bye, w := Request(0, DISCONNECT, handle, 0, 0, []), Request(0, WRITE, handle, 0, 1, [x]);
    hide *;
    Left(disk, bye, w);
    Reached(disk, bye, w);
  }

  /** Flags, the export, a disconnect. */
  function Hello(bye: Request): Bytes { U32Bytes(0) + (OptionBytes(EXPORT_NAME, []) + Wired(bye)) }

  lemma HelloThen(bye: Request, rest: Bytes)
    ensures Hello(bye) + rest == U32Bytes(0) + (OptionBytes(EXPORT_NAME, []) + (Wired(bye) + rest)) && Hello(bye) + [] == Hello(bye)
  {
    hide U32Bytes, OptionBytes, Wired;
  }

  /** In one piece the write stays in the buffer. */
  lemma Left(disk: Disk, bye: Request, w: Request)
    requires |disk.bytes| < 0x20_0000_0000_0000 && Sendable(bye) && bye.kind == DISCONNECT && Sendable(w)
    ensures !NothingBehind(Hello(bye) + Wired(w)) && FeedAll(Start(disk), [Hello(bye) + Wired(w)]).disk == disk
  {
    hide *;
    var whole := Hello(bye) + Wired(w);
    HelloThen(bye, Wired(w));
    ToDisconnect(disk, bye, Wired(w), whole);
    StartAtOnce(disk, whole);
    StillThere(Drain(With(Start(disk), whole)), w);
    CalmEnds(With(Start(disk), whole));
    StartCalm(disk, whole);
  }

  /** In a piece of its own it is done. */
  lemma Reached(disk: Disk, bye: Request, w: Request)
    requires |disk.bytes| < 0x20_0000_0000_0000 && Sendable(bye) && bye.kind == DISCONNECT
    requires Sendable(w) && w.kind == WRITE && w.offset + w.length <= |disk.bytes|
    ensures FeedAll(Start(disk), [Hello(bye), Wired(w)]).disk.bytes == WriteAt(disk.bytes, w.offset, w.data)
  {
    hide *;
    HelloThen(bye, []);
    ToDisconnect(disk, bye, [], Hello(bye));
    StartIs(disk, Hello(bye));
    WithSized(Start(disk), Hello(bye));
    var e := Drain(With(Start(disk), Hello(bye)));
    FeedFirst(Start(disk), Hello(bye), [Wired(w)]);
    FeedOnce(e, Wired(w));
    WithEmpty(e, Wired(w));
    WriteServed(With(e, Wired(w)), w);
    assert [Hello(bye)] + [Wired(w)] == [Hello(bye), Wired(w)];
  }

  lemma WithEmpty(s: Server, more: Bytes)
    requires Sized(s) && s.buffer == []
    ensures With(s, more) == s.(buffer := more) && Sized(With(s, more))
  {
    assert [] + more == more;
  }

  lemma FeedOnce(s: Server, p: Bytes)
    requires Sized(s)
    ensures FeedAll(s, [p]) == Drain(With(s, p))
  {
    hide Drain;
    assert [p][..0] == [];
    assert FeedAll(s, []) == s;
  }

  /** Flags, the export and a disconnect: what is behind it stays in the buffer. */
  lemma ToDisconnect(disk: Disk, bye: Request, rest: Bytes, input: Bytes)
    requires |disk.bytes| < 0x20_0000_0000_0000 && Sendable(bye) && bye.kind == DISCONNECT
    requires input == U32Bytes(0) + (OptionBytes(EXPORT_NAME, []) + (Wired(bye) + rest))
    ensures Sized(With(Start(disk), input)) && Ends(With(Start(disk), input))
    ensures var d := Drain(With(Start(disk), input));
            Sized(d) && d.negotiated && d.buffer == rest && d.disk == disk && (rest == [] ==> Stalled(d))
  {
    hide *;
    StartIs(disk, input);
    var s1 := With(Start(disk), input);
    FlagsServed(s1, 0, OptionBytes(EXPORT_NAME, []) + (Wired(bye) + rest));
    var s2 := OneTurn(s1).s;
    ExportServed(s2, [], Wired(bye) + rest);
    var s3 := OneTurn(s2).s;
    RequestServed(s3, bye, rest);
    Unmoved(s3.disk, bye);
    NotStalled(s1);
    NotStalled(s2);
    NotStalled(s3);
    EndsHere(s1);
    EndsHere(s2);
    EndsHere(s3);
    DrainGoesOn(s1);
    DrainGoesOn(s2);
    DrainRests(s3);
    if rest == [] { EmptyStalls(OneTurn(s3).s); }
  }

  lemma Unmoved(d: Disk, bye: Request)
    requires bye.kind == DISCONNECT
    ensures Handle(d, bye).0 == d
  {
  }

  lemma NotStalled(s: Server)
    requires Sized(s) && OneTurn(s).s != s
    ensures !Stalled(s)
  {
    hide OneTurn;
  }

  lemma StillThere(d: Server, w: Request)
    requires d.negotiated && Sendable(w) && d.buffer == Wired(w)
    ensures !Hushed(d)
  {
    RequestReadsBack(w.kind, w.handle, w.offset, w.length, w.data, []);
    assert Wired(w) + [] == Wired(w);
    hide ParseRequest, RequestBytes;
  }

  /** The write alone in the buffer is done. */
  lemma WriteServed(s: Server, w: Request)
    requires Sized(s) && s.negotiated && Sendable(w) && w.kind == WRITE && s.buffer == Wired(w)
    requires w.offset + w.length <= |s.disk.bytes|
    ensures Drain(s).disk.bytes == WriteAt(s.disk.bytes, w.offset, w.data)
  {
    assert s.buffer == Wired(w) + [];
    RequestServed(s, w, []);
    DrainGoesOn(s);
    EmptyStalls(OneTurn(s).s);
    hide WriteAt, OneTurn, Drain, Wired, ReplyBytes;
  }
}
