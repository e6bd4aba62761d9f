/**
 * What an acknowledgement is worth, end to end: what one end knows to have been
 * acknowledged, the other end has handed to its reader.
 */
module TcpAcked {
  import opened Common
  import opened SeqNum
  import opened Tcp
  import opened TcpSender
  import opened TcpReceiver
  import opened TcpLink
  import opened TcpRules

  /** A number that is not ahead of where the reader stands. */
  ghost predicate Reached(iss: u32, n: nat, ackNo: u32) { exists j: nat :: j <= 1 + n && ackNo == At(iss, j) }

  predicate Acks(s: Segment) { s.flags.ack && !s.flags.rst }

  /** Every acknowledgement on the wire is of something read. */
  ghost predicate AcksTrue(c: Conn, iss: u32) {
    forall s :: s in c.wire && Acks(s) ==> Reached(iss, Position(c), s.ackNo)
  }

  /** Before it has heard from the peer the opener acknowledges nothing. */
  ghost predicate Mute(c: Conn) {
    c.state.SynSent? ==> (forall s :: s in c.wire ==> !Acks(s)) && forall s :: s in c.unacked ==> !s.flags.ack
  }

  // ------------------------------------------------------------- what is put on the wire

  /** `d` comes after `c` at the same end, having put only such acknowledgements on the wire. */
  ghost predicate Further(c: Conn, d: Conn, ackNo: u32) {
    forall s :: s in d.wire && Acks(s) ==> s in c.wire || s.ackNo == ackNo
  }

  lemma FurtherTrue(c: Conn, d: Conn, iss: u32)
    requires AcksTrue(c, iss) && Further(c, d, d.rcvNxt) && Position(c) <= Position(d) && d.rcvNxt == At(iss, 1 + Position(d))
    ensures AcksTrue(d, iss)
  {
    hide At, Position;
    assert Reached(iss, Position(d), At(iss, 1 + Position(d)));
    forall s | s in d.wire && Acks(s) ensures Reached(iss, Position(d), s.ackNo) {
      if s in c.wire {
        var j: nat :| j <= 1 + Position(c) && s.ackNo == At(iss, j);
        assert Reached(iss, Position(d), s.ackNo);
      }
    }
  }

  lemma {:induction false} PumpDataFurther(c: Conn, d: Conn, now: int)
    requires Further(c, d, d.rcvNxt)
    ensures Further(c, PumpData(d, now), d.rcvNxt) && PumpData(d, now).rcvNxt == d.rcvNxt
    decreases |Flat(d.outbox)|
  {
    if !(d.outbox == [] || Room(d) <= 0 || Flat(d.outbox) == []) {
      var e := PumpOne(d, now);
      assert Further(c, e, d.rcvNxt) && e.rcvNxt == d.rcvNxt by { hide SeqAdd, Take; }
      hide PumpOne, Room, Further;
      PumpDataFurther(c, e, now);
    }
  }

  lemma PumpFurther(c: Conn, d: Conn, now: int)
    requires Further(c, d, d.rcvNxt)
    ensures Further(c, Pump(d, now), d.rcvNxt) && Pump(d, now).rcvNxt == d.rcvNxt
  {
    PumpDataFurther(c, d, now);
    hide SeqAdd, PumpData;
  }

  lemma OnceFurther(c: Conn, d: Conn)
    requires AckedOnce(c, d)
    ensures Further(c, d, d.rcvNxt)
  {
    assert d.wire == c.wire + [d.wire[|c.wire|]];
  }

  lemma TextTrue(c: Conn, s: Segment, now: int, iss: u32, w: Bytes, over: bool)
    requires Reading(c, iss, w, over) && Short(w, over) && TruthfulSegment(iss, w, over, s) && AcksTrue(c, iss)
    ensures AcksTrue(OnText(c, s, now), iss) && Position(OnText(c, s, now)) >= Position(c)
    ensures OnText(c, s, now).rcvNxt == At(iss, 1 + Position(OnText(c, s, now)))
  {
    if s.flags.syn {
      assert OnText(c, s, now) == c;
    } else {
      TextKeepsReading(c, s, now, iss, w, over);
      var c1 := if s.payload != [] then OnData(c, s) else c;
      if s.payload != [] { DataTrue(c, s, iss, w, over); }
      assert s.payload == [] || !s.flags.fin || c1 == OnData(c, s);
      hide OnData, OnFin, AcksTrue, At, TruthfulSegment, Short, Position;
      if s.flags.fin { FinTrue(c1, OnText(c, s, now), s, now, iss); }
    }
  }

  lemma DataTrue(c: Conn, s: Segment, iss: u32, w: Bytes, over: bool)
    requires Reading(c, iss, w, over) && Short(w, over) && TruthfulSegment(iss, w, over, s) && AcksTrue(c, iss)
    requires !s.flags.syn && s.payload != []
    ensures AcksTrue(OnData(c, s), iss)
  {
    assert exists p: nat :: Slice(iss, w, s.seqNo, s.payload, p) by { hide Slice; }
    var p: nat :| Slice(iss, w, s.seqNo, s.payload, p);
    assert |s.payload| < HALF;
    hide OnData, AcksTrue, At, TruthfulSegment, Short, AckedOnce, Further, Slice;
    DataKeeps(c, s, p, iss, w, over);
    DataAcked(c, s);
    OnceFurther(c, OnData(c, s));
    FurtherTrue(c, OnData(c, s), iss);
  }

  lemma FinTrue(c: Conn, d: Conn, s: Segment, now: int, iss: u32)
    requires AcksTrue(c, iss) && d == OnFin(c, s, now) && d.rcvNxt == At(iss, 1 + Position(d))
    ensures AcksTrue(d, iss)
  {
    assert Further(c, d, d.rcvNxt) && Position(c) <= Position(d) by { hide At, SeqAdd; }
    hide OnFin, Further, Position;
    FurtherTrue(c, d, iss);
  }

  // ------------------------------------------------------------- one step

  /** What a step keeps of it at the end where it is taken. */
  ghost predicate Kept(c: Conn, d: Conn, iss: u32) { AcksTrue(d, iss) && Mute(d) && Position(d) >= Position(c) }

  lemma OnlyResets(c: Conn, d: Conn, iss: u32)
    requires AcksTrue(c, iss) && Mute(c) && (d.state.SynSent? ==> c.state.SynSent?) && Position(d) == Position(c)
    requires (forall s :: s in d.wire ==> s in c.wire || !Acks(s)) && forall u :: u in d.unacked ==> u in c.unacked
    ensures Kept(c, d, iss)
  {
    hide Position;
  }

  lemma PumpKept(c: Conn, d: Conn, now: int, iss: u32)
    requires AcksTrue(c, iss) && Further(c, d, d.rcvNxt) && Position(d) >= Position(c) && !d.state.SynSent?
    requires d.rcvNxt == At(iss, 1 + Position(d))
    ensures Kept(c, Pump(d, now), iss)
  {
    PumpFurther(c, d, now);
    PumpSameReceiver(d, now);
    var e := Pump(d, now);
    assert Position(e) == Position(d);
    hide Pump, At, Position, Further;
    FurtherTrue(c, e, iss);
  }

  lemma SynAckKept(c: Conn, s: Segment, now: int, iss: u32, w: Bytes, over: bool)
    requires Unread(c) && c.state.SynSent? && TruthfulSegment(iss, w, over, s) && AcksTrue(c, iss) && Mute(c)
    ensures Kept(c, OnSynAck(c, s, now), iss)
  {
    var d := SendAck(Establish(c.(rcvNxt := SeqAdd(s.seqNo, 1), peerWindow := s.window), s.ackNo));
    assert Position(c) == 0 && Position(d) == 0;
    AtStart(iss);
    hide Pump, At, SeqAdd;
    if s.flags.syn && s.flags.ack && s.ackNo == c.sndNxt {
      assert Further(c, d, d.rcvNxt);
      PumpKept(c, d, now, iss);
    }
  }

  lemma TextKept(c: Conn, d: Conn, s: Segment, now: int, iss: u32, w: Bytes, over: bool)
    requires Reading(d, iss, w, over) && Short(w, over) && TruthfulSegment(iss, w, over, s) && AcksTrue(c, iss)
    requires d.wire == c.wire && Position(d) == Position(c) && !d.state.SynSent?
    ensures Kept(c, Pump(OnText(d, s, now), now), iss)
  {
    assert AcksTrue(d, iss);
    TextTrue(d, s, now, iss, w, over);
    var e := OnText(d, s, now);
    assert !e.state.SynSent? by { if !s.flags.syn { TextKeepsReading(d, s, now, iss, w, over); } }
    PumpFurther(e, e, now);
    PumpSameReceiver(e, now);
    assert Position(Pump(e, now)) == Position(e);
    hide OnText, Pump, Reading, Position, At, Further;
    FurtherTrue(e, Pump(e, now), iss);
  }

  lemma ArrivalKept(c: Conn, s: Segment, now: int, iss: u32, w: Bytes, over: bool)
    requires ReceiverInv(c, iss, w, over) && Short(w, over) && TruthfulSegment(iss, w, over, s)
    requires AcksTrue(c, iss) && Mute(c)
    ensures Kept(c, OnTcp(c, s, now), iss)
  {
    var d := OnTcp(c, s, now);
    if c.state.Closed? || s.flags.rst {
      assert forall x :: x in d.wire ==> x in c.wire || x == ResetReply(s);
      hide SeqAdd, AcksTrue;
      OnlyResets(c, d, iss);
    } else if c.state.SynSent? {
      hide OnSynAck;
      SynAckKept(c, s, now, iss, w, over);
    } else if c.state.SynRcvd? {
      hide AcksTrue, OnText, Pump;
      if s.flags.ack && s.ackNo == c.sndNxt {
        var e := Establish(c, s.ackNo);
        SameReceiverReads(c, e, iss, w, over);
        TextKept(c, e, s, now, iss, w, over);
      } else {
        OnlyResets(c, c, iss);
      }
    } else {
      var e := if s.flags.ack then OnAck(c, s, now) else c;
      AckSameReceiver(c, s, now);
      AckPlain(c, s, now);
      SameReceiverReads(c, OnAck(c, s, now), iss, w, over);
      hide AcksTrue, OnText, OnAck, Pump, Reading, TruthfulSegment, Short;
      TextKept(c, e, s, now, iss, w, over);
    }
  }

  lemma QuietKept(c: Conn, input: Input, now: int, iss: u32, w: Bytes, over: bool)
    requires ReceiverInv(c, iss, w, over) && !input.Arrived?
    requires AcksTrue(c, iss) && Mute(c) && StateSays(c)
    ensures Kept(c, Step(c, input, now), iss)
  {
    match input
    case Wrote(bytes) =>
      var d := c.(outbox := if bytes == [] then c.outbox else c.outbox + [bytes],
                  socket := c.socket.(written := c.socket.written + bytes));
      PumpedKept(c, c, now, iss, w, over);
      PumpedKept(c, d, now, iss, w, over);
      hide Pump;
    case Finished =>
      var d := c.(wantsFin := true);
      PumpedKept(c, d, now, iss, w, over);
      CloseKept(c, Pump(d, now), now, iss);
      hide Pump, MaybeClose;
    case Ticked => TickKept(c, now, iss, w, over);
    case Destroyed =>
      hide AcksTrue;
      OnlyResets(c, Destroy(c), iss);
  }

  lemma CloseKept(c: Conn, d: Conn, now: int, iss: u32)
    requires Kept(c, d, iss)
    ensures Kept(c, MaybeClose(d, now), iss)
  {
    var e := MaybeClose(d, now);
    assert e.wire == d.wire && Position(e) == Position(d);
  }

  lemma PumpedKept(c: Conn, d: Conn, now: int, iss: u32, w: Bytes, over: bool)
    requires ReceiverInv(c, iss, w, over) && AcksTrue(c, iss) && Mute(c)
    requires d == c.(outbox := d.outbox, wantsFin := d.wantsFin, socket := c.socket.(written := d.socket.written))
    ensures Kept(c, Pump(d, now), iss) && Kept(c, d, iss)
  {
    assert Kept(c, d, iss);
    if c.state.Established? || c.state.CloseWait? {
      assert d.rcvNxt == At(iss, 1 + Position(d)) && Further(c, d, d.rcvNxt);
      hide Pump;
      PumpKept(c, d, now, iss);
    } else {
      assert Pump(d, now) == d;
    }
  }

  lemma TickKept(c: Conn, now: int, iss: u32, w: Bytes, over: bool)
    requires ReceiverInv(c, iss, w, over) && AcksTrue(c, iss) && Mute(c) && StateSays(c)
    ensures Kept(c, Tick(c, now), iss)
  {
    var d, i := Tick(c, now), FirstDue(c.unacked, c.rto, now);
    if i < |c.unacked| && d == Resend(c, i, now) {
      hide FirstDue, Tick, StateSays;
      ResentKept(c, i, now, iss, w, over);
    } else {
      assert d == c || d == Teardown(c);
      hide FirstDue, Tick, AcksTrue, StateSays;
      OnlyResets(c, d, iss);
    }
  }

  lemma ResentKept(c: Conn, i: nat, now: int, iss: u32, w: Bytes, over: bool)
    requires ReceiverInv(c, iss, w, over) && AcksTrue(c, iss) && Mute(c) && i < |c.unacked| && (c.state.Closed? ==> c.unacked == [])
    ensures Kept(c, Resend(c, i, now), iss)
  {
    var d, u := Resend(c, i, now), c.unacked[i];
    var again := Segment(u.flags, u.seqNo, c.rcvNxt, RECEIVE_WINDOW, u.payload, u.mss);
    assert d.wire == c.wire + [again] && Position(d) == Position(c);
    assert forall x :: x in d.unacked ==> x in c.unacked || x == u.(tries := u.tries + 1, sentAt := now);
    hide Resend;
    if c.state.SynSent? {
      assert u in c.unacked && !Acks(again);
    } else {
      hide Position;
      assert Further(c, d, d.rcvNxt);
      FurtherTrue(c, d, iss);
    }
  }

  /** What counts as acknowledged is what an acknowledgement that arrived said. */
  lemma UnaFrom(c: Conn, input: Input, now: int)
    ensures var d := Step(c, input, now);
            d.sndUna == c.sndUna || (input.Arrived? && Acks(input.s) && d.sndUna == input.s.ackNo)
  {
    match input
    case Arrived(s) => ArrivalUna(c, s, now);
    case Wrote(bytes) =>
      hide Pump;
      PumpOpens(c.(outbox := if bytes == [] then c.outbox else c.outbox + [bytes],
                   socket := c.socket.(written := c.socket.written + bytes)), now);
    case Finished =>
      hide Pump;
      PumpOpens(c.(wantsFin := true), now);
    case Ticked =>
      hide FirstDue;
    case Destroyed =>
  }

  lemma ArrivalUna(c: Conn, s: Segment, now: int)
    ensures var d := OnTcp(c, s, now); d.sndUna == c.sndUna || (Acks(s) && d.sndUna == s.ackNo)
  {
    AckUna(c, s, now);
    var d := if s.flags.ack then OnAck(c, s, now) else c;
    var e := Establish(c, s.ackNo);
    var f := SendAck(Establish(c.(rcvNxt := SeqAdd(s.seqNo, 1), peerWindow := s.window), s.ackNo));
    assert e.sndUna == f.sndUna == s.ackNo;
    hide Pump, OnText, OnAck, SeqAdd, Establish, SendAck;
    TextSameUna(d, s, now);
    TextSameUna(e, s, now);
    PumpOpens(OnText(d, s, now), now);
    PumpOpens(OnText(e, s, now), now);
    PumpOpens(f, now);
  }

  lemma AckUna(c: Conn, s: Segment, now: int)
    ensures OnAck(c, s, now).sndUna == c.sndUna || OnAck(c, s, now).sndUna == s.ackNo
  {
    hide SeqGt, SeqGte, SeqAdd, Unacknowledged;
  }

  lemma TextSameUna(c: Conn, s: Segment, now: int)
    ensures OnText(c, s, now).sndUna == c.sndUna
  {
    DataSendsNothing(c, s);
    hide OnData, SeqAdd;
  }

  // ------------------------------------------------------------- both ends

  /** What `c` knows to be acknowledged `peer` has handed on, and what `peer` acknowledges it has read. */
  ghost predicate Worth(c: Conn, peer: Conn) {
    AcksTrue(peer, c.iss) && Mute(peer) && Reached(c.iss, Position(peer), c.sndUna)
  }

  /** The opener before anybody has accepted: nothing known, nothing said. */
  ghost predicate Lonely(c: Conn) { Unread(c) && c.sndUna == c.iss && (forall s :: s in c.wire ==> !Acks(s)) && Mute(c) }

  ghost predicate AckInv(l: Link) {
    && LinkInv(l) && (forall s :: s in l.refusals ==> s.flags.rst)
    && StateSays(l.a) && (l.b.None? ==> Lonely(l.a))
    && (l.b.Some? ==>
          var b := l.b.value;
          StateSays(b) && (ShortStream(l.a) ==> Worth(l.a, b)) && (ShortStream(b) ==> Worth(b, l.a)))
  }

  lemma ReachedFurther(iss: u32, n: nat, m: nat, ackNo: u32)
    requires Reached(iss, n, ackNo) && n <= m
    ensures Reached(iss, m, ackNo)
  {
    hide At;
  }

  /** A step at one end keeps what is known at both. */
  lemma StepWorth(c: Conn, peer: Conn, input: Input, now: int)
    requires SenderInv(c) && SenderInv(peer) && StateSays(c)
    requires ShortStream(peer) ==> Reads(c, peer) && Worth(peer, c)
    requires ShortStream(c) ==> Worth(c, peer)
    requires input.Arrived? ==> input.s in peer.wire || (Bare(input.s) && input.s.flags.rst)
    ensures var d := Step(c, input, now);
            (ShortStream(peer) ==> Worth(peer, d)) && (ShortStream(d) ==> Worth(d, peer))
  {
    StepContinues(c, input, now);
    UnaFrom(c, input, now);
    var d := Step(c, input, now);
    if ShortStream(peer) {
      assert input.Arrived? ==> TruthfulSegment(peer.iss, peer.socket.written, peer.finSeq.Some?, input.s) by {
        hide Tiled, TruthfulSent, Queued, Numbered, Ended, Slice, SomeSlice;
      }
      hide SenderInv, TruthfulSegment, Short, ReceiverInv, AcksTrue, Reached, Position, Mute, StateSays;
      match input {
        case Arrived(s) => ArrivalKept(c, s, now, peer.iss, peer.socket.written, peer.finSeq.Some?);
        case _ => QuietKept(c, input, now, peer.iss, peer.socket.written, peer.finSeq.Some?);
      }
      assert Kept(c, d, peer.iss);
      ReachedFurther(peer.iss, Position(c), Position(d), peer.sndUna);
    }
    hide Step, SenderInv, Reads, Position, Mute, StateSays, Reached;
    if ShortStream(d) {
      assert ShortStream(c);
      assert d.sndUna == c.sndUna || Reached(c.iss, Position(peer), input.s.ackNo);
    }
  }

  lemma LonelyStays(c: Conn, input: Input, now: int)
    requires Lonely(c) && StateSays(c) && Unread(Step(c, input, now))
    requires input.Arrived? ==> input.s.flags.rst
    ensures Lonely(Step(c, input, now))
  {
    UnaFrom(c, input, now);
    SameIss(c, input, now);
    match input
    case Arrived(s) =>
    case Ticked => LonelyTicks(c, now);
    case Wrote(bytes) =>
    case Finished =>
    case Destroyed =>
  }

  lemma LonelyTicks(c: Conn, now: int)
    requires Lonely(c) && StateSays(c)
    ensures var d := Tick(c, now); (forall s :: s in d.wire ==> !Acks(s)) && Mute(d)
  {
    var d, i := Tick(c, now), FirstDue(c.unacked, c.rto, now);
    if i < |c.unacked| && d == Resend(c, i, now) {
      var u := c.unacked[i];
      assert c.state.SynSent? && u in c.unacked;
      assert d.wire == c.wire + [Segment(u.flags, u.seqNo, c.rcvNxt, RECEIVE_WINDOW, u.payload, u.mss)];
      assert forall x :: x in d.unacked ==> x in c.unacked || x == u.(tries := u.tries + 1, sentAt := now);
      hide FirstDue, Tick;
    } else {
      assert d == c || d == Teardown(c);
      hide FirstDue, Tick;
    }
  }

  lemma AcceptWorth(a: Conn, s: Segment, iss: u32, now: int)
    requires SenderInv(a) && Lonely(a) && s in a.wire && s.flags.syn
    ensures var b := Accept(s, iss, now); Worth(a, b) && Worth(b, a) && StateSays(b)
  {
    var b := Accept(s, iss, now);
    SynSays(a, s);
    LonelySays(a, iss);
    AcceptSays(s, iss, now);
    AtStart(a.iss);
    Anyway(a.iss);
    Anyway(iss);
    hide SenderInv, SeqAdd, At, Accept, Lonely, Mute, Position, StateSays, Reached;
  }

  lemma Anyway(iss: u32)
    ensures Reached(iss, 0, iss) && Reached(iss, 0, At(iss, 1))
  {
    assert At(iss, 0) == iss;
    hide At;
  }

  lemma LonelySays(a: Conn, iss: u32)
    requires Lonely(a)
    ensures Position(a) == 0 && a.sndUna == a.iss && Mute(a) && AcksTrue(a, iss)
  {
  }

  lemma AcceptSays(s: Segment, iss: u32, now: int)
    ensures var b := Accept(s, iss, now);
            && b.wire == [Segment(SYN_ACK, iss, SeqAdd(s.seqNo, 1), RECEIVE_WINDOW, [], Some(MSS))]
            && Position(b) == 0 && b.sndUna == b.iss == iss && Mute(b) && StateSays(b)
  {
    hide SeqAdd;
  }

  lemma SynSays(a: Conn, s: Segment)
    requires SenderInv(a) && s in a.wire && s.flags.syn
    ensures s.seqNo == a.iss
  {
    hide Tiled, TruthfulSent, Queued, Numbered, Ended, Slice, SomeSlice;
  }

  lemma NextWorth(l: Link, e: Event)
    requires AckInv(l) && Possible(l, e)
    ensures AckInv(Next(l, e))
  {
    NextKeeps(l, e);
    hide SenderInv, Reads, ShortStream, Worth, Accept, Step;
    match e
    case AtA(input, now) =>
      StateKept(l.a, input, now);
      if l.b.None? {
        hide Unread, StateSays;
        LonelyStays(l.a, input, now);
      } else {
        hide StateSays;
        StepWorth(l.a, l.b.value, input, now);
      }
    case AtB(input, now) =>
      StateKept(l.b.value, input, now);
      hide StateSays;
      StepWorth(l.b.value, l.a, input, now);
    case Listen(s, iss, now) =>
      hide StateSays;
      if s.flags.syn && !s.flags.ack { AcceptWorth(l.a, s, iss, now); }
  }

  lemma ConnectLonely(iss: u32, now: int, timeoutMs: nat)
    ensures Lonely(Connect(iss, now, timeoutMs)) && StateSays(Connect(iss, now, timeoutMs))
  {
    hide SeqAdd;
  }

  lemma {:induction false} ReachableWorth(l: Link, events: seq<Event>)
    requires Reaches(l, events)
    ensures AckInv(l)
    decreases |events|
  {
    if events == [] {
      ReachableKeeps(l, events);
      var iss: u32, now: int, timeoutMs: nat :| l.a == Connect(iss, now, timeoutMs);
      hide LinkInv, Connect, Lonely, StateSays;
      ConnectLonely(iss, now, timeoutMs);
    } else {
      var n := |events| - 1;
      var p: Link :| Reaches(p, events[..n]) && Possible(p, events[n]) && l == Next(p, events[n]);
      hide AckInv, Next, Possible;
      ReachableWorth(p, events[..n]);
      NextWorth(p, events[n]);
    }
  }

  // ------------------------------------------------------------- what it comes to

  /** The stream with its SYN and its end does not go round the sequence numbers. */
  ghost predicate NoneTwice(c: Conn) { 1 + |c.socket.written| + (if c.finSeq.Some? then 1 else 0) < MOD }

  /** As many bytes of the stream, the SYN and the end apart, as are no longer outstanding. */
  function AckedBytes(c: Conn): int { Min(Una(c) - 1, |c.socket.written|) }

  /** What `from` has seen acknowledged, `to` has delivered, and the end with it. */
  ghost predicate HandedOver(from: Conn, to: Conn) {
    && AckedBytes(from) <= |to.socket.delivered| <= |from.socket.written|
    && to.socket.delivered == from.socket.written[..|to.socket.delivered|]
    && (from.finAcked ==> to.socket.delivered == from.socket.written && to.socket.ends == 1)
  }

  lemma WorthArrived(from: Conn, to: Conn)
    requires SenderInv(from) && Worth(from, to) && NoneTwice(from) && Faithful(from, to)
    ensures HandedOver(from, to)
  {
    var j: nat :| j <= 1 + Position(to) && from.sndUna == At(from.iss, j);
    assert 0 <= Una(from) <= Nxt(from) < MOD && (from.finAcked ==> Una(from) == 2 + |from.socket.written|) by {
      hide Tiled, TruthfulSent, TruthfulWire, At, SeqDiff;
    }
    assert from.sndUna == At(from.iss, Una(from)) by {
      assert from.sndNxt == At(from.iss, Nxt(from)) by { hide Tiled, TruthfulSent, TruthfulWire, At, SeqDiff; }
      UnaAt(from);
    }
    hide SenderInv, At, AcksTrue, Mute, Una, Nxt;
    AtInjective(from.iss, j, Una(from));
  }

  /**
   * An acknowledgement is worth what it says, over every run of both ends and
   * every network between them: the bytes one end knows to have been acknowledged
   * have been handed to the reader at the other, in order; and an end whose FIN is
   * acknowledged has been read to the last byte, and its reader told.
   */
  lemma AckedIsDelivered(l: Link, events: seq<Event>)
    requires Reaches(l, events) && l.b.Some?
    ensures NoneTwice(l.a) ==> HandedOver(l.a, l.b.value)
    ensures NoneTwice(l.b.value) ==> HandedOver(l.b.value, l.a)
  {
    ReachableWorth(l, events);
    StreamSafety(l, events);
    hide SenderInv, Worth, Faithful, Reads, Reaches, HandedOver;
    if NoneTwice(l.a) { WorthArrived(l.a, l.b.value); }
    if NoneTwice(l.b.value) { WorthArrived(l.b.value, l.a); }
  }
}
