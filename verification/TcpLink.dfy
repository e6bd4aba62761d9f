/**
 * Two connections of this stack and the network between them. The network is
 * the bag of every segment either side has ever put on the wire: any of them
 * may be delivered at any time, any number of times, or never.
 */
module TcpLink {
  import opened Common
  import opened SeqNum
  import opened Tcp
  import opened TcpSender
  import opened TcpReceiver

  /** `a` opened the connection; `b` exists once the listener has accepted it. */
  datatype Link = Link(a: Conn, b: Option<Conn>, refusals: seq<Segment>)

  datatype Event =
    | AtA(input: Input, now: int)
    | AtB(input: Input, now: int)
    | Listen(s: Segment, iss: u32, now: int)

  /** Only what the other side has sent can arrive. */
  ghost predicate Possible(l: Link, e: Event) {
    match e
    case AtA(Arrived(s), _) => s in l.refusals || (l.b.Some? && s in l.b.value.wire)
    case AtA(_, _) => true
    case AtB(Arrived(s), _) => l.b.Some? && s in l.a.wire
    case AtB(_, _) => l.b.Some?
    case Listen(s, _, _) => l.b.None? && s in l.a.wire
  }

  function Next(l: Link, e: Event): Link {
    match e
    case AtA(input, now) => l.(a := Step(l.a, input, now))
    case AtB(input, now) => if l.b.None? then l else l.(b := Some(Step(l.b.value, input, now)))
    case Listen(s, iss, now) =>
      if l.b.Some? then l
      else if s.flags.syn && !s.flags.ack then l.(b := Some(Accept(s, iss, now)))
      else if s.flags.rst then l
      else l.(refusals := l.refusals + [ResetReply(s)])
  }

  /** `l` is reachable by `events` from a fresh connection attempt. */
  ghost predicate Reaches(l: Link, events: seq<Event>)
    decreases |events|
  {
    if events == [] then
      l.b.None? && l.refusals == [] && exists iss: u32, now: int, timeoutMs: nat :: l.a == Connect(iss, now, timeoutMs)
    else
      var n := |events| - 1;
      exists p: Link :: Reaches(p, events[..n]) && Possible(p, events[n]) && l == Next(p, events[n])
  }

  // ------------------------------------------------------------- one side

  /** The receiving half is untouched. */
  ghost predicate SameReceiver(c: Conn, d: Conn) {
    && d.rcvNxt == c.rcvNxt && d.ooo == c.ooo && d.peerFin == c.peerFin
    && d.socket.delivered == c.socket.delivered && d.socket.ends == c.socket.ends
    && (d.state.SynSent? <==> c.state.SynSent? && !d.state.Closed?)
    && (c.state.Closed? ==> d.state.Closed?)
  }

  lemma {:induction false} PumpDataSameReceiver(c: Conn, now: int)
    ensures SameReceiver(c, PumpData(c, now)) && PumpData(c, now).state == c.state
    decreases |Flat(c.outbox)|
  {
    if !(c.outbox == [] || Room(c) <= 0 || Flat(c.outbox) == []) {
      var d := PumpOne(c, now);
      assert SameReceiver(c, d) && d.state == c.state by { hide SeqAdd, Take; }
      hide PumpOne, Room;
      PumpDataSameReceiver(d, now);
    }
  }

  lemma PumpSameReceiver(c: Conn, now: int)
    ensures SameReceiver(c, Pump(c, now))
  {
    hide SeqAdd, PumpData;
    PumpDataSameReceiver(c, now);
  }

  /** Writing, closing and the clock do not touch the receiving half. */
  lemma QuietSameReceiver(c: Conn, input: Input, now: int)
    requires !input.Arrived?
    ensures SameReceiver(c, Step(c, input, now))
  {
    hide Pump, FirstDue, OnTcp, SameReceiver;
    match input
    case Wrote(bytes) =>
      var d := c.(outbox := if bytes == [] then c.outbox else c.outbox + [bytes],
                  socket := c.socket.(written := c.socket.written + bytes));
      assert SameReceiver(c, c) && SameReceiver(c, d) by { SameAlready(c, d); SameAlready(c, c); }
      PumpSameReceiver(d, now);
      SameReceiverOnward(c, d, Pump(d, now));
    case Finished =>
      var d := c.(wantsFin := true);
      SameAlready(c, d);
      PumpSameReceiver(d, now);
      SameReceiverOnward(c, d, Pump(d, now));
      CloseSameReceiver(Pump(d, now), now);
      SameReceiverOnward(c, Pump(d, now), MaybeClose(Pump(d, now), now));
    case Ticked => TickSameReceiver(c, now);
    case Destroyed => DestroySameReceiver(c);
  }

  lemma SameAlready(c: Conn, d: Conn)
    requires (d.rcvNxt, d.ooo, d.peerFin, d.state) == (c.rcvNxt, c.ooo, c.peerFin, c.state)
    requires d.socket.delivered == c.socket.delivered && d.socket.ends == c.socket.ends
    ensures SameReceiver(c, d)
  {
  }

  lemma SameReceiverOnward(c: Conn, d: Conn, e: Conn)
    requires SameReceiver(c, d) && SameReceiver(d, e)
    ensures SameReceiver(c, e)
  {
  }

  lemma CloseSameReceiver(c: Conn, now: int)
    ensures SameReceiver(c, MaybeClose(c, now))
  {
  }

  lemma TickSameReceiver(c: Conn, now: int)
    ensures SameReceiver(c, Tick(c, now))
  {
    hide FirstDue;
  }

  lemma DestroySameReceiver(c: Conn)
    ensures SameReceiver(c, Destroy(c))
  {
  }

  lemma SameReceiverKeeps(c: Conn, d: Conn, iss: u32, w: Bytes, over: bool)
    requires ReceiverInv(c, iss, w, over) && SameReceiver(c, d)
    ensures ReceiverInv(d, iss, w, over)
  {
    hide At, SomeSlice;
  }

  lemma SynAckKeepsReceiver(c: Conn, s: Segment, now: int, iss: u32, w: Bytes, over: bool)
    requires Unread(c) && c.state.SynSent? && TruthfulSegment(iss, w, over, s)
    ensures ReceiverInv(OnSynAck(c, s, now), iss, w, over)
  {
    hide Pump, At, SeqAdd, SomeSlice, Slice;
    if s.flags.syn && s.flags.ack && s.ackNo == c.sndNxt {
      var d := SendAck(Establish(c.(rcvNxt := SeqAdd(s.seqNo, 1), peerWindow := s.window), s.ackNo));
      AtStart(iss);
      PumpSameReceiver(d, now);
      SameReceiverKeeps(d, Pump(d, now), iss, w, over);
    }
  }

  /** Text for a connection past the SYN, and the pump after it. */
  lemma PumpedTextKeepsReceiver(c: Conn, s: Segment, now: int, iss: u32, w: Bytes, over: bool)
    requires Reading(c, iss, w, over) && !c.state.SynSent? && Short(w, over) && TruthfulSegment(iss, w, over, s)
    ensures ReceiverInv(Pump(OnText(c, s, now), now), iss, w, over)
  {
    if !s.flags.syn { TextKeepsReading(c, s, now, iss, w, over); }
    hide Reading, Pump, OnData, OnFin;
    var e := OnText(c, s, now);
    PumpSameReceiver(e, now);
    SameReceiverKeeps(e, Pump(e, now), iss, w, over);
  }

  /** An acknowledgement does not touch the receiving half. */
  lemma AckSameReceiver(c: Conn, s: Segment, now: int)
    requires !c.state.SynSent?
    ensures SameReceiver(c, OnAck(c, s, now)) && !OnAck(c, s, now).state.SynSent?
  {
    hide SeqGt, SeqGte, SeqAdd, Unacknowledged, MaybeClose, SameReceiver;
    var d := AckMoved(c, s).(peerWindow := s.window);
    SameAlready(c, c);
    SameAlready(c, FinNoted(d));
    CloseSameReceiver(FinNoted(d), now);
    SameReceiverOnward(c, FinNoted(d), MaybeClose(FinNoted(d), now));
  }

  lemma SameReceiverReads(c: Conn, d: Conn, iss: u32, w: Bytes, over: bool)
    requires Reading(c, iss, w, over) && SameReceiver(c, d)
    ensures Reading(d, iss, w, over)
  {
    hide At, SomeSlice;
  }

  lemma HandshakeKeepsReceiver(c: Conn, s: Segment, now: int, iss: u32, w: Bytes, over: bool)
    requires Reading(c, iss, w, over) && c.state.SynRcvd? && Short(w, over) && TruthfulSegment(iss, w, over, s)
    ensures ReceiverInv(OnHandshakeAck(c, s, now), iss, w, over)
  {
    if !s.flags.ack || s.ackNo != c.sndNxt {
      hide Reading;
    } else {
      var d := Establish(c, s.ackNo);
      assert SameReceiver(c, d);
      hide SameReceiver, Pump, OnText, Reading, ReceiverInv, TruthfulSegment, Short;
      SameReceiverReads(c, d, iss, w, over);
      PumpedTextKeepsReceiver(d, s, now, iss, w, over);
    }
  }

  lemma OpenKeepsReceiver(c: Conn, s: Segment, now: int, iss: u32, w: Bytes, over: bool)
    requires Reading(c, iss, w, over) && !c.state.SynSent? && Short(w, over) && TruthfulSegment(iss, w, over, s)
    ensures ReceiverInv(Pump(OnText(if s.flags.ack then OnAck(c, s, now) else c, s, now), now), iss, w, over)
  {
    hide SameReceiver, Pump, OnText, OnAck, Reading, ReceiverInv, TruthfulSegment, Short;
    AckSameReceiver(c, s, now);
    SameReceiverReads(c, OnAck(c, s, now), iss, w, over);
    PumpedTextKeepsReceiver(if s.flags.ack then OnAck(c, s, now) else c, s, now, iss, w, over);
  }

  lemma TeardownSameReceiver(c: Conn)
    ensures SameReceiver(c, Teardown(c))
  {
  }

  lemma ArrivalKeepsReceiver(c: Conn, s: Segment, now: int, iss: u32, w: Bytes, over: bool)
    requires ReceiverInv(c, iss, w, over) && Short(w, over) && TruthfulSegment(iss, w, over, s)
    ensures ReceiverInv(OnTcp(c, s, now), iss, w, over)
  {
    hide OnSynAck, OnHandshakeAck, OnText, OnAck, Pump, Teardown, TruthfulSegment, Reading, Short, SameReceiver,
         ResetReply;
    if c.state.Closed? {
      hide ReceiverInv;
      if !s.flags.rst {
        assert SameReceiver(c, c.(wire := c.wire + [ResetReply(s)])) by { SameButWire(c, c.wire + [ResetReply(s)]); }
        SameReceiverKeeps(c, c.(wire := c.wire + [ResetReply(s)]), iss, w, over);
      }
    } else if s.flags.rst {
      hide ReceiverInv;
      TeardownSameReceiver(c);
      SameReceiverKeeps(c, Teardown(c), iss, w, over);
    } else if c.state.SynSent? {
      SynAckKeepsReceiver(c, s, now, iss, w, over);
    } else if c.state.SynRcvd? {
      HandshakeKeepsReceiver(c, s, now, iss, w, over);
    } else {
      OpenKeepsReceiver(c, s, now, iss, w, over);
    }
  }

  lemma SameButWire(c: Conn, wire: seq<Segment>)
    ensures SameReceiver(c, c.(wire := wire))
  {
  }

  lemma AtStart(iss: u32)
    ensures At(iss, 1) == SeqAdd(iss, 1)
  {
  }

  // ------------------------------------------------------------- the stream grows

  /** The stream `(w, over)` may become `(w', over')`. */
  ghost predicate Continues(w: Bytes, over: bool, w': Bytes, over': bool) {
    w <= w' && (over ==> over' && w' == w)
  }

  lemma SomeSliceGrows(iss: u32, w: Bytes, w': Bytes, seqNo: u32, payload: Bytes)
    requires w <= w' && SomeSlice(iss, w, seqNo, payload)
    ensures SomeSlice(iss, w', seqNo, payload)
  {
    var p: nat :| Slice(iss, w, seqNo, payload, p);
    assert w'[p..p + |payload|] == w[p..p + |payload|];
    assert Slice(iss, w', seqNo, payload, p);
  }

  lemma ReceiverFollows(c: Conn, iss: u32, w: Bytes, over: bool, w': Bytes, over': bool)
    requires ReceiverInv(c, iss, w, over) && Continues(w, over, w', over')
    ensures ReceiverInv(c, iss, w', over')
  {
    if Reading(c, iss, w, over) {
      forall k | k in c.ooo ensures SomeSlice(iss, w', k, c.ooo[k]) {
        SomeSliceGrows(iss, w, w', k, c.ooo[k]);
      }
    }
  }

  lemma {:induction false} PumpDataSameStream(c: Conn, now: int)
    ensures PumpData(c, now).socket == c.socket && PumpData(c, now).finSeq == c.finSeq && PumpData(c, now).iss == c.iss
    decreases |Flat(c.outbox)|
  {
    if !(c.outbox == [] || Room(c) <= 0 || Flat(c.outbox) == []) {
      var d := PumpOne(c, now);
      assert d.socket == c.socket && d.finSeq == c.finSeq && d.iss == c.iss by { hide SeqAdd, Take; }
      hide PumpOne, Room;
      PumpDataSameStream(d, now);
    }
  }

  /** Every step continues the stream written. */
  lemma StepContinues(c: Conn, input: Input, now: int)
    requires SenderInv(c)
    ensures var d := Step(c, input, now);
            && d.iss == c.iss
            && Continues(c.socket.written, c.finSeq.Some?, d.socket.written, d.finSeq.Some?)
  {
    if c.finSeq.Some? { FinIsLast(c, input, now); }
    SameIss(c, input, now);
    hide Step, SenderInv;
  }

  /** Same end, same stream so far. */
  predicate SameStream(c: Conn, d: Conn) {
    d.iss == c.iss && d.socket.written == c.socket.written
  }

  lemma PumpSameStream(c: Conn, now: int)
    ensures SameStream(c, Pump(c, now))
  {
    hide SeqAdd, PumpData;
    PumpDataSameStream(c, now);
  }

  lemma ArrivalSameStream(c: Conn, s: Segment, now: int)
    ensures SameStream(c, OnTcp(c, s, now))
  {
    hide SeqAdd, OnAck, OnText, Pump;
    var d := if s.flags.ack then OnAck(c, s, now) else c;
    AckSameStream(c, s, now);
    TextSameStream(d, s, now);
    var e := Establish(c, s.ackNo);
    TextSameStream(e, s, now);
    var f := SendAck(Establish(c.(rcvNxt := SeqAdd(s.seqNo, 1), peerWindow := s.window), s.ackNo));
    PumpSameStream(OnText(d, s, now), now);
    PumpSameStream(OnText(e, s, now), now);
    PumpSameStream(f, now);
  }

  lemma SameIss(c: Conn, input: Input, now: int)
    ensures var d := Step(c, input, now);
            d.iss == c.iss && c.socket.written <= d.socket.written
  {
    hide SeqAdd, Pump, FirstDue, OnTcp;
    match input
    case Arrived(s) => ArrivalSameStream(c, s, now);
    case Wrote(bytes) =>
      PumpSameStream(c.(outbox := if bytes == [] then c.outbox else c.outbox + [bytes],
                        socket := c.socket.(written := c.socket.written + bytes)), now);
    case Finished => PumpSameStream(c.(wantsFin := true), now);
    case Ticked =>
    case Destroyed =>
  }

  lemma AckSameStream(c: Conn, s: Segment, now: int)
    ensures SameStream(c, OnAck(c, s, now))
  {
    hide SeqGt, SeqGte, SeqAdd, Unacknowledged;
  }

  lemma TextSameStream(c: Conn, s: Segment, now: int)
    ensures SameStream(c, OnText(c, s, now))
  {
    hide SeqAdd, OnData;
    DataSendsNothing(c, s);
  }

  // ------------------------------------------------------------- both sides

  /** The stream written at `c`, so far, does not go round the circle. */
  ghost predicate ShortStream(c: Conn) { Short(c.socket.written, c.finSeq.Some?) }

  /** `c` reads the stream written at `peer`. */
  ghost predicate Reads(c: Conn, peer: Conn) {
    ReceiverInv(c, peer.iss, peer.socket.written, peer.finSeq.Some?)
  }

  ghost predicate LinkInv(l: Link) {
    && SenderInv(l.a)
    && (forall s :: s in l.refusals ==> Bare(s))
    && (l.b.None? ==> Unread(l.a))
    && (l.b.Some? ==>
          var b := l.b.value;
          SenderInv(b) && (ShortStream(b) ==> Reads(l.a, b)) && (ShortStream(l.a) ==> Reads(b, l.a)))
  }

  /** A step at one end keeps both receivers' accounts of the other's stream. */
  lemma EndStep(c: Conn, peer: Conn, input: Input, now: int)
    requires SenderInv(c) && SenderInv(peer)
    requires ShortStream(peer) ==> Reads(c, peer)
    requires ShortStream(c) ==> Reads(peer, c)
    requires input.Arrived? ==> input.s in peer.wire || Bare(input.s)
    ensures var d := Step(c, input, now);
            SenderInv(d) && (ShortStream(peer) ==> Reads(d, peer)) && (ShortStream(d) ==> Reads(peer, d))
  {
    StepKeeps(c, input, now);
    StepContinues(c, input, now);
    var d := Step(c, input, now);
    if ShortStream(peer) {
      match input {
        case Arrived(s) =>
          assert TruthfulSegment(peer.iss, peer.socket.written, peer.finSeq.Some?, s);
          hide SenderInv, ReceiverInv;
          ArrivalKeepsReceiver(c, s, now, peer.iss, peer.socket.written, peer.finSeq.Some?);
        case _ =>
          hide SenderInv, ReceiverInv;
          QuietSameReceiver(c, input, now);
          SameReceiverKeeps(c, d, peer.iss, peer.socket.written, peer.finSeq.Some?);
      }
    }
    hide Step, SenderInv, ReceiverInv;
    if ShortStream(d) {
      ReceiverFollows(peer, c.iss, c.socket.written, c.finSeq.Some?, d.socket.written, d.finSeq.Some?);
    }
  }

  /** Before anything has been accepted only refusals can reach the opener. */
  lemma LonelyStep(c: Conn, input: Input, now: int)
    requires SenderInv(c) && Unread(c)
    requires input.Arrived? ==> Bare(input.s)
    ensures SenderInv(Step(c, input, now)) && Unread(Step(c, input, now))
  {
    StepKeeps(c, input, now);
    hide SenderInv;
    match input
    case Arrived(s) => hide Pump, OnText, OnAck;
    case _ => QuietSameReceiver(c, input, now);
  }

  lemma AcceptKeeps(l: Link, s: Segment, iss: u32, now: int)
    requires LinkInv(l) && l.b.None? && s in l.a.wire && s.flags.syn && !s.flags.ack
    ensures LinkInv(l.(b := Some(Accept(s, iss, now))))
  {
    AcceptBegins(s, iss, now);
    var b := Accept(s, iss, now);
    assert Truthful(l.a.iss, l.a.socket.written, l.a.finSeq.Some?, s.flags, s.seqNo, s.payload);
    AtStart(l.a.iss);
    hide SenderInv, At, SeqAdd;
    assert Reading(b, l.a.iss, l.a.socket.written, l.a.finSeq.Some?);
  }

  lemma NextKeeps(l: Link, e: Event)
    requires LinkInv(l) && Possible(l, e)
    ensures LinkInv(Next(l, e))
  {
    hide Step, SenderInv, Reads, ShortStream, Unread, Accept;
    match e
    case AtA(input, now) =>
      if l.b.None? { LonelyStep(l.a, input, now); } else { EndStep(l.a, l.b.value, input, now); }
    case AtB(input, now) => EndStep(l.b.value, l.a, input, now);
    case Listen(s, iss, now) =>
      if s.flags.syn && !s.flags.ack { AcceptKeeps(l, s, iss, now); }
  }

  lemma {:induction false} ReachableKeeps(l: Link, events: seq<Event>)
    requires Reaches(l, events)
    ensures LinkInv(l)
    decreases |events|
  {
    if events == [] {
      var iss: u32, now: int, timeoutMs: nat :| l.a == Connect(iss, now, timeoutMs);
      ConnectBegins(iss, now, timeoutMs);
    } else {
      var n := |events| - 1;
      var p: Link :| Reaches(p, events[..n]) && Possible(p, events[n]) && l == Next(p, events[n]);
      ReachableKeeps(p, events[..n]);
      NextKeeps(p, events[n]);
    }
  }

  /** What `to` has delivered, and what it believes, of the stream written at `from`. */
  ghost predicate Faithful(from: Conn, to: Conn) {
    && to.socket.delivered <= from.socket.written
    && (to.peerFin ==> from.finSeq.Some? && to.socket.delivered == from.socket.written)
    && to.socket.ends == (if to.peerFin then 1 else 0)
    && (!to.state.SynSent? && !to.state.Closed? ==> to.rcvNxt == At(from.iss, 1 + Position(to)))
  }

  /**
   * End to end, in each direction: over every interleaving of writes, closes,
   * ticks, losses, duplications and reorderings, what has been delivered is a
   * prefix of what was written, and the end of the stream is announced at most
   * once and only when all of it has been delivered. It is so up to the length
   * at which sequence numbers come round again.
   */
  lemma StreamSafety(l: Link, events: seq<Event>)
    requires Reaches(l, events)
    ensures l.b.Some? && ShortStream(l.a) ==> Faithful(l.a, l.b.value)
    ensures l.b.Some? && ShortStream(l.b.value) ==> Faithful(l.b.value, l.a)
    ensures l.b.None? ==> l.a.socket.delivered == []
  {
    ReachableKeeps(l, events);
    hide SenderInv;
  }
}
