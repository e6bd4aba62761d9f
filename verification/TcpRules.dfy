/**
 * What one step owes to the peer and to the clock: whose window bounds the
 * flight, when a segment is sent again and how much later, and when a connection
 * ends.
 */
module TcpRules {
  import opened Common
  import opened SeqNum
  import opened Tcp
  import opened TcpSender
  import opened TcpTimer

  // ------------------------------------------------------------- the peer's window

  /** What sending data leaves alone. */
  ghost predicate Alike(c: Conn, d: Conn) {
    && d.peerWindow == c.peerWindow && d.finSeq == c.finSeq && d.rto == c.rto && d.socket == c.socket
    && d.state == c.state && d.wantsFin == c.wantsFin && d.peerFin == c.peerFin && d.finAcked == c.finAcked
  }

  lemma {:induction false} PumpDataAlike(c: Conn, now: int)
    ensures Alike(c, PumpData(c, now)) && c.wire <= PumpData(c, now).wire
    decreases |Flat(c.outbox)|
  {
    if !(c.outbox == [] || Room(c) <= 0 || Flat(c.outbox) == []) {
      assert Alike(c, PumpOne(c, now)) && c.wire <= PumpOne(c, now).wire by { hide SeqAdd, Take; }
      hide PumpOne, Room;
      PumpDataAlike(PumpOne(c, now), now);
    }
  }

  lemma PumpSame(c: Conn, now: int)
    ensures var d := Pump(c, now); d.peerWindow == c.peerWindow && d.rto == c.rto && d.socket == c.socket && c.wire <= d.wire
  {
    hide SeqAdd, PumpData;
    PumpDataAlike(c, now);
  }

  /** `d` has the window and the timer `c` has, and has put no data on the wire. */
  ghost predicate NoData(c: Conn, d: Conn) {
    && d.peerWindow == c.peerWindow && d.rto == c.rto && c.wire <= d.wire
    && forall k :: |c.wire| <= k < |d.wire| ==> d.wire[k].payload == []
  }

  lemma {:induction false} DrainNoData(c: Conn, d: Conn)
    requires NoData(c, d)
    ensures NoData(c, Drain(d))
    decreases |d.ooo|
  {
    if d.rcvNxt in d.ooo {
      var held := d.ooo[d.rcvNxt];
      assert (d.ooo - {d.rcvNxt}).Keys == d.ooo.Keys - {d.rcvNxt};
      hide SeqAdd;
      DrainNoData(c, Deliver(d.(ooo := d.ooo - {d.rcvNxt}), held, SeqAdd(d.rcvNxt, |held|)));
    }
  }

  lemma AckNoData(c: Conn, d: Conn)
    requires NoData(c, d)
    ensures NoData(c, SendAck(d))
  {
  }

  lemma DeliverNoData(c: Conn, bytes: Bytes, next: u32)
    ensures NoData(c, SendAck(Drain(Deliver(c, bytes, next))))
  {
    assert NoData(c, Deliver(c, bytes, next));
    DrainNoData(c, Deliver(c, bytes, next));
    AckNoData(c, Drain(Deliver(c, bytes, next)));
    hide Drain, NoData, SendAck, Deliver;
  }

  lemma DataNoData(c: Conn, s: Segment)
    ensures NoData(c, OnData(c, s))
  {
    var end := SeqAdd(s.seqNo, |s.payload|);
    var held := c.(ooo := c.ooo[s.seqNo := s.payload]);
    AckNoData(c, c);
    AckNoData(c, held);
    hide SeqLte, SeqGt, SeqDiff, SeqAdd, Drain, SendAck, Deliver, Drop, NoData;
    DeliverNoData(c, s.payload, end);
    DeliverNoData(c, Drop(s.payload, SeqDiff(c.rcvNxt, s.seqNo)), end);
  }

  lemma TextNoData(c: Conn, s: Segment, now: int)
    ensures NoData(c, OnText(c, s, now))
  {
    hide OnData, SeqAdd;
    DataNoData(c, s);
  }

  /** The acknowledgement is one this connection takes: of something sent, past the handshake or ending it. */
  predicate Heeded(c: Conn, s: Segment) {
    && !c.state.Closed? && !s.flags.rst && s.flags.ack
    && (if c.state.SynSent? then s.flags.syn && s.ackNo == c.sndNxt
        else !c.state.SynRcvd? && !SeqGt(s.ackNo, c.sndNxt))
  }

  /** The window is the one of the last acknowledgement heeded, and changes with nothing else. */
  lemma WindowTaken(c: Conn, s: Segment, now: int)
    ensures OnTcp(c, s, now).peerWindow == if Heeded(c, s) then s.window else c.peerWindow
  {
    hide Pump, OnText, SeqGt, SeqGte, SeqAdd, Unacknowledged;
    var d := if s.flags.ack then OnAck(c, s, now) else c;
    TextNoData(d, s, now);
    PumpSame(OnText(d, s, now), now);
    var e := Establish(c, s.ackNo);
    TextNoData(e, s, now);
    PumpSame(OnText(e, s, now), now);
    PumpSame(SendAck(Establish(c.(rcvNxt := SeqAdd(s.seqNo, 1), peerWindow := s.window), s.ackNo)), now);
  }

  /** `d` comes after `c`, and some segment with data has been put on the wire in between. */
  ghost predicate SentData(c: Conn, d: Conn) {
    exists k :: |c.wire| <= k < |d.wire| && d.wire[k].payload != []
  }

  /** Pumping sends data only into the window; the FIN behind it takes a place of its own. */
  lemma PumpFits(c: Conn, now: int)
    ensures var d := Pump(c, now);
            SentData(c, d) ==> InFlight(d) <= c.peerWindow + if c.finSeq.None? && d.finSeq.Some? then 1 else 0
  {
    if c.state.Established? || c.state.CloseWait? {
      WindowRespected(c, now);
      PumpDataAlike(c, now);
      var sent := PumpData(c, now);
      hide PumpData, SeqDiff, SeqAdd;
      if InFlight(sent) <= c.peerWindow { FlightAfter(sent, 1); }
    }
  }

  lemma NoDataThenSent(c: Conn, d: Conn, e: Conn)
    requires NoData(c, d) && SentData(c, e) && d.wire <= e.wire
    ensures SentData(d, e)
  {
    var k :| |c.wire| <= k < |e.wire| && e.wire[k].payload != [];
    assert k >= |d.wire|;
  }

  lemma PumpAfter(c: Conn, d: Conn, now: int)
    requires NoData(c, d) && d.finSeq == c.finSeq
    ensures var e := Pump(d, now);
            SentData(c, e) ==> InFlight(e) <= d.peerWindow + if c.finSeq.None? && e.finSeq.Some? then 1 else 0
  {
    PumpSame(d, now);
    PumpFits(d, now);
    hide Pump, NoData, SentData, InFlight;
    if SentData(c, Pump(d, now)) { NoDataThenSent(c, d, Pump(d, now)); }
  }

  lemma TextSameFin(c: Conn, s: Segment, now: int)
    ensures OnText(c, s, now).finSeq == c.finSeq
  {
    hide SeqAdd, OnData;
    DataSendsNothing(c, s);
  }

  /**
   * Whenever a segment, a write or a close puts data on the wire, all that is
   * then in flight fits the window last advertised, apart from the FIN.
   */
  lemma FlightFits(c: Conn, input: Input, now: int)
    requires !input.Ticked?
    ensures var d := Step(c, input, now);
            SentData(c, d) ==> InFlight(d) <= d.peerWindow + if c.finSeq.None? && d.finSeq.Some? then 1 else 0
  {
    match input
    case Arrived(s) => ArrivalFits(c, s, now);
    case Wrote(bytes) =>
      var d := c.(outbox := if bytes == [] then c.outbox else c.outbox + [bytes],
                  socket := c.socket.(written := c.socket.written + bytes));
      hide Pump, InFlight;
      PumpAfter(c, d, now);
      PumpSame(d, now);
    case Finished =>
      var d := c.(wantsFin := true);
      hide Pump, InFlight;
      PumpAfter(c, d, now);
      PumpSame(d, now);
      CloseSameFlight(Pump(d, now), now);
    case Destroyed =>
  }

  lemma CloseSameFlight(c: Conn, now: int)
    ensures var d := MaybeClose(c, now);
            InFlight(d) == InFlight(c) && d.wire == c.wire && d.finSeq == c.finSeq && d.peerWindow == c.peerWindow
  {
    hide SeqDiff;
  }

  lemma ArrivalFits(c: Conn, s: Segment, now: int)
    ensures var d := OnTcp(c, s, now);
            SentData(c, d) ==> InFlight(d) <= d.peerWindow + if c.finSeq.None? && d.finSeq.Some? then 1 else 0
  {
    AckPlain(c, s, now);
    var d := if s.flags.ack then OnAck(c, s, now) else c;
    var e := Establish(c, s.ackNo);
    var f := Establish(c.(rcvNxt := SeqAdd(s.seqNo, 1), peerWindow := s.window), s.ackNo);
    assert e.wire == f.wire == c.wire && e.finSeq == f.finSeq == c.finSeq;
    hide Pump, OnText, OnAck, SeqAdd, InFlight, Establish, SendAck;
    OpenFits(c, d, s, now);
    OpenFits(c, e, s, now);
    AckedFits(c, f, now);
  }

  /** An acknowledgement puts nothing on the wire and moves nothing of the other stream. */
  lemma AckPlain(c: Conn, s: Segment, now: int)
    ensures var d := OnAck(c, s, now); d.wire == c.wire && d.finSeq == c.finSeq && d.rcvNxt == c.rcvNxt
  {
    var d := AckMoved(c, s);
    assert d.wire == c.wire && d.finSeq == c.finSeq && d.rcvNxt == c.rcvNxt by { hide SeqGt, Unacknowledged; }
    hide AckMoved, SeqGt, SeqGte, SeqAdd;
  }

  lemma AckedFits(c: Conn, d: Conn, now: int)
    requires d.wire == c.wire && d.finSeq == c.finSeq
    ensures var e := Pump(SendAck(d), now);
            SentData(c, e) ==> InFlight(e) <= e.peerWindow + if c.finSeq.None? && e.finSeq.Some? then 1 else 0
  {
    PumpAfter(d, SendAck(d), now);
    PumpSame(SendAck(d), now);
    hide Pump, InFlight;
  }

  lemma OpenFits(c: Conn, d: Conn, s: Segment, now: int)
    requires d.wire == c.wire && d.finSeq == c.finSeq
    ensures var e := Pump(OnText(d, s, now), now);
            SentData(c, e) ==> InFlight(e) <= e.peerWindow + if c.finSeq.None? && e.finSeq.Some? then 1 else 0
  {
    TextNoData(d, s, now);
    TextSameFin(d, s, now);
    PumpAfter(d, OnText(d, s, now), now);
    PumpSame(OnText(d, s, now), now);
    hide Pump, InFlight, OnText;
  }

  // ------------------------------------------------------------- one step after another

  /** A run goes on from where an earlier one ended, each input a step. */
  lemma {:induction false} RunGoesOn(c: Conn, before: seq<(Input, int)>, history: seq<(Input, int)>)
    ensures Run(c, before + history) == Run(Run(c, before), history)
    ensures |history| == 1 ==> Run(c, history) == Step(c, history[0].0, history[0].1)
    decreases |history|
  {
    hide Step;
    if history == [] {
      assert before + [] == before;
    } else {
      var n := |history| - 1;
      assert (before + history)[..|before| + n] == before + history[..n];
      RunGoesOn(c, before, history[..n]);
      if n == 0 { assert Run(c, history[..n]) == c; }
    }
  }

  // ------------------------------------------------------------- nothing is held back

  /** What may be sent has been: data wait only for the window, the FIN only for data. */
  ghost predicate Flushed(c: Conn) {
    c.state.Established? || c.state.CloseWait? ==>
      && (Flat(c.outbox) == [] || InFlight(c) >= c.peerWindow)
      && (c.wantsFin && c.outbox == [] ==> c.finSeq.Some?)
  }

  lemma {:induction false} PumpDataFlushes(c: Conn, now: int)
    ensures var d := PumpData(c, now);
            Flat(d.outbox) == [] || InFlight(d) >= d.peerWindow
    decreases |Flat(c.outbox)|
  {
    if !(c.outbox == [] || Room(c) <= 0 || Flat(c.outbox) == []) {
      hide PumpOne, Room;
      PumpDataFlushes(PumpOne(c, now), now);
    }
  }

  lemma PumpFlushes(c: Conn, now: int)
    ensures Flushed(Pump(c, now))
  {
    hide SeqAdd, PumpData, InFlight;
    PumpDataFlushes(c, now);
    PumpDataAlike(c, now);
  }

  lemma CloseFlushed(c: Conn, now: int)
    requires Flushed(c)
    ensures Flushed(MaybeClose(c, now))
  {
    CloseSameFlight(c, now);
    hide InFlight;
  }

  lemma ArrivalFlushes(c: Conn, s: Segment, now: int)
    requires Flushed(c)
    ensures Flushed(OnTcp(c, s, now))
  {
    var e := SendAck(Establish(c.(rcvNxt := SeqAdd(s.seqNo, 1), peerWindow := s.window), s.ackNo));
    if c.state.Closed? || s.flags.rst || c.state.SynSent? || c.state.SynRcvd? {
      hide Pump, OnText, SeqAdd, InFlight;
      PumpFlushes(e, now);
      PumpFlushes(OnText(Establish(c, s.ackNo), s, now), now);
    } else {
      hide Pump, OnText, SeqGt, OnAck, Flushed;
      PumpFlushes(OnText(if s.flags.ack then OnAck(c, s, now) else c, s, now), now);
    }
  }

  /** Every step leaves the connection with nothing to send that it could send. */
  lemma NothingHeldBack(c: Conn, input: Input, now: int)
    requires Flushed(c)
    ensures Flushed(Step(c, input, now))
  {
    match input
    case Arrived(s) => ArrivalFlushes(c, s, now);
    case Wrote(bytes) =>
      hide Pump, Flushed;
      PumpFlushes(c.(outbox := if bytes == [] then c.outbox else c.outbox + [bytes],
                     socket := c.socket.(written := c.socket.written + bytes)), now);
    case Finished =>
      hide Pump, MaybeClose, Flushed;
      PumpFlushes(c.(wantsFin := true), now);
      CloseFlushed(Pump(c.(wantsFin := true), now), now);
    case Ticked =>
      hide FirstDue, SeqDiff;
    case Destroyed =>
  }

  // ------------------------------------------------------------- what is acknowledged

  /** `d` comes after `c`, and if anything was put on the wire the last of it says how far the stream has come, and that there is room. */
  ghost predicate SaysHowFar(c: Conn, d: Conn) {
    && c.wire <= d.wire && (d.rcvNxt != c.rcvNxt ==> |d.wire| > |c.wire|)
    && (|d.wire| > |c.wire| ==> Current(d.wire[|d.wire| - 1], d.rcvNxt))
  }

  predicate Current(s: Segment, rcvNxt: u32) { s.flags.ack && s.ackNo == rcvNxt && s.window == 65535 }

  lemma {:induction false} PumpDataSays(c: Conn, d: Conn, now: int)
    requires SaysHowFar(c, d)
    ensures SaysHowFar(c, PumpData(d, now))
    decreases |Flat(d.outbox)|
  {
    if !(d.outbox == [] || Room(d) <= 0 || Flat(d.outbox) == []) {
      assert SaysHowFar(c, PumpOne(d, now)) by { hide SeqAdd, Take; }
      hide PumpOne, Room, SaysHowFar;
      PumpDataSays(c, PumpOne(d, now), now);
    }
  }

  lemma PumpSays(c: Conn, d: Conn, now: int)
    requires SaysHowFar(c, d)
    ensures SaysHowFar(c, Pump(d, now)) && |Pump(d, now).wire| >= |d.wire|
  {
    hide SeqAdd, PumpData;
    PumpDataSays(c, d, now);
    PumpDataAlike(d, now);
  }

  lemma {:induction false} DrainSameWire(c: Conn)
    ensures Drain(c).wire == c.wire
    decreases |c.ooo|
  {
    if c.rcvNxt in c.ooo {
      var held := c.ooo[c.rcvNxt];
      assert (c.ooo - {c.rcvNxt}).Keys == c.ooo.Keys - {c.rcvNxt};
      hide SeqAdd;
      DrainSameWire(Deliver(c.(ooo := c.ooo - {c.rcvNxt}), held, SeqAdd(c.rcvNxt, |held|)));
    }
  }

  /** `d` comes after `c` with one acknowledgement more. */
  ghost predicate AckedOnce(c: Conn, d: Conn) {
    |d.wire| == |c.wire| + 1 && c.wire <= d.wire && Current(d.wire[|c.wire|], d.rcvNxt)
  }

  lemma AckIsLast(c: Conn, d: Conn)
    requires d.wire == c.wire
    ensures AckedOnce(c, SendAck(d))
  {
  }

  lemma DataAcked(c: Conn, s: Segment)
    ensures AckedOnce(c, OnData(c, s))
  {
    var end := SeqAdd(s.seqNo, |s.payload|);
    var whole, rest := Deliver(c, s.payload, end), Deliver(c, Drop(s.payload, SeqDiff(c.rcvNxt, s.seqNo)), end);
    var held := c.(ooo := c.ooo[s.seqNo := s.payload]);
    assert whole.wire == rest.wire == held.wire == c.wire;
    hide *;
    DrainSameWire(whole);
    DrainSameWire(rest);
    AckIsLast(c, c);
    AckIsLast(c, held);
    AckIsLast(c, Drain(whole));
    AckIsLast(c, Drain(rest));
    DataCases(c, s);
  }

  lemma DataCases(c: Conn, s: Segment)
    ensures var end := SeqAdd(s.seqNo, |s.payload|);
            OnData(c, s) in [SendAck(c), SendAck(c.(ooo := c.ooo[s.seqNo := s.payload])), SendAck(Drain(Deliver(c, s.payload, end))),
                             SendAck(Drain(Deliver(c, Drop(s.payload, SeqDiff(c.rcvNxt, s.seqNo)), end)))]
  {
    hide SeqLte, SeqGt, SeqDiff, SeqAdd, Drain, SendAck, Deliver, Drop;
  }

  lemma TextSays(c: Conn, s: Segment, now: int)
    ensures var d := OnText(c, s, now);
            && SaysHowFar(c, d)
            && (s.payload != [] || (s.flags.fin && s.seqNo == c.rcvNxt) ==> |d.wire| > |c.wire|)
  {
    DataAcked(c, s);
    hide OnData, SeqAdd;
  }

  lemma ArrivalAnswered(c: Conn, s: Segment, now: int)
    requires !c.state.Closed?
    ensures var d := OnTcp(c, s, now);
            && SaysHowFar(c, d)
            && (s.payload != [] && !s.flags.rst && !c.state.SynSent? && !c.state.SynRcvd? ==> |d.wire| > |c.wire|)
  {
    AckPlain(c, s, now);
    var d := if s.flags.ack then OnAck(c, s, now) else c;
    var e := SendAck(Establish(c.(rcvNxt := SeqAdd(s.seqNo, 1), peerWindow := s.window), s.ackNo));
    assert SaysHowFar(c, e) && SaysHowFar(c, c) && SaysHowFar(c, Teardown(c));
    hide SaysHowFar, Pump, OnText, OnAck, SendAck, Teardown, SeqAdd;
    TextAnswered(c, d, s, now);
    TextAnswered(c, Establish(c, s.ackNo), s, now);
    PumpSays(c, e, now);
  }

  lemma TextAnswered(c: Conn, d: Conn, s: Segment, now: int)
    requires d.wire == c.wire && d.rcvNxt == c.rcvNxt
    ensures var e := Pump(OnText(d, s, now), now);
            SaysHowFar(c, e) && (s.payload != [] ==> |e.wire| > |c.wire|)
  {
    TextSays(d, s, now);
    hide Pump, OnText;
    PumpSays(c, OnText(d, s, now), now);
  }

  /**
   * Whatever a segment, a write or a close puts on the wire last says how far the
   * peer's stream has come, and data that arrive are always answered, new or not.
   */
  lemma AlwaysAnswered(c: Conn, input: Input, now: int)
    requires !c.state.Closed? && !input.Destroyed? && !input.Ticked?
    ensures var d := Step(c, input, now);
            && SaysHowFar(c, d)
            && (input.Arrived? && input.s.payload != [] && !input.s.flags.rst && !c.state.SynSent? && !c.state.SynRcvd? ==>
                  |d.wire| > |c.wire|)
  {
    match input
    case Arrived(s) => ArrivalAnswered(c, s, now);
    case Wrote(bytes) =>
      var d := c.(outbox := if bytes == [] then c.outbox else c.outbox + [bytes],
                  socket := c.socket.(written := c.socket.written + bytes));
      assert SaysHowFar(c, c) && SaysHowFar(c, d);
      hide Pump, SaysHowFar;
      PumpSays(c, d, now);
    case Finished =>
      assert SaysHowFar(c, c.(wantsFin := true));
      hide Pump;
      PumpSays(c, c.(wantsFin := true), now);
  }

  // ------------------------------------------------------------- what the state says

  /** The state says which of the two streams have ended, and one that is over has nothing outstanding. */
  ghost predicate StateSays(c: Conn) {
    match c.state
    case SynSent => c.finSeq.None? && !c.peerFin
    case SynRcvd => c.finSeq.None? && !c.peerFin
    case Established => c.finSeq.None? && !c.peerFin
    case CloseWait => c.finSeq.None? && c.peerFin
    case FinWait => c.finSeq.Some? && !c.peerFin
    case Closing => c.finSeq.Some? && c.peerFin
    case Closed => c.unacked == []
  }

  /** What deciding the state goes by. */
  ghost predicate SameEnds(c: Conn, d: Conn) {
    d.state == c.state && d.finSeq == c.finSeq && d.peerFin == c.peerFin && d.finAcked == c.finAcked && d.unacked == c.unacked
  }

  lemma {:induction false} DrainSameEnds(c: Conn, d: Conn)
    requires SameEnds(c, d)
    ensures SameEnds(c, Drain(d))
    decreases |d.ooo|
  {
    if d.rcvNxt in d.ooo {
      var held := d.ooo[d.rcvNxt];
      assert (d.ooo - {d.rcvNxt}).Keys == d.ooo.Keys - {d.rcvNxt};
      hide SeqAdd;
      DrainSameEnds(c, Deliver(d.(ooo := d.ooo - {d.rcvNxt}), held, SeqAdd(d.rcvNxt, |held|)));
    }
  }

  lemma AckSameEnds(c: Conn, d: Conn)
    requires SameEnds(c, d)
    ensures SameEnds(c, SendAck(d))
  {
  }

  lemma DataSameEnds(c: Conn, s: Segment)
    ensures SameEnds(c, OnData(c, s))
  {
    var end := SeqAdd(s.seqNo, |s.payload|);
    var whole, rest := Deliver(c, s.payload, end), Deliver(c, Drop(s.payload, SeqDiff(c.rcvNxt, s.seqNo)), end);
    var held := c.(ooo := c.ooo[s.seqNo := s.payload]);
    assert SameEnds(c, c) && SameEnds(c, whole) && SameEnds(c, rest) && SameEnds(c, held);
    hide *;
    DrainSameEnds(c, whole);
    DrainSameEnds(c, rest);
    AckSameEnds(c, c);
    AckSameEnds(c, held);
    AckSameEnds(c, Drain(whole));
    AckSameEnds(c, Drain(rest));
    DataCases(c, s);
  }

  /** A closed connection has seen both ends or none of this matters. */
  lemma TextStateSays(c: Conn, s: Segment, now: int)
    requires StateSays(c) && !c.state.SynSent? && !c.state.SynRcvd? && (c.state.Closed? ==> c.peerFin && c.finAcked)
    ensures StateSays(OnText(c, s, now))
  {
    DataSameEnds(c, s);
    hide OnData, SeqAdd;
  }

  lemma PumpStateSays(c: Conn, now: int)
    requires StateSays(c)
    ensures StateSays(Pump(c, now))
  {
    hide SeqAdd, PumpData;
    PumpDataAlike(c, now);
  }

  lemma StateKept(c: Conn, input: Input, now: int)
    requires StateSays(c)
    ensures StateSays(Step(c, input, now))
  {
    match input
    case Arrived(s) => ArrivalStateSays(c, s, now);
    case Wrote(bytes) =>
      var d := c.(outbox := if bytes == [] then c.outbox else c.outbox + [bytes],
                  socket := c.socket.(written := c.socket.written + bytes));
      assert StateSays(d);
      hide Pump, StateSays;
      PumpStateSays(d, now);
    case Finished =>
      assert StateSays(c.(wantsFin := true));
      hide Pump, MaybeClose, StateSays;
      PumpStateSays(c.(wantsFin := true), now);
      CloseStateSays(Pump(c.(wantsFin := true), now), now);
    case Ticked => TickStateSays(c, now);
    case Destroyed =>
  }

  lemma CloseStateSays(c: Conn, now: int)
    requires StateSays(c)
    ensures StateSays(MaybeClose(c, now))
  {
  }

  lemma TickStateSays(c: Conn, now: int)
    requires StateSays(c)
    ensures StateSays(Tick(c, now))
  {
    hide FirstDue;
  }

  lemma AckStateSays(c: Conn, s: Segment, now: int)
    requires StateSays(c) && !c.state.Closed? && !c.state.SynSent? && !c.state.SynRcvd?
    ensures var d := OnAck(c, s, now);
            StateSays(d) && !d.state.SynSent? && !d.state.SynRcvd? && (d.state.Closed? ==> d.peerFin && d.finAcked)
  {
    hide SeqGt, SeqGte, SeqAdd, Unacknowledged;
  }

  lemma ArrivalStateSays(c: Conn, s: Segment, now: int)
    requires StateSays(c)
    ensures StateSays(OnTcp(c, s, now))
  {
    if c.state.Closed? || s.flags.rst {
    } else if c.state.SynSent? {
      var d := SendAck(Establish(c.(rcvNxt := SeqAdd(s.seqNo, 1), peerWindow := s.window), s.ackNo));
      assert StateSays(d);
      hide Pump, SeqAdd;
      PumpStateSays(d, now);
    } else if c.state.SynRcvd? {
      hide Pump, OnText;
      TextStateSays(Establish(c, s.ackNo), s, now);
      PumpStateSays(OnText(Establish(c, s.ackNo), s, now), now);
    } else {
      var d := if s.flags.ack then OnAck(c, s, now) else c;
      if s.flags.ack { AckStateSays(c, s, now); }
      hide Pump, OnText, OnAck, StateSays;
      TextStateSays(d, s, now);
      PumpStateSays(OnText(d, s, now), now);
    }
  }

  lemma {:induction false} RunStateSays(c: Conn, history: seq<(Input, int)>)
    requires StateSays(c)
    ensures StateSays(Run(c, history))
    decreases |history|
  {
    if history != [] {
      var n := |history| - 1;
      hide Step, StateSays;
      RunStateSays(c, history[..n]);
      StateKept(Run(c, history[..n]), history[n].0, history[n].1);
    }
  }

  /** In every run, of either side. */
  lemma StateAlwaysSays(s: Segment, iss: u32, now: int, timeoutMs: nat, history: seq<(Input, int)>)
    ensures StateSays(Run(Connect(iss, now, timeoutMs), history)) && StateSays(Run(Accept(s, iss, now), history))
  {
    hide SeqAdd, Run;
    RunStateSays(Connect(iss, now, timeoutMs), history);
    RunStateSays(Accept(s, iss, now), history);
  }

  /** A connection that is over stays so: a write is refused, and nothing but a reset for what still arrives goes out. */
  lemma ClosedIsOver(c: Conn, input: Input, now: int)
    requires c.state.Closed? && StateSays(c)
    ensures WriteRefused(c) == Some(ConnectionClosed)
    ensures var d := Step(c, input, now);
            && d == c.(wire := d.wire, wantsFin := d.wantsFin) && c.wire <= d.wire
            && if input.Arrived? && !input.s.flags.rst then |d.wire| == |c.wire| + 1 && d.wire[|c.wire|].flags.rst else d.wire == c.wire
  {
    hide FirstDue, SeqAdd;
  }

  /** One whose FIN is out takes no more data, and any other does. */
  lemma HalfClosedExactly(c: Conn, bytes: Bytes, now: int)
    requires !c.state.Closed?
    ensures WriteRefused(c) == if c.finSeq.Some? then Some(HalfClosed) else None
    ensures Write(c, bytes, now).socket.written == c.socket.written + if c.finSeq.Some? then [] else bytes
  {
    var d := c.(outbox := if bytes == [] then c.outbox else c.outbox + [bytes],
                socket := c.socket.(written := c.socket.written + bytes));
    assert c.socket.written + [] == c.socket.written;
    hide Pump;
    PumpSame(d, now);
  }

  // ------------------------------------------------------------- when a segment is sent again

  function Pow2(n: nat): nat { if n == 0 then 1 else 2 * Pow2(n - 1) }

  lemma {:induction false} PowPositive(n: nat)
    ensures Pow2(n) >= 1
  {
    if n > 0 { PowPositive(n - 1); }
  }

  /** Doubling up to a limit, one step more. */
  lemma DoubleMore(r: nat, p: nat, limit: nat)
    requires r <= limit && p >= 1
    ensures Min(Min(r * 2, limit) * p, limit) == Min(r * (2 * p), limit)
  {
    assert r * 2 * p == r * (2 * p);
    if r * 2 > limit {
      assert limit * p >= limit && r * 2 * p >= limit * p;
    }
  }

  /** With nothing acknowledged, the timer after so many resends has doubled as often, up to four seconds. */
  lemma {:induction false} BackoffDoubles(c: Conn, times: seq<int>)
    requires Timed(c)
    ensures var d := Ticks(c, times);
            |d.wire| >= |c.wire| && d.rto == Min(c.rto * Pow2(|d.wire| - |c.wire|), 4000)
    decreases |times|
  {
    if times != [] {
      var e := Tick(c, times[0]);
      TickRto(c, times[0]);
      BackoffDoubles(e, times[1..]);
      var n := |Ticks(c, times).wire| - |e.wire|;
      PowPositive(n);
      if e.wire != c.wire { DoubleMore(c.rto, Pow2(n), 4000); }
    }
  }

  lemma TickRto(c: Conn, now: int)
    requires Timed(c)
    ensures var d := Tick(c, now);
            Timed(d) && ((d.wire == c.wire && d.rto == c.rto) || (|d.wire| == |c.wire| + 1 && d.rto == Min(c.rto * 2, 4000)))
  {
    TeardownTimed(c, now);
    hide FirstDue, Timed;
  }

  /** Progress puts the timer back to its first value, and nothing else but a handshake or a resend changes it. */
  lemma ProgressResets(c: Conn, s: Segment, now: int)
    requires !c.state.Closed? && !c.state.SynSent? && !c.state.SynRcvd? && !s.flags.rst
    ensures OnTcp(c, s, now).rto ==
              if s.flags.ack && !SeqGt(s.ackNo, c.sndNxt) && SeqGt(s.ackNo, c.sndUna) then 200 else c.rto
  {
    hide Pump, OnText, SeqGt, SeqGte, SeqAdd, Unacknowledged;
    var d := if s.flags.ack then OnAck(c, s, now) else c;
    TextNoData(d, s, now);
    PumpSame(OnText(d, s, now), now);
  }

  /** Neither the linger nor the handshake has run out. */
  predicate InTime(c: Conn, now: int) {
    && (c.lingerUntil.Some? ==> now <= c.lingerUntil.value)
    && (c.state.SynSent? || c.state.SynRcvd? ==> now <= c.deadline)
  }

  /** The `i`-th segment is the first that has waited for the whole timer. */
  predicate FirstLate(c: Conn, i: nat, now: int) {
    && i < |c.unacked| && now - c.unacked[i].sentAt >= c.rto
    && forall j :: 0 <= j < i ==> now - c.unacked[j].sentAt < c.rto
  }

  /** A look at the clock resends the first segment that is late, with its time and count renewed; not once it has been tried eight times. */
  lemma TickResends(c: Conn, i: nat, now: int)
    requires InTime(c, now) && FirstLate(c, i, now)
    ensures var d, s := Tick(c, now), c.unacked[i];
            if s.tries >= 8 then c.state.Closed? || d.state.Closed?
            else
              && d.unacked == c.unacked[i := s.(tries := s.tries + 1, sentAt := now)]
              && |d.wire| == |c.wire| + 1 && c.wire <= d.wire
              && var t := d.wire[|c.wire|];
                 (t.seqNo, t.flags, t.payload, t.mss, t.ackNo, t.window) == (s.seqNo, s.flags, s.payload, s.mss, c.rcvNxt, 65535)
  {
    OnlyFirst(c.unacked, c.rto, now, i);
    hide FirstDue;
  }

  lemma OnlyFirst(u: seq<Sent>, rto: nat, now: int, i: nat)
    requires i < |u| && now - u[i].sentAt >= rto && forall j :: 0 <= j < i ==> now - u[j].sentAt < rto
    ensures FirstDue(u, rto, now) == i
  {
    hide FirstDue;
    var k := FirstDue(u, rto, now);
    assert k <= i && k >= i;
  }

  /** And does nothing while none is. */
  lemma TickWaits(c: Conn, now: int)
    requires InTime(c, now) && forall i :: 0 <= i < |c.unacked| ==> now - c.unacked[i].sentAt < c.rto
    ensures Tick(c, now) == c
  {
    hide FirstDue;
  }

  // ------------------------------------------------------------- how a connection begins

  /** The first segment of each side, and what each takes the other's window for until it hears more. */
  lemma Opens(s: Segment, iss: u32, now: int, timeoutMs: nat)
    ensures Connect(iss, now, timeoutMs).wire == [Segment(Flags(false, true, false, false, false), iss, 0, 65535, [], Some(1460))]
    ensures Accept(s, iss, now).wire == [Segment(Flags(false, true, false, false, true), iss, SeqAdd(s.seqNo, 1), 65535, [], Some(1460))]
    ensures Connect(iss, now, timeoutMs).peerWindow == 1460
    ensures Accept(s, iss, now).peerWindow == if s.window == 0 then 1460 else s.window
  {
    hide SeqAdd;
  }

  /** What ends a handshake: for the opener a SYN that acknowledges its own, for the acceptor any acknowledgement of it. */
  predicate Answers(c: Conn, s: Segment) {
    s.flags.ack && s.ackNo == c.sndNxt && (c.state.SynSent? ==> s.flags.syn)
  }

  /** Anything else, a reset aside, is as if it had not come; then the caller's end opens, with nothing outstanding. */
  lemma HandshakeExactly(c: Conn, s: Segment, now: int)
    requires (c.state.SynSent? || c.state.SynRcvd?) && !s.flags.rst
    ensures var d := OnTcp(c, s, now);
            if !Answers(c, s) then d == c
            else
              && d.socket.isOpen && !d.state.SynSent? && !d.state.SynRcvd? && d.sndUna == s.ackNo
              && (c.state.SynSent? ==> d.rcvNxt == SeqAdd(s.seqNo, 1))
              && (c.outbox == [] && !c.wantsFin ==> d.unacked == [])
  {
    if Answers(c, s) {
      if c.state.SynSent? {
        var e := SendAck(Establish(c.(rcvNxt := SeqAdd(s.seqNo, 1), peerWindow := s.window), s.ackNo));
        hide Pump, SeqAdd;
        PumpOpens(e, now);
      } else {
        var e := Establish(c, s.ackNo);
        hide Pump, OnText;
        TextOpens(e, s, now);
        PumpOpens(OnText(e, s, now), now);
      }
    }
  }

  lemma PumpOpens(c: Conn, now: int)
    ensures var d := Pump(c, now);
            && d.socket == c.socket && d.sndUna == c.sndUna && d.rcvNxt == c.rcvNxt
            && (!c.state.SynSent? && !c.state.SynRcvd? ==> !d.state.SynSent? && !d.state.SynRcvd?)
            && (c.outbox == [] && !c.wantsFin ==> d == c)
  {
    hide SeqAdd, PumpData;
    PumpSame(c, now);
    PumpDataAlike(c, now);
    PumpDataSameEnds(c, now);
  }

  lemma {:induction false} PumpDataSameEnds(c: Conn, now: int)
    ensures PumpData(c, now).sndUna == c.sndUna && PumpData(c, now).rcvNxt == c.rcvNxt && (c.outbox == [] ==> PumpData(c, now) == c)
    decreases |Flat(c.outbox)|
  {
    if !(c.outbox == [] || Room(c) <= 0 || Flat(c.outbox) == []) {
      var d := PumpOne(c, now);
      assert d.sndUna == c.sndUna && d.rcvNxt == c.rcvNxt by { hide SeqAdd, Take; }
      hide PumpOne, Room;
      PumpDataSameEnds(d, now);
    }
  }

  lemma TextOpens(c: Conn, s: Segment, now: int)
    requires c.state.Established? && c.socket.isOpen
    ensures var d := OnText(c, s, now);
            && d.socket.isOpen && !d.state.SynSent? && !d.state.SynRcvd? && d.sndUna == c.sndUna
            && d.outbox == c.outbox && d.wantsFin == c.wantsFin && (c.unacked == [] ==> d.unacked == [])
  {
    DataOpens(c, s);
    DataSendsNothing(c, s);
    hide OnData, SeqAdd;
  }

  lemma {:induction false} DrainSameOpen(c: Conn)
    ensures Drain(c).socket.isOpen == c.socket.isOpen
    decreases |c.ooo|
  {
    if c.rcvNxt in c.ooo {
      var held := c.ooo[c.rcvNxt];
      assert (c.ooo - {c.rcvNxt}).Keys == c.ooo.Keys - {c.rcvNxt};
      hide SeqAdd;
      DrainSameOpen(Deliver(c.(ooo := c.ooo - {c.rcvNxt}), held, SeqAdd(c.rcvNxt, |held|)));
    }
  }

  lemma DataOpens(c: Conn, s: Segment)
    ensures OnData(c, s).socket.isOpen == c.socket.isOpen
  {
    var end := SeqAdd(s.seqNo, |s.payload|);
    DataCases(c, s);
    DrainSameOpen(Deliver(c, s.payload, end));
    DrainSameOpen(Deliver(c, Drop(s.payload, SeqDiff(c.rcvNxt, s.seqNo)), end));
    hide OnData, Drain, SeqAdd, SeqDiff, Drop;
  }

  // ------------------------------------------------------------- how a connection ends

  /** The FIN is known to have arrived exactly when everything up to it is acknowledged. */
  lemma AckFinExactly(c: Conn, s: Segment, now: int)
    requires SenderInv(c) && !c.state.Closed? && c.finSeq.Some? && !SeqGt(s.ackNo, c.sndNxt)
    ensures var d := OnAck(c, s, now);
            && (d.finAcked <==> c.finAcked || d.sndUna == c.sndNxt)
            && (d.state.Closed? <==> d.finAcked && c.peerFin) && d.peerFin == c.peerFin && d.sndNxt == c.sndNxt
  {
    var e := AckMoved(c, s).(peerWindow := s.window);
    if SeqGt(s.ackNo, c.sndUna) { AckMoves(c, s, AckMoved(c, s)); }
    WindowKeeps(AckMoved(c, s), s.window);
    assert SenderInv(e) && e.finSeq == c.finSeq && e.sndNxt == c.sndNxt && e.finAcked == c.finAcked && e.peerFin == c.peerFin;
    FinNotedExactly(e);
    hide AckMoved, FinNoted, SenderInv, SeqGt;
  }

  lemma FinNotedExactly(c: Conn)
    requires SenderInv(c) && !c.state.Closed? && c.finSeq.Some?
    ensures FinNoted(c) == c.(finAcked := FinNoted(c).finAcked) && (FinNoted(c).finAcked <==> c.finAcked || c.sndUna == c.sndNxt)
  {
    AtShift(c.iss, 1 + |c.socket.written|, 1);
    assert c.sndNxt == SeqAdd(c.finSeq.value, 1) by { hide Tiled, TruthfulSent, TruthfulWire, InFlight; }
    hide SeqAdd, At, Tiled, TruthfulSent, TruthfulWire, SeqLt;
    if SeqGte(c.sndUna, SeqAdd(c.finSeq.value, 1)) {
      FinAckedOnlyAtEnd(c);
      assert c.sndUna == c.sndNxt;
    }
  }

  /**
   * An acknowledgement of everything sent, the FIN with it: from then on the FIN
   * is known to have arrived, and if the peer has ended its stream as well the
   * connection is over.
   */
  lemma LastAckEnds(c: Conn, s: Segment, now: int)
    requires SenderInv(c) && !c.state.Closed? && c.finSeq.Some? && s.flags.ack && !s.flags.rst && s.ackNo == c.sndNxt
    ensures var d := OnTcp(c, s, now); d.finAcked && (c.peerFin ==> d.state.Closed?)
  {
    AckFinExactly(c, s, now);
    var e := OnAck(c, s, now);
    AllAcked(c, s, now);
    TextEnds(e, s, now);
    hide OnAck, OnText, SenderInv, Pump, SeqGt;
    PumpEnds(OnText(e, s, now), now);
  }

  lemma AllAcked(c: Conn, s: Segment, now: int)
    requires SenderInv(c) && !c.state.Closed? && c.finSeq.Some? && s.ackNo == c.sndNxt
    ensures !SeqGt(s.ackNo, c.sndNxt) && OnAck(c, s, now).sndUna == c.sndNxt && !c.state.SynSent? && !c.state.SynRcvd?
  {
    assert InFlight(c) <= 65536 && !c.state.SynSent? && !c.state.SynRcvd? by { hide Tiled, TruthfulSent, TruthfulWire, SeqDiff, At; }
    OtherWayRound(c.sndNxt, c.sndUna);
    OtherWayRound(c.sndNxt, c.sndNxt);
    hide Unacknowledged, SeqGte, SeqAdd, SenderInv, SeqDiff;
  }

  lemma OtherWayRound(a: u32, b: u32)
    ensures SeqDiff(a, b) < HALF ==> (SeqGt(a, b) <==> a != b)
    ensures !SeqGt(a, a)
  {
  }

  lemma TextEnds(c: Conn, s: Segment, now: int)
    requires c.finAcked && (c.peerFin ==> c.state.Closed?)
    ensures var d := OnText(c, s, now); d.finAcked && (c.peerFin ==> d.state.Closed?)
  {
    DataSameEnds(c, s);
    hide OnData, SeqAdd;
  }

  lemma PumpEnds(c: Conn, now: int)
    requires c.finAcked
    ensures Pump(c, now).finAcked && (c.state.Closed? ==> Pump(c, now).state.Closed?)
  {
    hide PumpData, SeqAdd;
    PumpDataAlike(c, now);
  }

  /** Both ends have ended their streams: the connection is over at once. */
  lemma BothEnded(c: Conn, now: int)
    requires c.peerFin && c.finAcked
    ensures MaybeClose(c, now).state.Closed?
  {
  }

  /** Only this end has: it waits ten seconds for the other, and no longer. */
  lemma LingersTenSeconds(c: Conn, now: int, later: int)
    requires !c.state.Closed? && !c.state.SynSent? && !c.state.SynRcvd?
    requires c.finAcked && !c.peerFin && c.lingerUntil.None? && c.unacked == []
    ensures var d := MaybeClose(c, now);
            d.state == c.state && d.socket == c.socket && (Tick(d, later).state.Closed? <==> later > now + 10000)
  {
  }

  /** A handshake that is not over by its deadline is given up: the caller's for an opener, thirty seconds for an acceptor. */
  lemma HandshakeTimesOut(s: Segment, iss: u32, now: int, timeoutMs: nat, later: int)
    ensures later > now + timeoutMs ==> Tick(Connect(iss, now, timeoutMs), later).state.Closed?
    ensures later > now + 30000 ==> Tick(Accept(s, iss, now), later).state.Closed?
    ensures later <= now + timeoutMs ==> Tick(Connect(iss, now, timeoutMs), later).state.SynSent?
    ensures later <= now + 30000 ==> Tick(Accept(s, iss, now), later).state.SynRcvd?
  {
    hide SeqAdd;
    TickOpening(Connect(iss, now, timeoutMs), later);
    TickOpening(Accept(s, iss, now), later);
    hide FirstDue, Tick;
  }

  lemma TickOpening(c: Conn, later: int)
    requires (c.state.SynSent? || c.state.SynRcvd?) && c.lingerUntil.None? && forall s :: s in c.unacked ==> s.tries == 0
    ensures if later > c.deadline then Tick(c, later).state.Closed? else Tick(c, later).state == c.state
  {
    hide FirstDue;
  }

  /** A reset ends any connection, and what is closed answers everything but a reset with one, and changes no more. */
  lemma ResetCloses(c: Conn, s: Segment, now: int)
    ensures s.flags.rst ==> OnTcp(c, s, now).state.Closed? && OnTcp(c, s, now).wire == c.wire
    ensures c.state.Closed? && !s.flags.rst ==>
              var d := OnTcp(c, s, now);
              |d.wire| == |c.wire| + 1 && d == c.(wire := d.wire) && c.wire <= d.wire && d.wire[|c.wire|].flags.rst
  {
    hide SeqAdd;
  }

  /** The reset for what nobody claims, as section 3.10.7.1 of RFC 9293 has it: in the sender's own numbers. */
  lemma ResetInTheirNumbers(s: Segment)
    ensures var r := ResetReply(s);
            && r.flags.rst && !r.flags.syn && !r.flags.fin && r.payload == [] && r.window == 0
            && (s.flags.ack ==> !r.flags.ack && r.seqNo == s.ackNo)
            && (!s.flags.ack ==> r.flags.ack && r.seqNo == 0 && r.ackNo == At(s.seqNo, |s.payload| + if s.flags.syn then 1 else 0))
  {
  }

  /** Nobody listening: the refusal acknowledges the SYN, and ends the attempt. */
  lemma RefusalEndsAttempt(iss: u32, now: int, timeoutMs: nat, later: int)
    ensures var c := Connect(iss, now, timeoutMs);
            && |c.wire| == 1 && c.wire[0].flags.syn && c.wire[0].seqNo == iss
            && var r := ResetReply(c.wire[0]);
               r.flags.rst && r.flags.ack && r.ackNo == SeqAdd(iss, 1) && r.payload == [] && OnTcp(c, r, later).state.Closed?
  {
    hide SeqAdd;
  }

  /** Giving up tells the peer and the caller. */
  lemma DestroyResets(c: Conn)
    requires !c.state.Closed?
    ensures var d := Destroy(c);
            && d.state.Closed? && d.socket.isClosed && d.unacked == []
            && |d.wire| == |c.wire| + 1 && c.wire <= d.wire && d.wire[|c.wire|].flags.rst && d.wire[|c.wire|].seqNo == c.sndNxt
  {
  }
}
