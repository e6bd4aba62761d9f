/**
 * Where stream safety ends: a stream that goes round the whole sequence space.
 * A run of two of these connections is built, byte by byte, in which the network
 * brings one old segment back a full circle later and its bytes are delivered.
 */
module TcpWrap {
  import opened Common
  import opened SeqNum
  import opened Tcp
  import opened TcpReceiver
  import opened TcpLink

  const OPENED: Socket := Socket(true, false, [], [], 0)

  /** Either end may be the one that writes: the opener or the acceptor. */
  function WriterOf(l: Link, opener: bool): Conn
    requires l.b.Some?
  {
    if opener then l.a else l.b.value
  }

  function ReaderOf(l: Link, opener: bool): Conn
    requires l.b.Some?
  {
    if opener then l.b.value else l.a
  }

  function DeadlineOf(opener: bool): int { if opener then 0 else ACCEPT_TIMEOUT }

  /** The writer with `n` bytes of `w` written, sent and acknowledged. */
  function Writer(w: Bytes, n: nat, opener: bool, wire: seq<Segment>): Conn
    requires n <= |w|
  {
    Conn(Established, 0, At(0, 1 + n), At(0, 1 + n), 1, RECEIVE_WINDOW, [], [], map[], None, false, false, false, None,
         RTO_INITIAL, DeadlineOf(opener), OPENED.(written := w[..n]), wire)
  }

  /** The reader with `n` bytes of `w` delivered. */
  function Reader(w: Bytes, n: nat, opener: bool, wire: seq<Segment>): Conn
    requires n <= |w|
  {
    Conn(Established, 0, 1, 1, At(0, 1 + n), RECEIVE_WINDOW, [], [], map[], None, false, false, false, None,
         RTO_INITIAL, DeadlineOf(!opener), OPENED.(delivered := w[..n]), wire)
  }

  /** The segment that carries byte `i` alone. */
  function OneByte(w: Bytes, i: nat): Segment
    requires i < |w|
  {
    Segment(PSH_ACK, At(0, 1 + i), 1, RECEIVE_WINDOW, [w[i]], None)
  }

  ghost predicate AllSent(w: Bytes, n: nat, wire: seq<Segment>)
    requires n <= |w|
  {
    forall i :: 0 <= i < n ==> OneByte(w, i) in wire
  }

  ghost predicate Settled(l: Link, w: Bytes, n: nat, opener: bool) {
    && n <= |w| && l.b.Some?
    && WriterOf(l, opener) == Writer(w, n, opener, WriterOf(l, opener).wire)
    && ReaderOf(l, opener) == Reader(w, n, opener, ReaderOf(l, opener).wire)
    && AllSent(w, n, WriterOf(l, opener).wire)
  }

  lemma ReachesNext(l: Link, events: seq<Event>, e: Event)
    requires Reaches(l, events) && Possible(l, e)
    ensures Reaches(Next(l, e), events + [e])
  {
    hide Possible, Next;
    assert (events + [e])[..|events|] == events;
  }

  /** A segment on the wire arrives at the reader. */
  lemma ToReader(l: Link, events: seq<Event>, s: Segment, opener: bool) returns (m: Link, more: seq<Event>)
    requires Reaches(l, events) && l.b.Some? && s in WriterOf(l, opener).wire
    ensures Reaches(m, more) && m.b.Some?
    ensures WriterOf(m, opener) == WriterOf(l, opener) && ReaderOf(m, opener) == OnTcp(ReaderOf(l, opener), s, 0)
  {
    hide OnTcp, Reaches;
    var e := if opener then AtB(Arrived(s), 0) else AtA(Arrived(s), 0);
    ReachesNext(l, events, e);
    m, more := Next(l, e), events + [e];
  }

  /** The writer is written to or closed, or a segment arrives there. */
  lemma ToWriter(l: Link, events: seq<Event>, input: Input, opener: bool) returns (m: Link, more: seq<Event>)
    requires Reaches(l, events) && l.b.Some? && (input.Arrived? ==> input.s in ReaderOf(l, opener).wire)
    ensures Reaches(m, more) && m.b.Some?
    ensures WriterOf(m, opener) == Step(WriterOf(l, opener), input, 0) && ReaderOf(m, opener) == ReaderOf(l, opener)
  {
    hide Step, Reaches;
    var e := if opener then AtA(input, 0) else AtB(input, 0);
    ReachesNext(l, events, e);
    m, more := Next(l, e), events + [e];
  }

  // ------------------------------------------------------------- one end at a time

  lemma Neighbours(k: int)
    ensures SeqAdd(At(0, k), 1) == At(0, k + 1) && SeqDiff(At(0, k), At(0, k)) == 0
    ensures At(0, k) != At(0, k + 1) && SeqGt(At(0, k + 1), At(0, k)) && !SeqGt(At(0, k), At(0, k + 1)) && !SeqGt(At(0, k), At(0, k))
  {
    SeqOrder(0, k + 1, k);
    SeqOrder(0, k, k);
    SeqOrder(0, k, k + 1);
  }

  lemma WriteByte(w: Bytes, n: nat, opener: bool, wire: seq<Segment>)
    requires n < |w|
    ensures Write(Writer(w, n, opener, wire), [w[n]], 0) ==
              Writer(w, n, opener, wire + [OneByte(w, n)]).(
                sndNxt := At(0, 2 + n), unacked := [Sent(At(0, 1 + n), 1, PSH_ACK, [w[n]], None, 0, 0)],
                socket := OPENED.(written := w[..n + 1]))
  {
    Neighbours(1 + n);
    hide At, SeqAdd, SeqDiff;
    var c := Writer(w, n, opener, wire);
    var d := c.(outbox := [[w[n]]], socket := c.socket.(written := w[..n + 1]));
    assert w[..n] + [w[n]] == w[..n + 1];
    assert Flat(d.outbox) == [w[n]] && Take(d.outbox, 1) == ([w[n]], []);
    assert Room(d) == MSS;
    hide Take, Flat, Room;
    assert PumpOne(d, 0) == Emit(d.(outbox := []), 0, PSH_ACK, [w[n]], None);
    assert PumpData(d, 0) == PumpOne(d, 0);
  }

  lemma ReadByte(w: Bytes, n: nat, opener: bool, wire: seq<Segment>)
    requires n < |w|
    ensures OnTcp(Reader(w, n, opener, wire), OneByte(w, n), 0) ==
              Reader(w, n + 1, opener, wire + [Segment(ACK, 1, At(0, 2 + n), RECEIVE_WINDOW, [], None)])
  {
    Neighbours(1 + n);
    Neighbours(1);
    assert At(0, 1) == 1;
    hide At, SeqAdd, SeqDiff, SeqLt;
    assert w[..n] + [w[n]] == w[..n + 1];
    var c, s := Reader(w, n, opener, wire), OneByte(w, n);
    assert OnAck(c, s, 0) == c;
    hide OnAck;
    assert OnData(c, s) == SendAck(Deliver(c, s.payload, At(0, 2 + n)));
    hide OnData;
  }

  lemma AcceptAck(w: Bytes, n: nat, opener: bool, wire: seq<Segment>)
    requires n < |w|
    ensures var c := Writer(w, n, opener, wire).(
              sndNxt := At(0, 2 + n), unacked := [Sent(At(0, 1 + n), 1, PSH_ACK, [w[n]], None, 0, 0)],
              socket := OPENED.(written := w[..n + 1]));
            OnTcp(c, Segment(ACK, 1, At(0, 2 + n), RECEIVE_WINDOW, [], None), 0) == Writer(w, n + 1, opener, wire)
  {
    Neighbours(1 + n);
    Neighbours(2 + n);
    hide At, SeqAdd, SeqDiff, SeqLt;
    var u := [Sent(At(0, 1 + n), 1, PSH_ACK, [w[n]], None, 0, 0)];
    assert u[1..] == [];
    assert Unacknowledged(u, At(0, 2 + n)) == [];
  }

  // ------------------------------------------------------------- the run

  const FIRST: Link := Link(Connect(0, 0, 0), None, [])
  const FIRST_SYN: Segment := Segment(SYN, 0, 0, RECEIVE_WINDOW, [], Some(MSS))
  const FIRST_SYN_ACK: Segment := Segment(SYN_ACK, 0, 1, RECEIVE_WINDOW, [], Some(MSS))
  const FIRST_ACK: Segment := Segment(ACK, 1, 1, RECEIVE_WINDOW, [], None)

  lemma Attempted()
    ensures Reaches(FIRST, []) && FIRST_SYN in FIRST.a.wire
  {
  }

  /** The three segments of the handshake, at both ends. */
  lemma Handshake(w: Bytes, opener: bool)
    ensures var b, a := Accept(FIRST_SYN, 0, 0), OnTcp(FIRST.a, FIRST_SYN_ACK, 0);
            && FIRST_SYN_ACK in b.wire && FIRST_ACK in a.wire
            && var c := OnTcp(b, FIRST_ACK, 0);
            if opener then a == Writer(w, 0, true, a.wire) && c == Reader(w, 0, true, c.wire)
            else a == Reader(w, 0, false, a.wire) && c == Writer(w, 0, false, c.wire)
  {
    Neighbours(0);
    assert At(0, 0) == 0 && At(0, 1) == 1;
    hide At, SeqAdd, SeqDiff, SeqLt;
  }

  lemma Opened(w: Bytes, opener: bool) returns (l: Link, events: seq<Event>)
    ensures Reaches(l, events) && Settled(l, w, 0, opener)
  {
    Attempted();
    Handshake(w, opener);
    hide OnTcp, Accept, Reaches, FIRST;
    var e := Listen(FIRST_SYN, 0, 0);
    ReachesNext(FIRST, [], e);
    assert FIRST.b.None?;
    l, events := ToWriter(Next(FIRST, e), [] + [e], Arrived(FIRST_SYN_ACK), true);
    l, events := ToReader(l, events, FIRST_ACK, true);
  }

  /** Each byte is written, carried across and acknowledged before the next. */
  lemma {:induction false} Carried(w: Bytes, n: nat, opener: bool) returns (l: Link, events: seq<Event>)
    requires n <= |w|
    ensures Reaches(l, events) && Settled(l, w, n, opener)
  {
    hide *;
    if n == 0 {
      l, events := Opened(w, opener);
    } else {
      var l0, es := Carried(w, n - 1, opener);
      l, events := CarryByte(w, n - 1, opener, l0, es);
    }
  }

  lemma CarryByte(w: Bytes, n: nat, opener: bool, l0: Link, es: seq<Event>) returns (l: Link, events: seq<Event>)
    requires n < |w| && Reaches(l0, es) && Settled(l0, w, n, opener)
    ensures Reaches(l, events) && Settled(l, w, n + 1, opener)
  {
    var a, b := WriterOf(l0, opener).wire, ReaderOf(l0, opener).wire;
    var s, ack := OneByte(w, n), Segment(ACK, 1, At(0, 2 + n), RECEIVE_WINDOW, [], None);
    WriteByte(w, n, opener, a);
    ReadByte(w, n, opener, b);
    AcceptAck(w, n, opener, a + [s]);
    hide At, Write, OnTcp, Reaches, WriterOf, ReaderOf, DeadlineOf;
    l, events := ToWriter(l0, es, Wrote([w[n]]), opener);
    l, events := ToReader(l, events, s, opener);
    l, events := ToWriter(l, events, Arrived(ack), opener);
    assert WriterOf(l, opener) == Writer(w, n + 1, opener, a + [s]);
  }

  /** A reader that has sent nothing, holds nothing, and expects position `k`. */
  ghost predicate Expects(c: Conn, k: int) {
    && c.rcvNxt == At(0, k) && c.sndUna == c.sndNxt == 1 && c.ooo == map[]
    && (c.state.Established? || c.state.CloseWait?)
    && c.finSeq.None? && !c.finAcked && c.outbox == [] && !c.wantsFin
  }

  /** A full circle back the number is the same. */
  lemma RoundAgain(c: Conn, k: int)
    requires Expects(c, k + MOD)
    ensures Expects(c, k)
  {
    AtCircle(0, k);
    hide At;
  }

  /** An old segment whose number is the one expected is delivered again. */
  lemma Misread(w: Bytes, i: nat, c: Conn)
    requires i < |w| && Expects(c, 1 + i)
    ensures OnTcp(c, OneByte(w, i), 0).socket.delivered == c.socket.delivered + [w[i]]
  {
    Neighbours(1 + i);
    Neighbours(1);
    assert At(0, 1) == 1;
    hide At, SeqAdd, SeqDiff, SeqLt;
    var s := OneByte(w, i);
    var d := c.(peerWindow := RECEIVE_WINDOW);
    assert OnAck(c, s, 0) == d;
    hide OnAck;
    assert OnData(d, s) == SendAck(Deliver(d, s.payload, At(0, 2 + i)));
    hide OnData;
  }

  lemma NotPrefix(from: Conn, to: Conn, x: byte)
    requires to.socket.delivered == from.socket.written + [x]
    ensures !Faithful(from, to)
  {
  }

  lemma AFullCircle(n: nat, i: int)
    requires n >= MOD && i == n - MOD
    ensures 0 <= i < n - 1 && 1 + i + MOD == 1 + n
  {
  }

  /** What is known of both ends when all of `w` has been carried. */
  lemma WhenCarried(l: Link, w: Bytes, i: nat, opener: bool)
    requires Settled(l, w, |w|, opener) && i < |w|
    ensures var a, b := WriterOf(l, opener), ReaderOf(l, opener);
            && l.b.Some? && a.socket.written == w == b.socket.delivered && a.finSeq.None? && OneByte(w, i) in a.wire
            && Expects(b, 1 + |w|) && a == Writer(w, |w|, opener, a.wire) && b == Reader(w, |w|, opener, b.wire)
  {
    hide OneByte, At;
    assert w[..|w|] == w;
  }

  /** With the stream left open. */
  lemma OpenMisread(w: Bytes, opener: bool) returns (l: Link, events: seq<Event>)
    requires |w| >= MOD
    ensures Reaches(l, events) && l.b.Some? && WriterOf(l, opener).socket.written == w && WriterOf(l, opener).finSeq.None?
    ensures !Faithful(WriterOf(l, opener), ReaderOf(l, opener))
  {
    hide *;
    var i := |w| - MOD;
    AFullCircle(|w|, i);
    l, events := Carried(w, |w|, opener);
    WhenCarried(l, w, i, opener);
    RoundAgain(ReaderOf(l, opener), 1 + i);
    Misread(w, i, ReaderOf(l, opener));
    l, events := ToReader(l, events, OneByte(w, i), opener);
    NotPrefix(WriterOf(l, opener), ReaderOf(l, opener), w[i]);
  }

  function FinOf(w: Bytes): Segment { Segment(FIN_ACK, At(0, 1 + |w|), 1, RECEIVE_WINDOW, [], None) }

  lemma EndRead(w: Bytes, opener: bool, c: Conn)
    requires c == Reader(w, |w|, opener, c.wire)
    ensures var d := OnTcp(c, FinOf(w), 0); Expects(d, 2 + |w|) && d.socket.delivered == w
  {
    assert w[..|w|] == w;
    Neighbours(1 + |w|);
    Neighbours(1);
    assert At(0, 1) == 1;
    hide At, SeqAdd, SeqDiff, SeqLt;
  }

  lemma Closed(w: Bytes, opener: bool, a: Conn)
    requires a == Writer(w, |w|, opener, a.wire)
    ensures var c := Step(a, Finished, 0); c.socket.written == w && c.finSeq.Some? && c.wire == a.wire + [FinOf(w)]
  {
    assert w[..|w|] == w;
    hide At, SeqAdd, SeqDiff;
  }

  /** With the stream ended it is one byte less. */
  lemma EndedMisread(w: Bytes, opener: bool) returns (l: Link, events: seq<Event>)
    requires |w| + 1 >= MOD
    ensures Reaches(l, events) && l.b.Some? && WriterOf(l, opener).socket.written == w && WriterOf(l, opener).finSeq.Some?
    ensures !Faithful(WriterOf(l, opener), ReaderOf(l, opener))
  {
    hide *;
    var i := |w| + 1 - MOD;
    AFullCircle(|w| + 1, i);
    l, events := Carried(w, |w|, opener);
    WhenCarried(l, w, i, opener);
    var a, b := WriterOf(l, opener), ReaderOf(l, opener);
    Closed(w, opener, a);
    EndRead(w, opener, b);
    l, events := ToWriter(l, events, Finished, opener);
    l, events := ToReader(l, events, FinOf(w), opener);
    RoundAgain(ReaderOf(l, opener), 1 + i);
    Misread(w, i, ReaderOf(l, opener));
    assert OneByte(w, i) in WriterOf(l, opener).wire;
    l, events := ToReader(l, events, OneByte(w, i), opener);
    NotPrefix(WriterOf(l, opener), ReaderOf(l, opener), w[i]);
  }

  /**
   * Exactly which streams are safe from every network, whichever end writes them:
   * those that, end included, do not go round the circle.
   */
  lemma SafeExactly(w: Bytes, over: bool, opener: bool)
    ensures Short(w, over) <==>
              forall l: Link, events: seq<Event> ::
                Reaches(l, events) && l.b.Some? &&
                WriterOf(l, opener).socket.written == w && WriterOf(l, opener).finSeq.Some? == over ==>
                  Faithful(WriterOf(l, opener), ReaderOf(l, opener))
  {
    if Short(w, over) {
      forall l: Link, events: seq<Event> |
        Reaches(l, events) && l.b.Some? && WriterOf(l, opener).socket.written == w && WriterOf(l, opener).finSeq.Some? == over
        ensures Faithful(WriterOf(l, opener), ReaderOf(l, opener))
      {
        StreamSafety(l, events);
      }
    } else if over {
      var l, events := EndedMisread(w, opener);
    } else {
      var l, events := OpenMisread(w, opener);
    }
  }
}
