/**
 * What the sending half keeps whatever arrives, truthful or not: the stream
 * written is exactly what was sent followed by what is queued, the segments
 * awaiting acknowledgement tile the unacknowledged stretch, the flight is
 * bounded, and every segment ever put on the wire tells the truth about the
 * stream.
 */
module TcpSender {
  import opened Common
  import opened SeqNum
  import opened Tcp

  // ------------------------------------------------------------- the invariant

  /** `payload` is the stretch of `w` that starts at byte `p`, and `seqNo` numbers its first byte. */
  ghost predicate Slice(iss: u32, w: Bytes, seqNo: u32, payload: Bytes, p: nat) {
    seqNo == At(iss, 1 + p) && p + |payload| <= |w| && payload == w[p..p + |payload|]
  }

  ghost predicate SomeSlice(iss: u32, w: Bytes, seqNo: u32, payload: Bytes) {
    exists p: nat :: Slice(iss, w, seqNo, payload, p)
  }

  /**
   * What a truthful sender of the stream `w` may say. Data is a stretch of `w`
   * at its place; a FIN sits just after the last byte of a stream that is over.
   * A FIN may carry data, which this stack never does but a peer may. A packet's
   * length has 16 bits.
   */
  ghost predicate Truthful(iss: u32, w: Bytes, over: bool, flags: Flags, seqNo: u32, payload: Bytes) {
    && |payload| < 0x1_0000
    && (flags.syn ==> seqNo == iss && payload == [] && !flags.fin)
    && (!flags.syn && payload != [] ==> SomeSlice(iss, w, seqNo, payload))
    && (flags.fin ==> over && |payload| <= |w| && Slice(iss, w, seqNo, payload, |w| - |payload|))
  }

  /** Bytes of the stream that have been put on the wire. */
  function SentBytes(c: Conn): int { |c.socket.written| - |Flat(c.outbox)| }

  /** `sndNxt` as a position that does not wrap: the SYN is position 0, the stream starts at 1. */
  function Nxt(c: Conn): int { 1 + SentBytes(c) + if c.finSeq.Some? then 1 else 0 }

  /** `sndUna` as a position that does not wrap. */
  function Una(c: Conn): int { Nxt(c) - InFlight(c) }

  function Length(u: seq<Sent>): nat {
    if u == [] then 0 else u[0].length + Length(u[1..])
  }

  /** Consecutive non-empty segments covering positions [a, b). */
  ghost predicate Tiles(u: seq<Sent>, iss: u32, a: int, b: int) {
    if u == [] then a == b
    else u[0].seqNo == At(iss, a) && 0 < u[0].length <= MSS && Tiles(u[1..], iss, a + u[0].length, b)
  }

  ghost predicate Queued(c: Conn) {
    && NoneEmpty(c.outbox)
    && SentBytes(c) >= 0
    && Flat(c.outbox) == c.socket.written[SentBytes(c)..]
  }

  ghost predicate Numbered(c: Conn) {
    && c.sndNxt == At(c.iss, Nxt(c))
    && InFlight(c) <= Nxt(c)
    && InFlight(c) <= 65535 + (if c.finSeq.Some? then 1 else 0)
    && (c.state.SynSent? || c.state.SynRcvd? ==> SentBytes(c) == 0 && c.finSeq.None?)
  }

  ghost predicate Ended(c: Conn) {
    && (c.finSeq.Some? ==>
          c.outbox == [] && c.wantsFin && c.finSeq.value == At(c.iss, 1 + |c.socket.written|) &&
          (c.state.FinWait? || c.state.Closing? || c.state.Closed?))
    && (c.state.FinWait? || c.state.Closing? ==> c.finSeq.Some?)
    && (c.finAcked ==> c.finSeq.Some? && InFlight(c) == 0)
  }

  /** The segments awaiting acknowledgement tile a stretch that ends at `sndNxt` and whose first segment is not yet wholly acknowledged. */
  ghost predicate Tiled(c: Conn) {
    && Tiles(c.unacked, c.iss, Nxt(c) - Length(c.unacked), Nxt(c))
    && Nxt(c) - Length(c.unacked) <= Una(c)
    && (c.unacked == [] <==> InFlight(c) == 0)
    && (c.unacked != [] ==> Una(c) < Nxt(c) - Length(c.unacked) + c.unacked[0].length)
  }

  ghost predicate TruthfulSent(c: Conn) {
    forall s :: s in c.unacked ==>
      Truthful(c.iss, c.socket.written, c.finSeq.Some?, s.flags, s.seqNo, s.payload)
  }

  ghost predicate TruthfulWire(c: Conn) {
    forall s :: s in c.wire ==>
      Truthful(c.iss, c.socket.written, c.finSeq.Some?, s.flags, s.seqNo, s.payload)
  }

  ghost predicate SenderInv(c: Conn) {
    && Queued(c)
    && Numbered(c)
    && Ended(c)
    && (!c.state.Closed? || c.finAcked ==> Tiled(c))
    && TruthfulSent(c)
    && TruthfulWire(c)
  }

  // ------------------------------------------------------------- tiles

  lemma {:induction false} LengthAppend(u: seq<Sent>, s: Sent)
    ensures Length(u + [s]) == Length(u) + s.length
  {
    if u == [] {
      assert [s][1..] == [];
    } else {
      assert (u + [s])[1..] == u[1..] + [s];
      LengthAppend(u[1..], s);
    }
  }

  lemma {:induction false} TilesAppend(u: seq<Sent>, iss: u32, a: int, b: int, s: Sent)
    requires Tiles(u, iss, a, b) && s.seqNo == At(iss, b) && 0 < s.length <= MSS
    ensures Tiles(u + [s], iss, a, b + s.length)
  {
    if u == [] {
      assert (u + [s])[1..] == [];
    } else {
      assert (u + [s])[1..] == u[1..] + [s];
      TilesAppend(u[1..], iss, a + u[0].length, b, s);
    }
  }

  lemma {:induction false} TilesSpan(u: seq<Sent>, iss: u32, a: int, b: int)
    requires Tiles(u, iss, a, b)
    ensures b == a + Length(u)
  {
    if u != [] { TilesSpan(u[1..], iss, a + u[0].length, b); }
  }

  /** An acknowledgement at or before the first segment's start removes nothing. */
  lemma {:induction false} NothingAcknowledged(u: seq<Sent>, iss: u32, a: int, b: int, k: int)
    requires Tiles(u, iss, a, b) && k <= a && b - k < HALF
    ensures Unacknowledged(u, At(iss, k)) == u
  {
    hide At, SeqAdd, SeqGt, SeqLt;
    if u != [] {
      TilesSpan(u, iss, a, b);
      AtShift(iss, a, u[0].length);
      SeqOrder(iss, a + u[0].length, k);
      NothingAcknowledged(u[1..], iss, a + u[0].length, b, k);
      assert u == [u[0]] + u[1..];
    }
  }

  /** An acknowledgement inside the tiling leaves the tiling of what is beyond it. */
  lemma {:induction false} AcknowledgedPrefix(u: seq<Sent>, iss: u32, a: int, b: int, k: int)
    requires Tiles(u, iss, a, b) && a <= k <= b && b - a < HALF
    ensures var r := Unacknowledged(u, At(iss, k));
            && Tiles(r, iss, b - Length(r), b)
            && b - Length(r) <= k
            && (r == [] <==> k == b)
            && (r != [] ==> k < b - Length(r) + r[0].length)
  {
    hide At, SeqAdd, SeqGt, SeqLt;
    TilesSpan(u, iss, a, b);
    if u != [] {
      var mid := a + u[0].length;
      TilesSpan(u[1..], iss, mid, b);
      AtShift(iss, a, u[0].length);
      SeqOrder(iss, mid, k);
      if mid <= k {
        AcknowledgedPrefix(u[1..], iss, mid, b, k);
      } else {
        NothingAcknowledged(u[1..], iss, mid, b, k);
        assert Unacknowledged(u, At(iss, k)) == [u[0]] + u[1..] == u;
      }
    }
  }

  lemma {:induction false} AcknowledgedSome(u: seq<Sent>, ackNo: u32)
    ensures forall s :: s in Unacknowledged(u, ackNo) ==> s in u
  {
    if u != [] { AcknowledgedSome(u[1..], ackNo); }
  }

  // ------------------------------------------------------------- truth

  lemma TruthfulGrows(iss: u32, w: Bytes, more: Bytes, flags: Flags, seqNo: u32, payload: Bytes)
    requires Truthful(iss, w, false, flags, seqNo, payload)
    ensures Truthful(iss, w + more, false, flags, seqNo, payload)
  {
    if !flags.syn && payload != [] {
      var p: nat :| Slice(iss, w, seqNo, payload, p);
      assert (w + more)[p..p + |payload|] == w[p..p + |payload|];
      assert Slice(iss, w + more, seqNo, payload, p);
    }
  }

  // ------------------------------------------------------------- sending

  lemma FlightAfter(c: Conn, n: nat)
    requires InFlight(c) + n < MOD
    ensures SeqDiff(SeqAdd(c.sndNxt, n), c.sndUna) == InFlight(c) + n
  {
  }

  lemma UnaAt(c: Conn)
    requires c.sndNxt == At(c.iss, Nxt(c))
    ensures c.sndUna == At(c.iss, Una(c))
  {
  }

  /** A segment sent at `sndNxt` extends the tiling. */
  lemma EmitTiles(c: Conn, d: Conn, s: Sent)
    requires Tiled(c)
    requires s.seqNo == At(c.iss, Nxt(c)) && 0 < s.length <= MSS
    requires d.iss == c.iss && d.unacked == c.unacked + [s]
    requires Nxt(d) == Nxt(c) + s.length && InFlight(d) == InFlight(c) + s.length
    ensures Tiled(d)
  {
    hide At, InFlight, SentBytes, Flat;
    LengthAppend(c.unacked, s);
    TilesAppend(c.unacked, c.iss, Nxt(c) - Length(c.unacked), Nxt(c), s);
    if c.unacked != [] { assert d.unacked[0] == c.unacked[0]; }
  }

  /** The next `n` bytes sent from the queue. */
  lemma SendNext(c: Conn, d: Conn, n: nat, payload: Bytes, rest: seq<Bytes>, now: int)
    requires SenderInv(c) && (c.state.Established? || c.state.CloseWait?) && 0 < n <= MSS && InFlight(c) + n <= 65535
    requires var p := SentBytes(c);
             && 0 <= p && p + n <= |c.socket.written| && payload == c.socket.written[p..p + n] && |payload| == n
             && Flat(rest) == c.socket.written[p + n..] && NoneEmpty(rest)
    requires d == c.(outbox := rest, sndNxt := SeqAdd(c.sndNxt, n),
                     unacked := c.unacked + [Sent(c.sndNxt, n, PSH_ACK, payload, None, now, 0)],
                     wire := c.wire + [Segment(PSH_ACK, c.sndNxt, c.rcvNxt, RECEIVE_WINDOW, payload, None)])
    ensures SenderInv(d)
  {
    FlightAfter(c, n);
    hide At, SeqAdd, SeqDiff, Flat, Length, Tiles;
    AtShift(c.iss, Nxt(c), n);
    assert Queued(d) && Numbered(d) && Ended(d);
    assert Slice(c.iss, c.socket.written, c.sndNxt, payload, SentBytes(c));
    EmitTiles(c, d, Sent(c.sndNxt, n, PSH_ACK, payload, None, now, 0));
    hide Tiled, Slice, Queued, Numbered, Ended;
    assert Truthful(c.iss, c.socket.written, false, PSH_ACK, c.sndNxt, payload);
  }

  /** One data segment goes out. */
  lemma PumpOneKeeps(c: Conn, now: int)
    requires SenderInv(c) && Room(c) > 0 && Flat(c.outbox) != []
    requires c.state.Established? || c.state.CloseWait?
    ensures SenderInv(PumpOne(c, now))
  {
    hide At, SeqAdd, SeqDiff, Flat, Take, SenderInv;
    assert Queued(c) by { InvQueued(c); }
    var n := Min(Room(c), |Flat(c.outbox)|);
    var (payload, rest) := Take(c.outbox, n);
    SendNext(c, PumpOne(c, now), n, payload, rest, now);
  }

  lemma InvQueued(c: Conn)
    requires SenderInv(c)
    ensures Queued(c)
  {
  }

  lemma {:induction false} PumpDataKeeps(c: Conn, now: int)
    requires SenderInv(c) && (c.state.Established? || c.state.CloseWait?)
    ensures SenderInv(PumpData(c, now)) && PumpData(c, now).state == c.state
    decreases |Flat(c.outbox)|
  {
    if c.outbox != [] && Room(c) > 0 && Flat(c.outbox) != [] {
      PumpOneKeeps(c, now);
      PumpDataKeeps(PumpOne(c, now), now);
    }
  }

  lemma PumpFinKeeps(c: Conn, now: int)
    requires SenderInv(c) && (c.state.Established? || c.state.CloseWait?) && c.outbox == []
    ensures SenderInv(PumpFin(c, now))
  {
    hide At, SeqAdd, SeqDiff;
    if c.wantsFin && c.finSeq.None? {
      var d := PumpFin(c, now);
      var w := c.socket.written;
      FlightAfter(c, 1);
      AtShift(c.iss, Nxt(c), 1);
      assert Slice(c.iss, w, c.sndNxt, [], |w|);
      assert Queued(d) && Numbered(d) && Ended(d);
      EmitTiles(c, d, Sent(c.sndNxt, 1, FIN_ACK, [], None, now, 0));
    }
  }

  lemma PumpKeeps(c: Conn, now: int)
    requires SenderInv(c)
    ensures SenderInv(Pump(c, now))
  {
    if c.state.Established? || c.state.CloseWait? {
      PumpDataKeeps(c, now);
      var sent := PumpData(c, now);
      if sent.outbox == [] { PumpFinKeeps(sent, now); }
    }
  }

  // ------------------------------------------------------------- acknowledgement

  /**
   * Whatever number an acknowledgement carries, it moves `sndUna` forward and
   * never past `sndNxt`, and moves nothing else of the stream.
   */
  lemma AckStaysInFlight(c: Conn, s: Segment, now: int)
    requires SenderInv(c)
    ensures Una(c) <= Una(OnAck(c, s, now)) <= Nxt(c) == Nxt(OnAck(c, s, now))
  {
    if !SeqGt(s.ackNo, c.sndNxt) && SeqGt(s.ackNo, c.sndUna) {
      UnaAt(c);
      WithinFlight(c.iss, Una(c), Nxt(c), s.ackNo);
    }
    hide At, SeqGt, SeqGte, SeqDiff, Flat;
  }

  /** The part of an acknowledgement that moves `sndUna`. */
  lemma AckMoves(c: Conn, s: Segment, c1: Conn)
    requires SenderInv(c) && !c.state.Closed?
    requires !SeqGt(s.ackNo, c.sndNxt) && SeqGt(s.ackNo, c.sndUna)
    requires c1 == c.(sndUna := s.ackNo, unacked := Unacknowledged(c.unacked, s.ackNo), rto := RTO_INITIAL)
    ensures SenderInv(c1)
  {
    hide At, SeqDiff, SeqGt, SeqAdd, Truthful, Flat;
    var k := Nxt(c) - SeqDiff(c.sndNxt, s.ackNo);
    UnaAt(c);
    WithinFlight(c.iss, Una(c), Nxt(c), s.ackNo);
    assert Una(c1) == k;
    var a := Nxt(c) - Length(c.unacked);
    AcknowledgedPrefix(c.unacked, c.iss, a, Nxt(c), k);
    AcknowledgedSome(c.unacked, s.ackNo);
    hide Tiles, Length, Unacknowledged;
    assert Tiled(c1) && TruthfulSent(c1) && Numbered(c1);
  }

  lemma WindowKeeps(c: Conn, window: u16)
    requires SenderInv(c)
    ensures SenderInv(c.(peerWindow := window))
  {
    hide At, SeqDiff, Truthful, Flat, Length, Tiles;
  }

  lemma FinNotedKeeps(c: Conn)
    requires SenderInv(c) && !c.state.Closed?
    ensures SenderInv(FinNoted(c)) && FinNoted(c).state == c.state
  {
    hide At, SeqDiff, SeqAdd, SeqGte, Truthful, Flat, Length, Tiles;
    if FinNoted(c) != c { FinAckedOnlyAtEnd(c); }
  }

  lemma AckKeeps(c: Conn, s: Segment, now: int)
    requires SenderInv(c) && !c.state.Closed?
    ensures SenderInv(OnAck(c, s, now))
    ensures OnAck(c, s, now).state == c.state || OnAck(c, s, now).finAcked
  {
    if !SeqGt(s.ackNo, c.sndNxt) {
      if SeqGt(s.ackNo, c.sndUna) { AckMoves(c, s, AckMoved(c, s)); }
      hide SenderInv, SeqGt, AckMoved, MaybeClose, FinNoted;
      WindowKeeps(AckMoved(c, s), s.window);
      var d := AckMoved(c, s).(peerWindow := s.window);
      FinNotedKeeps(d);
      MaybeCloseKeeps(FinNoted(d), now);
    }
  }

  /** A FIN counts as acknowledged only when nothing at all is outstanding. */
  lemma FinAckedOnlyAtEnd(c: Conn)
    requires Numbered(c) && Ended(c) && Queued(c)
    requires c.finSeq.Some? && SeqGte(c.sndUna, SeqAdd(c.finSeq.value, 1))
    ensures InFlight(c) == 0
  {
    var w := c.socket.written;
    AtShift(c.iss, 1 + |w|, 1);
    UnaAt(c);
    SeqOrder(c.iss, Una(c), 2 + |w|);
  }

  lemma MaybeCloseKeeps(c: Conn, now: int)
    requires SenderInv(c)
    ensures SenderInv(MaybeClose(c, now))
    ensures MaybeClose(c, now).state == c.state || MaybeClose(c, now).finAcked
  {
    hide At, Length, Truthful, SeqDiff;
  }

  lemma TeardownKeeps(c: Conn)
    requires SenderInv(c)
    ensures SenderInv(Teardown(c))
  {
    hide At, Truthful, SeqDiff, Flat;
  }

  // ------------------------------------------------------------- everything that does not send data

  /** A segment with neither data nor a place in the stream. */
  predicate Bare(s: Segment) {
    !s.flags.syn && !s.flags.fin && s.payload == []
  }

  /** `d` differs from `c` only in the receiving half, and has put nothing but bare segments on the wire. */
  ghost predicate SendsNothing(c: Conn, d: Conn) {
    && (d.iss, d.sndUna, d.sndNxt) == (c.iss, c.sndUna, c.sndNxt)
    && d.outbox == c.outbox && d.unacked == c.unacked
    && (d.finSeq, d.finAcked, d.wantsFin) == (c.finSeq, c.finAcked, c.wantsFin)
    && d.socket.written == c.socket.written
    && forall s :: s in d.wire ==> s in c.wire || Bare(s)
  }

  lemma SendsNothingKeeps(c: Conn, d: Conn)
    requires SenderInv(c) && SendsNothing(c, d)
    requires d.state == c.state || (d.state.CloseWait? && d.finSeq.None?) || (d.state.Closing? && d.finSeq.Some?)
             || (d.state.Established? && d.finSeq.None?)
    requires c.state.Closed? ==> c.finAcked
    ensures SenderInv(d)
  {
    hide At, SeqDiff, Flat, Length, Tiles;
    forall s | s in d.wire
      ensures Truthful(d.iss, d.socket.written, d.finSeq.Some?, s.flags, s.seqNo, s.payload)
    {
      if s in c.wire {} else {}
    }
  }

  lemma {:induction false} DrainSendsNothing(c: Conn)
    ensures SendsNothing(c, Drain(c)) && Drain(c).state == c.state && Drain(c).wire == c.wire
    decreases |c.ooo|
  {
    if c.rcvNxt in c.ooo {
      var held := c.ooo[c.rcvNxt];
      assert (c.ooo - {c.rcvNxt}).Keys == c.ooo.Keys - {c.rcvNxt};
      DrainSendsNothing(Deliver(c.(ooo := c.ooo - {c.rcvNxt}), held, SeqAdd(c.rcvNxt, |held|)));
    }
  }

  lemma DeliverDrainSendsNothing(c: Conn, bytes: Bytes, next: u32)
    ensures SendsNothing(c, SendAck(Drain(Deliver(c, bytes, next)))) && SendAck(Drain(Deliver(c, bytes, next))).state == c.state
  {
    var d := Deliver(c, bytes, next);
    assert SendsNothing(c, d) && d.state == c.state;
    DrainSendsNothing(d);
    hide Drain, SendsNothing, SendAck, Deliver;
  }

  lemma DataSendsNothing(c: Conn, s: Segment)
    ensures SendsNothing(c, OnData(c, s)) && OnData(c, s).state == c.state
  {
    var end := SeqAdd(s.seqNo, |s.payload|);
    var held := c.(ooo := c.ooo[s.seqNo := s.payload]);
    assert SendsNothing(c, held);
    hide SeqLte, SeqGt, SeqDiff, SeqAdd, Drain, SendAck, Deliver, Drop, SendsNothing;
    DeliverDrainSendsNothing(c, s.payload, end);
    DeliverDrainSendsNothing(c, Drop(s.payload, SeqDiff(c.rcvNxt, s.seqNo)), end);
  }

  lemma FinKeeps(c: Conn, s: Segment, now: int)
    requires SenderInv(c) && (c.state.Closed? ==> c.finAcked)
    requires !c.state.SynSent? && !c.state.SynRcvd?
    ensures SenderInv(OnFin(c, s, now))
  {
    hide SeqAdd, SeqDiff, At, Length, Tiles, Flat, Truthful;
    if s.seqNo == c.rcvNxt {
      var d := FinTaken(c);
      SendsNothingKeeps(c, d);
      MaybeCloseKeeps(d, now);
    }
  }

  lemma TextKeeps(c: Conn, s: Segment, now: int)
    requires SenderInv(c) && (c.state.Closed? ==> c.finAcked)
    requires !c.state.SynSent? && !c.state.SynRcvd?
    ensures SenderInv(OnText(c, s, now))
  {
    var c1 := if s.payload != [] then OnData(c, s) else c;
    DataSendsNothing(c, s);
    SendsNothingKeeps(c, c1);
    if s.flags.fin { FinKeeps(c1, s, now); }
  }

  // ------------------------------------------------------------- opening

  lemma OneInFlight(iss: u32)
    ensures SeqDiff(SeqAdd(iss, 1), iss) == 1 && SeqAdd(iss, 1) == At(iss, 1) && At(iss, 0) == iss
  {
  }

  /** A connection that has sent its SYN and nothing else. */
  ghost predicate JustOpened(c: Conn, flags: Flags, now: int) {
    && c.sndUna == c.iss && c.sndNxt == SeqAdd(c.iss, 1) && c.outbox == [] && c.socket.written == []
    && c.finSeq.None? && !c.finAcked && (c.state.SynSent? || c.state.SynRcvd?) && flags.syn && !flags.fin
    && c.unacked == [Sent(c.iss, 1, flags, [], Some(MSS), now, 0)]
    && (forall s :: s in c.wire ==> s.flags == flags && s.seqNo == c.iss && s.payload == [])
  }

  lemma OpenedBegins(c: Conn, flags: Flags, now: int)
    requires JustOpened(c, flags, now)
    ensures SenderInv(c)
  {
    OneInFlight(c.iss);
    hide At, SeqAdd, SeqDiff;
    assert c.unacked[1..] == [];
    assert InFlight(c) == 1 && SentBytes(c) == 0 && Nxt(c) == 1 && Length(c.unacked) == 1;
    assert Tiles(c.unacked[1..], c.iss, 1, 1);
    assert Tiles(c.unacked, c.iss, 0, 1);
    hide Tiled, Tiles, Length;
  }

  lemma ConnectBegins(iss: u32, now: int, timeoutMs: nat)
    ensures SenderInv(Connect(iss, now, timeoutMs))
  {
    hide SenderInv, SeqAdd;
    OpenedBegins(Connect(iss, now, timeoutMs), SYN, now);
  }

  lemma AcceptBegins(s: Segment, iss: u32, now: int)
    ensures SenderInv(Accept(s, iss, now))
  {
    hide SenderInv, SeqAdd;
    OpenedBegins(Accept(s, iss, now), SYN_ACK, now);
  }

  // ------------------------------------------------------------- time

  lemma {:induction false} TilesReplace(u: seq<Sent>, iss: u32, a: int, b: int, i: nat, s: Sent)
    requires Tiles(u, iss, a, b) && i < |u| && s.seqNo == u[i].seqNo && s.length == u[i].length
    ensures Tiles(u[i := s], iss, a, b) && Length(u[i := s]) == Length(u)
  {
    var v := u[i := s];
    if i == 0 {
      assert v[1..] == u[1..];
    } else {
      assert v[1..] == u[1..][i - 1 := s];
      TilesReplace(u[1..], iss, a + u[0].length, b, i - 1, s);
    }
  }

  lemma ResendKeeps(c: Conn, i: nat, now: int)
    requires SenderInv(c) && i < |c.unacked|
    ensures SenderInv(Resend(c, i, now))
  {
    hide At, SeqDiff, Flat, Truthful;
    var s := c.unacked[i];
    var t := s.(tries := s.tries + 1, sentAt := now);
    if !c.state.Closed? || c.finAcked {
      TilesReplace(c.unacked, c.iss, Nxt(c) - Length(c.unacked), Nxt(c), i, t);
    }
    var d := Resend(c, i, now);
    assert d.unacked == c.unacked[i := t];
    hide Length, Tiles;
    assert Queued(d) && Numbered(d) && Ended(d);
    assert TruthfulSent(d) && TruthfulWire(d);
  }

  lemma TickKeeps(c: Conn, now: int)
    requires SenderInv(c)
    ensures SenderInv(Tick(c, now))
  {
    hide SenderInv, Teardown, Resend;
    TeardownKeeps(c);
    var i := FirstDue(c.unacked, c.rto, now);
    if i < |c.unacked| { ResendKeeps(c, i, now); }
  }

  // ------------------------------------------------------------- every step, every run

  lemma SynAckKeeps(c: Conn, s: Segment, now: int)
    requires SenderInv(c) && c.state.SynSent?
    ensures SenderInv(OnSynAck(c, s, now))
  {
    if s.flags.syn && s.flags.ack && s.ackNo == c.sndNxt {
      var d := Establish(c.(rcvNxt := SeqAdd(s.seqNo, 1), peerWindow := s.window), s.ackNo);
      hide SeqAdd, SenderInv, Pump;
      assert d.finSeq.None?;
      hide SendsNothing, SendAck;
      SendsNothingKeeps(d, SendAck(d));
      PumpKeeps(SendAck(d), now);
    }
  }

  lemma HandshakeKeeps(c: Conn, s: Segment, now: int)
    requires SenderInv(c) && c.state.SynRcvd?
    ensures SenderInv(OnHandshakeAck(c, s, now))
  {
    if s.flags.ack && s.ackNo == c.sndNxt {
      var d := Establish(c, s.ackNo);
      hide SenderInv, Pump, OnText;
      TextKeeps(d, s, now);
      PumpKeeps(OnText(d, s, now), now);
    }
  }

  lemma OpenArrivalKeeps(c: Conn, s: Segment, now: int)
    requires SenderInv(c) && !c.state.Closed? && !c.state.SynSent? && !c.state.SynRcvd?
    ensures SenderInv(Pump(OnText(if s.flags.ack then OnAck(c, s, now) else c, s, now), now))
  {
    hide SenderInv, Pump, OnText, OnAck;
    var d := if s.flags.ack then OnAck(c, s, now) else c;
    AckKeeps(c, s, now);
    AckedState(c, s, now);
    TextKeeps(d, s, now);
    PumpKeeps(OnText(d, s, now), now);
  }

  lemma AckedState(c: Conn, s: Segment, now: int)
    ensures OnAck(c, s, now).state == c.state || OnAck(c, s, now).state.Closed?
  {
    hide SeqGt, SeqGte, SeqAdd, Unacknowledged;
  }

  lemma ReplyKeeps(c: Conn, reply: Segment)
    requires SenderInv(c) && c.state.Closed? && Truthful(c.iss, c.socket.written, c.finSeq.Some?, reply.flags, reply.seqNo, reply.payload)
    ensures SenderInv(c.(wire := c.wire + [reply]))
  {
    hide At, SeqDiff, Flat, Length, Tiles, Truthful;
  }

  lemma ArrivalKeeps(c: Conn, s: Segment, now: int)
    requires SenderInv(c)
    ensures SenderInv(OnTcp(c, s, now))
  {
    hide SenderInv, Pump, OnText, OnAck, Teardown, OnSynAck, OnHandshakeAck, SeqAdd, At;
    if c.state.Closed? {
      if !s.flags.rst { ReplyKeeps(c, ResetReply(s)); }
    } else if s.flags.rst {
      TeardownKeeps(c);
    } else if c.state.SynSent? {
      SynAckKeeps(c, s, now);
    } else if c.state.SynRcvd? {
      HandshakeKeeps(c, s, now);
    } else {
      OpenArrivalKeeps(c, s, now);
    }
  }

  lemma {:induction false} FlatAppend(bufs: seq<Bytes>, b: Bytes)
    ensures Flat(bufs + [b]) == Flat(bufs) + b
  {
    if bufs == [] {
      assert [b][1..] == [];
    } else {
      assert (bufs + [b])[1..] == bufs[1..] + [b];
      FlatAppend(bufs[1..], b);
    }
  }

  lemma QueueKeeps(c: Conn, d: Conn, bytes: Bytes)
    requires SenderInv(c) && c.finSeq.None?
    requires d == c.(outbox := if bytes == [] then c.outbox else c.outbox + [bytes],
                     socket := c.socket.(written := c.socket.written + bytes))
    ensures SenderInv(d)
  {
    FlatAppend(c.outbox, bytes);
    var w := c.socket.written;
    hide At, SeqDiff, Truthful, Length, Tiles, Flat;
    assert (w + bytes)[SentBytes(c)..] == w[SentBytes(c)..] + bytes;
    assert SentBytes(d) == SentBytes(c);
    assert Queued(d) && Numbered(d) && Ended(d) && (!c.state.Closed? || c.finAcked ==> Tiled(d));
    hide Queued, Numbered, Ended, Tiled;
    forall s | s in c.unacked
      ensures Truthful(d.iss, d.socket.written, false, s.flags, s.seqNo, s.payload)
    {
      TruthfulGrows(c.iss, w, bytes, s.flags, s.seqNo, s.payload);
    }
    forall s | s in c.wire
      ensures Truthful(d.iss, d.socket.written, false, s.flags, s.seqNo, s.payload)
    {
      TruthfulGrows(c.iss, w, bytes, s.flags, s.seqNo, s.payload);
    }
  }

  lemma WriteKeeps(c: Conn, bytes: Bytes, now: int)
    requires SenderInv(c)
    ensures SenderInv(Write(c, bytes, now))
  {
    hide SenderInv, Pump;
    if WriteRefused(c).None? {
      var d := c.(outbox := if bytes == [] then c.outbox else c.outbox + [bytes],
                  socket := c.socket.(written := c.socket.written + bytes));
      QueueKeeps(c, d, bytes);
      PumpKeeps(d, now);
    }
  }

  lemma WantFinKeeps(c: Conn)
    requires SenderInv(c)
    ensures SenderInv(c.(wantsFin := true))
  {
    hide At, SeqDiff, Flat, Length, Tiles, Truthful;
  }

  lemma ResetKeeps(c: Conn)
    requires SenderInv(c)
    ensures SenderInv(c.(wire := c.wire + [Segment(RST_ACK, c.sndNxt, c.rcvNxt, 0, [], None)]))
  {
    hide At, SeqDiff, Flat, Length, Tiles, SomeSlice, Slice;
  }

  /** No step of any kind, with any segment from any peer, breaks the sender. */
  lemma StepKeeps(c: Conn, input: Input, now: int)
    requires SenderInv(c)
    ensures SenderInv(Step(c, input, now))
  {
    hide SenderInv, OnTcp, Write, Tick, Pump, MaybeClose, Teardown;
    match input
    case Arrived(s) => ArrivalKeeps(c, s, now);
    case Wrote(bytes) => WriteKeeps(c, bytes, now);
    case Finished =>
      WantFinKeeps(c);
      var d := c.(wantsFin := true);
      PumpKeeps(d, now);
      MaybeCloseKeeps(Pump(d, now), now);
    case Ticked => TickKeeps(c, now);
    case Destroyed =>
      ResetKeeps(c);
      TeardownKeeps(c.(wire := c.wire + [Segment(RST_ACK, c.sndNxt, c.rcvNxt, 0, [], None)]));
  }

  /**
   * Over every history: what was written is what was sent followed by what is
   * queued, the unacknowledged segments tile what is outstanding, at most 65536
   * positions are in flight, and nothing on the wire misquotes the stream.
   */
  lemma {:induction false} RunKeeps(c: Conn, history: seq<(Input, int)>)
    requires SenderInv(c)
    ensures SenderInv(Run(c, history))
    ensures InFlight(Run(c, history)) <= 65536
    decreases |history|
  {
    if history != [] {
      var n := |history| - 1;
      RunKeeps(c, history[..n]);
      StepKeeps(Run(c, history[..n]), history[n].0, history[n].1);
    }
  }

  // ------------------------------------------------------------- the window, the end

  /** Data is sent only into the window: whenever pumping sends any, what is in flight fits the peer's window. */
  lemma {:induction false} WindowRespected(c: Conn, now: int)
    ensures var d := PumpData(c, now);
            d.peerWindow == c.peerWindow && (d == c || InFlight(d) <= c.peerWindow)
    decreases |Flat(c.outbox)|
  {
    if c.outbox != [] && Room(c) > 0 && Flat(c.outbox) != [] {
      var d := PumpOne(c, now);
      FlightAfter(c, Min(Room(c), |Flat(c.outbox)|));
      assert InFlight(d) <= c.peerWindow;
      hide PumpOne, InFlight;
      WindowRespected(d, now);
    }
  }

  /** The stream of `c` is over, and `d` has the same stream. */
  predicate StillOver(c: Conn, d: Conn) {
    && c.finSeq.Some? && d.finSeq == c.finSeq && d.sndNxt == c.sndNxt
    && d.socket.written == c.socket.written && d.outbox == c.outbox == []
    && (d.state.FinWait? || d.state.Closing? || d.state.Closed?)
  }

  lemma CloseAfterFin(c: Conn, d: Conn, now: int)
    requires StillOver(c, d)
    ensures StillOver(c, MaybeClose(d, now))
  {
  }

  lemma AckAfterFin(c: Conn, s: Segment, now: int)
    requires StillOver(c, c)
    ensures StillOver(c, OnAck(c, s, now))
  {
    hide SeqGt, SeqGte, SeqAdd, Unacknowledged, MaybeClose;
    var d := FinNoted(AckMoved(c, s).(peerWindow := s.window));
    assert StillOver(c, d);
    CloseAfterFin(c, d, now);
  }

  lemma TextAfterFin(c: Conn, s: Segment, now: int)
    requires StillOver(c, c)
    ensures StillOver(c, OnText(c, s, now))
  {
    hide SeqAdd, OnData;
    DataSendsNothing(c, s);
  }

  lemma ArrivalAfterFin(c: Conn, s: Segment, now: int)
    requires StillOver(c, c)
    ensures StillOver(c, OnTcp(c, s, now))
  {
    hide SeqAdd, OnAck, OnText, PumpData, PumpFin, ResetReply;
    AckAfterFin(c, s, now);
    TextAfterFin(c, s, now);
    TextAfterFin(OnAck(c, s, now), s, now);
  }

  lemma QuietAfterFin(c: Conn, input: Input, now: int)
    requires StillOver(c, c) && !input.Arrived?
    ensures StillOver(c, Step(c, input, now))
  {
    hide SeqAdd, FirstDue, PumpData, PumpFin, OnTcp;
  }

  /** Once the FIN is out the stream is over: no later step writes to it, queues for it or advances `sndNxt`. */
  lemma FinIsLast(c: Conn, input: Input, now: int)
    requires SenderInv(c) && c.finSeq.Some?
    ensures StillOver(c, Step(c, input, now))
    ensures Nxt(c) == 2 + |c.socket.written|
  {
    assert StillOver(c, c) && Nxt(c) == 2 + |c.socket.written|;
    hide SenderInv, StillOver, OnTcp, Write, Finish, Tick, Destroy;
    match input
    case Arrived(s) => ArrivalAfterFin(c, s, now);
    case _ => QuietAfterFin(c, input, now);
  }
}
