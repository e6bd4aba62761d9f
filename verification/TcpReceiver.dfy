/**
 * What the receiving half keeps when the segments that reach it tell the truth
 * about one stream that does not go round the whole sequence space, in whatever
 * order, as often as they come, and with any of them missing.
 */
module TcpReceiver {
  import opened Common
  import opened SeqNum
  import opened Tcp
  import opened TcpSender

  /** No two places of the stream, the end included, have the same number. */
  ghost predicate Short(w: Bytes, over: bool) { |w| + (if over then 1 else 0) < MOD }

  /** Where the receiver stands in the peer's stream. */
  function Position(c: Conn): nat { |c.socket.delivered| + if c.peerFin then 1 else 0 }

  ghost predicate Held(c: Conn, iss: u32, w: Bytes) {
    forall k :: k in c.ooo ==> c.ooo[k] != [] && SomeSlice(iss, w, k, c.ooo[k])
  }

  /** Reading the stream `w`: a prefix has been delivered, and the end announced once and only after all of it. */
  ghost predicate Reading(c: Conn, iss: u32, w: Bytes, over: bool) {
    && c.socket.delivered <= w
    && c.rcvNxt == At(iss, 1 + Position(c))
    && c.socket.ends == (if c.peerFin then 1 else 0)
    && (c.peerFin ==> over && c.socket.delivered == w)
    && Held(c, iss, w)
  }

  /** Before the handshake has told the receiver where the stream begins. */
  ghost predicate Unread(c: Conn) {
    && (c.state.SynSent? || c.state.Closed?)
    && c.socket.delivered == [] && !c.peerFin && c.socket.ends == 0 && c.ooo == map[]
  }

  ghost predicate ReceiverInv(c: Conn, iss: u32, w: Bytes, over: bool) {
    Unread(c) || (!c.state.SynSent? && Reading(c, iss, w, over))
  }

  /** The segment is true of the stream. */
  ghost predicate TruthfulSegment(iss: u32, w: Bytes, over: bool, s: Segment) {
    Truthful(iss, w, over, s.flags, s.seqNo, s.payload)
  }

  /** A stretch of the stream that starts where the receiver stands is what it delivers next. */
  lemma DeliverKeeps(c: Conn, bytes: Bytes, next: u32, iss: u32, w: Bytes, over: bool)
    requires Reading(c, iss, w, over) && !c.peerFin && |c.socket.delivered| + |bytes| <= |w|
    requires bytes == w[|c.socket.delivered|..|c.socket.delivered| + |bytes|]
    requires next == At(iss, 1 + |c.socket.delivered| + |bytes|)
    ensures Reading(Deliver(c, bytes, next), iss, w, over)
  {
    hide At, SomeSlice;
    var r := |c.socket.delivered|;
    assert c.socket.delivered == w[..r];
    assert w[..r] + w[r..r + |bytes|] == w[..r + |bytes|];
  }

  /** What is held at exactly the number expected is the next stretch of the stream. */
  lemma HandOverKeeps(c: Conn, iss: u32, w: Bytes, over: bool)
    requires Reading(c, iss, w, over) && Short(w, over) && c.rcvNxt in c.ooo
    ensures var held := c.ooo[c.rcvNxt];
            var d := Deliver(c.(ooo := c.ooo - {c.rcvNxt}), held, SeqAdd(c.rcvNxt, |held|));
            Reading(d, iss, w, over) && d.state == c.state && d.peerFin == c.peerFin && Position(d) >= Position(c)
  {
    hide At, SeqAdd;
    var held := c.ooo[c.rcvNxt];
    assert SomeSlice(iss, w, c.rcvNxt, held);
    var p: nat :| Slice(iss, w, c.rcvNxt, held, p);
    AtInjective(iss, 1 + p, 1 + Position(c));
    AtShift(iss, 1 + p, |held|);
    var e := c.(ooo := c.ooo - {c.rcvNxt});
    hide SomeSlice;
    assert Reading(e, iss, w, over);
    DeliverKeeps(e, held, SeqAdd(c.rcvNxt, |held|), iss, w, over);
  }

  lemma {:induction false} DrainKeeps(c: Conn, iss: u32, w: Bytes, over: bool)
    requires Reading(c, iss, w, over) && Short(w, over)
    ensures Reading(Drain(c), iss, w, over)
    ensures Drain(c).state == c.state && Drain(c).peerFin == c.peerFin && Position(Drain(c)) >= Position(c)
    decreases |c.ooo|
  {
    if c.rcvNxt in c.ooo {
      hide Reading, SeqAdd, Position;
      HandOverKeeps(c, iss, w, over);
      assert (c.ooo - {c.rcvNxt}).Keys == c.ooo.Keys - {c.rcvNxt};
      DrainKeeps(Deliver(c.(ooo := c.ooo - {c.rcvNxt}), c.ooo[c.rcvNxt], SeqAdd(c.rcvNxt, |c.ooo[c.rcvNxt]|)), iss, w, over);
    }
  }

  /** Data for the stream: the delivered prefix grows or stays, and ends up somewhere other than this segment's start. */
  lemma DataKeeps(c: Conn, s: Segment, p: nat, iss: u32, w: Bytes, over: bool)
    requires Reading(c, iss, w, over) && Short(w, over)
    requires 0 < |s.payload| < HALF && Slice(iss, w, s.seqNo, s.payload, p)
    ensures Reading(OnData(c, s), iss, w, over)
    ensures OnData(c, s).state == c.state && OnData(c, s).peerFin == c.peerFin
    ensures Position(OnData(c, s)) >= Position(c)
    ensures Position(OnData(c, s)) != p
    ensures p <= Position(c) ==> Position(OnData(c, s)) >= p + |s.payload|
  {
    var n, r := |s.payload|, Position(c);
    DataIs(c, s, p, r, iss);
    if p <= r < p + n {
      hide At, SeqAdd, SeqLt, SeqDiff, Drain, OnData, SomeSlice;
      var end := SeqAdd(s.seqNo, n);
      var rest := s.payload[r - p..];
      var d := Deliver(c, rest, end);
      assert rest == w[r..p + n];
      AtShift(iss, 1 + p, n);
      DeliverKeeps(c, rest, end, iss, w, over);
      assert Position(d) == p + n;
      hide Reading;
      DrainKeeps(d, iss, w, over);
      AckReads(Drain(d), iss, w, over);
    } else {
      AckReads(c, iss, w, over);
      SliceHeld(c, s, p, iss, w, over);
    }
  }

  /**
   * The comparisons, in terms of positions anywhere on the circle: text that
   * overlaps what is expected is recognised, and no other is taken for such.
   */
  lemma DataOrder(iss: u32, p: nat, n: nat, r: nat)
    requires 0 < n < HALF && p + n < MOD && r < MOD
    ensures SeqAdd(At(iss, 1 + p), n) == At(iss, 1 + p + n)
    ensures At(iss, 1 + p) == At(iss, 1 + r) <==> p == r
    ensures p <= r < p + n ==>
              !SeqLte(At(iss, 1 + p + n), At(iss, 1 + r)) && !SeqGt(At(iss, 1 + p), At(iss, 1 + r)) &&
              SeqDiff(At(iss, 1 + r), At(iss, 1 + p)) == r - p
    ensures !(p <= r < p + n) ==> SeqLte(At(iss, 1 + p + n), At(iss, 1 + r)) || SeqGt(At(iss, 1 + p), At(iss, 1 + r))
  {
    hide At, SeqAdd, SeqLt, SeqDiff;
    AtShift(iss, 1 + p, n);
    AtInjective(iss, 1 + p, 1 + r);
    AtInjective(iss, 1 + p + n, 1 + r);
    SeqLtExact(iss, 1 + p + n, 1 + r);
    SeqLtExact(iss, 1 + r, 1 + p);
    DiffAt(iss, 1 + r, 1 + p);
    if p <= r { ShortMod(r - p); }
  }

  lemma ShortMod(n: nat)
    requires n < MOD
    ensures n % MOD == n
  {
  }

  /** What data starting at position `p` leads to when position `r` is expected. */
  lemma DataIs(c: Conn, s: Segment, p: nat, r: nat, iss: u32)
    requires s.seqNo == At(iss, 1 + p) && c.rcvNxt == At(iss, 1 + r)
    requires 0 < |s.payload| < HALF && p + |s.payload| < MOD && r < MOD
    ensures if p <= r < p + |s.payload|
            then OnData(c, s) == SendAck(Drain(Deliver(c, s.payload[r - p..], SeqAdd(s.seqNo, |s.payload|))))
            else OnData(c, s) == SendAck(c) || OnData(c, s) == SendAck(c.(ooo := c.ooo[s.seqNo := s.payload]))
  {
    DataOrder(iss, p, |s.payload|, r);
    if p == r { assert s.payload[0..] == s.payload; }
    hide At, SeqAdd, SeqLt, SeqLte, SeqGt, SeqDiff, Drain, Deliver, SendAck;
  }

  lemma AckReads(c: Conn, iss: u32, w: Bytes, over: bool)
    requires Reading(c, iss, w, over)
    ensures Reading(SendAck(c), iss, w, over) && Position(SendAck(c)) == Position(c)
    ensures SendAck(c).state == c.state && SendAck(c).peerFin == c.peerFin
  {
    hide At, SomeSlice;
  }

  lemma SliceHeld(c: Conn, s: Segment, p: nat, iss: u32, w: Bytes, over: bool)
    requires Reading(c, iss, w, over) && s.payload != [] && Slice(iss, w, s.seqNo, s.payload, p)
    ensures var d := SendAck(c.(ooo := c.ooo[s.seqNo := s.payload]));
            Reading(d, iss, w, over) && Position(d) == Position(c) && d.state == c.state && d.peerFin == c.peerFin
  {
    hide At, Slice;
    assert SomeSlice(iss, w, s.seqNo, s.payload);
    hide SomeSlice;
  }

  lemma FinKeepsReading(c: Conn, s: Segment, now: int, iss: u32, w: Bytes, over: bool)
    requires Reading(c, iss, w, over) && Short(w, over) && s.flags.fin
    requires TruthfulSegment(iss, w, over, s)
    requires s.payload != [] ==> Position(c) != |w| - |s.payload|
    ensures Reading(OnFin(c, s, now), iss, w, over)
    ensures OnFin(c, s, now).state == c.state || !OnFin(c, s, now).state.SynSent?
    ensures OnFin(c, s, now).socket.delivered == c.socket.delivered
    ensures OnFin(c, s, now).peerFin <==> c.peerFin || (s.payload == [] && Position(c) == |w|)
  {
    AtInjective(iss, 1 + |w| - |s.payload|, 1 + Position(c));
    AtShift(iss, 1 + |w|, 1);
    hide At, SeqAdd;
  }

  lemma TextKeepsReading(c: Conn, s: Segment, now: int, iss: u32, w: Bytes, over: bool)
    requires Reading(c, iss, w, over) && Short(w, over) && !s.flags.syn
    requires TruthfulSegment(iss, w, over, s)
    ensures Reading(OnText(c, s, now), iss, w, over)
    ensures !c.state.SynSent? ==> !OnText(c, s, now).state.SynSent?
    ensures Position(OnText(c, s, now)) >= Position(c)
    ensures c.peerFin ==> OnText(c, s, now).peerFin
  {
    hide OnData, OnFin, Slice;
    var c1 := if s.payload != [] then OnData(c, s) else c;
    if s.payload != [] {
      var p: nat :| Slice(iss, w, s.seqNo, s.payload, p);
      DataKeeps(c, s, p, iss, w, over);
      if s.flags.fin { DataKeeps(c, s, |w| - |s.payload|, iss, w, over); }
    }
    if s.flags.fin {
      FinKeepsReading(c1, s, now, iss, w, over);
    }
  }

  /**
   * A FIN ought to end the stream once everything before it has been delivered,
   * by its own text if need be. It does exactly when it carries no text and
   * nothing was missing: after its text is taken, `rcvNxt` has moved past the
   * segment's own number, which is what the FIN is compared with.
   */
  lemma FinAcceptedExactlyWhenBare(c: Conn, s: Segment, now: int, iss: u32, w: Bytes, over: bool)
    requires Reading(c, iss, w, over) && Short(w, over) && !c.peerFin && !s.flags.syn && s.flags.fin
    requires TruthfulSegment(iss, w, over, s)
    ensures OnText(c, s, now).peerFin <==> s.payload == [] && |c.socket.delivered| == |w|
    ensures |w| - |s.payload| <= |c.socket.delivered| ==> OnText(c, s, now).socket.delivered == w
  {
    hide OnData, OnFin, Slice;
    if s.payload != [] {
      DataKeeps(c, s, |w| - |s.payload|, iss, w, over);
    }
    var c1 := if s.payload != [] then OnData(c, s) else c;
    FinKeepsReading(c1, s, now, iss, w, over);
  }
}
