/**
 * Holding a segment that arrives early loses nothing: when every segment of a
 * stream has arrived, in whatever order and however often, all of the stream
 * has been delivered.
 */
module TcpReassembly {
  import opened Common
  import opened SeqNum
  import opened Tcp
  import opened TcpSender
  import opened TcpReceiver

  /** Where the `i`-th piece of the stream begins. */
  function Offset(pieces: seq<Bytes>, i: nat): nat
    requires i <= |pieces|
  {
    |Flat(pieces[..i])|
  }

  /** The data segment that carries the `i`-th piece. */
  function Piece(iss: u32, pieces: seq<Bytes>, i: nat): Segment
    requires i < |pieces|
  {
    Segment(PSH_ACK, At(iss, 1 + Offset(pieces, i)), 0, RECEIVE_WINDOW, pieces[i], None)
  }

  predicate Names(order: seq<nat>, pieces: seq<Bytes>) {
    forall j :: 0 <= j < |order| ==> order[j] < |pieces|
  }

  /** The pieces numbered by `order`, received one after the other. */
  function ReceiveAll(c: Conn, iss: u32, pieces: seq<Bytes>, order: seq<nat>): Conn
    requires Names(order, pieces)
    decreases |order|
  {
    if order == [] then c
    else
      var n := |order| - 1;
      OnData(ReceiveAll(c, iss, pieces, order[..n]), Piece(iss, pieces, order[n]))
  }

  lemma OffsetNext(pieces: seq<Bytes>, i: nat)
    requires i < |pieces|
    ensures Offset(pieces, i + 1) == Offset(pieces, i) + |pieces[i]|
  {
    assert pieces[..i + 1] == pieces[..i] + [pieces[i]];
    FlatAppend(pieces[..i], pieces[i]);
  }

  lemma {:induction false} FlatSplit(xs: seq<Bytes>, ys: seq<Bytes>)
    ensures Flat(xs + ys) == Flat(xs) + Flat(ys)
  {
    if xs == [] {
      assert xs + ys == ys;
    } else {
      assert (xs + ys)[1..] == xs[1..] + ys;
      FlatSplit(xs[1..], ys);
    }
  }

  /** Each piece is the stretch of the stream at its offset. */
  lemma PieceIsSlice(iss: u32, pieces: seq<Bytes>, i: nat)
    requires i < |pieces|
    ensures Slice(iss, Flat(pieces), At(iss, 1 + Offset(pieces, i)), pieces[i], Offset(pieces, i))
  {
    FlatAround(pieces, i);
    Middle(Flat(pieces[..i]), pieces[i], Flat(pieces[i + 1..]));
    hide At, Flat;
  }

  lemma FlatAround(pieces: seq<Bytes>, i: nat)
    requires i < |pieces|
    ensures Flat(pieces) == Flat(pieces[..i]) + (pieces[i] + Flat(pieces[i + 1..]))
  {
    var rest := [pieces[i]] + pieces[i + 1..];
    assert rest[1..] == pieces[i + 1..];
    assert Flat(rest) == pieces[i] + Flat(pieces[i + 1..]);
    hide Flat;
    assert pieces[..i] + rest == pieces;
    FlatSplit(pieces[..i], rest);
  }

  lemma Middle(a: Bytes, b: Bytes, c: Bytes)
    ensures (a + (b + c))[|a|..|a| + |b|] == b
  {
  }

  /** An earlier piece ends no later than a later one begins. */
  lemma {:induction false} OffsetOrder(pieces: seq<Bytes>, i: nat, j: nat)
    requires i < j <= |pieces|
    ensures Offset(pieces, i) + |pieces[i]| <= Offset(pieces, j)
    decreases j
  {
    OffsetNext(pieces, j - 1);
    if i < j - 1 { OffsetOrder(pieces, i, j - 1); }
  }

  /** `key` holds the piece that belongs there. */
  ghost predicate HoldsPiece(ooo: map<u32, Bytes>, iss: u32, pieces: seq<Bytes>, key: u32)
    requires key in ooo
  {
    exists i: nat :: i < |pieces| && key == At(iss, 1 + Offset(pieces, i)) && ooo[key] == pieces[i]
  }

  ghost predicate HeldPieces(ooo: map<u32, Bytes>, iss: u32, pieces: seq<Bytes>) {
    forall key :: key in ooo ==> HoldsPiece(ooo, iss, pieces, key)
  }

  ghost predicate AtBoundary(c: Conn, pieces: seq<Bytes>) {
    exists k: nat :: k <= |pieces| && |c.socket.delivered| == Offset(pieces, k)
  }

  /** Piece `i` has been delivered or is being held. */
  ghost predicate Got(c: Conn, iss: u32, pieces: seq<Bytes>, i: nat) {
    i < |pieces| && (Offset(pieces, i) < |c.socket.delivered| || At(iss, 1 + Offset(pieces, i)) in c.ooo)
  }

  ghost predicate AllGot(c: Conn, iss: u32, pieces: seq<Bytes>, got: set<nat>) {
    forall i :: i in got ==> Got(c, iss, pieces, i)
  }

  /** Everything in `got` is accounted for, and delivery has stopped between two pieces. */
  ghost predicate Accounted(c: Conn, iss: u32, pieces: seq<Bytes>, got: set<nat>) {
    && Reading(c, iss, Flat(pieces), false)
    && AtBoundary(c, pieces)
    && HeldPieces(c.ooo, iss, pieces)
    && AllGot(c, iss, pieces, got)
  }

  ghost predicate Streamable(pieces: seq<Bytes>) {
    NoneEmpty(pieces) && |Flat(pieces)| + 2 < HALF
  }

  lemma OffsetWithin(pieces: seq<Bytes>, i: nat)
    requires i <= |pieces|
    ensures Offset(pieces, i) <= |Flat(pieces)|
  {
    assert pieces == pieces[..i] + pieces[i..];
    FlatSplit(pieces[..i], pieces[i..]);
  }

  lemma HeldMore(ooo: map<u32, Bytes>, iss: u32, pieces: seq<Bytes>, i: nat)
    requires HeldPieces(ooo, iss, pieces) && i < |pieces|
    ensures HeldPieces(ooo[At(iss, 1 + Offset(pieces, i)) := pieces[i]], iss, pieces)
  {
    hide At, Offset;
    var k := At(iss, 1 + Offset(pieces, i));
    var more := ooo[k := pieces[i]];
    forall key | key in more ensures HoldsPiece(more, iss, pieces, key) {
      if key != k { assert HoldsPiece(ooo, iss, pieces, key); }
    }
  }

  /** What had been accounted for still is, once the piece at `rcvNxt` is no longer held but delivered. */
  lemma GotAfterDelivery(c: Conn, d: Conn, iss: u32, pieces: seq<Bytes>, got: set<nat>, i: nat)
    requires Streamable(pieces) && AllGot(c, iss, pieces, got) && i < |pieces|
    requires |c.socket.delivered| == Offset(pieces, i) && |d.socket.delivered| > Offset(pieces, i)
    requires d.ooo == c.ooo - {At(iss, 1 + Offset(pieces, i))}
    ensures AllGot(d, iss, pieces, got + {i})
  {
    OffsetWithin(pieces, i);
    hide At, Offset, Flat;
    forall j | j in got + {i} ensures Got(d, iss, pieces, j) {
      if j != i {
        assert Got(c, iss, pieces, j);
        OffsetWithin(pieces, j);
        AtInjective(iss, 1 + Offset(pieces, j), 1 + Offset(pieces, i));
      }
    }
  }

  /** Delivering the piece that starts where the receiver stands. */
  lemma DeliverPiece(c: Conn, iss: u32, pieces: seq<Bytes>, got: set<nat>, i: nat)
    requires Streamable(pieces) && Accounted(c, iss, pieces, got)
    requires i < |pieces| && |c.socket.delivered| == Offset(pieces, i)
    ensures var d := Deliver(c.(ooo := c.ooo - {c.rcvNxt}), pieces[i], SeqAdd(c.rcvNxt, |pieces[i]|));
            Accounted(d, iss, pieces, got + {i})
  {
    PieceIsSlice(iss, pieces, i);
    AtShift(iss, 1 + Offset(pieces, i), |pieces[i]|);
    OffsetNext(pieces, i);
    hide At, SeqAdd, SomeSlice, Flat, Offset, HeldPieces, AllGot, HoldsPiece, Got;
    assert c.rcvNxt == At(iss, 1 + Offset(pieces, i));
    var e := c.(ooo := c.ooo - {c.rcvNxt});
    assert Reading(e, iss, Flat(pieces), false);
    DeliverKeeps(e, pieces[i], SeqAdd(c.rcvNxt, |pieces[i]|), iss, Flat(pieces), false);
    hide Reading, Slice;
    var d := Deliver(e, pieces[i], SeqAdd(c.rcvNxt, |pieces[i]|));
    assert |d.socket.delivered| == Offset(pieces, i + 1);
    assert pieces[i] != [];
    GotAfterDelivery(c, d, iss, pieces, got, i);
  }

  lemma {:induction false} DrainAccounts(c: Conn, iss: u32, pieces: seq<Bytes>, got: set<nat>)
    requires Streamable(pieces) && Accounted(c, iss, pieces, got)
    ensures Accounted(Drain(c), iss, pieces, got)
    decreases |c.ooo|
  {
    if c.rcvNxt in c.ooo {
      hide Flat, SomeSlice, SeqAdd, Offset, At;
      assert HoldsPiece(c.ooo, iss, pieces, c.rcvNxt);
      var i: nat :| i < |pieces| && c.rcvNxt == At(iss, 1 + Offset(pieces, i)) && c.ooo[c.rcvNxt] == pieces[i];
      OffsetWithin(pieces, i);
      AtInjective(iss, 1 + Offset(pieces, i), 1 + |c.socket.delivered|);
      DeliverPiece(c, iss, pieces, got, i);
      assert (c.ooo - {c.rcvNxt}).Keys == c.ooo.Keys - {c.rcvNxt};
      var d := Deliver(c.(ooo := c.ooo - {c.rcvNxt}), pieces[i], SeqAdd(c.rcvNxt, |pieces[i]|));
      hide Accounted;
      DrainAccounts(d, iss, pieces, got + {i});
      assert Accounted(Drain(d), iss, pieces, got) by { Fewer(Drain(d), iss, pieces, got, i); }
    }
  }

  lemma Fewer(c: Conn, iss: u32, pieces: seq<Bytes>, got: set<nat>, i: nat)
    requires Accounted(c, iss, pieces, got + {i})
    ensures Accounted(c, iss, pieces, got)
  {
  }

  lemma HoldReads(c: Conn, iss: u32, w: Bytes, key: u32, piece: Bytes)
    requires Reading(c, iss, w, false) && SomeSlice(iss, w, key, piece) && piece != []
    ensures Reading(c.(ooo := c.ooo[key := piece]), iss, w, false)
  {
    hide At, SomeSlice;
  }

  lemma HoldGot(c: Conn, iss: u32, pieces: seq<Bytes>, got: set<nat>, i: nat)
    requires AllGot(c, iss, pieces, got) && i < |pieces|
    ensures AllGot(c.(ooo := c.ooo[At(iss, 1 + Offset(pieces, i)) := pieces[i]]), iss, pieces, got + {i})
  {
    hide At, Offset;
    var d := c.(ooo := c.ooo[At(iss, 1 + Offset(pieces, i)) := pieces[i]]);
    forall j | j in got + {i} ensures Got(d, iss, pieces, j) {
      if j != i { assert Got(c, iss, pieces, j); }
    }
  }

  /** The key of a piece further on is not the key that is expected. */
  lemma LaterKey(c: Conn, iss: u32, pieces: seq<Bytes>, got: set<nat>, i: nat)
    requires Streamable(pieces) && Accounted(c, iss, pieces, got)
    requires i < |pieces| && Offset(pieces, i) > |c.socket.delivered|
    ensures At(iss, 1 + Offset(pieces, i)) != c.rcvNxt && pieces[i] != []
  {
    OffsetWithin(pieces, i);
    AtInjective(iss, 1 + Offset(pieces, i), 1 + |c.socket.delivered|);
    hide At, Flat, SomeSlice, Offset, HeldPieces, AllGot;
  }

  lemma UnfoldAccounted(c: Conn, iss: u32, pieces: seq<Bytes>, got: set<nat>)
    ensures Accounted(c, iss, pieces, got) <==>
              Reading(c, iss, Flat(pieces), false) && AtBoundary(c, pieces) && HeldPieces(c.ooo, iss, pieces) && AllGot(c, iss, pieces, got)
  {
    hide Reading, AtBoundary, HeldPieces, AllGot, Flat;
  }

  lemma BoundaryKept(c: Conn, d: Conn, pieces: seq<Bytes>)
    requires AtBoundary(c, pieces) && d.socket.delivered == c.socket.delivered
    ensures AtBoundary(d, pieces)
  {
    hide Offset;
  }

  lemma SliceIsSome(iss: u32, w: Bytes, seqNo: u32, payload: Bytes, p: nat)
    requires Slice(iss, w, seqNo, payload, p)
    ensures SomeSlice(iss, w, seqNo, payload)
  {
    hide At;
  }

  /** A piece that arrives early is held. */
  lemma HoldAccounts(c: Conn, iss: u32, pieces: seq<Bytes>, got: set<nat>, i: nat)
    requires Streamable(pieces) && Accounted(c, iss, pieces, got)
    requires i < |pieces| && Offset(pieces, i) > |c.socket.delivered|
    ensures var d := c.(ooo := c.ooo[At(iss, 1 + Offset(pieces, i)) := pieces[i]]);
            Accounted(d, iss, pieces, got + {i}) && (c.rcvNxt !in c.ooo ==> d.rcvNxt !in d.ooo)
  {
    hide *;
    var key := At(iss, 1 + Offset(pieces, i));
    var d := c.(ooo := c.ooo[key := pieces[i]]);
    UnfoldAccounted(c, iss, pieces, got);
    LaterKey(c, iss, pieces, got, i);
    PieceIsSlice(iss, pieces, i);
    SliceIsSome(iss, Flat(pieces), key, pieces[i], Offset(pieces, i));
    HoldReads(c, iss, Flat(pieces), key, pieces[i]);
    HoldGot(c, iss, pieces, got, i);
    HeldMore(c.ooo, iss, pieces, i);
    BoundaryKept(c, d, pieces);
    UnfoldAccounted(d, iss, pieces, got + {i});
  }

  /** What `OnData` does with text that starts at position `p` when `r` is expected. */
  lemma DataCases(c: Conn, s: Segment, iss: u32, p: nat, r: nat)
    requires s.seqNo == At(iss, 1 + p) && c.rcvNxt == At(iss, 1 + r)
    requires p + |s.payload| + 2 < HALF && r + 2 < HALF
    ensures p + |s.payload| <= r ==> OnData(c, s) == SendAck(c)
    ensures p == r && s.payload != [] ==>
              OnData(c, s) == SendAck(Drain(Deliver(c, s.payload, SeqAdd(c.rcvNxt, |s.payload|))))
    ensures p > r && s.payload != [] ==> OnData(c, s) == SendAck(c.(ooo := c.ooo[s.seqNo := s.payload]))
  {
    AtShift(iss, 1 + p, |s.payload|);
    SeqOrder(iss, 1 + p + |s.payload|, 1 + r);
    SeqOrder(iss, 1 + p, 1 + r);
    hide At, SeqAdd, SeqLt, SeqDiff, Drain;
  }

  lemma ArriveNext(c: Conn, iss: u32, pieces: seq<Bytes>, got: set<nat>, i: nat)
    requires Streamable(pieces) && Accounted(c, iss, pieces, got) && i < |pieces| && c.rcvNxt !in c.ooo
    requires Offset(pieces, i) == |c.socket.delivered|
    ensures var d := SendAck(Drain(Deliver(c, pieces[i], SeqAdd(c.rcvNxt, |pieces[i]|))));
            Accounted(d, iss, pieces, got + {i}) && d.rcvNxt !in d.ooo
  {
    hide Accounted, Streamable, SeqAdd, Drain, Offset;
    DeliverPiece(c, iss, pieces, got, i);
    assert c.ooo - {c.rcvNxt} == c.ooo;
    assert c.(ooo := c.ooo - {c.rcvNxt}) == c;
    var d := Deliver(c, pieces[i], SeqAdd(c.rcvNxt, |pieces[i]|));
    DrainAccounts(d, iss, pieces, got + {i});
    AckAccounts(Drain(d), iss, pieces, got + {i}, i);
    assert got + {i} + {i} == got + {i};
  }

  lemma ArriveAccounts(c: Conn, iss: u32, pieces: seq<Bytes>, got: set<nat>, i: nat)
    requires Streamable(pieces) && Accounted(c, iss, pieces, got) && i < |pieces| && c.rcvNxt !in c.ooo
    ensures var d := OnData(c, Piece(iss, pieces, i));
            Accounted(d, iss, pieces, got + {i}) && d.rcvNxt !in d.ooo
  {
    var s := Piece(iss, pieces, i);
    var p, n, r := Offset(pieces, i), |pieces[i]|, |c.socket.delivered|;
    Beside(c, pieces, i);
    DataCases(c, s, iss, p, r);
    hide At, SeqAdd, Offset, Flat, Drain, Accounted, Streamable, OnData;
    if p + n <= r {
      AckAccounts(c, iss, pieces, got, i);
    } else if p == r {
      ArriveNext(c, iss, pieces, got, i);
    } else {
      HoldAccounts(c, iss, pieces, got, i);
      AckAccounts(c.(ooo := c.ooo[s.seqNo := s.payload]), iss, pieces, got + {i}, i);
      assert got + {i} + {i} == got + {i};
    }
  }

  /** Between two pieces, a piece lies wholly behind, starts here, or lies ahead. */
  lemma Beside(c: Conn, pieces: seq<Bytes>, i: nat)
    requires AtBoundary(c, pieces) && i < |pieces| && NoneEmpty(pieces)
    ensures var p, n, r := Offset(pieces, i), |pieces[i]|, |c.socket.delivered|;
            (r == p || r < p || p + n <= r) && p + n <= |Flat(pieces)| && n > 0
  {
    var r := |c.socket.delivered|;
    OffsetNext(pieces, i);
    OffsetWithin(pieces, i + 1);
    var k: nat :| k <= |pieces| && r == Offset(pieces, k);
    if k < i { OffsetOrder(pieces, k, i); } else if i < k { OffsetOrder(pieces, i, k); }
  }

  lemma AckAccounts(c: Conn, iss: u32, pieces: seq<Bytes>, got: set<nat>, i: nat)
    requires Accounted(c, iss, pieces, got)
    requires i in got || (i < |pieces| && Offset(pieces, i) + |pieces[i]| <= |c.socket.delivered| && pieces[i] != [])
    ensures Accounted(SendAck(c), iss, pieces, got + {i})
  {
    hide At, Flat, Offset, SomeSlice, HeldPieces;
    var d := SendAck(c);
    forall j | j in got + {i} ensures Got(d, iss, pieces, j) {
      if j in got { assert Got(c, iss, pieces, j); }
    }
  }

  lemma {:induction false} ReceiveAccounts(c: Conn, iss: u32, pieces: seq<Bytes>, order: seq<nat>)
    requires Streamable(pieces) && Accounted(c, iss, pieces, {}) && c.rcvNxt !in c.ooo
    requires Names(order, pieces)
    ensures var d := ReceiveAll(c, iss, pieces, order);
            Accounted(d, iss, pieces, set i | i in order) && d.rcvNxt !in d.ooo
    decreases |order|
  {
    if order != [] {
      var n := |order| - 1;
      hide Accounted, OnData, Piece;
      ReceiveAccounts(c, iss, pieces, order[..n]);
      var got := set i | i in order[..n];
      ArriveAccounts(ReceiveAll(c, iss, pieces, order[..n]), iss, pieces, got, order[n]);
      assert order == order[..n] + [order[n]];
      assert (set i | i in order) == got + {order[n]};
    } else {
      assert (set i | i in order) == {};
    }
  }

  /** When nothing is held at `rcvNxt`, the piece that belongs there has not arrived. */
  lemma Missing(c: Conn, iss: u32, pieces: seq<Bytes>, got: set<nat>, k: nat)
    requires Accounted(c, iss, pieces, got) && c.rcvNxt !in c.ooo
    requires k < |pieces| && |c.socket.delivered| == Offset(pieces, k)
    ensures k !in got
  {
    hide At, Offset;
    assert !Got(c, iss, pieces, k);
  }

  /**
   * Whatever the order and the repetitions, once every piece of the stream has
   * arrived the whole stream has been delivered and nothing is waiting at `rcvNxt`.
   */
  lemma NothingLost(c: Conn, iss: u32, pieces: seq<Bytes>, order: seq<nat>)
    requires Streamable(pieces)
    requires Reading(c, iss, Flat(pieces), false) && c.socket.delivered == [] && c.ooo == map[]
    requires Names(order, pieces)
    requires forall i :: 0 <= i < |pieces| ==> i in order
    ensures ReceiveAll(c, iss, pieces, order).socket.delivered == Flat(pieces)
  {
    assert Offset(pieces, 0) == 0;
    assert Accounted(c, iss, pieces, {});
    ReceiveAccounts(c, iss, pieces, order);
    var d := ReceiveAll(c, iss, pieces, order);
    var k: nat :| k <= |pieces| && |d.socket.delivered| == Offset(pieces, k);
    if k < |pieces| {
      hide Accounted, Got, Reading;
      Missing(d, iss, pieces, (set i | i in order), k);
      assert false;
    }
    assert pieces[..k] == pieces;
  }
}
