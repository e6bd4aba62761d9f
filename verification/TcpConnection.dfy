/**
 * The connection record of src/net/stack.js updated in place, each method
 * proved to do what the step function of the same name in `Tcp` says, and the
 * stack's table of ports.
 */
module TcpConnection {
  import opened Common
  import opened SeqNum
  import T = Tcp

  /** A typed array's `set`: the bytes go in at `at`. */
  method Set(buffer: array<byte>, at: nat, bytes: Bytes)
    requires at + |bytes| <= buffer.Length
    modifies buffer
    ensures buffer[..at + |bytes|] == old(buffer[..at]) + bytes
  {
    forall k | 0 <= k < |bytes| {
      buffer[at + k] := bytes[k];
    }
  }

  class Connection {
    var state: T.State
    const iss: u32
    var sndUna: u32
    var sndNxt: u32
    var rcvNxt: u32
    var peerWindow: u16
    var outbox: seq<Bytes>
    var unacked: seq<T.Sent>
    var ooo: map<u32, Bytes>
    var finSeq: Option<u32>
    var finAcked: bool
    var peerFin: bool
    var wantsFin: bool
    var lingerUntil: Option<int>
    var rto: nat
    const deadline: int
    var socket: T.Socket
    var wire: seq<T.Segment>

    function Abs(): T.Conn
      reads this
    {
      T.Conn(state, iss, sndUna, sndNxt, rcvNxt, peerWindow, outbox, unacked, ooo, finSeq, finAcked, peerFin, wantsFin,
             lingerUntil, rto, deadline, socket, wire)
    }

    /** An active open: the SYN goes out at once. */
    constructor Connect(iss: u32, now: int, timeoutMs: nat)
      ensures Abs() == T.Connect(iss, now, timeoutMs)
    {
      this.state := T.SynSent;
      this.iss := iss;
      sndUna, sndNxt, rcvNxt := iss, iss, 0;
      peerWindow := T.MSS;
      outbox, unacked, ooo := [], [], map[];
      finSeq, finAcked, peerFin, wantsFin, lingerUntil := None, false, false, false, None;
      rto := T.RTO_INITIAL;
      deadline := now + timeoutMs;
      socket := T.NEW_SOCKET;
      wire := [];
      new;
      Emit(now, T.SYN, [], Some(T.MSS));
    }

    /** Opened by a SYN from the other side. */
    constructor Accept(s: T.Segment, iss: u32, now: int)
      ensures Abs() == T.Accept(s, iss, now)
    {
      this.state := T.SynRcvd;
      this.iss := iss;
      sndUna, sndNxt, rcvNxt := iss, iss, SeqAdd(s.seqNo, 1);
      peerWindow := if s.window == 0 then T.MSS else s.window;
      outbox, unacked, ooo := [], [], map[];
      finSeq, finAcked, peerFin, wantsFin, lingerUntil := None, false, false, false, None;
      rto := T.RTO_INITIAL;
      deadline := now + T.ACCEPT_TIMEOUT;
      socket := T.NEW_SOCKET;
      wire := [];
      new;
      Emit(now, T.SYN_ACK, [], Some(T.MSS));
    }

    // ----------------------------------------------------------- outbound

    method Emit(now: int, flags: T.Flags, payload: Bytes, mss: Option<u16>)
      modifies this
      ensures Abs() == T.Emit(old(Abs()), now, flags, payload, mss)
    {
      hide SeqAdd;
      var seqNo := sndNxt;
      var length := T.SeqLength(flags, payload);
      wire := wire + [T.Segment(flags, seqNo, rcvNxt, T.RECEIVE_WINDOW, payload, mss)];
      sndNxt := SeqAdd(seqNo, length);
      if length > 0 {
        unacked := unacked + [T.Sent(seqNo, length, flags, payload, mss, now, 0)];
      }
    }

    method SendAck()
      modifies this
      ensures Abs() == T.SendAck(old(Abs()))
    {
      wire := wire + [T.Segment(T.ACK, sndNxt, rcvNxt, T.RECEIVE_WINDOW, [], None)];
    }

    /** At most `limit` bytes of the queue, moved into a new buffer. */
    method Take(limit: nat) returns (out: Bytes)
      modifies `outbox
      ensures (out, outbox) == T.Take(old(outbox), Min(limit, |T.Flat(old(outbox))|))
    {
      var n := Min(limit, |T.Flat(outbox)|);
      out := TakeOff(n);
    }

    method TakeOff(n: nat) returns (out: Bytes)
      requires n <= |T.Flat(outbox)|
      modifies `outbox
      ensures (out, outbox) == T.Take(old(outbox), n)
    {
      hide *;
      var buffer := new byte[n];
      var filled := 0;
      ghost var whole := T.Take(outbox, n);
      while filled < n
        invariant 0 <= filled <= n && n - filled <= |T.Flat(outbox)|
        invariant fresh(buffer)
        invariant whole.0 == buffer[..filled] + T.Take(outbox, n - filled).0
        invariant whole.1 == T.Take(outbox, n - filled).1
        decreases n - filled, |outbox|
      {
        var take := MoveHead(buffer, filled);
        filled := filled + take;
      }
      TakeNone(outbox);
      out := buffer[..];
      assert out == buffer[..filled] + [] && whole == (whole.0, whole.1);
    }

    /** As much of the first buffer as there is room for, moved into `buffer` at `filled`. */
    method MoveHead(buffer: array<byte>, filled: nat) returns (take: nat)
      requires filled < buffer.Length && buffer.Length - filled <= |T.Flat(outbox)|
      modifies `outbox, buffer
      ensures take <= buffer.Length - filled && buffer.Length - filled - take <= |T.Flat(outbox)|
      ensures take > 0 || |outbox| < |old(outbox)|
      ensures old(buffer[..filled]) + T.Take(old(outbox), buffer.Length - filled).0 ==
                buffer[..filled + take] + T.Take(outbox, buffer.Length - filled - take).0
      ensures T.Take(old(outbox), buffer.Length - filled).1 == T.Take(outbox, buffer.Length - filled - take).1
    {
      hide *;
      ghost var n := buffer.Length - filled;
      TakeStep(outbox, n);
      take := if |outbox[0]| < buffer.Length - filled then |outbox[0]| else buffer.Length - filled;
      var head := outbox[0][..take];
      outbox := AfterHead(outbox, take);
      ghost var before, rest := buffer[..filled], T.Take(outbox, n - take).0;
      Set(buffer, filled, head);
      assert before + (head + rest) == before + head + rest;
    }

    /** What is left of the outbox when `take` bytes of its first buffer are gone. */
    static function AfterHead(outbox: seq<Bytes>, take: nat): seq<Bytes>
      requires outbox != [] && take <= |outbox[0]|
    {
      if take == |outbox[0]| then outbox[1..] else outbox[0 := outbox[0][take..]]
    }

    static lemma TakeStep(outbox: seq<Bytes>, n: nat)
      requires 0 < n <= |T.Flat(outbox)|
      ensures outbox != []
      ensures var take := if |outbox[0]| < n then |outbox[0]| else n;
              var rest := AfterHead(outbox, take);
              && n - take <= |T.Flat(rest)| && (n - take < n || |rest| < |outbox|)
              && T.Take(outbox, n).0 == outbox[0][..take] + T.Take(rest, n - take).0
              && T.Take(outbox, n).1 == T.Take(rest, n - take).1
    {
      var take := if |outbox[0]| < n then |outbox[0]| else n;
      if take < |outbox[0]| {
        assert AfterHead(outbox, take) == [outbox[0][take..]] + outbox[1..];
      } else {
        assert outbox[0][..take] == outbox[0];
        if take == n { assert T.Take(outbox[1..], 0) == ([], outbox[1..]); }
      }
    }

    static lemma TakeNone(outbox: seq<Bytes>)
      ensures T.Take(outbox, 0) == ([], outbox)
    {
    }

    /** Data into the window as long as there is either, and behind the last of it the FIN. */
    method Pump(now: int)
      modifies this
      ensures Abs() == T.Pump(old(Abs()), now)
    {
      hide T.PumpData, T.PumpFin;
      if !state.Established? && !state.CloseWait? { return; }
      PumpQueue(now);
      if |outbox| > 0 { return; }
      PumpFin(now);
    }

    method PumpFin(now: int)
      modifies this
      ensures Abs() == T.PumpFin(old(Abs()), now)
    {
      hide SeqAdd;
      if wantsFin && finSeq.None? {
        finSeq := Some(sndNxt);
        Emit(now, T.FIN_ACK, [], None);
        state := if peerFin then T.Closing else T.FinWait;
      }
    }

    method PumpQueue(now: int)
      modifies this
      ensures Abs() == T.PumpData(old(Abs()), now)
    {
      hide SeqAdd, SeqDiff, T.Take, T.Flat, T.PumpData, T.PumpOne, T.Emit;
      while |outbox| != 0
        invariant T.PumpData(Abs(), now) == T.PumpData(old(Abs()), now)
        decreases |T.Flat(outbox)|
      {
        ghost var before := Abs();
        var inFlight := SeqDiff(sndNxt, sndUna);
        var room := Min(peerWindow - inFlight, T.MSS);
        if room <= 0 { PumpDataStuck(before, now); return; }
        var payload := Take(room);
        if |payload| == 0 { TakeNothing(before); PumpDataStuck(before, now); return; }
        Emit(now, T.PSH_ACK, payload, None);
        PumpOneIs(before, now);
        PumpDataStep(before, now);
      }
      PumpDataStuck(Abs(), now);
    }

    static lemma TakeNothing(c: T.Conn)
      requires T.Room(c) > 0 && |T.Take(c.outbox, Min(T.Room(c), |T.Flat(c.outbox)|)).0| == 0
      ensures T.Flat(c.outbox) == [] && T.Take(c.outbox, 0).1 == c.outbox
    {
    }

    static lemma PumpOneIs(c: T.Conn, now: int)
      requires T.Room(c) > 0
      ensures var (payload, rest) := T.Take(c.outbox, Min(T.Room(c), |T.Flat(c.outbox)|));
              T.PumpOne(c, now) == T.Emit(c.(outbox := rest), now, T.PSH_ACK, payload, None)
    {
    }

    static lemma PumpDataStuck(c: T.Conn, now: int)
      requires c.outbox == [] || T.Room(c) <= 0 || T.Flat(c.outbox) == []
      ensures T.PumpData(c, now) == c
    {
    }

    static lemma PumpDataStep(c: T.Conn, now: int)
      requires c.outbox != [] && T.Room(c) > 0 && T.Flat(c.outbox) != []
      ensures T.PumpData(c, now) == T.PumpData(T.PumpOne(c, now), now)
      ensures |T.Flat(T.PumpOne(c, now).outbox)| < |T.Flat(c.outbox)|
    {
    }

    static lemma DrainStep(c: T.Conn)
      requires c.rcvNxt in c.ooo
      ensures var held := c.ooo[c.rcvNxt];
              T.Drain(c) == T.Drain(T.Deliver(c.(ooo := c.ooo - {c.rcvNxt}), held, SeqAdd(c.rcvNxt, |held|)))
      ensures |c.ooo - {c.rcvNxt}| < |c.ooo|
    {
      assert (c.ooo - {c.rcvNxt}).Keys == c.ooo.Keys - {c.rcvNxt};
    }

    method Write(bytes: Bytes, now: int) returns (refused: Option<T.WriteError>)
      modifies this
      ensures refused == T.WriteRefused(old(Abs()))
      ensures Abs() == T.Write(old(Abs()), bytes, now)
    {
      hide T.Pump;
      if state.Closed? { return Some(T.ConnectionClosed); }
      if finSeq.Some? { return Some(T.HalfClosed); }
      socket := socket.(written := socket.written + bytes);
      if |bytes| != 0 { outbox := outbox + [bytes]; }
      Pump(now);
      refused := None;
    }

    // ----------------------------------------------------------- closing

    method Teardown()
      modifies this
      ensures Abs() == T.Teardown(old(Abs()))
    {
      if state.Closed? { return; }
      state := T.Closed;
      unacked := [];
      socket := socket.(isClosed := true);
    }

    method MaybeClose(now: int)
      modifies this
      ensures Abs() == T.MaybeClose(old(Abs()), now)
    {
      if state.Closed? { return; }
      if peerFin && finAcked {
        Teardown();
      } else if finAcked && lingerUntil.None? {
        lingerUntil := Some(now + T.LINGER);
      }
    }

    method Finish(now: int)
      modifies this
      ensures Abs() == T.Finish(old(Abs()), now)
    {
      hide T.Pump, T.MaybeClose;
      wantsFin := true;
      Pump(now);
      MaybeClose(now);
    }

    method Destroy()
      modifies this
      ensures Abs() == T.Destroy(old(Abs()))
    {
      if state.Closed? { return; }
      wire := wire + [T.Segment(T.RST_ACK, sndNxt, rcvNxt, 0, [], None)];
      Teardown();
    }

    // ----------------------------------------------------------- inbound

    method MoveAck(s: T.Segment)
      modifies this
      ensures Abs() == T.AckMoved(old(Abs()), s)
    {
      hide SeqGt, T.Unacknowledged;
      if SeqGt(s.ackNo, sndUna) {
        sndUna := s.ackNo;
        unacked := T.Unacknowledged(unacked, s.ackNo);
        rto := T.RTO_INITIAL;
      }
    }

    method NoteFin()
      modifies this
      ensures Abs() == T.FinNoted(old(Abs()))
    {
      hide SeqGte, SeqAdd;
      if finSeq.Some? && SeqGte(sndUna, SeqAdd(finSeq.value, 1)) { finAcked := true; }
    }

    method OnAck(s: T.Segment, now: int)
      modifies this
      ensures Abs() == T.OnAck(old(Abs()), s, now)
    {
      hide SeqGt, T.AckMoved, T.FinNoted, T.MaybeClose;
      if SeqGt(s.ackNo, sndNxt) { return; }
      MoveAck(s);
      peerWindow := s.window;
      NoteFin();
      MaybeClose(now);
    }

    method Deliver(bytes: Bytes)
      modifies `socket
      ensures socket == old(socket).(delivered := old(socket).delivered + bytes)
    {
      if |bytes| == 0 { return; }
      socket := socket.(delivered := socket.delivered + bytes);
    }

    /** What was held at exactly `rcvNxt` is delivered. */
    method HandOver()
      requires rcvNxt in ooo
      modifies this
      ensures ooo == old(ooo - {rcvNxt})
      ensures var c := old(Abs());
              Abs() == T.Deliver(c.(ooo := c.ooo - {c.rcvNxt}), c.ooo[c.rcvNxt], SeqAdd(c.rcvNxt, |c.ooo[c.rcvNxt]|))
    {
      hide SeqAdd;
      var held := ooo[rcvNxt];
      ooo := ooo - {rcvNxt};
      Deliver(held);
      rcvNxt := SeqAdd(rcvNxt, |held|);
    }

    /** Hand over what was held, one exactly adjoining segment after the other. */
    method Drain()
      modifies this
      ensures Abs() == T.Drain(old(Abs()))
    {
      hide SeqAdd, T.Drain, T.Deliver;
      while rcvNxt in ooo
        invariant T.Drain(Abs()) == T.Drain(old(Abs()))
        decreases |ooo|
      {
        DrainStep(Abs());
        HandOver();
      }
      assert T.Drain(Abs()) == Abs() by { DrainDone(Abs()); }
    }

    static lemma DrainDone(c: T.Conn)
      requires c.rcvNxt !in c.ooo
      ensures T.Drain(c) == c
    {
    }

    method OnData(s: T.Segment)
      modifies this
      ensures Abs() == T.OnData(old(Abs()), s)
    {
      hide SeqAdd, SeqLte, SeqGt, SeqDiff, T.Drain;
      var end := SeqAdd(s.seqNo, |s.payload|);
      if SeqLte(end, rcvNxt) {
        SendAck();
        return;
      }
      if s.seqNo == rcvNxt {
        Deliver(s.payload);
        rcvNxt := end;
        Drain();
      } else if SeqGt(s.seqNo, rcvNxt) {
        ooo := ooo[s.seqNo := s.payload];
      } else {
        Deliver(Drop(s.payload, SeqDiff(rcvNxt, s.seqNo)));
        rcvNxt := end;
        Drain();
      }
      SendAck();
    }

    method TakeFin()
      modifies this
      ensures Abs() == T.FinTaken(old(Abs()))
    {
      hide SeqAdd;
      SeeFin();
      SendAck();
      Announce();
    }

    method SeeFin()
      modifies this
      ensures Abs() == old(Abs()).(rcvNxt := SeqAdd(old(rcvNxt), 1), peerFin := true)
    {
      hide SeqAdd;
      rcvNxt := SeqAdd(rcvNxt, 1);
      peerFin := true;
    }

    /** The peer's end of stream is announced. */
    method Announce()
      modifies this
      ensures var c := old(Abs());
              Abs() == c.(state := if c.finSeq.None? then T.CloseWait else T.Closing, socket := c.socket.(ends := c.socket.ends + 1))
    {
      state := if finSeq.None? then T.CloseWait else T.Closing;
      socket := socket.(ends := socket.ends + 1);
    }

    method OnFin(s: T.Segment, now: int)
      modifies this
      ensures Abs() == T.OnFin(old(Abs()), s, now)
    {
      hide T.FinTaken, T.MaybeClose;
      if s.seqNo != rcvNxt { return; }
      TakeFin();
      MaybeClose(now);
    }

    method Establish(ackNo: u32)
      modifies this
      ensures Abs() == T.Establish(old(Abs()), ackNo)
    {
      sndUna := ackNo;
      unacked := [];
      state := T.Established;
      rto := T.RTO_INITIAL;
      socket := socket.(isOpen := true);
    }

    method OnSynAck(s: T.Segment, now: int)
      modifies this
      ensures Abs() == T.OnSynAck(old(Abs()), s, now)
    {
      hide SeqAdd, T.Pump, T.Establish;
      if !s.flags.syn || !s.flags.ack || s.ackNo != sndNxt { return; }
      rcvNxt := SeqAdd(s.seqNo, 1);
      peerWindow := s.window;
      Establish(s.ackNo);
      SendAck();
      Pump(now);
    }

    method OnHandshakeAck(s: T.Segment, now: int)
      modifies this
      ensures Abs() == T.OnHandshakeAck(old(Abs()), s, now)
    {
      hide SeqAdd, T.Pump, T.OnData, T.OnFin, T.Establish;
      if !s.flags.ack || s.ackNo != sndNxt { return; }
      Establish(s.ackNo);
      if |s.payload| != 0 { OnData(s); }
      if s.flags.fin { OnFin(s, now); }
      Pump(now);
    }

    /** A segment for this connection's ports, its checksum already found good. */
    method OnTcp(s: T.Segment, now: int)
      modifies this
      ensures Abs() == T.OnTcp(old(Abs()), s, now)
    {
      hide T.Pump, T.OnData, T.OnFin, T.OnAck, T.OnSynAck, T.OnHandshakeAck, T.ResetReply;
      if state.Closed? {
        if !s.flags.rst { wire := wire + [T.ResetReply(s)]; }
        return;
      }
      if s.flags.rst { Teardown(); return; }
      if state.SynSent? { OnSynAck(s, now); return; }
      if state.SynRcvd? { OnHandshakeAck(s, now); return; }
      if s.flags.ack { OnAck(s, now); }
      if |s.payload| != 0 { OnData(s); }
      if s.flags.fin { OnFin(s, now); }
      Pump(now);
    }

    // ----------------------------------------------------------- time

    /** One resend at most, of the first segment whose timer has run out, or the end of the connection. */
    method Tick(now: int)
      modifies this
      ensures Abs() == T.Tick(old(Abs()), now)
    {
      if lingerUntil.Some? && now > lingerUntil.value { Teardown(); return; }
      if (state.SynSent? || state.SynRcvd?) && now > deadline { Teardown(); return; }
      var i := 0;
      while i < |unacked|
        invariant 0 <= i <= |unacked| && Abs() == old(Abs())
        invariant forall j :: 0 <= j < i ==> now - unacked[j].sentAt < rto
      {
        var s := unacked[i];
        if now - s.sentAt < rto { i := i + 1; continue; }
        assert T.FirstDue(unacked, rto, now) == i;
        if s.tries >= T.MAX_RETRIES { Teardown(); return; }
        unacked := unacked[i := s.(tries := s.tries + 1, sentAt := now)];
        wire := wire + [T.Segment(s.flags, s.seqNo, rcvNxt, T.RECEIVE_WINDOW, s.payload, s.mss)];
        rto := Min(rto * 2, T.RTO_MAX);
        return;
      }
      assert T.FirstDue(unacked, rto, now) == |unacked|;
    }
  }

  // ------------------------------------------------------------- the table of ports

  const EPHEMERAL_FIRST: u16 := 49152
  const EPHEMERAL_LAST: u16 := 65535
  const EPHEMERALS: nat := 16384

  predicate Ephemeral(port: int) { EPHEMERAL_FIRST <= port <= EPHEMERAL_LAST }

  class NetStack {
    /** By local port and remote port. */
    var connections: map<(u16, u16), Connection>
    var listeners: set<u16>
    var nextPort: u16

    predicate Taken(port: u16)
      reads this
    {
      port in listeners || exists k :: k in connections && k.0 == port
    }

    constructor ()
      ensures connections == map[] && listeners == {} && Ephemeral(nextPort)
    {
      connections, listeners, nextPort := map[], {}, EPHEMERAL_FIRST;
    }

    /**
     * The first free ephemeral port from where the last search ended, going round;
     * the next search begins after it. Refused only when every one of them is taken.
     */
    method AllocatePort() returns (port: Option<u16>)
      requires Ephemeral(nextPort)
      modifies `nextPort
      ensures Ephemeral(nextPort)
      ensures port.Some? ==> Ephemeral(port.value) && !Taken(port.value)
      ensures port.Some? ==>
                exists i :: 0 <= i < EPHEMERALS && FirstFree(old(nextPort), i) && port.value == Nth(old(nextPort), i) && nextPort == Nth(old(nextPort), i + 1)
      ensures port.None? <==> forall p: u16 :: Ephemeral(p) ==> Taken(p)
    {
      StartPlace(nextPort);
      hide Nth;
      var inUse := set k | k in connections :: k.0;
      ghost var start := nextPort;
      var i := 0;
      while i < EPHEMERALS
        invariant 0 <= i <= EPHEMERALS && Ephemeral(nextPort)
        invariant nextPort == Nth(start, i)
        invariant forall k :: 0 <= k < i ==> Taken(Nth(start, k))
      {
        var candidate := nextPort;
        NextPlace(start, i);
        nextPort := if nextPort >= EPHEMERAL_LAST then EPHEMERAL_FIRST else nextPort + 1;
        if candidate !in inUse && candidate !in listeners {
          assert FirstFree(start, i) && nextPort == Nth(start, i + 1);
          return Some(candidate);
        }
        i := i + 1;
      }
      forall p: u16 | Ephemeral(p) ensures Taken(p) {
        SomePlace(start, p);
      }
      return None;
    }

    static lemma StartPlace(start: u16)
      requires Ephemeral(start)
      ensures Nth(start, 0) == start
    {
    }

    static lemma NextPlace(start: u16, k: nat)
      requires Ephemeral(start)
      ensures Ephemeral(Nth(start, k))
      ensures Nth(start, k + 1) == if Nth(start, k) >= EPHEMERAL_LAST then EPHEMERAL_FIRST else Nth(start, k) + 1
    {
    }

    static lemma SomePlace(start: u16, p: u16)
      requires Ephemeral(start) && Ephemeral(p)
      ensures var k := (p - start) % EPHEMERALS; 0 <= k < EPHEMERALS && p == Nth(start, k)
    {
    }

    /** The `i` ports from `start` on are taken. */
    ghost predicate FirstFree(start: u16, i: nat)
      reads this
    {
      forall k :: 0 <= k < i ==> Taken(Nth(start, k))
    }

    /** The port `k` places after `start`, going round the ephemeral range. */
    static function Nth(start: u16, k: nat): u16 {
      EPHEMERAL_FIRST + (start - EPHEMERAL_FIRST + k) % EPHEMERALS
    }
  }
}
