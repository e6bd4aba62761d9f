/**
 * One TCP connection of the in-tab stack, as a step function over values
 * (src/net/stack.js).
 *
 * `Conn` is the connection record; `Socket` is the caller's end of it, kept as
 * the log of what was written, what was delivered and how often the end of the
 * stream was announced; `wire` is the log of segments handed to the NIC.
 * `TcpConnection.Connection` is the same record updated in place.
 */
module Tcp {
  import opened Common
  import opened SeqNum

  const MSS: nat := 1460
  const RTO_INITIAL: nat := 200
  const RTO_MAX: nat := 4000
  const MAX_RETRIES: nat := 8
  const RECEIVE_WINDOW: u16 := 65535
  const LINGER: nat := 10000
  const ACCEPT_TIMEOUT: nat := 30000

  datatype State = SynSent | SynRcvd | Established | CloseWait | FinWait | Closing | Closed

  datatype Flags = Flags(fin: bool, syn: bool, rst: bool, psh: bool, ack: bool)

  const SYN := Flags(false, true, false, false, false)
  const SYN_ACK := Flags(false, true, false, false, true)
  const ACK := Flags(false, false, false, false, true)
  const PSH_ACK := Flags(false, false, false, true, true)
  const FIN_ACK := Flags(true, false, false, false, true)
  const RST := Flags(false, false, true, false, false)
  const RST_ACK := Flags(false, false, true, false, true)

  datatype Segment = Segment(flags: Flags, seqNo: u32, ackNo: u32, window: u16, payload: Bytes, mss: Option<u16>)

  /** A segment sent and not yet acknowledged. */
  datatype Sent = Sent(seqNo: u32, length: nat, flags: Flags, payload: Bytes, mss: Option<u16>, sentAt: int, tries: nat)

  datatype Socket = Socket(isOpen: bool, isClosed: bool, written: Bytes, delivered: Bytes, ends: nat)

  datatype Conn = Conn(
    state: State,
    iss: u32, sndUna: u32, sndNxt: u32, rcvNxt: u32,
    peerWindow: u16,
    outbox: seq<Bytes>,
    unacked: seq<Sent>,
    ooo: map<u32, Bytes>,
    finSeq: Option<u32>, finAcked: bool, peerFin: bool, wantsFin: bool,
    lingerUntil: Option<int>,
    rto: nat,
    deadline: int,
    socket: Socket,
    wire: seq<Segment>)

  // ------------------------------------------------------------- sending

  function Flat(bufs: seq<Bytes>): Bytes {
    if bufs == [] then [] else bufs[0] + Flat(bufs[1..])
  }

  predicate NoneEmpty(bufs: seq<Bytes>) {
    forall i :: 0 <= i < |bufs| ==> bufs[i] != []
  }

  /** The first `n` bytes queued, and what is left of the queue. */
  function Take(outbox: seq<Bytes>, n: nat): (r: (Bytes, seq<Bytes>))
    requires n <= |Flat(outbox)|
    ensures |r.0| == n
    ensures r.0 + Flat(r.1) == Flat(outbox)
    ensures NoneEmpty(outbox) ==> NoneEmpty(r.1)
  {
    if n == 0 then ([], outbox)
    else if |outbox[0]| <= n then
      var (bytes, rest) := Take(outbox[1..], n - |outbox[0]|);
      (outbox[0] + bytes, rest)
    else
      assert Flat([outbox[0][n..]] + outbox[1..]) == outbox[0][n..] + Flat(outbox[1..]) by {
        assert ([outbox[0][n..]] + outbox[1..])[1..] == outbox[1..];
      }
      (outbox[0][..n], [outbox[0][n..]] + outbox[1..])
  }

  function SeqLength(flags: Flags, payload: Bytes): nat {
    |payload| + if flags.syn || flags.fin then 1 else 0
  }

  function Emit(c: Conn, now: int, flags: Flags, payload: Bytes, mss: Option<u16>): Conn {
    var length := SeqLength(flags, payload);
    c.(sndNxt := SeqAdd(c.sndNxt, length),
       unacked := if length > 0
                  then c.unacked + [Sent(c.sndNxt, length, flags, payload, mss, now, 0)]
                  else c.unacked,
       wire := c.wire + [Segment(flags, c.sndNxt, c.rcvNxt, RECEIVE_WINDOW, payload, mss)])
  }

  function SendAck(c: Conn): Conn {
    c.(wire := c.wire + [Segment(ACK, c.sndNxt, c.rcvNxt, RECEIVE_WINDOW, [], None)])
  }

  function InFlight(c: Conn): nat {
    SeqDiff(c.sndNxt, c.sndUna)
  }

  function Room(c: Conn): int {
    Min(c.peerWindow - InFlight(c), MSS)
  }

  /** The next segment's worth of outbox, sent. */
  function PumpOne(c: Conn, now: int): (r: Conn)
    requires Room(c) > 0
    ensures |Flat(r.outbox)| == |Flat(c.outbox)| - Min(Room(c), |Flat(c.outbox)|)
  {
    var (payload, rest) := Take(c.outbox, Min(Room(c), |Flat(c.outbox)|));
    assert |Flat(c.outbox)| == |payload| + |Flat(rest)|;
    Emit(c.(outbox := rest), now, PSH_ACK, payload, None)
  }

  /** Send until the outbox is empty or the peer's window is full. */
  function PumpData(c: Conn, now: int): Conn
    decreases |Flat(c.outbox)|
  {
    if c.outbox == [] || Room(c) <= 0 || Flat(c.outbox) == [] then c
    else PumpData(PumpOne(c, now), now)
  }

  function PumpFin(c: Conn, now: int): Conn {
    if c.wantsFin && c.finSeq.None? then
      Emit(c.(finSeq := Some(c.sndNxt)), now, FIN_ACK, [], None).(state := if c.peerFin then Closing else FinWait)
    else c
  }

  function Pump(c: Conn, now: int): Conn {
    if !c.state.Established? && !c.state.CloseWait? then c
    else
      var sent := PumpData(c, now);
      if sent.outbox == [] then PumpFin(sent, now) else sent
  }

  datatype WriteError = ConnectionClosed | HalfClosed

  function WriteRefused(c: Conn): Option<WriteError> {
    if c.state.Closed? then Some(ConnectionClosed)
    else if c.finSeq.Some? then Some(HalfClosed)
    else None
  }

  function Write(c: Conn, bytes: Bytes, now: int): Conn {
    if WriteRefused(c).Some? then c
    else
      Pump(c.(outbox := if bytes == [] then c.outbox else c.outbox + [bytes],
              socket := c.socket.(written := c.socket.written + bytes)), now)
  }

  // ------------------------------------------------------------- closing

  function Teardown(c: Conn): Conn {
    if c.state.Closed? then c
    else c.(state := Closed, unacked := [], socket := c.socket.(isClosed := true))
  }

  function MaybeClose(c: Conn, now: int): Conn {
    if c.state.Closed? then c
    else if c.peerFin && c.finAcked then Teardown(c)
    else if c.finAcked && c.lingerUntil.None? then c.(lingerUntil := Some(now + LINGER))
    else c
  }

  function Finish(c: Conn, now: int): Conn {
    MaybeClose(Pump(c.(wantsFin := true), now), now)
  }

  function Destroy(c: Conn): Conn {
    if c.state.Closed? then c
    else Teardown(c.(wire := c.wire + [Segment(RST_ACK, c.sndNxt, c.rcvNxt, 0, [], None)]))
  }

  // ------------------------------------------------------------- receiving

  function Unacknowledged(unacked: seq<Sent>, ackNo: u32): seq<Sent> {
    if unacked == [] then []
    else
      var rest := Unacknowledged(unacked[1..], ackNo);
      if SeqGt(SeqAdd(unacked[0].seqNo, unacked[0].length), ackNo) then [unacked[0]] + rest else rest
  }

  /** What is acknowledged for the first time is no longer outstanding, and the backoff starts again. */
  function AckMoved(c: Conn, s: Segment): Conn {
    if SeqGt(s.ackNo, c.sndUna)
    then c.(sndUna := s.ackNo, unacked := Unacknowledged(c.unacked, s.ackNo), rto := RTO_INITIAL)
    else c
  }

  function FinNoted(c: Conn): Conn {
    if c.finSeq.Some? && SeqGte(c.sndUna, SeqAdd(c.finSeq.value, 1)) then c.(finAcked := true) else c
  }

  function OnAck(c: Conn, s: Segment, now: int): Conn {
    if SeqGt(s.ackNo, c.sndNxt) then c
    else MaybeClose(FinNoted(AckMoved(c, s).(peerWindow := s.window)), now)
  }

  function Deliver(c: Conn, bytes: Bytes, next: u32): Conn {
    c.(socket := c.socket.(delivered := c.socket.delivered + bytes), rcvNxt := next)
  }

  /** Hand over the held segment that starts exactly at `rcvNxt`, as long as there is one. */
  function Drain(c: Conn): (r: Conn)
    ensures r.rcvNxt !in r.ooo
    decreases |c.ooo|
  {
    if c.rcvNxt !in c.ooo then c
    else
      var held := c.ooo[c.rcvNxt];
      assert (c.ooo - {c.rcvNxt}).Keys == c.ooo.Keys - {c.rcvNxt};
      Drain(Deliver(c.(ooo := c.ooo - {c.rcvNxt}), held, SeqAdd(c.rcvNxt, |held|)))
  }

  function OnData(c: Conn, s: Segment): Conn {
    var end := SeqAdd(s.seqNo, |s.payload|);
    if SeqLte(end, c.rcvNxt) then SendAck(c)
    else if s.seqNo == c.rcvNxt then SendAck(Drain(Deliver(c, s.payload, end)))
    else if SeqGt(s.seqNo, c.rcvNxt) then SendAck(c.(ooo := c.ooo[s.seqNo := s.payload]))
    else SendAck(Drain(Deliver(c, Drop(s.payload, SeqDiff(c.rcvNxt, s.seqNo)), end)))
  }

  /** The peer's end of stream, acknowledged and announced. */
  function FinTaken(c: Conn): Conn {
    var acked := SendAck(c.(rcvNxt := SeqAdd(c.rcvNxt, 1), peerFin := true));
    acked.(state := if c.finSeq.None? then CloseWait else Closing,
           socket := acked.socket.(ends := acked.socket.ends + 1))
  }

  function OnFin(c: Conn, s: Segment, now: int): Conn {
    if s.seqNo != c.rcvNxt then c else MaybeClose(FinTaken(c), now)
  }

  /** The data and the end of stream a segment carries. */
  function OnText(c: Conn, s: Segment, now: int): Conn {
    var c1 := if s.payload != [] then OnData(c, s) else c;
    if s.flags.fin then OnFin(c1, s, now) else c1
  }

  /** The handshake is over: nothing is outstanding. */
  function Establish(c: Conn, ackNo: u32): Conn {
    c.(sndUna := ackNo, unacked := [], state := Established, rto := RTO_INITIAL, socket := c.socket.(isOpen := true))
  }

  function OnSynAck(c: Conn, s: Segment, now: int): Conn {
    if !s.flags.syn || !s.flags.ack || s.ackNo != c.sndNxt then c
    else
      Pump(SendAck(Establish(c.(rcvNxt := SeqAdd(s.seqNo, 1), peerWindow := s.window), s.ackNo)), now)
  }

  function OnHandshakeAck(c: Conn, s: Segment, now: int): Conn {
    if !s.flags.ack || s.ackNo != c.sndNxt then c else Pump(OnText(Establish(c, s.ackNo), s, now), now)
  }

  /** What is sent back when no connection claims a segment. */
  function ResetReply(s: Segment): Segment {
    Segment(if s.flags.ack then RST else RST_ACK,
            if s.flags.ack then s.ackNo else 0,
            SeqAdd(s.seqNo, |s.payload| + if s.flags.syn then 1 else 0), 0, [], None)
  }

  /** One segment with a valid checksum arrives for this connection's ports. */
  function OnTcp(c: Conn, s: Segment, now: int): Conn {
    if c.state.Closed? then if s.flags.rst then c else c.(wire := c.wire + [ResetReply(s)])
    else if s.flags.rst then Teardown(c)
    else if c.state.SynSent? then OnSynAck(c, s, now)
    else if c.state.SynRcvd? then OnHandshakeAck(c, s, now)
    else Pump(OnText(if s.flags.ack then OnAck(c, s, now) else c, s, now), now)
  }

  // ------------------------------------------------------------- opening

  const NEW_SOCKET := Socket(false, false, [], [], 0)

  function Connect(iss: u32, now: int, timeoutMs: nat): Conn {
    Emit(Conn(SynSent, iss, iss, iss, 0, MSS, [], [], map[], None, false, false, false, None,
              RTO_INITIAL, now + timeoutMs, NEW_SOCKET, []),
         now, SYN, [], Some(MSS))
  }

  function Accept(s: Segment, iss: u32, now: int): Conn {
    Emit(Conn(SynRcvd, iss, iss, iss, SeqAdd(s.seqNo, 1), if s.window == 0 then MSS else s.window, [], [], map[],
              None, false, false, false, None, RTO_INITIAL, now + ACCEPT_TIMEOUT, NEW_SOCKET, []),
         now, SYN_ACK, [], Some(MSS))
  }

  // ------------------------------------------------------------- time

  /** The first unacknowledged segment whose timer has run out, or the length when there is none. */
  function FirstDue(unacked: seq<Sent>, rto: nat, now: int): (i: nat)
    ensures i <= |unacked|
    ensures i < |unacked| ==> now - unacked[i].sentAt >= rto
    ensures forall j :: 0 <= j < i ==> now - unacked[j].sentAt < rto
  {
    if unacked == [] || now - unacked[0].sentAt >= rto then 0
    else 1 + FirstDue(unacked[1..], rto, now)
  }

  function Resend(c: Conn, i: nat, now: int): Conn
    requires i < |c.unacked|
  {
    var s := c.unacked[i];
    c.(unacked := c.unacked[i := s.(tries := s.tries + 1, sentAt := now)],
       wire := c.wire + [Segment(s.flags, s.seqNo, c.rcvNxt, RECEIVE_WINDOW, s.payload, s.mss)],
       rto := Min(c.rto * 2, RTO_MAX))
  }

  function Tick(c: Conn, now: int): Conn {
    if c.lingerUntil.Some? && now > c.lingerUntil.value then Teardown(c)
    else if (c.state.SynSent? || c.state.SynRcvd?) && now > c.deadline then Teardown(c)
    else
      var i := FirstDue(c.unacked, c.rto, now);
      if i == |c.unacked| then c
      else if c.unacked[i].tries >= MAX_RETRIES then Teardown(c)
      else Resend(c, i, now)
  }

  // ------------------------------------------------------------- runs

  /** Everything that can happen to a connection. */
  datatype Input = Arrived(s: Segment) | Wrote(bytes: Bytes) | Finished | Ticked | Destroyed

  function Step(c: Conn, input: Input, now: int): Conn {
    match input
    case Arrived(s) => OnTcp(c, s, now)
    case Wrote(bytes) => Write(c, bytes, now)
    case Finished => Finish(c, now)
    case Ticked => Tick(c, now)
    case Destroyed => Destroy(c)
  }

  /** A connection after a history of inputs, each with the clock's reading. */
  function Run(c: Conn, history: seq<(Input, int)>): Conn
    decreases |history|
  {
    if history == [] then c
    else
      var n := |history| - 1;
      Step(Run(c, history[..n]), history[n].0, history[n].1)
  }
}
