/**
 * Retransmission ends: without acknowledgements a connection resends a bounded
 * number of times, each time exactly what it sent before, and then closes.
 */
module TcpTimer {
  import opened Common
  import opened SeqNum
  import opened Tcp

  ghost predicate Timed(c: Conn) {
    RTO_INITIAL <= c.rto <= RTO_MAX && forall s :: s in c.unacked ==> s.tries <= MAX_RETRIES
  }

  /** How many more resends the unacknowledged segments allow between them. */
  function Budget(u: seq<Sent>): int {
    if u == [] then 0 else MAX_RETRIES - u[0].tries + Budget(u[1..])
  }

  /** A connection after the clock has been looked at, at each of these times, and nothing else has happened. */
  function Ticks(c: Conn, times: seq<int>): Conn
    decreases |times|
  {
    if times == [] then c else Ticks(Tick(c, times[0]), times[1..])
  }

  lemma {:induction false} BudgetBounds(u: seq<Sent>)
    requires forall s :: s in u ==> s.tries <= MAX_RETRIES
    ensures 0 <= Budget(u) <= MAX_RETRIES * |u|
  {
    if u != [] { BudgetBounds(u[1..]); }
  }

  lemma {:induction false} BudgetSpent(u: seq<Sent>, i: nat, s: Sent)
    requires i < |u| && s.tries == u[i].tries + 1
    ensures Budget(u[i := s]) == Budget(u) - 1
  {
    var v := u[i := s];
    if i == 0 {
      assert v[1..] == u[1..];
    } else {
      assert v[1..] == u[1..][i - 1 := s];
      BudgetSpent(u[1..], i - 1, s);
    }
  }

  /** `s` is a copy of something sent and not acknowledged. */
  ghost predicate CopyOf(s: Segment, u: seq<Sent>) {
    exists i :: 0 <= i < |u| && (s.flags, s.seqNo, s.payload, s.mss) == (u[i].flags, u[i].seqNo, u[i].payload, u[i].mss)
  }

  /** The same segments, perhaps tried more often. */
  ghost predicate SameSegments(u: seq<Sent>, v: seq<Sent>) {
    |u| == |v| && forall i :: 0 <= i < |u| ==> v[i] == u[i].(sentAt := v[i].sentAt, tries := v[i].tries)
  }

  /** One look at the clock does nothing, closes the connection, or resends one segment. */
  lemma TickCases(c: Conn, now: int)
    requires Timed(c)
    ensures var d := Tick(c, now);
            || d == c
            || (d.state.Closed? && d.unacked == [] && d.wire == c.wire)
            || (exists i :: 0 <= i < |c.unacked| && c.unacked[i].tries < MAX_RETRIES && d == Resend(c, i, now))
  {
  }

  lemma ResendSpends(c: Conn, i: nat, now: int)
    requires Timed(c) && i < |c.unacked| && c.unacked[i].tries < MAX_RETRIES
    ensures var d := Resend(c, i, now);
            Timed(d) && Repeats(c, d) && Budget(d.unacked) == Budget(c.unacked) - 1 && |d.wire| == |c.wire| + 1
  {
    var s := c.unacked[i];
    BudgetSpent(c.unacked, i, s.(tries := s.tries + 1, sentAt := now));
  }

  /** `d` comes after `c`, with nothing on the wire in between but copies of what `c` had outstanding. */
  ghost predicate Repeats(c: Conn, d: Conn) {
    && c.wire <= d.wire
    && (d.unacked == [] || SameSegments(c.unacked, d.unacked))
    && forall j :: |c.wire| <= j < |d.wire| ==> CopyOf(d.wire[j], c.unacked)
  }

  lemma TickSpends(c: Conn, now: int)
    requires Timed(c)
    ensures var d := Tick(c, now);
            Timed(d) && Repeats(c, d) && 0 <= |d.wire| - |c.wire| <= Budget(c.unacked) - Budget(d.unacked)
  {
    TickCases(c, now);
    BudgetBounds(c.unacked);
    TeardownTimed(c, now);
    var d := Tick(c, now);
    hide Tick, Resend;
    if d != c && !(d.state.Closed? && d.unacked == [] && d.wire == c.wire) {
      var i :| 0 <= i < |c.unacked| && c.unacked[i].tries < MAX_RETRIES && d == Resend(c, i, now);
      ResendSpends(c, i, now);
    }
  }

  /**
   * However often the clock is looked at, each resend is paid for out of the
   * budget, at most eight for each segment outstanding, and repeats one of those
   * segments: same number, same bytes.
   */
  lemma {:induction false} ResendsBounded(c: Conn, times: seq<int>)
    requires Timed(c)
    ensures var d := Ticks(c, times);
            && Timed(d) && Repeats(c, d)
            && |d.wire| - |c.wire| <= Budget(c.unacked) - Budget(d.unacked) <= MAX_RETRIES * |c.unacked|
    decreases |times|
  {
    BudgetBounds(c.unacked);
    if times != [] {
      var e := Tick(c, times[0]);
      TickSpends(c, times[0]);
      hide Tick, Repeats, Timed, Budget;
      ResendsBounded(e, times[1..]);
    }
    TimedBudget(Ticks(c, times));
  }

  lemma TimedBudget(c: Conn)
    requires Timed(c)
    ensures 0 <= Budget(c.unacked)
  {
    BudgetBounds(c.unacked);
  }

  lemma TeardownTimed(c: Conn, now: int)
    requires Timed(c)
    ensures Timed(Tick(c, now))
  {
    TickCases(c, now);
    hide FirstDue;
  }

  // ------------------------------------------------------------- and then it closes

  ghost predicate Ascending(since: int, times: seq<int>) {
    (times != [] ==> since <= times[0]) && forall j :: 0 < j < |times| ==> times[j - 1] <= times[j]
  }

  /** How many of the times, taken greedily, are at least the longest timer apart. */
  function Epochs(since: int, times: seq<int>): nat
    decreases |times|
  {
    if times == [] then 0
    else if times[0] - since >= RTO_MAX then 1 + Epochs(times[0], times[1..])
    else Epochs(since, times[1..])
  }

  /** Starting to count later loses at most one. */
  lemma {:induction false} EpochsLater(since: int, later: int, times: seq<int>)
    requires since <= later && Ascending(later, times)
    ensures Epochs(later, times) <= Epochs(since, times) <= Epochs(later, times) + 1
    decreases |times|
  {
    if times != [] {
      var t, rest := times[0], times[1..];
      if t - since < RTO_MAX {
        EpochsLater(since, later, rest);
      } else if t - later < RTO_MAX {
        EpochsLater(later, t, rest);
      }
    }
  }

  lemma {:induction false} ClosedStays(c: Conn, times: seq<int>)
    requires c.state.Closed? && c.unacked == []
    ensures Ticks(c, times).state.Closed?
    decreases |times|
  {
    if times != [] { ClosedStays(Tick(c, times[0]), times[1..]); }
  }

  ghost predicate SentBy(u: seq<Sent>, time: int) { forall s :: s in u ==> s.sentAt <= time }

  /**
   * A connection whose segments go unanswered closes, however often the clock
   * is looked at, once it has been through more epochs than its budget.
   */
  lemma {:induction false} UnansweredCloses(c: Conn, since: int, times: seq<int>)
    requires Timed(c) && !c.state.Closed? && c.unacked != [] && SentBy(c.unacked, since) && Ascending(since, times)
    requires Epochs(since, times) > Budget(c.unacked)
    ensures Ticks(c, times).state.Closed?
    decreases |times|
  {
    BudgetBounds(c.unacked);
    var now, rest := times[0], times[1..];
    TickCases(c, now);
    var d := Tick(c, now);
    hide Tick, Resend, Budget;
    if d == c {
      UnansweredCloses(c, since, rest);
    } else if d.state.Closed? && d.unacked == [] {
      ClosedStays(d, rest);
    } else {
      var i :| 0 <= i < |c.unacked| && c.unacked[i].tries < MAX_RETRIES && d == Resend(c, i, now);
      ResendSpends(c, i, now);
      EpochsLater(since, now, rest);
      ResentBy(c, i, since, now);
      UnansweredCloses(d, now, rest);
    }
  }

  lemma ResentBy(c: Conn, i: nat, since: int, now: int)
    requires i < |c.unacked| && SentBy(c.unacked, since) && since <= now
    ensures var d := Resend(c, i, now); SentBy(d.unacked, now) && d.unacked != [] && d.state == c.state
  {
  }

  /** The clock is looked at at least every `gap` milliseconds from `since` on. */
  ghost predicate Regular(since: int, times: seq<int>, gap: nat) {
    && Ascending(since, times)
    && (times != [] ==> times[0] <= since + gap)
    && forall j :: 0 < j < |times| ==> times[j] <= times[j - 1] + gap
  }

  lemma {:induction false} EpochsCover(since: int, prev: int, times: seq<int>, gap: nat)
    requires since <= prev < since + RTO_MAX && Regular(prev, times, gap) && times != []
    ensures times[|times| - 1] - since < RTO_MAX + Epochs(since, times) * (RTO_MAX + gap)
    decreases |times|
  {
    var t, rest := times[0], times[1..];
    var e, next := Epochs(since, times), Epochs(if t - since >= RTO_MAX then t else since, rest);
    assert e == next + if t - since >= RTO_MAX then 1 else 0;
    assert rest == [] ==> next == 0;
    hide Epochs;
    var period := RTO_MAX + gap;
    assert (next + 1) * period == next * period + period;
    if rest != [] {
      EpochsCover(if t - since >= RTO_MAX then t else since, t, rest, gap);
      assert times[|times| - 1] == rest[|rest| - 1];
    }
  }

  lemma FewEpochs(e: nat, n: nat, period: nat)
    requires e <= n
    ensures e * period + period <= (n + 1) * period
  {
  }

  /**
   * In milliseconds: with a look at the clock at least every `gap`, eight
   * resends of each segment outstanding and one more timer are all it takes.
   */
  lemma ClosesInTime(c: Conn, since: int, times: seq<int>, gap: nat)
    requires Timed(c) && !c.state.Closed? && c.unacked != [] && SentBy(c.unacked, since)
    requires Regular(since, times, gap) && times != []
    requires times[|times| - 1] - since >= (MAX_RETRIES * |c.unacked| + 1) * (RTO_MAX + gap)
    ensures Ticks(c, times).state.Closed?
  {
    hide Epochs, Budget, Ticks;
    BudgetBounds(c.unacked);
    EpochsCover(since, since, times, gap);
    var e, n := Epochs(since, times), MAX_RETRIES * |c.unacked|;
    if e <= n { FewEpochs(e, n, RTO_MAX + gap); }
    UnansweredCloses(c, since, times);
  }

  // ------------------------------------------------------------- the timers stay in range

  lemma {:induction false} PumpDataTimed(c: Conn, now: int)
    requires Timed(c)
    ensures Timed(PumpData(c, now))
    decreases |Flat(c.outbox)|
  {
    if !(c.outbox == [] || Room(c) <= 0 || Flat(c.outbox) == []) {
      var d := PumpOne(c, now);
      assert Timed(d) by { hide SeqAdd, Take, Room, Flat; }
      hide PumpOne, Room;
      PumpDataTimed(d, now);
    }
  }

  lemma {:induction false} UnacknowledgedSome(u: seq<Sent>, ackNo: u32)
    ensures forall s :: s in Unacknowledged(u, ackNo) ==> s in u
  {
    if u != [] { UnacknowledgedSome(u[1..], ackNo); }
  }

  lemma {:induction false} DrainSameTimers(c: Conn)
    ensures Drain(c).unacked == c.unacked && Drain(c).rto == c.rto
    decreases |c.ooo|
  {
    if c.rcvNxt in c.ooo {
      var held := c.ooo[c.rcvNxt];
      assert (c.ooo - {c.rcvNxt}).Keys == c.ooo.Keys - {c.rcvNxt};
      DrainSameTimers(Deliver(c.(ooo := c.ooo - {c.rcvNxt}), held, SeqAdd(c.rcvNxt, |held|)));
    }
  }

  lemma DataTimed(c: Conn, s: Segment)
    requires Timed(c)
    ensures Timed(OnData(c, s))
  {
    hide SeqLte, SeqGt, SeqDiff, SeqAdd, Drain;
    var end := SeqAdd(s.seqNo, |s.payload|);
    DrainSameTimers(Deliver(c, s.payload, end));
    DrainSameTimers(Deliver(c, Drop(s.payload, SeqDiff(c.rcvNxt, s.seqNo)), end));
  }

  lemma TextTimed(c: Conn, s: Segment, now: int)
    requires Timed(c)
    ensures Timed(OnText(c, s, now))
  {
    hide OnData, SeqAdd;
    if s.payload != [] { DataTimed(c, s); }
  }

  lemma AckTimed(c: Conn, s: Segment, now: int)
    requires Timed(c)
    ensures Timed(OnAck(c, s, now))
  {
    hide SeqGt, SeqGte, SeqAdd, Unacknowledged;
    UnacknowledgedSome(c.unacked, s.ackNo);
  }

  lemma PumpTimed(c: Conn, now: int)
    requires Timed(c)
    ensures Timed(Pump(c, now))
  {
    hide SeqAdd, PumpData;
    PumpDataTimed(c, now);
  }

  /** Every step keeps the retransmission timer within [200, 4000] and no segment is tried more than eight times. */
  lemma StepTimed(c: Conn, input: Input, now: int)
    requires Timed(c)
    ensures Timed(Step(c, input, now))
  {
    hide Pump, OnText, OnAck, SeqAdd, Timed, Tick;
    match input
    case Arrived(s) =>
      var d := if s.flags.ack then OnAck(c, s, now) else c;
      AckTimed(c, s, now);
      TextTimed(d, s, now);
      PumpTimed(OnText(d, s, now), now);
      var e := Establish(c, s.ackNo);
      FreshTimed(e);
      TextTimed(e, s, now);
      PumpTimed(OnText(e, s, now), now);
      var f := SendAck(Establish(c.(rcvNxt := SeqAdd(s.seqNo, 1), peerWindow := s.window), s.ackNo));
      FreshTimed(f);
      PumpTimed(f, now);
      SameTimed(c, c.(wire := c.wire + [ResetReply(s)]));
      SameTimed(c, Teardown(c));
    case Wrote(bytes) =>
      var d := c.(outbox := if bytes == [] then c.outbox else c.outbox + [bytes],
                  socket := c.socket.(written := c.socket.written + bytes));
      SameTimed(c, d);
      PumpTimed(d, now);
    case Finished =>
      SameTimed(c, c.(wantsFin := true));
      var d := Pump(c.(wantsFin := true), now);
      PumpTimed(c.(wantsFin := true), now);
      SameTimed(d, MaybeClose(d, now));
    case Ticked => TeardownTimed(c, now);
    case Destroyed => SameTimed(c, Destroy(c));
  }

  lemma FreshTimed(c: Conn)
    requires c.unacked == [] && c.rto == RTO_INITIAL
    ensures Timed(c)
  {
  }

  lemma SameTimed(c: Conn, d: Conn)
    requires Timed(c) && d.rto == c.rto && (d.unacked == c.unacked || d.unacked == [])
    ensures Timed(d)
  {
  }
}
