/**
 * The write governor (src/core/governor.js): a token bucket refilled by the
 * clock, emptied by a refusal, and shared by any number of waiting writers.
 * Rounding of the machine's arithmetic is not modelled.
 */
module Governor {
  import opened Common

  type Rate = r: real | r > 0.0 witness 150.0

  const MS_PER_MINUTE := 60000.0

  datatype Bucket = Bucket(tokens: real, lastRefill: int)

  function Minutes(ms: int): real { ms as real / MS_PER_MINUTE }

  /** The tokens so much time brings. */
  function Worth(ms: int, rate: Rate): real { Minutes(ms) * rate }

  function Refill(b: Bucket, rate: Rate, now: int): Bucket {
    var elapsed := Minutes(now - b.lastRefill);
    if elapsed <= 0.0 then b
    else
      var filled := b.tokens + Worth(now - b.lastRefill, rate);
      Bucket(if filled < rate then filled else rate, now)
  }

  /** A writer looks for a token, or a write comes back refused. */
  datatype Event = Try(now: int) | Refused

  function Step(b: Bucket, rate: Rate, e: Event): (Bucket, nat) {
    match e
    case Refused => (b.(tokens := 0.0), 0)
    case Try(now) =>
      var filled := Refill(b, rate, now);
      if filled.tokens >= 1.0 then (filled.(tokens := filled.tokens - 1.0), 1) else (filled, 0)
  }

  /** The bucket after the events, and how many writes were admitted. */
  function Run(b: Bucket, rate: Rate, events: seq<Event>): (Bucket, nat)
    decreases |events|
  {
    if events == [] then (b, 0)
    else
      var (before, admitted) := Run(b, rate, events[..|events| - 1]);
      var (after, one) := Step(before, rate, events[|events| - 1]);
      (after, admitted + one)
  }

  predicate InRange(b: Bucket, rate: Rate) { 0.0 <= b.tokens <= rate }

  lemma MulMonotone(a: real, b: real, c: real)
    requires a <= b && c >= 0.0
    ensures a * c <= b * c
  {
  }

  lemma WorthSome(ms: int, rate: Rate)
    ensures ms >= 0 ==> Worth(ms, rate) >= 0.0
    ensures Worth(0, rate) == 0.0
    ensures Minutes(ms) <= 0.0 <==> ms <= 0
  {
    if ms >= 0 { MulMonotone(0.0, Minutes(ms), rate); }
  }

  lemma WorthAdds(a: int, b: int, rate: Rate)
    ensures Worth(a, rate) + Worth(b, rate) == Worth(a + b, rate)
  {
    assert Minutes(a) + Minutes(b) == Minutes(a + b);
    assert Minutes(a) * rate + Minutes(b) * rate == (Minutes(a) + Minutes(b)) * rate;
  }

  lemma RefillInRange(b: Bucket, rate: Rate, now: int)
    requires InRange(b, rate)
    ensures InRange(Refill(b, rate, now), rate)
  {
    WorthSome(now - b.lastRefill, rate);
    hide Worth, Minutes;
  }

  /** The bucket never holds less than nothing nor more than a minute's worth. */
  lemma {:induction false} StaysInRange(b: Bucket, rate: Rate, events: seq<Event>)
    requires InRange(b, rate)
    ensures InRange(Run(b, rate, events).0, rate)
    decreases |events|
  {
    if events != [] {
      StaysInRange(b, rate, events[..|events| - 1]);
      var before, e := Run(b, rate, events[..|events| - 1]).0, events[|events| - 1];
      if e.Try? { RefillInRange(before, rate, e.now); }
      hide Refill;
    }
  }

  /** The clock does not go back, and no event is after `end`. */
  predicate Timed(start: int, events: seq<Event>, end: int)
    decreases |events|
  {
    if events == [] then start <= end
    else
      var e := events[|events| - 1];
      if e.Refused? then Timed(start, events[..|events| - 1], end)
      else e.now <= end && Timed(start, events[..|events| - 1], e.now)
  }

  /** What a refill adds is no more than the time that passed is worth. */
  lemma RefillWorth(b: Bucket, rate: Rate, now: int)
    requires b.lastRefill <= now
    ensures var after := Refill(b, rate, now);
            after.lastRefill == now && after.tokens <= b.tokens + Worth(now - b.lastRefill, rate)
  {
    WorthSome(now - b.lastRefill, rate);
    hide Worth, Minutes;
  }

  /** Tokens held and writes admitted together never exceed what was held and what the time is worth. */
  lemma {:induction false} Conserved(b: Bucket, rate: Rate, events: seq<Event>, end: int)
    requires InRange(b, rate) && Timed(b.lastRefill, events, end)
    ensures var (after, admitted) := Run(b, rate, events);
            && b.lastRefill <= after.lastRefill <= end
            && after.tokens + admitted as real <= b.tokens + Worth(after.lastRefill - b.lastRefill, rate)
    decreases |events|
  {
    hide Worth, Minutes, Refill;
    WorthSome(0, rate);
    if events != [] {
      var front, e := events[..|events| - 1], events[|events| - 1];
      StaysInRange(b, rate, front);
      if e.Refused? {
        Conserved(b, rate, front, end);
      } else {
        Conserved(b, rate, front, e.now);
        var before := Run(b, rate, front).0;
        RefillWorth(before, rate, e.now);
        WorthAdds(before.lastRefill - b.lastRefill, e.now - before.lastRefill, rate);
      }
    }
  }

  /** The events one after the other. */
  lemma {:induction false} RunAppend(b: Bucket, rate: Rate, before: seq<Event>, events: seq<Event>)
    ensures var (mid, early) := Run(b, rate, before);
            var (after, late) := Run(mid, rate, events);
            Run(b, rate, before + events) == (after, early + late)
    decreases |events|
  {
    if events == [] {
      assert before + [] == before;
    } else {
      var all := before + events;
      assert all[..|all| - 1] == before + events[..|events| - 1];
      hide Step;
      RunAppend(b, rate, before, events[..|events| - 1]);
    }
  }

  /** From a bucket of any contents, filled no later than the window opens. */
  lemma {:induction false} WindowConserved(b: Bucket, rate: Rate, first: int, events: seq<Event>, end: int)
    requires InRange(b, rate) && b.lastRefill <= first && Timed(first, events, end)
    ensures var (after, admitted) := Run(b, rate, events);
            && after.lastRefill <= end && first <= end
            && if after.lastRefill < first then admitted == 0
               else after.tokens + admitted as real <= rate + Worth(after.lastRefill - first, rate)
    decreases |events|
  {
    hide Worth, Minutes, Refill;
    WorthSome(0, rate);
    if events != [] {
      var front, e := events[..|events| - 1], events[|events| - 1];
      StaysInRange(b, rate, front);
      if e.Refused? {
        WindowConserved(b, rate, first, front, end);
      } else {
        WindowConserved(b, rate, first, front, e.now);
        var before := Run(b, rate, front).0;
        RefillInRange(before, rate, e.now);
        RefillWorth(before, rate, e.now);
        WorthAdds(before.lastRefill - first, e.now - before.lastRefill, rate);
        WorthSome(e.now - first, rate);
      }
    }
  }

  /**
   * In any window of a run, wherever it opens and refusals included, no more
   * writes are admitted than a full bucket and what the window's own length is
   * worth: rate * (1 + minutes).
   */
  lemma WindowBound(b: Bucket, rate: Rate, before: seq<Event>, first: int, events: seq<Event>, end: int)
    requires InRange(b, rate) && Timed(b.lastRefill, before, first) && Timed(first, events, end)
    ensures (Run(b, rate, before + events).1 - Run(b, rate, before).1) as real <= rate * (1.0 + Minutes(end - first))
  {
    hide *;
    Together(end - first, rate);
    RunAppend(b, rate, before, events);
    StaysInRange(b, rate, before);
    Conserved(b, rate, before, first);
    var mid := Run(b, rate, before).0;
    WindowConserved(mid, rate, first, events, end);
    StaysInRange(mid, rate, events);
    var after := Run(mid, rate, events).0;
    Held(after, rate);
    WorthAdds(after.lastRefill - first, end - after.lastRefill, rate);
    WorthSome(end - after.lastRefill, rate);
    WorthSome(end - first, rate);
  }

  lemma Together(ms: int, rate: Rate)
    ensures rate * (1.0 + Minutes(ms)) == rate + Worth(ms, rate)
  {
  }

  lemma Held(b: Bucket, rate: Rate)
    requires InRange(b, rate)
    ensures b.tokens >= 0.0
  {
  }

  // ------------------------------------------------------------- waiting

  function Ceil(x: real): int { -((-x).Floor) }

  /** How long a writer that found too little sleeps. */
  function WaitMs(tokens: real, rate: Rate): int {
    Ceil((1.0 - tokens) / rate * MS_PER_MINUTE)
  }

  /** Alone, a writer finds a token after the sleep exactly when the bucket can hold one. */
  lemma WaitSuffices(b: Bucket, rate: Rate)
    requires 0.0 <= b.tokens < 1.0 && b.tokens <= rate
    ensures WaitMs(b.tokens, rate) > 0
    ensures Refill(b, rate, b.lastRefill + WaitMs(b.tokens, rate)).tokens >= 1.0 <==> rate >= 1.0
  {
    var deficit, wait := 1.0 - b.tokens, WaitMs(b.tokens, rate);
    Positive(deficit, rate);
    CeilAbove(deficit / rate * MS_PER_MINUTE);
    assert Minutes(wait) >= deficit / rate by { MinutesAtLeast(wait, deficit / rate); }
    hide Ceil, WaitMs;
    WorthAtLeast(wait, deficit, rate);
    WorthSome(wait, rate);
    hide Worth, Minutes;
    assert b.lastRefill + wait - b.lastRefill == wait;
  }

  lemma CeilAbove(x: real)
    ensures Ceil(x) as real >= x && (x > 0.0 ==> Ceil(x) > 0)
  {
  }

  lemma MinutesAtLeast(ms: int, minutes: real)
    requires ms as real >= minutes * MS_PER_MINUTE
    ensures Minutes(ms) >= minutes
  {
  }

  lemma WorthAtLeast(ms: int, deficit: real, rate: Rate)
    requires Minutes(ms) >= deficit / rate
    ensures Worth(ms, rate) >= deficit
  {
    hide Minutes;
    var share := deficit / rate;
    MulMonotone(share, Minutes(ms), rate);
    Cancels(deficit, rate);
  }

  lemma Cancels(a: real, b: Rate)
    ensures a / b * b == a
  {
  }

  lemma Positive(deficit: real, rate: Rate)
    requires deficit > 0.0
    ensures deficit / rate > 0.0
  {
  }

  /** And no sooner: a millisecond less is not enough. */
  lemma WaitIsLeast(b: Bucket, rate: Rate, ms: int)
    requires 0.0 <= b.tokens < 1.0 && b.tokens <= rate && 0 <= ms < WaitMs(b.tokens, rate)
    ensures Refill(b, rate, b.lastRefill + ms).tokens < 1.0
  {
    var deficit := 1.0 - b.tokens;
    CeilBelow(deficit / rate * MS_PER_MINUTE, ms);
    assert Minutes(ms) < deficit / rate by { MinutesBelow(ms, deficit / rate); }
    hide Ceil, WaitMs;
    WorthBelow(ms, deficit, rate);
    WorthSome(ms, rate);
    hide Worth, Minutes;
    assert b.lastRefill + ms - b.lastRefill == ms;
  }

  lemma CeilBelow(x: real, n: int)
    requires n < Ceil(x)
    ensures (n as real) < x
  {
  }

  lemma MinutesBelow(ms: int, minutes: real)
    requires (ms as real) < minutes * MS_PER_MINUTE
    ensures Minutes(ms) < minutes
  {
  }

  lemma WorthBelow(ms: int, deficit: real, rate: Rate)
    requires Minutes(ms) < deficit / rate
    ensures Worth(ms, rate) < deficit
  {
    hide Minutes;
    Cancels(deficit, rate);
    Cancels(deficit - Worth(ms, rate), rate);
    var gap := deficit / rate - Minutes(ms);
    assert gap * rate == deficit - Worth(ms, rate);
    assert gap * rate > 0.0;
  }

  /**
   * A writer that looks is let through exactly when what was left and what the
   * time since is worth make one token and a full bucket holds one; it costs one
   * token, and what a full bucket cannot hold is lost.
   */
  lemma AdmitsExactly(b: Bucket, rate: Rate, now: int)
    requires InRange(b, rate) && b.lastRefill <= now
    ensures var (after, admitted) := Step(b, rate, Try(now));
            var held := b.tokens + (now - b.lastRefill) as real / 60000.0 * rate;
            && admitted == (if held >= 1.0 && rate >= 1.0 then 1 else 0)
            && after == Bucket((if held < rate then held else rate) - admitted as real, now)
  {
    WorthSome(now - b.lastRefill, rate);
    WorthSome(0, rate);
    assert Worth(now - b.lastRefill, rate) == (now - b.lastRefill) as real / 60000.0 * rate;
    hide Worth, Minutes;
  }

  /** A refusal costs all that was saved: the next write is let through only when the time since has earned it. */
  lemma RefusalCosts(b: Bucket, rate: Rate, now: int)
    requires InRange(b, rate) && b.lastRefill <= now
    ensures var refused := Step(b, rate, Refused).0;
            Step(refused, rate, Try(now)).1 == 1 <==> (now - b.lastRefill) as real / 60000.0 * rate >= 1.0 && rate >= 1.0
  {
    AdmitsExactly(Step(b, rate, Refused).0, rate, now);
    hide Refill;
  }

  lemma RunOne(b: Bucket, rate: Rate, e: Event)
    ensures Run(b, rate, [e]) == Step(b, rate, e)
  {
    hide Step;
    assert [e][..0] == [];
    assert Run(b, rate, []) == (b, 0);
  }

  /** A rate below one write a minute admits nothing, however long the wait. */
  lemma {:induction false} SlowNeverAdmits(b: Bucket, rate: Rate, events: seq<Event>)
    requires InRange(b, rate) && rate < 1.0
    ensures Run(b, rate, events).1 == 0
    decreases |events|
  {
    if events != [] {
      SlowNeverAdmits(b, rate, events[..|events| - 1]);
      StaysInRange(b, rate, events[..|events| - 1]);
      var before, e := Run(b, rate, events[..|events| - 1]).0, events[|events| - 1];
      if e.Try? { RefillInRange(before, rate, e.now); }
    }
  }

  // ------------------------------------------------------------- the governor in place

  function Halved(concurrency: int, least: int): int { Max(least, concurrency / 2) }

  /** Half of it rounded down, but the least that is allowed. */
  lemma HalvedExactly(concurrency: nat, least: nat)
    ensures var h := Halved(concurrency, least);
            h >= least && (if h > least then 2 * h <= concurrency <= 2 * h + 1 else concurrency <= 2 * least + 1)
  {
  }

  class Governor {
    const rate: Rate
    const minConcurrency: nat
    var tokens: real
    var lastRefill: int
    var concurrency: nat
    var refused: nat

    function Abs(): Bucket
      reads this
    {
      Bucket(tokens, lastRefill)
    }

    constructor (rate: Rate, concurrency: nat, minConcurrency: nat, now: int)
      ensures this.rate == rate && this.minConcurrency == minConcurrency
      ensures Abs() == Bucket(rate, now) && InRange(Abs(), rate)
      ensures this.concurrency == concurrency && refused == 0
    {
      this.rate, this.minConcurrency := rate, minConcurrency;
      tokens, lastRefill, this.concurrency, refused := rate, now, concurrency, 0;
    }

    method Fill(now: int)
      modifies `tokens, `lastRefill
      ensures Abs() == Refill(old(Abs()), rate, now)
    {
      var elapsed := Minutes(now - lastRefill);
      if elapsed <= 0.0 { return; }
      var filled := tokens + Worth(now - lastRefill, rate);
      tokens := if filled < rate then filled else rate;
      lastRefill := now;
    }

    /** One pass of the loop that takes a token: the token, or how long to sleep. */
    method Look(now: int) returns (taken: bool, waitMs: int)
      requires InRange(Abs(), rate)
      modifies `tokens, `lastRefill
      ensures (Abs(), if taken then 1 else 0) == Step(old(Abs()), rate, Try(now)) && InRange(Abs(), rate)
      ensures !taken ==> tokens < 1.0 && waitMs == WaitMs(tokens, rate)
    {
      RefillInRange(Abs(), rate, now);
      hide Refill, WaitMs;
      Fill(now);
      if tokens >= 1.0 {
        tokens := tokens - 1.0;
        return true, 0;
      }
      return false, WaitMs(tokens, rate);
    }

    /** A refusal empties the bucket and halves the concurrency, unless it was one too many: then it is the caller's. */
    method Refuse(attempt: nat, retries: nat, retryAfterSeconds: int) returns (waitMs: Option<int>)
      requires InRange(Abs(), rate)
      modifies `tokens, `concurrency, `refused
      ensures InRange(Abs(), rate) && (waitMs.None? <==> attempt >= retries)
      ensures waitMs.None? ==> Abs() == old(Abs()) && concurrency == old(concurrency) && refused == old(refused)
      ensures waitMs.Some? ==>
                && (Abs(), 0) == Step(old(Abs()), rate, Refused)
                && concurrency == Halved(old(concurrency), minConcurrency) && refused == old(refused) + 1
                && waitMs.value >= 1000 && waitMs.value >= retryAfterSeconds * 1000
                && (waitMs.value == 1000 || waitMs.value == retryAfterSeconds * 1000)
    {
      if attempt >= retries { return None; }
      refused := refused + 1;
      concurrency := Max(minConcurrency, concurrency / 2);
      tokens := 0.0;
      return Some(Max(1000, retryAfterSeconds * 1000));
    }
  }

  // ------------------------------------------------------------- many writers, one list

  /** What a worker is doing. */
  datatype Worker = Idle | Busy(task: nat) | Gone

  /** The shared counter, the first failure, the workers, and how each finished task ended. */
  datatype Pool = Pool(tasks: nat, next: nat, failed: bool, workers: seq<Worker>, ended: map<nat, bool>)

  /** A worker looks for its next task, or its write has come to an end. */
  datatype Move = Pick(worker: nat) | Finish(worker: nat, well: bool)

  function PoolStep(p: Pool, m: Move): Pool {
    match m
    case Pick(w) =>
      if w >= |p.workers| || !p.workers[w].Idle? then p
      else if p.failed then p.(workers := p.workers[w := Gone])
      else p.(next := p.next + 1, workers := p.workers[w := if p.next < p.tasks then Busy(p.next) else Gone])
    case Finish(w, well) =>
      if w >= |p.workers| || !p.workers[w].Busy? then p
      else p.(ended := p.ended[p.workers[w].task := well], failed := p.failed || !well,
              workers := p.workers[w := if well then Idle else Gone])
  }

  function PoolRun(p: Pool, moves: seq<Move>): Pool
    decreases |moves|
  {
    if moves == [] then p else PoolStep(PoolRun(p, moves[..|moves| - 1]), moves[|moves| - 1])
  }

  function PoolStart(tasks: nat, concurrency: int): Pool {
    Pool(tasks, 0, false, seq(Max(1, concurrency), _ => Idle), map[])
  }

  predicate Doing(p: Pool, w: nat, task: nat) { w < |p.workers| && p.workers[w] == Busy(task) }

  /** Every task taken is in one worker's hands or has ended, never both and never twice. */
  ghost predicate PoolInv(p: Pool) {
    && p.workers != []
    && (forall t :: t in p.ended ==> t < p.next && t < p.tasks)
    && (forall w: nat, t: nat :: Doing(p, w, t) ==> t < p.next && t < p.tasks && t !in p.ended)
    && (forall v: nat, w: nat, t: nat :: Doing(p, v, t) && Doing(p, w, t) ==> v == w)
    && (forall t: nat :: t < p.next && t < p.tasks ==> t in p.ended || exists w: nat :: Doing(p, w, t))
    && (p.failed <==> exists t :: t in p.ended && !p.ended[t])
    && (forall w: nat :: w < |p.workers| && p.workers[w].Gone? ==> p.failed || p.next >= p.tasks)
  }

  /** The move does something. */
  predicate Moves(p: Pool, m: Move) {
    m.worker < |p.workers| && if m.Pick? then p.workers[m.worker].Idle? else p.workers[m.worker].Busy?
  }

  lemma PoolStepKeeps(p: Pool, m: Move)
    requires PoolInv(p)
    ensures PoolInv(PoolStep(p, m))
  {
    if Moves(p, m) {
      if m.Pick? { PickKeeps(p, m.worker); } else { FinishKeeps(p, m.worker, m.well); }
    }
  }

  lemma PickKeeps(p: Pool, w: nat)
    requires PoolInv(p) && Moves(p, Pick(w))
    ensures PoolInv(PoolStep(p, Pick(w)))
  {
    var q := PoolStep(p, Pick(w));
    assert forall v: nat, t: nat :: v != w ==> (Doing(q, v, t) <==> Doing(p, v, t));
    forall t: nat | t < q.next && t < q.tasks ensures t in q.ended || exists v: nat :: Doing(q, v, t) {
      if t < p.next {
        if t !in p.ended {
          var v: nat :| Doing(p, v, t);
          assert Doing(q, v, t);
        }
      } else {
        assert Doing(q, w, t);
      }
    }
  }

  lemma FinishKeeps(p: Pool, w: nat, well: bool)
    requires PoolInv(p) && Moves(p, Finish(w, well))
    ensures PoolInv(PoolStep(p, Finish(w, well)))
  {
    var q := PoolStep(p, Finish(w, well));
    var task := p.workers[w].task;
    assert Doing(p, w, task);
    assert forall v: nat, t: nat :: v != w ==> (Doing(q, v, t) <==> Doing(p, v, t));
    forall t: nat | t < q.next && t < q.tasks ensures t in q.ended || exists v: nat :: Doing(q, v, t) {
      if t !in q.ended {
        var v: nat :| Doing(p, v, t);
        assert Doing(q, v, t);
      }
    }
    assert q.ended[task] == well;
    assert forall t :: t in p.ended ==> t in q.ended && q.ended[t] == p.ended[t];
  }

  lemma {:induction false} PoolRunKeeps(p: Pool, moves: seq<Move>)
    requires PoolInv(p)
    ensures PoolInv(PoolRun(p, moves)) && PoolRun(p, moves).tasks == p.tasks
    decreases |moves|
  {
    hide PoolInv;
    if moves != [] {
      PoolRunKeeps(p, moves[..|moves| - 1]);
      PoolStepKeeps(PoolRun(p, moves[..|moves| - 1]), moves[|moves| - 1]);
    }
  }

  /**
   * However the workers interleave: when all have gone and no write failed, every
   * task has been written, and well; a failure is some task that ended badly.
   */
  lemma AllWritten(tasks: nat, concurrency: int, moves: seq<Move>)
    requires forall w: nat :: w < |PoolRun(PoolStart(tasks, concurrency), moves).workers| ==>
               PoolRun(PoolStart(tasks, concurrency), moves).workers[w].Gone?
    ensures var p := PoolRun(PoolStart(tasks, concurrency), moves);
            if p.failed then exists t :: t in p.ended && !p.ended[t]
            else forall t: nat :: t < tasks ==> t in p.ended && p.ended[t]
  {
    var p := PoolRun(PoolStart(tasks, concurrency), moves);
    PoolRunKeeps(PoolStart(tasks, concurrency), moves);
    hide PoolRun;
    if !p.failed {
      assert p.workers[0].Gone?;
      forall t: nat | t < tasks ensures t in p.ended && p.ended[t] {
        assert forall w: nat :: !Doing(p, w, t);
      }
    }
  }

  // ------------------------------------------------------------- the work comes to an end

  /** What a worker may still do before it goes. */
  function Ahead(w: Worker): nat { match w case Idle => 1 case Busy(_) => 2 case Gone => 0 }

  function AllAhead(workers: seq<Worker>): nat {
    if workers == [] then 0 else Ahead(workers[0]) + AllAhead(workers[1..])
  }

  lemma {:induction false} AheadChanges(workers: seq<Worker>, w: nat, x: Worker)
    requires w < |workers|
    ensures AllAhead(workers[w := x]) == AllAhead(workers) - Ahead(workers[w]) + Ahead(x)
  {
    hide Ahead;
    if w == 0 {
      assert workers[0 := x][1..] == workers[1..];
    } else {
      assert workers[w := x][1..] == workers[1..][w - 1 := x] && workers[w := x][0] == workers[0];
      AheadChanges(workers[1..], w - 1, x);
    }
  }

  function ToDo(p: Pool): nat { 2 * Max(0, p.tasks - p.next) + AllAhead(p.workers) }

  /** A move does nothing or brings the end nearer; and after a failure no task is begun. */
  lemma MoveAdvances(p: Pool, m: Move)
    ensures if Moves(p, m) then ToDo(PoolStep(p, m)) < ToDo(p) else PoolStep(p, m) == p
    ensures PoolStep(p, m).tasks == p.tasks && |PoolStep(p, m).workers| == |p.workers|
    ensures p.failed ==> PoolStep(p, m).next == p.next && PoolStep(p, m).failed
  {
    hide AllAhead;
    if Moves(p, m) {
      AheadChanges(p.workers, m.worker, Idle);
      AheadChanges(p.workers, m.worker, Gone);
      AheadChanges(p.workers, m.worker, Busy(p.next));
    }
  }

  /** Every one of the moves does something when its turn comes. */
  ghost predicate AllMove(p: Pool, moves: seq<Move>) {
    forall k :: 0 <= k < |moves| ==> Moves(PoolRun(p, moves[..k]), moves[k])
  }

  lemma {:induction false} RunAdvances(p: Pool, moves: seq<Move>)
    requires AllMove(p, moves)
    ensures ToDo(PoolRun(p, moves)) + |moves| <= ToDo(p)
    decreases |moves|
  {
    if moves != [] {
      var n := |moves| - 1;
      assert Moves(PoolRun(p, moves[..n]), moves[n]);
      assert forall k :: 0 <= k < n ==> moves[..n][..k] == moves[..k];
      hide ToDo, PoolStep, Moves;
      RunAdvances(p, moves[..n]);
      MoveAdvances(PoolRun(p, moves[..n]), moves[n]);
    }
  }

  lemma {:induction false} NobodyAhead(workers: seq<Worker>)
    ensures AllAhead(workers) <= 2 * |workers|
    ensures (forall w :: 0 <= w < |workers| ==> workers[w].Idle?) ==> AllAhead(workers) == |workers|
  {
    if workers != [] { NobodyAhead(workers[1..]); }
  }

  /**
   * However the workers interleave, as many of them as the concurrency says and at
   * least one, they come to an end: each task costs two moves and each worker one.
   * As long as not all have gone, one of them has a move to make.
   */
  lemma WorkEnds(tasks: nat, concurrency: int, moves: seq<Move>)
    requires AllMove(PoolStart(tasks, concurrency), moves)
    ensures |PoolStart(tasks, concurrency).workers| == if concurrency < 1 then 1 else concurrency
    ensures |moves| <= 2 * tasks + |PoolStart(tasks, concurrency).workers|
    ensures var p := PoolRun(PoolStart(tasks, concurrency), moves);
            (forall m: Move :: !Moves(p, m)) ==> forall w :: 0 <= w < |p.workers| ==> p.workers[w].Gone?
  {
    var p := PoolStart(tasks, concurrency);
    RunAdvances(p, moves);
    NobodyAhead(p.workers);
    hide PoolRun, AllAhead, PoolStart;
    var q := PoolRun(p, moves);
    if forall m: Move :: !Moves(q, m) {
      forall w | 0 <= w < |q.workers| ensures q.workers[w].Gone? {
        assert !Moves(q, Pick(w)) && !Moves(q, Finish(w, true));
      }
    }
  }

  /** A run goes on from where an earlier one ended, move by move. */
  lemma PoolRunNext(p: Pool, moves: seq<Move>, m: Move)
    ensures PoolRun(p, moves + [m]) == PoolStep(PoolRun(p, moves), m)
  {
    hide PoolStep;
    assert (moves + [m])[..|moves|] == moves;
  }
}
