/**
 * One writer at a time (src/core/lease.js): a lease on a branch of its own,
 * arbitrated by the host's compare and swap. Any number of calls by any number
 * of holders interleave: each reads, checks, stamps and lands in separate steps,
 * with the clock and the other calls moving in between.
 */
module Lease {
  import opened Common

  type Holder = string

  datatype Record = Record(holder: Holder, held: bool, acquiredAt: int, renewedAt: int, expiresAt: int)

  /** The lease as it was read, and the commit it was read from. */
  datatype Seen = Seen(record: Record, commit: nat)

  datatype Op = Acquire | Renew | Release

  datatype Outcome =
    | Took(record: Record, commit: nat)
    | HeldByOther(holder: Holder, remaining: int)
    | NoLongerHeld
    | NothingToRelease
    | Raced(found: Option<Holder>)

  // ------------------------------------------------------------- the branch

  /** Every commit made, landed or not; the branch's head; the name counter. */
  datatype Branch = Branch(commits: map<nat, Record>, head: Option<nat>, n: nat)
  {
    function Read(): Option<Seen> {
      if head.Some? && head.value in commits then Some(Seen(commits[head.value], head.value)) else None
    }

    /** The commit is made in any case; the branch moves only from the parent. */
    function Commit(record: Record, parent: Option<nat>): (Branch, Option<nat>) {
      var made := this.(commits := commits[n + 2 := record], n := n + 2);
      if head != parent then (made, None) else (made.(head := Some(n + 2)), Some(n + 2))
    }
  }

  /** Why the call goes no further, if it does not. */
  function Refusal(op: Op, holder: Holder, seen: Option<Seen>, now: int): Option<Outcome> {
    match op
    case Acquire =>
      if seen.Some? && seen.value.record.holder != holder && seen.value.record.held && seen.value.record.expiresAt - now > 0
      then Some(HeldByOther(seen.value.record.holder, seen.value.record.expiresAt - now))
      else None
    case Renew =>
      if seen.None? || seen.value.record.holder != holder || !seen.value.record.held then Some(NoLongerHeld) else None
    case Release =>
      if seen.None? || seen.value.record.holder != holder then Some(NothingToRelease) else None
  }

  /** The record written at this moment. A zero `acquiredAt` counts as none. */
  function Stamped(op: Op, holder: Holder, seen: Option<Seen>, ttl: int, now: int): Record {
    Record(
      holder, !op.Release?,
      if seen.Some? && seen.value.record.holder == holder && seen.value.record.acquiredAt != 0
      then seen.value.record.acquiredAt else now,
      now,
      if op.Release? then now else now + ttl)
  }

  function ParentOf(seen: Option<Seen>): Option<nat> {
    if seen.None? then None else Some(seen.value.commit)
  }

  // ------------------------------------------------------------- interleaved calls

  datatype Phase =
    | Asked(seen: Option<Seen>)
    | Cleared(seen: Option<Seen>)
    | Writing(seen: Option<Seen>, record: Record)
    | Done(outcome: Outcome)

  datatype Call = Call(holder: Holder, op: Op, phase: Phase)

  /** A write that landed: the commit, what it was made from, and when. */
  datatype Landing = Landing(commit: nat, parent: Option<nat>, record: Record, at: int)

  /** The clock, the branch, the calls under way, and every landing so far. */
  datatype World = World(now: int, branch: Branch, calls: map<nat, Call>, landed: seq<Landing>)

  datatype Event =
    | Ask(call: nat, holder: Holder, op: Op)
    | Check(call: nat)
    | Stamp(call: nat)
    | Land(call: nat)
    | Tick(passed: nat)

  function With(w: World, call: nat, phase: Phase): World
    requires call in w.calls
  {
    w.(calls := w.calls[call := w.calls[call].(phase := phase)])
  }

  function Step(w: World, ttl: Holder -> int, e: Event): World {
    match e
    case Tick(passed) => w.(now := w.now + passed)
    case Ask(call, holder, op) => w.(calls := w.calls[call := Call(holder, op, Asked(w.branch.Read()))])
    case Check(call) =>
      if call !in w.calls || !w.calls[call].phase.Asked? then w
      else
        var c := w.calls[call];
        var refusal := Refusal(c.op, c.holder, c.phase.seen, w.now);
        With(w, call, if refusal.Some? then Done(refusal.value) else Cleared(c.phase.seen))
    case Stamp(call) =>
      if call !in w.calls || !w.calls[call].phase.Cleared? then w
      else
        var c := w.calls[call];
        With(w, call, Writing(c.phase.seen, Stamped(c.op, c.holder, c.phase.seen, ttl(c.holder), w.now)))
    case Land(call) =>
      if call !in w.calls || !w.calls[call].phase.Writing? then w
      else
        var c := w.calls[call];
        var parent := ParentOf(c.phase.seen);
        var (branch, commit) := w.branch.Commit(c.phase.record, parent);
        if commit.None? then
          var found := branch.Read();
          With(w.(branch := branch), call, Done(Raced(if found.None? then None else Some(found.value.record.holder))))
        else
          With(w.(branch := branch, landed := w.landed + [Landing(commit.value, parent, c.phase.record, w.now)]),
               call, Done(Took(c.phase.record, commit.value)))
  }

  function Run(w: World, ttl: Holder -> int, events: seq<Event>): World
    decreases |events|
  {
    if events == [] then w
    else Step(Run(w, ttl, events[..|events| - 1]), ttl, events[|events| - 1])
  }

  function Start(now: int): World { World(now, Branch(map[], None, 0), map[], []) }

  // ------------------------------------------------------------- what every step keeps

  /** Records carry the stamp they expire by. */
  ghost predicate WellStamped(r: Record, ttl: Holder -> int, now: int) {
    r.renewedAt <= now && (r.held ==> r.expiresAt == r.renewedAt + ttl(r.holder))
  }

  /** What was seen is a commit of the branch. */
  ghost predicate Genuine(b: Branch, seen: Option<Seen>) {
    seen.Some? ==> seen.value.commit in b.commits && b.commits[seen.value.commit] == seen.value.record
  }

  /** The call may go on: nobody else was in possession, as far as it had read. */
  ghost predicate Entitled(op: Op, holder: Holder, seen: Option<Seen>, now: int) {
    if seen.Some? && seen.value.record.holder != holder
    then op.Acquire? && (seen.value.record.held ==> seen.value.record.expiresAt <= now)
    else true
  }

  ghost predicate CallOk(b: Branch, ttl: Holder -> int, now: int, c: Call) {
    match c.phase
    case Asked(seen) => Genuine(b, seen)
    case Cleared(seen) => Genuine(b, seen) && Entitled(c.op, c.holder, seen, now)
    case Writing(seen, r) =>
      && Genuine(b, seen) && Entitled(c.op, c.holder, seen, now)
      && r.holder == c.holder && (r.held <==> !c.op.Release?) && WellStamped(r, ttl, now)
      && (seen.Some? ==> seen.value.record.renewedAt <= r.renewedAt)
    case Done(_) => true
  }

  /** `next` was written by somebody who had seen `last` and was entitled to go on. */
  ghost predicate Follows(last: Record, next: Landing) {
    && last.renewedAt <= next.record.renewedAt
    && (next.record.holder != last.holder ==> next.record.held && (last.held ==> last.expiresAt <= next.at))
  }

  /** Landings form one chain, each made from the one before, in the order of time. */
  ghost predicate Chain(landed: seq<Landing>, b: Branch, ttl: Holder -> int, now: int) {
    && (b.head == if landed == [] then None else Some(landed[|landed| - 1].commit))
    && (forall k :: 0 <= k < |landed| ==> LinkOk(landed, k, b, ttl, now))
  }

  ghost predicate LinkOk(landed: seq<Landing>, k: nat, b: Branch, ttl: Holder -> int, now: int)
    requires k < |landed|
  {
    && landed[k].commit in b.commits && b.commits[landed[k].commit] == landed[k].record
    && landed[k].at <= now && WellStamped(landed[k].record, ttl, now)
    && (k == 0 ==> landed[k].parent == None)
    && (k > 0 ==>
          && landed[k].parent == Some(landed[k - 1].commit) && landed[k - 1].commit < landed[k].commit
          && landed[k - 1].at <= landed[k].at && Follows(landed[k - 1].record, landed[k]))
  }

  ghost predicate Inv(w: World, ttl: Holder -> int) {
    && (forall k :: k in w.branch.commits ==> k <= w.branch.n)
    && (forall k :: k in w.branch.commits ==> w.branch.commits[k].renewedAt <= w.now)
    && Chain(w.landed, w.branch, ttl, w.now)
    && (forall k :: k in w.calls ==> CallOk(w.branch, ttl, w.now, w.calls[k]))
  }

  lemma StepKeeps(w: World, ttl: Holder -> int, e: Event)
    requires Inv(w, ttl)
    ensures Inv(Step(w, ttl, e), ttl)
  {
    match e
    case Tick(passed) => TickKeeps(w, ttl, passed);
    case Ask(call, holder, op) =>
    case Check(call) =>
    case Stamp(call) =>
    case Land(call) => LandKeeps(w, ttl, call);
  }

  lemma TickKeeps(w: World, ttl: Holder -> int, passed: nat)
    requires Inv(w, ttl)
    ensures Inv(w.(now := w.now + passed), ttl)
  {
    var later := w.now + passed;
    forall k | 0 <= k < |w.landed| ensures LinkOk(w.landed, k, w.branch, ttl, later) {
      assert LinkOk(w.landed, k, w.branch, ttl, w.now);
    }
  }

  lemma LandKeeps(w: World, ttl: Holder -> int, call: nat)
    requires Inv(w, ttl)
    ensures Inv(Step(w, ttl, Land(call)), ttl)
  {
    if call in w.calls && w.calls[call].phase.Writing? {
      var c := w.calls[call];
      assert CallOk(w.branch, ttl, w.now, c);
      var (branch, commit) := w.branch.Commit(c.phase.record, ParentOf(c.phase.seen));
      if commit.Some? {
        var next := Step(w, ttl, Land(call)).landed;
        forall k | 0 <= k < |next| ensures LinkOk(next, k, branch, ttl, w.now) {
          if k < |w.landed| { assert LinkOk(w.landed, k, w.branch, ttl, w.now); }
          else if k > 0 { assert LinkOk(w.landed, k - 1, w.branch, ttl, w.now); }
        }
      } else {
        forall k | 0 <= k < |w.landed| ensures LinkOk(w.landed, k, branch, ttl, w.now) {
          assert LinkOk(w.landed, k, w.branch, ttl, w.now);
        }
      }
    }
  }

  lemma {:induction false} RunKeeps(w: World, ttl: Holder -> int, events: seq<Event>)
    requires Inv(w, ttl)
    ensures Inv(Run(w, ttl, events), ttl)
    decreases |events|
  {
    if events != [] {
      RunKeeps(w, ttl, events[..|events| - 1]);
      StepKeeps(Run(w, ttl, events[..|events| - 1]), ttl, events[|events| - 1]);
    }
  }

  /** Every run from an unused branch keeps it. */
  lemma Reachable(now: int, ttl: Holder -> int, events: seq<Event>)
    ensures Inv(Run(Start(now), ttl, events), ttl)
  {
    RunKeeps(Start(now), ttl, events);
  }

  // ------------------------------------------------------------- exclusion

  lemma {:induction false} RenewedLater(w: World, ttl: Holder -> int, k: nat, j: nat)
    requires Inv(w, ttl) && k <= j < |w.landed|
    ensures w.landed[k].record.renewedAt <= w.landed[j].record.renewedAt && w.landed[k].at <= w.landed[j].at
    decreases j - k
  {
    if k < j {
      RenewedLater(w, ttl, k, j - 1);
      assert LinkOk(w.landed, j, w.branch, ttl, w.now);
    }
  }

  /** The landing is this holder giving the lease up. */
  ghost predicate GaveUp(l: Landing, holder: Holder) { l.record.holder == holder && !l.record.held }

  /**
   * Mutual exclusion: between a lease landing and its expiry nobody else's write
   * lands, unless the holder's own release landed first.
   */
  lemma {:induction false} Exclusion(w: World, ttl: Holder -> int, k: nat, j: nat)
    requires Inv(w, ttl) && k < j < |w.landed|
    requires w.landed[k].record.held && w.landed[j].record.holder != w.landed[k].record.holder
    requires w.landed[j].at < w.landed[k].record.expiresAt
    ensures exists r :: k < r < j && GaveUp(w.landed[r], w.landed[k].record.holder)
    decreases j
  {
    var holder := w.landed[k].record.holder;
    assert LinkOk(w.landed, j, w.branch, ttl, w.now);
    var last := w.landed[j - 1];
    if last.record.holder != holder {
      Exclusion(w, ttl, k, j - 1);
    } else {
      RenewedLater(w, ttl, k, j - 1);
      assert LinkOk(w.landed, k, w.branch, ttl, w.now) && LinkOk(w.landed, j - 1, w.branch, ttl, w.now);
      assert GaveUp(last, holder);
    }
  }

  /** Each commit is replaced at most once: of two calls that read the same commit, one lands. */
  lemma {:induction false} OneWinner(w: World, ttl: Holder -> int, i: nat, j: nat)
    requires Inv(w, ttl) && i < j < |w.landed|
    ensures w.landed[i].parent != w.landed[j].parent
  {
    assert LinkOk(w.landed, j, w.branch, ttl, w.now) && LinkOk(w.landed, i, w.branch, ttl, w.now);
    if i > 0 { CommitsGrow(w, ttl, i - 1, j - 1); }
  }

  lemma {:induction false} CommitsGrow(w: World, ttl: Holder -> int, i: nat, j: nat)
    requires Inv(w, ttl) && i < j < |w.landed|
    ensures w.landed[i].commit < w.landed[j].commit
    decreases j - i
  {
    assert LinkOk(w.landed, j, w.branch, ttl, w.now);
    if i < j - 1 { CommitsGrow(w, ttl, i, j - 1); }
  }

  /** Landings are never taken back. */
  lemma {:induction false} LandedStay(w: World, ttl: Holder -> int, events: seq<Event>)
    ensures w.landed <= Run(w, ttl, events).landed
    decreases |events|
  {
    if events != [] { LandedStay(w, ttl, events[..|events| - 1]); }
  }

  /**
   * What a holder may rely on: whatever the calls already under way go on to do,
   * until the lease expires the branch still says the holder has it, or the
   * holder has given it up.
   */
  lemma HeldUntilExpiry(w: World, ttl: Holder -> int, events: seq<Event>)
    requires Inv(w, ttl) && w.landed != []
    requires w.landed[|w.landed| - 1].record.held
    requires Run(w, ttl, events).now < w.landed[|w.landed| - 1].record.expiresAt
    ensures var k, later := |w.landed| - 1, Run(w, ttl, events);
            var holder := w.landed[k].record.holder;
            var seen := later.branch.Read();
            || (seen.Some? && seen.value.record.holder == holder && seen.value.record.held && seen.value.record.expiresAt > later.now)
            || exists r :: k < r < |later.landed| && GaveUp(later.landed[r], holder)
  {
    var k, later := |w.landed| - 1, Run(w, ttl, events);
    RunKeeps(w, ttl, events);
    LandedStay(w, ttl, events);
    var j := |later.landed| - 1;
    assert later.landed[k] == w.landed[k];
    var holder := w.landed[k].record.holder;
    assert LinkOk(later.landed, j, later.branch, ttl, later.now) && LinkOk(later.landed, k, later.branch, ttl, later.now);
    if later.landed[j].record.holder != holder {
      Exclusion(later, ttl, k, j);
      var r :| k < r < j && GaveUp(later.landed[r], holder);
      assert k < r < |later.landed| && GaveUp(later.landed[r], holder);
    } else if !later.landed[j].record.held {
      assert GaveUp(later.landed[j], holder);
    } else {
      RenewedLater(later, ttl, k, j);
    }
  }

  // ------------------------------------------------------------- one call at a time

  /** A whole call with nobody in between, checked at one moment and stamped at another. */
  function Attempt(b: Branch, op: Op, holder: Holder, ttl: int, checkedAt: int, stampedAt: int): (Branch, Outcome) {
    var seen := b.Read();
    var refusal := Refusal(op, holder, seen, checkedAt);
    if refusal.Some? then (b, refusal.value)
    else
      var record := Stamped(op, holder, seen, ttl, stampedAt);
      var (made, commit) := b.Commit(record, ParentOf(seen));
      if commit.None? then (made, Raced(if made.Read().None? then None else Some(made.Read().value.record.holder)))
      else (made, Took(record, commit.value))
  }

  /** Such a call is one run of the interleaved machine. */
  lemma AttemptIsRun(w: World, ttl: Holder -> int, call: nat, op: Op, holder: Holder, passed: nat)
    ensures var (branch, outcome) := Attempt(w.branch, op, holder, ttl(holder), w.now, w.now + passed);
            var after := Run(w, ttl, [Ask(call, holder, op), Check(call), Tick(passed), Stamp(call), Land(call)]);
            && after.branch == branch && after.now == w.now + passed
            && call in after.calls && after.calls[call] == Call(holder, op, Done(outcome))
  {
    RunFive(w, ttl, Ask(call, holder, op), Check(call), Tick(passed), Stamp(call), Land(call));
    hide Run, Branch.Read, Branch.Commit, Refusal, Stamped;
    var seen := w.branch.Read();
    var w1 := Step(w, ttl, Ask(call, holder, op));
    assert w1.calls[call] == Call(holder, op, Asked(seen));
    var w2 := Step(w1, ttl, Check(call));
    var w3 := Step(w2, ttl, Tick(passed));
    if Refusal(op, holder, seen, w.now).None? {
      assert w3.calls[call] == Call(holder, op, Cleared(seen));
    }
    var w4 := Step(w3, ttl, Stamp(call));
    if Refusal(op, holder, seen, w.now).None? {
      assert w4.calls[call] == Call(holder, op, Writing(seen, Stamped(op, holder, seen, ttl(holder), w.now + passed)));
    }
  }

  lemma RunFive(w: World, ttl: Holder -> int, a: Event, b: Event, c: Event, d: Event, e: Event)
    ensures Run(w, ttl, [a, b, c, d, e]) == Step(Step(Step(Step(Step(w, ttl, a), ttl, b), ttl, c), ttl, d), ttl, e)
  {
    hide Step;
    var events := [a, b, c, d, e];
    assert events[..0] == [] && Run(w, ttl, events[..0]) == w;
    hide Run;
    RunNext(w, ttl, events, 0);
    RunNext(w, ttl, events, 1);
    RunNext(w, ttl, events, 2);
    RunNext(w, ttl, events, 3);
    RunNext(w, ttl, events, 4);
    assert events[..5] == events;
  }

  lemma RunNext(w: World, ttl: Holder -> int, events: seq<Event>, k: nat)
    requires k < |events|
    ensures Run(w, ttl, events[..k + 1]) == Step(Run(w, ttl, events[..k]), ttl, events[k])
  {
    assert events[..k + 1][..k] == events[..k];
  }

  /** The head names a commit that was made. */
  ghost predicate BranchOk(b: Branch) {
    (forall k :: k in b.commits ==> k <= b.n) && (b.head.Some? ==> b.head.value in b.commits)
  }

  /** With nobody in between, taking a lease fails only on somebody else's that has not expired. */
  lemma AttemptSettles(b: Branch, op: Op, holder: Holder, ttl: int, checkedAt: int, stampedAt: int)
    requires BranchOk(b)
    ensures var (after, outcome) := Attempt(b, op, holder, ttl, checkedAt, stampedAt);
            var seen := b.Read();
            && BranchOk(after) && !outcome.Raced?
            && (op.Acquire? ==>
                  (outcome.Took? <==> seen.None? || seen.value.record.holder == holder || !seen.value.record.held ||
                                      seen.value.record.expiresAt <= checkedAt))
            && (outcome.Took? ==>
                  && after.Read() == Some(Seen(outcome.record, outcome.commit))
                  && outcome.record.holder == holder && (outcome.record.held <==> !op.Release?))
            && (!outcome.Took? ==> after == b)
  {
  }

  /**
   * When each call goes through with nobody in between, what it is told when it
   * does not, and what it writes when it does: the holder keeps the moment of the
   * first take, and a lease that has run out can still be renewed and released.
   */
  lemma AttemptOutcomes(b: Branch, op: Op, holder: Holder, ttl: int, checkedAt: int, stampedAt: int)
    requires BranchOk(b)
    ensures var outcome := Attempt(b, op, holder, ttl, checkedAt, stampedAt).1;
            var none := b.Read().None?;
            var r := if none then Record("", false, 0, 0, 0) else b.Read().value.record;
            var own := !none && r.holder == holder;
            && (outcome.HeldByOther? <==> op.Acquire? && !none && !own && r.held && checkedAt < r.expiresAt)
            && (outcome.HeldByOther? ==> outcome == HeldByOther(r.holder, r.expiresAt - checkedAt))
            && (outcome == NoLongerHeld <==> op.Renew? && !(own && r.held))
            && (outcome == NothingToRelease <==> op.Release? && !own)
            && (outcome.Took? ==>
                  && outcome.record.holder == holder && outcome.record.renewedAt == stampedAt
                  && outcome.record.acquiredAt == (if own && r.acquiredAt != 0 then r.acquiredAt else stampedAt)
                  && (if op.Release? then !outcome.record.held && outcome.record.expiresAt == stampedAt
                      else outcome.record.held && outcome.record.expiresAt == stampedAt + ttl))
  {
  }

  class LeaseHost {
    var commits: map<nat, Record>
    var head: Option<nat>
    var n: nat

    function Abs(): Branch
      reads this
    {
      Branch(commits, head, n)
    }

    constructor ()
      ensures Abs() == Branch(map[], None, 0)
    {
      commits, head, n := map[], None, 0;
    }

    method Commit(record: Record, parent: Option<nat>) returns (r: Option<nat>)
      modifies this
      ensures (Abs(), r) == old(Abs()).Commit(record, parent)
    {
      n := n + 2;
      commits := commits[n := record];
      if head != parent { return None; }
      head := Some(n);
      return Some(n);
    }
  }

  datatype Doubt = NothingHolds | OtherHolds(holder: Holder) | Expired(since: int)

  /** Why a writer must not write now, if it must not. */
  function Doubts(seen: Option<Seen>, holder: Holder, now: int): Option<Doubt> {
    if seen.None? || !seen.value.record.held then Some(NothingHolds)
    else if seen.value.record.holder != holder then Some(OtherHolds(seen.value.record.holder))
    else if seen.value.record.expiresAt <= now then Some(Expired(now - seen.value.record.expiresAt))
    else None
  }

  class Lease {
    const host: LeaseHost
    const holder: Holder
    const ttl: int
    var state: Option<Seen>

    constructor (host: LeaseHost, holder: Holder, ttl: int)
      ensures this.host == host && this.holder == holder && this.ttl == ttl && state.None?
    {
      this.host, this.holder, this.ttl, state := host, holder, ttl, None;
    }

    method Read() returns (seen: Option<Seen>)
      ensures seen == host.Abs().Read()
    {
      if host.head.None? || host.head.value !in host.commits { return None; }
      return Some(Seen(host.commits[host.head.value], host.head.value));
    }

    /** Write on the strength of what was read, whatever has become of the branch since. */
    method Write(op: Op, current: Option<Seen>, now: int) returns (outcome: Outcome)
      modifies this, host
      ensures var record := Stamped(op, holder, current, ttl, now);
              var (made, commit) := old(host.Abs()).Commit(record, ParentOf(current));
              && host.Abs() == made
              && (commit.Some? ==> outcome == Took(record, commit.value) && state == Some(Seen(record, commit.value)))
              && (commit.None? ==>
                    && state == old(state)
                    && outcome == Raced(if made.Read().None? then None else Some(made.Read().value.record.holder)))
    {
      var record := Stamped(op, holder, current, ttl, now);
      var landed := host.Commit(record, ParentOf(current));
      if landed.Some? {
        state := Some(Seen(record, landed.value));
        return Took(record, landed.value);
      }
      var found := Read();
      return Raced(if found.None? then None else Some(found.value.record.holder));
    }

    method Acquire(checkedAt: int, stampedAt: int) returns (outcome: Outcome)
      modifies this, host
      ensures (host.Abs(), outcome) == Attempt(old(host.Abs()), Op.Acquire, holder, ttl, checkedAt, stampedAt)
      ensures !outcome.Took? ==> state == old(state)
    {
      var current := Read();
      if current.Some? && current.value.record.holder != holder && current.value.record.held {
        var remaining := current.value.record.expiresAt - checkedAt;
        if remaining > 0 { return HeldByOther(current.value.record.holder, remaining); }
      }
      outcome := Write(Op.Acquire, current, stampedAt);
    }

    method Renew(checkedAt: int, stampedAt: int) returns (outcome: Outcome)
      modifies this, host
      ensures (host.Abs(), outcome) == Attempt(old(host.Abs()), Op.Renew, holder, ttl, checkedAt, stampedAt)
      ensures !outcome.Took? ==> state == old(state)
    {
      var current := Read();
      if current.None? || current.value.record.holder != holder || !current.value.record.held { return NoLongerHeld; }
      outcome := Write(Op.Renew, current, stampedAt);
    }

    method Release(checkedAt: int, stampedAt: int) returns (outcome: Outcome)
      modifies this, host
      ensures (host.Abs(), outcome) == Attempt(old(host.Abs()), Op.Release, holder, ttl, checkedAt, stampedAt)
      ensures !outcome.Took? ==> state == old(state)
    {
      var current := Read();
      if current.None? || current.value.record.holder != holder { return NothingToRelease; }
      outcome := Write(Op.Release, current, stampedAt);
    }

    /** The check a writer makes before writing. */
    method AssertHeld(now: int) returns (doubt: Option<Doubt>)
      ensures doubt == Doubts(host.Abs().Read(), holder, now)
    {
      var current := Read();
      if current.None? || !current.value.record.held { return Some(NothingHolds); }
      if current.value.record.holder != holder { return Some(OtherHolds(current.value.record.holder)); }
      if current.value.record.expiresAt <= now { return Some(Expired(now - current.value.record.expiresAt)); }
      return None;
    }
  }

  /**
   * A writer whose check passes is the only one whose check can pass, on every
   * later state of every run until the lease it saw expires or is given up.
   */
  lemma CheckedIsAlone(w: World, ttl: Holder -> int, events: seq<Event>, holder: Holder, other: Holder)
    requires Inv(w, ttl) && other != holder
    requires Doubts(w.branch.Read(), holder, w.now).None?
    requires Doubts(Run(w, ttl, events).branch.Read(), other, Run(w, ttl, events).now).None?
    ensures var k, later := |w.landed| - 1, Run(w, ttl, events);
            k >= 0 && (later.now >= w.landed[k].record.expiresAt ||
                       exists r :: k < r < |later.landed| && GaveUp(later.landed[r], holder))
  {
    var k := |w.landed| - 1;
    assert w.landed != [];
    assert LinkOk(w.landed, k, w.branch, ttl, w.now);
    if Run(w, ttl, events).now < w.landed[k].record.expiresAt { HeldUntilExpiry(w, ttl, events); }
  }

  /** After a call that went through: who may write, until when, and what anybody else is told. */
  lemma TookThenChecked(b: Branch, op: Op, holder: Holder, ttl: int, checkedAt: int, stampedAt: int, other: Holder, now: int)
    requires BranchOk(b) && other != holder
    requires Attempt(b, op, holder, ttl, checkedAt, stampedAt).1.Took?
    ensures var seen := Attempt(b, op, holder, ttl, checkedAt, stampedAt).0.Read();
            if op.Release? then Doubts(seen, holder, now) == Doubts(seen, other, now) == Some(NothingHolds)
            else
              && Doubts(seen, holder, now) == (if now < stampedAt + ttl then None else Some(Expired(now - (stampedAt + ttl))))
              && Doubts(seen, other, now) == Some(OtherHolds(holder))
  {
  }

  /**
   * The holder's check passes on every later state of every run, whatever the
   * other calls do, until the lease expires, unless the holder gives it up.
   */
  lemma HolderPasses(w: World, ttl: Holder -> int, events: seq<Event>)
    requires Inv(w, ttl) && w.landed != []
    requires w.landed[|w.landed| - 1].record.held
    requires Run(w, ttl, events).now < w.landed[|w.landed| - 1].record.expiresAt
    requires var k, later := |w.landed| - 1, Run(w, ttl, events);
             forall r :: k < r < |later.landed| ==> !GaveUp(later.landed[r], w.landed[k].record.holder)
    ensures var later := Run(w, ttl, events);
            Doubts(later.branch.Read(), w.landed[|w.landed| - 1].record.holder, later.now).None?
  {
    HeldUntilExpiry(w, ttl, events);
    hide Run, Inv;
  }
}
