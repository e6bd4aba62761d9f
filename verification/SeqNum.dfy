/**
 * Sequence numbers: 32 bits that wrap, compared by the shorter way round the
 * circle (src/net/wire.js:275-281).
 */
module SeqNum {
  import opened Common

  const MOD: int := 0x1_0000_0000
  const HALF: int := 0x8000_0000

  function SeqAdd(a: u32, b: int): u32 { (a + b) % MOD }

  /** `(a - b) >>> 0`. */
  function SeqDiff(a: u32, b: u32): u32 { (a - b) % MOD }

  predicate SeqLt(a: u32, b: u32) { SeqDiff(a, b) > HALF }

  predicate SeqLte(a: u32, b: u32) { a == b || SeqLt(a, b) }

  predicate SeqGt(a: u32, b: u32) { SeqLt(b, a) }

  predicate SeqGte(a: u32, b: u32) { a == b || SeqLt(b, a) }

  /** The number on the wire of position `i` in a stream that began at `base`. */
  function At(base: u32, i: int): u32 { (base + i) % MOD }

  lemma AtShift(base: u32, i: int, n: int)
    ensures SeqAdd(At(base, i), n) == At(base, i + n)
  {
  }

  lemma DiffAt(base: u32, i: int, j: int)
    ensures SeqDiff(At(base, i), At(base, j)) == (i - j) % MOD
  {
  }

  /** Positions less than a full circle apart have equal numbers only when they are equal. */
  lemma AtInjective(base: u32, i: int, j: int)
    requires -MOD < i - j < MOD
    ensures At(base, i) == At(base, j) <==> i == j
  {
    DiffAt(base, i, j);
  }

  lemma AtCircle(base: u32, i: int)
    ensures At(base, i + MOD) == At(base, i)
  {
  }

  /**
   * Exactly what the wrapping comparison says about two positions less than a
   * full circle apart: it is the true order up to half the circle, undecided at
   * exactly half, and reversed beyond.
   */
  lemma SeqLtExact(base: u32, i: int, j: int)
    requires -MOD < i - j < MOD
    ensures SeqLt(At(base, i), At(base, j)) <==> 0 < j - i < HALF || HALF < i - j
  {
    DiffAt(base, i, j);
  }

  /** Within half the circle every comparison agrees with the true order. */
  lemma SeqOrder(base: u32, i: int, j: int)
    requires -HALF < i - j < HALF
    ensures SeqLt(At(base, i), At(base, j)) <==> i < j
    ensures SeqLte(At(base, i), At(base, j)) <==> i <= j
    ensures SeqGt(At(base, i), At(base, j)) <==> i > j
    ensures SeqGte(At(base, i), At(base, j)) <==> i >= j
    ensures At(base, i) == At(base, j) <==> i == j
  {
    SeqLtExact(base, i, j);
    SeqLtExact(base, j, i);
    AtInjective(base, i, j);
  }

  /** Every number is some position at or after a given one, less than a circle away. */
  lemma AtOf(base: u32, i: int, a: u32)
    ensures a == At(base, i + SeqDiff(a, At(base, i)))
  {
  }

  /**
   * An acknowledgement number that is neither beyond `nxt` nor at or before
   * `una` is the number of a position between them, whoever sent it.
   */
  lemma WithinFlight(base: u32, una: int, nxt: int, ackNo: u32)
    requires 0 <= nxt - una < HALF
    requires !SeqGt(ackNo, At(base, nxt)) && SeqGt(ackNo, At(base, una))
    ensures var k := nxt - SeqDiff(At(base, nxt), ackNo);
            una < k <= nxt && ackNo == At(base, k)
  {
    var d := SeqDiff(ackNo, At(base, una));
    AtOf(base, una, ackNo);
    assert 0 <= d < MOD;
    hide At, SeqDiff, SeqLt;
    SeqLtExact(base, una, una + d);
    if d == 0 { AtInjective(base, una, una + d); }
    SeqLtExact(base, nxt, una + d);
    DiffAt(base, nxt, una + d);
    assert (nxt - (una + d)) % MOD == nxt - (una + d);
  }
}
