/**
 * The write log of the emulator device (src/device/v86.js): ranges are
 * coalesced in place as they are recorded, and a sealed log is handed over and
 * never touched again.
 */
module Capture {
  import opened Common
  import opened Chunker

  /** The two logs write exactly the same bytes. */
  ghost predicate SameBytes(a: seq<Range>, b: seq<Range>) {
    forall k: int :: Written(a, k) <==> Written(b, k)
  }

  /** A write that starts within or right at the end of the previous one. */
  predicate Touching(last: Range, offset: int) {
    last.offset <= offset <= last.offset + last.length
  }

  /** Two writes touch exactly when the later one starts no earlier and leaves no byte between them unwritten. */
  lemma TouchingExactly(last: Range, next: Range)
    requires last.length > 0 && next.length > 0
    ensures Touching(last, next.offset) <==>
              last.offset <= next.offset && forall b: int :: last.offset <= b < next.offset ==> Covers(last, b)
  {
    if last.offset + last.length < next.offset { assert !Covers(last, next.offset - 1); }
  }

  lemma WrittenAppend(log: seq<Range>, r: Range, b: int)
    ensures Written(log + [r], b) <==> Written(log, b) || Covers(r, b)
  {
    if Written(log, b) {
      var k :| 0 <= k < |log| && Covers(log[k], b);
      assert Covers((log + [r])[k], b);
    }
    if Covers(r, b) { assert Covers((log + [r])[|log|], b); }
  }

  /** Logs that write the same bytes dirty the same chunks, listed in the same order. */
  lemma SameBytesSameChunks(a: seq<Range>, b: seq<Range>, chunkSize: int)
    requires chunkSize > 0 && SameBytes(a, b) && WellPlaced(a, None) && WellPlaced(b, None)
    ensures Sorted(Touched(a, chunkSize)) == Sorted(Touched(b, chunkSize))
  {
    forall i: nat ensures i in Touched(a, chunkSize) <==> i in Touched(b, chunkSize) {
      TouchedExact(a, chunkSize, i);
      TouchedExact(b, chunkSize, i);
    }
    assert Touched(a, chunkSize) == Touched(b, chunkSize);
  }

  /** One entry of the log, whose length grows when the next write touches it. */
  class Entry {
    const offset: nat
    var length: int

    constructor (offset: nat, length: int)
      ensures this.offset == offset && this.length == length
    {
      this.offset, this.length := offset, length;
    }

    function Value(): Range
      reads this
    {
      Range(offset, length)
    }
  }

  function Values(log: seq<Entry>): seq<Range>
    reads log
  {
    seq(|log|, k requires 0 <= k < |log| reads log => log[k].Value())
  }

  /** A log that is never coalesced: an entry for each write of at least one byte. */
  function RawLog(writes: seq<(nat, int)>): seq<Range>
    decreases |writes|
  {
    if writes == [] then []
    else
      var (offset, length) := writes[|writes| - 1];
      RawLog(writes[..|writes| - 1]) + if length > 0 then [Range(offset, length)] else []
  }

  /** The log covers what was written, write by write. */
  lemma {:induction false} RawLogWrites(writes: seq<(nat, int)>, b: int)
    ensures Written(RawLog(writes), b) <==> exists k :: 0 <= k < |writes| && Covers(Range(writes[k].0, writes[k].1), b)
    decreases |writes|
  {
    if writes != [] {
      var n := |writes| - 1;
      var (offset, length) := writes[n];
      RawLogWrites(writes[..n], b);
      if length > 0 {
        WrittenAppend(RawLog(writes[..n]), Range(offset, length), b);
      } else {
        assert RawLog(writes) == RawLog(writes[..n]);
      }
      assert forall k :: 0 <= k < n ==> writes[..n][k] == writes[k];
      if k :| 0 <= k < |writes| && Covers(Range(writes[k].0, writes[k].1), b) && k < n {
        assert Covers(Range(writes[..n][k].0, writes[..n][k].1), b);
      }
    }
  }

  class CaptureLog {
    var epoch: seq<Entry>
    /** Every write since the last seal, just as it came. */
    ghost var raw: seq<Range>

    ghost function Entries(): set<Entry>
      reads this
    {
      set e | e in epoch
    }

    ghost predicate Valid()
      reads this, Entries()
    {
      && SameBytes(Values(epoch), raw)
      && (forall k :: 0 <= k < |raw| ==> raw[k].length > 0 && raw[k].offset >= 0)
      && (forall j, k :: 0 <= j < k < |epoch| ==> epoch[j] != epoch[k])
    }

    constructor ()
      ensures Valid() && epoch == [] && raw == []
    {
      epoch, raw := [], [];
    }

    /** Record a write, into the last entry when they touch. Only the open epoch's entries are modified. */
    method Record(offset: nat, length: int)
      requires Valid()
      modifies this, Entries()
      ensures Valid()
      ensures raw == if length <= 0 then old(raw) else old(raw) + [Range(offset, length)]
      ensures fresh(Entries() - old(Entries()))
      ensures |epoch| <= old(|epoch|) + 1
      ensures length > 0 && old(epoch) != [] && Touching(old(Values(epoch))[old(|epoch|) - 1], offset) ==> epoch == old(epoch)
    {
      if length <= 0 { return; }
      ghost var before := Values(epoch);
      ghost var r := Range(offset, length);
      raw := raw + [r];
      if |epoch| > 0 {
        var last := epoch[|epoch| - 1];
        if offset <= last.offset + last.length && offset >= last.offset {
          ghost var was := last.Value();
          last.length := Max(last.length, offset + length - last.offset);
          ghost var front := before[..|before| - 1];
          assert Values(epoch) == front + [last.Value()];
          assert before == front + [was];
          forall b: int ensures Written(Values(epoch), b) <==> Written(raw, b) {
            WrittenAppend(front, last.Value(), b);
            WrittenAppend(front, was, b);
            WrittenAppend(old(raw), r, b);
          }
          return;
        }
      }
      var e := new Entry(offset, length);
      epoch := epoch + [e];
      assert Values(epoch) == before + [r];
      forall b: int ensures Written(Values(epoch), b) <==> Written(raw, b) {
        WrittenAppend(before, r, b);
        WrittenAppend(old(raw), r, b);
      }
    }

    lemma BothPlaced()
      requires Valid()
      ensures SameBytes(Values(epoch), raw) && WellPlaced(Values(epoch), None) && WellPlaced(raw, None)
    {
      hide SameBytes;
    }

    /** Record a series of writes: the coalesced log dirties the chunks the uncoalesced one would. */
    method RecordAll(writes: seq<(nat, int)>, chunkSize: int)
      requires Valid() && chunkSize > 0
      modifies this, Entries()
      ensures Valid() && SameBytes(Values(epoch), raw)
      ensures raw == old(raw) + RawLog(writes)
      ensures Sorted(Touched(Values(epoch), chunkSize)) == Sorted(Touched(old(raw) + RawLog(writes), chunkSize))
      ensures fresh(Entries() - old(Entries()))
    {
      hide SameBytes, Touched, Sorted, Values;
      for k := 0 to |writes|
        invariant Valid()
        invariant raw == old(raw) + RawLog(writes[..k])
        invariant fresh(Entries() - old(Entries()))
      {
        assert writes[..k + 1][..k] == writes[..k];
        Record(writes[k].0, writes[k].1);
      }
      assert writes[..|writes|] == writes;
      BothPlaced();
      SameBytesSameChunks(Values(epoch), raw, chunkSize);
    }

    /** Close the epoch: what was recorded is handed over, and a new one begins. */
    method Seal() returns (sealed: seq<Entry>)
      requires Valid()
      modifies this
      ensures Valid() && epoch == [] && raw == []
      ensures sealed == old(epoch) && Values(sealed) == old(Values(epoch))
      ensures SameBytes(Values(sealed), old(raw))
    {
      sealed := epoch;
      epoch := [];
      raw := [];
    }
  }

  /**
   * A sealed log, however much is recorded afterwards, still names exactly the
   * chunks the raw log names.
   */
  method SealThenRecord(log: CaptureLog, more: seq<(nat, int)>, chunkSize: int) returns (sealed: seq<Entry>)
    requires log.Valid() && chunkSize > 0
    modifies log, log.Entries()
    ensures Values(sealed) == old(Values(log.epoch))
    ensures Sorted(Touched(Values(sealed), chunkSize)) == old(Sorted(Touched(log.raw, chunkSize)))
  {
    hide Touched, Sorted;
    SameBytesSameChunks(Values(log.epoch), log.raw, chunkSize);
    sealed := log.Seal();
    log.RecordAll(more, chunkSize);
  }
}
