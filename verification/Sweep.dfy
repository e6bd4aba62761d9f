/** What a chunk size costs for one recorded trace (src/analysis/sweep.js). */
module Sweep {
  import opened Common
  import opened Chunker

  /** The bytes of the device that the ranges write. */
  ghost function BytesOf(ranges: seq<Range>, diskSize: nat): set<nat> {
    set b: nat | b < diskSize && Written(ranges, b)
  }

  // ------------------------------------------------------------- sorting by offset

  predicate ByOffset(s: seq<Range>) {
    forall i, j :: 0 <= i < j < |s| ==> s[i].offset <= s[j].offset
  }

  function Insert(r: Range, s: seq<Range>): seq<Range> {
    if s == [] || r.offset < s[0].offset then [r] + s else [s[0]] + Insert(r, s[1..])
  }

  lemma {:induction false} InsertMembers(r: Range, s: seq<Range>)
    ensures multiset(Insert(r, s)) == multiset([r]) + multiset(s)
  {
    if s != [] && r.offset >= s[0].offset {
      InsertMembers(r, s[1..]);
      assert s == [s[0]] + s[1..];
    }
  }

  lemma {:induction false} InsertSorted(r: Range, s: seq<Range>)
    requires ByOffset(s)
    ensures ByOffset(Insert(r, s)) && Insert(r, s) != [] && Insert(r, s)[0] == if s != [] && r.offset >= s[0].offset then s[0] else r
  {
    if s != [] && r.offset >= s[0].offset {
      InsertSorted(r, s[1..]);
      hide Insert;
    }
  }

  /** A stable sort by offset. */
  function SortByOffset(s: seq<Range>): (t: seq<Range>)
    ensures ByOffset(t) && multiset(t) == multiset(s)
  {
    if s == [] then []
    else
      var sorted := SortByOffset(s[..|s| - 1]);
      InsertSorted(s[|s| - 1], sorted);
      InsertMembers(s[|s| - 1], sorted);
      assert s == s[..|s| - 1] + [s[|s| - 1]];
      Insert(s[|s| - 1], sorted)
  }

  lemma SameMembersSameBytes(s: seq<Range>, t: seq<Range>, diskSize: nat)
    requires multiset(s) == multiset(t)
    ensures BytesOf(s, diskSize) == BytesOf(t, diskSize)
  {
    forall b: nat ensures Written(s, b) <==> Written(t, b) {
      if k :| 0 <= k < |s| && Covers(s[k], b) {
        assert s[k] in multiset(t);
        var j :| 0 <= j < |t| && t[j] == s[k];
        assert Covers(t[j], b);
      }
      if k :| 0 <= k < |t| && Covers(t[k], b) {
        assert t[k] in multiset(s);
        var j :| 0 <= j < |s| && s[j] == t[k];
        assert Covers(s[j], b);
      }
    }
  }

  // ------------------------------------------------------------- distinct bytes

  lemma {:induction false} IntervalSize(lo: nat, hi: int)
    ensures |Interval(lo, hi)| == if hi < lo then 0 else hi - lo + 1
    decreases hi - lo
  {
    if hi < lo {
      assert Interval(lo, hi) == {};
    } else {
      assert Interval(lo, hi) == Interval(lo, hi - 1) + {hi as nat} by {
        forall i: nat ensures i in Interval(lo, hi) <==> i in Interval(lo, hi - 1) || i == hi {}
      }
      IntervalSize(lo, hi - 1);
    }
  }

  lemma BytesAppend(ranges: seq<Range>, r: Range, diskSize: nat)
    requires r.length > 0 ==> r.offset >= 0
    ensures BytesOf(ranges + [r], diskSize) == BytesOf(ranges, diskSize) + Interval(r.offset, Min(r.offset + r.length, diskSize) - 1)
  {
    forall b: nat ensures Written(ranges + [r], b) <==> Written(ranges, b) || Covers(r, b) {
      if Written(ranges, b) {
        var k :| 0 <= k < |ranges| && Covers(ranges[k], b);
        assert Covers((ranges + [r])[k], b);
      }
      if Covers(r, b) { assert Covers((ranges + [r])[|ranges|], b); }
    }
  }

  /** The sweep has reached `end`: everything counted lies before it, and nothing between the last offset and it is missing. */
  ghost predicate Reached(done: set<nat>, offset: int, end: int, diskSize: nat) {
    && -1 <= end <= diskSize
    && (forall b: nat :: b in done ==> b < end)
    && (forall b: nat :: offset <= b < end ==> b in done)
  }

  lemma SweepStep(done: set<nat>, last: int, end: int, r: Range, diskSize: nat)
    requires Reached(done, last, end, diskSize) && last <= r.offset && (r.length > 0 ==> r.offset >= 0)
    ensures var from, to := Max(r.offset, end), Min(r.offset + r.length, diskSize);
            var now := done + Interval(r.offset, to - 1);
            && |now| == |done| + (if to > from then to - from else 0)
            && Reached(now, r.offset, if to > end then to else end, diskSize)
  {
    var from, to := Max(r.offset, end), Min(r.offset + r.length, diskSize);
    var now := done + Interval(r.offset, to - 1);
    if to > from {
      var added := Interval(from, to - 1);
      assert now == done + added;
      assert done !! added;
      IntervalSize(from, to - 1);
    } else {
      assert now == done;
    }
  }

  /** Distinct bytes touched: for ranges in any order, overlapping, nested or empty, exactly how many bytes of the device are written. */
  method BytesTouched(ranges: seq<Range>, diskSize: nat) returns (total: nat)
    requires WellPlaced(ranges, None)
    ensures total == |BytesOf(ranges, diskSize)|
  {
    hide SortByOffset, BytesOf, Reached, Interval, WellPlaced, ByOffset, Written, Min;
    var sorted := SortByOffset(ranges);
    SameMembersSameBytes(ranges, sorted, diskSize);
    SortedPlaced(ranges, sorted);
    NothingYet(sorted, diskSize);
    total := 0;
    var end := -1;
    ghost var last := if sorted == [] then 0 else sorted[0].offset;
    for k := 0 to |sorted|
      invariant total == |BytesOf(sorted[..k], diskSize)|
      invariant Reached(BytesOf(sorted[..k], diskSize), last, end, diskSize)
      invariant k < |sorted| ==> last <= sorted[k].offset
    {
      var range := sorted[k];
      assert sorted[..k + 1] == sorted[..k] + [range];
      PlacedAt(sorted, k);
      BytesAppend(sorted[..k], range, diskSize);
      SweepStep(BytesOf(sorted[..k], diskSize), last, end, range, diskSize);
      var from := Max(range.offset, end);
      var to := Min(range.offset + range.length, diskSize);
      if to > from {
        total := total + (to - from);
        end := to;
      } else if to > end {
        end := to;
      }
      last := range.offset;
    }
    assert sorted[..|sorted|] == sorted;
  }

  lemma SortedPlaced(ranges: seq<Range>, sorted: seq<Range>)
    requires WellPlaced(ranges, None) && multiset(sorted) == multiset(ranges)
    ensures WellPlaced(sorted, None)
  {
    forall k | 0 <= k < |sorted| ensures RangeFault(sorted[k], None).None? {
      assert sorted[k] in multiset(ranges);
    }
  }

  lemma PlacedAt(sorted: seq<Range>, k: nat)
    requires WellPlaced(sorted, None) && ByOffset(sorted) && k < |sorted|
    ensures sorted[k].length > 0 ==> sorted[k].offset >= 0
    ensures k + 1 < |sorted| ==> sorted[k].offset <= sorted[k + 1].offset
  {
  }

  lemma NothingYet(sorted: seq<Range>, diskSize: nat)
    ensures BytesOf(sorted[..0], diskSize) == {} && forall offset :: Reached({}, offset, -1, diskSize)
  {
  }

  // ------------------------------------------------------------- what a chunk size uploads

  function SumLengths(indices: seq<nat>, chunkSize: int, diskSize: nat): int {
    if indices == [] then 0
    else ChunkLength(indices[0], chunkSize, diskSize) + SumLengths(indices[1..], chunkSize, diskSize)
  }

  /** The bytes that lie in these chunks of the device. */
  ghost function BytesIn(chunks: set<nat>, chunkSize: int, diskSize: nat): set<nat>
    requires chunkSize > 0
  {
    set b: nat | b < diskSize && b / chunkSize in chunks
  }

  datatype Cost = Cost(
    chunkSize: int, chunks: nat, totalChunks: nat, uploadedBytes: int, touchedBytes: nat,
    amplification: real, requests: nat)

  /** Uploaded bytes over written ones, where any were written. */
  function Amplification(uploaded: int, touched: nat): (r: real)
    ensures r * touched as real == if touched == 0 then 0.0 else uploaded as real
  {
    if touched == 0 then 0.0 else uploaded as real / touched as real
  }

  /** The price of one chunk size: dirty chunks are sent whole, a request each, and three more. */
  method CostAt(ranges: seq<Range>, diskSize: nat, chunkSize: int) returns (r: Result<Cost, RangeError>)
    ensures r.Ok? <==> chunkSize > 0 && WellPlaced(ranges, Some(diskSize))
    ensures r.Ok? ==>
              var dirty := Touched(ranges, chunkSize);
              && r.value.uploadedBytes == |BytesIn(dirty, chunkSize, diskSize)|
              && r.value.touchedBytes == |BytesOf(ranges, diskSize)|
              && r.value.chunks == |dirty| && r.value.requests == |dirty| + 3
              && r.value.chunkSize == chunkSize && r.value.totalChunks == ChunkCount(diskSize, chunkSize)
              && r.value.amplification == Amplification(|BytesIn(dirty, chunkSize, diskSize)|, |BytesOf(ranges, diskSize)|)
  {
    var checked := DirtyChunks(ranges, chunkSize, Some(diskSize));
    if checked.Err? { return Err(checked.error); }
    var indices := checked.value;
    assert WellPlaced(ranges, None);
    var uploadedBytes := TotalLength(indices, chunkSize, diskSize);
    var touched := BytesTouched(ranges, diskSize);
    TouchedOnDisk(ranges, chunkSize, diskSize);
    hide Touched, WellPlaced, Sorted, ChunkLength, ChunkStart, BytesOf, BytesIn, ChunkCount, SumLengths, Amplification;
    SumIsBytes(indices, Touched(ranges, chunkSize), chunkSize, diskSize);
    return Ok(Cost(
                chunkSize, |indices|, ChunkCount(diskSize, chunkSize), uploadedBytes, touched,
                Amplification(uploadedBytes, touched), |indices| + 3));
  }

  method TotalLength(indices: seq<nat>, chunkSize: int, diskSize: nat) returns (total: int)
    ensures total == SumLengths(indices, chunkSize, diskSize)
  {
    hide ChunkLength;
    total := 0;
    for k := 0 to |indices|
      invariant total == SumLengths(indices[..k], chunkSize, diskSize)
    {
      SumLengthsAppend(indices[..k], indices[k], chunkSize, diskSize);
      assert indices[..k + 1] == indices[..k] + [indices[k]];
      total := total + ChunkLength(indices[k], chunkSize, diskSize);
    }
    assert indices[..|indices|] == indices;
  }

  lemma {:induction false} SumLengthsAppend(s: seq<nat>, i: nat, chunkSize: int, diskSize: nat)
    ensures SumLengths(s + [i], chunkSize, diskSize) == SumLengths(s, chunkSize, diskSize) + ChunkLength(i, chunkSize, diskSize)
  {
    if s == [] {
      assert [i][1..] == [];
    } else {
      assert (s + [i])[1..] == s[1..] + [i];
      SumLengthsAppend(s[1..], i, chunkSize, diskSize);
    }
  }

  lemma TouchedOnDisk(ranges: seq<Range>, chunkSize: int, diskSize: nat)
    requires chunkSize > 0 && WellPlaced(ranges, Some(diskSize))
    ensures forall i :: i in Touched(ranges, chunkSize) ==> ChunkStart(i, chunkSize) < diskSize
  {
    forall i | i in Touched(ranges, chunkSize) ensures ChunkStart(i, chunkSize) < diskSize {
      assert WellPlaced(ranges, None);
      TouchedExact(ranges, chunkSize, i);
      var b: nat :| Written(ranges, b) && b / chunkSize == i;
      DivBounds(b, chunkSize);
    }
  }

  lemma OneChunkSize(i: nat, chunkSize: int, diskSize: nat)
    requires chunkSize > 0 && ChunkStart(i, chunkSize) < diskSize
    ensures |BytesIn({i}, chunkSize, diskSize)| == ChunkLength(i, chunkSize, diskSize)
  {
    var start, n := ChunkStart(i, chunkSize), ChunkLength(i, chunkSize, diskSize);
    forall b: nat ensures b in BytesIn({i}, chunkSize, diskSize) <==> b in Interval(start, start + n - 1) {
      DivBounds(b, chunkSize);
      if start <= b < start + chunkSize { DivIs(b, chunkSize, i); }
    }
    assert BytesIn({i}, chunkSize, diskSize) == Interval(start, start + n - 1);
    IntervalSize(start, start + n - 1);
  }

  /** Adding up the lengths of distinct chunks counts the bytes in them. */
  lemma {:induction false} SumIsBytes(indices: seq<nat>, chunks: set<nat>, chunkSize: int, diskSize: nat)
    requires chunkSize > 0 && Increasing(indices) && forall i :: i in indices <==> i in chunks
    requires forall i :: i in chunks ==> ChunkStart(i, chunkSize) < diskSize
    ensures SumLengths(indices, chunkSize, diskSize) == |BytesIn(chunks, chunkSize, diskSize)|
  {
    if indices == [] {
      assert BytesIn(chunks, chunkSize, diskSize) == {};
    } else {
      hide ChunkStart, ChunkLength;
      var i := indices[0];
      assert i in indices;
      var rest := chunks - {i};
      forall j ensures j in indices[1..] <==> j in rest {
        if j in rest { assert j in indices; }
        if j in indices[1..] { assert j in indices; }
      }
      SumIsBytes(indices[1..], rest, chunkSize, diskSize);
      OneChunkSize(i, chunkSize, diskSize);
      var one, others := BytesIn({i}, chunkSize, diskSize), BytesIn(rest, chunkSize, diskSize);
      assert BytesIn(chunks, chunkSize, diskSize) == one + others;
      assert one !! others;
    }
  }

  // ------------------------------------------------------------- the trade-off

  lemma {:induction false} SubsetSize(a: set<nat>, b: set<nat>)
    requires a <= b
    ensures |a| <= |b|
    decreases |a|
  {
    if a != {} {
      var x :| x in a;
      SubsetSize(a - {x}, b - {x});
    }
  }

  function Quotient(x: nat, m: int): nat
    requires m > 0
  {
    x / m
  }

  /** When every element of `b` is a quotient of one of `a`, `b` is no larger. */
  lemma {:induction false} QuotientSize(a: set<nat>, b: set<nat>, m: int)
    requires m > 0 && forall y :: y in b ==> exists x :: x in a && Quotient(x, m) == y
    ensures |b| <= |a|
    decreases |b|
  {
    hide Quotient;
    if b != {} {
      var y :| y in b;
      var x :| x in a && Quotient(x, m) == y;
      forall z | z in b - {y} ensures exists w :: w in a - {x} && Quotient(w, m) == z {
        var w :| w in a && Quotient(w, m) == z;
        assert w in a - {x};
      }
      QuotientSize(a - {x}, b - {y}, m);
    }
  }

  lemma Regroup(p: int, m: int, c: int, cm: int)
    requires cm == c * m
    ensures (p * m) * c == p * cm && (p * m + m) * c == p * cm + cm
  {
  }

  lemma DivDiv(b: nat, c: int, m: int, cm: int)
    requires c > 0 && m > 0 && cm == c * m
    ensures cm > 0 && b / cm == Quotient(b / c, m)
  {
    var q := b / c;
    var p := q / m;
    DivBounds(b, c);
    DivBounds(q, m);
    MulLe(p * m, q, c);
    MulLe(q + 1, p * m + m, c);
    Regroup(p, m, c, cm);
    assert (q + 1) * c == q * c + c;
    DivIs(b, cm, p);
  }

  /** Bytes written lie in the dirty chunks. */
  lemma TouchedWithinUploaded(ranges: seq<Range>, diskSize: nat, c: int)
    requires c > 0 && WellPlaced(ranges, Some(diskSize))
    ensures |BytesOf(ranges, diskSize)| <= |BytesIn(Touched(ranges, c), c, diskSize)|
  {
    assert WellPlaced(ranges, None);
    forall b | b in BytesOf(ranges, diskSize) ensures b in BytesIn(Touched(ranges, c), c, diskSize) {
      TouchedExact(ranges, c, b / c);
    }
    SubsetSize(BytesOf(ranges, diskSize), BytesIn(Touched(ranges, c), c, diskSize));
  }

  /** A byte in a dirty chunk lies in a dirty chunk of any multiple of the size. */
  lemma DirtyCoarser(ranges: seq<Range>, c: int, m: int, cm: int, b: nat)
    requires c > 0 && m > 0 && cm > 0 && cm == c * m && WellPlaced(ranges, None)
    requires b / c in Touched(ranges, c)
    ensures b / cm in Touched(ranges, cm)
  {
    TouchedExact(ranges, c, b / c);
    var w: nat :| Written(ranges, w) && w / c == b / c;
    DivDiv(b, c, m, cm);
    DivDiv(w, c, m, cm);
    hide Touched, Quotient, Written;
    TouchedExact(ranges, cm, b / cm);
  }

  /** A dirty chunk of a multiple of the size contains a dirty chunk. */
  lemma DirtyFiner(ranges: seq<Range>, c: int, m: int, cm: int, y: nat)
    requires c > 0 && m > 0 && cm > 0 && cm == c * m && WellPlaced(ranges, None)
    requires y in Touched(ranges, cm)
    ensures exists x :: x in Touched(ranges, c) && Quotient(x, m) == y
  {
    hide Touched, Quotient, Written;
    TouchedExact(ranges, cm, y);
    var w: nat :| Written(ranges, w) && w / cm == y;
    DivNat(w, c);
    var x: nat := w / c;
    TouchedExact(ranges, c, x);
    DivDiv(w, c, m, cm);
    assert x in Touched(ranges, c) && Quotient(x, m) == y;
  }

  lemma DivNat(w: nat, c: int)
    requires c > 0
    ensures w / c >= 0
  {
  }

  /**
   * Chunk size `c` against a multiple of it: the smaller sends no more bytes,
   * the larger makes no more requests, whatever the trace and wherever the
   * device ends.
   */
  lemma TradeOff(ranges: seq<Range>, diskSize: nat, c: int, m: int, cm: int)
    requires c > 0 && m > 0 && cm > 0 && cm == c * m && WellPlaced(ranges, Some(diskSize))
    ensures |BytesIn(Touched(ranges, c), c, diskSize)| <= |BytesIn(Touched(ranges, cm), cm, diskSize)|
    ensures |Touched(ranges, cm)| <= |Touched(ranges, c)|
  {
    assert WellPlaced(ranges, None);
    hide Touched, Quotient, WellPlaced;
    var fine, coarse := Touched(ranges, c), Touched(ranges, cm);
    var few, many := BytesIn(fine, c, diskSize), BytesIn(coarse, cm, diskSize);
    forall b | b in few ensures b in many {
      DirtyCoarser(ranges, c, m, cm, b);
    }
    SubsetSize(few, many);
    forall y | y in coarse ensures exists x :: x in fine && Quotient(x, m) == y {
      DirtyFiner(ranges, c, m, cm, y);
    }
    QuotientSize(fine, coarse, m);
  }
}
