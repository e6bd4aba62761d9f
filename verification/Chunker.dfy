/**
 * Write ranges projected onto chunks (src/core/chunker.js), and what a disk
 * looks like chunk by chunk.
 */
module Chunker {
  import opened Common

  datatype Range = Range(offset: int, length: int)

  datatype RangeError = BadChunkSize | NegativeOffset | PastEnd

  // ------------------------------------------------------------- sorting a set

  predicate Increasing(s: seq<nat>) {
    forall i, j :: 0 <= i < j < |s| ==> s[i] < s[j]
  }

  function SetMin(s: set<nat>): (m: nat)
    requires s != {}
    ensures m in s && forall x :: x in s ==> m <= x
  {
    MinExists(s);
    var m :| m in s && forall x :: x in s ==> m <= x;
    m
  }

  lemma MinExists(s: set<nat>)
    requires s != {}
    ensures exists m :: m in s && forall x :: x in s ==> m <= x
  {
    var x :| x in s;
    MinBelow(s, x);
  }

  lemma {:induction false} MinBelow(s: set<nat>, x: nat)
    requires x in s
    ensures exists m :: m in s && forall y :: y in s ==> m <= y
    decreases x
  {
    if y :| y in s && y < x { MinBelow(s, y); }
  }

  /** The members of a set, ascending. */
  function Sorted(s: set<nat>): (r: seq<nat>)
    ensures Increasing(r)
    ensures forall x :: x in r <==> x in s
    ensures |r| == |s|
    decreases |s|
  {
    if s == {} then []
    else
      var m := SetMin(s);
      [m] + Sorted(s - {m})
  }

  // ------------------------------------------------------------- dirty chunks

  /** The range writes byte `b`. */
  predicate Covers(r: Range, b: int) { r.offset <= b < r.offset + r.length }

  ghost predicate Written(ranges: seq<Range>, b: int) {
    exists k :: 0 <= k < |ranges| && Covers(ranges[k], b)
  }

  /** What `dirtyChunks` refuses, if anything. */
  function RangeFault(r: Range, diskSize: Option<nat>): Option<RangeError> {
    if r.length <= 0 then None
    else if r.offset < 0 then Some(NegativeOffset)
    else if diskSize.Some? && r.offset + r.length > diskSize.value then Some(PastEnd)
    else None
  }

  predicate WellPlaced(ranges: seq<Range>, diskSize: Option<nat>) {
    forall k :: 0 <= k < |ranges| ==> RangeFault(ranges[k], diskSize).None?
  }

  /** A range is refused exactly when it writes a byte that is not on the disk, and as negative when the first one is. */
  lemma FaultExactly(r: Range, diskSize: Option<nat>)
    ensures RangeFault(r, diskSize).None? <==>
              forall b: int :: Covers(r, b) ==> 0 <= b && (diskSize.Some? ==> b < diskSize.value)
    ensures RangeFault(r, diskSize) == Some(NegativeOffset) <==> Covers(r, r.offset) && r.offset < 0
  {
    if r.length > 0 { assert Covers(r, r.offset) && Covers(r, r.offset + r.length - 1); }
  }

  predicate Between(lo: int, i: int, hi: int) { lo <= i <= hi }

  function Interval(lo: int, hi: int): set<nat> {
    set i: nat | lo <= i <= hi && Between(lo, i, hi)
  }

  /** The chunks a well-placed range meets. */
  function Span(r: Range, chunkSize: int): set<nat>
    requires chunkSize > 0
  {
    if r.length <= 0 || r.offset < 0 then {}
    else Interval(r.offset / chunkSize, (r.offset + r.length - 1) / chunkSize)
  }

  function Touched(ranges: seq<Range>, chunkSize: int): set<nat>
    requires chunkSize > 0
  {
    if ranges == [] then {} else Span(ranges[0], chunkSize) + Touched(ranges[1..], chunkSize)
  }

  lemma DivBounds(b: nat, c: int)
    requires c > 0
    ensures 0 <= b / c && (b / c) * c <= b < (b / c) * c + c
  {
  }

  lemma DivIs(b: nat, c: int, q: int)
    requires c > 0 && q * c <= b < q * c + c
    ensures b / c == q
  {
    DivBounds(b, c);
    var p := b / c;
    if p < q { MulLe(p + 1, q, c); } else if q < p { MulLe(q + 1, p, c); }
  }

  lemma MulLe(a: int, b: int, c: int)
    requires a <= b && c >= 0
    ensures a * c <= b * c
  {
  }

  lemma DivMonotone(a: nat, b: nat, c: int)
    requires c > 0 && a <= b
    ensures a / c <= b / c
  {
    DivBounds(a, c);
    DivBounds(b, c);
    if b / c < a / c { MulLe(b / c + 1, a / c, c); }
  }

  lemma IntervalIs(lo: int, hi: int, i: nat)
    ensures i in Interval(lo, hi) <==> lo <= i <= hi
  {
    assert Between(lo, i, hi) <==> lo <= i <= hi;
  }

  /** A byte of each chunk between the first and the last. */
  lemma ByteBetween(first: nat, last: nat, i: nat, chunkSize: int) returns (b: nat)
    requires chunkSize > 0 && first <= last && first / chunkSize <= i <= last / chunkSize
    ensures first <= b <= last && b / chunkSize == i
  {
    DivBounds(first, chunkSize);
    DivBounds(last, chunkSize);
    if i == first / chunkSize {
      b := first;
    } else {
      b := i * chunkSize;
      var p := first / chunkSize;
      assert (p + 1) * chunkSize == p * chunkSize + chunkSize;
      MulLe(p + 1, i, chunkSize);
      MulLe(i, last / chunkSize, chunkSize);
      DivIs(b, chunkSize, i);
    }
  }

  /** A chunk is in the span of a range exactly when one of its bytes is written. */
  lemma SpanExact(r: Range, chunkSize: int, i: nat)
    requires chunkSize > 0 && (r.length > 0 ==> r.offset >= 0)
    ensures i in Span(r, chunkSize) <==> exists b: nat :: Covers(r, b) && b / chunkSize == i
  {
    if r.length > 0 {
      var last := r.offset + r.length - 1;
      IntervalIs(r.offset / chunkSize, last / chunkSize, i);
      hide Interval;
      if i in Span(r, chunkSize) {
        var b := ByteBetween(r.offset, last, i, chunkSize);
        assert Covers(r, b) && b / chunkSize == i;
      }
      forall b: nat | Covers(r, b) && b / chunkSize == i ensures i in Span(r, chunkSize) {
        DivMonotone(r.offset, b, chunkSize);
        DivMonotone(b, last, chunkSize);
      }
    }
  }

  /** The dirty chunks are exactly those with a written byte in them. */
  lemma {:induction false} TouchedExact(ranges: seq<Range>, chunkSize: int, i: nat)
    requires chunkSize > 0 && WellPlaced(ranges, None)
    ensures i in Touched(ranges, chunkSize) <==> exists b: nat :: Written(ranges, b) && b / chunkSize == i
    decreases |ranges|
  {
    if ranges != [] {
      SpanExact(ranges[0], chunkSize, i);
      TouchedExact(ranges[1..], chunkSize, i);
      if i in Span(ranges[0], chunkSize) {
        var b: nat :| Covers(ranges[0], b) && b / chunkSize == i;
        assert Written(ranges, b);
      } else if i in Touched(ranges[1..], chunkSize) {
        var b: nat :| Written(ranges[1..], b) && b / chunkSize == i;
        var k :| 0 <= k < |ranges[1..]| && Covers(ranges[1..][k], b);
        assert Covers(ranges[k + 1], b);
        assert Written(ranges, b);
      }
      forall b: nat | Written(ranges, b) && b / chunkSize == i ensures i in Touched(ranges, chunkSize) {
        var k :| 0 <= k < |ranges| && Covers(ranges[k], b);
        if k > 0 { assert Covers(ranges[1..][k - 1], b); assert Written(ranges[1..], b); }
      }
    }
  }

  lemma {:induction false} TouchedAppend(a: seq<Range>, b: seq<Range>, chunkSize: int)
    requires chunkSize > 0
    ensures Touched(a + b, chunkSize) == Touched(a, chunkSize) + Touched(b, chunkSize)
  {
    if a == [] {
      assert a + b == b;
    } else {
      assert (a + b)[1..] == a[1..] + b;
      TouchedAppend(a[1..], b, chunkSize);
    }
  }

  /** Ranges projected onto chunk indices: refused when one is misplaced, else sorted and without repetition. */
  method DirtyChunks(
      ranges: seq<Range>, chunkSize: int, diskSize: Option<nat>) returns (r: Result<seq<nat>, RangeError>)
    ensures r.Ok? <==> chunkSize > 0 && WellPlaced(ranges, diskSize)
    ensures r.Ok? ==> r.value == Sorted(Touched(ranges, chunkSize))
    ensures r.Err? && chunkSize > 0 ==>
              exists k :: 0 <= k < |ranges| && RangeFault(ranges[k], diskSize) == Some(r.error) &&
                          WellPlaced(ranges[..k], diskSize)
  {
    if chunkSize <= 0 { return Err(BadChunkSize); }
    hide Span, Touched, Sorted, Interval, WellPlaced;
    var seen: set<nat> := {};
    NothingTouched(ranges, chunkSize, diskSize);
    for k := 0 to |ranges|
      invariant WellPlaced(ranges[..k], diskSize)
      invariant seen == Touched(ranges[..k], chunkSize)
    {
      TouchedNext(ranges, k, chunkSize);
      WellPlacedNext(ranges, k, diskSize);
      var more := AddRange(seen, ranges[k], chunkSize, diskSize);
      if more.Err? { return Err(more.error); }
      seen := more.value;
    }
    assert ranges[..|ranges|] == ranges;
    return Ok(Sorted(seen));
  }

  /** One range: refused, skipped when it is empty, or its chunks added. */
  method AddRange(
      before: set<nat>, range: Range, chunkSize: int, diskSize: Option<nat>) returns (r: Result<set<nat>, RangeError>)
    requires chunkSize > 0
    ensures r.Err? ==> RangeFault(range, diskSize) == Some(r.error)
    ensures r.Ok? ==> RangeFault(range, diskSize).None? && r.value == before + Span(range, chunkSize)
  {
    hide Interval;
    if range.length <= 0 { return Ok(before); }
    if range.offset < 0 { return Err(NegativeOffset); }
    if diskSize.Some? && range.offset + range.length > diskSize.value { return Err(PastEnd); }
    DivMonotone(range.offset, range.offset + range.length - 1, chunkSize);
    var first, last := range.offset / chunkSize, (range.offset + range.length - 1) / chunkSize;
    var seen := AddInterval(before, first, last);
    return Ok(seen);
  }

  /** The inner loop: every index from `first` to `last`. */
  method AddInterval(before: set<nat>, first: nat, last: nat) returns (seen: set<nat>)
    requires first <= last
    ensures seen == before + Interval(first, last)
  {
    seen := before;
    var i := first;
    while i <= last
      invariant first <= i <= last + 1
      invariant seen == before + Interval(first, i - 1)
    {
      assert forall j: nat :: j in Interval(first, i) <==> j in Interval(first, i - 1) || j == i;
      seen := seen + {i};
      i := i + 1;
    }
  }

  lemma NothingTouched(ranges: seq<Range>, chunkSize: int, diskSize: Option<nat>)
    requires chunkSize > 0
    ensures Touched(ranges[..0], chunkSize) == {} && WellPlaced(ranges[..0], diskSize)
  {
  }

  lemma TouchedNext(ranges: seq<Range>, k: nat, chunkSize: int)
    requires chunkSize > 0 && k < |ranges|
    ensures Touched(ranges[..k + 1], chunkSize) == Touched(ranges[..k], chunkSize) + Span(ranges[k], chunkSize)
  {
    assert ranges[..k + 1] == ranges[..k] + [ranges[k]];
    TouchedAppend(ranges[..k], [ranges[k]], chunkSize);
    assert [ranges[k]][1..] == [];
  }

  lemma WellPlacedNext(ranges: seq<Range>, k: nat, diskSize: Option<nat>)
    requires k < |ranges| && WellPlaced(ranges[..k], diskSize)
    ensures WellPlaced(ranges[..k + 1], diskSize) <==> RangeFault(ranges[k], diskSize).None?
    ensures RangeFault(ranges[k], diskSize).Some? ==> !WellPlaced(ranges, diskSize)
  {
    assert ranges[..k + 1][k] == ranges[k];
    assert forall j :: 0 <= j < k ==> ranges[..k + 1][j] == ranges[..k][j];
  }

  // ------------------------------------------------------------- disks, chunk by chunk

  /** How many chunks there are, the last one perhaps cut short. */
  function ChunkCount(diskSize: nat, chunkSize: int): nat
    requires chunkSize > 0
  {
    (diskSize + chunkSize - 1) / chunkSize
  }

  function ChunkStart(i: nat, chunkSize: int): (start: int)
    ensures chunkSize >= 0 ==> start >= 0
  {
    i * chunkSize
  }

  function ChunkLength(i: nat, chunkSize: int, diskSize: nat): int {
    Min(chunkSize, diskSize - ChunkStart(i, chunkSize))
  }

  /** A chunk lies on the device exactly when its index is below the count. */
  lemma ChunkOnDisk(i: nat, chunkSize: int, diskSize: nat)
    requires chunkSize > 0
    ensures ChunkStart(i, chunkSize) < diskSize <==> i < ChunkCount(diskSize, chunkSize)
  {
    var n := ChunkCount(diskSize, chunkSize);
    DivBounds(diskSize + chunkSize - 1, chunkSize);
    if i < n { MulLe(i + 1, n, chunkSize); } else { MulLe(n, i, chunkSize); }
  }

  function Chunk(disk: Bytes, i: nat, chunkSize: int): (r: Bytes)
    requires chunkSize > 0 && ChunkStart(i, chunkSize) < |disk|
    ensures |r| == ChunkLength(i, chunkSize, |disk|)
  {
    disk[ChunkStart(i, chunkSize)..ChunkStart(i, chunkSize) + ChunkLength(i, chunkSize, |disk|)]
  }

  function WriteAt(disk: Bytes, offset: nat, bytes: Bytes): (r: Bytes)
    requires offset + |bytes| <= |disk|
    ensures |r| == |disk|
  {
    disk[..offset] + bytes + disk[offset + |bytes|..]
  }

  ghost predicate SameChunk(a: Bytes, b: Bytes, i: nat, chunkSize: int)
    requires chunkSize > 0 && |a| == |b|
  {
    ChunkStart(i, chunkSize) < |a| ==> Chunk(a, i, chunkSize) == Chunk(b, i, chunkSize)
  }

  lemma SameByte(a: Bytes, b: Bytes, i: nat, k: nat, chunkSize: int)
    requires chunkSize > 0 && |a| == |b| && k < |a| && SameChunk(a, b, i, chunkSize)
    requires ChunkStart(i, chunkSize) <= k < ChunkStart(i, chunkSize) + chunkSize
    ensures a[k] == b[k]
  {
    var start := ChunkStart(i, chunkSize);
    assert Chunk(a, i, chunkSize)[k - start] == a[k] && Chunk(b, i, chunkSize)[k - start] == b[k];
  }

  /** Disks that agree on every chunk are the same disk. */
  lemma SameDisk(a: Bytes, b: Bytes, chunkSize: int)
    requires chunkSize > 0 && |a| == |b| && forall i: nat :: SameChunk(a, b, i, chunkSize)
    ensures a == b
  {
    hide SameChunk;
    forall k | 0 <= k < |a| ensures a[k] == b[k] {
      DivBounds(k, chunkSize);
      SameByte(a, b, k / chunkSize, k, chunkSize);
    }
  }

  /** A write leaves every chunk outside its span alone. */
  lemma WriteMisses(disk: Bytes, offset: nat, bytes: Bytes, i: nat, chunkSize: int)
    requires chunkSize > 0 && offset + |bytes| <= |disk|
    requires i !in Span(Range(offset, |bytes|), chunkSize)
    ensures SameChunk(WriteAt(disk, offset, bytes), disk, i, chunkSize)
  {
    if ChunkStart(i, chunkSize) < |disk| {
      var r := Range(offset, |bytes|);
      var start := ChunkStart(i, chunkSize);
      var a, b := Chunk(WriteAt(disk, offset, bytes), i, chunkSize), Chunk(disk, i, chunkSize);
      forall k | 0 <= k < |b| ensures a[k] == b[k] {
        DivIs(start + k, chunkSize, i);
        SpanExact(r, chunkSize, i);
        assert !Covers(r, start + k);
      }
    }
  }

  /** Writing a whole chunk in its place changes that chunk to it and no other. */
  lemma WriteChunk(disk: Bytes, i: nat, bytes: Bytes, j: nat, chunkSize: int)
    requires chunkSize > 0 && ChunkStart(i, chunkSize) < |disk| && |bytes| == ChunkLength(i, chunkSize, |disk|)
    ensures var d := WriteAt(disk, ChunkStart(i, chunkSize), bytes);
            && Chunk(d, i, chunkSize) == bytes
            && (j != i ==> SameChunk(d, disk, j, chunkSize))
  {
    var start := ChunkStart(i, chunkSize);
    if j != i {
      if j in Span(Range(start, |bytes|), chunkSize) {
        SpanExact(Range(start, |bytes|), chunkSize, j);
        var b: nat :| Covers(Range(start, |bytes|), b) && b / chunkSize == j;
        DivIs(b, chunkSize, i);
      }
      WriteMisses(disk, start, bytes, j, chunkSize);
    }
  }
}
