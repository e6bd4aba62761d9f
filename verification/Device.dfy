/**
 * The in-memory device (src/device/memory.js): guest writes wait in a cache
 * until a flush puts them on the disk and into the open epoch.
 */
module Device {
  import opened Common
  import opened Chunker

  datatype GuestWrite = GuestWrite(offset: nat, bytes: Bytes)

  function RangeOf(w: GuestWrite): Range { Range(w.offset, |w.bytes|) }

  predicate Fits(w: GuestWrite, diskSize: nat) { w.offset + |w.bytes| <= diskSize }

  predicate AllFit(writes: seq<GuestWrite>, diskSize: nat) {
    forall k :: 0 <= k < |writes| ==> Fits(writes[k], diskSize)
  }

  /** The disk after the writes, in order. */
  function ApplyWrites(disk: Bytes, writes: seq<GuestWrite>): (r: Bytes)
    requires AllFit(writes, |disk|)
    ensures |r| == |disk|
    decreases |writes|
  {
    if writes == [] then disk
    else
      var n := |writes| - 1;
      WriteAt(ApplyWrites(disk, writes[..n]), writes[n].offset, writes[n].bytes)
  }

  function Ranges(writes: seq<GuestWrite>): seq<Range> {
    seq(|writes|, k requires 0 <= k < |writes| => RangeOf(writes[k]))
  }

  /** A chunk that no write touches is as it was. */
  lemma {:induction false} ApplyMisses(disk: Bytes, writes: seq<GuestWrite>, i: nat, chunkSize: int)
    requires chunkSize > 0 && AllFit(writes, |disk|) && i !in Touched(Ranges(writes), chunkSize)
    ensures SameChunk(ApplyWrites(disk, writes), disk, i, chunkSize)
    decreases |writes|
  {
    if writes != [] {
      var n := |writes| - 1;
      assert Ranges(writes) == Ranges(writes[..n]) + [RangeOf(writes[n])];
      TouchedAppend(Ranges(writes[..n]), [RangeOf(writes[n])], chunkSize);
      assert [RangeOf(writes[n])][1..] == [];
      hide SameChunk, WriteAt;
      ApplyMisses(disk, writes[..n], i, chunkSize);
      WriteMisses(ApplyWrites(disk, writes[..n]), writes[n].offset, writes[n].bytes, i, chunkSize);
      SameChunkOnward(ApplyWrites(disk, writes), ApplyWrites(disk, writes[..n]), disk, i, chunkSize);
    }
  }

  lemma SameChunkOnward(a: Bytes, b: Bytes, c: Bytes, i: nat, chunkSize: int)
    requires chunkSize > 0 && |a| == |b| == |c| && SameChunk(a, b, i, chunkSize) && SameChunk(b, c, i, chunkSize)
    ensures SameChunk(a, c, i, chunkSize)
  {
  }

  /** Chunks outside what was recorded meanwhile are as they were. */
  lemma BurstMisses(before: Bytes, writes: seq<GuestWrite>, epoch: seq<Range>, i: nat, chunkSize: int)
    requires chunkSize > 0 && AllFit(writes, |before|)
    requires i !in Touched(epoch + Ranges(writes), chunkSize)
    ensures SameChunk(ApplyWrites(before, writes), before, i, chunkSize) && i !in Touched(epoch, chunkSize)
  {
    TouchedAppend(epoch, Ranges(writes), chunkSize);
    ApplyMisses(before, writes, i, chunkSize);
  }

  /** The last write over a byte decides it. */
  lemma {:induction false} LastWriteDecides(disk: Bytes, writes: seq<GuestWrite>, j: nat, k: nat)
    requires AllFit(writes, |disk|) && j < |writes| && Covers(RangeOf(writes[j]), k)
    requires forall i :: j < i < |writes| ==> !Covers(RangeOf(writes[i]), k)
    ensures k < |disk| && ApplyWrites(disk, writes)[k] == writes[j].bytes[k - writes[j].offset]
    decreases |writes|
  {
    assert Fits(writes[j], |disk|);
    if j < |writes| - 1 { LastWriteDecides(disk, writes[..|writes| - 1], j, k); }
  }

  /** And what no write is over stays. */
  lemma {:induction false} UnwrittenStays(disk: Bytes, writes: seq<GuestWrite>, k: nat)
    requires AllFit(writes, |disk|) && k < |disk| && forall i :: 0 <= i < |writes| ==> !Covers(RangeOf(writes[i]), k)
    ensures ApplyWrites(disk, writes)[k] == disk[k]
    decreases |writes|
  {
    if writes != [] { UnwrittenStays(disk, writes[..|writes| - 1], k); }
  }

  class MemoryDevice {
    const diskSize: nat
    const bytes: array<byte>
    var epoch: seq<Range>
    var unflushed: seq<GuestWrite>

    ghost predicate Valid()
      reads this
    {
      bytes.Length == diskSize && AllFit(unflushed, diskSize) && WellPlaced(epoch, Some(diskSize))
    }

    function Contents(): Bytes
      reads bytes
    {
      bytes[..]
    }

    constructor (diskSize: nat, base: Bytes)
      ensures Valid() && fresh(bytes) && this.diskSize == diskSize
      ensures epoch == [] && unflushed == []
      ensures |base| == diskSize ==> Contents() == base
    {
      this.diskSize := diskSize;
      var buffer := new byte[diskSize](k => if 0 <= k < |base| then base[k] else 0);
      bytes := buffer;
      epoch, unflushed := [], [];
    }

    /** The guest writes; nothing reaches the disk until a flush. */
    method Write(offset: int, data: Bytes) returns (accepted: bool)
      requires Valid()
      modifies `unflushed
      ensures Valid()
      ensures accepted <==> 0 <= offset && offset + |data| <= diskSize
      ensures unflushed == if accepted then old(unflushed) + [GuestWrite(offset, data)] else old(unflushed)
    {
      if offset < 0 || offset + |data| > diskSize { return false; }
      unflushed := unflushed + [GuestWrite(offset, data)];
      return true;
    }

    /** `_bytes.set(data, offset)`. */
    method Set(offset: nat, data: Bytes)
      requires Valid() && offset + |data| <= diskSize
      modifies bytes
      ensures Contents() == WriteAt(old(Contents()), offset, data)
    {
      forall k | 0 <= k < |data| {
        bytes[offset + k] := data[k];
      }
    }

    method Flush()
      requires Valid()
      modifies this, bytes
      ensures Valid() && unflushed == []
      ensures Contents() == ApplyWrites(old(Contents()), old(unflushed))
      ensures epoch == old(epoch) + Ranges(old(unflushed))
    {
      for k := 0 to |unflushed|
        invariant Valid() && unflushed == old(unflushed)
        invariant Contents() == ApplyWrites(old(Contents()), old(unflushed)[..k])
        invariant epoch == old(epoch) + Ranges(old(unflushed)[..k])
      {
        var w := unflushed[k];
        assert unflushed[..k + 1][..k] == unflushed[..k];
        Set(w.offset, w.bytes);
        epoch := epoch + [Range(w.offset, |w.bytes|)];
      }
      assert old(unflushed)[..|unflushed|] == old(unflushed);
      unflushed := [];
    }

    /** The guest writes and its cache reaches the disk, all at once. */
    method Burst(writes: seq<GuestWrite>)
      requires Valid() && AllFit(writes, diskSize)
      modifies this, bytes
      ensures Valid() && unflushed == []
      ensures Contents() == ApplyWrites(old(Contents()), old(unflushed) + writes)
      ensures epoch == old(epoch) + Ranges(old(unflushed) + writes)
    {
      unflushed := unflushed + writes;
      Flush();
    }

    method Seal() returns (sealed: seq<Range>)
      requires Valid()
      modifies `epoch
      ensures Valid() && epoch == [] && sealed == old(epoch)
    {
      sealed := epoch;
      epoch := [];
    }

    /** Write without recording. */
    method WriteRaw(offset: int, data: Bytes) returns (accepted: bool)
      requires Valid()
      modifies bytes
      ensures Valid()
      ensures accepted <==> 0 <= offset && offset + |data| <= diskSize
      ensures Contents() == if accepted then WriteAt(old(Contents()), offset, data) else old(Contents())
    {
      if offset < 0 || offset + |data| > diskSize { return false; }
      Set(offset, data);
      return true;
    }

    method ReadChunk(i: nat, chunkSize: int) returns (r: Option<Bytes>)
      requires Valid() && chunkSize > 0
      ensures r.Some? <==> ChunkStart(i, chunkSize) < diskSize
      ensures r.Some? ==> r.value == Chunk(Contents(), i, chunkSize)
    {
      var offset := ChunkStart(i, chunkSize);
      if offset >= diskSize { return None; }
      return Some(bytes[offset..offset + ChunkLength(i, chunkSize, diskSize)]);
    }
  }
}
