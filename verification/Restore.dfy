/**
 * Rebuilding a disk from a commit alone (src/core/machine.js, `restore`), from a
 * source that may answer anything.
 */
module Restore {
  import opened Common
  import opened Chunker
  import opened Repo
  import opened Device

  datatype RestoreError =
    | NoManifest | MissingObject | WrongManifest | BadManifest | NoBase
    | ChunkMismatch | Undecryptable | OutOfRange

  /**
   * Who answers: the object API and an optional CDN in front of it. The first
   * argument numbers the requests, so that the same question may be answered
   * differently each time.
   */
  datatype Source = Source(api: (nat, Id) -> Option<Bytes>, cdn: Option<(nat, Id) -> Option<Bytes>>)
  {
    /** The CDN when it has the object, otherwise the API. */
    function Fetch(request: nat, id: Id): Option<Bytes> {
      if cdn.Some? && cdn.value(request, id).Some? then cdn.value(request, id) else api(request, id)
    }
  }

  function Zeros(n: nat): (r: Bytes)
    ensures |r| == n
  {
    seq(n, k => 0)
  }

  /** The image made as long as the disk: cut, or zeros behind it. */
  function Sized(image: Bytes, n: nat): (r: Bytes)
    ensures |r| == n
  {
    seq(n, k requires 0 <= k < n => if k < |image| then image[k] else 0)
  }

  /** The base image as it is fetched: zeros, or what the address gives. */
  function BaseImage(url: string, blank: bool, diskSize: nat, fetchBase: Option<string -> Bytes>): (r: Result<Bytes, RestoreError>)
    ensures r.Ok? ==> |r.value| == diskSize
  {
    if blank then Ok(Zeros(diskSize))
    else if fetchBase.None? then Err(NoBase)
    else Ok(Sized(fetchBase.value(url), diskSize))
  }

  /** What is fetched, byte by byte: the image cut to the disk, or zeros behind its end; and nothing is fetched for a blank one. */
  lemma BaseIs(url: string, n: nat, fetchBase: Option<string -> Bytes>, k: nat)
    requires k < n
    ensures BaseImage(url, true, n, fetchBase).Ok? && BaseImage(url, true, n, fetchBase).value[k] == 0
    ensures fetchBase.None? <==> BaseImage(url, false, n, fetchBase) == Err(NoBase)
    ensures fetchBase.Some? ==>
              var image := fetchBase.value(url);
              BaseImage(url, false, n, fetchBase).value[k] == if k < |image| then image[k] else 0
  {
  }

  /** The image is what a restore is given: all zeros for a blank base, otherwise what the address gives. */
  ghost predicate Supplies(url: string, blank: bool, image: Bytes, fetchBase: Option<string -> Bytes>) {
    if blank then forall k :: 0 <= k < |image| ==> image[k] == 0
    else fetchBase.Some? && fetchBase.value(url) == image
  }

  lemma Supplied(url: string, blank: bool, image: Bytes, fetchBase: Option<string -> Bytes>)
    requires Supplies(url, blank, image, fetchBase)
    ensures BaseImage(url, blank, |image|, fetchBase) == Ok(image)
  {
    var r := BaseImage(url, blank, |image|, fetchBase);
    assert r.Ok? && |r.value| == |image|;
    forall k | 0 <= k < |image| ensures r.value[k] == image[k] { BaseIs(url, |image|, fetchBase, k); }
    hide BaseImage;
    assert r.value == image;
  }

  function LoadBase(m: Manifest, fetchBase: Option<string -> Bytes>): (r: Result<Bytes, RestoreError>)
    ensures r.Ok? ==> |r.value| == m.diskSize
  {
    BaseImage(m.base, m.baseIsBlank, m.diskSize, fetchBase)
  }

  /** Nothing is checked when the manifest records no digest for the chunk. */
  predicate Verified(c: Codec, m: Manifest, i: nat, stored: Bytes) {
    i in m.digests ==> m.digests[i] == c.sha256(stored)
  }

  /** One chunk fetched, verified, deciphered and put in its place. */
  function PutChunk(
      c: Codec, m: Manifest, i: nat, request: nat, source: Source, disk: Bytes): (r: Result<Bytes, RestoreError>)
    requires i in m.chunks
    ensures r.Ok? ==> |r.value| == |disk|
  {
    var stored := source.Fetch(request, m.chunks[i]);
    if stored.None? then Err(MissingObject)
    else if !Verified(c, m, i, stored.value) then Err(ChunkMismatch)
    else
      var plaintext := c.decrypt(stored.value);
      if plaintext.None? then Err(Undecryptable)
      else if ChunkStart(i, m.chunkSize) >= m.diskSize then Err(OutOfRange)
      else if ChunkStart(i, m.chunkSize) + |plaintext.value| > |disk| then Err(OutOfRange)
      else
        Ok(WriteAt(disk, ChunkStart(i, m.chunkSize), plaintext.value))
  }

  /**
   * A chunk is put exactly when it is there, is the one recorded, deciphers and
   * fits, starting before the end; and then only over its own bytes.
   */
  lemma PutExactly(c: Codec, m: Manifest, i: nat, request: nat, source: Source, disk: Bytes)
    requires i in m.chunks && |disk| == m.diskSize
    ensures var r := PutChunk(c, m, i, request, source, disk);
            var stored := source.Fetch(request, m.chunks[i]);
            var start := ChunkStart(i, m.chunkSize);
            && (r.Ok? <==>
                  && stored.Some? && (i in m.digests ==> m.digests[i] == c.sha256(stored.value))
                  && c.decrypt(stored.value).Some? && start < |disk| && start + |c.decrypt(stored.value).value| <= |disk|)
            && (r.Ok? ==>
                  var piece := c.decrypt(stored.value).value;
                  forall k :: 0 <= k < |disk| ==> r.value[k] == if start <= k < start + |piece| then piece[k - start] else disk[k])
  {
  }

  predicate Indexed(m: Manifest, indices: seq<nat>) {
    forall k :: 0 <= k < |indices| ==> indices[k] in m.chunks
  }

  /** The chunks in this order, the k-th with request k + 1; the manifest was request 0. */
  function PutChunks(
      c: Codec, m: Manifest, indices: seq<nat>, source: Source, disk: Bytes): (r: Result<Bytes, RestoreError>)
    requires Indexed(m, indices)
    ensures r.Ok? ==> |r.value| == |disk|
    decreases |indices|
  {
    if indices == [] then Ok(disk)
    else
      var n := |indices| - 1;
      var before := PutChunks(c, m, indices[..n], source, disk);
      if before.Err? then before
      else PutChunk(c, m, indices[n], n + 1, source, before.value)
  }

  /** The manifest the source offers, as long as it is the one pinned. */
  function ReadManifest(
      c: Codec, entries: seq<Entry>, source: Source, pin: Option<Digest>): Result<Manifest, RestoreError>
  {
    var id := FindManifest(entries);
    if id.None? then Err(NoManifest)
    else
      var bytes := source.api(0, id.value);
      if bytes.None? then Err(MissingObject)
      else if pin.Some? && c.sha256(bytes.value) != pin.value then Err(WrongManifest)
      else
        var m := c.parse(bytes.value);
        if m.None? then Err(BadManifest) else Ok(m.value)
  }

  function RestoreSpec(
      c: Codec, entries: seq<Entry>, source: Source, fetchBase: Option<string -> Bytes>, pin: Option<Digest>)
      : Result<Bytes, RestoreError>
  {
    var m := ReadManifest(c, entries, source, pin);
    if m.Err? then Err(m.error)
    else
      var base := LoadBase(m.value, fetchBase);
      if base.Err? then base
      else PutChunks(c, m.value, Sorted(m.value.chunks.Keys), source, base.value)
  }

  /** The same, filling one buffer in place. */
  method RestoreDisk(
      c: Codec, entries: seq<Entry>, source: Source, fetchBase: Option<string -> Bytes>, pin: Option<Digest>)
      returns (r: Result<Bytes, RestoreError>)
    ensures r == RestoreSpec(c, entries, source, fetchBase, pin)
  {
    var read := ReadManifest(c, entries, source, pin);
    if read.Err? { return Err(read.error); }
    var m := read.value;
    var base := LoadBase(m, fetchBase);
    if base.Err? { return base; }
    var indices := Sorted(m.chunks.Keys);
    r := FillDisk(c, m, indices, source, base.value);
  }

  method FillDisk(
      c: Codec, m: Manifest, indices: seq<nat>, source: Source, base: Bytes) returns (r: Result<Bytes, RestoreError>)
    requires Indexed(m, indices) && |base| == m.diskSize
    ensures r == PutChunks(c, m, indices, source, base)
  {
    hide PutChunks, PutChunk;
    var disk := new MemoryDevice(m.diskSize, base);
    PutNone(c, m, source, base);
    for k := 0 to |indices|
      invariant disk.Valid() && fresh(disk.bytes) && disk.diskSize == m.diskSize
      invariant PutChunks(c, m, indices[..k], source, base) == Ok(disk.Contents())
    {
      ghost var before := disk.Contents();
      var failed := PutInPlace(c, m, indices[k], k + 1, source, disk);
      PutNext(c, m, indices, k, source, base);
      if failed.Some? {
        FailsOnward(c, m, indices, k + 1, source, base);
        return Err(failed.value);
      }
    }
    assert indices[..|indices|] == indices;
    return Ok(disk.Contents());
  }

  /** One chunk, written into the buffer unless something is wrong with it. */
  method PutInPlace(
      c: Codec, m: Manifest, i: nat, request: nat, source: Source, disk: MemoryDevice)
      returns (failed: Option<RestoreError>)
    requires i in m.chunks && disk.Valid() && disk.diskSize == m.diskSize
    modifies disk.bytes
    ensures var put := PutChunk(c, m, i, request, source, old(disk.Contents()));
            if failed.Some? then put == Err(failed.value) && disk.Contents() == old(disk.Contents())
            else put == Ok(disk.Contents())
  {
    hide WriteAt;
    var stored := source.Fetch(request, m.chunks[i]);
    if stored.None? { return Some(MissingObject); }
    if !Verified(c, m, i, stored.value) { return Some(ChunkMismatch); }
    var plaintext := c.decrypt(stored.value);
    if plaintext.None? { return Some(Undecryptable); }
    var offset := ChunkStart(i, m.chunkSize);
    if offset >= m.diskSize { return Some(OutOfRange); }
    if offset + |plaintext.value| > m.diskSize { return Some(OutOfRange); }
    disk.Set(offset, plaintext.value);
    return None;
  }

  lemma PutNone(c: Codec, m: Manifest, source: Source, disk: Bytes)
    ensures PutChunks(c, m, [], source, disk) == Ok(disk)
  {
  }

  lemma PutNext(c: Codec, m: Manifest, indices: seq<nat>, k: nat, source: Source, disk: Bytes)
    requires Indexed(m, indices) && k < |indices|
    ensures Indexed(m, indices[..k]) && Indexed(m, indices[..k + 1])
    ensures var before := PutChunks(c, m, indices[..k], source, disk);
            PutChunks(c, m, indices[..k + 1], source, disk) ==
              if before.Err? then before else PutChunk(c, m, indices[k], k + 1, source, before.value)
  {
    hide PutChunk;
    assert indices[..k + 1][..k] == indices[..k];
  }

  /** The first failure is the outcome. */
  lemma {:induction false} FailsOnward(c: Codec, m: Manifest, indices: seq<nat>, k: nat, source: Source, disk: Bytes)
    requires k <= |indices| && Indexed(m, indices) && Indexed(m, indices[..k])
    requires PutChunks(c, m, indices[..k], source, disk).Err?
    ensures PutChunks(c, m, indices, source, disk) == PutChunks(c, m, indices[..k], source, disk)
    decreases |indices| - k
  {
    if k == |indices| {
      assert indices[..k] == indices;
    } else {
      hide PutChunks, PutChunk;
      PutNext(c, m, indices, k, source, disk);
      FailsOnward(c, m, indices, k + 1, source, disk);
    }
  }

  // ------------------------------------------------------------- what comes back

  function Members(s: seq<nat>): set<nat> { set i | i in s }

  /** `disk` has the target's chunks where they have been put and the base's everywhere else. */
  ghost predicate Half(disk: Bytes, target: Bytes, base: Bytes, put: set<nat>, chunkSize: int)
    requires chunkSize > 0 && |disk| == |target| == |base|
  {
    forall i: nat :: SameChunk(disk, if i in put then target else base, i, chunkSize)
  }

  /** A source whose answer for this chunk is what the digest was taken of puts the target's chunk on the disk. */
  lemma PutRight(
      c: Codec, m: Manifest, i: nat, request: nat, source: Source, disk: Bytes, target: Bytes, base: Bytes,
      put: set<nat>)
    requires c.Sound() && m.chunkSize > 0 && |disk| == |target| == |base| == m.diskSize
    requires i in m.chunks && ChunkStart(i, m.chunkSize) < |target|
    requires source.Fetch(request, m.chunks[i]) == Some(c.encrypt(Chunk(target, i, m.chunkSize)))
    requires i in m.digests ==> m.digests[i] == c.sha256(c.encrypt(Chunk(target, i, m.chunkSize)))
    requires Half(disk, target, base, put, m.chunkSize)
    ensures var r := PutChunk(c, m, i, request, source, disk);
            r.Ok? && Half(r.value, target, base, put + {i}, m.chunkSize)
  {
    var piece := Chunk(target, i, m.chunkSize);
    var d := WriteAt(disk, ChunkStart(i, m.chunkSize), piece);
    forall j: nat ensures SameChunk(d, if j in put + {i} then target else base, j, m.chunkSize) {
      WriteChunk(disk, i, piece, j, m.chunkSize);
      if j != i {
        hide SameChunk, WriteAt;
        SameChunkOnward(d, disk, if j in put then target else base, j, m.chunkSize);
      }
    }
  }

  /** The k-th request of this restore is answered with the bytes that were stored. */
  ghost predicate Answered(c: Codec, m: Manifest, indices: seq<nat>, k: nat, source: Source, target: Bytes)
    requires k < |indices|
  {
    indices[k] in m.chunks && ChunkStart(indices[k], m.chunkSize) < |target| &&
    source.Fetch(k + 1, m.chunks[indices[k]]) == Some(c.encrypt(Chunk(target, indices[k], m.chunkSize)))
  }

  ghost predicate Truthful(c: Codec, m: Manifest, indices: seq<nat>, source: Source, target: Bytes) {
    forall k :: 0 <= k < |indices| ==> Answered(c, m, indices, k, source, target)
  }

  lemma TruthfulFront(c: Codec, m: Manifest, indices: seq<nat>, k: nat, source: Source, target: Bytes)
    requires k <= |indices| && Truthful(c, m, indices, source, target)
    ensures Truthful(c, m, indices[..k], source, target)
  {
    hide ChunkStart, Chunk;
    forall j | 0 <= j < k ensures Answered(c, m, indices[..k], j, source, target) {
      assert Answered(c, m, indices, j, source, target);
    }
  }

  /** The manifest's digests are of the target's chunks. */
  ghost predicate Digested(c: Codec, m: Manifest, target: Bytes) {
    forall i :: i in m.digests ==>
      ChunkStart(i, m.chunkSize) < |target| && m.digests[i] == c.sha256(c.encrypt(Chunk(target, i, m.chunkSize)))
  }

  lemma HalfNone(target: Bytes, base: Bytes, chunkSize: int)
    requires chunkSize > 0 && |target| == |base|
    ensures Half(base, target, base, {}, chunkSize)
  {
  }

  lemma {:induction false} PutAllRight(
      c: Codec, m: Manifest, indices: seq<nat>, source: Source, target: Bytes, base: Bytes)
    requires c.Sound() && |target| == |base| == m.diskSize
    requires Truthful(c, m, indices, source, target) && Digested(c, m, target) && Indexed(m, indices)
    ensures var r := PutChunks(c, m, indices, source, base);
            r.Ok? && Half(r.value, target, base, Members(indices), m.chunkSize)
    decreases |indices|
  {
    HalfNone(target, base, m.chunkSize);
    hide Half;
    if indices == [] {
      PutNone(c, m, source, base);
      assert Members(indices) == {};
    } else {
      var n := |indices| - 1;
      var front := indices[..n];
      TruthfulFront(c, m, indices, n, source, target);
      assert Answered(c, m, indices, n, source, target);
      hide Half, Chunk, SameChunk, ChunkStart, PutChunk, PutChunks, Truthful, Codec.Sound;
      PutNext(c, m, indices, n, source, base);
      assert indices[..n + 1] == indices == front + [indices[n]];
      PutAllRight(c, m, front, source, target, base);
      var put := Members(front);
      assert Members(indices) == put + {indices[n]};
      var before := PutChunks(c, m, front, source, base).value;
      PutRight(c, m, indices[n], n + 1, source, before, target, base, put);
      assert PutChunks(c, m, indices, source, base) == PutChunk(c, m, indices[n], n + 1, source, before);
    }
  }

  /** Nothing but the chunk's own stored bytes has its digest. */
  lemma OnlyTruthPut(c: Codec, m: Manifest, i: nat, request: nat, source: Source, target: Bytes, disk: Bytes)
    requires c.Sound() && Digested(c, m, target) && i in m.chunks && i in m.digests
    requires PutChunk(c, m, i, request, source, disk).Ok?
    ensures ChunkStart(i, m.chunkSize) < |target|
    ensures source.Fetch(request, m.chunks[i]) == Some(c.encrypt(Chunk(target, i, m.chunkSize)))
  {
    hide Chunk, ChunkStart, WriteAt;
  }

  /**
   * If a restore of a fully digested manifest ends well, every answer it was
   * given was the right one: nothing else has the right digest.
   */
  lemma {:induction false} OnlyTruthPasses(
      c: Codec, m: Manifest, indices: seq<nat>, source: Source, target: Bytes, disk: Bytes)
    requires c.Sound() && Digested(c, m, target)
    requires Indexed(m, indices) && m.digests.Keys == m.chunks.Keys
    requires PutChunks(c, m, indices, source, disk).Ok?
    ensures Truthful(c, m, indices, source, target)
    decreases |indices|
  {
    if indices != [] {
      var n := |indices| - 1;
      var front := indices[..n];
      assert indices[n] in m.chunks && indices[n] in m.digests;
      hide *;
      PutNext(c, m, indices, n, source, disk);
      assert indices[..n + 1] == indices;
      OnlyTruthPasses(c, m, front, source, target, disk);
      OnlyTruthPut(c, m, indices[n], n + 1, source, target, PutChunks(c, m, front, source, disk).value);
      TruthfulNext(c, m, indices, source, target);
    }
  }

  lemma TruthfulNext(c: Codec, m: Manifest, indices: seq<nat>, source: Source, target: Bytes)
    requires indices != [] && Truthful(c, m, indices[..|indices| - 1], source, target)
    requires var i := indices[|indices| - 1];
             i in m.chunks && ChunkStart(i, m.chunkSize) < |target| &&
             source.Fetch(|indices|, m.chunks[i]) == Some(c.encrypt(Chunk(target, i, m.chunkSize)))
    ensures Truthful(c, m, indices, source, target)
  {
    hide Chunk, ChunkStart;
    forall k | 0 <= k < |indices| ensures Answered(c, m, indices, k, source, target) {
      if k < |indices| - 1 { assert Answered(c, m, indices[..|indices| - 1], k, source, target); }
    }
  }

  /** Base and chunks together are the disk the manifest stands for. */
  lemma WholeDisk(c: Codec, m: Manifest, objects: map<Id, Bytes>, base: Bytes, target: Bytes, disk: Bytes)
    requires Represents(c, m, objects, base, target) && |disk| == |target|
    requires Half(disk, target, base, m.chunks.Keys, m.chunkSize)
    ensures disk == target
  {
    forall i: nat ensures SameChunk(disk, target, i, m.chunkSize) {
      if i !in m.chunks {
        assert SameChunk(target, base, i, m.chunkSize);
        assert SameChunk(disk, base, i, m.chunkSize);
      } else {
        assert SameChunk(disk, target, i, m.chunkSize);
      }
    }
    SameDisk(disk, target, m.chunkSize);
  }

  /**
   * With the manifest pinned by its digest, a blank base and a digest for every
   * chunk, a restore either fails or returns exactly the committed disk,
   * whatever the tree, the object API and the CDN answer.
   */
  lemma PinnedRestoreExact(
      c: Codec, m: Manifest, objects: map<Id, Bytes>, disk: Bytes,
      entries: seq<Entry>, source: Source, fetchBase: Option<string -> Bytes>)
    requires c.Sound() && m.baseIsBlank && m.digests.Keys == m.chunks.Keys
    requires Represents(c, m, objects, Zeros(m.diskSize), disk)
    ensures var r := RestoreSpec(c, entries, source, fetchBase, Some(c.sha256(c.serialize(m))));
            r.Err? || r == Ok(disk)
  {
    var pin := Some(c.sha256(c.serialize(m)));
    var read := ReadManifest(c, entries, source, pin);
    var indices, base := Sorted(m.chunks.Keys), Zeros(m.diskSize);
    assert RightBase(m, fetchBase, base);
    hide RestoreSpec, ReadManifest, PutChunks, Codec.Sound, Represents, Sorted, Zeros, Truthful, Digested, Half,
         Members, RightBase, Indexed;
    if read.Ok? {
      RestoreIs(c, entries, source, fetchBase, pin, m, base);
      var r := PutChunks(c, m, indices, source, base);
      if r.Ok? {
        OnlyTruthPasses(c, m, indices, source, disk, base);
        PutAllRight(c, m, indices, source, disk, base);
        MembersSorted(m.chunks.Keys);
        WholeDisk(c, m, objects, base, disk, r.value);
      }
    }
  }

  /** The host's own objects, asked directly. */
  function FromStore(objects: map<Id, Bytes>): Source {
    Source((request, id) => if id in objects then Some(objects[id]) else None, None)
  }

  ghost predicate RightBase(m: Manifest, fetchBase: Option<string -> Bytes>, base: Bytes) {
    LoadBase(m, fetchBase) == Ok(base)
  }

  /** The API has every object; the CDN in front of it has it or has nothing yet. */
  ghost predicate Honest(source: Source, objects: map<Id, Bytes>) {
    forall request: nat, id: Id :: id in objects ==>
      && source.api(request, id) == Some(objects[id])
      && (source.cdn.Some? ==> source.cdn.value(request, id) == None || source.cdn.value(request, id) == Some(objects[id]))
  }

  /**
   * A commit that holds a manifest restores, without failing, to the disk the
   * manifest stands for, whatever the CDN has not seen yet.
   */
  lemma RestoreReturns(
      s: Store, c: Codec, commit: nat, m: Manifest, base: Bytes, disk: Bytes, source: Source,
      fetchBase: Option<string -> Bytes>, pin: Option<Digest>)
    requires c.Sound() && Holds(s, c, commit, m) && Honest(source, s.objects)
    requires Represents(c, m, s.objects, base, disk) && RightBase(m, fetchBase, base)
    requires pin.None? || pin.value == c.sha256(c.serialize(m))
    ensures RestoreSpec(c, s.trees[s.commits[commit].tree], source, fetchBase, pin) == Ok(disk)
  {
    var entries := s.trees[s.commits[commit].tree];
    var indices := Sorted(m.chunks.Keys);
    MembersSorted(m.chunks.Keys);
    StoreAnswers(c, m, s.objects, base, disk, source, indices);
    HeldIsRead(s, c, commit, m, source, pin);
    hide *;
    PutAllRight(c, m, indices, source, disk, base);
    WholeDisk(c, m, s.objects, base, disk, PutChunks(c, m, indices, source, base).value);
    RestoreIs(c, entries, source, fetchBase, pin, m, base);
  }

  lemma HeldIsRead(s: Store, c: Codec, commit: nat, m: Manifest, source: Source, pin: Option<Digest>)
    requires c.Sound() && Holds(s, c, commit, m) && Honest(source, s.objects)
    requires pin.None? || pin.value == c.sha256(c.serialize(m))
    ensures ReadManifest(c, s.trees[s.commits[commit].tree], source, pin) == Ok(m)
  {
    hide FindManifest;
  }

  /** A wrong answer from the CDN is not made good by the API: with a digest it ends the restore, for this very reason. */
  lemma WrongAnswerRefused(c: Codec, m: Manifest, i: nat, request: nat, source: Source, disk: Bytes, wrong: Bytes)
    requires i in m.chunks && i in m.digests && m.digests[i] != c.sha256(wrong)
    requires if source.cdn.Some? then source.cdn.value(request, m.chunks[i]) == Some(wrong)
             else source.api(request, m.chunks[i]) == Some(wrong)
    ensures PutChunk(c, m, i, request, source, disk) == Err(ChunkMismatch)
  {
  }

  lemma MembersSorted(keys: set<nat>)
    ensures Members(Sorted(keys)) == keys
  {
    hide Sorted;
  }

  /** An honest source gives what was stored. */
  lemma StoreAnswers(
      c: Codec, m: Manifest, objects: map<Id, Bytes>, base: Bytes, disk: Bytes, source: Source, indices: seq<nat>)
    requires Represents(c, m, objects, base, disk) && Honest(source, objects) && forall x :: x in indices <==> x in m.chunks
    ensures Indexed(m, indices) && Truthful(c, m, indices, source, disk)
  {
    hide Chunk, ChunkStart, SameChunk;
    forall k | 0 <= k < |indices| ensures Answered(c, m, indices, k, source, disk) && indices[k] in m.chunks {
      assert indices[k] in indices;
      assert ChunkStored(c, m, objects, disk, indices[k]);
    }
  }

  /** The host itself, asked directly, is honest. */
  lemma StoreIsHonest(objects: map<Id, Bytes>)
    ensures Honest(FromStore(objects), objects)
  {
  }

  /** A restore once its manifest and base are there. */
  lemma RestoreIs(
      c: Codec, entries: seq<Entry>, source: Source, fetchBase: Option<string -> Bytes>, pin: Option<Digest>,
      m: Manifest, base: Bytes)
    requires ReadManifest(c, entries, source, pin) == Ok(m) && RightBase(m, fetchBase, base)
    ensures Indexed(m, Sorted(m.chunks.Keys))
    ensures RestoreSpec(c, entries, source, fetchBase, pin) == PutChunks(c, m, Sorted(m.chunks.Keys), source, base)
  {
    hide ReadManifest, Sorted, PutChunks, LoadBase;
  }
}
