/**
 * Re-baselining (src/core/machine.js, `compact`): the whole disk in one commit
 * without parents. The manifest it writes keeps the digests of the one before,
 * and that decides whether the result can be restored.
 */
module Compaction {
  import opened Common
  import opened Chunker
  import opened Repo
  import opened Device
  import opened Epoch
  import opened SyncState
  import R = Restore

  /** The ids of the first `n` chunks. */
  function WholeChunks(c: Codec, disk: Bytes, chunkSize: Positive, n: nat): (chunks: map<nat, Id>)
    requires n <= ChunkCount(|disk|, chunkSize)
  {
    if n == 0 then map[]
    else
      ChunkOnDisk(n - 1, chunkSize, |disk|);
      WholeChunks(c, disk, chunkSize, n - 1)[n - 1 := c.blobId(c.encrypt(Chunk(disk, n - 1, chunkSize)))]
  }

  function Compacted(c: Codec, m: Manifest, disk: Bytes): Manifest {
    m.(chunks := WholeChunks(c, disk, m.chunkSize, ChunkCount(|disk|, m.chunkSize)), sync := m.sync + 1, compacted := true)
  }

  lemma {:induction false} WholeChunksAt(c: Codec, disk: Bytes, chunkSize: Positive, n: nat, i: nat)
    requires n <= ChunkCount(|disk|, chunkSize)
    ensures i in WholeChunks(c, disk, chunkSize, n) <==> i < n
    ensures i < n ==> ChunkStart(i, chunkSize) < |disk|
    ensures i < n ==> WholeChunks(c, disk, chunkSize, n)[i] == c.blobId(c.encrypt(Chunk(disk, i, chunkSize)))
    decreases n
  {
    if n > 0 {
      WholeChunksAt(c, disk, chunkSize, n - 1, i);
      ChunkOnDisk(n - 1, chunkSize, |disk|);
    }
  }

  /** The digests kept from before still fit the disk: no chunk that has one has changed. */
  ghost predicate Intact(m: Manifest, disk: Bytes, committed: Bytes)
    requires |disk| == |committed|
  {
    forall i :: i in m.digests ==> SameChunk(disk, committed, i, m.chunkSize)
  }

  /** Every chunk of the disk is in the store, under its id. */
  ghost predicate WhollyStored(c: Codec, disk: Bytes, chunkSize: Positive, objects: map<Id, Bytes>) {
    forall i: nat :: ChunkStart(i, chunkSize) < |disk| ==> StoredAt(c, disk, chunkSize, objects, i)
  }

  ghost predicate StoredAt(c: Codec, disk: Bytes, chunkSize: Positive, objects: map<Id, Bytes>, i: nat)
    requires ChunkStart(i, chunkSize) < |disk|
  {
    var stored := c.encrypt(Chunk(disk, i, chunkSize));
    c.blobId(stored) in objects && objects[c.blobId(stored)] == stored
  }

  // ------------------------------------------------------------- gathering the disk

  /** Its distinct objects in the order met, and each once; those already known are not uploaded. */
  function CompactFiles(
      order: seq<Id>, byId: map<Id, Bytes>, known: set<Id>, manifestBytes: Bytes, manifestId: Id): seq<File>
    requires Ordered(order, byId)
  {
    seq(|order|, k requires 0 <= k < |order| => File(ObjectPath(order[k]), byId[order[k]], order[k], order[k] in known))
    + [File(ManifestPath, manifestBytes, manifestId, false)]
  }

  /** The first `n` chunks have been read and hashed. */
  ghost predicate Gathered(c: Codec, disk: Bytes, chunkSize: Positive, n: nat, order: seq<Id>, byId: map<Id, Bytes>) {
    && n <= ChunkCount(|disk|, chunkSize)
    && Lists(order, byId.Keys) && byId.Keys == WholeChunks(c, disk, chunkSize, n).Values
    && (forall id :: id in byId ==> c.blobId(byId[id]) == id)
  }

  lemma GatheredNone(c: Codec, disk: Bytes, chunkSize: Positive)
    ensures Gathered(c, disk, chunkSize, 0, [], map[])
  {
    DivBounds(|disk| + chunkSize - 1, chunkSize);
  }

  lemma GatheredNext(c: Codec, disk: Bytes, chunkSize: Positive, n: nat, order: seq<Id>, byId: map<Id, Bytes>)
    requires c.Sound() && Gathered(c, disk, chunkSize, n, order, byId) && n < ChunkCount(|disk|, chunkSize)
    ensures ChunkStart(n, chunkSize) < |disk|
    ensures var stored := c.encrypt(Chunk(disk, n, chunkSize));
            var id := c.blobId(stored);
            if id in byId then Gathered(c, disk, chunkSize, n + 1, order, byId)
            else Gathered(c, disk, chunkSize, n + 1, order + [id], byId[id := stored])
  {
    ChunkOnDisk(n, chunkSize, |disk|);
    WholeChunksNext(c, disk, chunkSize, n);
    var stored := c.encrypt(Chunk(disk, n, chunkSize));
    var id := c.blobId(stored);
    hide WholeChunks, Chunk, ChunkStart, ChunkCount, Codec.Sound, Lists;
    ValuesNext(WholeChunks(c, disk, chunkSize, n), n, id);
    if id in byId {
      assert byId.Keys + {id} == byId.Keys;
    } else {
      KeysNext(byId, id, stored);
    }
  }

  lemma KeysNext(byId: map<Id, Bytes>, id: Id, stored: Bytes)
    ensures byId[id := stored].Keys == byId.Keys + {id}
  {
  }

  lemma WholeChunksNext(c: Codec, disk: Bytes, chunkSize: Positive, n: nat)
    requires n < ChunkCount(|disk|, chunkSize) && ChunkStart(n, chunkSize) < |disk|
    ensures n !in WholeChunks(c, disk, chunkSize, n)
    ensures WholeChunks(c, disk, chunkSize, n + 1) == WholeChunks(c, disk, chunkSize, n)[n := c.blobId(c.encrypt(Chunk(disk, n, chunkSize)))]
  {
    WholeChunksAt(c, disk, chunkSize, n, n);
    hide Chunk, ChunkStart, ChunkCount;
  }

  lemma ValuesNext(chunks: map<nat, Id>, n: nat, id: Id)
    requires n !in chunks
    ensures chunks[n := id].Values == chunks.Values + {id}
  {
    var next := chunks[n := id];
    assert n in next && next[n] == id;
    forall v | v in chunks.Values ensures v in next.Values {
      var i :| i in chunks && chunks[i] == v;
      assert i in next && next[i] == v;
    }
  }

  ghost predicate Ordered(order: seq<Id>, byId: map<Id, Bytes>) {
    forall k :: 0 <= k < |order| ==> order[k] in byId
  }

  lemma GatheredOrdered(c: Codec, disk: Bytes, chunkSize: Positive, n: nat, order: seq<Id>, byId: map<Id, Bytes>)
    requires Gathered(c, disk, chunkSize, n, order, byId)
    ensures Ordered(order, byId)
  {
    forall k | 0 <= k < |order| ensures order[k] in byId { assert order[k] in order; }
  }

  lemma FilesAddressed(c: Codec, order: seq<Id>, byId: map<Id, Bytes>, known: set<Id>, bytes: Bytes)
    requires Ordered(order, byId) && forall id :: id in byId ==> c.blobId(byId[id]) == id
    ensures Addressed(CompactFiles(order, byId, known, bytes, c.blobId(bytes)), c)
    ensures Entries(CompactFiles(order, byId, known, bytes, c.blobId(bytes))) == ObjectEntries(order) + [Entry(ManifestPath, c.blobId(bytes))]
  {
  }

  /** Everything listed is in the store: uploaded now or known before. */
  lemma FilesStored(order: seq<Id>, byId: map<Id, Bytes>, known: set<Id>, bytes: Bytes, id: Id, u: map<Id, Bytes>)
    requires Ordered(order, byId) && Lists(order, byId.Keys) && forall x :: x in known ==> x in u
    requires var files := CompactFiles(order, byId, known, bytes, id);
             forall k :: 0 <= k < |files| && !files[k].skipUpload ==> files[k].id in u && u[files[k].id] == files[k].bytes
    ensures (forall x :: x in byId ==> x in u) && id in u
  {
    var files := CompactFiles(order, byId, known, bytes, id);
    assert files[|order|] == File(ManifestPath, bytes, id, false);
    forall x | x in byId ensures x in u {
      assert x in order;
      var k :| 0 <= k < |order| && order[k] == x;
      assert files[k] == File(ObjectPath(x), byId[x], x, x in known);
    }
  }

  lemma ListedLive(order: seq<Id>, ids: set<Id>, objects: map<Id, Bytes>, m: Manifest, id: Id)
    requires Lists(order, ids) && ids == m.chunks.Values && id in objects && forall x :: x in ids ==> x in objects
    ensures LiveTree(ObjectEntries(order) + [Entry(ManifestPath, id)], m, id)
    ensures forall e :: e in ObjectEntries(order) + [Entry(ManifestPath, id)] ==> e.id in objects
  {
    var entries := ObjectEntries(order) + [Entry(ManifestPath, id)];
    forall k | 0 <= k < |entries| ensures entries[k].id in objects {
      if k < |order| { assert order[k] in order; }
    }
  }

  /** What the host deposits holds the whole disk, listed once each with the manifest, in a commit without parents. */
  lemma CompactDeposits(
      s: Store, c: Codec, m: Manifest, known: set<Id>, disk: Bytes, order: seq<Id>, byId: map<Id, Bytes>)
    requires c.Sound() && StoreOk(s, c) && (forall id :: id in known ==> id in s.objects)
    requires Gathered(c, disk, m.chunkSize, ChunkCount(|disk|, m.chunkSize), order, byId)
    ensures Ordered(order, byId)
    ensures var next := Compacted(c, m, disk);
            var t := Deposit(s, CompactFiles(order, byId, known, c.serialize(next), c.blobId(c.serialize(next))), None, true);
            && Grows(s, t) && StoreOk(t, c) && WhollyStored(c, disk, m.chunkSize, t.objects)
            && Landed(t, c, s.n + 2, next, None) && byId.Keys == next.chunks.Values && forall id :: id in byId ==> id in t.objects
  {
    hide *;
    var next := Compacted(c, m, disk);
    var bytes := c.serialize(next);
    var id := c.blobId(bytes);
    GatheredOrdered(c, disk, m.chunkSize, ChunkCount(|disk|, m.chunkSize), order, byId);
    GatheredAll(c, m, disk, order, byId);
    FilesAddressed(c, order, byId, known, bytes);
    var files := CompactFiles(order, byId, known, bytes, id);
    var t := Deposit(s, files, None, true);
    DepositGrows(s, files, None, true, c);
    OrphanIs(s, files);
    DepositIds(s, c, t);
    FilesStored(order, byId, known, bytes, id, t.objects);
    ListedLive(order, byId.Keys, t.objects, next, id);
    GatheredStored(c, disk, m.chunkSize, order, byId, t.objects);
    LiveFrom(t, c, s.n + 2, next);
    LandedIs(t, c, s.n + 2, next, None);
  }

  lemma GatheredAll(c: Codec, m: Manifest, disk: Bytes, order: seq<Id>, byId: map<Id, Bytes>)
    requires Gathered(c, disk, m.chunkSize, ChunkCount(|disk|, m.chunkSize), order, byId)
    ensures byId.Keys == Compacted(c, m, disk).chunks.Values && Lists(order, byId.Keys)
    ensures forall id :: id in byId ==> c.blobId(byId[id]) == id
  {
    hide WholeChunks, Lists;
  }

  lemma OrphanIs(s: Store, files: seq<File>)
    ensures var t := Deposit(s, files, None, true);
            && t.objects == Upload(s.objects, files) && s.n + 2 in t.commits && t.commits[s.n + 2].tree in t.trees
            && t.trees[t.commits[s.n + 2].tree] == Entries(files) && t.commits[s.n + 2].parents == []
  {
    hide Upload, Entries;
  }

  lemma DepositIds(s: Store, c: Codec, t: Store)
    requires Grows(s, t) && StoreOk(t, c)
    ensures forall id :: id in s.objects ==> id in t.objects
    ensures forall id :: id in t.objects ==> id == c.blobId(t.objects[id])
  {
  }

  lemma GatheredStored(
      c: Codec, disk: Bytes, chunkSize: Positive, order: seq<Id>, byId: map<Id, Bytes>, objects: map<Id, Bytes>)
    requires c.Sound() && Gathered(c, disk, chunkSize, ChunkCount(|disk|, chunkSize), order, byId)
    requires forall id :: id in byId ==> id in objects
    requires forall id :: id in objects ==> id == c.blobId(objects[id])
    ensures WhollyStored(c, disk, chunkSize, objects)
  {
    var n := ChunkCount(|disk|, chunkSize);
    var chunks := WholeChunks(c, disk, chunkSize, n);
    hide WholeChunks, ChunkCount, Chunk, ChunkStart;
    forall i: nat | ChunkStart(i, chunkSize) < |disk| ensures StoredAt(c, disk, chunkSize, objects, i) {
      ChunkOnDisk(i, chunkSize, |disk|);
      WholeChunksAt(c, disk, chunkSize, n, i);
      assert chunks[i] in chunks.Values;
    }
  }

  // ------------------------------------------------------------- what the result stands for

  /** Where a digest is kept, it fits the disk exactly when the chunk has not changed. */
  lemma DigestFits(c: Codec, m: Manifest, objects: map<Id, Bytes>, base: Bytes, committed: Bytes, disk: Bytes, i: nat)
    requires c.Sound() && Represents(c, m, objects, base, committed) && |disk| == |committed| && i in m.digests
    ensures ChunkStart(i, m.chunkSize) < |disk|
    ensures m.digests[i] == c.sha256(c.encrypt(Chunk(disk, i, m.chunkSize))) <==> SameChunk(disk, committed, i, m.chunkSize)
  {
    var ours, theirs := Chunk(disk, i, m.chunkSize), Chunk(committed, i, m.chunkSize);
    if c.sha256(c.encrypt(theirs)) == c.sha256(c.encrypt(ours)) {
      assert c.decrypt(c.encrypt(theirs)) == c.decrypt(c.encrypt(ours));
    }
  }

  /** The compacted manifest stands for the device exactly when its digests still fit. */
  lemma CompactedStands(
      c: Codec, m: Manifest, earlier: map<Id, Bytes>, base: Bytes, committed: Bytes, disk: Bytes,
      objects: map<Id, Bytes>)
    requires c.Sound() && Represents(c, m, earlier, base, committed) && |disk| == |committed| && WhollyStored(c, disk, m.chunkSize, objects)
    ensures Represents(c, Compacted(c, m, disk), objects, base, disk) <==> Intact(m, disk, committed)
  {
    CompactedHolds(c, m, base, disk, objects);
    IntactFits(c, m, earlier, base, committed, disk);
    CompactedIs(c, m, disk);
    hide Chunk, SameChunk, ChunkStart, ChunkStored, Intact, Compacted, WholeChunks, ChunkCount, WhollyStored, Codec.Sound;
  }

  /** The compacted manifest names every chunk on the disk, as it is stored, and no other. */
  lemma CompactedHolds(c: Codec, m: Manifest, base: Bytes, disk: Bytes, objects: map<Id, Bytes>)
    requires |disk| == |base| && WhollyStored(c, disk, m.chunkSize, objects)
    ensures var next := Compacted(c, m, disk);
            && (forall i: nat :: i in next.chunks <==> ChunkStart(i, m.chunkSize) < |disk|)
            && (forall i :: i in next.chunks ==> ChunkStored(c, next, objects, disk, i))
            && (forall i: nat :: i !in next.chunks ==> SameChunk(disk, base, i, m.chunkSize))
  {
    var next, n := Compacted(c, m, disk), ChunkCount(|disk|, m.chunkSize);
    hide Chunk, ChunkCount, SameChunk, WholeChunks, ChunkStart;
    forall i: nat ensures i in next.chunks <==> ChunkStart(i, m.chunkSize) < |disk| {
      WholeChunksAt(c, disk, m.chunkSize, n, i);
      ChunkOnDisk(i, m.chunkSize, |disk|);
    }
    forall i | i in next.chunks ensures ChunkStored(c, next, objects, disk, i) {
      WholeChunksAt(c, disk, m.chunkSize, n, i);
      assert StoredAt(c, disk, m.chunkSize, objects, i);
    }
    forall i: nat | i !in next.chunks ensures SameChunk(disk, base, i, m.chunkSize) {
      PastTheEnd(disk, base, i, m.chunkSize);
    }
  }

  /** The digests fit the disk exactly when it is intact. */
  lemma IntactFits(c: Codec, m: Manifest, objects: map<Id, Bytes>, base: Bytes, committed: Bytes, disk: Bytes)
    requires c.Sound() && Represents(c, m, objects, base, committed) && |disk| == |committed|
    ensures Intact(m, disk, committed) <==> R.Digested(c, m, disk)
    ensures forall i :: i in m.digests ==> ChunkStart(i, m.chunkSize) < |disk|
  {
    hide Chunk, SameChunk, ChunkStart, Represents, Codec.Sound;
    forall i | i in m.digests
      ensures ChunkStart(i, m.chunkSize) < |disk|
      ensures m.digests[i] == c.sha256(c.encrypt(Chunk(disk, i, m.chunkSize))) <==> SameChunk(disk, committed, i, m.chunkSize)
    {
      DigestFits(c, m, objects, base, committed, disk, i);
    }
  }

  lemma PastTheEnd(a: Bytes, b: Bytes, i: nat, chunkSize: Positive)
    requires |a| == |b| && ChunkStart(i, chunkSize) >= |a|
    ensures SameChunk(a, b, i, chunkSize)
  {
  }

  /** From a source that answers with the target's chunks the only thing a restore can object to is a digest. */
  lemma {:induction false} PutsOrMismatch(
      c: Codec, m: Manifest, indices: seq<nat>, source: R.Source, target: Bytes, disk: Bytes)
    requires c.Sound() && |disk| == |target| == m.diskSize
    requires R.Indexed(m, indices) && R.Truthful(c, m, indices, source, target)
    ensures var r := R.PutChunks(c, m, indices, source, disk);
            if forall k :: 0 <= k < |indices| ==> Fits(c, m, target, indices[k]) then r.Ok? else r == Err(R.ChunkMismatch)
    decreases |indices|
  {
    if indices == [] {
      R.PutNone(c, m, source, disk);
    } else {
      var n := |indices| - 1;
      var front := indices[..n];
      R.TruthfulFront(c, m, indices, n, source, target);
      assert R.Answered(c, m, indices, n, source, target);
      hide R.Truthful, R.PutChunks, Chunk, WriteAt, R.PutChunk, Codec.Sound, Fits;
      R.PutNext(c, m, indices, n, source, disk);
      assert indices[..n + 1] == indices;
      PutsOrMismatch(c, m, front, source, target, disk);
      assert forall k :: 0 <= k < n ==> front[k] == indices[k];
      var before := R.PutChunks(c, m, front, source, disk);
    }
  }

  /** The digest kept for the chunk, if any, is of the target's. */
  ghost predicate Fits(c: Codec, m: Manifest, target: Bytes, i: nat) {
    ChunkStart(i, m.chunkSize) < |target| ==> R.Verified(c, m, i, c.encrypt(Chunk(target, i, m.chunkSize)))
  }

  /** With some kept digest out of date the restore of the compacted commit is refused. */
  lemma CompactedRefused(
      s: Store, c: Codec, commit: nat, m: Manifest, disk: Bytes, fetchBase: Option<string -> Bytes>, base: Bytes, i: nat)
    requires c.Sound() && |disk| == |base| == m.diskSize
    requires WhollyStored(c, disk, m.chunkSize, s.objects) && Holds(s, c, commit, Compacted(c, m, disk))
    requires R.RightBase(m, fetchBase, base)
    requires i in Compacted(c, m, disk).chunks && !Fits(c, m, disk, i)
    ensures R.RestoreSpec(c, s.trees[s.commits[commit].tree], R.FromStore(s.objects), fetchBase, None) == Err(R.ChunkMismatch)
  {
    var next, source := Compacted(c, m, disk), R.FromStore(s.objects);
    var entries := s.trees[s.commits[commit].tree];
    assert R.ReadManifest(c, entries, source, None) == Ok(next) by { hide FindManifest, Compacted; }
    assert Fits(c, next, disk, i) == Fits(c, m, disk, i);
    var indices := Sorted(next.chunks.Keys);
    hide Codec.Sound, R.PutChunks, R.ReadManifest, WholeChunks, Holds, WhollyStored, Fits, Sorted, R.FromStore,
         R.Truthful;
    CompactedAnswered(s, c, m, disk, indices);
    PutsOrMismatch(c, next, indices, source, disk, base);
    assert i in indices;
  }

  /** A digest that no longer fits. */
  lemma Unfit(
      c: Codec, m: Manifest, earlier: map<Id, Bytes>, base: Bytes, committed: Bytes, disk: Bytes) returns (i: nat)
    requires c.Sound() && Represents(c, m, earlier, base, committed) && |disk| == |committed| && !Intact(m, disk, committed)
    ensures i in Compacted(c, m, disk).chunks && !Fits(c, m, disk, i)
  {
    hide Chunk, SameChunk, Represents, ChunkCount, WholeChunks, Codec.Sound;
    i :| i in m.digests && !SameChunk(disk, committed, i, m.chunkSize);
    DigestFits(c, m, earlier, base, committed, disk, i);
    WholeChunksAt(c, disk, m.chunkSize, ChunkCount(|disk|, m.chunkSize), i);
    ChunkOnDisk(i, m.chunkSize, |disk|);
  }

  /**
   * A compacted commit restores to the device exactly when no chunk with a kept
   * digest has changed since it was last committed. Otherwise the restore of
   * this machine's own commit is refused.
   */
  lemma CompactedRestores(
      s: Store, c: Codec, commit: nat, m: Manifest, earlier: map<Id, Bytes>, base: Bytes, committed: Bytes, disk: Bytes,
      fetchBase: Option<string -> Bytes>)
    requires c.Sound() && Represents(c, m, earlier, base, committed) && |disk| == |committed|
    requires WhollyStored(c, disk, m.chunkSize, s.objects) && Holds(s, c, commit, Compacted(c, m, disk))
    requires R.RightBase(m, fetchBase, base)
    ensures R.RestoreSpec(c, s.trees[s.commits[commit].tree], R.FromStore(s.objects), fetchBase, None) ==
              if Intact(m, disk, committed) then Ok(disk) else Err(R.ChunkMismatch)
  {
    var next := Compacted(c, m, disk);
    CompactedStands(c, m, earlier, base, committed, disk, s.objects);
    assert R.RightBase(next, fetchBase, base);
    if Intact(m, disk, committed) {
      hide Represents, Intact, Holds, Compacted, R.RestoreSpec, WhollyStored, R.RightBase;
      R.StoreIsHonest(s.objects);
      R.RestoreReturns(s, c, commit, next, base, disk, R.FromStore(s.objects), fetchBase, None);
    } else {
      var i := Unfit(c, m, earlier, base, committed, disk);
      hide Intact, Holds, Compacted, R.RestoreSpec, WhollyStored, R.RightBase, Fits, Codec.Sound;
      CompactedRefused(s, c, commit, m, disk, fetchBase, base, i);
    }
  }

  lemma CompactedAnswered(s: Store, c: Codec, m: Manifest, disk: Bytes, indices: seq<nat>)
    requires WhollyStored(c, disk, m.chunkSize, s.objects)
    requires forall i :: i in indices <==> i in Compacted(c, m, disk).chunks
    ensures R.Indexed(Compacted(c, m, disk), indices)
    ensures R.Truthful(c, Compacted(c, m, disk), indices, R.FromStore(s.objects), disk)
  {
    var next, source, n := Compacted(c, m, disk), R.FromStore(s.objects), ChunkCount(|disk|, m.chunkSize);
    hide Chunk, ChunkStart, ChunkCount;
    forall k | 0 <= k < |indices| ensures R.Answered(c, next, indices, k, source, disk) {
      assert indices[k] in indices;
      WholeChunksAt(c, disk, m.chunkSize, n, indices[k]);
      assert StoredAt(c, disk, m.chunkSize, s.objects, indices[k]);
    }
  }

  lemma AfterOrphan(s: Store, files: seq<File>, branch: string, commit: nat, t: Store)
    requires var w := Deposit(s, files, None, true); t == w.(branches := w.branches[branch := commit])
    ensures var w := Deposit(s, files, None, true); t.(branches := w.branches) == w
    ensures HeadOf(t, branch) == Some(commit)
  {
    hide Upload, Entries;
  }

  /** The machine is in order after compacting exactly when the kept digests fit. */
  lemma CompactedSound(
      s: Store, w: Store, t: Store, c: Codec, m: Manifest, commit: nat, base: Bytes, committed: Bytes, disk: Bytes, ids: set<Id>)
    requires c.Sound() && Represents(c, m, s.objects, base, committed) && |disk| == |committed|
    requires Grows(s, w) && StoreOk(w, c) && WhollyStored(c, disk, m.chunkSize, w.objects)
    requires Landed(w, c, commit, Compacted(c, m, disk), None) && (forall id :: id in ids ==> id in w.objects)
    requires t.(branches := w.branches) == w
    ensures Grows(s, t) && StoreOk(t, c) && WhollyStored(c, disk, m.chunkSize, t.objects) && Landed(t, c, commit, Compacted(c, m, disk), None)
    ensures Sound(t, c, Compacted(c, m, disk), Some(commit), ids, base, disk) <==> Intact(m, disk, committed)
  {
    var next := Compacted(c, m, disk);
    Unbranched(s, w, t, c);
    assert t.objects == w.objects;
    hide Compacted, Represents, WhollyStored, Intact, Codec.Sound, LiveTree;
    LandedGrows(w, t, c, commit, next, None);
    CompactedStands(c, m, s.objects, base, committed, disk, t.objects);
    assert next.compacted by { CompactedIs(c, m, disk); }
  }

  lemma CompactedIs(c: Codec, m: Manifest, disk: Bytes)
    ensures var next := Compacted(c, m, disk);
            && next.chunks == WholeChunks(c, disk, m.chunkSize, ChunkCount(|disk|, m.chunkSize))
            && next == m.(chunks := next.chunks, sync := m.sync + 1, compacted := true) && next != m
  {
    hide WholeChunks;
  }

  /** The pin from before is of the old manifest: a restore of the compacted commit against it is refused. */
  lemma OldPinRefused(s: Store, c: Codec, commit: nat, m: Manifest, disk: Bytes, fetchBase: Option<string -> Bytes>)
    requires c.Sound() && Holds(s, c, commit, Compacted(c, m, disk))
    ensures R.RestoreSpec(c, s.trees[s.commits[commit].tree], R.FromStore(s.objects), fetchBase, Some(c.sha256(c.serialize(m)))) ==
              Err(R.WrongManifest)
  {
    CompactedIs(c, m, disk);
    hide Compacted, FindManifest;
    var next := Compacted(c, m, disk);
    assert c.parse(c.serialize(next)) != c.parse(c.serialize(m));
  }
}
