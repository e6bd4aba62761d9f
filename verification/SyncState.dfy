/**
 * What holds between a machine, its device and the repository (src/core/machine.js),
 * and why each step of a sync keeps it.
 */
module SyncState {
  import opened Common
  import opened Chunker
  import opened Repo
  import opened Device
  import opened Epoch
  import R = Restore

  datatype Report = Report(commit: Option<nat>, chunks: nat, uploaded: nat, reused: nat, skipped: bool)

  datatype SyncError = NotHydrated | LostRace | Overlap(chunks: set<nat>) | LoadFailed(error: LoadError)

  datatype LoadError = NoBranch | NoManifest | WrongGeometry

  // ------------------------------------------------------------- what the repository knows

  /** The manifest in hand is sound: it stands for the committed disk, its objects are stored, and the head is a live commit of it. */
  ghost predicate Sound(
      s: Store, c: Codec, m: Manifest, head: Option<nat>, known: set<Id>, base: Bytes, committed: Bytes)
  {
    && c.Sound() && StoreOk(s, c)
    && Represents(c, m, s.objects, base, committed)
    && (forall id :: id in known ==> id in s.objects)
    && (head.Some? ==> LiveCommit(s, c, head.value, m))
    && (head.None? ==> m.chunks == map[])
    && (!m.compacted ==> m.digests.Keys == m.chunks.Keys)
  }

  /** Another writer's head is a live commit of some disk, for a device like this machine's. */
  ghost predicate SoundHead(s: Store, c: Codec, h: nat, theirs: Manifest, theirDisk: Bytes, m: Manifest, base: Bytes) {
    && LiveCommit(s, c, h, theirs) && Represents(c, theirs, s.objects, base, theirDisk)
    && SameDevice(theirs, m)
    && (!theirs.compacted ==> theirs.digests.Keys == theirs.chunks.Keys)
  }

  /** Device and target agree on every chunk with no write pending and not adrift. */
  ghost predicate Agrees(contents: Bytes, epoch: seq<Range>, adrift: set<nat>, target: Bytes, chunkSize: Positive) {
    && |contents| == |target|
    && forall i: nat :: i !in Touched(epoch, chunkSize) && i !in adrift ==> SameChunk(contents, target, i, chunkSize)
  }

  lemma AgreesSelf(contents: Bytes, epoch: seq<Range>, adrift: set<nat>, chunkSize: Positive)
    ensures Agrees(contents, epoch, adrift, contents, chunkSize)
  {
  }

  /** With nothing pending and nothing adrift the two are the same disk. */
  lemma AgreesWholly(contents: Bytes, image: Bytes, chunkSize: Positive)
    requires Agrees(contents, [], {}, image, chunkSize)
    ensures contents == image
  {
    SameDisk(contents, image, chunkSize);
  }

  /** The chunks two manifests do not have in common. */
  ghost function Differing(a: Manifest, b: Manifest): set<nat> {
    set i | i in a.chunks.Keys + b.chunks.Keys && !(i in a.chunks && i in b.chunks && a.chunks[i] == b.chunks[i])
  }

  /** Where two manifests agree, so do the disks they stand for. */
  lemma SameWhereCommon(
      c: Codec, a: Manifest, b: Manifest, objects: map<Id, Bytes>, base: Bytes, da: Bytes, db: Bytes, i: nat)
    requires c.Sound() && Represents(c, a, objects, base, da) && Represents(c, b, objects, base, db)
    requires a.diskSize == b.diskSize && a.chunkSize == b.chunkSize && i !in Differing(a, b)
    ensures SameChunk(da, db, i, a.chunkSize)
  {
    if i in a.chunks {
      assert ChunkStored(c, a, objects, da, i) && ChunkStored(c, b, objects, db, i);
      assert c.decrypt(c.encrypt(Chunk(da, i, a.chunkSize))) == c.decrypt(c.encrypt(Chunk(db, i, a.chunkSize)));
    } else {
      assert SameChunk(da, base, i, a.chunkSize) && SameChunk(db, base, i, a.chunkSize);
    }
  }

  lemma SoundGrows(
      s: Store, t: Store, c: Codec, m: Manifest, head: Option<nat>, known: set<Id>, base: Bytes, committed: Bytes)
    requires Sound(s, c, m, head, known, base, committed) && Grows(s, t) && StoreOk(t, c)
    ensures Sound(t, c, m, head, known, base, committed)
  {
    RepresentsGrows(s, t, c, m, base, committed);
    hide Represents, LiveCommit;
  }

  lemma SoundHeadGrows(
      s: Store, t: Store, c: Codec, h: nat, theirs: Manifest, theirDisk: Bytes, m: Manifest, base: Bytes)
    requires SoundHead(s, c, h, theirs, theirDisk, m, base) && Grows(s, t)
    ensures SoundHead(t, c, h, theirs, theirDisk, m, base)
  {
    RepresentsGrows(s, t, c, theirs, base, theirDisk);
    hide Represents, LiveCommit;
  }

  lemma AttachHead(s: Store, c: Codec, h: nat, m: Manifest, disk: Bytes, base: Bytes)
    requires c.Sound() && StoreOk(s, c) && SoundHead(s, c, h, m, disk, m, base)
    ensures Holds(s, c, h, m) && Sound(s, c, m, Some(h), {} + TreeIds(s, h), base, disk)
  {
    LiveHolds(s, c, h, m);
  }

  /** The manifest a commit's tree names, if it can be read. */
  function ManifestAt(s: Store, c: Codec, h: nat): Option<Manifest> {
    if h !in s.commits || s.commits[h].tree !in s.trees then None
    else
      var id := FindManifest(s.trees[s.commits[h].tree]);
      if id.None? || id.value !in s.objects then None else c.parse(s.objects[id.value])
  }

  /** What a commit holds is what is read from it. */
  lemma HeldIsFound(s: Store, c: Codec, h: nat, m: Manifest)
    requires c.Sound() && Holds(s, c, h, m)
    ensures ManifestAt(s, c, h) == Some(m)
  {
    hide FindManifest;
  }

  /** The object ids a commit's tree lists. */
  function TreeIds(s: Store, h: nat): set<Id> {
    if h in s.commits && s.commits[h].tree in s.trees
    then set e | e in s.trees[s.commits[h].tree] :: e.id
    else {}
  }

  lemma FromSound(s: Store, c: Codec, m: Manifest, head: Option<nat>, known: set<Id>, base: Bytes, committed: Bytes)
    requires Sound(s, c, m, head, known, base, committed)
    ensures c.Sound() && StoreOk(s, c) && Represents(c, m, s.objects, base, committed) && |committed| == |base| == m.diskSize
  {
  }

  // ------------------------------------------------------------- guest writes

  /** A flush keeps the agreement: every chunk it changes is in the epoch. */
  lemma FlushAgrees(
      before: Bytes, writes: seq<GuestWrite>, epoch: seq<Range>, adrift: set<nat>, image: Bytes, chunkSize: Positive)
    requires Agrees(before, epoch, adrift, image, chunkSize) && AllFit(writes, |before|)
    ensures Agrees(ApplyWrites(before, writes), epoch + Ranges(writes), adrift, image, chunkSize)
  {
    var after := ApplyWrites(before, writes);
    forall i: nat | i !in Touched(epoch + Ranges(writes), chunkSize) && i !in adrift
      ensures SameChunk(after, image, i, chunkSize)
    {
      BurstMisses(before, writes, epoch, i, chunkSize);
      hide SameChunk, ApplyWrites;
      SameChunkOnward(after, before, image, i, chunkSize);
    }
  }

  // ------------------------------------------------------------- putting back

  /** Once every written chunk is back, only chunks the manifest does not hold can still be adrift. */
  lemma HydratedAgrees(
      c: Codec, m: Manifest, objects: map<Id, Bytes>, base: Bytes, committed: Bytes,
      before: Bytes, after: Bytes, epoch: seq<Range>, adrift: set<nat>, image: Bytes)
    requires Represents(c, m, objects, base, committed) && (image == base || image == committed)
    requires Agrees(before, epoch, adrift, image, m.chunkSize)
    requires |after| == |before| && R.Half(after, committed, before, m.chunks.Keys, m.chunkSize)
    ensures Agrees(after, epoch, adrift - m.chunks.Keys, committed, m.chunkSize)
  {
    hide ChunkStored, Touched;
    forall i: nat | i !in Touched(epoch, m.chunkSize) && i !in adrift - m.chunks.Keys
      ensures SameChunk(after, committed, i, m.chunkSize)
    {
      assert SameChunk(after, if i in m.chunks.Keys then committed else before, i, m.chunkSize);
      if i !in m.chunks {
        assert SameChunk(committed, base, i, m.chunkSize);
        assert SameChunk(before, image, i, m.chunkSize);
      }
    }
  }

  lemma MembersNext(s: seq<nat>, k: nat)
    requires k <= |s|
    ensures R.Members(s[..0]) == {}
    ensures k < |s| ==> R.Members(s[..k + 1]) == R.Members(s[..k]) + {s[k]}
  {
    if k < |s| { assert s[..k + 1] == s[..k] + [s[k]]; }
  }

  lemma MembersAre(s: seq<nat>, keys: set<nat>)
    requires forall x :: x in s <==> x in keys
    ensures R.Members(s) == keys
  {
  }

  /** One stored chunk put back in its place. */
  lemma PutBack(
      c: Codec, m: Manifest, objects: map<Id, Bytes>, base: Bytes, committed: Bytes, disk: Bytes, before: Bytes,
      put: set<nat>, i: nat)
    requires c.Sound() && Represents(c, m, objects, base, committed) && i in m.chunks && |disk| == |before| == |committed|
    requires R.Half(disk, committed, before, put, m.chunkSize)
    ensures var piece := Chunk(committed, i, m.chunkSize);
            && ChunkStart(i, m.chunkSize) < |committed| && 0 <= ChunkStart(i, m.chunkSize)
            && m.chunks[i] in objects && R.Verified(c, m, i, objects[m.chunks[i]])
            && c.decrypt(objects[m.chunks[i]]) == Some(piece)
            && |piece| == ChunkLength(i, m.chunkSize, m.diskSize) && ChunkStart(i, m.chunkSize) + |piece| <= |disk|
            && R.Half(WriteAt(disk, ChunkStart(i, m.chunkSize), piece), committed, before, put + {i}, m.chunkSize)
  {
    assert ChunkStored(c, m, objects, committed, i);
    var piece := Chunk(committed, i, m.chunkSize);
    var d := WriteAt(disk, ChunkStart(i, m.chunkSize), piece);
    forall j: nat ensures SameChunk(d, if j in put + {i} then committed else before, j, m.chunkSize) {
      WriteChunk(disk, i, piece, j, m.chunkSize);
      if j != i {
        assert SameChunk(disk, if j in put then committed else before, j, m.chunkSize);
        hide SameChunk, WriteAt, Represents;
        SameChunkOnward(d, disk, if j in put then committed else before, j, m.chunkSize);
      }
    }
  }

  // ------------------------------------------------------------- reading the dirty chunks

  /**
   * The chunks read so far, while the guest went on writing: `target` has them,
   * and whatever is not in the new epoch is as it was when the epoch was sealed.
   */
  ghost predicate Reads(
      device: Bytes, sealedAs: Bytes, epoch: seq<Range>, target: Bytes, before: Bytes, done: set<nat>,
      chunkSize: Positive)
  {
    && |device| == |sealedAs| == |target| == |before|
    && (forall i: nat :: i !in done ==> SameChunk(target, before, i, chunkSize))
    && (forall i: nat :: i !in Touched(epoch, chunkSize) ==> SameChunk(device, sealedAs, i, chunkSize))
    && (forall i: nat :: i !in Touched(epoch, chunkSize) && i in done ==> SameChunk(device, target, i, chunkSize))
  }

  /** The guest's writes in between go to the new epoch. */
  lemma ReadsBurst(
      device: Bytes, sealedAs: Bytes, epoch: seq<Range>, target: Bytes, before: Bytes, done: set<nat>,
      writes: seq<GuestWrite>, chunkSize: Positive)
    requires Reads(device, sealedAs, epoch, target, before, done, chunkSize) && AllFit(writes, |device|)
    ensures Reads(ApplyWrites(device, writes), sealedAs, epoch + Ranges(writes), target, before, done, chunkSize)
  {
    var after := ApplyWrites(device, writes);
    forall i: nat | i !in Touched(epoch + Ranges(writes), chunkSize)
      ensures SameChunk(after, sealedAs, i, chunkSize) && (i in done ==> SameChunk(after, target, i, chunkSize))
    {
      BurstMisses(device, writes, epoch, i, chunkSize);
      hide SameChunk, ApplyWrites;
      SameChunkOnward(after, device, sealedAs, i, chunkSize);
      if i in done { SameChunkOnward(after, device, target, i, chunkSize); }
    }
  }

  /** Reading chunk `i` makes it the target's. */
  lemma ReadsNext(
      device: Bytes, sealedAs: Bytes, epoch: seq<Range>, target: Bytes, before: Bytes, done: set<nat>, i: nat,
      chunkSize: Positive)
    requires Reads(device, sealedAs, epoch, target, before, done, chunkSize) && 0 <= ChunkStart(i, chunkSize) < |device|
    ensures var next := WriteAt(target, ChunkStart(i, chunkSize), Chunk(device, i, chunkSize));
            Reads(device, sealedAs, epoch, next, before, done + {i}, chunkSize)
  {
    var piece := Chunk(device, i, chunkSize);
    var next := WriteAt(target, ChunkStart(i, chunkSize), piece);
    forall j: nat ensures if j == i then SameChunk(device, next, j, chunkSize) else SameChunk(next, target, j, chunkSize) {
      WriteChunk(target, i, piece, j, chunkSize);
    }
    hide WriteAt, Touched;
    forall j: nat | j !in done + {i} ensures SameChunk(next, before, j, chunkSize) {
      assert SameChunk(next, target, j, chunkSize) && SameChunk(target, before, j, chunkSize);
      hide SameChunk;
      SameChunkOnward(next, target, before, j, chunkSize);
    }
    forall j: nat | j !in Touched(epoch, chunkSize) && j in done + {i} ensures SameChunk(device, next, j, chunkSize) {
      if j != i {
        assert SameChunk(device, target, j, chunkSize) && SameChunk(next, target, j, chunkSize);
        SameChunkOnward(device, target, next, j, chunkSize);
      }
    }
  }

  /** Chunks already prepared are still the target's after another is read. */
  lemma PreparedNext(c: Codec, prepared: seq<Prepared>, target: Bytes, i: nat, piece: Bytes, chunkSize: Positive)
    requires 0 <= ChunkStart(i, chunkSize) < |target| && |piece| == ChunkLength(i, chunkSize, |target|)
    requires AllStoredForm(c, prepared, target, chunkSize)
    requires forall k :: 0 <= k < |prepared| ==> prepared[k].index < i
    ensures var next := WriteAt(target, ChunkStart(i, chunkSize), piece);
            var stored := c.encrypt(piece);
            AllStoredForm(c, prepared + [Prepared(i, stored, c.blobId(stored), c.sha256(stored))], next, chunkSize)
  {
    var next := WriteAt(target, ChunkStart(i, chunkSize), piece);
    var stored := c.encrypt(piece);
    var all := prepared + [Prepared(i, stored, c.blobId(stored), c.sha256(stored))];
    forall k | 0 <= k < |all| ensures StoredForm(c, all[k], next, chunkSize) {
      if k < |prepared| {
        assert StoredForm(c, prepared[k], target, chunkSize);
        WriteChunk(target, i, piece, prepared[k].index, chunkSize);
      } else {
        WriteChunk(target, i, piece, i, chunkSize);
      }
    }
  }

  // ------------------------------------------------------------- guest writes between the reads

  ghost predicate BurstsFit(bursts: seq<seq<GuestWrite>>, diskSize: nat) {
    forall k :: 0 <= k < |bursts| ==> AllFit(bursts[k], diskSize)
  }

  /** What the guest writes before the k-th read: nothing once the list is used up. */
  function Nth(bursts: seq<seq<GuestWrite>>, k: nat): seq<GuestWrite> {
    if k < |bursts| then bursts[k] else []
  }

  lemma NoBursts(diskSize: nat)
    ensures BurstsFit([], diskSize)
  {
  }

  ghost predicate OnDisk(indices: seq<nat>, chunkSize: Positive, diskSize: nat) {
    forall k :: 0 <= k < |indices| ==> ChunkStart(indices[k], chunkSize) < diskSize
  }

  /** One prepared chunk for each index, in the same order. */
  ghost predicate Lines(prepared: seq<Prepared>, indices: seq<nat>) {
    |prepared| == |indices| && forall k :: 0 <= k < |indices| ==> prepared[k].index == indices[k]
  }

  lemma LinesNext(prepared: seq<Prepared>, indices: seq<nat>, k: nat, p: Prepared)
    requires k < |indices| && Lines(prepared, indices[..k]) && p.index == indices[k]
    ensures Lines(prepared + [p], indices[..k + 1])
  {
  }

  /** The prepared chunks are in ascending order and are the dirty ones. */
  lemma LinesUp(prepared: seq<Prepared>, indices: seq<nat>)
    requires Lines(prepared, indices) && Increasing(indices)
    ensures Ascending(prepared) && Indices(prepared) == R.Members(indices)
  {
    forall i ensures i in Indices(prepared) <==> i in R.Members(indices) {
      if i in R.Members(indices) {
        var k :| 0 <= k < |indices| && indices[k] == i;
        assert prepared[k].index == i;
      }
    }
  }

  // ------------------------------------------------------------- committing

  /** An epoch ready to commit over `m`: the stored forms of the target's chunks, which is otherwise the committed disk. */
  ghost predicate Epochal(
      c: Codec, m: Manifest, prepared: seq<Prepared>, unseen: seq<Prepared>, known: set<Id>, committed: Bytes,
      target: Bytes)
  {
    && |target| == |committed| && Ascending(prepared) && AllStoredForm(c, prepared, target, m.chunkSize)
    && Carried(prepared, unseen, known)
    && forall i: nat :: i !in Indices(prepared) ==> SameChunk(target, committed, i, m.chunkSize)
  }

  /** The commit is live, holds the manifest, and has exactly this parent. */
  ghost predicate Landed(s: Store, c: Codec, commit: nat, m: Manifest, parent: Option<nat>) {
    && LiveCommit(s, c, commit, m)
    && s.commits[commit].parents == if parent.None? then [] else [parent.value]
  }

  lemma LandedGrows(s: Store, t: Store, c: Codec, commit: nat, m: Manifest, parent: Option<nat>)
    requires Landed(s, c, commit, m, parent) && Grows(s, t)
    ensures Landed(t, c, commit, m, parent)
  {
  }

  /** Carried chunks are all named by the next manifest. */
  lemma CarriedNamed(m: Manifest, prepared: seq<Prepared>, unseen: seq<Prepared>, known: set<Id>)
    requires Ascending(prepared) && Carried(prepared, unseen, known)
    ensures IdSet(unseen) <= NextManifest(m, prepared).chunks.Values
  {
    var next := NextManifest(m, prepared);
    forall id | id in IdSet(unseen) ensures id in next.chunks.Values {
      var p :| p in unseen && p.id == id;
      assert p in prepared;
      var k :| 0 <= k < |prepared| && prepared[k] == p;
      WithChunksAt(m.chunks, prepared, p.index);
      assert p.index in next.chunks && next.chunks[p.index] == id;
    }
  }

  lemma TreeAddressed(
      c: Codec, prepared: seq<Prepared>, unseen: seq<Prepared>, known: set<Id>, others: seq<Id>, manifestBytes: Bytes,
      target: Bytes, chunkSize: Positive)
    requires Carried(prepared, unseen, known) && AllStoredForm(c, prepared, target, chunkSize)
    ensures Addressed(TreeFiles(unseen, others, manifestBytes, c.blobId(manifestBytes)), c)
  {
    forall k | 0 <= k < |unseen| ensures unseen[k].id == c.blobId(unseen[k].bytes) {
      assert unseen[k] in unseen && unseen[k] in prepared;
      var j :| 0 <= j < |prepared| && prepared[j] == unseen[k];
      assert StoredForm(c, prepared[j], target, chunkSize);
    }
  }

  /** What the tree carries is uploaded. */
  lemma TreeUploads(unseen: seq<Prepared>, others: seq<Id>, manifestBytes: Bytes, manifestId: Id, u: map<Id, Bytes>)
    requires var files := TreeFiles(unseen, others, manifestBytes, manifestId);
             forall k :: 0 <= k < |files| && !files[k].skipUpload ==> files[k].id in u && u[files[k].id] == files[k].bytes
    ensures manifestId in u && u[manifestId] == manifestBytes
    ensures forall id :: id in IdSet(unseen) ==> id in u
  {
    var files := TreeFiles(unseen, others, manifestBytes, manifestId);
    assert files[|files| - 1] == File(ManifestPath, manifestBytes, manifestId, false);
    forall id | id in IdSet(unseen) ensures id in u {
      var p :| p in unseen && p.id == id;
      var k :| 0 <= k < |unseen| && unseen[k] == p;
      assert files[k] == File(ObjectPath(p.id), p.bytes, p.id, false);
    }
  }

  /** Everything a live tree lists is stored, as long as its manifest's chunks and the manifest are. */
  lemma TreeStored(
      c: Codec, m: Manifest, entries: seq<Entry>, manifestId: Id, objects: map<Id, Bytes>, base: Bytes, disk: Bytes)
    requires Represents(c, m, objects, base, disk) && manifestId in objects && LiveTree(entries, m, manifestId)
    ensures forall e :: e in entries ==> e.id in objects
  {
    var ids: seq<Id> :| Distinct(ids) && (set id | id in ids) == m.chunks.Values &&
      entries == ObjectEntries(ids) + [Entry(ManifestPath, manifestId)];
    forall k | 0 <= k < |entries| ensures entries[k].id in objects {
      if k < |ids| {
        assert ids[k] in (set id | id in ids);
        assert ids[k] in m.chunks.Values;
        var i :| i in m.chunks && m.chunks[i] == ids[k];
        assert ChunkStored(c, m, objects, disk, i);
      }
    }
  }

  lemma LiveFrom(s: Store, c: Codec, commit: nat, m: Manifest)
    requires commit in s.commits && s.commits[commit].tree in s.trees
    requires LiveTree(s.trees[s.commits[commit].tree], m, c.blobId(c.serialize(m)))
    requires forall e :: e in s.trees[s.commits[commit].tree] ==> e.id in s.objects
    ensures LiveCommit(s, c, commit, m)
  {
    hide LiveTree;
  }

  lemma DepositedIs(s: Store, files: seq<File>, parent: Option<nat>)
    ensures var t := Deposit(s, files, parent, false);
            && t.objects == Upload(s.objects, files) && s.n + 2 in t.commits && t.commits[s.n + 2].tree in t.trees
            && t.trees[t.commits[s.n + 2].tree] == Entries(files)
            && t.commits[s.n + 2].parents == if parent.None? then [] else [parent.value]
  {
    hide Upload, Entries;
  }

  lemma SoundFrom(s: Store, c: Codec, m: Manifest, head: nat, known: set<Id>, base: Bytes, committed: Bytes)
    requires c.Sound() && StoreOk(s, c) && Represents(c, m, s.objects, base, committed)
    requires (forall id :: id in known ==> id in s.objects) && LiveCommit(s, c, head, m)
    requires !m.compacted ==> m.digests.Keys == m.chunks.Keys
    ensures Sound(s, c, m, Some(head), known, base, committed)
  {
    hide Codec.Sound, StoreOk, Represents, LiveCommit;
  }

  lemma NextSame(m: Manifest, prepared: seq<Prepared>)
    ensures var next := NextManifest(m, prepared); SameDevice(next, m) && next.compacted == m.compacted && next.sync == m.sync + 1
  {
    hide WithChunks, WithDigests;
  }

  lemma SoundParts(s: Store, c: Codec, m: Manifest, head: Option<nat>, known: set<Id>, base: Bytes, committed: Bytes)
    requires Sound(s, c, m, head, known, base, committed)
    ensures (forall id :: id in known ==> id in s.objects) && (!m.compacted ==> m.digests.Keys == m.chunks.Keys)
    ensures forall id :: id in s.objects ==> id == c.blobId(s.objects[id])
  {
    hide Represents, LiveCommit, Codec.Sound;
  }

  lemma EpochalIs(
      c: Codec, m: Manifest, prepared: seq<Prepared>, unseen: seq<Prepared>, known: set<Id>, committed: Bytes,
      target: Bytes)
    ensures Epochal(c, m, prepared, unseen, known, committed, target) <==>
              && |target| == |committed| && Ascending(prepared) && AllStoredForm(c, prepared, target, m.chunkSize)
              && Carried(prepared, unseen, known)
              && forall i: nat :: i !in Indices(prepared) ==> SameChunk(target, committed, i, m.chunkSize)
  {
    hide Ascending, AllStoredForm, Carried, SameChunk, Indices;
  }

  lemma CarriedDistinct(prepared: seq<Prepared>, unseen: seq<Prepared>, known: set<Id>)
    requires Carried(prepared, unseen, known)
    ensures DistinctIds(unseen)
  {
    hide DistinctIds, IdSet;
  }

  /** What the host deposits for this epoch is sound for the target. */
  lemma CommitSound(
      s: Store, c: Codec, m: Manifest, prepared: seq<Prepared>, unseen: seq<Prepared>, others: seq<Id>,
      head: Option<nat>, known: set<Id>, base: Bytes, committed: Bytes, target: Bytes)
    requires Sound(s, c, m, head, known, base, committed) && Epochal(c, m, prepared, unseen, known, committed, target)
    requires Lists(others, NextManifest(m, prepared).chunks.Values - IdSet(unseen))
    ensures var next := NextManifest(m, prepared);
            var id := c.blobId(c.serialize(next));
            var t := Deposit(s, TreeFiles(unseen, others, c.serialize(next), id), head, false);
            && Grows(s, t) && Sound(t, c, next, Some(s.n + 2), known + IdSet(unseen) + {id}, base, target)
            && Landed(t, c, s.n + 2, next, head) && StoreOk(t, c)
  {
    hide *;
    var next := NextManifest(m, prepared);
    var bytes := c.serialize(next);
    var id := c.blobId(bytes);
    var files := TreeFiles(unseen, others, bytes, id);
    var t := Deposit(s, files, head, false);
    FromSound(s, c, m, head, known, base, committed);
    SoundParts(s, c, m, head, known, base, committed);
    EpochalIs(c, m, prepared, unseen, known, committed, target);
    CarriedNamed(m, prepared, unseen, known);
    CarriedDistinct(prepared, unseen, known);
    TreeIsLive(unseen, others, next, bytes, id);
    TreeAddressed(c, prepared, unseen, known, others, bytes, target, m.chunkSize);
    DepositGrows(s, files, head, false, c);
    DepositedIs(s, files, head);
    TreeUploads(unseen, others, bytes, id, t.objects);
    UploadStores(c, prepared, unseen, known, s.objects, t.objects, target, m.chunkSize);
    RepresentsGrows(s, t, c, m, base, committed);
    NextRepresents(c, m, prepared, t.objects, base, committed, target);
    TreeStored(c, next, Entries(files), id, t.objects, base, target);
    NextSame(m, prepared);
    if !m.compacted { NextCovered(m, prepared); }
    LiveFrom(t, c, s.n + 2, next);
    SoundFrom(t, c, next, s.n + 2, known + IdSet(unseen) + {id}, base, target);
    LandedIs(t, c, s.n + 2, next, head);
  }

  lemma LandedIs(s: Store, c: Codec, commit: nat, m: Manifest, parent: Option<nat>)
    requires LiveCommit(s, c, commit, m) && commit in s.commits
    requires s.commits[commit].parents == if parent.None? then [] else [parent.value]
    ensures Landed(s, c, commit, m, parent)
  {
    hide LiveCommit;
  }

  /** Moving a branch changes nothing else. */
  lemma Unbranched(s: Store, w: Store, t: Store, c: Codec)
    requires Grows(s, w) && StoreOk(w, c) && t.(branches := w.branches) == w
    ensures Grows(s, t) && Grows(w, t) && StoreOk(t, c)
  {
    assert t.objects == w.objects && t.trees == w.trees && t.commits == w.commits && t.n == w.n;
  }

  // ------------------------------------------------------------- rebasing

  lemma GrowsSelf(s: Store)
    ensures Grows(s, s)
  {
  }

  /** The chunks `theirs` holds that `previous` did not hold, or held otherwise. */
  function ChangedIn(previous: Manifest, theirs: Manifest): set<nat> {
    set i | i in theirs.chunks.Keys && (i !in previous.chunks || theirs.chunks[i] != previous.chunks[i])
  }

  /**
   * Both writers have changed the chunk: it is dirty here, and the other manifest
   * holds it, where the common ancestor's did not or with other bytes.
   */
  ghost predicate Clash(m: Manifest, theirs: Manifest, ancestor: Bytes, theirDisk: Bytes, dirty: set<nat>, i: nat) {
    && i in dirty && i in theirs.chunks && |theirDisk| == |ancestor|
    && (i in m.chunks ==> !SameChunk(theirDisk, ancestor, i, m.chunkSize))
  }

  ghost function Clashes(m: Manifest, theirs: Manifest, ancestor: Bytes, theirDisk: Bytes, dirty: set<nat>): set<nat> {
    set i | i in dirty && Clash(m, theirs, ancestor, theirDisk, dirty, i)
  }

  /** Comparing ids finds exactly those chunks: equal ids are of equal bytes. */
  lemma ClashesFound(
      c: Codec, m: Manifest, theirs: Manifest, objects: map<Id, Bytes>, base: Bytes, ancestor: Bytes, theirDisk: Bytes,
      dirty: set<nat>)
    requires c.Sound() && Represents(c, m, objects, base, ancestor) && Represents(c, theirs, objects, base, theirDisk)
    requires SameDevice(theirs, m)
    ensures ChangedIn(m, theirs) * dirty == Clashes(m, theirs, ancestor, theirDisk, dirty)
  {
    forall i: nat | i in dirty ensures i in ChangedIn(m, theirs) <==> Clash(m, theirs, ancestor, theirDisk, dirty, i) {
      if i in theirs.chunks && i in m.chunks { SameIdSameChunk(c, m, theirs, objects, base, ancestor, theirDisk, i); }
      hide Represents, SameChunk, Codec.Sound;
    }
  }

  lemma SameIdSameChunk(
      c: Codec, a: Manifest, b: Manifest, objects: map<Id, Bytes>, base: Bytes, da: Bytes, db: Bytes, i: nat)
    requires c.Sound() && Represents(c, a, objects, base, da) && Represents(c, b, objects, base, db) && SameDevice(b, a)
    requires i in a.chunks && i in b.chunks
    ensures |da| == |db| && (a.chunks[i] == b.chunks[i] <==> SameChunk(db, da, i, a.chunkSize))
  {
    assert ChunkStored(c, a, objects, da, i) && ChunkStored(c, b, objects, db, i);
    hide Chunk, ChunkStart;
    if a.chunks[i] == b.chunks[i] {
      assert c.decrypt(c.encrypt(Chunk(da, i, a.chunkSize))) == c.decrypt(c.encrypt(Chunk(db, i, b.chunkSize)));
    }
  }

  /** `merged` has this epoch's chunks from `target` and every other chunk from `theirDisk`. */
  ghost predicate Grafted(
      prepared: seq<Prepared>, target: Bytes, theirDisk: Bytes, merged: Bytes, chunkSize: Positive)
  {
    && |merged| == |target| == |theirDisk|
    && forall i: nat :: SameChunk(merged, if i in Indices(prepared) then target else theirDisk, i, chunkSize)
  }

  ghost function Merged(theirDisk: Bytes, target: Bytes, prepared: seq<Prepared>, chunkSize: Positive): Bytes {
    if |theirDisk| == |target| && forall k :: 0 <= k < |prepared| ==> ChunkStart(prepared[k].index, chunkSize) < |theirDisk|
    then Graft(theirDisk, target, prepared, chunkSize)
    else theirDisk
  }

  /** What the other writer's head gives: its manifest is held there and is sound to take over. */
  lemma ConflictHead(
      s: Store, c: Codec, h: nat, theirs: Manifest, theirDisk: Bytes, m: Manifest, head: Option<nat>, known: set<Id>, base: Bytes, committed: Bytes)
    requires Sound(s, c, m, head, known, base, committed) && SoundHead(s, c, h, theirs, theirDisk, m, base)
    ensures c.Sound() && Holds(s, c, h, theirs) && theirs.diskSize == m.diskSize
    ensures Sound(s, c, theirs, Some(h), known + TreeIds(s, h), base, theirDisk)
  {
    LiveHolds(s, c, h, theirs);
  }

  /** The epoch is as ready to commit over the other writer's manifest. */
  lemma RebaseEpochal(
      s: Store, c: Codec, h: nat, m: Manifest, theirs: Manifest, theirDisk: Bytes, prepared: seq<Prepared>, unseen: seq<Prepared>,
      known: set<Id>, base: Bytes, committed: Bytes, target: Bytes)
    requires SoundHead(s, c, h, theirs, theirDisk, m, base) && |committed| == |base|
    requires Epochal(c, m, prepared, unseen, known, committed, target)
    ensures var merged := Merged(theirDisk, target, prepared, theirs.chunkSize);
            && Epochal(c, theirs, prepared, unseen, known + TreeIds(s, h), theirDisk, merged)
            && Grafted(prepared, target, theirDisk, merged, theirs.chunkSize)
  {
    var chunkSize := m.chunkSize;
    assert |theirDisk| == |target| && theirs.chunkSize == chunkSize;
    forall k | 0 <= k < |prepared| ensures ChunkStart(prepared[k].index, chunkSize) < |theirDisk| {
      assert StoredForm(c, prepared[k], target, chunkSize);
    }
    var merged := Merged(theirDisk, target, prepared, chunkSize);
    hide Graft, Indices, Represents, LiveCommit, TreeIds, IdSet;
    forall i: nat ensures SameChunk(merged, if i in Indices(prepared) then target else theirDisk, i, chunkSize) {
      GraftChunks(theirDisk, target, prepared, chunkSize, i);
    }
    forall k | 0 <= k < |prepared| ensures StoredForm(c, prepared[k], merged, chunkSize) {
      assert StoredForm(c, prepared[k], target, chunkSize);
      IndexIn(prepared, k);
      assert SameChunk(merged, target, prepared[k].index, chunkSize);
    }
  }

  lemma IndexIn(prepared: seq<Prepared>, k: nat)
    requires k < |prepared|
    ensures prepared[k].index in Indices(prepared)
  {
  }

  // ------------------------------------------------------------- a whole sync

  ghost predicate AgreesOff(contents: Bytes, off: set<nat>, image: Bytes, chunkSize: Positive) {
    |contents| == |image| && forall i: nat :: i !in off ==> SameChunk(contents, image, i, chunkSize)
  }

  lemma AgreesIsOff(contents: Bytes, epoch: seq<Range>, adrift: set<nat>, image: Bytes, chunkSize: Positive)
    ensures Agrees(contents, epoch, adrift, image, chunkSize) <==> AgreesOff(contents, Touched(epoch, chunkSize) + adrift, image, chunkSize)
  {
    hide SameChunk, Touched;
  }

  /** Every dirty chunk lies on the disk. */
  lemma DirtyOnDisk(ranges: seq<Range>, chunkSize: Positive, diskSize: nat)
    requires WellPlaced(ranges, Some(diskSize))
    ensures OnDisk(Sorted(Touched(ranges, chunkSize)), chunkSize, diskSize)
  {
    assert WellPlaced(ranges, None);
    var indices := Sorted(Touched(ranges, chunkSize));
    hide Touched, Sorted;
    forall k | 0 <= k < |indices| ensures ChunkStart(indices[k], chunkSize) < diskSize {
      assert indices[k] in indices;
      TouchedExact(ranges, chunkSize, indices[k]);
      var b: nat :| Written(ranges, b) && b / chunkSize == indices[k];
      var j :| 0 <= j < |ranges| && Covers(ranges[j], b);
      DivBounds(b, chunkSize);
    }
  }

  lemma AgreesMore(
      contents: Bytes, epoch: seq<Range>, adrift: set<nat>, more: set<nat>, image: Bytes, chunkSize: Positive)
    requires AgreesOff(contents, Touched(epoch, chunkSize) + adrift + more, image, chunkSize)
    ensures Agrees(contents, epoch, adrift + more, image, chunkSize)
  {
    hide SameChunk, Touched;
  }

  lemma GrowsOn(s: Store, t: Store, u: Store)
    requires Grows(s, t) && Grows(t, u)
    ensures Grows(s, u)
  {
  }

  /** After the reads, nothing committed: only what was written since, was adrift, or was dirty can be wrong. */
  lemma ReadsKeep(
      device: Bytes, flushed: Bytes, epoch: seq<Range>, target: Bytes, committed: Bytes, dirty: set<nat>,
      adrift: set<nat>, chunkSize: Positive)
    requires AgreesOff(flushed, dirty + adrift, committed, chunkSize)
    requires Reads(device, flushed, epoch, target, committed, dirty, chunkSize)
    ensures AgreesOff(device, Touched(epoch, chunkSize) + (adrift + dirty), committed, chunkSize)
  {
    hide Touched;
    forall i: nat | i !in Touched(epoch, chunkSize) + (adrift + dirty) ensures SameChunk(device, committed, i, chunkSize) {
      assert SameChunk(device, flushed, i, chunkSize) && SameChunk(flushed, committed, i, chunkSize);
      hide SameChunk;
      SameChunkOnward(device, flushed, committed, i, chunkSize);
    }
  }

  /** With the target committed, the dirty chunks are right as well. */
  lemma ReadsSettle(
      device: Bytes, flushed: Bytes, epoch: seq<Range>, target: Bytes, committed: Bytes, dirty: set<nat>,
      adrift: set<nat>, chunkSize: Positive)
    requires AgreesOff(flushed, dirty + adrift, committed, chunkSize)
    requires Reads(device, flushed, epoch, target, committed, dirty, chunkSize)
    ensures AgreesOff(device, Touched(epoch, chunkSize) + (adrift - dirty), target, chunkSize)
  {
    hide Touched;
    forall i: nat | i !in Touched(epoch, chunkSize) + (adrift - dirty) ensures SameChunk(device, target, i, chunkSize) {
      if i !in dirty {
        assert SameChunk(device, flushed, i, chunkSize) && SameChunk(flushed, committed, i, chunkSize);
        assert SameChunk(target, committed, i, chunkSize);
      }
    }
  }

  lemma ReadsOff(
      device: Bytes, flushed: Bytes, epoch: seq<Range>, target: Bytes, committed: Bytes, dirty: set<nat>,
      adrift: set<nat>, chunkSize: Positive)
    requires AgreesOff(flushed, dirty + adrift, committed, chunkSize)
    requires Reads(device, flushed, epoch, target, committed, dirty, chunkSize)
    ensures AgreesOff(device, Touched(epoch, chunkSize) + (adrift + dirty), committed, chunkSize)
    ensures AgreesOff(device, Touched(epoch, chunkSize) + (adrift - dirty), target, chunkSize)
    ensures AgreesOff(target, dirty, committed, chunkSize)
  {
    ReadsKeep(device, flushed, epoch, target, committed, dirty, adrift, chunkSize);
    ReadsSettle(device, flushed, epoch, target, committed, dirty, adrift, chunkSize);
  }

  /** The device is as the pending writes left it, apart from chunks written since. */
  ghost predicate Flushed(device: Bytes, epoch: seq<Range>, was: Bytes, writes: seq<GuestWrite>, chunkSize: Positive) {
    AllFit(writes, |was|) && AgreesOff(device, Touched(epoch, chunkSize), ApplyWrites(was, writes), chunkSize)
  }

  lemma FlushedNow(device: Bytes, was: Bytes, writes: seq<GuestWrite>, chunkSize: Positive)
    requires AllFit(writes, |was|) && device == ApplyWrites(was, writes)
    ensures Flushed(device, [], was, writes, chunkSize)
  {
    hide ApplyWrites;
  }

  lemma ReadsFlushed(
      device: Bytes, flushed: Bytes, epoch: seq<Range>, target: Bytes, before: Bytes, done: set<nat>, was: Bytes,
      writes: seq<GuestWrite>, chunkSize: Positive)
    requires Reads(device, flushed, epoch, target, before, done, chunkSize)
    requires AllFit(writes, |was|) && flushed == ApplyWrites(was, writes)
    ensures Flushed(device, epoch, was, writes, chunkSize)
  {
    hide ApplyWrites, Touched, SameChunk;
  }

  /** With nothing written since, it is exactly as they left it. */
  lemma FlushedWholly(device: Bytes, was: Bytes, writes: seq<GuestWrite>, chunkSize: Positive)
    requires Flushed(device, [], was, writes, chunkSize)
    ensures AllFit(writes, |was|) && device == ApplyWrites(was, writes)
  {
    SameDisk(device, ApplyWrites(was, writes), chunkSize);
  }

  /** With nothing dirty and nothing since, what was flushed agrees as it did. */
  lemma AgreesSealed(contents: Bytes, dirty: set<nat>, adrift: set<nat>, image: Bytes, chunkSize: Positive)
    requires AgreesOff(contents, dirty + adrift, image, chunkSize) && |dirty| == 0
    ensures Agrees(contents, [], adrift, image, chunkSize)
  {
    hide SameChunk;
  }

  /** What was read and deduplicated is ready to commit. */
  lemma EpochReady(
      c: Codec, m: Manifest, prepared: seq<Prepared>, unseen: seq<Prepared>, known: set<Id>, indices: seq<nat>,
      device: Bytes, flushed: Bytes, epoch: seq<Range>, committed: Bytes, target: Bytes)
    requires Reads(device, flushed, epoch, target, committed, R.Members(indices), m.chunkSize)
    requires AllStoredForm(c, prepared, target, m.chunkSize) && Lines(prepared, indices) && Increasing(indices)
    requires Deduplicated(prepared, unseen, known)
    ensures Epochal(c, m, prepared, unseen, known, committed, target)
    ensures Indices(prepared) == R.Members(indices) && |prepared| == |indices|
  {
    LinesUp(prepared, indices);
    hide Indices, R.Members, SameChunk, Carried, AllStoredForm, Ascending;
  }

  /** Both manifests stand for their disks. */
  lemma ConflictGround(
      s: Store, c: Codec, h: nat, m: Manifest, theirs: Manifest, theirDisk: Bytes,
      head: Option<nat>, known: set<Id>, base: Bytes, committed: Bytes)
    requires SoundHead(s, c, h, theirs, theirDisk, m, base) && Sound(s, c, m, head, known, base, committed)
    ensures c.Sound() && Represents(c, m, s.objects, base, committed) && Represents(c, theirs, s.objects, base, theirDisk)
    ensures SameDevice(theirs, m)
  {
  }

  /** With the other writer's manifest taken over instead, the chunks that differ are adrift too. */
  lemma TakeoverKeeps(
      c: Codec, m: Manifest, theirs: Manifest, objects: map<Id, Bytes>, base: Bytes,
      device: Bytes, off: set<nat>, committed: Bytes, theirDisk: Bytes)
    requires c.Sound() && Represents(c, m, objects, base, committed) && Represents(c, theirs, objects, base, theirDisk)
    requires theirs.diskSize == m.diskSize && theirs.chunkSize == m.chunkSize
    requires AgreesOff(device, off, committed, m.chunkSize)
    ensures AgreesOff(device, off + Differing(m, theirs), theirDisk, m.chunkSize)
  {
    hide Differing;
    assert |committed| == |theirDisk|;
    forall i: nat | i !in off + Differing(m, theirs) ensures SameChunk(device, theirDisk, i, m.chunkSize) {
      SameWhereCommon(c, m, theirs, objects, base, committed, theirDisk, i);
      hide SameChunk, Represents, Codec.Sound;
      SameChunkOnward(device, committed, theirDisk, i, m.chunkSize);
    }
  }

  /** A rebase is a three-way merge: ours on the dirty chunks, theirs on theirs, the common ancestor elsewhere. */
  ghost predicate ThreeWay(
      merged: Bytes, ours: Bytes, theirs: Bytes, ancestor: Bytes, dirty: set<nat>, differing: set<nat>,
      chunkSize: Positive)
  {
    && |merged| == |ours| == |theirs| == |ancestor|
    && (forall i: nat :: i in dirty ==> SameChunk(merged, ours, i, chunkSize))
    && (forall i: nat :: i !in dirty && i in differing ==> SameChunk(merged, theirs, i, chunkSize))
    && (forall i: nat :: i !in dirty && i !in differing ==> SameChunk(merged, ancestor, i, chunkSize))
  }

  lemma RebaseKeeps(
      c: Codec, m: Manifest, theirs: Manifest, objects: map<Id, Bytes>, base: Bytes, prepared: seq<Prepared>,
      device: Bytes, flushed: Bytes, epoch: seq<Range>, adrift: set<nat>, committed: Bytes, target: Bytes, theirDisk: Bytes, merged: Bytes)
    requires c.Sound() && Represents(c, m, objects, base, committed) && Represents(c, theirs, objects, base, theirDisk)
    requires theirs.diskSize == m.diskSize && theirs.chunkSize == m.chunkSize
    requires AgreesOff(flushed, Indices(prepared) + adrift, committed, m.chunkSize)
    requires Reads(device, flushed, epoch, target, committed, Indices(prepared), m.chunkSize)
    requires Grafted(prepared, target, theirDisk, merged, m.chunkSize)
    ensures AgreesOff(device, Touched(epoch, m.chunkSize) + ((adrift - Indices(prepared)) + Differing(m, theirs)), merged, m.chunkSize)
    ensures ThreeWay(merged, target, theirDisk, committed, Indices(prepared), Differing(m, theirs), m.chunkSize)
  {
    var dirty := Indices(prepared);
    hide Indices, Differing, Touched;
    assert |committed| == |theirDisk|;
    forall i: nat | i !in dirty && i !in Differing(m, theirs) ensures SameChunk(merged, committed, i, m.chunkSize) {
      SameWhereCommon(c, m, theirs, objects, base, committed, theirDisk, i);
      assert SameChunk(merged, theirDisk, i, m.chunkSize);
    }
    hide Represents, Codec.Sound;
    ReadsSettle(device, flushed, epoch, target, committed, dirty, adrift, m.chunkSize);
    forall i: nat | i !in Touched(epoch, m.chunkSize) + ((adrift - dirty) + Differing(m, theirs))
      ensures SameChunk(device, merged, i, m.chunkSize)
    {
      assert SameChunk(device, target, i, m.chunkSize);
      if i in dirty {
        assert SameChunk(merged, target, i, m.chunkSize);
      } else {
        assert SameChunk(target, committed, i, m.chunkSize) && SameChunk(merged, committed, i, m.chunkSize);
      }
    }
  }

  /** A machine at one moment: its manifest and head, the disk they stand for, the chunks the device may have wrong, the pin, whether it was attached. */
  datatype View = View(manifest: Manifest, head: Option<nat>, committed: Bytes, adrift: set<nat>, pin: Option<Digest>, attached: bool)

  /** The branch is at a live commit of this manifest, whose parent is the head it replaced. */
  ghost predicate Moved(
      c: Codec, branch: string, s: Store, t: Store, w: View, dirty: set<nat>, r: Result<Report, SyncError>)
  {
    && r.Ok? && !r.value.skipped && w.head.Some? && r.value.commit == w.head == HeadOf(t, branch)
    && Landed(t, c, w.head.value, w.manifest, HeadOf(s, branch))
    && w.pin == Some(c.sha256(c.serialize(w.manifest)))
    && r.value.chunks == |dirty| == r.value.uploaded + r.value.reused
  }

  /**
   * What comes of a sync with something to commit: `v` before and `w` after it,
   * on a store that went from `s` to `t`.
   */
  ghost predicate Outcome(
      c: Codec, branch: string, s: Store, t: Store, v: View, w: View, dirty: set<nat>, ours: Bytes,
      theirs: Manifest, theirDisk: Bytes, retry: bool, r: Result<Report, SyncError>)
  {
    var h := HeadOf(s, branch);
    var both, differing := Clashes(v.manifest, theirs, v.committed, theirDisk, dirty), Differing(v.manifest, theirs);
    if h == v.head then
      // Nobody else moved the branch: this epoch is committed over what was.
      && Moved(c, branch, s, t, w, dirty, r)
      && SameDevice(w.manifest, v.manifest) && w.manifest.compacted == v.manifest.compacted
      && w.manifest.sync == v.manifest.sync + 1
      && w.adrift == v.adrift - dirty && w.attached == v.attached
      && w.committed == ours && AgreesOff(ours, dirty, v.committed, w.manifest.chunkSize)
    else if !retry || h.None? then
      // Lost, and not to be rebased: what was sealed is lost to the next sync.
      && r == Err(if retry then LoadFailed(NoBranch) else LostRace) && t.branches == s.branches
      && w == v.(adrift := v.adrift + dirty)
    else if both != {} then
      // Both writers changed some chunk: refused, with the other manifest now in hand.
      && r == Err(Overlap(both)) && t.branches == s.branches
      && w == View(theirs, h, theirDisk, (v.adrift + dirty) + differing, v.pin, true)
    else
      // Rebased: a chunkwise three-way merge.
      && Moved(c, branch, s, t, w, dirty, r)
      && SameDevice(w.manifest, v.manifest) && w.manifest.compacted == theirs.compacted
      && w.manifest.sync == theirs.sync + 1
      && w.adrift == (v.adrift - dirty) + differing && w.attached
      && ThreeWay(w.committed, ours, theirDisk, v.committed, dirty, differing, w.manifest.chunkSize)
  }

  /** The outcome looks only at the branches of the store it started from. */
  lemma OutcomeFrom(
      c: Codec, branch: string, s: Store, lost: Store, t: Store, v: View, w: View, dirty: set<nat>, ours: Bytes,
      theirs: Manifest, theirDisk: Bytes, r: Result<Report, SyncError>)
    requires lost.branches == s.branches
    requires Outcome(c, branch, lost, t, v, w, dirty, ours, theirs, theirDisk, true, r)
    ensures Outcome(c, branch, s, t, v, w, dirty, ours, theirs, theirDisk, true, r)
  {
    hide Landed, ThreeWay, AgreesOff, Clashes, Differing;
    assert HeadOf(s, branch) == HeadOf(lost, branch);
  }

  lemma OutcomeGone(
      c: Codec, branch: string, s: Store, t: Store, v: View, w: View, dirty: set<nat>, ours: Bytes, theirs: Manifest, theirDisk: Bytes)
    requires HeadOf(s, branch) != v.head && HeadOf(s, branch).None? && t.branches == s.branches && w == v.(adrift := v.adrift + dirty)
    ensures Outcome(c, branch, s, t, v, w, dirty, ours, theirs, theirDisk, true, Err(LoadFailed(NoBranch)))
  {
    hide Moved, ThreeWay, AgreesOff, Clashes, Differing;
  }

  lemma OutcomeOverlap(
      c: Codec, branch: string, s: Store, t: Store, v: View, w: View, dirty: set<nat>, ours: Bytes, theirs: Manifest, theirDisk: Bytes)
    requires HeadOf(s, branch) != v.head && HeadOf(s, branch).Some? && Clashes(v.manifest, theirs, v.committed, theirDisk, dirty) != {}
    requires t.branches == s.branches
    requires w == View(theirs, HeadOf(s, branch), theirDisk, (v.adrift + dirty) + Differing(v.manifest, theirs), v.pin, true)
    ensures Outcome(c, branch, s, t, v, w, dirty, ours, theirs, theirDisk, true, Err(Overlap(Clashes(v.manifest, theirs, v.committed, theirDisk, dirty))))
  {
    hide Moved, ThreeWay, AgreesOff, Clashes, Differing;
  }

  lemma OutcomeRebased(
      c: Codec, branch: string, s: Store, t: Store, v: View, w: View, dirty: set<nat>, ours: Bytes, theirs: Manifest, theirDisk: Bytes,
      r: Result<Report, SyncError>)
    requires HeadOf(s, branch) != v.head && HeadOf(s, branch).Some? && Clashes(v.manifest, theirs, v.committed, theirDisk, dirty) == {}
    requires Moved(c, branch, s, t, w, dirty, r) && SameDevice(w.manifest, v.manifest) && w.attached
    requires w.manifest.compacted == theirs.compacted && w.manifest.sync == theirs.sync + 1
    requires w.adrift == (v.adrift - dirty) + Differing(v.manifest, theirs)
    requires ThreeWay(w.committed, ours, theirDisk, v.committed, dirty, Differing(v.manifest, theirs), w.manifest.chunkSize)
    ensures Outcome(c, branch, s, t, v, w, dirty, ours, theirs, theirDisk, true, r)
  {
    hide Moved, ThreeWay, AgreesOff, Clashes, Differing;
  }

  /** With nobody else on the branch, the manifest stays one of the same device and the pin is of what was committed. */
  lemma OutcomeAlone(
      c: Codec, branch: string, s: Store, t: Store, v: View, w: View, dirty: set<nat>, ours: Bytes, theirs: Manifest, theirDisk: Bytes,
      retry: bool, r: Result<Report, SyncError>)
    requires Outcome(c, branch, s, t, v, w, dirty, ours, theirs, theirDisk, retry, r) && HeadOf(s, branch) == v.head
    ensures w.head.Some? && HeadOf(t, branch) == w.head && w.adrift == v.adrift - dirty && w.attached == v.attached
    ensures SameDevice(w.manifest, v.manifest) && w.manifest.compacted == v.manifest.compacted
    ensures w.pin == Some(c.sha256(c.serialize(w.manifest)))
  {
    hide ThreeWay, AgreesOff, Clashes, Differing, Landed, SameDevice;
  }
}
