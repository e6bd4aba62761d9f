/**
 * One epoch's chunks on their way into a manifest (src/core/machine.js, the
 * chunking, deduplication and manifest steps of `sync`), and what the manifest
 * then stands for.
 */
module Epoch {
  import opened Common
  import opened Chunker
  import opened Repo
  import opened Device

  /** A dirty chunk as it will be stored. */
  datatype Prepared = Prepared(index: nat, bytes: Bytes, id: Id, digest: Digest)

  function WithChunks(chunks: map<nat, Id>, prepared: seq<Prepared>): map<nat, Id> {
    if prepared == [] then chunks
    else
      var p := prepared[|prepared| - 1];
      WithChunks(chunks, prepared[..|prepared| - 1])[p.index := p.id]
  }

  function WithDigests(digests: map<nat, Digest>, prepared: seq<Prepared>): map<nat, Digest> {
    if prepared == [] then digests
    else
      var p := prepared[|prepared| - 1];
      WithDigests(digests, prepared[..|prepared| - 1])[p.index := p.digest]
  }

  /** What the manifest names already, with this epoch's chunks over it. */
  function NextManifest(m: Manifest, prepared: seq<Prepared>): Manifest {
    m.(chunks := WithChunks(m.chunks, prepared), digests := WithDigests(m.digests, prepared), sync := m.sync + 1)
  }

  /** The prepared chunk is the stored form of the target's. */
  ghost predicate StoredForm(c: Codec, p: Prepared, target: Bytes, chunkSize: Positive) {
    && ChunkStart(p.index, chunkSize) < |target|
    && p.bytes == c.encrypt(Chunk(target, p.index, chunkSize))
    && p.id == c.blobId(p.bytes) && p.digest == c.sha256(p.bytes)
  }

  ghost predicate AllStoredForm(c: Codec, prepared: seq<Prepared>, target: Bytes, chunkSize: Positive) {
    forall k :: 0 <= k < |prepared| ==> StoredForm(c, prepared[k], target, chunkSize)
  }

  ghost predicate Ascending(prepared: seq<Prepared>) {
    forall j, k :: 0 <= j < k < |prepared| ==> prepared[j].index < prepared[k].index
  }

  /** The chunk indices of this epoch. */
  function Indices(prepared: seq<Prepared>): set<nat> {
    set k | 0 <= k < |prepared| :: prepared[k].index
  }

  lemma {:induction false} WithChunksAt(chunks: map<nat, Id>, prepared: seq<Prepared>, i: nat)
    requires Ascending(prepared)
    ensures var next := WithChunks(chunks, prepared);
            && (i !in Indices(prepared) ==> (i in next <==> i in chunks) && (i in chunks ==> next[i] == chunks[i]))
            && (forall k :: 0 <= k < |prepared| && prepared[k].index == i ==> i in next && next[i] == prepared[k].id)
    decreases |prepared|
  {
    if prepared != [] {
      var n := |prepared| - 1;
      var front := prepared[..n];
      WithChunksAt(chunks, front, i);
      forall k | 0 <= k < |prepared| && prepared[k].index == i
        ensures i in WithChunks(chunks, prepared) && WithChunks(chunks, prepared)[i] == prepared[k].id
      {
        if k < n { assert front[k] == prepared[k]; }
      }
    }
  }

  lemma {:induction false} WithDigestsAt(digests: map<nat, Digest>, prepared: seq<Prepared>, i: nat)
    requires Ascending(prepared)
    ensures var next := WithDigests(digests, prepared);
            && (i !in Indices(prepared) ==> (i in next <==> i in digests) && (i in digests ==> next[i] == digests[i]))
            && (forall k :: 0 <= k < |prepared| && prepared[k].index == i ==> i in next && next[i] == prepared[k].digest)
    decreases |prepared|
  {
    if prepared != [] {
      var n := |prepared| - 1;
      var front := prepared[..n];
      WithDigestsAt(digests, front, i);
      forall k | 0 <= k < |prepared| && prepared[k].index == i
        ensures i in WithDigests(digests, prepared) && WithDigests(digests, prepared)[i] == prepared[k].digest
      {
        if k < n { assert front[k] == prepared[k]; }
      }
    }
  }

  lemma IndexOf(prepared: seq<Prepared>, i: nat) returns (k: nat)
    requires i in Indices(prepared)
    ensures k < |prepared| && prepared[k].index == i
  {
    k :| 0 <= k < |prepared| && prepared[k].index == i;
  }

  /** Every prepared chunk is in the store. */
  ghost predicate AllStored(prepared: seq<Prepared>, objects: map<Id, Bytes>) {
    forall k :: 0 <= k < |prepared| ==> prepared[k].id in objects && objects[prepared[k].id] == prepared[k].bytes
  }

  /**
   * The next manifest stands for the target: this epoch's chunks from it, and
   * every other chunk as the manifest before had it.
   */
  lemma NextRepresents(
      c: Codec, m: Manifest, prepared: seq<Prepared>, objects: map<Id, Bytes>, base: Bytes, before: Bytes,
      target: Bytes)
    requires Represents(c, m, objects, base, before) && |target| == |before|
    requires Ascending(prepared) && AllStoredForm(c, prepared, target, m.chunkSize) && AllStored(prepared, objects)
    requires forall i: nat :: i !in Indices(prepared) ==> SameChunk(target, before, i, m.chunkSize)
    ensures Represents(c, NextManifest(m, prepared), objects, base, target)
  {
    var next := NextManifest(m, prepared);
    hide Chunk, ChunkStart, ChunkLength, WithChunks, WithDigests, Indices;
    forall i | i in next.chunks ensures ChunkStored(c, next, objects, target, i) {
      WithChunksAt(m.chunks, prepared, i);
      if i in Indices(prepared) {
        var k := IndexOf(prepared, i);
        assert StoredForm(c, prepared[k], target, m.chunkSize);
      } else {
        assert ChunkStored(c, m, objects, before, i);
        assert SameChunk(target, before, i, m.chunkSize);
      }
    }
    forall i | i in next.digests
      ensures i in next.chunks && ChunkStart(i, next.chunkSize) < |target| &&
              next.digests[i] == c.sha256(c.encrypt(Chunk(target, i, next.chunkSize)))
    {
      WithDigestsAt(m.digests, prepared, i);
      WithChunksAt(m.chunks, prepared, i);
      if i in Indices(prepared) {
        var k := IndexOf(prepared, i);
        assert StoredForm(c, prepared[k], target, m.chunkSize);
      } else {
        assert SameChunk(target, before, i, m.chunkSize);
      }
    }
    forall i: nat | i !in next.chunks ensures SameChunk(target, base, i, next.chunkSize) {
      WithChunksAt(m.chunks, prepared, i);
      if i in Indices(prepared) { var k := IndexOf(prepared, i); }
      assert SameChunk(target, before, i, m.chunkSize) && SameChunk(before, base, i, m.chunkSize);
      SameChunkOnward(target, before, base, i, m.chunkSize);
    }
  }

  /** When digests covered every chunk they still do. */
  lemma NextCovered(m: Manifest, prepared: seq<Prepared>)
    requires Ascending(prepared) && m.digests.Keys == m.chunks.Keys
    ensures NextManifest(m, prepared).digests.Keys == NextManifest(m, prepared).chunks.Keys
  {
    forall i: nat ensures i in NextManifest(m, prepared).digests <==> i in NextManifest(m, prepared).chunks {
      WithChunksAt(m.chunks, prepared, i);
      WithDigestsAt(m.digests, prepared, i);
      if i in Indices(prepared) { var k := IndexOf(prepared, i); }
    }
  }

  // ------------------------------------------------------------- deduplication

  predicate DistinctIds(unseen: seq<Prepared>) {
    forall j, k :: 0 <= j < k < |unseen| ==> unseen[j].id != unseen[k].id
  }

  function IdSet(chunks: seq<Prepared>): set<Id> {
    set p | p in chunks :: p.id
  }

  /** Each chunk is already known, or is among those carried along, which are all different. */
  ghost predicate Carried(prepared: seq<Prepared>, unseen: seq<Prepared>, known: set<Id>) {
    && DistinctIds(unseen)
    && (forall p :: p in unseen ==> p in prepared)
    && (forall p :: p in prepared ==> p.id in known + IdSet(unseen))
  }

  /** Nothing carried along is known already. */
  ghost predicate Deduplicated(prepared: seq<Prepared>, unseen: seq<Prepared>, known: set<Id>) {
    Carried(prepared, unseen, known) && forall p :: p in unseen ==> p.id !in known
  }

  /** The local probe: what the repository is known to hold, or this sync already carries, is skipped. */
  method Dedup(prepared: seq<Prepared>, known: set<Id>) returns (unseen: seq<Prepared>, reused: nat)
    ensures Deduplicated(prepared, unseen, known) && |prepared| == |unseen| + reused
  {
    unseen, reused := [], 0;
    var seen: set<Id> := {};
    for k := 0 to |prepared|
      invariant k == |unseen| + reused && seen == IdSet(unseen) && DistinctIds(unseen)
      invariant forall p :: p in unseen ==> p in prepared && p.id !in known
      invariant forall j :: 0 <= j < k ==> prepared[j].id in known + seen
    {
      var p := prepared[k];
      if p.id in known || p.id in seen {
        reused := reused + 1;
      } else {
        assert forall j :: 0 <= j < |unseen| ==> unseen[j].id in seen;
        seen := seen + {p.id};
        unseen := unseen + [p];
      }
    }
  }

  // ------------------------------------------------------------- the tree

  ghost predicate Lists(s: seq<Id>, ids: set<Id>) {
    Distinct(s) && forall id :: id in s <==> id in ids
  }

  /** A set of ids as a list, in whatever order. */
  method ListOf(ids: set<Id>) returns (s: seq<Id>)
    ensures Lists(s, ids)
  {
    s := [];
    var left := ids;
    while left != {}
      invariant left <= ids && Lists(s, ids - left)
      decreases left
    {
      var id :| id in left;
      s := s + [id];
      left := left - {id};
    }
  }

  function UnseenFiles(unseen: seq<Prepared>): seq<File> {
    seq(|unseen|, k requires 0 <= k < |unseen| => File(ObjectPath(unseen[k].id), unseen[k].bytes, unseen[k].id, false))
  }

  /** Objects the repository has, which the tree only lists. */
  function KnownFiles(ids: seq<Id>): seq<File> {
    seq(|ids|, k requires 0 <= k < |ids| => File(ObjectPath(ids[k]), [], ids[k], true))
  }

  function TreeFiles(unseen: seq<Prepared>, others: seq<Id>, manifestBytes: Bytes, manifestId: Id): seq<File> {
    UnseenFiles(unseen) + KnownFiles(others) + [File(ManifestPath, manifestBytes, manifestId, false)]
  }

  function Ids(unseen: seq<Prepared>): seq<Id> {
    seq(|unseen|, k requires 0 <= k < |unseen| => unseen[k].id)
  }

  lemma ListsConcat(a: seq<Id>, b: seq<Id>, some: set<Id>, ids: set<Id>)
    requires some <= ids && Lists(a, some) && Lists(b, ids - some)
    ensures Lists(a + b, ids)
  {
    assert forall k :: 0 <= k < |a| ==> a[k] in a;
    assert forall k :: 0 <= k < |b| ==> b[k] in b;
  }

  lemma IdsListed(chunks: seq<Prepared>)
    requires DistinctIds(chunks)
    ensures Lists(Ids(chunks), IdSet(chunks))
  {
    forall id ensures id in Ids(chunks) <==> id in IdSet(chunks) {
      if id in IdSet(chunks) {
        var p :| p in chunks && p.id == id;
        var k :| 0 <= k < |chunks| && chunks[k] == p;
        assert Ids(chunks)[k] == id;
      }
      if id in Ids(chunks) {
        var k :| 0 <= k < |chunks| && Ids(chunks)[k] == id;
        assert chunks[k] in chunks;
      }
    }
  }

  /** The tree lists each object the manifest names once, and the manifest. */
  lemma TreeIsLive(unseen: seq<Prepared>, others: seq<Id>, m: Manifest, manifestBytes: Bytes, manifestId: Id)
    requires DistinctIds(unseen) && IdSet(unseen) <= m.chunks.Values
    requires Lists(others, m.chunks.Values - IdSet(unseen))
    ensures LiveTree(Entries(TreeFiles(unseen, others, manifestBytes, manifestId)), m, manifestId)
  {
    hide IdSet, Lists;
    IdsListed(unseen);
    ListsConcat(Ids(unseen), others, IdSet(unseen), m.chunks.Values);
    var ids := Ids(unseen) + others;
    assert Entries(TreeFiles(unseen, others, manifestBytes, manifestId)) == ObjectEntries(ids) + [Entry(ManifestPath, manifestId)];
  }

  /** After the upload every prepared chunk is in the store. */
  lemma UploadStores(
      c: Codec, prepared: seq<Prepared>, unseen: seq<Prepared>, known: set<Id>, objects: map<Id, Bytes>,
      u: map<Id, Bytes>, target: Bytes, chunkSize: Positive)
    requires c.Sound() && Carried(prepared, unseen, known) && AllStoredForm(c, prepared, target, chunkSize)
    requires forall id :: id in known ==> id in objects
    requires forall id :: id in objects ==> id in u
    requires forall id :: id in u ==> id == c.blobId(u[id])
    requires forall id :: id in IdSet(unseen) ==> id in u
    ensures AllStored(prepared, u)
  {
    hide Chunk, ChunkStart;
    forall k | 0 <= k < |prepared| ensures prepared[k].id in u && u[prepared[k].id] == prepared[k].bytes {
      assert StoredForm(c, prepared[k], target, chunkSize);
      var id := prepared[k].id;
      assert prepared[k] in prepared;
      assert c.blobId(u[id]) == c.blobId(prepared[k].bytes);
    }
  }

  // ------------------------------------------------------------- rebasing

  /** `onto`, with the chunks of this epoch taken from `from`. */
  ghost function Graft(onto: Bytes, from: Bytes, prepared: seq<Prepared>, chunkSize: Positive): (r: Bytes)
    requires |onto| == |from| && forall k :: 0 <= k < |prepared| ==> ChunkStart(prepared[k].index, chunkSize) < |onto|
    ensures |r| == |onto|
    decreases |prepared|
  {
    if prepared == [] then onto
    else
      var n := |prepared| - 1;
      MulLe(0, prepared[n].index, chunkSize);
      WriteAt(Graft(onto, from, prepared[..n], chunkSize), ChunkStart(prepared[n].index, chunkSize), Chunk(from, prepared[n].index, chunkSize))
  }

  lemma {:induction false} GraftChunks(onto: Bytes, from: Bytes, prepared: seq<Prepared>, chunkSize: Positive, i: nat)
    requires |onto| == |from| && forall k :: 0 <= k < |prepared| ==> ChunkStart(prepared[k].index, chunkSize) < |onto|
    ensures SameChunk(Graft(onto, from, prepared, chunkSize), if i in Indices(prepared) then from else onto, i, chunkSize)
    decreases |prepared|
  {
    if prepared == [] {
    } else {
      var n := |prepared| - 1;
      var front, last := prepared[..n], prepared[n].index;
      assert forall k :: 0 <= k < |front| ==> front[k] == prepared[k];
      GraftChunks(onto, from, front, chunkSize, i);
      MulLe(0, last, chunkSize);
      var d := Graft(onto, from, front, chunkSize);
      WriteChunk(d, last, Chunk(from, last, chunkSize), i, chunkSize);
      hide Indices, WriteAt;
      if i != last {
        hide SameChunk;
        SameChunkOnward(
          Graft(onto, from, prepared, chunkSize), d, if i in Indices(prepared) then from else onto, i, chunkSize);
      }
    }
  }
}
