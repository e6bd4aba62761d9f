/**
 * The repository a machine is committed to: the manifest (src/core/manifest.js),
 * the host's objects, trees, commits and branches (app/demo-loop.js), and when a
 * manifest stands for a disk.
 *
 * Hashes, the cipher and the manifest's serialisation are parameters. What is
 * known of them is `Sound`: no two byte strings share an id or a digest,
 * deciphering undoes enciphering, and parsing undoes serialising.
 */
module Repo {
  import opened Common
  import opened Chunker

  type Positive = n: int | n > 0 witness 1
  type Id = string
  type Digest = s: string | s != "" witness "0"

  /** Chunk index to object id, and to the digest of the stored bytes. */
  datatype Manifest = Manifest(
    diskSize: nat, chunkSize: Positive, base: string, baseIsBlank: bool, sync: nat,
    chunks: map<nat, Id>, digests: map<nat, Digest>, compacted: bool)

  datatype Codec = Codec(
    encrypt: Bytes -> Bytes, decrypt: Bytes -> Option<Bytes>,
    blobId: Bytes -> Id, sha256: Bytes -> Digest,
    serialize: Manifest -> Bytes, parse: Bytes -> Option<Manifest>)
  {
    ghost predicate Sound() {
      && (forall b: Bytes :: decrypt(encrypt(b)) == Some(b))
      && (forall a: Bytes, b: Bytes :: blobId(a) == blobId(b) ==> a == b)
      && (forall a: Bytes, b: Bytes :: sha256(a) == sha256(b) ==> a == b)
      && (forall m: Manifest :: parse(serialize(m)) == Some(m))
    }
  }

  function Create(diskSize: int, chunkSize: int, base: string, baseIsBlank: bool): Option<Manifest> {
    if diskSize <= 0 || chunkSize <= 0 || base == "" then None
    else Some(Manifest(diskSize, chunkSize, base, baseIsBlank, 0, map[], map[], false))
  }

  /** Only a disk of some size in chunks of some size over a named image can be created, and nothing of it is stored yet. */
  lemma CreateExactly(diskSize: int, chunkSize: int, base: string, baseIsBlank: bool)
    ensures var m := Create(diskSize, chunkSize, base, baseIsBlank);
            && (m.Some? <==> diskSize >= 1 && chunkSize >= 1 && |base| >= 1)
            && (m.Some? ==>
                  && m.value.diskSize == diskSize && m.value.chunkSize == chunkSize && m.value.base == base
                  && m.value.baseIsBlank == baseIsBlank && m.value.sync == 0 && m.value.chunks.Keys == m.value.digests.Keys == {})
  {
  }

  /** What a machine is created with for good: its geometry, and the image its unwritten chunks come from. */
  predicate SameDevice(a: Manifest, b: Manifest) {
    a.diskSize == b.diskSize && a.chunkSize == b.chunkSize && a.base == b.base && a.baseIsBlank == b.baseIsBlank
  }

  lemma SameDeviceOnward(a: Manifest, b: Manifest, c: Manifest)
    requires SameDevice(b, a) && SameDevice(c, b)
    ensures SameDevice(c, a)
  {
  }

  // ------------------------------------------------------------- the host

  datatype Path = ManifestPath | ObjectPath(id: Id)
  datatype Entry = Entry(path: Path, id: Id)
  datatype File = File(path: Path, bytes: Bytes, id: Id, skipUpload: bool)
  datatype CommitRecord = CommitRecord(tree: nat, parents: seq<nat>)

  /** Everything the host holds. Trees and commits are named by a counter. */
  datatype Store = Store(
    objects: map<Id, Bytes>, trees: map<nat, seq<Entry>>, commits: map<nat, CommitRecord>,
    branches: map<string, nat>, n: nat)

  function Upload(objects: map<Id, Bytes>, files: seq<File>): map<Id, Bytes> {
    if files == [] then objects
    else
      var f := files[|files| - 1];
      var before := Upload(objects, files[..|files| - 1]);
      if f.skipUpload then before else before[f.id := f.bytes]
  }

  function Entries(files: seq<File>): seq<Entry> {
    seq(|files|, k requires 0 <= k < |files| => Entry(files[k].path, files[k].id))
  }

  function HeadOf(s: Store, branch: string): Option<nat> {
    if branch in s.branches then Some(s.branches[branch]) else None
  }

  /** The objects, the tree and the commit, written whether or not the branch then moves. */
  function Deposit(s: Store, files: seq<File>, parent: Option<nat>, orphan: bool): Store {
    s.(objects := Upload(s.objects, files),
       trees := s.trees[s.n + 1 := Entries(files)],
       commits := s.commits[s.n + 2 := CommitRecord(s.n + 1, if orphan || parent.None? then [] else [parent.value])],
       n := s.n + 2)
  }

  class MemoryHost {
    var objects: map<Id, Bytes>
    var trees: map<nat, seq<Entry>>
    var commits: map<nat, CommitRecord>
    var branches: map<string, nat>
    var n: nat

    function Abs(): Store
      reads this
    {
      Store(objects, trees, commits, branches, n)
    }

    constructor ()
      ensures Abs() == Store(map[], map[], map[], map[], 0)
    {
      objects, trees, commits, branches, n := map[], map[], map[], map[], 0;
    }

    /** Upload, write tree and commit, then move the branch if nobody else has: compare and swap. */
    method Commit(branch: string, files: seq<File>, parent: Option<nat>, orphan: bool) returns (r: Option<nat>)
      modifies this
      ensures r == if orphan || HeadOf(old(Abs()), branch) == parent then Some(old(n) + 2) else None
      ensures var w := Deposit(old(Abs()), files, parent, orphan);
              Abs() == if r.Some? then w.(branches := w.branches[branch := r.value]) else w
    {
      for k := 0 to |files|
        invariant objects == Upload(old(objects), files[..k])
        invariant (trees, commits, branches, n) == old((trees, commits, branches, n))
      {
        assert files[..k + 1][..k] == files[..k];
        if !files[k].skipUpload { objects := objects[files[k].id := files[k].bytes]; }
      }
      assert files[..|files|] == files;
      n := n + 1;
      var tree := n;
      trees := trees[tree := Entries(files)];
      n := n + 1;
      commits := commits[n := CommitRecord(tree, if orphan || parent.None? then [] else [parent.value])];
      var current := if branch in branches then Some(branches[branch]) else None;
      if !orphan && current != parent { return None; }
      branches := branches[branch := n];
      return Some(n);
    }
  }

  /** Names are used up in order, and every object is filed under its own hash. */
  ghost predicate StoreOk(s: Store, c: Codec) {
    && (forall k :: k in s.trees ==> k <= s.n)
    && (forall k :: k in s.commits ==> k <= s.n)
    && (forall id :: id in s.objects ==> id == c.blobId(s.objects[id]))
  }

  function FindManifest(entries: seq<Entry>): Option<Id> {
    if entries == [] then None
    else if entries[0].path.ManifestPath? then Some(entries[0].id)
    else FindManifest(entries[1..])
  }

  /** The commit's manifest is `m`. */
  ghost predicate Holds(s: Store, c: Codec, commit: nat, m: Manifest) {
    && commit in s.commits && s.commits[commit].tree in s.trees
    && var id := FindManifest(s.trees[s.commits[commit].tree]);
       id.Some? && id.value in s.objects && s.objects[id.value] == c.serialize(m)
  }

  function ObjectEntries(ids: seq<Id>): seq<Entry> {
    seq(|ids|, k requires 0 <= k < |ids| => Entry(ObjectPath(ids[k]), ids[k]))
  }

  ghost predicate Distinct<T>(s: seq<T>) {
    forall i, j :: 0 <= i < j < |s| ==> s[i] != s[j]
  }

  /** A tree that lists exactly the objects the manifest names, each once, and the manifest. */
  ghost predicate LiveTree(entries: seq<Entry>, m: Manifest, manifestId: Id) {
    exists ids: seq<Id> ::
      Distinct(ids) && (set id | id in ids) == m.chunks.Values &&
      entries == ObjectEntries(ids) + [Entry(ManifestPath, manifestId)]
  }

  /** The commit's tree is live, and everything it lists is stored. */
  ghost predicate LiveCommit(s: Store, c: Codec, commit: nat, m: Manifest) {
    && commit in s.commits && s.commits[commit].tree in s.trees
    && LiveTree(s.trees[s.commits[commit].tree], m, c.blobId(c.serialize(m)))
    && forall e :: e in s.trees[s.commits[commit].tree] ==> e.id in s.objects
  }

  lemma {:induction false} FindManifestLast(ids: seq<Id>, id: Id)
    ensures FindManifest(ObjectEntries(ids) + [Entry(ManifestPath, id)]) == Some(id)
  {
    var entries := ObjectEntries(ids) + [Entry(ManifestPath, id)];
    if ids != [] {
      assert entries[1..] == ObjectEntries(ids[1..]) + [Entry(ManifestPath, id)];
      FindManifestLast(ids[1..], id);
    }
  }

  /** A live commit holds its manifest, at the id that is its hash. */
  lemma LiveHolds(s: Store, c: Codec, commit: nat, m: Manifest)
    requires StoreOk(s, c) && c.Sound() && LiveCommit(s, c, commit, m)
    ensures Holds(s, c, commit, m)
  {
    var entries := s.trees[s.commits[commit].tree];
    var mid := c.blobId(c.serialize(m));
    var ids: seq<Id> :| Distinct(ids) && (set id | id in ids) == m.chunks.Values &&
      entries == ObjectEntries(ids) + [Entry(ManifestPath, mid)];
    FindManifestLast(ids, mid);
    assert entries[|entries| - 1] == Entry(ManifestPath, mid);
    assert mid in s.objects && c.blobId(s.objects[mid]) == mid;
  }

  // ------------------------------------------------------------- a manifest and a disk

  /** Written chunks as stored, every other chunk from the base. */
  ghost predicate Represents(c: Codec, m: Manifest, objects: map<Id, Bytes>, base: Bytes, disk: Bytes) {
    && m.chunkSize > 0 && |disk| == |base| == m.diskSize
    && m.digests.Keys <= m.chunks.Keys
    && (forall i :: i in m.chunks ==> ChunkStored(c, m, objects, disk, i))
    && (forall i :: i in m.digests ==>
          ChunkStart(i, m.chunkSize) < |disk| && m.digests[i] == c.sha256(c.encrypt(Chunk(disk, i, m.chunkSize))))
    && (forall i: nat :: i !in m.chunks ==> SameChunk(disk, base, i, m.chunkSize))
  }

  ghost predicate ChunkStored(c: Codec, m: Manifest, objects: map<Id, Bytes>, disk: Bytes, i: nat)
    requires m.chunkSize > 0 && i in m.chunks
  {
    && ChunkStart(i, m.chunkSize) < |disk|
    && m.chunks[i] == c.blobId(c.encrypt(Chunk(disk, i, m.chunkSize)))
    && m.chunks[i] in objects && objects[m.chunks[i]] == c.encrypt(Chunk(disk, i, m.chunkSize))
  }

  /** A manifest stands for one disk only. */
  lemma RepresentsOne(c: Codec, m: Manifest, objects: map<Id, Bytes>, base: Bytes, a: Bytes, b: Bytes)
    requires c.Sound() && Represents(c, m, objects, base, a) && Represents(c, m, objects, base, b)
    ensures a == b
  {
    forall i: nat ensures SameChunk(a, b, i, m.chunkSize) {
      if i in m.chunks {
        assert ChunkStored(c, m, objects, a, i) && ChunkStored(c, m, objects, b, i);
        assert c.decrypt(c.encrypt(Chunk(a, i, m.chunkSize))) == c.decrypt(c.encrypt(Chunk(b, i, m.chunkSize)));
      } else {
        assert SameChunk(a, base, i, m.chunkSize) && SameChunk(b, base, i, m.chunkSize);
      }
    }
    SameDisk(a, b, m.chunkSize);
  }

  // ------------------------------------------------------------- what a commit leaves alone

  /** Every file is filed under its own hash. */
  ghost predicate Addressed(files: seq<File>, c: Codec) {
    forall k :: 0 <= k < |files| && !files[k].skipUpload ==> files[k].id == c.blobId(files[k].bytes)
  }

  /** `t` holds at least what `s` held. */
  ghost predicate Grows(s: Store, t: Store) {
    && (forall id :: id in s.objects ==> id in t.objects && t.objects[id] == s.objects[id])
    && (forall k :: k in s.trees ==> k in t.trees && t.trees[k] == s.trees[k])
    && (forall k :: k in s.commits ==> k in t.commits && t.commits[k] == s.commits[k])
  }

  lemma {:induction false} UploadGrows(objects: map<Id, Bytes>, files: seq<File>, c: Codec)
    requires c.Sound() && Addressed(files, c) && forall id :: id in objects ==> id == c.blobId(objects[id])
    ensures var u := Upload(objects, files);
            && (forall id :: id in u ==> id == c.blobId(u[id]))
            && (forall id :: id in objects ==> id in u && u[id] == objects[id])
            && (forall k :: 0 <= k < |files| && !files[k].skipUpload ==> files[k].id in u && u[files[k].id] == files[k].bytes)
    decreases |files|
  {
    if files != [] {
      var front := files[..|files| - 1];
      UploadGrows(objects, front, c);
      forall k | 0 <= k < |files| && !files[k].skipUpload
        ensures files[k].id in Upload(objects, files) && Upload(objects, files)[files[k].id] == files[k].bytes
      {
        if k < |front| { assert front[k] == files[k]; }
      }
    }
  }

  lemma DepositGrows(s: Store, files: seq<File>, parent: Option<nat>, orphan: bool, c: Codec)
    requires c.Sound() && StoreOk(s, c) && Addressed(files, c)
    ensures var t := Deposit(s, files, parent, orphan);
            StoreOk(t, c) && Grows(s, t)
    ensures forall k :: 0 <= k < |files| && !files[k].skipUpload ==>
              var u := Upload(s.objects, files); files[k].id in u && u[files[k].id] == files[k].bytes
  {
    UploadGrows(s.objects, files, c);
  }

  lemma RepresentsGrows(s: Store, t: Store, c: Codec, m: Manifest, base: Bytes, disk: Bytes)
    requires Grows(s, t) && Represents(c, m, s.objects, base, disk)
    ensures Represents(c, m, t.objects, base, disk)
  {
    hide SameChunk, Chunk;
    forall i | i in m.chunks ensures ChunkStored(c, m, t.objects, disk, i) {
      assert ChunkStored(c, m, s.objects, disk, i);
    }
  }
}
