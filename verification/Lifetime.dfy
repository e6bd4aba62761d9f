/**
 * A machine's whole life on a branch (src/core/machine.js): begun or attached,
 * put back, used, synced, rebased over another writer, compacted, and what the
 * branch restores to at the end of it.
 */
module Lifetime {
  import opened Common
  import opened Chunker
  import opened Repo
  import opened Device
  import opened Epoch
  import opened SyncState
  import opened Compaction
  import opened Machine
  import opened Reachability
  import R = Restore

  /**
   * What a life ends with: the machine at rest, and its branch restoring, from
   * the host alone and over the base it was created with, to its device.
   */
  ghost predicate Rests(m: Machine, was: Manifest, image: Bytes)
    reads m, m.host, m.device, m.device.bytes
  {
    && m.Settled() && m.head.Some? && m.device.epoch == [] && m.device.unflushed == []
    && SameDevice(m.manifest.value, was) && m.manifest.value.compacted == was.compacted && m.base == image
    && m.RestoresFrom(was.base, was.baseIsBlank, image, m.device.Contents())
  }

  /**
   * From a new branch: however the machine is used, after a last sync the branch
   * restores to its device over the base given; and when that is blank, a restore
   * with the machine's pin fails or gives that disk whatever it is answered.
   */
  method FromFresh(
      host: MemoryHost, device: MemoryDevice, branch: string, codec: Codec, chunkSize: Positive, baseUrl: string,
      baseIsBlank: bool, commands: seq<Command>) returns (m: Machine)
    requires HeadOf(host.Abs(), branch).None? && codec.Sound() && StoreOk(host.Abs(), codec)
    requires device.Valid() && device.diskSize > 0 && baseUrl != "" && device.epoch == []
    requires CommandsFit(commands, device.diskSize)
    modifies host, device, device.bytes
    ensures fresh(m) && m.host == host && m.branch == branch && m.device == device && m.codec == codec
    ensures Rests(m, Created(device.diskSize, chunkSize, baseUrl, baseIsBlank), old(device.Contents()))
    ensures m.RestoresFrom(baseUrl, baseIsBlank, old(device.Contents()), device.Contents())
    ensures baseIsBlank && old(device.Contents()) == R.Zeros(device.diskSize) ==> m.PinnedTo(device.Contents())
    ensures Plain(commands) ==> device.Contents() == Left(old(device.Contents()), old(device.unflushed), commands)
  {
    hide *;
    m := new Machine(host, device, branch, codec);
    CreatedIs(device.diskSize, chunkSize, baseUrl, baseIsBlank);
    m.Begin(chunkSize, baseUrl, baseIsBlank, device.Contents());
    AtRest(m);
    ghost var was, pin, image := m.manifest.value, m.manifestDigest, device.Contents();
    m.SessionThenSync(commands);
    m.UnfoldSettled();
    InOrder(m);
    AtLast(m, was, None, pin, image);
    if baseIsBlank && image == R.Zeros(device.diskSize) { m.PinnedToDevice(); }
  }

  function Created(diskSize: nat, chunkSize: Positive, baseUrl: string, baseIsBlank: bool): Manifest {
    Manifest(diskSize, chunkSize, baseUrl, baseIsBlank, 0, map[], map[], false)
  }

  lemma CreatedIs(diskSize: nat, chunkSize: Positive, baseUrl: string, baseIsBlank: bool)
    requires diskSize > 0 && baseUrl != ""
    ensures Create(diskSize, chunkSize, baseUrl, baseIsBlank) == Some(Created(diskSize, chunkSize, baseUrl, baseIsBlank))
    ensures var m := Created(diskSize, chunkSize, baseUrl, baseIsBlank);
            !m.compacted && m.base == baseUrl && m.baseIsBlank == baseIsBlank && m.diskSize == diskSize && m.chunkSize == chunkSize
  {
  }

  /** From a branch that holds a machine: the same, once it has been put back on a copy of the base. */
  method FromBranch(
      host: MemoryHost, device: MemoryDevice, branch: string, codec: Codec, ghost manifest: Manifest,
      ghost image: Bytes, ghost disk: Bytes, commands: seq<Command>) returns (m: Machine)
    requires codec.Sound() && StoreOk(host.Abs(), codec) && HeadOf(host.Abs(), branch).Some?
    requires SoundHead(host.Abs(), codec, HeadOf(host.Abs(), branch).value, manifest, disk, manifest, image)
    requires device.Valid() && device.epoch == [] && device.unflushed == [] && device.diskSize == manifest.diskSize
    requires device.Contents() == image && CommandsFit(commands, device.diskSize)
    modifies host, device, device.bytes
    ensures fresh(m) && m.host == host && m.branch == branch && m.device == device && m.codec == codec
    ensures Rests(m, manifest, image)
    ensures m.Pinned() || m.manifest == Some(manifest)
    ensures m.Pinned() && manifest.baseIsBlank && !manifest.compacted && image == R.Zeros(manifest.diskSize) ==>
              m.PinnedTo(device.Contents())
    ensures Plain(commands) ==> AllFit([], |disk|) && device.Contents() == Left(disk, [], commands)
  {
    hide *;
    m := new Machine(host, device, branch, codec);
    var failed := m.Attach(manifest, image, disk);
    var unput := m.Hydrate();
    assert m.adrift == {};
    PutBackWhole(m, disk);
    AtRest(m);
    ghost var head, pin := m.head, m.manifestDigest;
    m.SessionThenSync(commands);
    m.UnfoldSettled();
    InOrder(m);
    AtLast(m, manifest, head, pin, image);
    if m.Pinned() && manifest.baseIsBlank && !manifest.compacted && image == R.Zeros(manifest.diskSize) { m.PinnedToDevice(); }
  }

  lemma AtRest(m: Machine)
    ensures m.Uncontested() <==> HeadOf(m.host.Abs(), m.branch) == m.head
    ensures m.Refuses() <==> m.attachedExisting && !m.hydrated
    ensures m.Valid() && m.copied && m.adrift == {} && m.Reached() && m.Uncontested() && !m.Refuses() ==> m.Settled()
  {
  }

  /** What is left at the end of a session and a sync. */
  lemma AtLast(m: Machine, was: Manifest, head: Option<nat>, pin: Option<Digest>, image: Bytes)
    requires m.Settled() && m.head.Some? && m.device.epoch == [] && m.device.unflushed == [] && m.base == image
    requires m.Continues(was, head, pin) && m.RestoresFrom(was.base, was.baseIsBlank, image, m.device.Contents())
    ensures Rests(m, was, image) && m.Valid() && m.copied && m.adrift == {} && m.manifest.Some?
    ensures m.manifest.value.baseIsBlank == was.baseIsBlank && m.manifest.value.diskSize == was.diskSize
    ensures m.manifest.value.compacted == was.compacted
    ensures (head.None? ==> m.Pinned()) && (m.Pinned() || m.manifest == Some(was))
  {
  }

  lemma PutBackWhole(m: Machine, disk: Bytes)
    requires m.Valid() && m.copied && m.adrift == {} && m.device.epoch == [] && m.committed == disk
    ensures m.device.Contents() == disk && AllFit([], |disk|)
  {
    AgreesWholly(m.device.Contents(), m.committed, m.manifest.value.chunkSize);
  }

  // ------------------------------------------------------------- a reboot

  /**
   * A machine is used and synced; later another device, a copy of the base, is
   * attached to the branch, put back and used. It goes on from the first one's
   * disk: left alone it is the same, byte for byte.
   */
  method Reboot(
      host: MemoryHost, device: MemoryDevice, branch: string, codec: Codec, chunkSize: Positive, baseUrl: string,
      baseIsBlank: bool, image: Bytes, commands: seq<Command>, more: seq<Command>)
      returns (m: Machine, second: MemoryDevice)
    requires HeadOf(host.Abs(), branch).None? && codec.Sound() && StoreOk(host.Abs(), codec)
    requires device.Valid() && device.diskSize > 0 && baseUrl != "" && device.epoch == [] && device.Contents() == image
    requires CommandsFit(commands, device.diskSize) && CommandsFit(more, device.diskSize)
    modifies host, device, device.bytes
    ensures m.device == second && m.host == host && m.branch == branch
    ensures m.manifest.Some? && Rests(m, m.manifest.value, image)
    ensures m.RestoresFrom(baseUrl, baseIsBlank, image, second.Contents())
    ensures AllFit([], |device.Contents()|)
    ensures Plain(more) ==> second.Contents() == Left(device.Contents(), [], more)
    ensures more == [] ==> second.Contents() == device.Contents()
  {
    hide *;
    var first := FromFresh(host, device, branch, codec, chunkSize, baseUrl, baseIsBlank, commands);
    ghost var was := Created(device.diskSize, chunkSize, baseUrl, baseIsBlank);
    CreatedIs(device.diskSize, chunkSize, baseUrl, baseIsBlank);
    Attachable(first, was, image);
    ghost var manifest, disk := first.manifest.value, device.Contents();
    second := new MemoryDevice(device.diskSize, image);
    m := FromBranch(host, second, branch, codec, manifest, image, disk, more);
    RestsOn(m, manifest, was, image);
    LeftAlone(disk);
  }

  /** The branch of a machine at rest can be attached to. */
  lemma Attachable(m: Machine, was: Manifest, image: Bytes)
    requires Rests(m, was, image)
    ensures m.manifest.Some? && m.codec.Sound() && StoreOk(m.host.Abs(), m.codec) && HeadOf(m.host.Abs(), m.branch).Some?
    ensures m.committed == m.device.Contents() && m.manifest.value.diskSize == m.device.diskSize == |image|
    ensures SameDevice(m.manifest.value, was)
    ensures SoundHead(
              m.host.Abs(), m.codec, HeadOf(m.host.Abs(), m.branch).value, m.manifest.value, m.device.Contents(),
              m.manifest.value, image)
  {
    AgreesWholly(m.device.Contents(), m.committed, m.manifest.value.chunkSize);
    hide Represents, LiveCommit, Codec.Sound, StoreOk, Touched;
  }

  lemma RestsOn(m: Machine, manifest: Manifest, was: Manifest, image: Bytes)
    requires Rests(m, manifest, image) && SameDevice(manifest, was)
    ensures m.manifest.Some? && Rests(m, m.manifest.value, image)
    ensures m.RestoresFrom(was.base, was.baseIsBlank, image, m.device.Contents())
  {
    hide R.RestoreSpec, R.FromStore, R.BaseImage, R.Supplies, Agrees, Sound;
  }

  lemma LeftAlone(disk: Bytes)
    ensures Plain([]) && AllFit([], |disk|) && Left(disk, [], []) == disk
  {
  }

  // ------------------------------------------------------------- two writers

  /**
   * The branch has moved. With no chunk changed by both, the new head restores,
   * over the base both have, to a three-way merge of what this machine read, what
   * the other writer committed and what both began from. Otherwise the sync is
   * refused and the branch still restores to the other writer's disk.
   */
  method SyncOverOther(
      m: Machine, bursts: seq<seq<GuestWrite>>, ghost theirs: Manifest, ghost theirDisk: Bytes)
      returns (r: Result<Report, SyncError>, ghost ours: Bytes)
    requires m.Valid() && !m.Refuses() && !m.Uncontested() && BurstsFit(bursts, m.device.diskSize)
    requires HeadOf(m.host.Abs(), m.branch).Some? && (m.Dirty() != {} || m.head.None?)
    requires SoundHead(m.host.Abs(), m.codec, HeadOf(m.host.Abs(), m.branch).value, theirs, theirDisk, m.manifest.value, m.base)
    modifies m, m.host, m.device, m.device.bytes
    ensures m.base == old(m.base) && m.manifest.Some? && SameDevice(m.manifest.value, old(m.manifest.value))
    ensures m.host.branches == old(m.host.branches) || r.Ok?
    ensures (exists i: nat :: Clash(old(m.manifest.value), theirs, old(m.committed), theirDisk, old(m.Dirty()), i)) ==>
              && r.Err? && r.error.Overlap? && m.host.branches == old(m.host.branches)
              && (forall i: nat :: i in r.error.chunks <==>
                    Clash(old(m.manifest.value), theirs, old(m.committed), theirDisk, old(m.Dirty()), i))
              && m.RestoresFrom(old(m.manifest.value.base), old(m.manifest.value.baseIsBlank), m.base, theirDisk)
    ensures !(exists i: nat :: Clash(old(m.manifest.value), theirs, old(m.committed), theirDisk, old(m.Dirty()), i)) ==>
              && r.Ok? && m.RestoresFrom(old(m.manifest.value.base), old(m.manifest.value.baseIsBlank), m.base, m.committed)
              && ThreeWay(
                   m.committed, ours, theirDisk, old(m.committed), old(m.Dirty()),
                   Differing(old(m.manifest.value), theirs), old(m.manifest.value.chunkSize))
  {
    hide *;
    InOrder(m);
    AtRest(m);
    Seen(m);
    ghost var s, v, dirty := m.host.Abs(), m.View(), m.Dirty();
    HeadDevice(s, m.codec, HeadOf(s, m.branch).value, theirs, theirDisk, v.manifest, m.base);
    r, ours := m.Sync(true, bursts, theirs, theirDisk);
    MovedOn(m, s, v, dirty, ours, theirs, theirDisk, r);
    m.RestoresHead();
    OverSameBase(m.manifest.value, v.manifest);
    ClashesAre(v.manifest, theirs, v.committed, theirDisk, dirty);
  }

  lemma ClashesAre(m: Manifest, theirs: Manifest, ancestor: Bytes, theirDisk: Bytes, dirty: set<nat>)
    ensures forall i: nat :: i in Clashes(m, theirs, ancestor, theirDisk, dirty) <==> Clash(m, theirs, ancestor, theirDisk, dirty, i)
    ensures Clashes(m, theirs, ancestor, theirDisk, dirty) == {} <==> !exists i: nat :: Clash(m, theirs, ancestor, theirDisk, dirty, i)
  {
    hide Clash;
    var both := Clashes(m, theirs, ancestor, theirDisk, dirty);
    forall i: nat ensures i in both <==> Clash(m, theirs, ancestor, theirDisk, dirty, i) {
      if Clash(m, theirs, ancestor, theirDisk, dirty, i) { Dirtied(m, theirs, ancestor, theirDisk, dirty, i); }
    }
    if both != {} {
      var i :| i in both;
      assert Clash(m, theirs, ancestor, theirDisk, dirty, i);
    }
  }

  lemma Dirtied(m: Manifest, theirs: Manifest, ancestor: Bytes, theirDisk: Bytes, dirty: set<nat>, i: nat)
    requires Clash(m, theirs, ancestor, theirDisk, dirty, i)
    ensures i in dirty
  {
  }

  lemma HeadDevice(s: Store, c: Codec, h: nat, theirs: Manifest, theirDisk: Bytes, m: Manifest, base: Bytes)
    requires SoundHead(s, c, h, theirs, theirDisk, m, base)
    ensures SameDevice(theirs, m)
  {
  }

  lemma OverSameBase(a: Manifest, b: Manifest)
    requires SameDevice(a, b)
    ensures a.base == b.base && a.baseIsBlank == b.baseIsBlank && a.chunkSize == b.chunkSize && a.diskSize == b.diskSize
  {
  }

  lemma Seen(m: Machine)
    requires m.manifest.Some?
    ensures m.View() == View(m.manifest.value, m.head, m.committed, m.adrift, m.manifestDigest, m.attachedExisting)
    ensures m.host.Abs().branches == m.host.branches
  {
  }

  lemma MovedOn(
      m: Machine, s: Store, v: View, dirty: set<nat>, ours: Bytes, theirs: Manifest, theirDisk: Bytes,
      r: Result<Report, SyncError>)
    requires m.Valid() && HeadOf(s, m.branch).Some? && HeadOf(s, m.branch) != v.head && SameDevice(theirs, v.manifest)
    requires Outcome(m.codec, m.branch, s, m.host.Abs(), v, m.View(), dirty, ours, theirs, theirDisk, true, r)
    ensures m.manifest.Some? && m.Committed() && m.head.Some? && m.Uncontested() && SameDevice(m.manifest.value, v.manifest)
    ensures var both := Clashes(v.manifest, theirs, v.committed, theirDisk, dirty);
            if both == {} then
              r.Ok? && ThreeWay(m.committed, ours, theirDisk, v.committed, dirty, Differing(v.manifest, theirs), v.manifest.chunkSize)
            else r == Err(Overlap(both)) && m.host.branches == s.branches && m.committed == theirDisk
  {
    hide Clashes, Differing, ThreeWay, Landed, AgreesOff, Sound, Agrees;
  }

  /**
   * Nothing looks at the other writer's chunk size before a rebase. This machine
   * has chunks of one byte and has written the second; the other writer has the
   * same disk in one chunk of two. No chunk was changed by both, so the epoch is
   * committed over the other manifest, and the commit cannot be restored.
   */
  lemma RebasedAcrossSizes(
      s: Store, c: Codec, commit: nat, m: Manifest, theirs: Manifest, prepared: seq<Prepared>, x: byte,
      fetchBase: Option<string -> Bytes>)
    requires m == Manifest(2, 1, "base", true, 0, map[], map[], false) && theirs == m.(chunkSize := 2)
    requires |prepared| == 1 && prepared[0].index == 1 && StoredForm(c, prepared[0], [0, x], 1)
    requires c.Sound() && Holds(s, c, commit, NextManifest(theirs, prepared))
    requires prepared[0].id in s.objects && s.objects[prepared[0].id] == prepared[0].bytes
    ensures ChangedIn(m, theirs) * Indices(prepared) == {}
    ensures R.RestoreSpec(c, s.trees[s.commits[commit].tree], R.FromStore(s.objects), fetchBase, None) == Err(R.OutOfRange)
  {
    var p := prepared[0];
    var next := NextManifest(theirs, prepared);
    assert prepared[..0] == [];
    assert WithChunks(map[], prepared) == WithChunks(map[], prepared[..0])[1 := p.id];
    assert WithDigests(map[], prepared) == WithDigests(map[], prepared[..0])[1 := p.digest];
    assert next.chunks.Keys == {1} && next.chunks[1] == p.id && next.digests[1] == p.digest;
    OneIndex();
    var source := R.FromStore(s.objects);
    assert R.ReadManifest(c, s.trees[s.commits[commit].tree], source, None) == Ok(next) by { hide FindManifest; }
    assert Chunk([0, x], 1, 1) == [x];
    assert R.PutChunk(c, next, 1, 1, source, R.Zeros(2)) == Err(R.OutOfRange);
    hide R.PutChunk, R.ReadManifest, R.Zeros, Codec.Sound;
    R.PutNone(c, next, source, R.Zeros(2));
    R.PutNext(c, next, [1], 0, source, R.Zeros(2));
    assert [1][..0] == [] && [1][..1] == [1];
  }

  lemma OneIndex()
    ensures Sorted({1}) == [1]
  {
    var s := Sorted({1});
    assert 1 in s;
  }

  // ------------------------------------------------------------- compaction

  /** What a restore of this commit comes to, over this base image. */
  ghost predicate CompactsTo(
      m: Machine, commit: nat, url: string, blank: bool, image: Bytes, r: Result<Bytes, R.RestoreError>)
    reads m.host
  {
    && commit in m.host.commits && m.host.commits[commit].tree in m.host.trees
    && forall fetchBase: Option<string -> Bytes> :: R.Supplies(url, blank, image, fetchBase) ==>
         R.RestoreSpec(m.codec, m.host.trees[m.host.commits[commit].tree], R.FromStore(m.host.objects), fetchBase, None) == r
  }

  /** Compact, then restore: the device, exactly when every digest kept still fits it, and otherwise a refusal. */
  method CompactThenRestore(m: Machine) returns (commit: nat)
    requires m.Valid()
    modifies m, m.host, m.device, m.device.bytes
    ensures m.device.Contents() == ApplyWrites(old(m.device.Contents()), old(m.device.unflushed))
    ensures |m.device.Contents()| == |old(m.committed)| && HeadOf(m.host.Abs(), m.branch) == Some(commit)
    ensures m.manifest.Some? && SameDevice(m.manifest.value, old(m.manifest.value)) && m.base == old(m.base)
    ensures CompactsTo(
              m, commit, old(m.manifest.value.base), old(m.manifest.value.baseIsBlank), old(m.base),
              if Intact(old(m.manifest.value), m.device.Contents(), old(m.committed)) then Ok(m.device.Contents()) else Err(R.ChunkMismatch))
  {
    hide *;
    InOrder(m);
    ghost var before, objects, committed := m.manifest.value, m.host.objects, m.committed;
    commit := m.Compact();
    CompactedEnds(m, commit, before, objects, committed);
  }

  lemma InOrder(m: Machine)
    requires m.Valid()
    ensures m.manifest.Some? && m.codec.Sound() && Represents(m.codec, m.manifest.value, m.host.objects, m.base, m.committed)
    ensures m.device.Valid() && |m.committed| == |m.device.Contents()| == m.device.diskSize
    ensures !m.manifest.value.compacted ==> m.manifest.value.digests.Keys == m.manifest.value.chunks.Keys
  {
  }

  lemma CompactedEnds(m: Machine, commit: nat, before: Manifest, objects: map<Id, Bytes>, committed: Bytes)
    requires m.codec.Sound() && StoreOk(m.host.Abs(), m.codec) && Represents(m.codec, before, objects, m.base, committed)
    requires |committed| == |m.device.Contents()|
    requires m.manifest == Some(Compacted(m.codec, before, m.device.Contents()))
    requires Landed(m.host.Abs(), m.codec, commit, m.manifest.value, None)
    requires WhollyStored(m.codec, m.device.Contents(), m.manifest.value.chunkSize, m.host.objects)
    ensures SameDevice(m.manifest.value, before)
    ensures CompactsTo(
              m, commit, before.base, before.baseIsBlank, m.base,
              if Intact(before, m.device.Contents(), committed) then Ok(m.device.Contents()) else Err(R.ChunkMismatch))
  {
    LiveHolds(m.host.Abs(), m.codec, commit, m.manifest.value);
    CompactedIs(m.codec, before, m.device.Contents());
    hide Compacted, R.RestoreSpec, R.FromStore, R.BaseImage, R.Supplies, Represents, Intact, WhollyStored, Codec.Sound, LiveTree;
    assert |m.base| == before.diskSize;
    forall fetchBase: Option<string -> Bytes> | R.Supplies(before.base, before.baseIsBlank, m.base, fetchBase)
      ensures R.RestoreSpec(m.codec, m.host.trees[m.host.commits[commit].tree], R.FromStore(m.host.objects), fetchBase, None) ==
                if Intact(before, m.device.Contents(), committed) then Ok(m.device.Contents()) else Err(R.ChunkMismatch)
    {
      R.Supplied(before.base, before.baseIsBlank, m.base, fetchBase);
      CompactedRestores(
        m.host.Abs(), m.codec, commit, before, objects, m.base, committed, m.device.Contents(), fetchBase);
    }
  }

  /** With nothing pending and nothing adrift, compaction leaves the branch restoring to the disk it restored to before. */
  method CompactSettled(m: Machine) returns (commit: nat)
    requires m.Valid() && m.copied && m.head.Some? && m.adrift == {} && m.Uncontested()
    requires m.device.epoch == [] && m.device.unflushed == []
    modifies m, m.host, m.device, m.device.bytes
    ensures m.device.Contents() == old(m.device.Contents())
    ensures old(m.RestoresFrom(m.manifest.value.base, m.manifest.value.baseIsBlank, m.base, m.device.Contents()))
    ensures m.Valid() && HeadOf(m.host.Abs(), m.branch) == Some(commit) && m.base == old(m.base)
    ensures CompactsTo(
              m, commit, old(m.manifest.value.base), old(m.manifest.value.baseIsBlank), m.base, Ok(m.device.Contents()))
  {
    InOrder(m);
    ghost var before, objects, committed := m.manifest.value, m.host.objects, m.committed;
    m.RestoresDevice();
    commit := m.Compact();
    CompactedEnds(m, commit, before, objects, committed);
  }

  // ------------------------------------------------------------- collection

  /**
   * The host drops every object the branch's head does not reach, and the machine
   * goes on as if nothing had happened: nothing it takes for stored is gone.
   */
  method CollectThenGoOn(m: Machine, kept: set<Id>, commands: seq<Command>)
    requires m.Settled() && m.head.Some? && kept == Reach(m.host.Abs(), m.head.value)
    requires CommandsFit(commands, m.device.diskSize)
    modifies m, m.host, m.device, m.device.bytes
    ensures m.Settled() && m.head.Some? && m.base == old(m.base)
    ensures m.RestoresFrom(old(m.manifest.value.base), old(m.manifest.value.baseIsBlank), m.base, m.device.Contents())
    ensures Plain(commands) ==>
              m.device.Contents() == Left(old(m.device.Contents()), old(m.device.unflushed), commands)
  {
    hide *;
    m.UnfoldSettled();
    DropUnreached(m, kept);
    m.SessionThenSync(commands);
  }

  method DropUnreached(m: Machine, kept: set<Id>)
    requires m.Settled() && m.head.Some? && kept == Reach(m.host.Abs(), m.head.value)
    modifies m.host
    ensures m.Settled() && m.host.Abs() == Collected(old(m.host.Abs()), kept)
  {
    hide *;
    ghost var s := m.host.Abs();
    m.UnfoldSettled();
    m.UnfoldCommitted();
    m.ReachedIs();
    Parts(m);
    SoundAfterCollection(s, m.codec, m.manifest.value, m.head.value, m.known, m.base, m.committed);
    StoreIs(m.host);
    m.host.objects := map id | id in m.host.objects && id in kept :: m.host.objects[id];
    StoreIs(m.host);
    CollectedIs(m.host, s, kept, m.branch);
    m.FoldCommitted();
    m.ReachedIs();
    Together(m);
    AtRest(m);
  }

  lemma StoreIs(host: MemoryHost)
    ensures host.Abs() == Store(host.objects, host.trees, host.commits, host.branches, host.n)
  {
  }

  lemma CollectedIs(host: MemoryHost, s: Store, kept: set<Id>, branch: string)
    requires host.Abs() == s.(objects := map id | id in s.objects && id in kept :: s.objects[id])
    ensures host.Abs() == Collected(s, kept) && HeadOf(host.Abs(), branch) == HeadOf(s, branch)
  {
  }

  lemma Parts(m: Machine)
    requires m.Settled()
    ensures m.Committed() && (!m.attachedExisting || m.hydrated ==> m.copied) && m.device.Valid()
    ensures m.device.diskSize == m.manifest.value.diskSize && m.head == HeadOf(m.host.Abs(), m.branch)
    ensures Agrees(m.device.Contents(), m.device.epoch, m.adrift, m.Image(), m.manifest.value.chunkSize)
    ensures m.Image() == m.committed && !(m.attachedExisting && !m.hydrated)
  {
    hide Agrees;
  }

  lemma Together(m: Machine)
    requires m.Committed() && m.copied && m.device.Valid() && m.device.diskSize == m.manifest.value.diskSize
    requires Agrees(m.device.Contents(), m.device.epoch, m.adrift, m.committed, m.manifest.value.chunkSize)
    ensures m.Valid()
  {
    hide Agrees, Sound;
  }

  // ------------------------------------------------------------- a compaction that is refused

  lemma BlankByte()
    ensures Create(1, 1, "blank", true) == Some(Manifest(1, 1, "blank", true, 0, map[], map[], false))
  {
  }

  lemma OneWrite(x: byte, y: byte)
    ensures var w := [GuestWrite(0, [y])]; AllFit(w, 1) && ApplyWrites([x], w) == [y]
  {
    assert [GuestWrite(0, [y])][..0] == [];
  }

  lemma OneZero()
    ensures forall fetchBase: Option<string -> Bytes> :: R.Supplies("blank", true, [0], fetchBase)
  {
  }

  /** After a first sync nothing is adrift, and the manifest keeps a digest for every chunk it holds. */
  lemma FirstCommit(m: Machine, s: Store, v: View, dirty: set<nat>, ours: Bytes, r: Result<Report, SyncError>, theirs: Manifest, disk: Bytes)
    requires m.Valid() && HeadOf(s, m.branch) == v.head == None && v.adrift == {}
    requires Outcome(m.codec, m.branch, s, m.host.Abs(), v, m.View(), dirty, ours, theirs, disk, false, r)
    ensures m.head.Some? && m.Uncontested() && m.adrift == {}
    ensures m.manifest.value.compacted == v.manifest.compacted && SameDevice(m.manifest.value, v.manifest)
  {
    hide Clashes, Differing, ThreeWay, Landed, AgreesOff, Sound, Agrees, SameDevice;
  }

  /** The written byte has a digest, and writing it again makes the digest wrong. */
  lemma OutOfDate(c: Codec, m: Manifest, objects: map<Id, Bytes>)
    requires Represents(c, m, objects, [0], [1]) && m.chunkSize == 1 && m.digests.Keys == m.chunks.Keys
    ensures !Intact(m, [2], [1])
  {
    hide ChunkStored, SameChunk, Chunk, ChunkStart;
    OtherByte(1, 0);
    OtherByte(2, 1);
    assert 0 in m.chunks;
  }

  lemma OtherByte(x: byte, y: byte)
    requires x != y
    ensures !SameChunk([x], [y], 0, 1)
  {
    var a: Bytes, b: Bytes := [x], [y];
    assert a[0] != b[0];
  }

  /**
   * A machine whose compacted commit is refused: a byte is written and synced,
   * written again, and compacted before it is synced again.
   */
  method ChangedThenCompacted(host: MemoryHost, branch: string, codec: Codec) returns (m: Machine, commit: nat)
    requires HeadOf(host.Abs(), branch).None? && codec.Sound() && StoreOk(host.Abs(), codec)
    modifies host
    ensures m.host == host && HeadOf(host.Abs(), branch) == Some(commit)
    ensures !m.Valid() && CompactsTo(m, commit, "blank", true, [0], Err(R.ChunkMismatch))
    ensures forall fetchBase: Option<string -> Bytes> :: R.Supplies("blank", true, [0], fetchBase)
  {
    hide *;
    var device := new MemoryDevice(1, [0]);
    m := new Machine(host, device, branch, codec);
    BlankByte();
    m.Begin(1, "blank", true, [0]);
    OneWrite(0, 1);
    OneWrite(1, 2);
    NoBursts(1);
    AtRest(m);
    var _ := m.GuestWrite(0, [1]);
    Seen(m);
    ghost var s, v, dirty, theirs, disk := host.Abs(), m.View(), m.Dirty(), m.manifest.value, m.committed;
    assert device.unflushed == [GuestWrite(0, [1])] && device.Contents() == [0];
    var r, ours := m.Sync(false, [], theirs, disk);
    FirstCommit(m, s, v, dirty, ours, r, theirs, disk);
    FlushedWholly(device.Contents(), [0], [GuestWrite(0, [1])], 1);
    m.RestoresDevice();
    var _ := m.GuestWrite(0, [2]);
    InOrder(m);
    ghost var before, objects := m.manifest.value, host.objects;
    OverSameBase(before, theirs);
    OutOfDate(codec, before, objects);
    OneZero();
    assert device.unflushed == [GuestWrite(0, [2])] && device.Contents() == m.committed == [1];
    commit := m.Compact();
    CompactedEnds(m, commit, before, objects, [1]);
  }
}
