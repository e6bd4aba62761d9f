/**
 * The sync engine (src/core/machine.js): a disk committed to a repository as
 * chunks and put back from it.
 */
module Machine {
  import opened Common
  import opened Chunker
  import opened Repo
  import opened Device
  import opened Epoch
  import opened SyncState
  import opened Compaction
  import opened Reachability
  import R = Restore

  datatype Command = Hydrates | Writes(offset: int, data: Bytes) | Flushes | Syncs(retry: bool, bursts: seq<seq<GuestWrite>>)

  ghost predicate CommandsFit(commands: seq<Command>, diskSize: nat) {
    forall k :: 0 <= k < |commands| && commands[k].Syncs? ==> BurstsFit(commands[k].bursts, diskSize)
  }

  /** Nothing is put back, and the guest is quiet while a sync reads. */
  predicate Plain(commands: seq<Command>) {
    forall k :: 0 <= k < |commands| ==> !commands[k].Hydrates? && (commands[k].Syncs? ==> commands[k].bursts == [])
  }

  /** A write waits, unless it is refused; a flush or a sync puts what waits on the disk. */
  function Obeyed(disk: Bytes, pending: seq<GuestWrite>, command: Command): (r: (Bytes, seq<GuestWrite>))
    requires AllFit(pending, |disk|)
    ensures |r.0| == |disk| && AllFit(r.1, |disk|)
  {
    match command
    case Hydrates => (disk, pending)
    case Writes(offset, data) =>
      if 0 <= offset && offset + |data| <= |disk| then (disk, pending + [GuestWrite(offset, data)]) else (disk, pending)
    case Flushes => (ApplyWrites(disk, pending), [])
    case Syncs(_, _) => (ApplyWrites(disk, pending), [])
  }

  /** The disk, and the writes not yet on it, as the guest should find them after such a run. */
  function Replay(disk: Bytes, pending: seq<GuestWrite>, commands: seq<Command>): (r: (Bytes, seq<GuestWrite>))
    requires AllFit(pending, |disk|)
    ensures |r.0| == |disk| && AllFit(r.1, |disk|)
    decreases |commands|
  {
    if commands == [] then (disk, pending)
    else
      var (d, w) := Replay(disk, pending, commands[..|commands| - 1]);
      Obeyed(d, w, commands[|commands| - 1])
  }

  /** And once the last of them are on it. */
  function Left(disk: Bytes, pending: seq<GuestWrite>, commands: seq<Command>): Bytes
    requires AllFit(pending, |disk|)
  {
    var (d, w) := Replay(disk, pending, commands);
    ApplyWrites(d, w)
  }

  ghost predicate Replayed(
      contents: Bytes, unflushed: seq<GuestWrite>, disk: Bytes, pending: seq<GuestWrite>, commands: seq<Command>)
  {
    AllFit(pending, |disk|) && (Plain(commands) ==> (contents, unflushed) == Replay(disk, pending, commands))
  }

  lemma ReplayedNone(disk: Bytes, pending: seq<GuestWrite>)
    requires AllFit(pending, |disk|)
    ensures Replayed(disk, pending, disk, pending, [])
  {
  }

  lemma ReplayedNext(
      contents: Bytes, unflushed: seq<GuestWrite>, disk: Bytes, pending: seq<GuestWrite>, commands: seq<Command>, k: nat,
      after: Bytes, waiting: seq<GuestWrite>)
    requires k < |commands| && Replayed(contents, unflushed, disk, pending, commands[..k]) && AllFit(unflushed, |contents|)
    requires Plain(commands[..k + 1]) ==> (after, waiting) == Obeyed(contents, unflushed, commands[k])
    ensures Replayed(after, waiting, disk, pending, commands[..k + 1])
  {
    hide Obeyed;
    var next := commands[..k + 1];
    assert next[..k] == commands[..k] && next[k] == commands[k];
    if Plain(next) { assert forall j :: 0 <= j < k ==> commands[..k][j] == next[j]; }
  }

  lemma PlainAt(commands: seq<Command>, k: nat)
    requires k < |commands| && Plain(commands[..k + 1])
    ensures !commands[k].Hydrates? && (commands[k].Syncs? ==> commands[k].bursts == [])
  {
    assert commands[..k + 1][k] == commands[k];
  }

  /** The same, whatever the command was: only what a plain one leads to matters. */
  lemma ReplayedOnward(
      contents: Bytes, unflushed: seq<GuestWrite>, disk: Bytes, pending: seq<GuestWrite>, commands: seq<Command>, k: nat,
      after: Bytes, waiting: seq<GuestWrite>)
    requires k < |commands| && Replayed(contents, unflushed, disk, pending, commands[..k]) && AllFit(unflushed, |contents|)
    requires commands[k].Writes? ==>
               var Writes(offset, data) := commands[k];
               after == contents &&
               waiting == if 0 <= offset && offset + |data| <= |contents| then unflushed + [GuestWrite(offset, data)] else unflushed
    requires commands[k].Flushes? || (commands[k].Syncs? && commands[k].bursts == []) ==>
               after == ApplyWrites(contents, unflushed) && waiting == []
    ensures Replayed(after, waiting, disk, pending, commands[..k + 1])
  {
    hide ApplyWrites, AllFit, Replayed;
    if Plain(commands[..k + 1]) { PlainAt(commands, k); }
    ReplayedNext(contents, unflushed, disk, pending, commands, k, after, waiting);
  }

  lemma LeftOver(
      contents: Bytes, unflushed: seq<GuestWrite>, disk: Bytes, pending: seq<GuestWrite>, commands: seq<Command>)
    requires Replayed(contents, unflushed, disk, pending, commands) && AllFit(unflushed, |contents|)
    ensures AllFit(pending, |disk|) && (Plain(commands) ==> ApplyWrites(contents, unflushed) == Left(disk, pending, commands))
  {
    hide ApplyWrites, Replay, Plain;
  }

  // ------------------------------------------------------------- the machine

  class Machine {
    const host: MemoryHost
    const device: MemoryDevice
    const branch: string
    const codec: Codec

    var manifest: Option<Manifest>
    var head: Option<nat>
    var known: set<Id>
    var attachedExisting: bool
    var hydrated: bool
    var manifestDigest: Option<Digest>

    /** The base image and the disk the manifest stands for. */
    ghost var base: Bytes
    ghost var committed: Bytes
    /** Whether the device is a copy of what is committed, not of the base, and the chunks it may nonetheless have wrong. */
    ghost var copied: bool
    ghost var adrift: set<nat>

    ghost predicate Committed()
      reads `manifest, `head, `known, `base, `committed, host
    {
      manifest.Some? && Sound(host.Abs(), codec, manifest.value, head, known, base, committed)
    }

    /** Whatever this machine takes for stored is reached from its head, so that no collection takes it away. */
    ghost predicate Reached()
      reads `head, `known, host
    {
      KnownReached(host.Abs(), head, known)
    }

    /** What the device is a copy of: the base until an existing machine has been put back, then what is committed. */
    ghost function Image(): Bytes
      reads this
    {
      if copied then committed else base
    }

    ghost predicate Valid()
      reads this, host, device, device.bytes
    {
      && manifest.Some? && Committed() && (!attachedExisting || hydrated ==> copied)
      && device.Valid() && device.diskSize == manifest.value.diskSize
      && Agrees(device.Contents(), device.epoch, adrift, Image(), manifest.value.chunkSize)
    }

    constructor (host: MemoryHost, device: MemoryDevice, branch: string, codec: Codec)
      ensures this.host == host && this.device == device && this.branch == branch && this.codec == codec
      ensures manifest.None? && head.None? && known == {} && !attachedExisting && !hydrated
    {
      this.host, this.device, this.branch, this.codec := host, device, branch, codec;
      manifest, head, known, attachedExisting, hydrated, manifestDigest := None, None, {}, false, false, None;
      base, committed, copied, adrift := [], [], false, {};
    }

    /** Read the branch: its head, its manifest and what its tree lists. */
    method ReadBranch(ghost m: Manifest) returns (failed: Option<LoadError>)
      modifies `manifest, `head, `known, `attachedExisting
      ensures HeadOf(host.Abs(), branch).None? ==>
                failed == Some(NoBranch) && manifest == old(manifest) && head == old(head) && known == old(known) &&
                attachedExisting == old(attachedExisting)
      ensures var h := HeadOf(host.Abs(), branch);
              codec.Sound() && h.Some? && Holds(host.Abs(), codec, h.value, m) && m.diskSize == device.diskSize ==>
                failed.None? && manifest == Some(m) && head == h && attachedExisting &&
                known == old(known) + TreeIds(host.Abs(), h.value)
      // Without a readable manifest only the head has moved; with one for another disk, the manifest too.
      ensures var h := HeadOf(host.Abs(), branch);
              h.Some? ==>
                var found := ManifestAt(host.Abs(), codec, h.value);
                && (failed == Some(NoManifest) <==> found.None?)
                && (failed == Some(WrongGeometry) <==> found.Some? && found.value.diskSize != device.diskSize)
                && head == h && manifest == (if found.None? then old(manifest) else found)
                && (failed.Some? ==> known == old(known) && attachedExisting == old(attachedExisting))
    {
      if branch !in host.branches { return Some(NoBranch); }
      var h := host.branches[branch];
      head := Some(h);
      if h !in host.commits || host.commits[h].tree !in host.trees { return Some(NoManifest); }
      var entries := host.trees[host.commits[h].tree];
      var entry := FindManifest(entries);
      if entry.None? || entry.value !in host.objects { return Some(NoManifest); }
      var parsed := codec.parse(host.objects[entry.value]);
      if parsed.None? { return Some(NoManifest); }
      manifest := parsed;
      if device.diskSize != parsed.value.diskSize { return Some(WrongGeometry); }
      known := known + set e | e in entries :: e.id;
      attachedExisting := true;
      return None;
    }

    /** Start a machine on a branch that does not exist: its manifest is in memory only. */
    method Begin(chunkSize: Positive, baseUrl: string, baseIsBlank: bool, ghost image: Bytes)
      requires HeadOf(host.Abs(), branch).None? && codec.Sound() && StoreOk(host.Abs(), codec)
      requires manifest.None? && head.None? && known == {} && !attachedExisting
      requires device.Valid() && device.diskSize > 0 && baseUrl != "" && device.epoch == [] && device.Contents() == image
      modifies this
      ensures Valid() && head.None? && !attachedExisting && copied && adrift == {} && Reached()
      ensures manifest == Create(device.diskSize, chunkSize, baseUrl, baseIsBlank) && base == committed == image
    {
      manifest := Create(device.diskSize, chunkSize, baseUrl, baseIsBlank);
      base, committed, copied, adrift := image, image, true, {};
      AgreesSelf(image, [], {}, chunkSize);
    }

    /** Attach to the machine on the branch. The device must still be a copy of the base. */
    method Attach(ghost m: Manifest, ghost image: Bytes, ghost disk: Bytes) returns (failed: Option<LoadError>)
      requires codec.Sound() && StoreOk(host.Abs(), codec)
      requires manifest.None? && head.None? && known == {} && !attachedExisting && !hydrated
      requires HeadOf(host.Abs(), branch).Some?
      requires SoundHead(host.Abs(), codec, HeadOf(host.Abs(), branch).value, m, disk, m, image)
      requires device.Valid() && device.epoch == [] && device.diskSize == m.diskSize && device.Contents() == image
      modifies this
      ensures failed.None? && Valid() && attachedExisting && !hydrated && adrift == {} && Reached()
      ensures manifest == Some(m) && head == HeadOf(host.Abs(), branch) && base == image && committed == disk
    {
      hide Sound, SoundHead, Holds, Agrees, TreeIds, StoreOk, Codec.Sound, LiveCommit, Represents, Committed, ManifestAt,
           Reach, KnownReached, Touched;
      AttachHead(host.Abs(), codec, host.branches[branch], m, disk, image);
      NothingKnown(host.Abs(), HeadOf(host.Abs(), branch));
      TakeoverReached(host.Abs(), {}, host.branches[branch]);
      failed := ReadBranch(m);
      base, committed, copied, adrift := image, disk, false, {};
      FoldCommitted();
      AgreesSelf(image, [], {}, m.chunkSize);
    }

    // ----------------------------------------------------------- the guest

    method GuestWrite(offset: int, data: Bytes) returns (accepted: bool)
      requires Valid()
      modifies device`unflushed
      ensures Valid() && (accepted <==> 0 <= offset && offset + |data| <= device.diskSize)
      ensures device.unflushed == if accepted then old(device.unflushed) + [Device.GuestWrite(offset, data)] else old(device.unflushed)
    {
      hide Sound, Agrees;
      accepted := device.Write(offset, data);
    }

    method GuestFlush()
      requires Valid()
      modifies device, device.bytes
      ensures Valid() && device.unflushed == []
      ensures device.epoch == old(device.epoch + Ranges(device.unflushed))
      ensures device.Contents() == ApplyWrites(old(device.Contents()), old(device.unflushed))
    {
      FlushAgrees(device.Contents(), device.unflushed, device.epoch, adrift, Image(), manifest.value.chunkSize);
      hide Sound, Agrees, ApplyWrites, Ranges, Touched;
      device.Flush();
    }

    // ----------------------------------------------------------- putting the state back

    /** One stored chunk back in its place. */
    method PutBackChunk(i: nat, ghost before: Bytes, ghost put: set<nat>) returns (failed: Option<R.RestoreError>)
      requires Committed() && device.Valid() && device.diskSize == manifest.value.diskSize
      requires i in manifest.value.chunks && |before| == |committed| == device.diskSize
      requires R.Half(device.Contents(), committed, before, put, manifest.value.chunkSize)
      modifies device.bytes
      ensures |device.Contents()| == device.diskSize
      ensures failed.None? && R.Half(device.Contents(), committed, before, put + {i}, manifest.value.chunkSize)
    {
      var m := manifest.value;
      FromSound(host.Abs(), codec, m, head, known, base, committed);
      hide Sound, Agrees;
      PutBack(codec, m, host.objects, base, committed, device.Contents(), before, put, i);
      hide *;
      var id := m.chunks[i];
      if id !in host.objects { return Some(R.MissingObject); }
      var stored := host.objects[id];
      if !R.Verified(codec, m, i, stored) { return Some(R.ChunkMismatch); }
      var plaintext := codec.decrypt(stored);
      if plaintext.None? { return Some(R.Undecryptable); }
      var length := ChunkLength(i, m.chunkSize, m.diskSize);
      assert plaintext.value[..length] == plaintext.value;
      var accepted := device.WriteRaw(ChunkStart(i, m.chunkSize), plaintext.value[..length]);
      if !accepted { return Some(R.OutOfRange); }
      return None;
    }

    method PutAllBack(ghost before: Bytes) returns (failed: Option<R.RestoreError>)
      requires manifest.Some? && Committed() && device.Valid() && device.diskSize == manifest.value.diskSize == |committed|
      requires before == device.Contents() && |before| == device.diskSize
      modifies device.bytes
      ensures failed.None? && R.Half(device.Contents(), committed, before, manifest.value.chunks.Keys, manifest.value.chunkSize)
    {
      hide *;
      var m := manifest.value;
      var indices := Sorted(m.chunks.Keys);
      R.HalfNone(committed, before, m.chunkSize);
      MembersNext(indices, 0);
      MembersAre(indices, m.chunks.Keys);
      for k := 0 to |indices|
        modifies device.bytes
        invariant device.Valid() && Committed() && |device.Contents()| == device.diskSize
        invariant R.Half(device.Contents(), committed, before, R.Members(indices[..k]), m.chunkSize)
      {
        assert indices[k] in indices;
        MembersNext(indices, k);
        failed := PutBackChunk(indices[k], before, R.Members(indices[..k]));
        if failed.Some? { return; }
      }
      assert indices[..|indices|] == indices;
      return None;
    }

    /**
     * Put the committed chunks onto the device. With the store as this machine
     * knows it nothing can fail; afterwards the device is a copy of what is
     * committed, apart from chunks the manifest does not hold.
     */
    method Hydrate() returns (failed: Option<R.RestoreError>)
      requires Valid()
      modifies device.bytes, this`hydrated, this`copied, this`adrift
      ensures failed.None? && Valid() && hydrated && copied && (old(Reached()) ==> Reached())
      ensures adrift == old(adrift) - manifest.value.chunks.Keys
    {
      ghost var m, before := manifest.value, device.Contents();
      FromSound(host.Abs(), codec, m, head, known, base, committed);
      hide Sound, Agrees, R.Half, SameChunk, Represents, Codec.Sound, Touched, StoreOk;
      failed := PutAllBack(before);
      if failed.Some? { return; }
      HydratedAgrees(codec, m, host.objects, base, committed, before, device.Contents(), device.epoch, adrift, Image());
      hydrated, copied, adrift := true, true, adrift - m.chunks.Keys;
    }

    // ----------------------------------------------------------- one epoch

    /** Read, encipher and hash one dirty chunk, while the guest goes on writing. */
    method ReadOne(
        i: nat, writes: seq<GuestWrite>, chunkSize: Positive, ghost sealedAs: Bytes, ghost before: Bytes,
        ghost target: Bytes, ghost done: set<nat>, ghost prepared: seq<Prepared>)
        returns (p: Prepared, ghost next: Bytes)
      requires device.Valid() && device.unflushed == [] && AllFit(writes, device.diskSize)
      requires ChunkStart(i, chunkSize) < device.diskSize
      requires Reads(device.Contents(), sealedAs, device.epoch, target, before, done, chunkSize)
      requires AllStoredForm(codec, prepared, target, chunkSize)
      requires forall k :: 0 <= k < |prepared| ==> prepared[k].index < i
      modifies device, device.bytes
      ensures device.Valid() && device.unflushed == []
      ensures Reads(device.Contents(), sealedAs, device.epoch, next, before, done + {i}, chunkSize)
      ensures p.index == i && AllStoredForm(codec, prepared + [p], next, chunkSize)
      ensures writes == [] ==> device.epoch == old(device.epoch)
    {
      assert Ranges([]) == [];
      ReadsBurst(device.Contents(), sealedAs, device.epoch, target, before, done, writes, chunkSize);
      assert device.unflushed + writes == writes;
      assert |target| == device.diskSize;
      hide Reads, AllStoredForm, ApplyWrites, Ranges, Chunk, WriteAt, AllFit, ChunkStart, Touched;
      device.Burst(writes);
      assert |device.Contents()| == device.diskSize;
      ghost var piece := Chunk(device.Contents(), i, chunkSize);
      ReadsNext(device.Contents(), sealedAs, device.epoch, target, before, done, i, chunkSize);
      PreparedNext(codec, prepared, target, i, piece, chunkSize);
      next := WriteAt(target, ChunkStart(i, chunkSize), piece);
      var plaintext := device.ReadChunk(i, chunkSize);
      var stored := codec.encrypt(plaintext.value);
      p := Prepared(i, stored, codec.blobId(stored), codec.sha256(stored));
    }

    /**
     * The dirty chunks in order, with a burst of guest writes before each read.
     * `target` is the disk that results from putting them over `before`.
     */
    method ReadDirty(indices: seq<nat>, bursts: seq<seq<GuestWrite>>, chunkSize: Positive, ghost before: Bytes)
        returns (prepared: seq<Prepared>, ghost target: Bytes)
      requires device.Valid() && device.epoch == [] && device.unflushed == []
      requires |before| == |device.Contents()| == device.diskSize
      requires Increasing(indices) && OnDisk(indices, chunkSize, device.diskSize) && BurstsFit(bursts, device.diskSize)
      modifies device, device.bytes
      ensures device.Valid() && device.unflushed == []
      ensures Reads(device.Contents(), old(device.Contents()), device.epoch, target, before, R.Members(indices), chunkSize)
      ensures AllStoredForm(codec, prepared, target, chunkSize) && Lines(prepared, indices)
      ensures bursts == [] ==> device.epoch == []
    {
      ghost var sealedAs := device.Contents();
      prepared, target := [], before;
      MembersNext(indices, 0);
      for k := 0 to |indices|
        invariant device.Valid() && device.unflushed == []
        invariant Reads(device.Contents(), sealedAs, device.epoch, target, before, R.Members(indices[..k]), chunkSize)
        invariant AllStoredForm(codec, prepared, target, chunkSize) && Lines(prepared, indices[..k])
        invariant bursts == [] ==> device.epoch == []
      {
        MembersNext(indices, k);
        var writes := Nth(bursts, k);
        var p, next := ReadOne(indices[k], writes, chunkSize, sealedAs, before, target, R.Members(indices[..k]), prepared);
        LinesNext(prepared, indices, k, p);
        prepared, target := prepared + [p], next;
      }
      assert indices[..|indices|] == indices;
    }

    // ----------------------------------------------------------- committing

    /**
     * Commit the epoch over the manifest in hand. It lands exactly when nobody
     * has moved the branch from this machine's head; otherwise the host keeps
     * the objects and this machine is as it was.
     */
    method CommitOnce(prepared: seq<Prepared>, unseen: seq<Prepared>, ghost target: Bytes) returns (r: Option<nat>)
      requires manifest.Some? && Committed()
      requires Epochal(codec, manifest.value, prepared, unseen, known, committed, target)
      modifies this`manifest, this`head, this`known, this`manifestDigest, this`committed, host
      ensures manifest.Some? && Committed() && Grows(old(host.Abs()), host.Abs())
      ensures r.Some? <==> HeadOf(old(host.Abs()), branch) == old(head)
      ensures r.Some? ==>
                && manifest.value == NextManifest(old(manifest.value), prepared) && committed == target
                && head == r == HeadOf(host.Abs(), branch)
                && Landed(host.Abs(), codec, r.value, manifest.value, old(head))
                && manifestDigest == Some(codec.sha256(codec.serialize(manifest.value)))
                && known == old(known) + IdSet(unseen) + {codec.blobId(codec.serialize(manifest.value))}
      ensures r.None? ==>
                && (manifest, head, known, manifestDigest) == old((manifest, head, known, manifestDigest))
                && committed == old(committed) && host.branches == old(host.branches)
      ensures old(Reached()) ==> Reached()
    {
      hide Sound, Committed, Epochal, NextManifest, TreeFiles, IdSet, Landed, StoreOk, Grows, LiveCommit, Lists,
           Represents, Upload, Entries, Codec.Sound, Ascending, AllStoredForm, Carried, Reach, KnownReached;
      var m := manifest.value;
      var next := NextManifest(m, prepared);
      var manifestBytes := codec.serialize(next);
      var manifestId := codec.blobId(manifestBytes);
      var others := ListOf(next.chunks.Values - IdSet(unseen));
      var files := TreeFiles(unseen, others, manifestBytes, manifestId);
      ghost var before := host.Abs();
      UnfoldCommitted();
      CommitSound(before, codec, m, prepared, unseen, others, head, known, base, committed, target);
      r := host.Commit(branch, files, head, false);
      ghost var w := Deposit(before, files, head, false);
      Unbranched(before, w, host.Abs(), codec);
      if r.None? {
        SoundGrows(before, host.Abs(), codec, m, head, known, base, committed);
        if old(Reached()) { ReachedGrows(before, host.Abs(), head, known); }
        FoldCommitted();
        return;
      }
      var grown := known + IdSet(unseen) + {manifestId};
      SoundGrows(w, host.Abs(), codec, next, r, grown, base, target);
      LandedGrows(w, host.Abs(), codec, r.value, next, head);
      if old(Reached()) {
        HeadNamed(before, codec, m, head, known, base, committed);
        EpochalParts(codec, m, prepared, unseen, known, committed, target);
        CommitKeepsReached(before, host.Abs(), codec, r.value, m, prepared, unseen, head, known);
      }
      manifest, head, known := Some(next), r, grown;
      manifestDigest := Some(codec.sha256(manifestBytes));
      committed := target;
      FoldCommitted();
    }

    lemma UnfoldCommitted()
      requires Committed()
      ensures manifest.Some? && Sound(host.Abs(), codec, manifest.value, head, known, base, committed)
    {
    }

    lemma HostIs()
      ensures host.Abs().n == host.n && host.Abs().objects == host.objects
    {
    }

    lemma CommittedIsSound()
      requires manifest.Some?
      ensures Committed() <==> Sound(host.Abs(), codec, manifest.value, head, known, base, committed)
    {
    }

    lemma ReachedIs()
      ensures Reached() <==> KnownReached(host.Abs(), head, known)
    {
    }

    lemma FoldCommitted()
      requires manifest.Some? && Sound(host.Abs(), codec, manifest.value, head, known, base, committed)
      ensures Committed()
    {
    }

    /**
     * Another writer moved the branch first. When it changed none of this
     * epoch's chunks they are committed over its disk; otherwise nothing is
     * committed, though this machine now holds the other writer's manifest.
     */
    method ResolveConflict(
        prepared: seq<Prepared>, unseen: seq<Prepared>, ghost target: Bytes, ghost theirs: Manifest, ghost theirDisk: Bytes)
        returns (r: Result<nat, SyncError>)
      requires manifest.Some? && Committed() && device.diskSize == manifest.value.diskSize
      requires Epochal(codec, manifest.value, prepared, unseen, known, committed, target)
      requires var h := HeadOf(host.Abs(), branch);
               h.Some? ==> SoundHead(host.Abs(), codec, h.value, theirs, theirDisk, manifest.value, base)
      modifies this`manifest, this`head, this`known, this`attachedExisting, this`manifestDigest, this`committed, host
      ensures manifest.Some? && Committed() && Grows(old(host.Abs()), host.Abs())
      ensures var h := old(HeadOf(host.Abs(), branch));
              h.None? ==>
                && r == Err(LoadFailed(NoBranch)) && host.Abs() == old(host.Abs())
                && (manifest, head, known, attachedExisting) == old((manifest, head, known, attachedExisting))
                && committed == old(committed) && manifestDigest == old(manifestDigest)
      ensures var h := old(HeadOf(host.Abs(), branch));
              var both := Clashes(old(manifest.value), theirs, old(committed), theirDisk, Indices(prepared));
              h.Some? && both != {} ==>
                && r == Err(Overlap(both)) && host.Abs() == old(host.Abs())
                && attachedExisting && manifest == Some(theirs) && committed == theirDisk && head == h
                && manifestDigest == old(manifestDigest)
      ensures var h := old(HeadOf(host.Abs(), branch));
              var both := Clashes(old(manifest.value), theirs, old(committed), theirDisk, Indices(prepared));
              h.Some? && both == {} ==>
                && r.Ok? && attachedExisting && head == Some(r.value) == HeadOf(host.Abs(), branch)
                && manifest.value == NextManifest(theirs, prepared)
                && Grafted(prepared, target, theirDisk, committed, theirs.chunkSize)
                && Landed(host.Abs(), codec, r.value, manifest.value, h)
                && manifestDigest == Some(codec.sha256(codec.serialize(manifest.value)))
      ensures old(Reached()) && old(KnownReached(host.Abs(), HeadOf(host.Abs(), branch), known)) ==> Reached()
    {
      hide Reach, KnownReached;
      hide Sound, Committed, Epochal, NextManifest, Landed, StoreOk, Grows, SoundHead, Holds, TreeIds, Codec.Sound,
           Indices, ChangedIn, Grafted, ManifestAt, Represents, IdSet, Merged, Clashes, SameDevice;
      UnfoldCommitted();
      FromSound(host.Abs(), codec, manifest.value, head, known, base, committed);
      GrowsSelf(host.Abs());
      var previous := manifest.value;
      ghost var s := host.Abs();
      if branch in host.branches {
        ConflictHead(s, codec, host.branches[branch], theirs, theirDisk, previous, head, known, base, committed);
        ConflictGround(s, codec, host.branches[branch], previous, theirs, theirDisk, head, known, base, committed);
        ClashesFound(codec, previous, theirs, s.objects, base, committed, theirDisk, Indices(prepared));
        RebaseEpochal(
          s, codec, host.branches[branch], previous, theirs, theirDisk, prepared, unseen, known, base, committed,
          target);
        if KnownReached(s, Some(host.branches[branch]), known) { TakeoverReached(s, known, host.branches[branch]); }
      }
      var failed := ReadBranch(theirs);
      if failed.Some? {
        FoldCommitted();
        return Err(LoadFailed(failed.value));
      }
      committed := theirDisk;
      FoldCommitted();
      var both := ChangedIn(previous, manifest.value) * Indices(prepared);
      if both != {} { return Err(Overlap(both)); }
      ghost var merged := Merged(theirDisk, target, prepared, theirs.chunkSize);
      var landed := CommitOnce(prepared, unseen, merged);
      return Ok(landed.value);
    }

    // ----------------------------------------------------------- a whole sync

    /** The chunks with a write pending, flushed or not. */
    ghost function Dirty(): set<nat>
      requires manifest.Some?
      reads this, device
    {
      Touched(device.epoch + Ranges(device.unflushed), manifest.value.chunkSize)
    }

    /** Flush, seal, and project the sealed ranges onto chunks. */
    method SealDirty() returns (indices: seq<nat>)
      requires Valid()
      modifies device, device.bytes
      ensures manifest.Some? && Committed() && device.Valid() && device.epoch == [] && device.unflushed == []
      ensures device.diskSize == manifest.value.diskSize == |committed| == |device.Contents()|
      ensures Increasing(indices) && OnDisk(indices, manifest.value.chunkSize, device.diskSize)
      ensures R.Members(indices) == old(Dirty()) && |indices| == |old(Dirty())|
      ensures AgreesOff(device.Contents(), old(Dirty()) + adrift, Image(), manifest.value.chunkSize)
      ensures device.Contents() == ApplyWrites(old(device.Contents()), old(device.unflushed))
    {
      ghost var m := manifest.value;
      FromSound(host.Abs(), codec, m, head, known, base, committed);
      GuestFlush();
      AgreesIsOff(device.Contents(), device.epoch, adrift, Image(), m.chunkSize);
      hide Sound, Agrees, AgreesOff, Touched, OnDisk, R.Members, Ranges, WellPlaced, ApplyWrites;
      var sealed := device.Seal();
      var dirty := DirtyChunks(sealed, manifest.value.chunkSize, Some(manifest.value.diskSize));
      indices := dirty.value;
      DirtyOnDisk(sealed, m.chunkSize, m.diskSize);
      MembersAre(indices, Touched(sealed, m.chunkSize));
    }

    /** A machine attached to an existing branch and never put back must not sync. */
    predicate Refuses()
      reads this
    {
      attachedExisting && !hydrated
    }

    /** The branch is where this machine last saw it. */
    predicate Uncontested()
      reads this, host
    {
      HeadOf(host.Abs(), branch) == head
    }

    ghost function View(): View
      requires manifest.Some?
      reads this
    {
      SyncState.View(manifest.value, head, committed, adrift, manifestDigest, attachedExisting)
    }

    /** The branch has moved and the epoch is to be rebased: what comes of it. */
    method RebaseEpoch(
        prepared: seq<Prepared>, unseen: seq<Prepared>, reused: nat, ghost dirty: set<nat>,
        ghost flushed: Bytes, ghost target: Bytes, ghost theirs: Manifest, ghost theirDisk: Bytes)
        returns (r: Result<Report, SyncError>)
      requires manifest.Some? && Committed() && copied
      requires device.Valid() && device.diskSize == manifest.value.diskSize
      requires Epochal(codec, manifest.value, prepared, unseen, known, committed, target)
      requires |prepared| == |dirty| == |unseen| + reused && Indices(prepared) == dirty
      requires AgreesOff(flushed, dirty + adrift, committed, manifest.value.chunkSize)
      requires Reads(device.Contents(), flushed, device.epoch, target, committed, dirty, manifest.value.chunkSize)
      requires var h := HeadOf(host.Abs(), branch);
               h != head && h.Some? ==> SoundHead(host.Abs(), codec, h.value, theirs, theirDisk, manifest.value, base)
      requires HeadOf(host.Abs(), branch) != head
      modifies this`manifest, this`head, this`known, this`attachedExisting, this`manifestDigest, this`committed, this`adrift, host
      ensures Valid() && Grows(old(host.Abs()), host.Abs())
      ensures Outcome(codec, branch, old(host.Abs()), host.Abs(), old(View()), View(), dirty, target, theirs, theirDisk, true, r)
      ensures r != Err(NotHydrated)
      ensures old(Reached()) && old(KnownReached(host.Abs(), HeadOf(host.Abs(), branch), known)) ==> Reached()
    {
      hide Reach, KnownReached;
      hide Sound, Committed, SoundHead, Agrees, AgreesOff, Touched, Landed, Differing, Clashes, ThreeWay, Grows, Reads,
           Indices, IdSet, Represents, StoreOk, Codec.Sound, Epochal, Grafted;
      hide Outcome, NextManifest, SameDevice;
      ghost var m, s, v, epoch, contents := manifest.value, host.Abs(), View(), device.epoch, device.Contents();
      ghost var h := HeadOf(s, branch);
      UnfoldCommitted();
      FromSound(s, codec, m, head, known, base, committed);
      ReadsOff(contents, flushed, epoch, target, committed, dirty, adrift, m.chunkSize);
      if h.Some? { ConflictGround(s, codec, h.value, m, theirs, theirDisk, head, known, base, committed); }
      var resolved := ResolveConflict(prepared, unseen, target, theirs, theirDisk);
      if resolved.Err? {
        if h.None? {
          adrift := adrift + dirty;
          AgreesIsOff(contents, epoch, adrift, committed, m.chunkSize);
          OutcomeGone(codec, branch, s, host.Abs(), v, View(), dirty, target, theirs, theirDisk);
        } else {
          TakeoverKeeps(
            codec, m, theirs, s.objects, base, contents, Touched(epoch, m.chunkSize) + (v.adrift + dirty),
            v.committed, theirDisk);
          adrift := (adrift + dirty) + Differing(m, theirs);
          AgreesMore(contents, epoch, v.adrift + dirty, Differing(m, theirs), committed, m.chunkSize);
          OutcomeOverlap(codec, branch, s, host.Abs(), v, View(), dirty, target, theirs, theirDisk);
        }
        return Err(resolved.error);
      }
      RebaseKeeps(
        codec, m, theirs, s.objects, base, prepared, contents, flushed, epoch, v.adrift, v.committed, target,
        theirDisk, committed);
      adrift := (adrift - dirty) + Differing(m, theirs);
      NextSame(theirs, prepared);
      SameDeviceOnward(m, theirs, manifest.value);
      AgreesIsOff(contents, epoch, adrift, committed, m.chunkSize);
      r := Ok(Report(Some(resolved.value), |prepared|, |unseen|, reused, false));
      OutcomeRebased(codec, branch, s, host.Abs(), v, View(), dirty, target, theirs, theirDisk, r);
    }

    /** Commit a prepared epoch, rebasing once if the branch has moved. */
    method CommitEpoch(
        retry: bool, prepared: seq<Prepared>, unseen: seq<Prepared>, reused: nat, ghost dirty: set<nat>,
        ghost flushed: Bytes, ghost target: Bytes, ghost theirs: Manifest, ghost theirDisk: Bytes)
        returns (r: Result<Report, SyncError>)
      requires manifest.Some? && Committed() && copied
      requires device.Valid() && device.diskSize == manifest.value.diskSize
      requires Epochal(codec, manifest.value, prepared, unseen, known, committed, target)
      requires |prepared| == |dirty| == |unseen| + reused && Indices(prepared) == dirty
      requires AgreesOff(flushed, dirty + adrift, committed, manifest.value.chunkSize)
      requires Reads(device.Contents(), flushed, device.epoch, target, committed, dirty, manifest.value.chunkSize)
      requires var h := HeadOf(host.Abs(), branch);
               h != head && h.Some? ==> SoundHead(host.Abs(), codec, h.value, theirs, theirDisk, manifest.value, base)
      modifies this`manifest, this`head, this`known, this`attachedExisting, this`manifestDigest, this`committed, this`adrift, host
      ensures Valid() && Grows(old(host.Abs()), host.Abs())
      ensures Outcome(codec, branch, old(host.Abs()), host.Abs(), old(View()), View(), dirty, target, theirs, theirDisk, retry, r)
      ensures r != Err(NotHydrated)
      ensures old(Reached()) && old(KnownReached(host.Abs(), HeadOf(host.Abs(), branch), known)) ==> Reached()
    {
      hide Reach, KnownReached;
      hide Sound, Committed, SoundHead, Agrees, AgreesOff, Touched, Landed, Differing, Clashes, ThreeWay, Grows, Reads,
           Indices, IdSet, Represents, StoreOk, Codec.Sound, Epochal, Grafted;
      ghost var m, s, v, epoch, contents := manifest.value, host.Abs(), View(), device.epoch, device.Contents();
      UnfoldCommitted();
      FromSound(s, codec, m, head, known, base, committed);
      ReadsOff(contents, flushed, epoch, target, committed, dirty, adrift, m.chunkSize);
      var landed := CommitOnce(prepared, unseen, target);
      if landed.Some? {
        adrift := adrift - dirty;
        AgreesIsOff(contents, epoch, adrift, target, m.chunkSize);
        return Ok(Report(landed, |prepared|, |unseen|, reused, false));
      }
      if !retry {
        adrift := adrift + dirty;
        AgreesIsOff(contents, epoch, adrift, committed, m.chunkSize);
        return Err(LostRace);
      }
      ghost var lost, h := host.Abs(), HeadOf(host.Abs(), branch);
      if h.Some? { SoundHeadGrows(s, lost, codec, h.value, theirs, theirDisk, m, base); }
      if KnownReached(s, h, known) { ReachedGrows(s, lost, h, known); }
      r := RebaseEpoch(prepared, unseen, reused, dirty, flushed, target, theirs, theirDisk);
      GrowsOn(s, lost, host.Abs());
      OutcomeFrom(codec, branch, s, lost, host.Abs(), v, View(), dirty, target, theirs, theirDisk, r);
    }

    /** A sync that is not refused. */
    method SyncPutBack(retry: bool, bursts: seq<seq<GuestWrite>>, ghost theirs: Manifest, ghost theirDisk: Bytes)
        returns (r: Result<Report, SyncError>, ghost ours: Bytes)
      requires Valid() && copied && BurstsFit(bursts, device.diskSize)
      requires var h := HeadOf(host.Abs(), branch);
               h != head && h.Some? ==> SoundHead(host.Abs(), codec, h.value, theirs, theirDisk, manifest.value, base)
      modifies this`manifest, this`head, this`known, this`attachedExisting, this`manifestDigest, this`committed, this`adrift,
               host, device, device.bytes
      ensures Valid() && Grows(old(host.Abs()), host.Abs()) && r != Err(NotHydrated)
      ensures device.unflushed == [] && (bursts == [] ==> device.epoch == [])
      ensures Flushed(device.Contents(), device.epoch, old(device.Contents()), old(device.unflushed), old(manifest.value.chunkSize))
      ensures old(Dirty()) == {} && old(head).Some? ==>
                r == Ok(Report(head, 0, 0, 0, true)) && host.Abs() == old(host.Abs()) && View() == old(View())
      ensures old(Dirty()) != {} || old(head).None? ==>
                Outcome(codec, branch, old(host.Abs()), host.Abs(), old(View()), View(), old(Dirty()), ours, theirs, theirDisk, retry, r)
      ensures old(Reached()) && old(KnownReached(host.Abs(), HeadOf(host.Abs(), branch), known)) ==> Reached()
    {
      hide Reach, KnownReached;
      hide Sound, Committed, SoundHead, Agrees, AgreesOff, R.Members, Grows, Reads, Indices, BurstsFit, OnDisk, Lines, Epochal,
           AllStoredForm, Increasing, Outcome, Deduplicated, Sorted, Touched, Ranges, IdSet, Represents, StoreOk, Codec.Sound,
           ApplyWrites, Flushed;
      ours := committed;
      GrowsSelf(host.Abs());
      var indices := SealDirty();
      ghost var dirty, flushed := old(Dirty()), device.Contents();
      if |indices| == 0 && head.Some? {
        AgreesSealed(flushed, dirty, adrift, Image(), manifest.value.chunkSize);
        FlushedNow(flushed, old(device.Contents()), old(device.unflushed), manifest.value.chunkSize);
        return Ok(Report(head, 0, 0, 0, true)), ours;
      }
      var prepared, target := ReadDirty(indices, bursts, manifest.value.chunkSize, committed);
      ours := target;
      ReadsFlushed(
        device.Contents(), flushed, device.epoch, target, committed, dirty, old(device.Contents()),
        old(device.unflushed), manifest.value.chunkSize);
      var unseen, reused := Dedup(prepared, known);
      EpochReady(
        codec, manifest.value, prepared, unseen, known, indices, device.Contents(), flushed, device.epoch, committed,
        target);
      r := CommitEpoch(retry, prepared, unseen, reused, dirty, flushed, target, theirs, theirDisk);
    }

    lemma WhetherRefused()
      requires Valid()
      ensures manifest.Some? && (Refuses() <==> attachedExisting && !hydrated) && (Refuses() || copied)
    {
    }

    /**
     * One sync, with bursts of guest writes before each chunk is read. Should
     * the branch have moved, `theirs` and `theirDisk` are what its head holds;
     * `ours` is the disk this sync read.
     */
    method Sync(retry: bool, bursts: seq<seq<GuestWrite>>, ghost theirs: Manifest, ghost theirDisk: Bytes)
        returns (r: Result<Report, SyncError>, ghost ours: Bytes)
      requires Valid() && BurstsFit(bursts, device.diskSize)
      requires var h := HeadOf(host.Abs(), branch);
               h != head && h.Some? ==> SoundHead(host.Abs(), codec, h.value, theirs, theirDisk, manifest.value, base)
      modifies this, host, device, device.bytes
      ensures Valid() && (base, copied, hydrated) == old((base, copied, hydrated)) && Grows(old(host.Abs()), host.Abs())
      // Refused: nothing has changed.
      ensures r == Err(NotHydrated) <==> old(Refuses())
      ensures old(Refuses()) ==>
                && host.Abs() == old(host.Abs()) && device.Contents() == old(device.Contents()) && View() == old(View())
                && (device.epoch, device.unflushed) == old((device.epoch, device.unflushed))
      ensures !old(Refuses()) ==> device.unflushed == [] && (bursts == [] ==> device.epoch == [])
      // The device has the guest's writes, and chunks not written meanwhile are as they were flushed.
      ensures !old(Refuses()) ==>
                Flushed(device.Contents(), device.epoch, old(device.Contents()), old(device.unflushed), old(manifest.value.chunkSize))
      // Skipped: nothing dirty, on a machine that has been committed before.
      ensures !old(Refuses()) && old(Dirty()) == {} && old(head).Some? ==>
                r == Ok(Report(head, 0, 0, 0, true)) && host.Abs() == old(host.Abs()) && View() == old(View())
      // Otherwise a commit, a rebase or a failure, as the branch was found.
      ensures !old(Refuses()) && (old(Dirty()) != {} || old(head).None?) ==>
                Outcome(codec, branch, old(host.Abs()), host.Abs(), old(View()), View(), old(Dirty()), ours, theirs, theirDisk, retry, r)
      // What is taken for stored stays within reach of the head, unless another writer dropped the history it was in.
      ensures old(Reached()) && old(KnownReached(host.Abs(), HeadOf(host.Abs(), branch), known)) ==> Reached()
    {
      hide *;
      GrowsSelf(host.Abs());
      WhetherRefused();
      ours := committed;
      if attachedExisting && !hydrated { return Err(NotHydrated), ours; }
      r, ours := SyncPutBack(retry, bursts, theirs, theirDisk);
    }

    // ----------------------------------------------------------- whole runs

    /** Restoring the head gives the committed disk. */
    lemma RestoresToCommitted(fetchBase: Option<string -> Bytes>, pin: Option<Digest>)
      requires Committed() && head.Some? && R.RightBase(manifest.value, fetchBase, base)
      requires pin.None? || pin.value == codec.sha256(codec.serialize(manifest.value))
      ensures head.value in host.commits && host.commits[head.value].tree in host.trees
      ensures R.RestoreSpec(codec, host.trees[host.commits[head.value].tree], R.FromStore(host.objects), fetchBase, pin) == Ok(committed)
    {
      LiveHolds(host.Abs(), codec, head.value, manifest.value);
      R.StoreIsHonest(host.objects);
      R.RestoreReturns(
        host.Abs(), codec, head.value, manifest.value, base, committed, R.FromStore(host.objects), fetchBase, pin);
    }

    /** And that is the device, byte for byte, as long as nothing is pending and nothing adrift. */
    lemma RestoresToDevice(fetchBase: Option<string -> Bytes>, pin: Option<Digest>)
      requires Valid() && copied && head.Some? && adrift == {} && device.epoch == []
      requires R.RightBase(manifest.value, fetchBase, base)
      requires pin.None? || pin.value == codec.sha256(codec.serialize(manifest.value))
      ensures head.value in host.commits && host.commits[head.value].tree in host.trees
      ensures R.RestoreSpec(codec, host.trees[host.commits[head.value].tree], R.FromStore(host.objects), fetchBase, pin) == Ok(device.Contents())
    {
      AgreesWholly(device.Contents(), committed, manifest.value.chunkSize);
      RestoresToCommitted(fetchBase, pin);
    }

    /** The pin is of the manifest in hand. */
    ghost predicate Pinned()
      reads this
    {
      manifest.Some? && manifestDigest == Some(codec.sha256(codec.serialize(manifest.value)))
    }

    /** At rest on a branch nobody else writes: what every command of a run keeps. */
    ghost predicate Settled()
      reads this, host, device, device.bytes
    {
      Valid() && copied && Uncontested() && !Refuses() && adrift == {} && Reached()
    }

    /** Still a machine of the same device; and what has been committed since is pinned. */
    ghost predicate Continues(was: Manifest, oldHead: Option<nat>, oldPin: Option<Digest>)
      reads this
    {
      && manifest.Some? && SameDevice(manifest.value, was) && manifest.value.compacted == was.compacted
      && (Pinned() || (manifest, head, manifestDigest) == (Some(was), oldHead, oldPin))
    }

    /** Any run of putting back, guest writes, flushes and syncs, with no other writer on the branch. */
    method Session(commands: seq<Command>)
      requires Settled() && CommandsFit(commands, device.diskSize)
      modifies this, host, device, device.bytes
      ensures Settled() && base == old(base) && Continues(old(manifest.value), old(head), old(manifestDigest))
      ensures Replayed(device.Contents(), device.unflushed, old(device.Contents()), old(device.unflushed), commands)
    {
      hide *;
      UnfoldSettled();
      ReplayedNone(device.Contents(), device.unflushed);
      ContinuesNow();
      for k := 0 to |commands|
        invariant Settled() && base == old(base) && Continues(old(manifest.value), old(head), old(manifestDigest))
        invariant Replayed(device.Contents(), device.unflushed, old(device.Contents()), old(device.unflushed), commands[..k])
      {
        Do(commands, k, old(device.Contents()), old(device.unflushed), old(manifest.value), old(head), old(manifestDigest));
      }
      assert commands[..|commands|] == commands;
    }

    lemma UnfoldSettled()
      requires Settled()
      ensures manifest.Some? && Valid() && copied && Uncontested() && !Refuses() && adrift == {} && Reached()
      ensures AllFit(device.unflushed, |device.Contents()|) && device.diskSize == |device.Contents()| == |base|
    {
    }

    lemma ContinuesNow()
      requires manifest.Some?
      ensures Continues(manifest.value, head, manifestDigest)
    {
    }

    /** One command of a run. */
    method Do(
        commands: seq<Command>, k: nat, ghost disk: Bytes, ghost pending: seq<GuestWrite>,
        ghost was: Manifest, ghost oldHead: Option<nat>, ghost oldPin: Option<Digest>)
      requires Settled() && CommandsFit(commands, device.diskSize) && Continues(was, oldHead, oldPin)
      requires k < |commands| && Replayed(device.Contents(), device.unflushed, disk, pending, commands[..k])
      modifies this, host, device, device.bytes
      ensures Settled() && base == old(base) && Continues(was, oldHead, oldPin)
      ensures Replayed(device.Contents(), device.unflushed, disk, pending, commands[..k + 1])
    {
      hide Reach, KnownReached;
      hide Sound, Committed, Agrees, BurstsFit, Grows, ThreeWay, Landed, AgreesOff, ApplyWrites, Touched, Ranges,
           Differing, Plain, Flushed, Outcome, SameDevice, Replayed, AllFit;
      ghost var contents, unflushed, chunkSize := device.Contents(), device.unflushed, manifest.value.chunkSize;
      UnfoldSettled();
      match commands[k] {
        case Hydrates => var _ := Hydrate();
        case Writes(offset, data) => var _ := GuestWrite(offset, data);
        case Flushes => GuestFlush();
        case Syncs(retry, bursts) =>
          SyncAlone(retry, bursts, was, oldHead, oldPin);
          if bursts == [] { FlushedWholly(device.Contents(), contents, unflushed, chunkSize); }
      }
      ReplayedOnward(contents, unflushed, disk, pending, commands, k, device.Contents(), device.unflushed);
    }

    /** A sync of a machine at rest leaves it at rest, with a head. */
    method SyncAlone(
        retry: bool, bursts: seq<seq<GuestWrite>>, ghost was: Manifest, ghost oldHead: Option<nat>, ghost oldPin: Option<Digest>)
      requires Settled() && BurstsFit(bursts, device.diskSize) && Continues(was, oldHead, oldPin)
      modifies this, host, device, device.bytes
      ensures Settled() && base == old(base) && head.Some? && Continues(was, oldHead, oldPin)
      ensures device.unflushed == [] && (bursts == [] ==> device.epoch == [])
      ensures Flushed(device.Contents(), device.epoch, old(device.Contents()), old(device.unflushed), old(manifest.value.chunkSize))
    {
      hide Reach, KnownReached;
      hide Sound, Committed, Agrees, BurstsFit, Grows, AgreesOff, Touched, Ranges, Flushed, Outcome, SameDevice;
      ghost var s, v, dirty, theirs, theirDisk := host.Abs(), View(), Dirty(), manifest.value, committed;
      var r, ours := Sync(retry, bursts, theirs, theirDisk);
      if dirty != {} || v.head.None? {
        OutcomeAlone(codec, branch, s, host.Abs(), v, View(), dirty, ours, theirs, theirDisk, retry, r);
        SameDeviceOnward(was, theirs, manifest.value);
      }
    }

    /**
     * After any such run, one more sync makes the branch restore to the device as
     * it then stands, which is what the guest wrote, over the base the machine had.
     */
    method SessionThenSync(commands: seq<Command>)
      requires Settled() && CommandsFit(commands, device.diskSize)
      modifies this, host, device, device.bytes
      ensures Settled() && head.Some? && base == old(base) && device.unflushed == [] && device.epoch == []
      ensures Continues(old(manifest.value), old(head), old(manifestDigest))
      ensures RestoresFrom(old(manifest.value.base), old(manifest.value.baseIsBlank), base, device.Contents())
      ensures Plain(commands) ==> device.Contents() == Left(old(device.Contents()), old(device.unflushed), commands)
    {
      hide *;
      UnfoldSettled();
      ghost var was, oldHead, oldPin := manifest.value, head, manifestDigest;
      Session(commands);
      UnfoldSettled();
      NoBursts(device.diskSize);
      ghost var contents, unflushed, chunkSize := device.Contents(), device.unflushed, manifest.value.chunkSize;
      SyncAlone(false, [], was, oldHead, oldPin);
      UnfoldSettled();
      FlushedWholly(device.Contents(), contents, unflushed, chunkSize);
      LeftOver(contents, unflushed, old(device.Contents()), old(device.unflushed), commands);
      RestoresDevice();
      SameBase(was, oldHead, oldPin, device.Contents());
    }

    /** Restoring the branch from the host alone, over this base image, gives this disk, without failing. */
    ghost predicate RestoresFrom(url: string, blank: bool, image: Bytes, disk: Bytes)
      reads this, host
    {
      var h := HeadOf(host.Abs(), branch);
      && h.Some? && h.value in host.commits && host.commits[h.value].tree in host.trees
      && forall fetchBase: Option<string -> Bytes> :: R.Supplies(url, blank, image, fetchBase) ==>
           R.RestoreSpec(codec, host.trees[host.commits[h.value].tree], R.FromStore(host.objects), fetchBase, None) == Ok(disk)
    }

    lemma RestoresDevice()
      requires Valid() && copied && head.Some? && adrift == {} && device.epoch == [] && Uncontested()
      ensures RestoresFrom(manifest.value.base, manifest.value.baseIsBlank, base, device.Contents()) && device.Contents() == committed
    {
      AgreesWholly(device.Contents(), committed, manifest.value.chunkSize);
      RestoresHead();
    }

    lemma RestoresHead()
      requires Committed() && head.Some? && Uncontested()
      ensures RestoresFrom(manifest.value.base, manifest.value.baseIsBlank, base, committed)
    {
      LiveHolds(host.Abs(), codec, head.value, manifest.value);
      hide R.RestoreSpec, R.FromStore, R.BaseImage, R.Supplies;
      forall fetchBase: Option<string -> Bytes> | R.Supplies(manifest.value.base, manifest.value.baseIsBlank, base, fetchBase)
        ensures R.RestoreSpec(codec, host.trees[host.commits[head.value].tree], R.FromStore(host.objects), fetchBase, None) == Ok(committed)
      {
        R.Supplied(manifest.value.base, manifest.value.baseIsBlank, base, fetchBase);
        RestoresToCommitted(fetchBase, None);
      }
    }

    lemma SameBase(was: Manifest, oldHead: Option<nat>, oldPin: Option<Digest>, disk: Bytes)
      requires Continues(was, oldHead, oldPin) && RestoresFrom(manifest.value.base, manifest.value.baseIsBlank, base, disk)
      ensures RestoresFrom(was.base, was.baseIsBlank, base, disk)
    {
      hide R.RestoreSpec, R.FromStore, R.Supplies;
    }

    /** Against any tree, object source and base, a restore with this machine's pin fails or gives this disk. */
    ghost predicate PinnedTo(disk: Bytes)
      reads this
    {
      manifestDigest.Some? &&
      forall entries: seq<Entry>, source: R.Source, fetchBase: Option<string -> Bytes> ::
        R.RestoreSpec(codec, entries, source, fetchBase, manifestDigest).Err? ||
        R.RestoreSpec(codec, entries, source, fetchBase, manifestDigest) == Ok(disk)
    }

    lemma PinnedToDevice()
      requires Valid() && copied && adrift == {} && device.epoch == [] && Pinned()
      requires manifest.value.baseIsBlank && !manifest.value.compacted && base == R.Zeros(manifest.value.diskSize)
      ensures PinnedTo(device.Contents())
    {
      AgreesWholly(device.Contents(), committed, manifest.value.chunkSize);
      hide R.RestoreSpec, R.Zeros, Represents, Codec.Sound, StoreOk, LiveCommit;
      forall entries: seq<Entry>, source: R.Source, fetchBase: Option<string -> Bytes>
        ensures R.RestoreSpec(codec, entries, source, fetchBase, manifestDigest).Err? ||
                R.RestoreSpec(codec, entries, source, fetchBase, manifestDigest) == Ok(committed)
      {
        R.PinnedRestoreExact(codec, manifest.value, host.objects, committed, entries, source, fetchBase);
      }
    }

    // ----------------------------------------------------------- compaction

    /** Read and hash the whole disk. */
    method GatherDisk(chunkSize: Positive) returns (chunks: map<nat, Id>, order: seq<Id>, byId: map<Id, Bytes>)
      requires device.Valid() && codec.Sound()
      ensures var n := ChunkCount(device.diskSize, chunkSize);
              && n <= ChunkCount(|device.Contents()|, chunkSize)
              && chunks == WholeChunks(codec, device.Contents(), chunkSize, n)
              && Gathered(codec, device.Contents(), chunkSize, n, order, byId)
    {
      hide Codec.Sound, Gathered, Chunk, ChunkStart, ChunkCount;
      var total := ChunkCount(device.diskSize, chunkSize);
      ghost var disk := device.Contents();
      assert |disk| == device.diskSize;
      chunks, order, byId := map[], [], map[];
      GatheredNone(codec, disk, chunkSize);
      for index := 0 to total
        invariant chunks == WholeChunks(codec, disk, chunkSize, index)
        invariant Gathered(codec, disk, chunkSize, index, order, byId)
      {
        GatheredNext(codec, disk, chunkSize, index, order, byId);
        var plaintext := device.ReadChunk(index, chunkSize);
        var stored := codec.encrypt(plaintext.value);
        var id := codec.blobId(stored);
        chunks := chunks[index := id];
        if id !in byId { order, byId := order + [id], byId[id := stored]; }
      }
    }

    /** The whole disk in one commit without parents, which takes the branch wherever it is. */
    method CommitWhole(
        chunks: map<nat, Id>, order: seq<Id>, byId: map<Id, Bytes>, ghost disk: Bytes) returns (commit: nat)
      requires manifest.Some? && Committed() && |disk| == manifest.value.diskSize
      requires chunks == Compacted(codec, manifest.value, disk).chunks
      requires Gathered(codec, disk, manifest.value.chunkSize, ChunkCount(|disk|, manifest.value.chunkSize), order, byId)
      modifies this`manifest, this`head, this`known, this`committed, host
      ensures manifest == Some(Compacted(codec, old(manifest.value), disk)) && committed == disk
      ensures head == Some(commit) == HeadOf(host.Abs(), branch) && known == manifest.value.chunks.Values
      ensures Landed(host.Abs(), codec, commit, manifest.value, None) && Grows(old(host.Abs()), host.Abs()) && StoreOk(host.Abs(), codec)
      ensures WhollyStored(codec, disk, manifest.value.chunkSize, host.objects)
      ensures |disk| == |old(committed)| && (Committed() <==> Intact(old(manifest.value), disk, old(committed)))
      ensures Reached()
    {
      hide *;
      UnfoldCommitted();
      FromSound(host.Abs(), codec, manifest.value, head, known, base, committed);
      var m := manifest.value;
      ghost var s, before := host.Abs(), committed;
      var next := m.(chunks := chunks, sync := m.sync + 1, compacted := true);
      CompactedIs(codec, m, disk);
      var manifestBytes := codec.serialize(next);
      var manifestId := codec.blobId(manifestBytes);
      CompactDeposits(s, codec, m, known, disk, order, byId);
      var files := CompactFiles(order, byId, known, manifestBytes, manifestId);
      HostIs();
      var landed := host.Commit(branch, files, None, true);
      HostIs();
      AfterOrphan(s, files, branch, landed.value, host.Abs());
      commit := landed.value;
      ghost var w, t := Deposit(s, files, None, true), host.Abs();
      CompactedSound(s, w, t, codec, m, commit, base, before, disk, byId.Keys);
      CompactedReached(t, codec, commit, next);
      manifest, head, known := Some(next), Some(commit), byId.Keys;
      committed := disk;
      CommittedIsSound();
      ReachedIs();
    }

    /**
     * The disk as it stands, all of it, in a commit without a past. There is no
     * check that the machine was ever put back. The machine is in order again
     * exactly when the digests kept from the old manifest still fit the disk.
     */
    method Compact() returns (commit: nat)
      requires Valid()
      modifies this, host, device, device.bytes
      ensures device.Valid() && device.epoch == [] && device.unflushed == []
      ensures device.Contents() == ApplyWrites(old(device.Contents()), old(device.unflushed))
      ensures manifest == Some(Compacted(codec, old(manifest.value), device.Contents()))
      ensures head == Some(commit) == HeadOf(host.Abs(), branch) && known == manifest.value.chunks.Values
      ensures Landed(host.Abs(), codec, commit, manifest.value, None) && Grows(old(host.Abs()), host.Abs()) && StoreOk(host.Abs(), codec)
      ensures WhollyStored(codec, device.Contents(), manifest.value.chunkSize, host.objects)
      ensures manifestDigest == old(manifestDigest) && base == old(base)
      ensures |device.Contents()| == |old(committed)| && committed == device.Contents() && copied && adrift == {}
      ensures Valid() <==> Intact(old(manifest.value), device.Contents(), old(committed))
      ensures Reached()
    {
      hide *;
      UnfoldValid();
      GuestFlush();
      UnfoldValid();
      var _ := device.Seal();
      var chunks, order, byId := GatherDisk(manifest.value.chunkSize);
      CompactedIs(codec, manifest.value, device.Contents());
      commit := CommitWhole(chunks, order, byId, device.Contents());
      copied, adrift := true, {};
      AgreesSelf(device.Contents(), [], {}, manifest.value.chunkSize);
      ValidIsCommitted();
    }

    lemma UnfoldValid()
      requires Valid()
      ensures manifest.Some? && Committed() && device.Valid() && codec.Sound()
      ensures device.diskSize == manifest.value.diskSize == |committed| == |device.Contents()|
    {
    }

    lemma ValidIsCommitted()
      requires manifest.Some? && copied && device.Valid() && device.diskSize == manifest.value.diskSize
      requires device.epoch == [] && adrift == {} && Agrees(device.Contents(), [], {}, committed, manifest.value.chunkSize)
      ensures Valid() <==> Committed()
    {
      hide Agrees;
    }
  }
}
