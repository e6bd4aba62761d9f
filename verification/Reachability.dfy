/**
 * What a branch's head reaches, and why a machine's idea of what the repository
 * holds survives the collection of everything else.
 */
module Reachability {
  import opened Common
  import opened Chunker
  import opened Repo
  import opened Epoch
  import opened SyncState

  /** The ids listed by a commit's tree and by its ancestors'. */
  ghost function Reach(s: Store, h: nat): set<Id> {
    if h !in s.commits then {}
    else TreeIds(s, h) + if s.commits[h].parents != [] && s.commits[h].parents[0] < h then Reach(s, s.commits[h].parents[0]) else {}
  }

  /** Everything known is reached from the head. */
  ghost predicate KnownReached(s: Store, head: Option<nat>, known: set<Id>) {
    known <= if head.None? then {} else Reach(s, head.value)
  }

  lemma NothingKnown(s: Store, head: Option<nat>)
    ensures KnownReached(s, head, {})
  {
  }

  lemma TreeIdsGrow(s: Store, t: Store, h: nat)
    requires Grows(s, t)
    ensures TreeIds(s, h) <= TreeIds(t, h)
  {
  }

  lemma {:induction false} ReachGrows(s: Store, t: Store, h: nat)
    requires Grows(s, t)
    ensures Reach(s, h) <= Reach(t, h)
  {
    TreeIdsGrow(s, t, h);
    hide TreeIds;
    if h in s.commits && s.commits[h].parents != [] && s.commits[h].parents[0] < h { ReachGrows(s, t, s.commits[h].parents[0]); }
  }

  /** A live commit lists exactly its manifest's objects and the manifest. */
  lemma LiveIds(s: Store, c: Codec, h: nat, m: Manifest)
    requires LiveCommit(s, c, h, m)
    ensures TreeIds(s, h) == m.chunks.Values + {c.blobId(c.serialize(m))}
  {
    var mid := c.blobId(c.serialize(m));
    var entries := s.trees[s.commits[h].tree];
    var ids: seq<Id> :| Distinct(ids) && (set id | id in ids) == m.chunks.Values && entries == ObjectEntries(ids) + [Entry(ManifestPath, mid)];
    EntryIds(ids, mid);
  }

  lemma EntryIds(ids: seq<Id>, mid: Id)
    ensures (set e | e in ObjectEntries(ids) + [Entry(ManifestPath, mid)] :: e.id) == (set id | id in ids) + {mid}
  {
    var entries := ObjectEntries(ids) + [Entry(ManifestPath, mid)];
    forall id | id in ids ensures id in (set e | e in entries :: e.id) {
      var k :| 0 <= k < |ids| && ids[k] == id;
      assert entries[k] == Entry(ObjectPath(id), id) && entries[k] in entries;
    }
    assert entries[|ids|] == Entry(ManifestPath, mid) && entries[|ids|] in entries;
  }

  /** What a commit lands with is reached from it, with everything its parent reached. */
  lemma LandedReaches(s: Store, c: Codec, h: nat, m: Manifest, parent: Option<nat>)
    requires Landed(s, c, h, m, parent) && (parent.Some? ==> parent.value < h)
    ensures m.chunks.Values + {c.blobId(c.serialize(m))} <= Reach(s, h)
    ensures parent.Some? ==> Reach(s, parent.value) <= Reach(s, h)
  {
    LiveIds(s, c, h, m);
    hide TreeIds, LiveTree;
  }

  /** Known stays reached when an epoch lands over a head that reached it. */
  lemma CommitKeepsReached(
      s: Store, t: Store, c: Codec, h: nat, m: Manifest, prepared: seq<Prepared>, unseen: seq<Prepared>, head: Option<nat>, known: set<Id>)
    requires KnownReached(s, head, known) && Grows(s, t) && Landed(t, c, h, NextManifest(m, prepared), head)
    requires (head.Some? ==> head.value < h) && Ascending(prepared) && Carried(prepared, unseen, known)
    ensures KnownReached(t, Some(h), known + IdSet(unseen) + {c.blobId(c.serialize(NextManifest(m, prepared)))})
  {
    CarriedNamed(m, prepared, unseen, known);
    LandedReaches(t, c, h, NextManifest(m, prepared), head);
    if head.Some? { ReachGrows(s, t, head.value); }
    hide Reach, Landed, NextManifest, IdSet;
  }

  lemma ReachedGrows(s: Store, t: Store, head: Option<nat>, known: set<Id>)
    requires KnownReached(s, head, known) && Grows(s, t)
    ensures KnownReached(t, head, known)
  {
    if head.Some? { ReachGrows(s, t, head.value); }
    hide Reach;
  }

  /** Another head taken over, which reaches what was known, reaches what its tree lists as well. */
  lemma TakeoverReached(s: Store, known: set<Id>, h: nat)
    requires KnownReached(s, Some(h), known)
    ensures KnownReached(s, Some(h), known + TreeIds(s, h))
  {
    assert TreeIds(s, h) <= Reach(s, h);
    hide Reach, TreeIds;
  }

  lemma HeadNamed(s: Store, c: Codec, m: Manifest, head: Option<nat>, known: set<Id>, base: Bytes, committed: Bytes)
    requires Sound(s, c, m, head, known, base, committed)
    ensures head.Some? ==> head.value <= s.n
  {
  }

  lemma EpochalParts(
      c: Codec, m: Manifest, prepared: seq<Prepared>, unseen: seq<Prepared>, known: set<Id>, committed: Bytes,
      target: Bytes)
    requires Epochal(c, m, prepared, unseen, known, committed, target)
    ensures Ascending(prepared) && Carried(prepared, unseen, known)
  {
  }

  lemma CompactedReached(s: Store, c: Codec, h: nat, m: Manifest)
    requires Landed(s, c, h, m, None)
    ensures KnownReached(s, Some(h), m.chunks.Values)
  {
    LandedReaches(s, c, h, m, None);
    hide Reach;
  }

  // ------------------------------------------------------------- collecting the rest

  /** The host drops every object that the branch's head does not reach. */
  function Collected(s: Store, kept: set<Id>): Store {
    s.(objects := map id | id in s.objects && id in kept :: s.objects[id])
  }

  /**
   * A machine whose knowledge is reached from its head is as sound after the
   * collection of everything else: nothing it would skip uploading is gone, and
   * its commit still restores.
   */
  lemma SoundAfterCollection(s: Store, c: Codec, m: Manifest, head: nat, known: set<Id>, base: Bytes, committed: Bytes)
    requires Sound(s, c, m, Some(head), known, base, committed)
    requires KnownReached(s, Some(head), known)
    ensures var t := Collected(s, Reach(s, head));
            && Sound(t, c, m, Some(head), known, base, committed) && LiveCommit(t, c, head, m)
            && KnownReached(t, Some(head), known)
  {
    var kept := Reach(s, head);
    var t := Collected(s, kept);
    HeadLive(s, c, m, head, known, base, committed);
    StillReached(s, kept, head);
    LiveIds(s, c, head, m);
    FromSound(s, c, m, Some(head), known, base, committed);
    SoundParts(s, c, m, Some(head), known, base, committed);
    assert TreeIds(s, head) <= kept;
    hide Reach, TreeIds, LiveCommit, Represents, Sound, Holds, StoreOk, Codec.Sound;
    CollectedHas(s, kept);
    CollectedLive(s, c, head, m, kept);
    CollectedStands(s, c, m, kept, base, committed);
    SoundFrom(t, c, m, head, known, base, committed);
  }

  /** Trees and commits are not collected, so what they reach is the same. */
  lemma {:induction false} StillReached(s: Store, kept: set<Id>, h: nat)
    ensures Reach(Collected(s, kept), h) == Reach(s, h)
  {
    if h in s.commits && s.commits[h].parents != [] && s.commits[h].parents[0] < h {
      StillReached(s, kept, s.commits[h].parents[0]);
    }
  }

  lemma HeadLive(s: Store, c: Codec, m: Manifest, head: nat, known: set<Id>, base: Bytes, committed: Bytes)
    requires Sound(s, c, m, Some(head), known, base, committed)
    ensures LiveCommit(s, c, head, m)
  {
  }

  lemma CollectedHas(s: Store, kept: set<Id>)
    ensures forall id :: id in kept && id in s.objects ==> id in Collected(s, kept).objects
  {
  }

  lemma CollectedLive(s: Store, c: Codec, head: nat, m: Manifest, kept: set<Id>)
    requires LiveCommit(s, c, head, m) && TreeIds(s, head) <= kept && StoreOk(s, c)
    ensures LiveCommit(Collected(s, kept), c, head, m) && StoreOk(Collected(s, kept), c)
  {
    hide LiveTree;
    var t := Collected(s, kept);
    forall e | e in s.trees[s.commits[head].tree] ensures e.id in t.objects { assert e.id in TreeIds(s, head); }
  }

  lemma CollectedStands(s: Store, c: Codec, m: Manifest, kept: set<Id>, base: Bytes, committed: Bytes)
    requires Represents(c, m, s.objects, base, committed) && m.chunks.Values <= kept
    ensures Represents(c, m, Collected(s, kept).objects, base, committed)
  {
    hide Chunk, ChunkStart, SameChunk;
    var t := Collected(s, kept);
    forall i | i in m.chunks ensures ChunkStored(c, m, t.objects, committed, i) {
      assert ChunkStored(c, m, s.objects, committed, i);
      assert m.chunks[i] in m.chunks.Values;
    }
  }
}
