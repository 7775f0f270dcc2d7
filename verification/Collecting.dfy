/**
 Garbage-collection safety: exactly when each command keeps the invariant, over every run and every crash
 point.
 */
module Collecting {
  import opened Basics
  import opened Backends
  import opened Archives
  import opened ChunkIndexing
  import opened Reindexing
  import opened Repository

  ghost predicate NoChunks(snap: Snapshot) { forall c :: !ChunkOf(snap, c) }

  /* ---- Store and clone ---- */

  lemma {:induction false} ChunkOfWithArchives(s: string, archives: map<string, Archive>, added: seq<Archive>, c: Chunk)
    requires ChunkOf(Snapshot(s, WithArchives(archives, added)), c)
    ensures ChunkOf(Snapshot(s, archives), c) || exists a :: a in added && c in a.chunks
  {
    if added != [] {
      var front, last := added[..|added| - 1], added[|added| - 1];
      var path :| path in WithArchives(archives, added) && c in WithArchives(archives, added)[path].chunks;
      if path == last.path {
        assert last in added;
      } else {
        assert path in WithArchives(archives, front);
        ChunkOfWithArchives(s, archives, front, c);
        assert forall a :: a in front ==> a in added;
      }
    }
  }

  /** All parts of the new snapshot's chunks are stored: those it inherits were, those it adds are now. */
  lemma NewSnapshotStored(d: Disk, cmd: Command, c: Chunk)
    requires Intact(d) && cmd.Store? && Enabled(d, cmd) && cmd.w.done > 0
    requires ChunkOf(NewSnapshot(d, cmd.base, cmd.id, cmd.added), c)
    ensures Stored(d.parts + cmd.stored, c)
  {
    var inherited := if cmd.base.Some? then d.snapshots[cmd.base.value].archives else map[];
    ChunkOfWithArchives(cmd.id, inherited, cmd.added, c);
    if ChunkOf(Snapshot(cmd.id, inherited), c) {
      var path :| path in inherited && c in inherited[path].chunks;
      assert Saved(d, cmd.base.value);
      assert ChunkOf(d.snapshots[cmd.base.value], c);
    }
  }

  lemma MoreParts(parts: set<PartKey>, more: set<PartKey>, c: Chunk)
    requires Stored(parts, c)
    ensures Stored(parts + more, c)
  {
  }

  lemma OldListing(d: Disk, cmd: Command, i: nat, x: string)
    requires cmd.Store? && Enabled(d, cmd) && ListedAt(Next(d, cmd).media, i, x) && x != cmd.id
    ensures exists k: nat :: ListedAt(d.media, k, x)
  {
    ListingsWithListed(d.media[cmd.from].volumes.value, cmd.pos, cmd.id, x);
    assert ListedAt(d.media, i, x) || ListedAt(d.media, cmd.from, x);
  }

  /** Where the new snapshot is listed, every write before the repository's has been done. */
  lemma NewListing(d: Disk, cmd: Command, i: nat)
    requires cmd.Store? && Enabled(d, cmd) && ListedAt(Next(d, cmd).media, i, cmd.id)
    ensures !Unlisted(d, cmd.w)
  {
    assert !ListedAt(d.media, i, cmd.id);
  }

  /** The repository file that lists the new snapshot has been written nowhere. */
  predicate Unlisted(d: Disk, w: Writes) { w.done <= 2 * |d.media| }

  lemma StoreKeepsUnique(d: Disk, cmd: Command, i: nat)
    requires Intact(d) && cmd.Store? && Enabled(d, cmd) && HasVolumes(Next(d, cmd).media, i)
    ensures Unique(Next(d, cmd).media[i].volumes.value)
  {
    var volumes := d.media[cmd.from].volumes.value;
    assert !ListedAt(d.media, cmd.from, cmd.id);
    forall x ensures Listings(WithListed(volumes, cmd.pos, cmd.id), x) <= 1 {
      ListingsWithListed(volumes, cmd.pos, cmd.id, x);
    }
  }

  lemma StoreKeepsSaved(d: Disk, cmd: Command, i: nat, x: string)
    requires Intact(d) && cmd.Store? && Enabled(d, cmd) && ListedAt(Next(d, cmd).media, i, x)
    ensures Saved(Next(d, cmd), x)
  {
    var d' := Next(d, cmd);
    if x == cmd.id {
      NewListing(d, cmd, i);
      forall c | ChunkOf(d'.snapshots[x], c) ensures Stored(d'.parts, c) { NewSnapshotStored(d, cmd, c); }
    } else {
      OldListing(d, cmd, i, x);
      assert Saved(d, x);
      forall c | ChunkOf(d'.snapshots[x], c) ensures Stored(d'.parts, c) { MoreParts(d.parts, cmd.stored, c); }
    }
  }

  /** Store and clone never list what is not saved, wherever their writes stop. */
  lemma StoreStaysIntact(d: Disk, cmd: Command)
    requires Intact(d) && cmd.Store? && Enabled(d, cmd)
    ensures Intact(Next(d, cmd))
  {
    forall i: nat | HasVolumes(Next(d, cmd).media, i) ensures Unique(Next(d, cmd).media[i].volumes.value) {
      StoreKeepsUnique(d, cmd, i);
    }
    forall i: nat, x | ListedAt(Next(d, cmd).media, i, x) ensures Saved(Next(d, cmd), x) {
      StoreKeepsSaved(d, cmd, i, x);
    }
  }

  /** Every chunk of the new snapshot is among those that the command has added itself. */
  ghost predicate AddsAll(d: Disk, cmd: Command)
    requires cmd.Store? && (cmd.base.Some? ==> cmd.base.value in d.snapshots)
  {
    forall c | ChunkOf(NewSnapshot(d, cmd.base, cmd.id, cmd.added), c) :: AmongAdded(cmd.added, c.hash)
  }

  /** The index after a store references what it did before, and the new snapshot's own chunks. */
  lemma NewIndexReferences(d: Disk, cmd: Command, x: string)
    requires Invariant(d) && cmd.Store? && Enabled(d, cmd) && exists i: nat :: ListedAt(d.media, i, x)
    ensures x in d.snapshots
      && Referenced(WithUses(d.media[cmd.index].index.value, UsesOfAll(cmd.added, cmd.id)), d.snapshots[x])
  {
    var ix := d.media[cmd.index].index.value;
    var i: nat :| ListedAt(d.media, i, x);
    assert Saved(d, x) && ReferencedAt(d, cmd.index, x);
    forall c | ChunkOf(d.snapshots[x], c) ensures Refs(WithUses(ix, UsesOfAll(cmd.added, cmd.id)), c.hash, x) > 0 {
      RefsOfWithUses(ix, UsesOfAll(cmd.added, cmd.id), c.hash, x);
    }
  }

  lemma NewSnapshotReferenced(d: Disk, cmd: Command)
    requires Invariant(d) && cmd.Store? && Enabled(d, cmd)
    ensures var ix := WithUses(d.media[cmd.index].index.value, UsesOfAll(cmd.added, cmd.id));
            Referenced(ix, NewSnapshot(d, cmd.base, cmd.id, cmd.added)) <==> AddsAll(d, cmd)
  {
    var ix := d.media[cmd.index].index.value;
    forall c | ChunkOf(NewSnapshot(d, cmd.base, cmd.id, cmd.added), c)
      ensures Refs(WithUses(ix, UsesOfAll(cmd.added, cmd.id)), c.hash, cmd.id) > 0 <==> AmongAdded(cmd.added, c.hash)
    {
      RefsOfWithUses(ix, UsesOfAll(cmd.added, cmd.id), c.hash, cmd.id);
      TimesOfAdded(cmd.added, cmd.id, c.hash, cmd.id);
      assert Refs(ix, c.hash, cmd.id) == 0;
    }
  }

  /** What was listed before stays referenced, by old and by new copies of the index. */
  lemma StoreKeepsReferences(d: Disk, cmd: Command, i: nat, j: nat, x: string)
    requires Invariant(d) && cmd.Store? && Enabled(d, cmd)
    requires ListedAt(Next(d, cmd).media, i, x) && HasIndex(Next(d, cmd).media, j) && x != cmd.id
    ensures ReferencedAt(Next(d, cmd), j, x)
  {
    OldListing(d, cmd, i, x);
    NewIndexReferences(d, cmd, x);
    var k: nat :| ListedAt(d.media, k, x);
    if HasIndex(d.media, j) { assert ReferencedAt(d, j, x); }
  }

  lemma StoreKeepsKeys(d: Disk, cmd: Command, j: nat)
    requires Invariant(d) && cmd.Store? && Enabled(d, cmd) && HasIndex(Next(d, cmd).media, j)
    ensures KeysMatch(Next(d, cmd).media[j].index.value)
  {
    StillKeysMatch(d.media[cmd.index].index.value, UsesOfAll(cmd.added, cmd.id));
  }

  /** Once the new snapshot is listed, every copy of the index is the new one. */
  lemma OnceListed(d: Disk, cmd: Command, j: nat)
    requires Invariant(d) && cmd.Store? && Enabled(d, cmd) && !Unlisted(d, cmd.w) && j < |d.media|
    ensures ListedAt(Next(d, cmd).media, 0, cmd.id) && HasIndex(Next(d, cmd).media, j)
    ensures ReferencedAt(Next(d, cmd), j, cmd.id) <==> AddsAll(d, cmd)
  {
    ListingsWithListed(d.media[cmd.from].volumes.value, cmd.pos, cmd.id, cmd.id);
    NewSnapshotReferenced(d, cmd);
  }

  /**
   Crash safety of store, and what is wrong with clone: after any number of their writes the invariant holds if
   and only if the snapshot is not listed yet or the command has itself added all of the snapshot's chunks.
   */
  lemma StoreExact(d: Disk, cmd: Command)
    requires Invariant(d) && cmd.Store? && Enabled(d, cmd)
    ensures Intact(Next(d, cmd))
    ensures Invariant(Next(d, cmd)) <==> Unlisted(d, cmd.w) || AddsAll(d, cmd)
  {
    var d' := Next(d, cmd);
    StoreStaysIntact(d, cmd);
    forall j: nat | HasIndex(d'.media, j) ensures KeysMatch(d'.media[j].index.value) { StoreKeepsKeys(d, cmd, j); }
    if Unlisted(d, cmd.w) || AddsAll(d, cmd) {
      forall i: nat, j: nat, x | ListedAt(d'.media, i, x) && HasIndex(d'.media, j) ensures ReferencedAt(d', j, x) {
        if x != cmd.id {
          StoreKeepsReferences(d, cmd, i, j, x);
        } else {
          NewListing(d, cmd, i);
          OnceListed(d, cmd, j);
        }
      }
    } else {
      OnceListed(d, cmd, 0);
    }
  }

  /** A store that is no clone always has added all of its chunks. */
  lemma StoreAddsAll(d: Disk, cmd: Command)
    requires cmd.Store? && cmd.base.None?
    ensures AddsAll(d, cmd)
  {
    forall c | ChunkOf(NewSnapshot(d, None, cmd.id, cmd.added), c) ensures AmongAdded(cmd.added, c.hash) {
      ChunkOfWithArchives(cmd.id, map[], cmd.added, c);
    }
  }

  /* ---- Removing ---- */

  predicate Removes(cmd: Command) { cmd.RemoveSnapshot? || cmd.RemoveVolume? }

  /** The ids that a removal takes out of its volume. */
  function Removed(d: Disk, cmd: Command): seq<string>
    requires Removes(cmd) && HasVolumes(d.media, cmd.from) && cmd.pos < |d.media[cmd.from].volumes.value|
  {
    if cmd.RemoveSnapshot? then [cmd.id] else d.media[cmd.from].volumes.value[cmd.pos].snapshots
  }

  function NewVolumes(d: Disk, cmd: Command): seq<Volume>
    requires Removes(cmd) && HasVolumes(d.media, cmd.from) && cmd.pos < |d.media[cmd.from].volumes.value|
  {
    var volumes := d.media[cmd.from].volumes.value;
    if cmd.RemoveSnapshot? then WithoutListed(volumes, cmd.pos, cmd.id) else WithoutVolume(volumes, cmd.pos)
  }

  function NewIndex(d: Disk, cmd: Command): Index
    requires Removes(cmd) && HasVolumes(d.media, cmd.from) && cmd.pos < |d.media[cmd.from].volumes.value|
      && HasIndex(d.media, cmd.index)
  {
    var ix := d.media[cmd.index].index.value;
    if cmd.RemoveSnapshot? then Without(ix, cmd.id) else WithoutAll(ix, Removed(d, cmd))
  }

  /** After a removal the removed ids, and no others, are unlisted and unreferenced. */
  lemma RemovalEffect(d: Disk, cmd: Command, x: string)
    requires Intact(d) && Removes(cmd) && Enabled(d, cmd)
    ensures Listings(NewVolumes(d, cmd), x)
      == if x in Removed(d, cmd) then 0 else Listings(d.media[cmd.from].volumes.value, x)
    ensures forall h ::
      Refs(NewIndex(d, cmd), h, x) == if x in Removed(d, cmd) then 0 else Refs(d.media[cmd.index].index.value, h, x)
  {
    var volumes, ix := d.media[cmd.from].volumes.value, d.media[cmd.index].index.value;
    if cmd.RemoveSnapshot? {
      ListingsWithoutListed(volumes, cmd.pos, cmd.id, x);
      forall h
        ensures Refs(NewIndex(d, cmd), h, x) == if x == cmd.id then 0 else Refs(ix, h, x)
      {
        RefsOfWithout(ix, cmd.id, h, x);
      }
    } else {
      ListingsWithoutVolume(volumes, cmd.pos, x);
      forall h
        ensures Refs(NewIndex(d, cmd), h, x) == if x in Removed(d, cmd) then 0 else Refs(ix, h, x)
      {
        RefsOfWithoutAll(ix, Removed(d, cmd), h, x);
      }
    }
  }

  lemma StillListed(d: Disk, cmd: Command, i: nat, x: string)
    requires Intact(d) && Removes(cmd) && Enabled(d, cmd) && ListedAt(Next(d, cmd).media, i, x)
    ensures exists k: nat :: ListedAt(d.media, k, x) && (x !in Removed(d, cmd) || k == i)
  {
    RemovalEffect(d, cmd, x);
    if HasVolumes(d.media, i) && Next(d, cmd).media[i].volumes == d.media[i].volumes {
      assert ListedAt(d.media, i, x);
    } else {
      assert ListedAt(d.media, cmd.from, x);
    }
  }

  lemma RemovalStaysIntact(d: Disk, cmd: Command)
    requires Intact(d) && Removes(cmd) && Enabled(d, cmd)
    ensures Intact(Next(d, cmd))
  {
    var d' := Next(d, cmd);
    forall x ensures Listings(NewVolumes(d, cmd), x) <= 1 {
      RemovalEffect(d, cmd, x);
      assert Listings(d.media[cmd.from].volumes.value, x) <= 1;
    }
    forall i: nat | HasVolumes(d'.media, i) ensures Unique(d'.media[i].volumes.value) {
      assert d'.media[i].volumes == Some(NewVolumes(d, cmd)) || d'.media[i].volumes == d.media[i].volumes;
    }
    forall i: nat, x | ListedAt(d'.media, i, x) ensures Saved(d', x) {
      StillListed(d, cmd, i, x);
      assert Saved(d, x);
    }
  }

  /** Copy `i` of the repository file is one that the removal has not got to. */
  predicate StillOld(d: Disk, w: Writes, i: nat) { i >= w.done - |d.media| && !(w.torn && i == w.done - |d.media|) }

  /** None of the old copies that are left lists a removed snapshot that has chunks. */
  ghost predicate NoneLeft(d: Disk, cmd: Command)
    requires Removes(cmd) && Enabled(d, cmd)
  {
    forall i: nat, x | ListedAt(d.media, i, x) && StillOld(d, cmd.w, i) && x in Removed(d, cmd) && x in d.snapshots ::
      NoChunks(d.snapshots[x])
  }

  lemma LeftListed(d: Disk, cmd: Command, i: nat, x: string)
    requires Intact(d) && Removes(cmd) && Enabled(d, cmd) && x in Removed(d, cmd)
    ensures ListedAt(Next(d, cmd).media, i, x) <==> ListedAt(d.media, i, x) && StillOld(d, cmd.w, i)
  {
    RemovalEffect(d, cmd, x);
  }

  lemma NewIndexAfterRemoval(d: Disk, cmd: Command, x: string)
    requires Invariant(d) && Removes(cmd) && Enabled(d, cmd) && Saved(d, x) && ReferencedAt(d, cmd.index, x)
    ensures Referenced(NewIndex(d, cmd), d.snapshots[x]) <==> x !in Removed(d, cmd) || NoChunks(d.snapshots[x])
  {
    RemovalEffect(d, cmd, x);
    assert Referenced(d.media[cmd.index].index.value, d.snapshots[x]);
  }

  lemma RemovalKeepsKeys(d: Disk, cmd: Command, j: nat)
    requires Invariant(d) && Removes(cmd) && Enabled(d, cmd) && HasIndex(Next(d, cmd).media, j)
    ensures KeysMatch(Next(d, cmd).media[j].index.value)
  {
    RefsOfWithoutAll(d.media[cmd.index].index.value, Removed(d, cmd), "", "");
  }

  lemma RemovalReferences(d: Disk, cmd: Command, i: nat, j: nat, x: string)
    requires Invariant(d) && Removes(cmd) && Enabled(d, cmd)
    requires ListedAt(Next(d, cmd).media, i, x) && HasIndex(Next(d, cmd).media, j)
    ensures x in d.snapshots
    ensures ReferencedAt(Next(d, cmd), j, x) <==> j >= cmd.w.done || x !in Removed(d, cmd) || NoChunks(d.snapshots[x])
  {
    StillListed(d, cmd, i, x);
    var k: nat :| ListedAt(d.media, k, x);
    assert Saved(d, x) && ReferencedAt(d, cmd.index, x);
    if j < cmd.w.done {
      NewIndexAfterRemoval(d, cmd, x);
      assert Next(d, cmd).media[j].index == Some(NewIndex(d, cmd));
    } else {
      assert ReferencedAt(d, j, x);
    }
  }

  /**
   Removing a snapshot or a volume saves the index before the repository. Wherever its writes stop, the invariant
   holds if and only if no copy of the index has been written or no copy of the repository is left that lists a
   removed snapshot with chunks: between the first write of the index and the last of the repository is a gap.
   */
  lemma RemovalExact(d: Disk, cmd: Command)
    requires Invariant(d) && Removes(cmd) && Enabled(d, cmd)
    ensures Intact(Next(d, cmd))
    ensures Invariant(Next(d, cmd)) <==> cmd.w.done == 0 || NoneLeft(d, cmd)
  {
    var d' := Next(d, cmd);
    RemovalStaysIntact(d, cmd);
    forall j: nat | HasIndex(d'.media, j) ensures KeysMatch(d'.media[j].index.value) { RemovalKeepsKeys(d, cmd, j); }
    forall i: nat, j: nat, x | ListedAt(d'.media, i, x) && HasIndex(d'.media, j)
      ensures x in d.snapshots
      ensures ReferencedAt(d', j, x) <==> j >= cmd.w.done || x !in Removed(d, cmd) || NoChunks(d.snapshots[x])
    {
      RemovalReferences(d, cmd, i, j, x);
    }
    forall i: nat, x | x in Removed(d, cmd)
      ensures ListedAt(d'.media, i, x) <==> ListedAt(d.media, i, x) && StillOld(d, cmd.w, i)
    {
      LeftListed(d, cmd, i, x);
    }
    if cmd.w.done > 0 { assert HasIndex(d'.media, 0); }
  }

  lemma CompleteLeavesNone(d: Disk, cmd: Command)
    requires Removes(cmd) && Enabled(d, cmd) && cmd.w.done >= 2 * |d.media|
    ensures NoneLeft(d, cmd)
  {
  }

  /** A removal whose writes are all done leaves no gap. */
  lemma CompleteRemoval(d: Disk, cmd: Command)
    requires Invariant(d) && Removes(cmd) && Enabled(d, cmd) && cmd.w.done >= 2 * |d.media|
    ensures Invariant(Next(d, cmd))
  {
    RemovalExact(d, cmd);
    CompleteLeavesNone(d, cmd);
  }

  /* ---- Packing ---- */

  lemma UsedPartsStay(d: Disk, cmd: Command, id: string, c: Chunk)
    requires cmd.Pack? && Enabled(d, cmd) && id in d.snapshots && ChunkOf(d.snapshots[id], c) && Stored(d.parts, c)
    requires Referenced(d.media[cmd.index].index.value, d.snapshots[id])
    ensures Stored(d.parts - cmd.gone, c)
  {
    forall p: nat | p < c.dataParts + c.parityParts ensures PartKey(c.hash, p, c.dataParts) in d.parts - cmd.gone {
      assert Refs(d.media[cmd.index].index.value, c.hash, d.snapshots[id].id) > 0;
      assert PartKey(c.hash, p, c.dataParts) !in cmd.gone;
    }
  }

  /** A pack keeps the invariant, whether it is stopped by a failed deletion or while it saves the index. */
  lemma PackKeeps(d: Disk, cmd: Command)
    requires Invariant(d) && cmd.Pack? && Enabled(d, cmd)
    ensures Invariant(Next(d, cmd))
  {
    var d' := Next(d, cmd);
    var ix := d.media[cmd.index].index.value;
    forall i: nat, x | ListedAt(d'.media, i, x) ensures Saved(d', x) {
      assert ListedAt(d.media, i, x);
      assert Saved(d, x) && ReferencedAt(d, cmd.index, x);
      forall c | ChunkOf(d'.snapshots[x], c) ensures Stored(d'.parts, c) { UsedPartsStay(d, cmd, x, c); }
    }
    forall i: nat, j: nat, x | ListedAt(d'.media, i, x) && HasIndex(d'.media, j) ensures ReferencedAt(d', j, x) {
      assert ListedAt(d.media, i, x);
      if j < cmd.w.done {
        assert ReferencedAt(d, cmd.index, x);
        forall c | ChunkOf(d.snapshots[x], c)
          ensures Refs(Packed(ix), c.hash, d.snapshots[x].id) > 0
        {
          RefsOfPacked(ix, c.hash, d.snapshots[x].id);
        }
      } else {
        assert ReferencedAt(d, j, x);
      }
    }
  }

  /* ---- Reindexing ---- */

  lemma ListedPositive(volumes: seq<Volume>, v: Volume, id: string)
    requires v in volumes && id in v.snapshots
    ensures Listings(volumes, id) > 0
  {
    SumZero(ListedBy(id), volumes);
    var i :| 0 <= i < |volumes| && volumes[i] == v;
    assert ListedBy(id)(volumes[i]) > 0;
  }

  lemma OccursPositive(snap: Snapshot, c: Chunk)
    requires ChunkOf(snap, c)
    ensures InSnapshot(snap, c.hash) > 0
  {
    var path :| path in snap.archives && c in snap.archives[path].chunks;
    var chunks := snap.archives[path].chunks;
    TotalTake(InArchive(snap.archives, c.hash), snap.archives.Keys, path);
    SumZero(HashIs(c.hash), chunks);
    var i :| 0 <= i < |chunks| && chunks[i] == c;
    assert HashIs(c.hash)(chunks[i]) > 0;
  }

  lemma OwnIdsListed(d: Disk, i: nat)
    requires Intact(d) && HasVolumes(d.media, i)
    ensures OwnIds(d.media[i].volumes.value, LoadFrom(d.snapshots))
  {
    var volumes, load := d.media[i].volumes.value, LoadFrom(d.snapshots);
    forall v, id | v in volumes && id in v.snapshots && load(id).Some? ensures load(id).value.id == id {
      ListedPositive(volumes, v, id);
      assert ListedAt(d.media, i, id);
      assert Saved(d, id);
    }
  }

  /** The rebuilt index references a saved snapshot's chunks exactly if the copy that was read lists it. */
  lemma RebuiltReferences(d: Disk, cmd: Command, x: string)
    requires Intact(d) && cmd.Reindex? && Enabled(d, cmd) && Saved(d, x)
    ensures Referenced(WithUses(map[], cmd.uses), d.snapshots[x]) <==>
      NoChunks(d.snapshots[x]) || ListedAt(d.media, cmd.from, x)
  {
    var volumes, load := d.media[cmd.from].volumes.value, LoadFrom(d.snapshots);
    OwnIdsListed(d, cmd.from);
    assert Listings(volumes, x) == 0 || Listings(volumes, x) == 1;
    forall c | ChunkOf(d.snapshots[x], c)
      ensures Refs(WithUses(map[], cmd.uses), c.hash, x) > 0 <==> Listings(volumes, x) > 0
    {
      ReindexCanonical(volumes, load, cmd.uses, c.hash, x);
      OccursPositive(d.snapshots[x], c);
    }
  }

  /** Every snapshot with chunks that some copy of the repository lists is listed by the copy that reindex reads. */
  ghost predicate Covers(d: Disk, from: nat) {
    forall i: nat, x | ListedAt(d.media, i, x) && x in d.snapshots && !NoChunks(d.snapshots[x]) ::
      ListedAt(d.media, from, x)
  }

  lemma ReindexReferences(d: Disk, cmd: Command, i: nat, j: nat, x: string)
    requires Intact(d) && cmd.Reindex? && Enabled(d, cmd)
    requires ListedAt(d.media, i, x) && HasIndex(Next(d, cmd).media, j)
    requires j < cmd.w.done
    ensures ReferencedAt(Next(d, cmd), j, x) <==> NoChunks(d.snapshots[x]) || ListedAt(d.media, cmd.from, x)
    ensures KeysMatch(Next(d, cmd).media[j].index.value)
  {
    assert Saved(d, x);
    RebuiltReferences(d, cmd, x);
    StillKeysMatch(map[], cmd.uses);
    assert Next(d, cmd).media[j].index == Some(WithUses(map[], cmd.uses));
  }

  lemma ReindexStaysIntact(d: Disk, cmd: Command)
    requires Intact(d) && cmd.Reindex? && Enabled(d, cmd)
    ensures Intact(Next(d, cmd))
    ensures forall i: nat, x :: ListedAt(Next(d, cmd).media, i, x) <==> ListedAt(d.media, i, x)
  {
    var d' := Next(d, cmd);
    forall i: nat, x | ListedAt(d'.media, i, x) ensures Saved(d', x) {
      assert ListedAt(d.media, i, x);
      assert Saved(d, x);
    }
  }

  /**
   Rebuilding the index keeps the invariant if and only if it writes nothing or reads a copy that covers the others.
   */
  lemma ReindexExact(d: Disk, cmd: Command)
    requires Invariant(d) && cmd.Reindex? && Enabled(d, cmd)
    ensures Invariant(Next(d, cmd)) <==> cmd.w.done == 0 || Covers(d, cmd.from)
  {
    var d' := Next(d, cmd);
    ReindexStaysIntact(d, cmd);
    StillKeysMatch(map[], cmd.uses);
    forall i: nat, j: nat, x | ListedAt(d.media, i, x) && HasIndex(d'.media, j)
      ensures ReferencedAt(d', j, x) <==> j >= cmd.w.done || NoChunks(d.snapshots[x]) || ListedAt(d.media, cmd.from, x)
    {
      if j < cmd.w.done { ReindexReferences(d, cmd, i, j, x); } else { assert ReferencedAt(d, j, x); }
    }
    if cmd.w.done > 0 { assert HasIndex(d'.media, 0); }
  }

  /** Whatever broke the references: as long as nothing is lost, a complete reindex restores the invariant. */
  lemma ReindexRepairs(d: Disk, cmd: Command)
    requires Intact(d) && cmd.Reindex? && Enabled(d, cmd) && cmd.w.done >= |d.media| && Covers(d, cmd.from)
    ensures Invariant(Next(d, cmd))
  {
    var d' := Next(d, cmd);
    ReindexStaysIntact(d, cmd);
    StillKeysMatch(map[], cmd.uses);
    forall i: nat, j: nat, x | ListedAt(d'.media, i, x) && HasIndex(d'.media, j) ensures ReferencedAt(d', j, x) {
      ReindexReferences(d, cmd, i, j, x);
    }
  }

  /* ---- New volumes and backends ---- */

  predicate Adds(cmd: Command) { cmd.AddVolume? || cmd.AddBackend? }

  lemma EmptyVolumeListsNothing(volumes: seq<Volume>, id: string, x: string)
    ensures Listings(volumes + [Volume(id, [])], x) == Listings(volumes, x)
  {
    SumAppend(ListedBy(x), volumes, Volume(id, []));
  }

  lemma AddingListsNothing(d: Disk, cmd: Command, i: nat)
    requires Adds(cmd) && Enabled(d, cmd) && HasVolumes(Next(d, cmd).media, i)
    ensures exists k: nat :: HasVolumes(d.media, k) && forall x ::
      Listings(Next(d, cmd).media[i].volumes.value, x) == Listings(d.media[k].volumes.value, x)
  {
    var d' := Next(d, cmd);
    if cmd.AddVolume? {
      forall x
        ensures Listings(d.media[cmd.from].volumes.value + [Volume(cmd.id, [])], x)
          == Listings(d.media[cmd.from].volumes.value, x)
      {
        EmptyVolumeListsNothing(d.media[cmd.from].volumes.value, cmd.id, x);
      }
    }
    assert HasVolumes(d.media, if i < cmd.w.done then cmd.from else i);
  }

  lemma AddingKeeps(d: Disk, cmd: Command)
    requires Adds(cmd) && Enabled(d, cmd)
    ensures Intact(d) ==> Intact(Next(d, cmd))
    ensures Invariant(d) ==> Invariant(Next(d, cmd))
  {
    var d' := Next(d, cmd);
    forall i: nat, x | ListedAt(d'.media, i, x) ensures exists k: nat :: ListedAt(d.media, k, x) {
      AddingListsNothing(d, cmd, i);
      var k: nat :| HasVolumes(d.media, k) && forall x ::
        Listings(d'.media[i].volumes.value, x) == Listings(d.media[k].volumes.value, x);
      assert ListedAt(d.media, k, x);
    }
    if Intact(d) {
      forall i: nat | HasVolumes(d'.media, i)
        ensures Unique(d'.media[i].volumes.value)
      {
        AddingListsNothing(d, cmd, i);
      }
      forall i: nat, x | ListedAt(d'.media, i, x) ensures Saved(d', x) {
        var k: nat :| ListedAt(d.media, k, x);
        assert Saved(d, x);
      }
    }
    if Invariant(d) {
      forall i: nat, j: nat, x | ListedAt(d'.media, i, x) && HasIndex(d'.media, j) ensures ReferencedAt(d', j, x) {
        var k: nat :| ListedAt(d.media, k, x);
        assert HasIndex(d.media, j) && ReferencedAt(d, j, x);
      }
    }
  }

  /* ---- Whole runs ---- */

  /** What a command must observe, exactly: a condition on what it reads and on where its writes stop. */
  ghost predicate Orderly(d: Disk, cmd: Command)
    requires Enabled(d, cmd)
  {
    match cmd
    case AddBackend(_, _) => true
    case AddVolume(_, _, _) => true
    case Store(_, _, _, _, _, _, _, w) => Unlisted(d, w) || AddsAll(d, cmd)
    case RemoveSnapshot(_, _, _, _, w) => w.done == 0 || NoneLeft(d, cmd)
    case RemoveVolume(_, _, _, w) => w.done == 0 || NoneLeft(d, cmd)
    case Pack(_, _, _) => true
    case Reindex(from, _, w) => w.done == 0 || Covers(d, from)
  }

  /** Every command, wherever it stops, keeps the invariant if and only if it is orderly. */
  lemma StepExact(d: Disk, cmd: Command)
    requires Invariant(d) && Enabled(d, cmd)
    ensures Invariant(Next(d, cmd)) <==> Orderly(d, cmd)
  {
    if cmd.Store? {
      StoreExact(d, cmd);
    } else if Removes(cmd) {
      RemovalExact(d, cmd);
    } else if cmd.Pack? {
      PackKeeps(d, cmd);
    } else if cmd.Reindex? {
      ReindexExact(d, cmd);
    } else {
      AddingKeeps(d, cmd);
    }
  }

  /** The state after a run; None if some command could not run. */
  ghost function Execute(d: Disk, run: seq<Command>): Option<Disk>
    decreases |run|
  {
    if run == [] then Some(d)
    else
      var before := Execute(d, run[..|run| - 1]);
      var cmd := run[|run| - 1];
      if before.Some? && Enabled(before.value, cmd) then Some(Next(before.value, cmd)) else None
  }

  /** How many backends the command adds. */
  function Attached(cmd: Command): nat { if cmd.AddBackend? && cmd.w.done > 0 then 1 else 0 }

  /** How many backends there are after a run. */
  function BackendsAfter(n: nat, run: seq<Command>): nat {
    if run == [] then n
    else BackendsAfter(n, run[..|run| - 1]) + Attached(run[|run| - 1])
  }

  /* ---- Runs of completed commands ---- */

  /**
   The command has come to its end on `n` backends, or has changed no copy of the repository. A clone counts only if
   it has added all of its archives itself. Pack and Reindex may stop anywhere.
   */
  predicate Completed(n: nat, cmd: Command) {
    match cmd
    case AddBackend(_, w) => w.done == 0 || w.done >= n + 1
    case AddVolume(_, _, w) => w.done == 0 || w.done >= n
    case Store(_, _, _, base, _, _, _, w) => base.None? && (w.done <= 2 * n || w.done >= 3 * n)
    case RemoveSnapshot(_, _, _, _, w) => w.done == 0 || w.done >= 2 * n
    case RemoveVolume(_, _, _, w) => w.done == 0 || w.done >= 2 * n
    case Pack(_, _, _) => true
    case Reindex(_, _, _) => true
  }

  predicate CompletedRun(n: nat, run: seq<Command>) {
    run != [] ==>
      CompletedRun(n, run[..|run| - 1]) && Completed(BackendsAfter(n, run[..|run| - 1]), run[|run| - 1])
  }

  /** All copies of the repository that can be read are the same. */
  predicate Agree(d: Disk) {
    forall i: nat, k: nat | i < |d.media| && k < |d.media| && HasVolumes(d.media, i) && HasVolumes(d.media, k) ::
      d.media[i].volumes == d.media[k].volumes
  }

  lemma AgreeCovers(d: Disk, from: nat)
    requires Agree(d) && HasVolumes(d.media, from)
    ensures Covers(d, from)
  {
    forall i: nat, x | ListedAt(d.media, i, x) ensures ListedAt(d.media, from, x) {
      assert d.media[i].volumes == d.media[from].volumes;
    }
  }

  /** A completed command leaves copies that agree, and the number of backends that its name says. */
  lemma CompletedAgrees(d: Disk, cmd: Command)
    requires Agree(d) && Enabled(d, cmd) && Completed(|d.media|, cmd)
    ensures Agree(Next(d, cmd))
    ensures |Next(d, cmd).media| == |d.media| + Attached(cmd)
  {
    var d' := Next(d, cmd);
    forall i: nat, k: nat | i < |d'.media| && k < |d'.media| && HasVolumes(d'.media, i) && HasVolumes(d'.media, k)
      ensures d'.media[i].volumes == d'.media[k].volumes
    {
      if HasVolumes(d.media, i) && HasVolumes(d.media, k) { assert d.media[i].volumes == d.media[k].volumes; }
    }
  }

  lemma CompletedIsOrderly(d: Disk, cmd: Command)
    requires Invariant(d) && Agree(d) && Enabled(d, cmd) && Completed(|d.media|, cmd)
    ensures Orderly(d, cmd)
  {
    if cmd.Store? {
      StoreAddsAll(d, cmd);
    } else if Removes(cmd) {
      if cmd.w.done > 0 { CompleteLeavesNone(d, cmd); }
    } else if cmd.Reindex? {
      AgreeCovers(d, cmd.from);
    }
  }

  /**
   Garbage-collection safety: any run of completed stores, removals of snapshots and volumes, new volumes and new
   backends, and of packs and reindexes that stop anywhere, in any order, reading any copies, keeps the invariant.
   */
  lemma {:induction false} GarbageCollectionSafety(d: Disk, run: seq<Command>)
    requires Invariant(d) && Agree(d) && CompletedRun(|d.media|, run) && Execute(d, run).Some?
    ensures Invariant(Execute(d, run).value) && Agree(Execute(d, run).value)
    ensures |Execute(d, run).value.media| == BackendsAfter(|d.media|, run)
    decreases |run|
  {
    if run != [] {
      var front, cmd := run[..|run| - 1], run[|run| - 1];
      GarbageCollectionSafety(d, front);
      var before := Execute(d, front).value;
      CompletedIsOrderly(before, cmd);
      StepExact(before, cmd);
      CompletedAgrees(before, cmd);
    }
  }

  /** All parts of the chunk are present, and every copy of the index knows that snapshot `id` uses it. */
  ghost predicate Safe(d: Disk, id: string, c: Chunk) {
    Stored(d.parts, c) && forall j: nat | HasIndex(d.media, j) :: Refs(d.media[j].index.value, c.hash, id) > 0
  }

  lemma InvariantIsSafe(d: Disk, i: nat, id: string, c: Chunk)
    requires Invariant(d) && ListedAt(d.media, i, id)
    ensures id in d.snapshots && (ChunkOf(d.snapshots[id], c) ==> Safe(d, id, c))
  {
    assert Saved(d, id);
    forall j: nat | HasIndex(d.media, j) ensures ReferencedAt(d, j, id) { }
  }

  /** A new repository on one backend: no volumes, no index yet. */
  function Initial(): Disk { Disk([Media(Some([]), None)], map[], {}) }

  lemma InitialInvariant()
    ensures Invariant(Initial()) && Agree(Initial())
  {
  }

  /**
   From the start: after every such run from a new repository, each chunk of each snapshot that any copy of the
   repository lists has all of its parts stored, and is referenced by that snapshot in every copy of the index.
   */
  lemma NothingIsMissing(run: seq<Command>, i: nat, id: string, c: Chunk)
    requires CompletedRun(1, run) && Execute(Initial(), run).Some?
    requires ListedAt(Execute(Initial(), run).value.media, i, id)
    ensures var d := Execute(Initial(), run).value;
            id in d.snapshots && (ChunkOf(d.snapshots[id], c) ==> Safe(d, id, c))
  {
    InitialInvariant();
    GarbageCollectionSafety(Initial(), run);
    InvariantIsSafe(Execute(Initial(), run).value, i, id, c);
  }

  /* ---- Runs with crashes in stores ---- */

  /** Stores may stop anywhere as well, if the index is never rebuilt. */
  predicate CrashSafe(n: nat, cmd: Command) {
    match cmd
    case AddBackend(_, _) => true
    case AddVolume(_, _, _) => true
    case Store(_, _, _, base, _, _, _, _) => base.None?
    case RemoveSnapshot(_, _, _, _, w) => w.done == 0 || w.done >= 2 * n
    case RemoveVolume(_, _, _, w) => w.done == 0 || w.done >= 2 * n
    case Pack(_, _, _) => true
    case Reindex(_, _, _) => false
  }

  predicate CrashSafeRun(n: nat, run: seq<Command>) {
    run != [] ==>
      CrashSafeRun(n, run[..|run| - 1]) && CrashSafe(BackendsAfter(n, run[..|run| - 1]), run[|run| - 1])
  }

  lemma NextBackends(d: Disk, cmd: Command)
    requires Enabled(d, cmd)
    ensures |Next(d, cmd).media| == |d.media| + Attached(cmd)
  {
  }

  /**
   Crash safety over whole runs: stores that stop after any of their writes, with packs from any crash point on,
   keep the invariant, although the copies of the repository and of the index then differ.
   */
  lemma {:induction false} CrashSafety(d: Disk, run: seq<Command>)
    requires Invariant(d) && CrashSafeRun(|d.media|, run) && Execute(d, run).Some?
    ensures Invariant(Execute(d, run).value)
    ensures |Execute(d, run).value.media| == BackendsAfter(|d.media|, run)
    decreases |run|
  {
    if run != [] {
      var front, cmd := run[..|run| - 1], run[|run| - 1];
      CrashSafety(d, front);
      var before := Execute(d, front).value;
      if cmd.Store? {
        StoreAddsAll(before, cmd);
      } else if Removes(cmd) && cmd.w.done > 0 {
        CompleteLeavesNone(before, cmd);
      }
      StepExact(before, cmd);
      NextBackends(before, cmd);
    }
  }
}
