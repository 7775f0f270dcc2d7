/**
 Where garbage collection is not safe, and how it could be: the gap of a removal that is cut short, the clone that
 does not register what it inherits, and the two repairs of clone (cmd/knoxite/snapshot.go, cmd/knoxite/clone.go).
 */
module Hazards {
  import opened Basics
  import opened Backends
  import opened Archives
  import opened ChunkIndexing
  import opened Reindexing
  import opened Repository
  import opened Collecting

  /* ---- What goes wrong ---- */

  /** A listed snapshot has a chunk that can no longer be read whole. */
  ghost predicate Lost(d: Disk, id: string, c: Chunk) {
    && (exists i: nat :: ListedAt(d.media, i, id))
    && id in d.snapshots && ChunkOf(d.snapshots[id], c) && !Stored(d.parts, c)
  }

  /** The index knows the chunk by its own part counts, and no snapshot but `id` uses it. */
  predicate OnlyUser(ix: Index, c: Chunk, id: string) {
    && c.hash in ix && PartOfItem(ix[c.hash], FirstPart(c))
    && forall i | 0 <= i < |ix[c.hash].snapshots| :: ix[c.hash].snapshots[i] == id
  }

  function FirstPart(c: Chunk): PartKey { PartKey(c.hash, 0, c.dataParts) }

  lemma {:induction false} FilterOnly(ids: seq<string>, id: string)
    requires forall i | 0 <= i < |ids| :: ids[i] == id
    ensures Filter(ids, id) == []
  {
    if ids != [] {
      FilterOnly(ids[..|ids| - 1], id);
      assert ids[|ids| - 1] == id;
    }
  }

  lemma {:induction false} FilterOthers(ids: seq<string>, id: string, x: string)
    requires (forall i | 0 <= i < |ids| :: ids[i] == id) && x != id
    ensures Filter(ids, x) == ids
  {
    if ids != [] {
      FilterOthers(ids[..|ids| - 1], id, x);
      assert ids[|ids| - 1] == id;
    }
  }

  /** Removing several snapshots, the chunk's only user among them, leaves the chunk's item without users. */
  lemma {:induction false} WithoutOnlyUser(ix: Index, ids: seq<string>, c: Chunk, id: string)
    requires OnlyUser(ix, c, id)
    ensures var r := WithoutAll(ix, ids);
            && c.hash in r && r[c.hash].(snapshots := []) == ix[c.hash].(snapshots := [])
            && r[c.hash].snapshots == if id in ids then [] else ix[c.hash].snapshots
  {
    if ids != [] {
      var front, last := ids[..|ids| - 1], ids[|ids| - 1];
      assert ids == front + [last];
      WithoutOnlyUser(ix, front, c, id);
      if last == id {
        FilterOnly(ix[c.hash].snapshots, id);
      } else {
        FilterOthers(ix[c.hash].snapshots, id, last);
      }
    }
  }

  lemma RemovedMakesGarbage(d: Disk, cmd: Command, id: string, c: Chunk)
    requires Removes(cmd) && Enabled(d, cmd) && id in Removed(d, cmd)
    requires OnlyUser(d.media[cmd.index].index.value, c, id)
    ensures GarbagePart(NewIndex(d, cmd), FirstPart(c))
  {
    var ix := d.media[cmd.index].index.value;
    WithoutOnlyUser(ix, Removed(d, cmd), c, id);
    if cmd.RemoveSnapshot? { FilterOnly(ix[c.hash].snapshots, id); }
  }

  /** A pack that deletes every part of every unused item and saves the index on every backend. */
  function CompletePack(d: Disk): Command
    requires HasIndex(d.media, 0)
  {
    var garbage := set key | key in d.parts && GarbagePart(d.media[0].index.value, key);
    Pack(0, garbage, Writes(|d.media|, false))
  }

  /** A pack of an index that does not know of a use deletes what the use needs. */
  lemma PackLoses(d: Disk, id: string, c: Chunk, i: nat)
    requires HasIndex(d.media, 0) && GarbagePart(d.media[0].index.value, FirstPart(c))
    requires c.dataParts + c.parityParts > 0
    requires ListedAt(d.media, i, id) && id in d.snapshots && ChunkOf(d.snapshots[id], c)
    ensures Enabled(d, CompletePack(d)) && Lost(Next(d, CompletePack(d)), id, c)
  {
    var d' := Next(d, CompletePack(d));
    assert ListedAt(d'.media, i, id);
    assert FirstPart(c) !in d'.parts;
  }

  /**
   The gap is real: when the removal of a snapshot or a volume stops between its first write of the index and its
   last of the repository, a complete pack loses a part of each chunk that only a removed snapshot uses, while some
   copy of the repository still lists that snapshot.
   */
  lemma RemovalGapLoses(d: Disk, cmd: Command, i: nat, id: string, c: Chunk)
    requires Invariant(d) && Removes(cmd) && Enabled(d, cmd) && cmd.w.done > 0 && id in Removed(d, cmd)
    requires ListedAt(d.media, i, id) && StillOld(d, cmd.w, i)
    requires id in d.snapshots && ChunkOf(d.snapshots[id], c) && c.dataParts + c.parityParts > 0
    requires OnlyUser(d.media[cmd.index].index.value, c, id)
    ensures HasIndex(Next(d, cmd).media, 0)
    ensures var d1 := Next(d, cmd); Enabled(d1, CompletePack(d1)) && Lost(Next(d1, CompletePack(d1)), id, c)
  {
    var d1 := Next(d, cmd);
    LeftListed(d, cmd, i, id);
    RemovedMakesGarbage(d, cmd, id, c);
    assert d1.media[0].index == Some(NewIndex(d, cmd));
    PackLoses(d1, id, c, i);
  }

  /** All writes done. */
  function All(d: Disk): Writes { Writes(3 * |d.media|, false) }

  /** A clone of snapshot `s` into its own volume, with the files that it adds. */
  function CloneOf(d: Disk, pos: nat, s: string, id: string, added: seq<Archive>, stored: set<PartKey>): Command {
    Store(0, 0, pos, Some(s), id, added, stored, All(d))
  }

  /** The files that are added have no chunk with this hash, and none of them replaces the file at `path`. */
  predicate LeaveAlone(added: seq<Archive>, path: string, h: string) {
    forall a | a in added :: a.path != path && forall c | c in a.chunks :: c.hash != h
  }

  lemma {:induction false} WithArchivesKeeps(
      archives: map<string, Archive>, added: seq<Archive>, path: string, h: string)
    requires path in archives && LeaveAlone(added, path, h)
    ensures path in WithArchives(archives, added) && WithArchives(archives, added)[path] == archives[path]
  {
    if added != [] {
      var front, last := added[..|added| - 1], added[|added| - 1];
      assert added == front + [last];
      assert last in added && forall a :: a in front ==> a in added;
      WithArchivesKeeps(archives, front, path, h);
    }
  }

  lemma {:induction false} WithUsesKeeps(ix: Index, chunks: seq<Chunk>, id: string, i: nat, h: string)
    requires i <= |chunks| && h in ix && forall c | c in chunks :: c.hash != h
    ensures h in WithUses(ix, UsesOf(chunks, id)[..i]) && WithUses(ix, UsesOf(chunks, id)[..i])[h] == ix[h]
  {
    if i > 0 {
      WithUsesKeeps(ix, chunks, id, i - 1, h);
      assert UsesOf(chunks, id)[..i][..i - 1] == UsesOf(chunks, id)[..i - 1];
      assert chunks[i - 1] in chunks;
    }
  }

  lemma {:induction false} WithAddedKeeps(ix: Index, added: seq<Archive>, id: string, path: string, h: string)
    requires h in ix && LeaveAlone(added, path, h)
    ensures h in WithUses(ix, UsesOfAll(added, id)) && WithUses(ix, UsesOfAll(added, id))[h] == ix[h]
  {
    if added != [] {
      var front, last := added[..|added| - 1], added[|added| - 1];
      assert added == front + [last];
      assert last in added && forall a :: a in front ==> a in added;
      WithAddedKeeps(ix, front, id, path, h);
      WithUsesAppend(ix, UsesOfAll(front, id), UsesOf(last.chunks, id));
      WithUsesKeeps(WithUses(ix, UsesOfAll(front, id)), last.chunks, id, |last.chunks|, h);
      assert UsesOf(last.chunks, id)[..|last.chunks|] == UsesOf(last.chunks, id);
    }
  }

  /** What a clone-remove-pack trace starts from: any state, and a chunk that only the original snapshot uses. */
  ghost predicate Cloneable(
      d: Disk, pos: nat, s: string, id: string, added: seq<Archive>, stored: set<PartKey>, path: string, c: Chunk)
  {
    && Invariant(d) && HasVolumes(d.media, 0) && pos < |d.media[0].volumes.value|
    && s in d.media[0].volumes.value[pos].snapshots
    && Enabled(d, CloneOf(d, pos, s, id, added, stored))
    && path in d.snapshots[s].archives && c in d.snapshots[s].archives[path].chunks
    && c.dataParts + c.parityParts > 0
    && LeaveAlone(added, path, c.hash)
    && OnlyUser(d.media[0].index.value, c, s)
  }

  lemma CloneEffect(
      d: Disk, pos: nat, s: string, id: string, added: seq<Archive>, stored: set<PartKey>, path: string, c: Chunk)
    requires Cloneable(d, pos, s, id, added, stored, path, c)
    ensures var d1 := Next(d, CloneOf(d, pos, s, id, added, stored));
            && d1.media[0].volumes == Some(WithListed(d.media[0].volumes.value, pos, id))
            && HasIndex(d1.media, 0) && OnlyUser(d1.media[0].index.value, c, s)
            && id in d1.snapshots && ChunkOf(d1.snapshots[id], c)
  {
    WithAddedKeeps(d.media[0].index.value, added, id, path, c.hash);
    WithArchivesKeeps(d.snapshots[s].archives, added, path, c.hash);
    var archives := NewSnapshot(d, Some(s), id, added).archives;
    assert path in archives && c in archives[path].chunks;
  }

  /** After the clone and the removal the clone is listed, and the index has forgotten its chunk. */
  lemma CloneThenRemove(
      d: Disk, pos: nat, s: string, id: string, added: seq<Archive>, stored: set<PartKey>, path: string, c: Chunk)
    requires Cloneable(d, pos, s, id, added, stored, path, c)
    ensures var d1 := Next(d, CloneOf(d, pos, s, id, added, stored));
            var remove := RemoveSnapshot(0, 0, pos, s, All(d));
            && Enabled(d1, remove)
            && var d2 := Next(d1, remove);
               && ListedAt(d2.media, 0, id) && HasIndex(d2.media, 0)
               && GarbagePart(d2.media[0].index.value, FirstPart(c))
               && d2.snapshots == d1.snapshots
  {
    var clone, remove := CloneOf(d, pos, s, id, added, stored), RemoveSnapshot(0, 0, pos, s, All(d));
    var d1 := Next(d, clone);
    CloneEffect(d, pos, s, id, added, stored, path, c);
    StoreStaysIntact(d, clone);
    ListingsWithListed(d.media[0].volumes.value, pos, id, id);
    assert Enabled(d1, remove);
    RemovalEffect(d1, remove, id);
    RemovedMakesGarbage(d1, remove, s, c);
  }

  /**
   The code's own clone loses data: from any state that satisfies the invariant, cloning a snapshot with whatever
   files are added to it, removing the original and packing, all complete, deletes a part that the clone needs, for
   each inherited chunk that no other snapshot uses and that the clone has not added itself.
   */
  lemma CloneLoses(
      d: Disk, pos: nat, s: string, id: string, added: seq<Archive>, stored: set<PartKey>, path: string, c: Chunk)
    requires Cloneable(d, pos, s, id, added, stored, path, c)
    ensures var d1 := Next(d, CloneOf(d, pos, s, id, added, stored));
            var remove := RemoveSnapshot(0, 0, pos, s, All(d));
            && Enabled(d1, remove)
            && var d2 := Next(d1, remove);
               && HasIndex(d2.media, 0) && Enabled(d2, CompletePack(d2))
               && Lost(Next(d2, CompletePack(d2)), id, c)
  {
    CloneThenRemove(d, pos, s, id, added, stored, path, c);
    CloneEffect(d, pos, s, id, added, stored, path, c);
    PackLoses(Next(Next(d, CloneOf(d, pos, s, id, added, stored)), RemoveSnapshot(0, 0, pos, s, All(d))), id, c, 0);
  }

  /* ---- How clone could be right ---- */

  lemma {:induction false} WithArchivesAppend(archives: map<string, Archive>, a: seq<Archive>, b: seq<Archive>)
    ensures WithArchives(archives, a + b) == WithArchives(WithArchives(archives, a), b)
  {
    if b == [] {
      assert a + b == a;
    } else {
      assert (a + b)[..|a + b| - 1] == a + b[..|b| - 1];
      WithArchivesAppend(archives, a, b[..|b| - 1]);
    }
  }

  /** The archives of a snapshot in some order. */
  ghost predicate Lists(inherited: seq<Archive>, archives: map<string, Archive>) {
    && WithArchives(map[], inherited) == archives
    && forall a | a in inherited :: a.path in archives && archives[a.path] == a
  }

  /**
   A clone that also adds the inherited archives to the index under the new id saves the same snapshot, and
   keeps the invariant wherever it stops.
   */
  lemma RegisteringCloneKeeps(d: Disk, clone: Command, inherited: seq<Archive>)
    requires Invariant(d) && clone.Store? && clone.base.Some? && Enabled(d, clone)
    requires Lists(inherited, d.snapshots[clone.base.value].archives)
    ensures var registering := clone.(base := None, added := inherited + clone.added);
            && Enabled(d, registering)
            && NewSnapshot(d, None, clone.id, inherited + clone.added)
              == NewSnapshot(d, clone.base, clone.id, clone.added)
            && Invariant(Next(d, registering))
  {
    var registering := clone.(base := None, added := inherited + clone.added);
    WithArchivesAppend(map[], inherited, clone.added);
    assert Saved(d, clone.base.value);
    forall a, c | a in registering.added && c in a.chunks
      ensures clone.w.done > 0 ==> Stored(d.parts + clone.stored, c)
    {
      if a in inherited {
        assert ChunkOf(d.snapshots[clone.base.value], c);
        MoreParts(d.parts, clone.stored, c);
      }
    }
    StoreAddsAll(d, registering);
    StoreExact(d, registering);
  }

  /** A complete clone followed by a complete reindex, from any copy, restores the invariant. */
  lemma CloneThenReindexKeeps(d: Disk, clone: Command, reindex: Command)
    requires Invariant(d) && clone.Store? && Enabled(d, clone) && clone.w.done >= 3 * |d.media|
    requires reindex.Reindex? && Enabled(Next(d, clone), reindex) && reindex.w.done >= |d.media|
    ensures Invariant(Next(Next(d, clone), reindex))
  {
    StoreStaysIntact(d, clone);
    ReindexRepairs(Next(d, clone), reindex);
  }

  /* ---- How removal could be right ---- */

  /** A removal that saves the repository before the index. */
  function RepositoryFirst(d: Disk, cmd: Command): Disk
    requires Removes(cmd) && HasVolumes(d.media, cmd.from) && cmd.pos < |d.media[cmd.from].volumes.value|
      && HasIndex(d.media, cmd.index)
  {
    var volumesFirst := SaveVolumes(d.media, NewVolumes(d, cmd), cmd.w.done, cmd.w.torn);
    d.(media := SaveIndex(volumesFirst, NewIndex(d, cmd), cmd.w.done - |d.media|, cmd.w.torn))
  }

  /** Its copies of the repository list nothing new, and nothing removed once the index is being written. */
  lemma RepositoryFirstListing(d: Disk, cmd: Command, i: nat, x: string)
    requires Intact(d) && Removes(cmd) && Enabled(d, cmd) && ListedAt(RepositoryFirst(d, cmd).media, i, x)
    ensures exists k: nat :: ListedAt(d.media, k, x)
    ensures cmd.w.done > |d.media| ==> x !in Removed(d, cmd)
  {
    RemovalEffect(d, cmd, x);
    assert ListedAt(d.media, i, x) || ListedAt(d.media, cmd.from, x);
  }

  lemma RepositoryFirstIntact(d: Disk, cmd: Command)
    requires Intact(d) && Removes(cmd) && Enabled(d, cmd)
    ensures Intact(RepositoryFirst(d, cmd))
  {
    var d' := RepositoryFirst(d, cmd);
    forall x ensures Listings(NewVolumes(d, cmd), x) <= 1 {
      RemovalEffect(d, cmd, x);
      assert Listings(d.media[cmd.from].volumes.value, x) <= 1;
    }
    forall i: nat | HasVolumes(d'.media, i) ensures Unique(d'.media[i].volumes.value) {
      assert d'.media[i].volumes == Some(NewVolumes(d, cmd)) || d'.media[i].volumes == d.media[i].volumes;
    }
    forall i: nat, x | ListedAt(d'.media, i, x) ensures Saved(d', x) {
      RepositoryFirstListing(d, cmd, i, x);
      assert Saved(d, x);
    }
  }

  lemma RepositoryFirstReferences(d: Disk, cmd: Command, i: nat, j: nat, x: string)
    requires Invariant(d) && Removes(cmd) && Enabled(d, cmd)
    requires ListedAt(RepositoryFirst(d, cmd).media, i, x) && HasIndex(RepositoryFirst(d, cmd).media, j)
    ensures ReferencedAt(RepositoryFirst(d, cmd), j, x)
  {
    RepositoryFirstListing(d, cmd, i, x);
    var k: nat :| ListedAt(d.media, k, x);
    assert Saved(d, x) && ReferencedAt(d, cmd.index, x);
    if j < cmd.w.done - |d.media| {
      NewIndexAfterRemoval(d, cmd, x);
    } else {
      assert ReferencedAt(d, j, x);
    }
  }

  /** With the writes in that order there is no gap: the invariant holds wherever they stop. */
  lemma RepositoryFirstHasNoGap(d: Disk, cmd: Command)
    requires Invariant(d) && Removes(cmd) && Enabled(d, cmd)
    ensures Invariant(RepositoryFirst(d, cmd))
  {
    var d' := RepositoryFirst(d, cmd);
    RepositoryFirstIntact(d, cmd);
    RefsOfWithoutAll(d.media[cmd.index].index.value, Removed(d, cmd), "", "");
    forall i: nat, j: nat, x | ListedAt(d'.media, i, x) && HasIndex(d'.media, j) ensures ReferencedAt(d', j, x) {
      RepositoryFirstReferences(d, cmd, i, j, x);
    }
  }

  /* ---- From the very start ---- */

  lemma ExecuteNext(d: Disk, run: seq<Command>, cmd: Command)
    requires Execute(d, run).Some? && Enabled(Execute(d, run).value, cmd)
    ensures Execute(d, run + [cmd]) == Some(Next(Execute(d, run).value, cmd))
  {
    assert (run + [cmd])[..|run|] == run;
  }

  lemma ExecuteTwo(start: Disk, run: seq<Command>, d: Disk, a: Command, b: Command)
    requires Execute(start, run) == Some(d) && Enabled(d, a) && Enabled(Next(d, a), b)
    ensures Execute(start, run + [a, b]) == Some(Next(Next(d, a), b))
  {
    ExecuteNext(start, run, a);
    ExecuteNext(start, run + [a], b);
    assert run + [a] + [b] == run + [a, b];
  }

  lemma ExecuteThree(start: Disk, run: seq<Command>, d: Disk, a: Command, b: Command, c: Command)
    requires Execute(start, run) == Some(d)
    requires Enabled(d, a) && Enabled(Next(d, a), b) && Enabled(Next(Next(d, a), b), c)
    ensures Execute(start, run + [a, b, c]) == Some(Next(Next(Next(d, a), b), c))
  {
    ExecuteTwo(start, run, d, a, b);
    ExecuteNext(start, run + [a, b], c);
    assert run + [a, b] + [c] == run + [a, b, c];
  }

  /** The three commands of CloneLoses, at the end of any run. */
  lemma CloneLosesAfter(
      start: Disk, run: seq<Command>, d: Disk, pos: nat, s: string, id: string, added: seq<Archive>,
      stored: set<PartKey>, path: string, c: Chunk) returns (pack: Command)
    requires Execute(start, run) == Some(d) && Cloneable(d, pos, s, id, added, stored, path, c)
    ensures var more := [CloneOf(d, pos, s, id, added, stored), RemoveSnapshot(0, 0, pos, s, All(d)), pack];
            var end := Execute(start, run + more);
            end.Some? && Lost(end.value, id, c)
    ensures var d2 := Next(Next(d, CloneOf(d, pos, s, id, added, stored)), RemoveSnapshot(0, 0, pos, s, All(d)));
            HasIndex(d2.media, 0) && pack == CompletePack(d2)
  {
    CloneLoses(d, pos, s, id, added, stored, path, c);
    var clone, remove := CloneOf(d, pos, s, id, added, stored), RemoveSnapshot(0, 0, pos, s, All(d));
    pack := CompletePack(Next(Next(d, clone), remove));
    ExecuteThree(start, run, d, clone, remove, pack);
  }

  const CHUNK := Chunk(1, 0, 1, 1, "d", "h", 0)
  const FILE := Archive("p", RegularFile, [CHUNK], 1, 1, 0, 0)

  /** One volume and one snapshot of one file with one chunk. */
  function OneStored(): Disk {
    Disk([Media(Some([Volume("v", ["s"])]), Some(map["h" := Item("h", 1, 0, 1, ["s"])]))],
         map["s" := Snapshot("s", map["p" := FILE])],
         {FirstPart(CHUNK)})
  }

  const REINDEX := Reindex(0, [], Writes(1, false))
  const VOLUME := AddVolume(0, "v", Writes(1, false))
  const STORE := Store(0, 0, 0, None, "s", [FILE], {FirstPart(CHUNK)}, Writes(3, false))

  /** After the first index has been written, and after the first volume has been added. */
  function Indexed(): Disk { Disk([Media(Some([]), Some(map[]))], map[], {}) }
  function WithVolume(): Disk { Disk([Media(Some([Volume("v", [])]), Some(map[]))], map[], {}) }

  lemma OneMedia(media: seq<Media>, m: Media)
    requires |media| == 1 && media[0].volumes == m.volumes && media[0].index == m.index
    ensures media == [m]
  {
  }

  lemma FirstIndex()
    ensures Enabled(Initial(), REINDEX) && Next(Initial(), REINDEX) == Indexed()
  {
    OneMedia(Next(Initial(), REINDEX).media, Media(Some([]), Some(map[])));
  }

  lemma FirstVolume()
    ensures Enabled(Indexed(), VOLUME) && Next(Indexed(), VOLUME) == WithVolume()
  {
    assert [] + [Volume("v", [])] == [Volume("v", [])];
    OneMedia(Next(Indexed(), VOLUME).media, Media(Some([Volume("v", [])]), Some(map[])));
  }

  lemma FirstListed()
    ensures WithListed([Volume("v", [])], 0, "s") == [Volume("v", ["s"])]
  {
    assert [] + ["s"] == ["s"];
  }

  lemma FirstUses()
    ensures WithUses(map[], UsesOfAll([FILE], "s")) == map["h" := Item("h", 1, 0, 1, ["s"])]
  {
    var uses := UsesOfAll([FILE], "s");
    assert UsesOf([CHUNK], "s") == [Use(CHUNK, "s")];
    assert [FILE][..0] == [] && FILE.chunks == [CHUNK] && UsesOfAll([], "s") == [];
    assert uses == [] + [Use(CHUNK, "s")];
    assert uses == [Use(CHUNK, "s")];
    assert uses[..0] == [];
    assert WithUses(map[], uses[..0]) == map[];
  }

  lemma FirstArchives()
    ensures WithArchives(map[], [FILE]) == map["p" := FILE]
  {
    assert [FILE][..0] == [];
  }

  lemma FirstStore()
    ensures Enabled(WithVolume(), STORE) && Next(WithVolume(), STORE) == OneStored()
  {
    assert Listings([Volume("v", [])], "s") == 0;
    forall i: nat ensures !ListedAt(WithVolume().media, i, "s") { }
    FirstListed();
    FirstUses();
    FirstArchives();
    OneMedia(Next(WithVolume(), STORE).media, OneStored().media[0]);
    assert {} + {FirstPart(CHUNK)} == {FirstPart(CHUNK)};
  }

  lemma SetUpRuns() returns (run: seq<Command>)
    ensures run == [REINDEX, VOLUME, STORE]
    ensures Execute(Initial(), run) == Some(OneStored()) && Invariant(OneStored())
  {
    InitialInvariant();
    FirstIndex();
    StepExact(Initial(), REINDEX);
    FirstVolume();
    StepExact(Indexed(), VOLUME);
    FirstStore();
    StoreAddsAll(WithVolume(), STORE);
    StepExact(WithVolume(), STORE);
    assert Execute(Initial(), []) == Some(Initial());
    ExecuteThree(Initial(), [], Initial(), REINDEX, VOLUME, STORE);
    run := [] + [REINDEX, VOLUME, STORE];
  }

  const OTHER_CHUNK := Chunk(1, 0, 1, 1, "e", "g", 0)
  const OTHER_FILE := Archive("q", RegularFile, [OTHER_CHUNK], 1, 1, 0, 0)

  lemma OneStoredListings()
    ensures Listings([Volume("v", ["s"])], "t") == 0 && Listings([Volume("v", ["s"])], "s") == 1
  {
    assert ["s"] == [] + ["s"];
    CountNext([], "s", "s");
    CountNext([], "s", "t");
  }

  lemma CloneReady()
    ensures Enabled(OneStored(), CloneOf(OneStored(), 0, "s", "t", [OTHER_FILE], {FirstPart(OTHER_CHUNK)}))
  {
    OneStoredListings();
    forall h ensures Refs(OneStored().media[0].index.value, h, "t") == 0 { }
    forall a, c | a in [OTHER_FILE] && c in a.chunks
      ensures Stored(OneStored().parts + {FirstPart(OTHER_CHUNK)}, c)
    {
      assert a == OTHER_FILE && c == OTHER_CHUNK;
    }
  }

  lemma OneStoredCloneable()
    requires Invariant(OneStored())
    ensures Cloneable(OneStored(), 0, "s", "t", [OTHER_FILE], {FirstPart(OTHER_CHUNK)}, "p", CHUNK)
  {
    CloneReady();
    assert LeaveAlone([OTHER_FILE], "p", "h");
    assert OnlyUser(OneStored().media[0].index.value, CHUNK, "s");
  }

  /**
   A run from a new repository in which only complete commands occur, a clone that adds a file among them, and a
   listed snapshot is lost.
   */
  lemma CloneTrace() returns (run: seq<Command>, pack: Command)
    ensures Execute(Initial(), run).Some? && Lost(Execute(Initial(), run).value, "t", CHUNK)
    ensures run == [REINDEX, VOLUME, STORE]
                   + [CloneOf(OneStored(), 0, "s", "t", [OTHER_FILE], {FirstPart(OTHER_CHUNK)}),
                      RemoveSnapshot(0, 0, 0, "s", All(OneStored())), pack]
    ensures pack.Pack? && pack.w == Writes(1, false) && FirstPart(CHUNK) in pack.gone
  {
    run := SetUpRuns();
    OneStoredCloneable();
    var d := OneStored();
    var clone := CloneOf(d, 0, "s", "t", [OTHER_FILE], {FirstPart(OTHER_CHUNK)});
    var remove := RemoveSnapshot(0, 0, 0, "s", All(d));
    pack := CloneLosesAfter(Initial(), run, d, 0, "s", "t", [OTHER_FILE], {FirstPart(OTHER_CHUNK)}, "p", CHUNK);
    CloneThenRemove(d, 0, "s", "t", [OTHER_FILE], {FirstPart(OTHER_CHUNK)}, "p", CHUNK);
    assert FirstPart(CHUNK) in d.parts;
    run := run + [clone, remove, pack];
  }
}
