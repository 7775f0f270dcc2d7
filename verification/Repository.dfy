/**
 The commands as steps of a state machine over what is stored: the repository file and the chunk index, each
 with a copy on every backend, the snapshots, and the chunk parts (cmd/knoxite, repository.go, volume.go).
 A command reads one copy of each file it needs and writes the copies in order; its writes may stop anywhere.
 */
module Repository {
  import opened Basics
  import opened Backends
  import opened Archives
  import opened ChunkIndexing
  import opened Reindexing

  /** One backend's copies of the repository file and of the index; None if absent or torn by a failed write. */
  datatype Media = Media(volumes: Option<seq<Volume>>, index: Option<Index>)

  datatype Disk = Disk(media: seq<Media>, snapshots: map<string, Snapshot>, parts: set<PartKey>)

  /** How many of a command's metadata writes were done, and whether the next one left a torn file. */
  datatype Writes = Writes(done: nat, torn: bool)

  /**
   `from` and `index` say which copies are read, `pos` which volume is meant. A clone is a Store with the source
   snapshot as its `base`. `stored` are parts that StoreChunk has written, `gone` parts that Pack has deleted,
   `uses` what reindex has found in the order in which it has found it.
   */
  datatype Command =
    | AddBackend(from: nat, w: Writes)
    | AddVolume(from: nat, id: string, w: Writes)
    | Store(
        from: nat, index: nat, pos: nat, base: Option<string>, id: string, added: seq<Archive>, stored: set<PartKey>,
        w: Writes)
    | RemoveSnapshot(from: nat, index: nat, pos: nat, id: string, w: Writes)
    | RemoveVolume(from: nat, index: nat, pos: nat, w: Writes)
    | Pack(index: nat, gone: set<PartKey>, w: Writes)
    | Reindex(from: nat, uses: seq<Use>, w: Writes)

  /* ---- Writing copies ---- */

  /** Copy number `i` of a file when `done` copies have been written. */
  function Written<T>(was: Option<T>, now: T, i: nat, done: int, torn: bool): Option<T> {
    if i < done then Some(now) else if i == done && torn then None else was
  }

  function SaveIndex(media: seq<Media>, ix: Index, done: int, torn: bool): (r: seq<Media>)
    ensures |r| == |media|
  {
    seq(|media|, i requires 0 <= i < |media| => media[i].(index := Written(media[i].index, ix, i, done, torn)))
  }

  function SaveVolumes(media: seq<Media>, volumes: seq<Volume>, done: int, torn: bool): (r: seq<Media>)
    ensures |r| == |media|
  {
    seq(|media|, i requires 0 <= i < |media| => media[i].(volumes := Written(media[i].volumes, volumes, i, done, torn)))
  }

  predicate HasVolumes(media: seq<Media>, i: nat) { i < |media| && media[i].volumes.Some? }

  predicate HasIndex(media: seq<Media>, j: nat) { j < |media| && media[j].index.Some? }

  /* ---- What the commands compute ---- */

  function WithListed(volumes: seq<Volume>, pos: nat, id: string): seq<Volume>
    requires pos < |volumes|
  {
    volumes[pos := volumes[pos].(snapshots := volumes[pos].snapshots + [id])]
  }

  function WithoutListed(volumes: seq<Volume>, pos: nat, id: string): seq<Volume>
    requires pos < |volumes|
  {
    volumes[pos := volumes[pos].(snapshots := Filter(volumes[pos].snapshots, id))]
  }

  function WithoutVolume(volumes: seq<Volume>, pos: nat): seq<Volume>
    requires pos < |volumes|
  {
    volumes[..pos] + volumes[pos + 1..]
  }

  function WithoutAll(ix: Index, ids: seq<string>): Index {
    if ids == [] then ix else Without(WithoutAll(ix, ids[..|ids| - 1]), ids[|ids| - 1])
  }

  /** The archives of a snapshot after more have been added: the last one with a path wins. */
  function WithArchives(archives: map<string, Archive>, added: seq<Archive>): map<string, Archive> {
    if added == [] then archives
    else WithArchives(archives, added[..|added| - 1])[added[|added| - 1].path := added[|added| - 1]]
  }

  function UsesOfAll(added: seq<Archive>, id: string): seq<Use> {
    if added == [] then []
    else UsesOfAll(added[..|added| - 1], id) + UsesOf(added[|added| - 1].chunks, id)
  }

  /** The snapshot that a store or a clone saves. */
  function NewSnapshot(d: Disk, base: Option<string>, id: string, added: seq<Archive>): Snapshot
    requires base.Some? ==> base.value in d.snapshots
  {
    Snapshot(id, WithArchives(if base.Some? then d.snapshots[base.value].archives else map[], added))
  }

  predicate ListedAt(media: seq<Media>, i: nat, id: string) {
    HasVolumes(media, i) && Listings(media[i].volumes.value, id) > 0
  }

  /** A new id: nothing stored mentions it. */
  ghost predicate Fresh(d: Disk, id: string) {
    && id !in d.snapshots
    && (forall i: nat :: !ListedAt(d.media, i, id))
    && (forall j: nat, h | HasIndex(d.media, j) :: Refs(d.media[j].index.value, h, id) == 0)
  }

  ghost predicate Stored(parts: set<PartKey>, c: Chunk) {
    forall p: nat | p < c.dataParts + c.parityParts :: PartKey(c.hash, p, c.dataParts) in parts
  }

  function LoadFrom(snapshots: map<string, Snapshot>): string -> Option<Snapshot> {
    (id: string) => if id in snapshots then Some(snapshots[id]) else None
  }

  /** When a command can run at all. */
  ghost predicate Enabled(d: Disk, cmd: Command) {
    match cmd
    case AddBackend(from, w) => HasVolumes(d.media, from)
    case AddVolume(from, id, w) => HasVolumes(d.media, from)
    case Store(from, index, pos, base, id, added, stored, w) =>
      && HasVolumes(d.media, from) && HasIndex(d.media, index) && pos < |d.media[from].volumes.value|
      && Fresh(d, id)
      && (base.Some? ==> ListedAt(d.media, from, base.value) && base.value in d.snapshots)
      && (w.done > 0 ==> forall a, c | a in added && c in a.chunks :: Stored(d.parts + stored, c))
    case RemoveSnapshot(from, index, pos, id, w) =>
      && HasVolumes(d.media, from) && HasIndex(d.media, index) && pos < |d.media[from].volumes.value|
      && id in d.media[from].volumes.value[pos].snapshots
    case RemoveVolume(from, index, pos, w) =>
      HasVolumes(d.media, from) && HasIndex(d.media, index) && pos < |d.media[from].volumes.value|
    case Pack(index, gone, w) =>
      HasIndex(d.media, index) && forall key | key in gone :: GarbagePart(d.media[index].index.value, key)
    case Reindex(from, uses, w) =>
      && HasVolumes(d.media, from)
      && AllLoad(d.media[from].volumes.value, LoadFrom(d.snapshots))
      && ListingUses(uses, d.media[from].volumes.value, LoadFrom(d.snapshots))
  }

  /**
   What a command leaves behind. Store writes the snapshot first; after that the index, then the repository. A new
   backend belongs to the repository once some copy of the repository file names it.
   */
  ghost function Next(d: Disk, cmd: Command): Disk
    requires Enabled(d, cmd)
  {
    var n := |d.media|;
    match cmd
    case AddBackend(from, w) =>
      var media := if w.done > 0 then d.media + [Media(None, None)] else d.media;
      d.(media := SaveVolumes(media, d.media[from].volumes.value, w.done, w.torn))
    case AddVolume(from, id, w) =>
      d.(media := SaveVolumes(d.media, d.media[from].volumes.value + [Volume(id, [])], w.done, w.torn))
    case Store(from, index, pos, base, id, added, stored, w) =>
      var volumes := WithListed(d.media[from].volumes.value, pos, id);
      var ix := WithUses(d.media[index].index.value, UsesOfAll(added, id));
      Disk(SaveVolumes(SaveIndex(d.media, ix, w.done - n, w.torn), volumes, w.done - 2 * n, w.torn),
           if w.done > 0 then d.snapshots[id := NewSnapshot(d, base, id, added)] else d.snapshots,
           d.parts + stored)
    case RemoveSnapshot(from, index, pos, id, w) =>
      var volumes := WithoutListed(d.media[from].volumes.value, pos, id);
      var ix := Without(d.media[index].index.value, id);
      d.(media := SaveVolumes(SaveIndex(d.media, ix, w.done, w.torn), volumes, w.done - n, w.torn))
    case RemoveVolume(from, index, pos, w) =>
      var volumes := WithoutVolume(d.media[from].volumes.value, pos);
      var ix := WithoutAll(d.media[index].index.value, d.media[from].volumes.value[pos].snapshots);
      d.(media := SaveVolumes(SaveIndex(d.media, ix, w.done, w.torn), volumes, w.done - n, w.torn))
    case Pack(index, gone, w) =>
      d.(media := SaveIndex(d.media, Packed(d.media[index].index.value), w.done, w.torn), parts := d.parts - gone)
    case Reindex(from, uses, w) =>
      d.(media := SaveIndex(d.media, WithUses(map[], uses), w.done, w.torn))
  }

  /* ---- The invariant ---- */

  ghost predicate ChunkOf(snap: Snapshot, c: Chunk)
  {
    exists path :: path in snap.archives && c in snap.archives[path].chunks
  }

  ghost predicate Saved(d: Disk, id: string) {
    && id in d.snapshots && d.snapshots[id].id == id
    && forall c | ChunkOf(d.snapshots[id], c) :: Stored(d.parts, c)
  }

  ghost predicate Unique(volumes: seq<Volume>) { forall id :: Listings(volumes, id) <= 1 }

  /** Every snapshot that any copy of the repository lists is saved, and all parts of its chunks are stored. */
  ghost predicate Intact(d: Disk) {
    && (forall i: nat | HasVolumes(d.media, i) :: Unique(d.media[i].volumes.value))
    && (forall i: nat, id | ListedAt(d.media, i, id) :: Saved(d, id))
  }

  ghost predicate Referenced(ix: Index, snap: Snapshot) {
    forall c | ChunkOf(snap, c) :: Refs(ix, c.hash, snap.id) > 0
  }

  ghost predicate ReferencedAt(d: Disk, j: nat, id: string) {
    HasIndex(d.media, j) && id in d.snapshots ==> Referenced(d.media[j].index.value, d.snapshots[id])
  }

  /**
   The garbage-collection invariant: moreover every copy of the index references every chunk of every snapshot
   that any copy of the repository lists. Copies may differ; any of them may be the one that is read next.
   */
  ghost predicate Invariant(d: Disk) {
    && Intact(d)
    && (forall j: nat | HasIndex(d.media, j) :: KeysMatch(d.media[j].index.value))
    && (forall i: nat, j: nat, id | ListedAt(d.media, i, id) && HasIndex(d.media, j) :: ReferencedAt(d, j, id))
  }

  /* ---- Listings and references after each operation ---- */

  lemma ListingsWithListed(volumes: seq<Volume>, pos: nat, id: string, x: string)
    requires pos < |volumes|
    ensures Listings(WithListed(volumes, pos, id), x) == Listings(volumes, x) + if x == id then 1 else 0
  {
    var v := volumes[pos];
    SumUpdate(ListedBy(x), volumes, pos, v.(snapshots := v.snapshots + [id]));
    CountNext(v.snapshots, id, x);
  }

  lemma ListingsAtLeast(volumes: seq<Volume>, pos: nat, x: string)
    requires pos < |volumes|
    ensures Listings(volumes, x) == Listings(WithoutVolume(volumes, pos), x) + Count(volumes[pos].snapshots, x)
  {
    SumConcat(ListedBy(x), volumes[..pos], volumes[pos..]);
    SumConcat(ListedBy(x), volumes[..pos], volumes[pos + 1..]);
    assert volumes[..pos] + volumes[pos..] == volumes;
    assert volumes[pos..][1..] == volumes[pos + 1..];
  }

  lemma ListingsWithoutListed(volumes: seq<Volume>, pos: nat, id: string, x: string)
    requires pos < |volumes| && Unique(volumes) && id in volumes[pos].snapshots
    ensures Listings(WithoutListed(volumes, pos, id), x) == if x == id then 0 else Listings(volumes, x)
  {
    var v := volumes[pos];
    SumUpdate(ListedBy(x), volumes, pos, v.(snapshots := Filter(v.snapshots, id)));
    CountFilter(v.snapshots, id, x);
    assert Listings(volumes, x) <= 1;
  }

  lemma ListingsWithoutVolume(volumes: seq<Volume>, pos: nat, x: string)
    requires pos < |volumes| && Unique(volumes)
    ensures Listings(WithoutVolume(volumes, pos), x) == if x in volumes[pos].snapshots then 0 else Listings(volumes, x)
  {
    ListingsAtLeast(volumes, pos, x);
    assert Listings(volumes, x) <= 1;
  }

  lemma {:induction false} RefsOfWithoutAll(ix: Index, ids: seq<string>, h: string, s: string)
    ensures Refs(WithoutAll(ix, ids), h, s) == if s in ids then 0 else Refs(ix, h, s)
    ensures KeysMatch(ix) ==> KeysMatch(WithoutAll(ix, ids))
  {
    if ids != [] {
      var front := ids[..|ids| - 1];
      RefsOfWithoutAll(ix, front, h, s);
      RefsOfWithout(WithoutAll(ix, front), ids[|ids| - 1], h, s);
    }
  }

  /** A chunk with the hash is among those of the archives. */
  ghost predicate AmongAdded(added: seq<Archive>, h: string)
  {
    exists a, c :: a in added && c in a.chunks && c.hash == h
  }

  lemma {:induction false} TimesOne(chunks: seq<Chunk>, id: string, h: string, s: string)
    ensures Times(UsesOf(chunks, id), h, s) > 0 <==> s == id && exists c :: c in chunks && c.hash == h
  {
    var uses := UsesOf(chunks, id);
    if Times(uses, h, s) > 0 {
      var i := TimesWitness(uses, h, s);
      assert uses[i] == Use(chunks[i], id);
    }
    if c :| s == id && c in chunks && c.hash == h {
      var i :| 0 <= i < |chunks| && chunks[i] == c;
      TimesPositive(uses, i);
    }
  }

  lemma {:induction false} TimesOfAdded(added: seq<Archive>, id: string, h: string, s: string)
    ensures Times(UsesOfAll(added, id), h, s) > 0 <==> s == id && AmongAdded(added, h)
  {
    if added != [] {
      var front, last := added[..|added| - 1], added[|added| - 1];
      TimesOfAdded(front, id, h, s);
      TimesAppend(UsesOfAll(front, id), UsesOf(last.chunks, id), h, s);
      TimesOne(last.chunks, id, h, s);
      assert forall a :: a in added <==> a in front || a == last;
    }
  }
}
