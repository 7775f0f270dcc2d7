/**
 The chunk index (chunkindex.go): which snapshots use which chunk, and the deletion of chunks that none uses.
 Go's maps are visited in an arbitrary order; every result below is for all of them.
 */
module ChunkIndexing {
  import opened Basics
  import opened Backends
  import opened Resilience
  import opened Archives

  datatype Item = Item(hash: string, dataParts: nat, parityParts: nat, size: nat, snapshots: seq<string>)

  type Index = map<string, Item>

  datatype Snapshot = Snapshot(id: string, archives: map<string, Archive>)

  datatype Volume = Volume(id: string, snapshots: seq<string>)

  /** One occurrence of a chunk in a snapshot. */
  datatype Use = Use(chunk: Chunk, snapshot: string)

  /* ---- What the operations do to the index ---- */

  function WithUse(ix: Index, u: Use): Index {
    var h := u.chunk.hash;
    if h in ix then ix[h := ix[h].(snapshots := ix[h].snapshots + [u.snapshot])]
    else ix[h := Item(h, u.chunk.dataParts, u.chunk.parityParts, u.chunk.size, [u.snapshot])]
  }

  function WithUses(ix: Index, uses: seq<Use>): Index {
    if uses == [] then ix else WithUse(WithUses(ix, uses[..|uses| - 1]), uses[|uses| - 1])
  }

  lemma {:induction false} WithUsesAppend(ix: Index, a: seq<Use>, b: seq<Use>)
    ensures WithUses(ix, a + b) == WithUses(WithUses(ix, a), b)
  {
    if b == [] {
      assert a + b == a;
    } else {
      assert (a + b)[..|a + b| - 1] == a + b[..|b| - 1];
      WithUsesAppend(ix, a, b[..|b| - 1]);
    }
  }

  /** The chunks of an archive, each used by the snapshot. */
  function UsesOf(chunks: seq<Chunk>, s: string): seq<Use> {
    seq(|chunks|, i requires 0 <= i < |chunks| => Use(chunks[i], s))
  }

  function Filter(ids: seq<string>, s: string): seq<string> {
    if ids == [] then []
    else Filter(ids[..|ids| - 1], s) + if ids[|ids| - 1] == s then [] else [ids[|ids| - 1]]
  }

  function Without(ix: Index, s: string): Index {
    map h | h in ix :: ix[h].(snapshots := Filter(ix[h].snapshots, s))
  }

  predicate Garbage(ix: Index, h: string) { h in ix && ix[h].snapshots == [] }

  function Packed(ix: Index): Index { map h | h in ix && !Garbage(ix, h) :: ix[h] }

  /** Every item is filed under its own hash. */
  predicate KeysMatch(ix: Index) { forall h | h in ix :: ix[h].hash == h }

  /** How often snapshot `s` is listed under hash `h`. */
  function Refs(ix: Index, h: string, s: string): nat { if h in ix then Count(ix[h].snapshots, s) else 0 }

  /** How often `uses` has snapshot `s` use a chunk with hash `h`. */
  function Times(uses: seq<Use>, h: string, s: string): nat {
    if uses == [] then 0
    else
      var u := uses[|uses| - 1];
      Times(uses[..|uses| - 1], h, s) + if u.chunk.hash == h && u.snapshot == s then 1 else 0
  }

  lemma {:induction false} TimesAppend(a: seq<Use>, b: seq<Use>, h: string, s: string)
    ensures Times(a + b, h, s) == Times(a, h, s) + Times(b, h, s)
  {
    if b == [] {
      assert a + b == a;
    } else {
      assert (a + b)[..|a + b| - 1] == a + b[..|b| - 1];
      TimesAppend(a, b[..|b| - 1], h, s);
    }
  }

  lemma RefsOfWithUse(ix: Index, u: Use, h: string, s: string)
    ensures Refs(WithUse(ix, u), h, s) == Refs(ix, h, s) + if u.chunk.hash == h && u.snapshot == s then 1 else 0
  {
    if u.chunk.hash in ix {
      CountNext(ix[u.chunk.hash].snapshots, u.snapshot, s);
    } else {
      CountNext([], u.snapshot, s);
      assert [] + [u.snapshot] == [u.snapshot];
    }
  }

  /** Adding uses counts each of them once, under the key of its chunk. */
  lemma {:induction false} RefsOfWithUses(ix: Index, uses: seq<Use>, h: string, s: string)
    ensures Refs(WithUses(ix, uses), h, s) == Refs(ix, h, s) + Times(uses, h, s)
  {
    if uses != [] {
      var front := uses[..|uses| - 1];
      RefsOfWithUses(ix, front, h, s);
      RefsOfWithUse(WithUses(ix, front), uses[|uses| - 1], h, s);
    }
  }

  lemma {:induction false} CountFilter(ids: seq<string>, s: string, t: string)
    ensures Count(Filter(ids, s), t) == if t == s then 0 else Count(ids, t)
  {
    if ids != [] {
      CountFilter(ids[..|ids| - 1], s, t);
      var last := ids[|ids| - 1];
      if last != s {
        CountNext(Filter(ids[..|ids| - 1], s), last, t);
      } else {
        assert Filter(ids, s) == Filter(ids[..|ids| - 1], s);
      }
    }
  }

  lemma {:induction false} FilterAbsent(ids: seq<string>, s: string)
    requires s !in ids
    ensures Filter(ids, s) == ids
  {
    if ids != [] { FilterAbsent(ids[..|ids| - 1], s); }
  }

  lemma RefsOfWithout(ix: Index, s: string, h: string, t: string)
    ensures Refs(Without(ix, s), h, t) == if t == s then 0 else Refs(ix, h, t)
  {
    if h in ix { CountFilter(ix[h].snapshots, s, t); }
  }

  lemma RefsOfPacked(ix: Index, h: string, s: string)
    ensures Refs(Packed(ix), h, s) == Refs(ix, h, s)
  {
  }

  /* ---- Store, remove, pack cancel ---- */

  lemma FilterAdded(ids: seq<string>, s: string)
    ensures Filter(ids + [s], s) == Filter(ids, s)
  {
    assert (ids + [s])[..|ids|] == ids;
  }

  /** After all uses by `s` are added and removed again, an old item is as before and a new one is unused. */
  lemma {:induction false} AddedThenRemoved(ix: Index, uses: seq<Use>, s: string, h: string)
    requires forall u | u in uses :: u.snapshot == s
    ensures var r := WithUses(ix, uses);
            if h in ix then
              && h in r && r[h].(snapshots := []) == ix[h].(snapshots := [])
              && Filter(r[h].snapshots, s) == Filter(ix[h].snapshots, s)
            else h in r ==> Filter(r[h].snapshots, s) == []
  {
    if uses != [] {
      var front, u := uses[..|uses| - 1], uses[|uses| - 1];
      AddedThenRemoved(ix, front, s, h);
      var before := WithUses(ix, front);
      if u.chunk.hash == h {
        if h in before { FilterAdded(before[h].snapshots, s); } else { FilterAdded([], s); }
      }
    }
  }

  /**
   For a snapshot id that the index does not know, storing under it, removing it and packing gives exactly the
   index that packing would have given at the start, the order in every item's list included.
   */
  lemma StoreRemovePackCancel(ix: Index, uses: seq<Use>, s: string)
    requires forall u | u in uses :: u.snapshot == s
    requires forall h | h in ix :: s !in ix[h].snapshots
    ensures Packed(Without(WithUses(ix, uses), s)) == Packed(ix)
  {
    forall h
      ensures var r := WithUses(ix, uses);
              if h in ix then h in r && r[h].(snapshots := Filter(r[h].snapshots, s)) == ix[h]
              else h in r ==> Filter(r[h].snapshots, s) == []
    {
      AddedThenRemoved(ix, uses, s, h);
      if h in ix { FilterAbsent(ix[h].snapshots, s); }
    }
  }

  /* ---- Deleting what is not used ---- */

  /** The parts that Pack deletes for an unused item, by the item's own part counts. */
  predicate PartOfItem(item: Item, key: PartKey) {
    key.hash == item.hash && key.total == item.dataParts && key.part < item.dataParts + item.parityParts
  }

  predicate GarbagePart(ix: Index, key: PartKey) { Garbage(ix, key.hash) && PartOfItem(ix[key.hash], key) }

  datatype Collection = Collection(backends: seq<Backend>, freed: nat, ok: bool)

  /** Delete the parts of an item from part `i` on, up to the first that cannot be deleted. */
  function DeleteParts(bs: seq<Backend>, item: Item, i: nat, freed: nat): (r: Collection)
    requires i <= item.dataParts + item.parityParts
    ensures |r.backends| == |bs|
    decreases item.dataParts + item.parityParts - i
  {
    if i == item.dataParts + item.parityParts then Collection(bs, freed, true)
    else
      var d := First(bs, DeletePart(PartKey(item.hash, i, item.dataParts)), 0);
      if d.1.None? then Collection(d.0, freed, false)
      else DeleteParts(d.0, item, i + 1, freed + item.size)
  }

  /** Pack's loop over the items, visited in the given order. */
  function Collected(bs: seq<Backend>, ix: Index, order: seq<string>): (r: Collection)
    ensures |r.backends| == |bs|
  {
    if order == [] then Collection(bs, 0, true)
    else
      var r := Collected(bs, ix, order[..|order| - 1]);
      var h := order[|order| - 1];
      if r.ok && Garbage(ix, h) then DeleteParts(r.backends, ix[h], 0, r.freed) else r
  }

  /** The order visits every item of the index once. */
  ghost predicate Visits(order: seq<string>, ix: Index) {
    Distinct(order) && forall h :: h in order <==> h in ix
  }

  /** The order has visited every item of the index that is not left to do, each once. */
  ghost predicate Visited(order: seq<string>, ix: Index, todo: set<string>) {
    && Distinct(order)
    && (forall h | h in order :: h in ix && h !in todo)
    && (forall h | h in ix && h !in todo :: h in order)
  }

  lemma VisitedNext(order: seq<string>, ix: Index, todo: set<string>, h: string)
    requires Visited(order, ix, todo) && h in todo && h in ix
    ensures Visited(order + [h], ix, todo - {h})
    ensures (order + [h])[..|order|] == order
  {
  }

  /** The used items among those that are not left to do. */
  function Kept(ix: Index, todo: set<string>): Index { map h | h in ix && h !in todo && !Garbage(ix, h) :: ix[h] }

  lemma KeptNext(ix: Index, todo: set<string>, h: string)
    requires h in todo && h in ix
    ensures Kept(ix, todo - {h}) == if Garbage(ix, h) then Kept(ix, todo) else Kept(ix, todo)[h := ix[h]]
  {
  }

  /* ---- Rebuilding the index ---- */

  function HashIs(h: string): Chunk -> nat { (c: Chunk) => if c.hash == h then 1 else 0 }

  function InChunks(chunks: seq<Chunk>, h: string): nat { Sum(HashIs(h), chunks) }

  function InArchive(archives: map<string, Archive>, h: string): string -> nat {
    (path: string) => if path in archives then InChunks(archives[path].chunks, h) else 0
  }

  /** How often a chunk with hash `h` occurs in the archives of a snapshot. */
  ghost function InSnapshot(snap: Snapshot, h: string): nat { Total(InArchive(snap.archives, h), snap.archives.Keys) }

  /** The same for what a listed id loads, if that is a snapshot with id `s`. */
  ghost function InListed(load: string -> Option<Snapshot>, h: string, s: string): string -> nat {
    (id: string) => if load(id).Some? && load(id).value.id == s then InSnapshot(load(id).value, h) else 0
  }

  ghost function InVolume(load: string -> Option<Snapshot>, h: string, s: string): Volume -> nat {
    (v: Volume) => Sum(InListed(load, h, s), v.snapshots)
  }

  ghost function Occurrences(volumes: seq<Volume>, load: string -> Option<Snapshot>, h: string, s: string): nat {
    Sum(InVolume(load, h, s), volumes)
  }

  lemma {:induction false} TimesOfUsesOf(chunks: seq<Chunk>, id: string, i: nat, h: string, s: string)
    requires i <= |chunks|
    ensures Times(UsesOf(chunks, id)[..i], h, s) == if s == id then InChunks(chunks[..i], h) else 0
  {
    if i > 0 {
      TimesOfUsesOf(chunks, id, i - 1, h, s);
      SumNext(HashIs(h), chunks, i - 1);
      assert UsesOf(chunks, id)[..i][..i - 1] == UsesOf(chunks, id)[..i - 1];
    }
  }

  /** The uses are those of the snapshot's archives at the given paths. */
  ghost predicate SnapshotUses(uses: seq<Use>, snap: Snapshot, paths: set<string>) {
    forall h, s :: Times(uses, h, s) == if s == snap.id then Total(InArchive(snap.archives, h), paths) else 0
  }

  lemma SnapshotUsesNext(uses: seq<Use>, snap: Snapshot, paths: set<string>, path: string)
    requires SnapshotUses(uses, snap, paths) && path in snap.archives && path !in paths
    ensures SnapshotUses(uses + UsesOf(snap.archives[path].chunks, snap.id), snap, paths + {path})
  {
    var chunks := snap.archives[path].chunks;
    var more := UsesOf(chunks, snap.id);
    forall h, s
      ensures Times(uses + more, h, s) == if s == snap.id then Total(InArchive(snap.archives, h), paths + {path}) else 0
    {
      TimesAppend(uses, more, h, s);
      TimesOfUsesOf(chunks, snap.id, |chunks|, h, s);
      assert more[..|chunks|] == more && chunks[..|chunks|] == chunks;
      TotalTake(InArchive(snap.archives, h), paths + {path}, path);
      assert paths + {path} - {path} == paths;
    }
  }

  /** The uses are those of the first `i` snapshots of a volume. */
  ghost predicate VolumeUses(uses: seq<Use>, ids: seq<string>, load: string -> Option<Snapshot>) {
    forall h, s :: Times(uses, h, s) == Sum(InListed(load, h, s), ids)
  }

  lemma VolumeUsesNext(uses: seq<Use>, ids: seq<string>, load: string -> Option<Snapshot>, i: nat, more: seq<Use>)
    requires i < |ids| && VolumeUses(uses, ids[..i], load) && load(ids[i]).Some?
    requires SnapshotUses(more, load(ids[i]).value, load(ids[i]).value.archives.Keys)
    ensures VolumeUses(uses + more, ids[..i + 1], load)
  {
    forall h, s ensures Times(uses + more, h, s) == Sum(InListed(load, h, s), ids[..i + 1]) {
      TimesAppend(uses, more, h, s);
      SumNext(InListed(load, h, s), ids, i);
    }
  }

  ghost predicate ListingUses(uses: seq<Use>, volumes: seq<Volume>, load: string -> Option<Snapshot>) {
    forall h, s :: Times(uses, h, s) == Occurrences(volumes, load, h, s)
  }

  lemma ListingUsesNext(uses: seq<Use>, volumes: seq<Volume>, load: string -> Option<Snapshot>, i: nat, more: seq<Use>)
    requires i < |volumes| && ListingUses(uses, volumes[..i], load) && VolumeUses(more, volumes[i].snapshots, load)
    ensures ListingUses(uses + more, volumes[..i + 1], load)
  {
    forall h, s ensures Times(uses + more, h, s) == Occurrences(volumes[..i + 1], load, h, s) {
      TimesAppend(uses, more, h, s);
      SumNext(InVolume(load, h, s), volumes, i);
    }
  }

  predicate VolumeLoads(v: Volume, load: string -> Option<Snapshot>) { forall id | id in v.snapshots :: load(id).Some? }

  /** Every listed snapshot can be loaded. */
  predicate AllLoad(volumes: seq<Volume>, load: string -> Option<Snapshot>) {
    forall v | v in volumes :: VolumeLoads(v, load)
  }

  lemma RebuiltRefs(ix: Index, uses: seq<Use>, volumes: seq<Volume>, load: string -> Option<Snapshot>)
    requires ListingUses(uses, volumes, load)
    ensures forall h, s :: Refs(WithUses(ix, uses), h, s) == Refs(ix, h, s) + Occurrences(volumes, load, h, s)
  {
    forall h, s ensures Refs(WithUses(ix, uses), h, s) == Refs(ix, h, s) + Occurrences(volumes, load, h, s) {
      RefsOfWithUses(ix, uses, h, s);
    }
  }

  lemma {:induction false} StillKeysMatch(ix: Index, uses: seq<Use>)
    requires KeysMatch(ix)
    ensures KeysMatch(WithUses(ix, uses))
  {
    if uses != [] { StillKeysMatch(ix, uses[..|uses| - 1]); }
  }

  class ChunkIndex {
    var chunks: Index

    constructor ()
      ensures chunks == map[]
    {
      chunks := map[];
    }

    method AddArchive(archive: Archive, snapshot: string)
      modifies this
      ensures chunks == WithUses(old(chunks), UsesOf(archive.chunks, snapshot))
    {
      ghost var uses := UsesOf(archive.chunks, snapshot);
      for i := 0 to |archive.chunks|
        invariant chunks == WithUses(old(chunks), uses[..i])
      {
        var chunk := archive.chunks[i];
        if chunk.hash in chunks {
          var c := chunks[chunk.hash];
          chunks := chunks[chunk.hash := c.(snapshots := c.snapshots + [snapshot])];
        } else {
          chunks := chunks[chunk.hash := Item(chunk.hash, chunk.dataParts, chunk.parityParts, chunk.size, [snapshot])];
        }
        assert uses[..i + 1][..i] == uses[..i];
      }
      assert uses[..|archive.chunks|] == uses;
    }

    method RemoveSnapshot(snapshot: string)
      modifies this
      ensures chunks == Without(old(chunks), snapshot)
    {
      var todo := chunks.Keys;
      while todo != {}
        invariant todo <= chunks.Keys && chunks.Keys == old(chunks).Keys
        invariant forall h | h in chunks ::
          chunks[h] == if h in todo then old(chunks)[h] else Without(old(chunks), snapshot)[h]
        decreases |todo|
      {
        var h :| h in todo;
        var item := chunks[h];
        var snapshots := [];
        for i := 0 to |item.snapshots|
          invariant snapshots == Filter(item.snapshots[..i], snapshot)
        {
          assert item.snapshots[..i + 1][..i] == item.snapshots[..i];
          if item.snapshots[i] != snapshot {
            snapshots := snapshots + [item.snapshots[i]];
          }
        }
        assert item.snapshots[..|item.snapshots|] == item.snapshots;
        chunks := chunks[h := item.(snapshots := snapshots)];
        todo := todo - {h};
      }
    }

    /** Pack's inner loop: delete the parts of one item, adding up the item's whole size for each. */
    static method DeleteItem(mgr: BackendManager, item: Item, start: nat) returns (freed: nat, ok: bool)
      modifies mgr`backends
      ensures Collection(mgr.backends, freed, ok) == DeleteParts(old(mgr.backends), item, 0, start)
    {
      freed := start;
      for i := 0 to item.dataParts + item.parityParts
        invariant DeleteParts(old(mgr.backends), item, 0, start) == DeleteParts(mgr.backends, item, i, freed)
      {
        var deleted := mgr.DeleteChunk(PartKey(item.hash, i, item.dataParts));
        if !deleted { return freed, false; }
        freed := freed + item.size;
      }
      ok := true;
    }

    /** Delete the unused chunks. The index changes only if every deletion succeeded. */
    method Pack(mgr: BackendManager) returns (freed: nat, ok: bool, ghost order: seq<string>)
      requires KeysMatch(chunks)
      modifies this, mgr`backends
      ensures Collection(mgr.backends, freed, ok) == Collected(old(mgr.backends), old(chunks), order)
      ensures Distinct(order) && (forall h | h in order :: h in old(chunks)) && (ok ==> Visits(order, old(chunks)))
      ensures chunks == if ok then Packed(old(chunks)) else old(chunks)
    {
      var kept: Index := map[];
      var todo := chunks.Keys;
      freed, ok, order := 0, true, [];
      while todo != {}
        invariant todo <= chunks.Keys && chunks == old(chunks) && ok
        invariant Visited(order, chunks, todo) && kept == Kept(chunks, todo)
        invariant Collection(mgr.backends, freed, true) == Collected(old(mgr.backends), chunks, order)
        decreases |todo|
      {
        var h :| h in todo;
        var item := chunks[h];
        VisitedNext(order, chunks, todo, h);
        KeptNext(chunks, todo, h);
        order := order + [h];
        if |item.snapshots| == 0 {
          freed, ok := DeleteItem(mgr, item, freed);
          if !ok { return; }
        } else {
          kept := kept[item.hash := item];
        }
        todo := todo - {h};
      }
      assert kept == Packed(chunks);
      chunks := kept;
    }

    /** The innermost loops of reindex: all archives of a snapshot, in the order of Go's map iteration. */
    method AddSnapshot(snap: Snapshot) returns (ghost uses: seq<Use>)
      modifies this
      ensures chunks == WithUses(old(chunks), uses)
      ensures SnapshotUses(uses, snap, snap.archives.Keys)
    {
      uses := [];
      var todo := snap.archives.Keys;
      while todo != {}
        invariant todo <= snap.archives.Keys
        invariant chunks == WithUses(old(chunks), uses)
        invariant SnapshotUses(uses, snap, snap.archives.Keys - todo)
        decreases |todo|
      {
        var path :| path in todo;
        var archive := snap.archives[path];
        ghost var more := UsesOf(archive.chunks, snap.id);
        SnapshotUsesNext(uses, snap, snap.archives.Keys - todo, path);
        assert snap.archives.Keys - (todo - {path}) == snap.archives.Keys - todo + {path};
        WithUsesAppend(old(chunks), uses, more);
        AddArchive(archive, snap.id);
        uses := uses + more;
        todo := todo - {path};
      }
      assert snap.archives.Keys - todo == snap.archives.Keys;
    }

    /** The loop over the snapshots of one volume; it ends at the first that cannot be loaded. */
    method AddListed(ids: seq<string>, load: string -> Option<Snapshot>) returns (ok: bool, ghost uses: seq<Use>)
      modifies this
      ensures ok <==> forall id | id in ids :: load(id).Some?
      ensures chunks == WithUses(old(chunks), uses)
      ensures ok ==> VolumeUses(uses, ids, load)
    {
      uses := [];
      for i := 0 to |ids|
        invariant chunks == WithUses(old(chunks), uses)
        invariant forall j :: 0 <= j < i ==> load(ids[j]).Some?
        invariant VolumeUses(uses, ids[..i], load)
      {
        var snap := load(ids[i]);
        if snap.None? { return false, uses; }
        ghost var more := AddSnapshot(snap.value);
        VolumeUsesNext(uses, ids, load, i, more);
        WithUsesAppend(old(chunks), uses, more);
        uses := uses + more;
      }
      assert ids[..|ids|] == ids;
      ok := true;
    }

    /**
     Add every archive of every listed snapshot. When all of them load, snapshot `s` is listed under hash `h` as
     many times more as `h` occurs among the chunks of `s`, whatever order the archives were visited in.
     */
    method Reindex(volumes: seq<Volume>, load: string -> Option<Snapshot>) returns (ok: bool, ghost uses: seq<Use>)
      requires KeysMatch(chunks)
      modifies this
      ensures ok <==> AllLoad(volumes, load)
      ensures chunks == WithUses(old(chunks), uses) && KeysMatch(chunks)
      ensures ok ==> ListingUses(uses, volumes, load)
      ensures ok ==> forall h, s :: Refs(chunks, h, s) == Refs(old(chunks), h, s) + Occurrences(volumes, load, h, s)
    {
      uses := [];
      for i := 0 to |volumes|
        invariant chunks == WithUses(old(chunks), uses)
        invariant forall j :: 0 <= j < i ==> VolumeLoads(volumes[j], load)
        invariant ListingUses(uses, volumes[..i], load)
      {
        ghost var more;
        ok, more := AddListed(volumes[i].snapshots, load);
        WithUsesAppend(old(chunks), uses, more);
        if !ok {
          uses := uses + more;
          StillKeysMatch(old(chunks), uses);
          assert !VolumeLoads(volumes[i], load);
          return;
        }
        ListingUsesNext(uses, volumes, load, i, more);
        uses := uses + more;
      }
      assert volumes[..|volumes|] == volumes;
      ok := true;
      RebuiltRefs(old(chunks), uses, volumes, load);
      StillKeysMatch(old(chunks), uses);
    }
  }
}
