/**
 The commands as the program runs them (cmd/knoxite/store.go, clone.go, snapshot.go, volume.go, repository.go):
 statement by statement on a repository object, an index object and the stored files. Each of them is proved to
 be the step of the state machine that its name says, wherever its writes stop.
 */
module Commands {
  import opened Basics
  import opened Backends
  import opened Resilience
  import opened Archives
  import opened ChunkIndexing
  import opened Reindexing
  import opened Packing
  import opened Repository
  import opened Storing
  import Codec
  import Decoding
  import opened Linking
  import Libraries

  predicate ListedIn(volumes: seq<Volume>, pos: nat, id: string) { pos < |volumes| && id in volumes[pos].snapshots }

  /** The volume that a name means: the last one for "latest", otherwise the first with the id. */
  predicate VolumeMeant(volumes: seq<Volume>, name: string, pos: nat) {
    && pos < |volumes|
    && if name == "latest" then pos == |volumes| - 1
       else volumes[pos].id == name && forall i :: 0 <= i < pos ==> volumes[i].id != name
  }

  /** Place `j` of volume `i` comes before place `l` of volume `k`. */
  predicate Before(i: nat, j: nat, k: nat, l: nat) { i < k || (i == k && j < l) }

  /** Place `j` of volume `i` lists a snapshot that loads. */
  ghost predicate LoadsAt(volumes: seq<Volume>, load: string -> Option<Snapshot>, i: nat, j: nat) {
    i < |volumes| && j < |volumes[i].snapshots| && load(volumes[i].snapshots[j]).Some?
  }

  /**
   The snapshot that a name means is `snapshot`, listed as `listed` by volume `pos`. For "latest" no listed snapshot
   that loads has a later date, and none before it has the same date; otherwise it is what loads under the name, and
   the volume is the first that lists the name.
   */
  ghost predicate SnapshotMeant(
      volumes: seq<Volume>, load: string -> Option<Snapshot>, date: Snapshot -> int, name: string, pos: nat,
      listed: string, snapshot: Snapshot)
  {
    && ListedIn(volumes, pos, listed) && load(listed) == Some(snapshot)
    && if name == "latest" then exists j: nat :: LatestAt(volumes, load, date, pos, j, listed, snapshot)
       else listed == name && forall i: nat | i < pos :: !ListedIn(volumes, i, name)
  }

  ghost predicate LatestAt(
      volumes: seq<Volume>, load: string -> Option<Snapshot>, date: Snapshot -> int, pos: nat, j: nat, listed: string,
      snapshot: Snapshot)
  {
    && LoadsAt(volumes, load, pos, j) && volumes[pos].snapshots[j] == listed
    && forall k: nat, l: nat | LoadsAt(volumes, load, k, l) ::
         NotLaterThan(load(volumes[k].snapshots[l]).value, date, snapshot, Before(k, l, pos, j))
  }

  /** No later, and earlier if it comes before. */
  predicate NotLaterThan(a: Snapshot, date: Snapshot -> int, b: Snapshot, before: bool) {
    if before then date(a) < date(b) else date(a) <= date(b)
  }

  /** What FindLatest has found when it has got to place `j` of volume `i`. */
  ghost predicate LatestSoFar(
      volumes: seq<Volume>, load: string -> Option<Snapshot>, date: Snapshot -> int, found: Option<(nat, Snapshot)>,
      listed: string, at: nat, i: nat, j: nat)
  {
    && (found.Some? ==>
          && LoadsAt(volumes, load, found.value.0, at) && Before(found.value.0, at, i, j)
          && volumes[found.value.0].snapshots[at] == listed && load(listed) == Some(found.value.1))
    && forall k: nat, l: nat | LoadsAt(volumes, load, k, l) && Before(k, l, i, j) ::
         found.Some?
         && NotLaterThan(
              load(volumes[k].snapshots[l]).value, date, found.value.1, Before(k, l, found.value.0, at))
  }

  /** None of the volumes lists a snapshot by that name that can be loaded. */
  ghost predicate NothingLoads(volumes: seq<Volume>, load: string -> Option<Snapshot>, id: string) {
    forall i: nat, x | ListedIn(volumes, i, x) && (id == "latest" || x == id) :: load(x).None?
  }

  lemma NoneLoads(volumes: seq<Volume>, load: string -> Option<Snapshot>)
    ensures NothingLoads(volumes, load, "latest") <==> forall k: nat, l: nat :: !LoadsAt(volumes, load, k, l)
  {
    forall i: nat, x | ListedIn(volumes, i, x) && load(x).Some? ensures exists l: nat :: LoadsAt(volumes, load, i, l) {
      var l: nat :| l < |volumes[i].snapshots| && volumes[i].snapshots[l] == x;
      assert LoadsAt(volumes, load, i, l);
    }
    forall k: nat, l: nat | LoadsAt(volumes, load, k, l) ensures ListedIn(volumes, k, volumes[k].snapshots[l]) { }
  }

  /** The repository object in memory; a volume is addressed by its position. */
  class Repo {
    var volumes: seq<Volume>

    constructor (loaded: seq<Volume>)
      ensures volumes == loaded
    {
      volumes := loaded;
    }

    method AddVolume(volume: Volume)
      modifies this
      ensures volumes == old(volumes) + [volume]
    {
      volumes := volumes + [volume];
    }

    /** "latest" is the last volume; otherwise the first with the id. */
    method FindVolume(id: string) returns (pos: Option<nat>)
      ensures pos.Some? ==> VolumeMeant(volumes, id, pos.value)
      ensures pos.None? <==> NoVolume(volumes, id)
    {
      if id == "latest" && |volumes| > 0 {
        return Some(|volumes| - 1);
      }
      for i := 0 to |volumes|
        invariant forall j :: 0 <= j < i ==> volumes[j].id != id
      {
        if volumes[i].id == id { return Some(i); }
      }
      return None;
    }

    /**
     "latest" is the snapshot with the latest date, the first of them if there are several; otherwise the first volume
     that lists the id, if that snapshot can be loaded. `listed` is the id under which the snapshot was found.
     */
    method FindSnapshot(id: string, load: string -> Option<Snapshot>, date: Snapshot -> int)
      returns (found: Option<(nat, Snapshot)>, ghost listed: string)
      ensures found.Some? ==> SnapshotMeant(volumes, load, date, id, found.value.0, listed, found.value.1)
      ensures found.None? <==> NothingLoads(volumes, load, id)
    {
      listed := id;
      if id == "latest" {
        ghost var j: nat;
        found, listed, j := FindLatest(load, date);
        if found.Some? {
          assert LatestAt(volumes, load, date, found.value.0, j, listed, found.value.1);
        } else {
          NoneLoads(volumes, load);
        }
        return;
      }
      for i := 0 to |volumes|
        invariant load(id).None? || forall j: nat :: j < i ==> !ListedIn(volumes, j, id)
      {
        if id in volumes[i].snapshots {
          var snapshot := load(id);
          if snapshot.Some? { return Some((i, snapshot.value)), id; }
        }
      }
      return None, id;
    }

    method FindLatest(load: string -> Option<Snapshot>, date: Snapshot -> int)
      returns (found: Option<(nat, Snapshot)>, ghost listed: string, ghost at: nat)
      ensures found.Some? ==>
                && LatestAt(volumes, load, date, found.value.0, at, listed, found.value.1)
                && load(listed) == Some(found.value.1)
      ensures found.None? <==> forall k: nat, l: nat :: !LoadsAt(volumes, load, k, l)
    {
      found, listed, at := None, "", 0;
      for i := 0 to |volumes|
        invariant LatestSoFar(volumes, load, date, found, listed, at, i, 0)
      {
        var ids := volumes[i].snapshots;
        for j := 0 to |ids|
          invariant LatestSoFar(volumes, load, date, found, listed, at, i, j)
        {
          var snapshot := load(ids[j]);
          if snapshot.Some? && (found.None? || date(snapshot.value) > date(found.value.1)) {
            found, listed, at := Some((i, snapshot.value)), ids[j], j;
          }
        }
      }
    }

    /** Find the volume and take it out of the list; an error if it is not there. */
    method RemoveVolume(pos: nat) returns (found: bool)
      modifies this
      ensures found <==> pos < |old(volumes)|
      ensures volumes == if found then WithoutVolume(old(volumes), pos) else old(volumes)
    {
      for i := 0 to |volumes|
        invariant i <= pos && volumes == old(volumes)
      {
        if i == pos {
          volumes := volumes[..i] + volumes[i + 1..];
          return true;
        }
      }
      return false;
    }

    method AddSnapshot(pos: nat, id: string)
      requires pos < |volumes|
      modifies this
      ensures volumes == WithListed(old(volumes), pos, id)
    {
      volumes := volumes[pos := volumes[pos].(snapshots := volumes[pos].snapshots + [id])];
    }

    /** Take every occurrence of the id out of the volume's list; an error if there is none. */
    method RemoveSnapshot(pos: nat, id: string) returns (found: bool)
      requires pos < |volumes|
      modifies this
      ensures found <==> id in old(volumes)[pos].snapshots
      ensures volumes == if found then WithoutListed(old(volumes), pos, id) else old(volumes)
    {
      var all := volumes[pos].snapshots;
      var snapshots := [];
      found := false;
      for i := 0 to |all|
        invariant snapshots == Filter(all[..i], id)
        invariant found <==> id in all[..i]
      {
        assert all[..i + 1] == all[..i] + [all[i]];
        if all[i] == id {
          found := true;
        } else {
          snapshots := snapshots + [all[i]];
        }
      }
      assert all[..|all|] == all;
      if found {
        volumes := volumes[pos := volumes[pos].(snapshots := snapshots)];
      }
    }
  }

  /** The stored files, and how many more of them can be written before a write fails or the process ends. */
  class Storage {
    var disk: Disk
    var left: nat
    const torn: bool

    constructor (disk: Disk, left: nat, torn: bool)
      ensures this.disk == disk && this.left == left && this.torn == torn
    {
      this.disk, this.left, this.torn := disk, left, torn;
    }

    function Budget(): Writes reads this { Writes(left, torn) }

    method SaveIndex(ix: Index) returns (ok: bool)
      modifies this
      ensures disk == old(disk).(media := Repository.SaveIndex(old(disk).media, ix, old(left), torn))
      ensures ok <==> old(left) >= |disk.media|
      ensures left == if ok then old(left) - |disk.media| else 0
    {
      ghost var was := disk.media;
      for i := 0 to |disk.media|
        invariant |disk.media| == |was| && disk == old(disk).(media := disk.media)
        invariant left + i == old(left)
        invariant forall j :: 0 <= j < |was| ==> disk.media[j] == if j < i then was[j].(index := Some(ix)) else was[j]
      {
        if left == 0 {
          if torn { disk := disk.(media := disk.media[i := disk.media[i].(index := None)]); }
          return false;
        }
        disk := disk.(media := disk.media[i := disk.media[i].(index := Some(ix))]);
        left := left - 1;
      }
      ok := true;
    }

    method SaveRepository(volumes: seq<Volume>) returns (ok: bool)
      modifies this
      ensures disk == old(disk).(media := SaveVolumes(old(disk).media, volumes, old(left), torn))
      ensures ok <==> old(left) >= |disk.media|
      ensures left == if ok then old(left) - |disk.media| else 0
    {
      ghost var was := disk.media;
      for i := 0 to |disk.media|
        invariant |disk.media| == |was| && disk == old(disk).(media := disk.media)
        invariant left + i == old(left)
        invariant forall j :: 0 <= j < |was| ==>
          disk.media[j] == if j < i then was[j].(volumes := Some(volumes)) else was[j]
      {
        if left == 0 {
          if torn { disk := disk.(media := disk.media[i := disk.media[i].(volumes := None)]); }
          return false;
        }
        disk := disk.(media := disk.media[i := disk.media[i].(volumes := Some(volumes))]);
        left := left - 1;
      }
      ok := true;
    }

    /** A snapshot's file is new: what counts is whether some backend has got all of it. */
    method SaveSnapshot(snapshot: Snapshot) returns (ok: bool)
      requires |disk.media| > 0
      modifies this
      ensures disk
        == if old(left) > 0 then old(disk).(snapshots := old(disk).snapshots[snapshot.id := snapshot]) else old(disk)
      ensures ok <==> old(left) >= |disk.media|
      ensures left == if ok then old(left) - |disk.media| else 0
    {
      for i := 0 to |disk.media|
        invariant left + i == old(left)
        invariant disk
          == if i > 0 then old(disk).(snapshots := old(disk).snapshots[snapshot.id := snapshot]) else old(disk)
      {
        if left == 0 { return false; }
        disk := disk.(snapshots := disk.snapshots[snapshot.id := snapshot]);
        left := left - 1;
      }
      ok := true;
    }
  }

  /** `store`: the files one after the other, each archive added to the snapshot and to the index when it is done. */
  method StoreTargets(how: Settings, targets: seq<Target>, mgr: BackendManager, snapshot: Snapshot, index: ChunkIndex)
    returns (r: Snapshot, ghost added: seq<Archive>)
    requires ValidSettingsFor(how) && |mgr.backends| > 0
    modifies mgr, index
    ensures Filing(mgr.backends, mgr.lastUsedBackend, added)
         == Filed(how, targets, Filing(old(mgr.backends), old(mgr.lastUsedBackend), []))
    ensures r == Snapshot(snapshot.id, WithArchives(snapshot.archives, added))
    ensures index.chunks == WithUses(old(index.chunks), UsesOfAll(added, snapshot.id))
  {
    r, added := snapshot, [];
    ghost var start := Filing(mgr.backends, mgr.lastUsedBackend, []);
    for i := 0 to |targets|
      invariant |mgr.backends| > 0
      invariant Filing(mgr.backends, mgr.lastUsedBackend, added) == Filed(how, targets[..i], start)
      invariant r == Snapshot(snapshot.id, WithArchives(snapshot.archives, added))
      invariant index.chunks == WithUses(old(index.chunks), UsesOfAll(added, snapshot.id))
    {
      assert targets[..i + 1][..i] == targets[..i];
      var t := targets[i];
      if Skipped(t) { continue; }
      var archive := Scanned(t);
      if t.kind.RegularFile? {
        var chunks, storageSize, transferred, dropped, reported := AddChunks(InputFor(how, t), t.received, mgr);
        archive := FiledAs(how, t, chunks, storageSize);
      }
      AddOne(old(index.chunks), added, archive, snapshot);
      r := r.(archives := r.archives[archive.path := archive]);
      index.AddArchive(archive, snapshot.id);
      added := added + [archive];
    }
    assert targets[..|targets|] == targets;
  }

  lemma AddOne(ix: Index, added: seq<Archive>, archive: Archive, snapshot: Snapshot)
    ensures WithArchives(snapshot.archives, added + [archive])
      == WithArchives(snapshot.archives, added)[archive.path := archive]
    ensures WithUses(ix, UsesOfAll(added + [archive], snapshot.id))
         == WithUses(WithUses(ix, UsesOfAll(added, snapshot.id)), UsesOf(archive.chunks, snapshot.id))
  {
    assert (added + [archive])[..|added|] == added;
    WithUsesAppend(ix, UsesOfAll(added, snapshot.id), UsesOf(archive.chunks, snapshot.id));
  }

  /** The writes of store and clone in their order, once the files are stored. */
  method SaveStored(storage: Storage, repo: Repo, pos: nat, full: Snapshot, index: ChunkIndex) returns (ok: bool)
    requires pos < |repo.volumes| && |storage.disk.media| > 0
    modifies storage, repo
    ensures var d, n, w := old(storage.disk), |old(storage.disk).media|, old(storage.left);
            storage.disk == Disk(
              SaveVolumes(SaveIndex(d.media, index.chunks, w - n, storage.torn),
                          WithListed(old(repo.volumes), pos, full.id), w - 2 * n, storage.torn),
              if w > 0 then d.snapshots[full.id := full] else d.snapshots,
              d.parts)
    ensures ok <==> old(storage.left) >= 3 * |storage.disk.media|
  {
    ok := storage.SaveSnapshot(full);
    if !ok { return; }
    repo.AddSnapshot(pos, full.id);
    ok := storage.SaveIndex(index.chunks);
    if !ok { return; }
    ok := storage.SaveRepository(repo.volumes);
  }

  datatype Outcome =
    | Success | VolumeNotFound | SnapshotNotFound | ToleranceTooHigh | WriteFailed | DeleteFailed | LoadFailed

  /** A copy of the index that was read. */
  method OpenIndex(storage: Storage, index: nat) returns (r: ChunkIndex)
    requires HasIndex(storage.disk.media, index)
    ensures fresh(r) && r.chunks == storage.disk.media[index].index.value
  {
    r := new ChunkIndex();
    r.chunks := storage.disk.media[index].index.value;
  }

  /** OpenChunkIndex when no backend returns an index: rebuild it from the listed snapshots and save it. */
  method RebuildIndex(storage: Storage, from: nat) returns (r: ChunkIndex, o: Outcome, ghost cmd: Command)
    requires HasVolumes(storage.disk.media, from)
    modifies storage
    ensures fresh(r)
    ensures !AllLoad(old(storage.disk).media[from].volumes.value, LoadFrom(old(storage.disk).snapshots)) ==>
      o == LoadFailed && storage.disk == old(storage.disk)
    ensures AllLoad(old(storage.disk).media[from].volumes.value, LoadFrom(old(storage.disk).snapshots)) ==>
              && cmd.Reindex? && cmd.from == from && cmd.w == old(storage.Budget())
              && Enabled(old(storage.disk), cmd) && storage.disk == Next(old(storage.disk), cmd)
              && r.chunks == WithUses(map[], cmd.uses)
              && o == if old(storage.left) >= |storage.disk.media| then Success else WriteFailed
  {
    var repo := new Repo(storage.disk.media[from].volumes.value);
    cmd := Reindex(from, [], storage.Budget());
    r := new ChunkIndex();
    ghost var uses;
    var ok;
    ok, uses := r.Reindex(repo.volumes, LoadFrom(storage.disk.snapshots));
    if !ok { return r, LoadFailed, cmd; }
    cmd := Reindex(from, uses, storage.Budget());
    ok := storage.SaveIndex(r.chunks);
    o := if ok then Success else WriteFailed;
  }

  /** The settings of a store command; the tolerance decides the part counts. */
  datatype StoreSettings = StoreSettings(ctx: Decoding.Context, compress: nat, encrypt: nat, tolerance: nat)

  function Chosen(s: StoreSettings, counts: (nat, nat)): Settings {
    Settings(s.ctx, Options(s.compress, s.encrypt, counts.0, counts.1))
  }

  /** What the libraries must be for a store with these settings on `n` backends. */
  ghost predicate Supported(s: StoreSettings, n: nat) {
    && Libraries.CipherLaws(s.ctx.lib) && Codec.ValidCompression(s.compress) && Codec.ValidEncryption(s.encrypt)
    && (PartCounts(n, s.tolerance).Some? ==>
          ParityLaw(s.ctx, Chosen(s, PartCounts(n, s.tolerance).value).opts))
  }

  /** The command is a Store with these parameters. */
  predicate StoreStep(cmd: Command, from: nat, index: nat, pos: nat, base: Option<string>, id: string, w: Writes) {
    && cmd.Store? && cmd.from == from && cmd.index == index && cmd.pos == pos && cmd.base == base && cmd.id == id
    && cmd.w == w
  }

  /** A store of targets, as a command: it can run, since all of its chunks' parts are on backends by then. */
  lemma StoreCanRun(
      d: Disk, cmd: Command, how: Settings, targets: seq<Target>, bs: seq<Backend>, last: nat)
    requires cmd.Store? && HasVolumes(d.media, cmd.from) && HasIndex(d.media, cmd.index)
    requires cmd.pos < |d.media[cmd.from].volumes.value| && Fresh(d, cmd.id)
    requires cmd.base.Some? ==> ListedAt(d.media, cmd.from, cmd.base.value) && cmd.base.value in d.snapshots
    requires ValidSettingsFor(how) && ParityLaw(how.ctx, how.opts) && |bs| > 0 && PartsOnBackends(d.parts, bs)
    requires var end := Filed(how, targets, Filing(bs, last, []));
             cmd.added == end.archives && cmd.stored == KeysOn(end.backends)
    ensures Enabled(d, cmd)
    ensures PartsOnBackends(d.parts + cmd.stored, Filed(how, targets, Filing(bs, last, [])).backends)
  {
    ArchivesAreStored(how, targets, bs, last, d.parts);
  }

  lemma StoreIsStep(d: Disk, cmd: Command, full: Snapshot, ix: Index, volumes: seq<Volume>)
    requires cmd.Store? && Enabled(d, cmd) && full == NewSnapshot(d, cmd.base, cmd.id, cmd.added)
    requires ix == WithUses(d.media[cmd.index].index.value, UsesOfAll(cmd.added, cmd.id))
    requires volumes == WithListed(d.media[cmd.from].volumes.value, cmd.pos, cmd.id)
    ensures var n, w := |d.media|, cmd.w;
            Next(d, cmd) == Disk(
              SaveVolumes(SaveIndex(d.media, ix, w.done - n, w.torn), volumes, w.done - 2 * n, w.torn),
              if w.done > 0 then d.snapshots[cmd.id := full] else d.snapshots,
              d.parts + cmd.stored)
  {
  }

  /** The first half: open the index and store the files. */
  method StoreFiles(
      storage: Storage, index: nat, snapshot: Snapshot, how: Settings, targets: seq<Target>,
      mgr: BackendManager)
    returns (chunkIndex: ChunkIndex, full: Snapshot, ghost added: seq<Archive>)
    requires HasIndex(storage.disk.media, index) && |mgr.backends| > 0 && ValidSettingsFor(how)
    modifies mgr
    ensures fresh(chunkIndex)
    ensures Filing(mgr.backends, mgr.lastUsedBackend, added)
         == Filed(how, targets, Filing(old(mgr.backends), old(mgr.lastUsedBackend), []))
    ensures full == Snapshot(snapshot.id, WithArchives(snapshot.archives, added))
    ensures chunkIndex.chunks == WithUses(storage.disk.media[index].index.value, UsesOfAll(added, snapshot.id))
  {
    chunkIndex := OpenIndex(storage, index);
    full, added := StoreTargets(how, targets, mgr, snapshot, chunkIndex);
  }

  /** Storing the files and saving what describes them is the Store step of the state machine. */
  method StoreAndSave(
      storage: Storage, from: nat, index: nat, repo: Repo, pos: nat, snapshot: Snapshot, ghost base: Option<string>,
      how: Settings, targets: seq<Target>, mgr: BackendManager)
    returns (ok: bool, ghost cmd: Command)
    requires HasVolumes(storage.disk.media, from) && HasIndex(storage.disk.media, index)
    requires repo.volumes == storage.disk.media[from].volumes.value && pos < |repo.volumes|
    requires |mgr.backends| > 0 && ValidSettingsFor(how) && ParityLaw(how.ctx, how.opts)
    requires PartsOnBackends(storage.disk.parts, mgr.backends) && Fresh(storage.disk, snapshot.id)
    requires base.Some? ==> ListedAt(storage.disk.media, from, base.value) && base.value in storage.disk.snapshots
    requires snapshot.archives == if base.Some? then storage.disk.snapshots[base.value].archives else map[]
    modifies storage, repo, mgr
    ensures cmd.Store? && StoreStep(cmd, from, index, pos, base, snapshot.id, old(storage.Budget()))
    ensures Enabled(old(storage.disk), cmd) && storage.disk == Next(old(storage.disk), cmd)
    ensures ok <==> old(storage.left) >= 3 * |storage.disk.media|
    ensures Filing(mgr.backends, mgr.lastUsedBackend, cmd.added)
         == Filed(how, targets, Filing(old(mgr.backends), old(mgr.lastUsedBackend), []))
    ensures PartsOnBackends(storage.disk.parts, mgr.backends)
  {
    ghost var d, bs, last := storage.disk, mgr.backends, mgr.lastUsedBackend;
    var chunkIndex, full;
    ghost var added;
    chunkIndex, full, added := StoreFiles(storage, index, snapshot, how, targets, mgr);
    var stored := KeysOn(mgr.backends);
    cmd := Store(from, index, pos, base, snapshot.id, added, stored, storage.Budget());
    StoreCanRun(d, cmd, how, targets, bs, last);
    StoreIsStep(d, cmd, full, chunkIndex.chunks, WithListed(repo.volumes, pos, snapshot.id));
    storage.disk := storage.disk.(parts := storage.disk.parts + stored);
    ok := SaveStored(storage, repo, pos, full, chunkIndex);
  }

  /**
   What a store that goes ahead has done: the Store step, with archives and backends from storing the targets one after
   the other under these settings, as many parity parts as the tolerance and data parts for the other backends; and it
   has succeeded exactly if all writes were done.
   */
  ghost predicate StoreDone(
      d: Disk, d': Disk, before: Filing, after: Filing, s: StoreSettings, targets: seq<Target>, cmd: Command,
      o: Outcome)
    requires Supported(s, |before.backends|) && s.tolerance < |before.backends|
  {
    && cmd.Store? && Enabled(d, cmd) && d' == Next(d, cmd)
    && after
       == Filed(Settings(s.ctx, Options(s.compress, s.encrypt, |before.backends| - s.tolerance, s.tolerance)), targets,
                before)
    && o == if cmd.w.done >= 3 * |d.media| then Success else WriteFailed
  }

  /**
   What store and clone have in common: the tolerance is checked before anything else; then the files are stored on
   the backends, which may fail in any way, and the snapshot, the index and the repository are saved.
   */
  method StoreInto(
      storage: Storage, from: nat, index: nat, repo: Repo, pos: nat, snapshot: Snapshot, ghost base: Option<string>,
      s: StoreSettings, targets: seq<Target>, mgr: BackendManager)
    returns (o: Outcome, ghost cmd: Command)
    requires HasVolumes(storage.disk.media, from) && HasIndex(storage.disk.media, index)
    requires repo.volumes == storage.disk.media[from].volumes.value && pos < |repo.volumes|
    requires |mgr.backends| == |storage.disk.media| && Supported(s, |mgr.backends|)
    requires PartsOnBackends(storage.disk.parts, mgr.backends) && Fresh(storage.disk, snapshot.id)
    requires base.Some? ==> ListedAt(storage.disk.media, from, base.value) && base.value in storage.disk.snapshots
    requires snapshot.archives == if base.Some? then storage.disk.snapshots[base.value].archives else map[]
    modifies storage, repo, mgr
    ensures o == ToleranceTooHigh <==> s.tolerance >= |old(mgr.backends)|
    ensures o == ToleranceTooHigh ==> storage.disk == old(storage.disk) && mgr.backends == old(mgr.backends)
    ensures o != ToleranceTooHigh ==>
              && cmd.Store? && StoreStep(cmd, from, index, pos, base, snapshot.id, old(storage.Budget()))
              && StoreDone(
                   old(storage.disk), storage.disk, Filing(old(mgr.backends), old(mgr.lastUsedBackend), []),
                   Filing(mgr.backends, mgr.lastUsedBackend, cmd.added), s, targets, cmd, o)
    ensures PartsOnBackends(storage.disk.parts, mgr.backends)
  {
    var counts := PartCounts(|mgr.backends|, s.tolerance);
    if counts.None? {
      return ToleranceTooHigh, Store(from, index, pos, base, snapshot.id, [], {}, storage.Budget());
    }
    var ok;
    ok, cmd := StoreAndSave(
      storage, from, index, repo, pos, snapshot, base, Chosen(s, counts.value), targets, mgr);
    o := if ok then Success else WriteFailed;
  }

  /** executeStore: nothing happens without the volume; otherwise it is the Store step without a base. */
  method ExecuteStore(
      storage: Storage, from: nat, index: nat, volumeID: string, id: string,
      s: StoreSettings, targets: seq<Target>, mgr: BackendManager)
    returns (o: Outcome, ghost cmd: Command)
    requires HasVolumes(storage.disk.media, from) && HasIndex(storage.disk.media, index)
    requires |mgr.backends| == |storage.disk.media| && Supported(s, |mgr.backends|)
    requires PartsOnBackends(storage.disk.parts, mgr.backends) && Fresh(storage.disk, id)
    modifies storage, mgr
    ensures o == VolumeNotFound <==> NoVolume(old(storage.disk).media[from].volumes.value, volumeID)
    ensures o == ToleranceTooHigh <==> o != VolumeNotFound && s.tolerance >= |old(mgr.backends)|
    ensures o == VolumeNotFound || o == ToleranceTooHigh ==>
              storage.disk == old(storage.disk) && mgr.backends == old(mgr.backends)
    ensures o != VolumeNotFound && o != ToleranceTooHigh ==>
              && cmd.Store? && StoreStep(cmd, from, index, cmd.pos, None, id, old(storage.Budget()))
              && VolumeMeant(old(storage.disk).media[from].volumes.value, volumeID, cmd.pos)
              && StoreDone(
                   old(storage.disk), storage.disk, Filing(old(mgr.backends), old(mgr.lastUsedBackend), []),
                   Filing(mgr.backends, mgr.lastUsedBackend, cmd.added), s, targets, cmd, o)
    ensures PartsOnBackends(storage.disk.parts, mgr.backends)
  {
    var repo := new Repo(storage.disk.media[from].volumes.value);
    cmd := Store(from, index, 0, None, id, [], {}, storage.Budget());
    var volume := repo.FindVolume(volumeID);
    if volume.None? { return VolumeNotFound, cmd; }
    o, cmd := StoreInto(storage, from, index, repo, volume.value, Snapshot(id, map[]), None, s, targets, mgr);
  }

  predicate NoVolume(volumes: seq<Volume>, id: string) {
    (id != "latest" || volumes == []) && forall v | v in volumes :: v.id != id
  }

  /** No volume lists a snapshot by that name that can be loaded. */
  ghost predicate NoSnapshot(d: Disk, from: nat, id: string)
    requires HasVolumes(d.media, from)
  {
    NothingLoads(d.media[from].volumes.value, LoadFrom(d.snapshots), id)
  }

  /** The saved snapshot `listed`, in volume `pos`, is the one that the name means. */
  ghost predicate SourceMeant(d: Disk, from: nat, date: Snapshot -> int, name: string, pos: nat, listed: string)
    requires HasVolumes(d.media, from)
  {
    && listed in d.snapshots
    && SnapshotMeant(
         d.media[from].volumes.value, LoadFrom(d.snapshots), date, name, pos, listed, d.snapshots[listed])
  }

  /** executeClone: the Store step with a listed snapshot as its base, which adds its files to that one's archives. */
  method ExecuteClone(
      storage: Storage, from: nat, index: nat, snapshotID: string, date: Snapshot -> int, id: string,
      s: StoreSettings, targets: seq<Target>, mgr: BackendManager)
    returns (o: Outcome, ghost cmd: Command)
    requires HasVolumes(storage.disk.media, from) && HasIndex(storage.disk.media, index)
    requires |mgr.backends| == |storage.disk.media| && Supported(s, |mgr.backends|)
    requires PartsOnBackends(storage.disk.parts, mgr.backends) && Fresh(storage.disk, id)
    modifies storage, mgr
    ensures o != VolumeNotFound
    ensures o == SnapshotNotFound <==> NoSnapshot(old(storage.disk), from, snapshotID)
    ensures o == ToleranceTooHigh <==> o != SnapshotNotFound && s.tolerance >= |old(mgr.backends)|
    ensures o == SnapshotNotFound || o == ToleranceTooHigh ==>
              storage.disk == old(storage.disk) && mgr.backends == old(mgr.backends)
    ensures o != SnapshotNotFound && o != ToleranceTooHigh ==>
              && cmd.Store? && cmd.base.Some?
              && SourceMeant(old(storage.disk), from, date, snapshotID, cmd.pos, cmd.base.value)
              && StoreStep(cmd, from, index, cmd.pos, cmd.base, id, old(storage.Budget()))
              && StoreDone(
                   old(storage.disk), storage.disk, Filing(old(mgr.backends), old(mgr.lastUsedBackend), []),
                   Filing(mgr.backends, mgr.lastUsedBackend, cmd.added), s, targets, cmd, o)
    ensures PartsOnBackends(storage.disk.parts, mgr.backends)
  {
    var repo := new Repo(storage.disk.media[from].volumes.value);
    cmd := Store(from, index, 0, None, id, [], {}, storage.Budget());
    ghost var listed;
    var found;
    found, listed := FindSource(storage.disk, from, repo, snapshotID, date);
    if found.None? { return SnapshotNotFound, cmd; }
    var (volume, source) := found.value;
    o, cmd := StoreInto(
      storage, from, index, repo, volume, Snapshot(id, source.archives), Some(listed), s, targets, mgr);
  }

  /** The snapshot that is to be cloned, and the volume that lists it. */
  method FindSource(d: Disk, from: nat, repo: Repo, snapshotID: string, date: Snapshot -> int)
    returns (found: Option<(nat, Snapshot)>, ghost listed: string)
    requires HasVolumes(d.media, from) && repo.volumes == d.media[from].volumes.value
    ensures found.None? <==> NoSnapshot(d, from, snapshotID)
    ensures found.Some? ==>
              && ListedAt(d.media, from, listed) && listed in d.snapshots && d.snapshots[listed] == found.value.1
              && found.value.0 < |repo.volumes|
              && SourceMeant(d, from, date, snapshotID, found.value.0, listed)
  {
    found, listed := repo.FindSnapshot(snapshotID, LoadFrom(d.snapshots), date);
    if found.Some? { ListedSomewhere(repo.volumes, listed); }
  }

  lemma ListedSomewhere(volumes: seq<Volume>, id: string)
    ensures Listings(volumes, id) > 0 <==> exists v :: v in volumes && id in v.snapshots
  {
    SumZero(ListedBy(id), volumes);
    if Listings(volumes, id) > 0 {
      var i :| 0 <= i < |volumes| && ListedBy(id)(volumes[i]) > 0;
      assert volumes[i] in volumes;
    }
    if v :| v in volumes && id in v.snapshots {
      var i :| 0 <= i < |volumes| && volumes[i] == v;
      assert ListedBy(id)(volumes[i]) > 0;
    }
  }

  /** What a removal has put in place of the files is the step that its command says. */
  lemma RemovalIsStep(d: Disk, cmd: Command, ix: Index, volumes: seq<Volume>)
    requires cmd.RemoveSnapshot? && HasVolumes(d.media, cmd.from) && HasIndex(d.media, cmd.index)
    requires ListedIn(d.media[cmd.from].volumes.value, cmd.pos, cmd.id)
    requires ix == Without(d.media[cmd.index].index.value, cmd.id)
    requires volumes == WithoutListed(d.media[cmd.from].volumes.value, cmd.pos, cmd.id)
    ensures Enabled(d, cmd)
    ensures var n, w := |d.media|, cmd.w;
            Next(d, cmd)
            == d.(media := SaveVolumes(SaveIndex(d.media, ix, w.done, w.torn), volumes, w.done - n, w.torn))
  {
  }

  /** The id that a removal takes out of volume `pos`: that of the snapshot which the name means. */
  ghost predicate RemovalMeant(
      volumes: seq<Volume>, load: string -> Option<Snapshot>, date: Snapshot -> int, name: string, pos: nat, id: string)
  {
    exists listed, snapshot ::
      SnapshotMeant(volumes, load, date, name, pos, listed, snapshot) && id == snapshot.id
  }

  /** Nothing by that name loads, or the volume does not list the snapshot that is meant under its own id. */
  ghost predicate NothingToRemove(
      volumes: seq<Volume>, load: string -> Option<Snapshot>, date: Snapshot -> int, name: string)
  {
    || NothingLoads(volumes, load, name)
    || exists pos: nat, listed, snapshot ::
         SnapshotMeant(volumes, load, date, name, pos, listed, snapshot) && !ListedIn(volumes, pos, snapshot.id)
  }

  /** A name means one snapshot at most. */
  lemma OneIsMeant(
      volumes: seq<Volume>, load: string -> Option<Snapshot>, date: Snapshot -> int, name: string, pos: nat,
      listed: string, snapshot: Snapshot, pos': nat, listed': string, snapshot': Snapshot)
    requires SnapshotMeant(volumes, load, date, name, pos, listed, snapshot)
    requires SnapshotMeant(volumes, load, date, name, pos', listed', snapshot')
    ensures pos == pos' && listed == listed' && snapshot == snapshot'
    ensures !NothingLoads(volumes, load, name)
  {
    if name == "latest" {
      var j: nat :| LatestAt(volumes, load, date, pos, j, listed, snapshot);
      var j': nat :| LatestAt(volumes, load, date, pos', j', listed', snapshot');
      assert LoadsAt(volumes, load, pos, j) && LoadsAt(volumes, load, pos', j');
      assert Before(pos, j, pos', j') || Before(pos', j', pos, j) || (pos == pos' && j == j');
    }
  }

  /** In a repository that loads each listed id's own snapshot there is nothing to remove only if nothing loads. */
  lemma OwnIdsRemovable(volumes: seq<Volume>, load: string -> Option<Snapshot>, date: Snapshot -> int, name: string)
    requires OwnIds(volumes, load)
    ensures NothingToRemove(volumes, load, date, name) <==> NothingLoads(volumes, load, name)
  {
    forall pos: nat, listed, snapshot | SnapshotMeant(volumes, load, date, name, pos, listed, snapshot)
      ensures ListedIn(volumes, pos, snapshot.id)
    {
      assert volumes[pos] in volumes && listed in volumes[pos].snapshots;
    }
  }

  /** Find the snapshot that is meant and take its own id out of the volume that was found. */
  method TakeOut(repo: Repo, snapshotID: string, load: string -> Option<Snapshot>, date: Snapshot -> int)
    returns (found: Option<(nat, string)>)
    modifies repo
    ensures found.None? ==> repo.volumes == old(repo.volumes)
    ensures found.Some? ==>
              && RemovalMeant(old(repo.volumes), load, date, snapshotID, found.value.0, found.value.1)
              && ListedIn(old(repo.volumes), found.value.0, found.value.1)
              && repo.volumes == WithoutListed(old(repo.volumes), found.value.0, found.value.1)
    ensures found.None? <==> NothingToRemove(old(repo.volumes), load, date, snapshotID)
  {
    ghost var listed;
    var loaded;
    loaded, listed := repo.FindSnapshot(snapshotID, load, date);
    if loaded.None? { return None; }
    var (volume, snapshot) := loaded.value;
    ghost var volumes := repo.volumes;
    var ok := repo.RemoveSnapshot(volume, snapshot.id);
    found := if ok then Some((volume, snapshot.id)) else None;
    forall pos: nat, other, s | SnapshotMeant(volumes, load, date, snapshotID, pos, other, s)
      ensures pos == volume && s == snapshot
    {
      OneIsMeant(volumes, load, date, snapshotID, pos, other, s, volume, listed, snapshot);
    }
    OneIsMeant(volumes, load, date, snapshotID, volume, listed, snapshot, volume, listed, snapshot);
  }

  /**
   executeSnapshotRemove: the index is saved before the repository. The snapshot's own id is taken out of the volume
   and the index; in a repository that loads each listed id's own snapshot that is the id that was asked for.
   */
  method ExecuteSnapshotRemove(storage: Storage, from: nat, index: nat, snapshotID: string, date: Snapshot -> int)
    returns (o: Outcome, ghost cmd: Command)
    requires HasVolumes(storage.disk.media, from) && HasIndex(storage.disk.media, index)
    modifies storage
    ensures o == SnapshotNotFound <==>
      NothingToRemove(
        old(storage.disk).media[from].volumes.value, LoadFrom(old(storage.disk).snapshots), date, snapshotID)
    ensures o == SnapshotNotFound ==> storage.disk == old(storage.disk)
    ensures o != SnapshotNotFound ==>
              && cmd.RemoveSnapshot? && cmd.from == from && cmd.index == index && cmd.w == old(storage.Budget())
              && RemovalMeant(
                   old(storage.disk).media[from].volumes.value, LoadFrom(old(storage.disk).snapshots), date, snapshotID,
                   cmd.pos, cmd.id)
              && Enabled(old(storage.disk), cmd) && storage.disk == Next(old(storage.disk), cmd)
              && o == if old(storage.left) >= 2 * |storage.disk.media| then Success else WriteFailed
  {
    var repo := new Repo(storage.disk.media[from].volumes.value);
    cmd := RemoveSnapshot(from, index, 0, snapshotID, storage.Budget());
    var chunkIndex := OpenIndex(storage, index);
    var found := TakeOut(repo, snapshotID, LoadFrom(storage.disk.snapshots), date);
    if found.None? { return SnapshotNotFound, cmd; }
    cmd := RemoveSnapshot(from, index, found.value.0, found.value.1, storage.Budget());
    chunkIndex.RemoveSnapshot(found.value.1);
    RemovalIsStep(storage.disk, cmd, chunkIndex.chunks, repo.volumes);
    o := SaveIndexThenRepository(storage, chunkIndex.chunks, repo.volumes);
  }

  /** The order in which both removals save. */
  method SaveIndexThenRepository(storage: Storage, ix: Index, volumes: seq<Volume>) returns (o: Outcome)
    modifies storage
    ensures var n, w := |old(storage.disk).media|, old(storage.left);
            && storage.disk == old(storage.disk).(
                 media := SaveVolumes(
                   SaveIndex(old(storage.disk).media, ix, w, storage.torn), volumes, w - n, storage.torn))
            && o == if w >= 2 * n then Success else WriteFailed
  {
    var ok := storage.SaveIndex(ix);
    if !ok { return WriteFailed; }
    ok := storage.SaveRepository(volumes);
    o := if ok then Success else WriteFailed;
  }

  /** The first `i` of the ids are gone from the list. */
  ghost predicate Gone(now: seq<string>, ids: seq<string>, i: nat)
    requires i <= |ids|
  {
    forall x :: x in now <==> x in ids && x !in ids[..i]
  }

  lemma GoneNext(now: seq<string>, ids: seq<string>, i: nat)
    requires i < |ids| && Gone(now, ids, i)
    ensures Gone(Filter(now, ids[i]), ids, i + 1)
    ensures ids[i] in now <==> ids[i] !in ids[..i]
  {
    assert ids[..i + 1] == ids[..i] + [ids[i]];
    forall x ensures x in Filter(now, ids[i]) <==> x in ids && x !in ids[..i + 1] { CountFilter(now, ids[i], x); }
  }

  lemma DistinctNext(ids: seq<string>, i: nat)
    requires i < |ids| && Distinct(ids[..i])
    ensures Distinct(ids[..i + 1]) <==> ids[i] !in ids[..i]
    ensures ids[i] in ids[..i] ==> !Distinct(ids)
  {
    if ids[i] in ids[..i] {
      var j :| 0 <= j < i && ids[..i][j] == ids[i];
      assert ids[j] == ids[i] && ids[..i + 1][j] == ids[..i + 1][i];
    } else {
      assert forall j :: 0 <= j < i ==> ids[..i + 1][j] == ids[..i][j];
    }
  }

  /**
   The loop of executeVolumeRemove: it goes over the list that the volume had at the start, while each iteration
   replaces the volume's list. It gets to the end exactly if no id is in that list twice.
   */
  method RemoveEach(repo: Repo, pos: nat, index: ChunkIndex) returns (ok: bool)
    requires pos < |repo.volumes|
    modifies repo, index
    ensures ok <==> Distinct(old(repo.volumes)[pos].snapshots)
    ensures |repo.volumes| == |old(repo.volumes)|
    ensures repo.volumes == old(repo.volumes)[pos := repo.volumes[pos]]
    ensures ok ==> index.chunks == WithoutAll(old(index.chunks), old(repo.volumes)[pos].snapshots)
  {
    var ids := repo.volumes[pos].snapshots;
    for i := 0 to |ids|
      invariant |repo.volumes| == |old(repo.volumes)|
      invariant repo.volumes == old(repo.volumes)[pos := repo.volumes[pos]]
      invariant Gone(repo.volumes[pos].snapshots, ids, i) && Distinct(ids[..i])
      invariant index.chunks == WithoutAll(old(index.chunks), ids[..i])
    {
      assert ids[..i + 1][..i] == ids[..i];
      GoneNext(repo.volumes[pos].snapshots, ids, i);
      DistinctNext(ids, i);
      var found := repo.RemoveSnapshot(pos, ids[i]);
      if !found { return false; }
      index.RemoveSnapshot(ids[i]);
    }
    assert ids[..|ids|] == ids;
    ok := true;
  }

  /** executeVolumeRemove: nothing is written if the volume lists a snapshot twice. */
  method ExecuteVolumeRemove(storage: Storage, from: nat, index: nat, volumeID: string)
    returns (o: Outcome, ghost cmd: Command)
    requires HasVolumes(storage.disk.media, from) && HasIndex(storage.disk.media, index)
    modifies storage
    ensures o == VolumeNotFound <==> NoVolume(old(storage.disk).media[from].volumes.value, volumeID)
    ensures o == VolumeNotFound ==> storage.disk == old(storage.disk)
    ensures o != VolumeNotFound ==>
              && cmd.RemoveVolume? && cmd.from == from && cmd.index == index && cmd.w == old(storage.Budget())
              && VolumeMeant(old(storage.disk).media[from].volumes.value, volumeID, cmd.pos)
              && Enabled(old(storage.disk), cmd)
              && (o == SnapshotNotFound <==> !Distinct(old(storage.disk).media[from].volumes.value[cmd.pos].snapshots))
              && storage.disk == (if o == SnapshotNotFound then old(storage.disk) else Next(old(storage.disk), cmd))
    ensures o != VolumeNotFound && o != SnapshotNotFound ==>
              o == if old(storage.left) >= 2 * |storage.disk.media| then Success else WriteFailed
  {
    var repo := new Repo(storage.disk.media[from].volumes.value);
    cmd := RemoveVolume(from, index, 0, storage.Budget());
    var chunkIndex := OpenIndex(storage, index);
    var vol := repo.FindVolume(volumeID);
    if vol.None? { return VolumeNotFound, cmd; }
    cmd := RemoveVolume(from, index, vol.value, storage.Budget());
    ghost var volumes := repo.volumes;
    var ok := RemoveEach(repo, vol.value, chunkIndex);
    if !ok { return SnapshotNotFound, cmd; }
    ok := repo.RemoveVolume(vol.value);
    assert repo.volumes == WithoutVolume(volumes, vol.value);
    o := SaveIndexThenRepository(storage, chunkIndex.chunks, repo.volumes);
  }

  /** executeVolumeInit: the new, empty volume becomes the last one. */
  method ExecuteVolumeInit(storage: Storage, from: nat, id: string) returns (o: Outcome, ghost cmd: Command)
    requires HasVolumes(storage.disk.media, from)
    modifies storage
    ensures cmd == Repository.AddVolume(from, id, old(storage.Budget()))
    ensures Enabled(old(storage.disk), cmd) && storage.disk == Next(old(storage.disk), cmd)
    ensures o == if old(storage.left) >= |storage.disk.media| then Success else WriteFailed
  {
    var repo := new Repo(storage.disk.media[from].volumes.value);
    cmd := Repository.AddVolume(from, id, storage.Budget());
    repo.AddVolume(Volume(id, []));
    var ok := storage.SaveRepository(repo.volumes);
    o := if ok then Success else WriteFailed;
  }

  /**
   executeRepoAdd: the manager gets the backend as its last one, and the repository file is saved on all of them. The
   backend belongs to the repository as soon as a copy of that file names it.
   */
  method ExecuteRepoAdd(storage: Storage, from: nat, mgr: BackendManager, backend: Backend)
    returns (o: Outcome, ghost cmd: Command)
    requires HasVolumes(storage.disk.media, from)
    modifies storage, mgr`backends
    ensures cmd == Repository.AddBackend(from, old(storage.Budget()))
    ensures Enabled(old(storage.disk), cmd) && storage.disk == Next(old(storage.disk), cmd)
    ensures mgr.backends == old(mgr.backends) + [backend]
    ensures o == if old(storage.left) > |old(storage.disk).media| then Success else WriteFailed
  {
    var repo := new Repo(storage.disk.media[from].volumes.value);
    cmd := Repository.AddBackend(from, storage.Budget());
    mgr.AddBackend(backend);
    if storage.left > 0 {
      storage.disk := storage.disk.(media := storage.disk.media + [Media(None, None)]);
    }
    var ok := storage.SaveRepository(repo.volumes);
    o := if ok then Success else WriteFailed;
  }

  /** Every part of every unused item is on some backend. */
  ghost predicate AllUnusedStored(bs: seq<Backend>, ix: Index) {
    forall key | GarbagePart(ix, key) :: Copies(bs, key) > 0
  }

  /** On healthy backends a pack comes through if and only if all it has to delete is there. */
  lemma HealthyPack(bs: seq<Backend>, ix: Index, order: seq<string>, ok: bool)
    requires KeysMatch(ix) && Distinct(order) && Resilience.AllHealthy(bs) && forall h | h in order :: h in ix
    requires ok == Collected(bs, ix, order).ok && (ok ==> Visits(order, ix))
    ensures ok <==> AllUnusedStored(bs, ix)
  {
    PackSucceedsIff(bs, ix, order);
    if ok {
      forall key | GarbagePart(ix, key) ensures Copies(bs, key) > 0 { assert key.hash in order; }
    }
  }

  /** Only parts of unused items lose their last copy. */
  lemma LastCopies(parts: set<PartKey>, bs: seq<Backend>, ix: Index, order: seq<string>)
    requires PartsOnBackends(parts, bs) && KeysMatch(ix) && Distinct(order)
    ensures forall key | key in parts && Copies(Collected(bs, ix, order).backends, key) == 0 :: GarbagePart(ix, key)
    ensures forall key | Copies(Collected(bs, ix, order).backends, key) > 0 :: key in parts
  {
    forall key
      ensures key in parts && Copies(Collected(bs, ix, order).backends, key) == 0 ==> GarbagePart(ix, key)
      ensures Copies(Collected(bs, ix, order).backends, key) > 0 ==> key in parts
    {
      CollectedCopies(bs, ix, order, key);
    }
  }

  /** The parts that are nowhere any more. */
  ghost function Vanished(parts: set<PartKey>, bs: seq<Backend>): set<PartKey> {
    set key | key in parts && Copies(bs, key) == 0
  }

  /** What a pack's deletions leave, and writing its index, is the Pack step. */
  lemma PackIsStep(d: Disk, index: nat, bs: seq<Backend>, order: seq<string>, w: Writes)
    requires HasIndex(d.media, index) && KeysMatch(d.media[index].index.value)
    requires PartsOnBackends(d.parts, bs) && Distinct(order)
    ensures var ix := d.media[index].index.value;
            var bs' := Collected(bs, ix, order).backends;
            var cmd := Pack(index, Vanished(d.parts, bs'), w);
            && Enabled(d, cmd)
            && Next(d, cmd).snapshots == d.snapshots
            && Next(d, cmd).media == SaveIndex(d.media, Packed(ix), w.done, w.torn)
            && (w == Writes(0, false) ==> Next(d, cmd).media == d.media)
            && Next(d, cmd).parts == (set key | key in d.parts && Copies(bs', key) > 0)
            && PartsOnBackends(Next(d, cmd).parts, bs')
  {
    LastCopies(d.parts, bs, d.media[index].index.value, order);
  }

  /** Pack on the index object, and what its outcome means for the backends. */
  method DeleteUnused(chunkIndex: ChunkIndex, mgr: BackendManager)
    returns (freed: nat, ok: bool, ghost order: seq<string>)
    requires KeysMatch(chunkIndex.chunks)
    modifies chunkIndex, mgr`backends
    ensures var ix := old(chunkIndex.chunks);
            var r := Collected(old(mgr.backends), ix, order);
            && mgr.backends == r.backends && ok == r.ok && Distinct(order) && (ok ==> Visits(order, ix))
            && (ok ==> chunkIndex.chunks == Packed(ix) && freed == Total(FreedBy(ix), ix.Keys))
            && (Resilience.AllHealthy(old(mgr.backends)) ==> (ok <==> AllUnusedStored(old(mgr.backends), ix)))
  {
    ghost var before, ix := mgr.backends, chunkIndex.chunks;
    freed, ok, order := chunkIndex.Pack(mgr);
    if ok { PackExact(before, ix, order); }
    if Resilience.AllHealthy(before) { HealthyPack(before, ix, order, ok); }
  }

  /** executeRepoPack: the index is saved only if every deletion has succeeded. */
  method ExecuteRepoPack(storage: Storage, index: nat, mgr: BackendManager)
    returns (o: Outcome, freed: nat, ghost cmd: Command, ghost order: seq<string>)
    requires HasIndex(storage.disk.media, index) && KeysMatch(storage.disk.media[index].index.value)
    requires PartsOnBackends(storage.disk.parts, mgr.backends)
    modifies storage, mgr`backends
    ensures PartsOnBackends(storage.disk.parts, mgr.backends)
    ensures cmd.Pack? && cmd.index == index
    ensures Enabled(old(storage.disk), cmd) && storage.disk == Next(old(storage.disk), cmd)
    ensures var r := Collected(old(mgr.backends), old(storage.disk).media[index].index.value, order);
            && mgr.backends == r.backends && Distinct(order) && (o == DeleteFailed <==> !r.ok)
    ensures o != DeleteFailed ==> Visits(order, old(storage.disk).media[index].index.value)
    ensures Resilience.AllHealthy(old(mgr.backends)) ==>
              (o != DeleteFailed <==> AllUnusedStored(old(mgr.backends), old(storage.disk).media[index].index.value))
    ensures o == DeleteFailed ==> cmd.w == Writes(0, false)
    ensures o != DeleteFailed ==>
              && cmd.w == old(storage.Budget())
              && (var ix := old(storage.disk).media[index].index.value; freed == Total(FreedBy(ix), ix.Keys))
              && o == if old(storage.left) >= |storage.disk.media| then Success else WriteFailed
    ensures o == Success ==>
              forall j: nat | j < |storage.disk.media| ::
                storage.disk.media[j].index == Some(Packed(old(storage.disk).media[index].index.value))
  {
    var chunkIndex := OpenIndex(storage, index);
    ghost var d, before := storage.disk, mgr.backends;
    var ok;
    freed, ok, order := DeleteUnused(chunkIndex, mgr);
    PackIsStep(d, index, before, order, if ok then storage.Budget() else Writes(0, false));
    cmd := Pack(index, Vanished(d.parts, mgr.backends), if ok then storage.Budget() else Writes(0, false));
    storage.disk := storage.disk.(parts := set key | key in storage.disk.parts && Copies(mgr.backends, key) > 0);
    if !ok { return DeleteFailed, freed, cmd, order; }
    ok := storage.SaveIndex(chunkIndex.chunks);
    o := if ok then Success else WriteFailed;
  }
}
