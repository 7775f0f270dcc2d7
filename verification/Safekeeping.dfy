/**
 The promise over whole runs: metadata and parts together. Commands change what describes the snapshots and ask the
 backends for parts at the same time; garbage collection must not touch what a listed snapshot needs, and what is left
 must restore.
 */
module Safekeeping {
  import opened Basics
  import opened Libraries
  import opened Backends
  import opened Archives
  import opened ChunkIndexing
  import opened Reindexing
  import opened Repository
  import opened Collecting
  import opened Enduring
  import opened Storing
  import opened Surviving
  import opened RoundTripping
  import opened Linking
  import Chunking
  import Resilience
  import opened Decoding

  /** Everything that is stored. */
  datatype World = World(disk: Disk, backends: seq<Backend>, last: nat)

  /**
   One start of the program: a command, the files it stores if it is a store, what else it asks of the backends, and
   all together in order.
   */
  datatype Turn = Turn(cmd: Command, how: Settings, targets: seq<Target>, asked: seq<Event>, events: seq<Event>)

  /** The number of backends and the parts that are present are the same on both sides. */
  ghost predicate Coherent(w: World) {
    |w.backends| == |w.disk.media| > 0 && PartsOnBackends(w.disk.parts, w.backends)
  }

  /**
   Files apart: only a pack deletes parts, and only those that the index it has read does not use; a new backend is
   empty, and it takes a command to add one.
   */
  ghost predicate MayAsk(d: Disk, cmd: Command, e: Event)
    requires Enabled(d, cmd)
  {
    match e
    case StoreEvent(_, _, _) => false
    case DeleteEvent(key) => cmd.Pack? && GarbagePart(d.media[cmd.index].index.value, key)
    case LoadEvent(_) => true
    case SaveEvent(_, _) => true
    case AttachEvent(be) => cmd.AddBackend? && be.parts == map[]
    case StartEvent => false
  }

  /** A new manager, then the files of a store, then the rest. */
  function EventsOfTurn(cmd: Command, how: Settings, targets: seq<Target>, asked: seq<Event>): seq<Event>
    requires cmd.Store? ==> ValidSettingsFor(how)
  {
    [StartEvent] + (if cmd.Store? then EventsOfTargets(how, targets) else []) + asked
  }

  ghost function Played(w: World, t: Turn): World
    requires |w.backends| > 0 && Enabled(w.disk, t.cmd)
  {
    var r := After(w.backends, w.last, t.events);
    World(Next(w.disk, t.cmd), r.0, r.1)
  }

  /** The program can do this: a store adds the archives of its files, with the part counts of its tolerance. */
  ghost predicate Possible(w: World, t: Turn) {
    && |w.backends| > 0 && Enabled(w.disk, t.cmd)
    && (t.cmd.Store? ==>
          && ValidSettingsFor(t.how)
          && PartCounts(|w.backends|, t.how.opts.parityParts) == Some((t.how.opts.dataParts, t.how.opts.parityParts))
          && t.cmd.added == Filed(t.how, t.targets, Filing(w.backends, 0, [])).archives)
    && t.events == EventsOfTurn(t.cmd, t.how, t.targets, t.asked)
    && (forall e | e in t.asked :: MayAsk(w.disk, t.cmd, e))
    && Coherent(Played(w, t))
  }

  ghost predicate StepAt(ws: seq<World>, run: seq<Turn>, i: nat)
    requires i < |run| < |ws|
  {
    Possible(ws[i], run[i]) && ws[i + 1] == Played(ws[i], run[i])
  }

  /** The worlds before, between and after the turns of a run. */
  ghost predicate Plays(ws: seq<World>, run: seq<Turn>) {
    |ws| == |run| + 1 && forall i: nat | i < |run| :: StepAt(ws, run, i)
  }

  ghost predicate OrderlyAt(ws: seq<World>, run: seq<Turn>, i: nat)
    requires i < |run| < |ws|
  {
    Enabled(ws[i].disk, run[i].cmd) && Orderly(ws[i].disk, run[i].cmd)
  }

  /** Every command observes what it must, exactly, to keep the invariant of garbage collection. */
  ghost predicate AllOrderly(ws: seq<World>, run: seq<Turn>)
    requires |ws| == |run| + 1
  {
    forall i: nat | i < |run| :: OrderlyAt(ws, run, i)
  }

  /** What the turns from `k` up to `l` ask of the backends. */
  function EventsBetween(run: seq<Turn>, k: nat, l: nat): seq<Event>
    requires l <= |run|
  {
    if l <= k then [] else EventsBetween(run, k, l - 1) + run[l - 1].events
  }

  /** A world in which the invariant of garbage collection holds. */
  ghost predicate Ready(w: World) { Invariant(w.disk) && |w.backends| > 0 }

  /* ---- The commands are turns ---- */

  /** What a store command does, by its statements, is a turn. */
  lemma StoreIsTurn(w: World, cmd: Command, how: Settings, targets: seq<Target>, bs: seq<Backend>, last: nat)
    requires Coherent(w) && cmd.Store? && Enabled(w.disk, cmd) && ValidSettingsFor(how)
    requires PartCounts(|w.backends|, how.opts.parityParts) == Some((how.opts.dataParts, how.opts.parityParts))
    requires Filing(bs, last, cmd.added) == Filed(how, targets, Filing(w.backends, 0, []))
    requires PartsOnBackends(Next(w.disk, cmd).parts, bs)
    ensures var t := Turn(cmd, how, targets, [], EventsOfTurn(cmd, how, targets, []));
            Possible(w, t) && Played(w, t) == World(Next(w.disk, cmd), bs, last)
  {
    var start := [StartEvent];
    assert start[..0] == [] && After(w.backends, w.last, start) == (w.backends, 0);
    FiledIsEvents(how, targets, Filing(w.backends, 0, []));
    AfterAppend(w.backends, w.last, start, EventsOfTargets(how, targets));
    assert start + EventsOfTargets(how, targets) + [] == start + EventsOfTargets(how, targets);
    NextBackends(w.disk, cmd);
  }

  /** The events are deletions of parts that the index does not use. */
  ghost predicate Deletions(events: seq<Event>, ix: Index) {
    forall e | e in events :: e.DeleteEvent? && GarbagePart(ix, e.key)
  }

  lemma {:induction false} PartsAreDeleted(
      bs: seq<Backend>, last: nat, ix: Index, h: string, i: nat, freed: nat) returns (events: seq<Event>)
    requires |bs| > 0 && KeysMatch(ix) && Garbage(ix, h) && i <= ix[h].dataParts + ix[h].parityParts
    ensures After(bs, last, events) == (DeleteParts(bs, ix[h], i, freed).backends, last) && Deletions(events, ix)
    decreases ix[h].dataParts + ix[h].parityParts - i
  {
    var item := ix[h];
    events := [];
    if i < item.dataParts + item.parityParts {
      var key := PartKey(item.hash, i, item.dataParts);
      var d := First(bs, DeletePart(key), 0);
      var first := [DeleteEvent(key)];
      assert first[..0] == [] && After(bs, last, first) == (d.0, last);
      var rest: seq<Event> := [];
      if d.1.Some? {
        rest := PartsAreDeleted(d.0, last, ix, h, i + 1, freed + item.size);
      }
      AfterAppend(bs, last, first, rest);
      events := first + rest;
    }
  }

  lemma {:induction false} CollectionIsDeletions(bs: seq<Backend>, last: nat, ix: Index, order: seq<string>)
    returns (events: seq<Event>)
    requires |bs| > 0 && KeysMatch(ix)
    ensures After(bs, last, events) == (Collected(bs, ix, order).backends, last) && Deletions(events, ix)
  {
    events := [];
    if order != [] {
      var front, h := order[..|order| - 1], order[|order| - 1];
      events := CollectionIsDeletions(bs, last, ix, front);
      var r := Collected(bs, ix, front);
      if r.ok && Garbage(ix, h) {
        var more := PartsAreDeleted(r.backends, last, ix, h, 0, r.freed);
        AfterAppend(bs, last, events, more);
        events := events + more;
      }
    }
  }

  /** What a pack does to the backends, visiting the items in any order and stopping anywhere, is a turn. */
  lemma PackIsTurn(w: World, cmd: Command, how: Settings, order: seq<string>) returns (t: Turn)
    requires Coherent(w) && cmd.Pack? && Enabled(w.disk, cmd) && KeysMatch(w.disk.media[cmd.index].index.value)
    requires var bs := Collected(w.backends, w.disk.media[cmd.index].index.value, order).backends;
             PartsOnBackends(Next(w.disk, cmd).parts, bs)
    ensures t.cmd == cmd && Possible(w, t)
    ensures Played(w, t)
         == World(Next(w.disk, cmd), Collected(w.backends, w.disk.media[cmd.index].index.value, order).backends, 0)
  {
    var ix := w.disk.media[cmd.index].index.value;
    var asked := CollectionIsDeletions(w.backends, 0, ix, order);
    t := Turn(cmd, how, [], asked, EventsOfTurn(cmd, how, [], asked));
    var start := [StartEvent];
    assert start[..0] == [] && After(w.backends, w.last, start) == (w.backends, 0);
    AfterAppend(w.backends, w.last, start, asked);
    assert start + [] + asked == start + asked;
    NextBackends(w.disk, cmd);
  }

  /* ---- What a run keeps ---- */

  lemma StepStaysReady(ws: seq<World>, run: seq<Turn>, i: nat)
    requires Plays(ws, run) && AllOrderly(ws, run) && i < |run| && Ready(ws[i])
    ensures Ready(ws[i + 1])
  {
    assert StepAt(ws, run, i) && OrderlyAt(ws, run, i);
    StepExact(ws[i].disk, run[i].cmd);
  }

  /** Garbage-collection safety for worlds: the invariant holds before and after every turn. */
  lemma {:induction false} StaysReady(ws: seq<World>, run: seq<Turn>, k: nat)
    requires Plays(ws, run) && AllOrderly(ws, run) && Ready(ws[0]) && k <= |run|
    ensures Ready(ws[k])
  {
    if k > 0 {
      StaysReady(ws, run, k - 1);
      StepStaysReady(ws, run, k - 1);
    }
  }

  /** The backends and the position after the events, from the world on. */
  ghost predicate Undergone(w: World, events: seq<Event>, w': World)
    requires |w.backends| > 0
  {
    var r := After(w.backends, w.last, events);
    w'.backends == r.0 && w'.last == r.1
  }

  lemma StepUndergone(ws: seq<World>, run: seq<Turn>, i: nat, w: World, events: seq<Event>)
    requires Plays(ws, run) && i < |run| && |w.backends| > 0 && Undergone(w, events, ws[i])
    ensures Undergone(w, events + run[i].events, ws[i + 1])
  {
    assert StepAt(ws, run, i);
    AfterAppend(w.backends, w.last, events, run[i].events);
  }

  /** What the turns ask of the backends is what these undergo. */
  lemma {:induction false} BackendSide(ws: seq<World>, run: seq<Turn>, k: nat, l: nat)
    requires Plays(ws, run) && k <= l <= |run| && |ws[k].backends| > 0
    ensures Undergone(ws[k], EventsBetween(run, k, l), ws[l])
    decreases l
  {
    if k == l {
      assert EventsBetween(run, k, l) == [];
    } else {
      var before, more := EventsBetween(run, k, l - 1), run[l - 1].events;
      BackendSide(ws, run, k, l - 1);
      StepUndergone(ws, run, l - 1, ws[k], before);
      assert EventsBetween(run, k, l) == before + more;
    }
  }

  lemma StepSnapshots(ws: seq<World>, run: seq<Turn>, i: nat, id: string)
    requires Plays(ws, run) && i < |run| && id in ws[i].disk.snapshots
    ensures id in ws[i + 1].disk.snapshots && ws[i + 1].disk.snapshots[id] == ws[i].disk.snapshots[id]
  {
    assert StepAt(ws, run, i);
  }

  /** A saved snapshot is never changed. */
  lemma {:induction false} SavedStays(ws: seq<World>, run: seq<Turn>, k: nat, l: nat, id: string)
    requires Plays(ws, run) && k <= l <= |run| && id in ws[k].disk.snapshots
    ensures id in ws[l].disk.snapshots && ws[l].disk.snapshots[id] == ws[k].disk.snapshots[id]
  {
    if k < l {
      SavedStays(ws, run, k, l - 1, id);
      StepSnapshots(ws, run, l - 1, id);
    }
  }

  /* ---- Garbage collection spares what is listed ---- */

  /** The snapshot is saved, with the chunk, and listed, in a world in which the invariant holds. */
  ghost predicate ListedWith(w: World, id: string, c: Chunk) {
    Ready(w) && Listed(w.disk, id) && id in w.disk.snapshots && ChunkOf(w.disk.snapshots[id], c)
  }

  /** Some copy of the repository lists the snapshot. */
  ghost predicate Listed(d: Disk, id: string) { exists i: nat :: ListedAt(d.media, i, id) }

  /** A saved snapshot that is listed after a command was listed before. */
  lemma ListedBefore(d: Disk, cmd: Command, id: string)
    requires Invariant(d) && Enabled(d, cmd) && id in d.snapshots && Listed(Next(d, cmd), id)
    ensures Listed(d, id)
  {
    var i: nat :| ListedAt(Next(d, cmd).media, i, id);
    if cmd.Store? {
      OldListing(d, cmd, i, id);
    } else if Removes(cmd) {
      StillListed(d, cmd, i, id);
    } else if Adds(cmd) {
      AddingListsNothing(d, cmd, i);
      var k: nat :| HasVolumes(d.media, k) && forall x ::
        Listings(Next(d, cmd).media[i].volumes.value, x) == Listings(d.media[k].volumes.value, x);
      assert ListedAt(d.media, k, id);
    } else {
      assert ListedAt(d.media, i, id);
    }
  }

  lemma StepListed(ws: seq<World>, run: seq<Turn>, i: nat, id: string)
    requires Plays(ws, run) && i < |run| && Ready(ws[i])
    requires id in ws[i].disk.snapshots && Listed(ws[i + 1].disk, id)
    ensures Listed(ws[i].disk, id)
  {
    assert StepAt(ws, run, i);
    ListedBefore(ws[i].disk, run[i].cmd, id);
  }

  /** Saved at `k` and listed at the end, it was listed all the time. */
  lemma {:induction false} ListedSince(ws: seq<World>, run: seq<Turn>, k: nat, i: nat, l: nat, id: string)
    requires Plays(ws, run) && AllOrderly(ws, run) && Ready(ws[0]) && k <= i <= l <= |run|
    requires id in ws[k].disk.snapshots && Listed(ws[l].disk, id)
    ensures Listed(ws[i].disk, id)
    decreases l
  {
    if i < l {
      StaysReady(ws, run, l - 1);
      SavedStays(ws, run, k, l - 1, id);
      StepListed(ws, run, l - 1, id);
      ListedSince(ws, run, k, i, l - 1, id);
    }
  }

  /** Saved at `k` and listed at `l`, it was listed, as it was saved, just before. */
  lemma ListedThen(ws: seq<World>, run: seq<Turn>, k: nat, l: nat, id: string, c: Chunk)
    requires Plays(ws, run) && AllOrderly(ws, run) && Ready(ws[0]) && k < l <= |run|
    requires id in ws[k].disk.snapshots && ChunkOf(ws[k].disk.snapshots[id], c) && Listed(ws[l].disk, id)
    ensures ListedWith(ws[l - 1], id, c)
  {
    ListedSince(ws, run, k, l - 1, l, id);
    StaysReady(ws, run, l - 1);
    SavedStays(ws, run, k, l - 1, id);
  }

  /** No chunk of a listed snapshot is garbage in any copy of the index. */
  lemma ListedIsNoGarbage(d: Disk, j: nat, id: string, c: Chunk)
    requires Invariant(d) && Listed(d, id) && HasIndex(d.media, j)
    requires id in d.snapshots && ChunkOf(d.snapshots[id], c)
    ensures !Garbage(d.media[j].index.value, c.hash)
  {
    var i: nat :| ListedAt(d.media, i, id);
    assert Saved(d, id) && ReferencedAt(d, j, id);
    assert Refs(d.media[j].index.value, c.hash, id) > 0;
  }

  /** No part under the hash is deleted. */
  ghost predicate Spares(events: seq<Event>, hash: string) {
    forall e | e in events && e.DeleteEvent? :: e.key.hash != hash
  }

  lemma SparesJoin(a: seq<Event>, b: seq<Event>, hash: string)
    requires Spares(a, hash) && Spares(b, hash)
    ensures Spares(a + b, hash)
  {
  }

  lemma {:induction false} FileSpares(f: Input, received: seq<Chunking.Message>, hash: string)
    requires ValidInput(f)
    ensures Spares(EventsOf(f, received), hash)
  {
    if received != [] { FileSpares(f, received[..|received| - 1], hash); }
  }

  lemma {:induction false} StoresSpare(how: Settings, targets: seq<Target>, hash: string)
    requires ValidSettingsFor(how)
    ensures Spares(EventsOfTargets(how, targets), hash)
  {
    if targets != [] {
      StoresSpare(how, targets[..|targets| - 1], hash);
      var t := targets[|targets| - 1];
      if t.kind.RegularFile? && t.opens { FileSpares(InputFor(how, t), t.received, hash); }
    }
  }

  lemma StepSpares(ws: seq<World>, run: seq<Turn>, i: nat, id: string, c: Chunk)
    requires Plays(ws, run) && i < |run| && ListedWith(ws[i], id, c)
    ensures Spares(run[i].events, c.hash)
  {
    var w, t := ws[i], run[i];
    assert StepAt(ws, run, i);
    if t.cmd.Store? { StoresSpare(t.how, t.targets, c.hash); }
    forall e | e in t.asked && e.DeleteEvent? ensures e.key.hash != c.hash {
      assert MayAsk(w.disk, t.cmd, e);
      ListedIsNoGarbage(w.disk, t.cmd.index, id, c);
    }
  }

  /**
   Garbage collection spares what is listed: in a run of orderly commands, no part of a chunk of a snapshot is
   deleted from when it is saved until it is last listed.
   */
  lemma {:induction false} ListedIsSpared(ws: seq<World>, run: seq<Turn>, k: nat, l: nat, id: string, c: Chunk)
    requires Plays(ws, run) && AllOrderly(ws, run) && Ready(ws[0]) && k <= l <= |run|
    requires id in ws[k].disk.snapshots && ChunkOf(ws[k].disk.snapshots[id], c) && Listed(ws[l].disk, id)
    ensures Spares(EventsBetween(run, k, l), c.hash)
  {
    if k < l {
      ListedThen(ws, run, k, l, id, c);
      ListedIsSpared(ws, run, k, l - 1, id, c);
      StepSpares(ws, run, l - 1, id, c);
      SparesJoin(EventsBetween(run, k, l - 1), run[l - 1].events, c.hash);
    }
  }

  /* ---- Other stores bring the same parts ---- */

  /** The turn uses this library and key, and part counts that do not clash with these. */
  ghost predicate SameSettings(t: Turn, how: Settings) {
    t.cmd.Store? ==> t.how.ctx == how.ctx && SameCounts(how.opts, t.how.opts)
  }

  ghost predicate SameRepository(run: seq<Turn>, how: Settings) { forall t | t in run :: SameSettings(t, how) }

  /** The encoded forms of everything that the turns up to `l` store. */
  ghost function EncodingsUpTo(run: seq<Turn>, l: nat): set<Bytes>
    requires l <= |run|
  {
    if l == 0 then {} else EncodingsUpTo(run, l - 1) + EncodingsOfTurn(run[l - 1])
  }

  ghost function EncodingsOfTurn(t: Turn): set<Bytes> {
    if t.cmd.Store? && ValidSettingsFor(t.how) then EncodingsOfAll(t.how, t.targets) else {}
  }

  /** No two of all the byte strings that the run stores have the same hash. */
  ghost predicate NoCollisions(run: seq<Turn>, lib: Library) { CollisionFree(lib, EncodingsUpTo(run, |run|)) }

  lemma {:induction false} EncodingsOfOneTurn(run: seq<Turn>, k: nat, l: nat)
    requires k < l <= |run|
    ensures EncodingsOfTurn(run[k]) <= EncodingsUpTo(run, l)
  {
    if k < l - 1 { EncodingsOfOneTurn(run, k, l - 1); }
  }

  lemma AskedConsistent(w: World, t: Turn, key: PartKey, data: Bytes)
    requires Possible(w, t)
    ensures AllConsistent(t.asked, key, data)
  {
    forall e | e in t.asked ensures Consistent(e, key, data) { assert MayAsk(w.disk, t.cmd, e); }
  }

  lemma StepConsistent(ws: seq<World>, run: seq<Turn>, i: nat, f: Input, m: Chunking.Message, key: PartKey)
    requires Plays(ws, run) && i < |run| && ValidInput(f) && Carries(ChunkFor(f, m), key)
    requires SameSettings(run[i], Settings(f.ctx, f.opts))
    requires CollisionFree(f.ctx.lib, Encodings(f) + EncodingsOfTurn(run[i]))
    ensures AllConsistent(run[i].events, key, ChunkFor(f, m).value.1[key.part])
  {
    var t := run[i];
    assert StepAt(ws, run, i);
    AskedConsistent(ws[i], t, key, ChunkFor(f, m).value.1[key.part]);
    if t.cmd.Store? { TargetsInnocent(f, m, t.how, t.targets, key); }
  }

  lemma ConsistentJoin(a: seq<Event>, b: seq<Event>, key: PartKey, data: Bytes)
    requires AllConsistent(a, key, data) && AllConsistent(b, key, data)
    ensures AllConsistent(a + b, key, data)
  {
  }

  lemma {:induction false} ConsistentBetween(run: seq<Turn>, k: nat, l: nat, key: PartKey, data: Bytes)
    requires k <= l <= |run| && forall i | k <= i < l :: AllConsistent(run[i].events, key, data)
    ensures AllConsistent(EventsBetween(run, k, l), key, data)
    decreases l
  {
    if k < l {
      ConsistentBetween(run, k, l - 1, key, data);
      ConsistentJoin(EventsBetween(run, k, l - 1), run[l - 1].events, key, data);
    }
  }

  /** Whatever the turns store under the name of a part of the file is that part. */
  lemma TurnsConsistent(
      ws: seq<World>, run: seq<Turn>, k: nat, l: nat, f: Input, m: Chunking.Message, key: PartKey)
    requires Plays(ws, run) && k <= l <= |run| && ValidInput(f) && Carries(ChunkFor(f, m), key)
    requires SameRepository(run, Settings(f.ctx, f.opts))
    requires CollisionFree(f.ctx.lib, EncodingsUpTo(run, |run|)) && Encodings(f) <= EncodingsUpTo(run, |run|)
    ensures AllConsistent(EventsBetween(run, k, l), key, ChunkFor(f, m).value.1[key.part])
  {
    var data := ChunkFor(f, m).value.1[key.part];
    forall i | k <= i < l ensures AllConsistent(run[i].events, key, data) {
      assert run[i] in run;
      EncodingsOfOneTurn(run, i, |run|);
      StepConsistent(ws, run, i, f, m, key);
    }
    ConsistentBetween(run, k, l, key, data);
  }

  /* ---- A stored file stays ---- */

  /** No later target that is stored has the path of target `i`. */
  predicate LastOfPath(targets: seq<Target>, i: nat)
    requires i < |targets|
  {
    forall j | i < j < |targets| && !Skipped(targets[j]) :: targets[j].path != targets[i].path
  }

  lemma {:induction false} ArchiveOfPath(
      how: Settings, targets: seq<Target>, i: nat, s: Filing, archives: map<string, Archive>)
    requires ValidSettingsFor(how) && |s.backends| > 0 && i < |targets| && LastOfPath(targets, i)
    requires targets[i].kind.RegularFile? && targets[i].opens
    ensures var all, path := WithArchives(archives, Filed(how, targets, s).archives), targets[i].path;
            path in all && all[path] == ArchiveAt(how, targets, i, s)
  {
    var n := |targets| - 1;
    var front, t := targets[..n], targets[n];
    var before, now := Filed(how, front, s).archives, Filed(how, targets, s).archives;
    if i < n {
      ArchiveOfPath(how, front, i, s, archives);
      assert front[..i] == targets[..i];
    }
    if now != before { assert now[..|now| - 1] == before; }
  }

  /** The turn stores the file that is its target `i`, dropping none of its chunks, and saves the snapshot. */
  ghost predicate StoresFile(w: World, t: Turn, i: nat, delivery: seq<Chunking.Action>) {
    && |w.backends| > 0 && t.cmd.Store? && t.cmd.w.done > 0 && i < |t.targets| && LastOfPath(t.targets, i)
    && RoundTrips(InputFor(t.how, t.targets[i])) && ValidSettingsFor(t.how)
    && StoredWhole(t.how, t.targets, i, Filing(w.backends, 0, []), delivery)
  }

  /** The archive of file `i`. */
  function ArchiveOf(w: World, t: Turn, i: nat): Archive
    requires |w.backends| > 0 && i < |t.targets| && ValidSettingsFor(t.how)
    requires t.targets[i].kind.RegularFile? && t.targets[i].opens
  {
    ArchiveAt(t.how, t.targets, i, Filing(w.backends, 0, []))
  }

  predicate HasArchive(snapshots: map<string, Snapshot>, id: string, path: string, arc: Archive) {
    id in snapshots && path in snapshots[id].archives && snapshots[id].archives[path] == arc
  }

  /** The snapshot is saved with the archive of its file `i`. */
  lemma FileIsSaved(ws: seq<World>, run: seq<Turn>, k: nat, i: nat, delivery: seq<Chunking.Action>)
    requires Plays(ws, run) && AllOrderly(ws, run) && k < |run| && StoresFile(ws[k], run[k], i, delivery)
    ensures HasArchive(
              ws[k + 1].disk.snapshots, run[k].cmd.id, run[k].targets[i].path, ArchiveOf(ws[k], run[k], i))
    ensures PartCounts(|ws[k].backends|, run[k].how.opts.parityParts)
         == Some((run[k].how.opts.dataParts, run[k].how.opts.parityParts))
  {
    var w, t := ws[k], run[k];
    assert StepAt(ws, run, k);
    var inherited := if t.cmd.base.Some? then w.disk.snapshots[t.cmd.base.value].archives else map[];
    ArchiveOfPath(t.how, t.targets, i, Filing(w.backends, 0, []), inherited);
  }

  /** A chunk of a file that was stored whole is a chunk of its archive. */
  lemma FileChunk(w: World, t: Turn, i: nat, delivery: seq<Chunking.Action>, m: Chunking.Message)
    requires StoresFile(w, t, i, delivery)
    requires m in t.targets[i].received && ChunkFor(InputFor(t.how, t.targets[i]), m).Some?
    ensures ChunkFor(InputFor(t.how, t.targets[i]), m).value.0 in ArchiveOf(w, t, i).chunks
  {
    var target, f := t.targets[i], InputFor(t.how, t.targets[i]);
    var before := Filed(t.how, t.targets[..i], Filing(w.backends, 0, []));
    AddedChunks(f, target.received, before.backends, before.last);
    var j :| 0 <= j < |target.received| && target.received[j] == m;
    assert MadeFor(f, m, Added(f, target.received, Begin(before.backends, before.last)).chunks[j]);
  }

  lemma AskedInnocent(ws: seq<World>, run: seq<Turn>, k: nat, key: PartKey, data: Bytes)
    requires Plays(ws, run) && k < |run| && !run[k].cmd.Pack?
    ensures AllInnocent(run[k].asked, key, data)
  {
    assert StepAt(ws, run, k);
    forall e | e in run[k].asked ensures Innocent(e, key, data) { assert MayAsk(ws[k].disk, run[k].cmd, e); }
  }

  lemma InnocentJoin(a: seq<Event>, b: seq<Event>, key: PartKey, data: Bytes)
    requires AllInnocent(a, key, data) && AllInnocent(b, key, data)
    ensures AllInnocent(a + b, key, data)
  {
  }

  lemma SparedIsInnocent(events: seq<Event>, key: PartKey, data: Bytes)
    requires AllConsistent(events, key, data) && Spares(events, key.hash)
    ensures AllInnocent(events, key, data)
  {
    forall e | e in events ensures Innocent(e, key, data) { assert Consistent(e, key, data); }
  }

  /** What happens after the files of turn `k` have been stored. */
  function LaterEvents(run: seq<Turn>, k: nat): seq<Event>
    requires k < |run|
  {
    run[k].asked + EventsBetween(run, k + 1, |run|)
  }

  /** As long as the snapshot of turn `k` is listed, no part of its files is deleted or replaced. */
  lemma PartUndisturbed(
      ws: seq<World>, run: seq<Turn>, k: nat, i: nat, delivery: seq<Chunking.Action>, m: Chunking.Message, key: PartKey)
    requires Plays(ws, run) && AllOrderly(ws, run) && Ready(ws[0])
    requires k < |run| && StoresFile(ws[k], run[k], i, delivery) && Listed(ws[|run|].disk, run[k].cmd.id)
    requires SameRepository(run, run[k].how) && NoCollisions(run, run[k].how.ctx.lib)
    requires m in run[k].targets[i].received && Carries(ChunkFor(InputFor(run[k].how, run[k].targets[i]), m), key)
    ensures var data := ChunkFor(InputFor(run[k].how, run[k].targets[i]), m).value.1[key.part];
            AllInnocent(LaterEvents(run, k), key, data)
  {
    var t, f := run[k], InputFor(run[k].how, run[k].targets[i]);
    var (c, parts) := ChunkFor(f, m).value;
    SavedChunk(ws, run, k, i, delivery, m);
    ListedIsSpared(ws, run, k + 1, |run|, t.cmd.id, c);
    EncodingsOfFile(run, k, i);
    TurnsConsistent(ws, run, k + 1, |run|, f, m, key);
    SparedIsInnocent(EventsBetween(run, k + 1, |run|), key, parts[key.part]);
    AskedInnocent(ws, run, k, key, parts[key.part]);
    InnocentJoin(t.asked, EventsBetween(run, k + 1, |run|), key, parts[key.part]);
  }

  lemma SavedChunk(ws: seq<World>, run: seq<Turn>, k: nat, i: nat, delivery: seq<Chunking.Action>, m: Chunking.Message)
    requires Plays(ws, run) && AllOrderly(ws, run) && k < |run| && StoresFile(ws[k], run[k], i, delivery)
    requires m in run[k].targets[i].received && ChunkFor(InputFor(run[k].how, run[k].targets[i]), m).Some?
    ensures var snapshots, id := ws[k + 1].disk.snapshots, run[k].cmd.id;
            id in snapshots && ChunkOf(snapshots[id], ChunkFor(InputFor(run[k].how, run[k].targets[i]), m).value.0)
  {
    FileIsSaved(ws, run, k, i, delivery);
    FileChunk(ws[k], run[k], i, delivery, m);
  }

  lemma EncodingsOfFile(run: seq<Turn>, k: nat, i: nat)
    requires k < |run| && run[k].cmd.Store? && i < |run[k].targets| && ValidSettingsFor(run[k].how)
    ensures Encodings(InputFor(run[k].how, run[k].targets[i])) <= EncodingsUpTo(run, |run|)
    ensures EncodingsOfAll(run[k].how, run[k].targets) <= EncodingsUpTo(run, |run|)
  {
    EncodingsOfOne(run[k].how, run[k].targets, i);
    EncodingsOfOneTurn(run, k, |run|);
  }

  /** Where the backends are after the files of a turn. */
  lemma AfterFiles(w: World, t: Turn, more: seq<Event>)
    requires Possible(w, t) && t.cmd.Store?
    ensures var all := Filed(t.how, t.targets, Filing(w.backends, 0, []));
            After(Played(w, t).backends, Played(w, t).last, more) == After(all.backends, all.last, t.asked + more)
  {
    FiledIsEvents(t.how, t.targets, Filing(w.backends, 0, []));
    var start := [StartEvent];
    assert start[..0] == [] && After(w.backends, w.last, start) == (w.backends, 0);
    AfterCut(w.backends, w.last, start, EventsOfTargets(t.how, t.targets), t.asked, more);
  }

  lemma EndAfterFiles(ws: seq<World>, run: seq<Turn>, k: nat)
    requires Plays(ws, run) && k < |run| && run[k].cmd.Store? && |ws[k].backends| > 0 && ValidSettingsFor(run[k].how)
    ensures var all := Filed(run[k].how, run[k].targets, Filing(ws[k].backends, 0, []));
            ws[|run|].backends == After(all.backends, all.last, LaterEvents(run, k)).0
  {
    assert StepAt(ws, run, k);
    BackendSide(ws, run, k + 1, |run|);
    AfterFiles(ws[k], run[k], EventsBetween(run, k + 1, |run|));
  }

  /* ---- The promise ---- */

  /** Every part of the file is served rightly or not at all, and the loss keeps the remaining copies. */
  ghost predicate FileServed(
      f: Input, received: seq<Chunking.Message>, end: seq<Backend>, bs': seq<Backend>, lost: set<nat>)
    requires ValidInput(f)
  {
    forall m, key | m in received && Carries(ChunkFor(f, m), key) ::
      PartServedNow(end, bs', lost, key, ChunkFor(f, m).value.1[key.part])
  }

  predicate PartServedNow(end: seq<Backend>, bs': seq<Backend>, lost: set<nat>, key: PartKey, data: Bytes) {
    ServedRight(end, lost, key, data) && KeptOn(end, bs', lost, key)
  }

  /** As long as the snapshot is listed, its file stands. */
  lemma FileStillStands(
      ws: seq<World>, run: seq<Turn>, k: nat, i: nat, delivery: seq<Chunking.Action>, bs': seq<Backend>, lost: set<nat>)
    requires Plays(ws, run) && AllOrderly(ws, run) && Ready(ws[0])
    requires k < |run| && StoresFile(ws[k], run[k], i, delivery) && Listed(ws[|run|].disk, run[k].cmd.id)
    requires SameRepository(run, run[k].how) && NoCollisions(run, run[k].how.ctx.lib)
    requires FileServed(
               InputFor(run[k].how, run[k].targets[i]), run[k].targets[i].received, ws[|run|].backends, bs', lost)
    ensures FileStands(
              InputFor(run[k].how, run[k].targets[i]), run[k].targets[i].received, LaterEvents(run, k),
              ws[|run|].backends, bs', lost)
  {
    var f := InputFor(run[k].how, run[k].targets[i]);
    forall m, key | m in run[k].targets[i].received && Carries(ChunkFor(f, m), key)
      ensures PartStands(
                key, ChunkFor(f, m).value.1[key.part], LaterEvents(run, k), ws[|run|].backends, bs', lost)
    {
      PartUndisturbed(ws, run, k, i, delivery, m, key);
      assert PartServedNow(ws[|run|].backends, bs', lost, key, ChunkFor(f, m).value.1[key.part]);
    }
  }

  /** The archive of the file, as it is found in the end. */
  lemma SavedInTheEnd(ws: seq<World>, run: seq<Turn>, k: nat, i: nat, delivery: seq<Chunking.Action>)
    requires Plays(ws, run) && AllOrderly(ws, run) && k < |run| && StoresFile(ws[k], run[k], i, delivery)
    ensures HasArchive(ws[|run|].disk.snapshots, run[k].cmd.id, run[k].targets[i].path, ArchiveOf(ws[k], run[k], i))
    ensures PartCounts(|ws[k].backends|, run[k].how.opts.parityParts)
         == Some((run[k].how.opts.dataParts, run[k].how.opts.parityParts))
  {
    FileIsSaved(ws, run, k, i, delivery);
    SavedStays(ws, run, k + 1, |run|, run[k].cmd.id);
  }

  /**
   The promise: in any run of orderly commands, wherever they stop, if some copy of the repository lists a snapshot in
   the end, then after any tolerated loss of backends each of its files that was stored without dropping a chunk
   restores to exactly its bytes, as long as none of its parts is served torn.
   */
  lemma ListedSnapshotRestores(
      ws: seq<World>, run: seq<Turn>, k: nat, i: nat, delivery: seq<Chunking.Action>, bs': seq<Backend>, lost: set<nat>)
    requires Plays(ws, run) && AllOrderly(ws, run) && Ready(ws[0])
    requires k < |run| && StoresFile(ws[k], run[k], i, delivery) && Listed(ws[|run|].disk, run[k].cmd.id)
    requires SameRepository(run, run[k].how) && NoCollisions(run, run[k].how.ctx.lib)
    requires Survived(ws[|run|].backends, bs', lost) && |lost| <= run[k].how.opts.parityParts
    requires FileServed(
               InputFor(run[k].how, run[k].targets[i]), run[k].targets[i].received, ws[|run|].backends, bs', lost)
    ensures var t, arc := run[k], ArchiveOf(ws[k], run[k], i);
            && HasArchive(ws[|run|].disk.snapshots, t.cmd.id, t.targets[i].path, arc)
            && Restored(t.how.ctx, arc, ContentsOf(bs'), 0) == Ok(Flatten(t.targets[i].pieces))
  {
    SavedInTheEnd(ws, run, k, i, delivery);
    EndAfterFiles(ws, run, k);
    EncodingsOfFile(run, k, i);
    FileStillStands(ws, run, k, i, delivery, bs', lost);
    SnapshotRoundTrip(
      run[k].how, run[k].targets, i, delivery, Filing(ws[k].backends, 0, []), LaterEvents(run, k), bs', lost);
  }

  /* ---- From a new repository ---- */

  predicate CompletedAt(ws: seq<World>, run: seq<Turn>, i: nat)
    requires i < |run| < |ws|
  {
    Completed(|ws[i].disk.media|, run[i].cmd)
  }

  /** Every command came to its end, or changed no copy of the repository; packs and reindexes may stop anywhere. */
  ghost predicate AllCompleted(ws: seq<World>, run: seq<Turn>)
    requires |ws| == |run| + 1
  {
    forall i: nat | i < |run| :: CompletedAt(ws, run, i)
  }

  predicate CrashSafeAt(ws: seq<World>, run: seq<Turn>, i: nat)
    requires i < |run| < |ws|
  {
    CrashSafe(|ws[i].disk.media|, run[i].cmd)
  }

  /** Stores may stop anywhere as well, if the index is never rebuilt. */
  ghost predicate AllCrashSafe(ws: seq<World>, run: seq<Turn>)
    requires |ws| == |run| + 1
  {
    forall i: nat | i < |run| :: CrashSafeAt(ws, run, i)
  }

  lemma {:induction false} CompletedUpTo(ws: seq<World>, run: seq<Turn>, k: nat)
    requires Plays(ws, run) && AllCompleted(ws, run) && Ready(ws[0]) && Agree(ws[0].disk) && k <= |run|
    ensures Ready(ws[k]) && Agree(ws[k].disk)
    decreases k
  {
    if k > 0 {
      CompletedUpTo(ws, run, k - 1);
      CompletedStep(ws, run, k - 1);
    }
  }

  lemma CompletedStep(ws: seq<World>, run: seq<Turn>, i: nat)
    requires Plays(ws, run) && AllCompleted(ws, run) && i < |run| && Ready(ws[i]) && Agree(ws[i].disk)
    ensures OrderlyAt(ws, run, i) && Ready(ws[i + 1]) && Agree(ws[i + 1].disk)
  {
    assert StepAt(ws, run, i) && CompletedAt(ws, run, i);
    CompletedIsOrderly(ws[i].disk, run[i].cmd);
    StepExact(ws[i].disk, run[i].cmd);
    CompletedAgrees(ws[i].disk, run[i].cmd);
  }

  lemma CompletedIsAllOrderly(ws: seq<World>, run: seq<Turn>)
    requires Plays(ws, run) && AllCompleted(ws, run) && Ready(ws[0]) && Agree(ws[0].disk)
    ensures AllOrderly(ws, run)
  {
    forall i: nat | i < |run| ensures OrderlyAt(ws, run, i) {
      CompletedUpTo(ws, run, i);
      CompletedStep(ws, run, i);
    }
  }

  lemma CrashSafeIsAllOrderly(ws: seq<World>, run: seq<Turn>)
    requires Plays(ws, run) && AllCrashSafe(ws, run)
    ensures AllOrderly(ws, run)
  {
    forall i: nat | i < |run| ensures OrderlyAt(ws, run, i) {
      assert StepAt(ws, run, i) && CrashSafeAt(ws, run, i);
      var d, cmd := ws[i].disk, run[i].cmd;
      if cmd.Store? {
        StoreAddsAll(d, cmd);
      } else if Removes(cmd) && cmd.w.done > 0 {
        CompleteLeavesNone(d, cmd);
      }
    }
  }

  /** A new repository on one backend that has no parts yet. */
  ghost predicate New(w: World) { w.disk == Initial() && |w.backends| == 1 && w.backends[0].parts == map[] }

  lemma NewIsReady(w: World, key: PartKey, data: Bytes)
    requires New(w)
    ensures Ready(w) && Agree(w.disk) && NoneTorn(w.backends, key, data)
  {
    InitialInvariant();
  }

  /** Storing a part of the file has never failed, whoever stored it; and the loss keeps the remaining copies. */
  ghost predicate NeverFailed(
      ws: seq<World>, run: seq<Turn>, f: Input, received: seq<Chunking.Message>, bs': seq<Backend>, lost: set<nat>)
    requires |ws| == |run| + 1 && |ws[0].backends| > 0 && ValidInput(f)
  {
    forall m, key | m in received && Carries(ChunkFor(f, m), key) :: PartNeverFailed(ws, run, key, bs', lost)
  }

  ghost predicate PartNeverFailed(ws: seq<World>, run: seq<Turn>, key: PartKey, bs': seq<Backend>, lost: set<nat>)
    requires |ws| == |run| + 1 && |ws[0].backends| > 0
  {
    && NoFailure(ws[0].backends, ws[0].last, EventsBetween(run, 0, |run|), key)
    && KeptOn(ws[|run|].backends, bs', lost, key)
  }

  lemma NeverFailedIsServed(
      ws: seq<World>, run: seq<Turn>, f: Input, m: Chunking.Message, key: PartKey, bs': seq<Backend>, lost: set<nat>)
    requires Plays(ws, run) && New(ws[0]) && ValidInput(f) && Carries(ChunkFor(f, m), key)
    requires PartNeverFailed(ws, run, key, bs', lost) && SameRepository(run, Settings(f.ctx, f.opts))
    requires CollisionFree(f.ctx.lib, EncodingsUpTo(run, |run|)) && Encodings(f) <= EncodingsUpTo(run, |run|)
    ensures PartServedNow(ws[|run|].backends, bs', lost, key, ChunkFor(f, m).value.1[key.part])
  {
    var data := ChunkFor(f, m).value.1[key.part];
    NewIsReady(ws[0], key, data);
    BackendSide(ws, run, 0, |run|);
    TurnsConsistent(ws, run, 0, |run|, f, m, key);
    NeverFailedIsRight(ws[0].backends, ws[0].last, EventsBetween(run, 0, |run|), lost, key, data);
  }

  /**
   The promise from the start: after any run of completed commands, or of commands with stores and packs that stop
   anywhere, from a new repository, in which parts may have been packed away and stored again, every file of every
   listed snapshot that was stored without dropping a chunk restores to exactly its bytes after any tolerated loss, if
   no store of one of its parts has ever failed.
   */
  lemma BackupRestores(
      ws: seq<World>, run: seq<Turn>, k: nat, i: nat, delivery: seq<Chunking.Action>, bs': seq<Backend>, lost: set<nat>)
    requires Plays(ws, run) && (AllCompleted(ws, run) || AllCrashSafe(ws, run)) && New(ws[0])
    requires k < |run| && StoresFile(ws[k], run[k], i, delivery) && Listed(ws[|run|].disk, run[k].cmd.id)
    requires SameRepository(run, run[k].how) && NoCollisions(run, run[k].how.ctx.lib)
    requires Survived(ws[|run|].backends, bs', lost) && |lost| <= run[k].how.opts.parityParts
    requires NeverFailed(ws, run, InputFor(run[k].how, run[k].targets[i]), run[k].targets[i].received, bs', lost)
    ensures var t, arc := run[k], ArchiveOf(ws[k], run[k], i);
            && HasArchive(ws[|run|].disk.snapshots, t.cmd.id, t.targets[i].path, arc)
            && Restored(t.how.ctx, arc, ContentsOf(bs'), 0) == Ok(Flatten(t.targets[i].pieces))
  {
    var f := InputFor(run[k].how, run[k].targets[i]);
    NewIsReady(ws[0], PartKey("", 0, 0), []);
    if AllCompleted(ws, run) { CompletedIsAllOrderly(ws, run); } else { CrashSafeIsAllOrderly(ws, run); }
    EncodingsOfFile(run, k, i);
    forall m, key | m in run[k].targets[i].received && Carries(ChunkFor(f, m), key)
      ensures PartServedNow(ws[|run|].backends, bs', lost, key, ChunkFor(f, m).value.1[key.part])
    {
      assert PartNeverFailed(ws, run, key, bs', lost);
      NeverFailedIsServed(ws, run, f, m, key, bs', lost);
    }
    ListedSnapshotRestores(ws, run, k, i, delivery, bs', lost);
  }

  /* ---- On healthy backends ---- */

  /** The turn stores the file that is its target `i`, all of whose pieces can be encoded. */
  ghost predicate StoresEncodable(w: World, t: Turn, i: nat, delivery: seq<Chunking.Action>) {
    && |w.backends| > 0 && t.cmd.Store? && t.cmd.w.done > 0 && i < |t.targets| && LastOfPath(t.targets, i)
    && ValidSettingsFor(t.how)
    && var target, f := t.targets[i], InputFor(t.how, t.targets[i]);
       && RoundTrips(f) && target.kind.RegularFile? && target.opens
       && DeliveredBy(f, delivery, target.received) && EarlyLosses(f, target.received) == 0
  }

  lemma AllEventsBringHealth(run: seq<Turn>, k: nat, l: nat)
    requires k <= l <= |run| && AllBringHealth(EventsBetween(run, 0, |run|))
    ensures AllBringHealth(EventsBetween(run, k, l))
  {
    EventsWithin(run, k, l, |run|);
    assert forall e :: e in EventsBetween(run, k, l) ==> e in EventsBetween(run, 0, |run|);
  }

  lemma {:induction false} EventsWithin(run: seq<Turn>, k: nat, l: nat, n: nat)
    requires k <= l <= n <= |run|
    ensures forall e | e in EventsBetween(run, k, l) :: e in EventsBetween(run, 0, n)
    decreases n
  {
    if l < n {
      EventsWithin(run, k, l, n - 1);
    } else if k < l {
      EventsWithin(run, k, l - 1, n - 1);
    }
  }

  lemma HealthyAt(ws: seq<World>, run: seq<Turn>, k: nat)
    requires Plays(ws, run) && k <= |run| && |ws[0].backends| > 0 && Resilience.AllHealthy(ws[0].backends)
    requires AllBringHealth(EventsBetween(run, 0, |run|))
    ensures Resilience.AllHealthy(ws[k].backends)
  {
    BackendSide(ws, run, 0, k);
    AllEventsBringHealth(run, 0, k);
    AfterHealthy(ws[0].backends, ws[0].last, EventsBetween(run, 0, k));
  }

  lemma {:induction false} FileBringsNone(f: Input, received: seq<Chunking.Message>)
    requires ValidInput(f)
    ensures AllBringHealth(EventsOf(f, received))
  {
    if received != [] { FileBringsNone(f, received[..|received| - 1]); }
  }

  lemma {:induction false} StoresBringNone(how: Settings, targets: seq<Target>)
    requires ValidSettingsFor(how)
    ensures AllBringHealth(EventsOfTargets(how, targets))
  {
    if targets != [] {
      StoresBringNone(how, targets[..|targets| - 1]);
      var t := targets[|targets| - 1];
      if t.kind.RegularFile? && t.opens { FileBringsNone(InputFor(how, t), t.received); }
    }
  }

  /** On healthy backends a file that can be encoded is stored whole. */
  lemma HealthyStoresWhole(w: World, t: Turn, i: nat, delivery: seq<Chunking.Action>)
    requires StoresEncodable(w, t, i, delivery) && Resilience.AllHealthy(w.backends)
    ensures StoresFile(w, t, i, delivery)
  {
    var start, front, f := Filing(w.backends, 0, []), t.targets[..i], InputFor(t.how, t.targets[i]);
    var before := Filed(t.how, front, start);
    FiledIsEvents(t.how, front, start);
    StoresBringNone(t.how, front);
    AfterHealthy(w.backends, 0, EventsOfTargets(t.how, front));
    HealthyDropsEarlyLosses(f, t.targets[i].received, Begin(before.backends, before.last));
  }

  /** The loss keeps the remaining copies of the file's parts. */
  ghost predicate FileKept(
      f: Input, received: seq<Chunking.Message>, end: seq<Backend>, bs': seq<Backend>, lost: set<nat>)
    requires ValidInput(f)
  {
    forall m, key | m in received && Carries(ChunkFor(f, m), key) :: KeptOn(end, bs', lost, key)
  }

  /**
   The promise without conditions on what has happened: on backends that may fail twice in a row all the time, but
   not three times, every file of every listed snapshot that could be opened and encoded restores to exactly its bytes,
   after every run of completed commands, or of commands with stores and packs that stop anywhere, from a new
   repository, and after any tolerated loss.
   */
  lemma HealthyBackupRestores(
      ws: seq<World>, run: seq<Turn>, k: nat, i: nat, delivery: seq<Chunking.Action>, bs': seq<Backend>, lost: set<nat>)
    requires Plays(ws, run) && (AllCompleted(ws, run) || AllCrashSafe(ws, run)) && New(ws[0])
    requires Resilience.AllHealthy(ws[0].backends) && AllBringHealth(EventsBetween(run, 0, |run|))
    requires k < |run| && StoresEncodable(ws[k], run[k], i, delivery) && Listed(ws[|run|].disk, run[k].cmd.id)
    requires SameRepository(run, run[k].how) && NoCollisions(run, run[k].how.ctx.lib)
    requires Survived(ws[|run|].backends, bs', lost) && |lost| <= run[k].how.opts.parityParts
    requires FileKept(
               InputFor(run[k].how, run[k].targets[i]), run[k].targets[i].received, ws[|run|].backends, bs', lost)
    ensures StoresFile(ws[k], run[k], i, delivery)
    ensures var t, arc := run[k], ArchiveOf(ws[k], run[k], i);
            && HasArchive(ws[|run|].disk.snapshots, t.cmd.id, t.targets[i].path, arc)
            && Restored(t.how.ctx, arc, ContentsOf(bs'), 0) == Ok(Flatten(t.targets[i].pieces))
  {
    var f := InputFor(run[k].how, run[k].targets[i]);
    HealthyAt(ws, run, k);
    HealthyStoresWhole(ws[k], run[k], i, delivery);
    forall m, key | m in run[k].targets[i].received && Carries(ChunkFor(f, m), key)
      ensures PartNeverFailed(ws, run, key, bs', lost)
    {
      HealthyNeverFails(ws[0].backends, ws[0].last, EventsBetween(run, 0, |run|), key);
      assert KeptOn(ws[|run|].backends, bs', lost, key);
    }
    BackupRestores(ws, run, k, i, delivery, bs', lost);
  }
}
