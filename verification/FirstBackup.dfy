/**
 A first backup: on any healthy empty backend there is a run that sets up a repository, adds a volume and stores a file
 in any pieces that can be encoded; it meets everything that the promise over whole runs asks for.
 */
module FirstBackup {
  import opened Basics
  import opened Libraries
  import opened Backends
  import opened Archives
  import opened ChunkIndexing
  import opened Reindexing
  import opened Repository
  import opened Collecting
  import opened Decoding
  import opened Enduring
  import opened Storing
  import opened Surviving
  import opened RoundTripping
  import opened Linking
  import opened Hazards
  import opened Safekeeping
  import Chunking
  import Resilience

  /** A command that is no store and asks the backends for nothing. */
  lemma QuietTurn(w: World, cmd: Command, how: Settings) returns (t: Turn)
    requires Coherent(w) && !cmd.Store? && Enabled(w.disk, cmd)
    requires Next(w.disk, cmd).parts == w.disk.parts && |Next(w.disk, cmd).media| == |w.disk.media|
    ensures t.cmd == cmd && t.how == how && t.events == [StartEvent]
    ensures Possible(w, t) && Played(w, t) == World(Next(w.disk, cmd), w.backends, 0)
  {
    var start := [StartEvent];
    assert start + [] + [] == start && start[..0] == [];
    t := Turn(cmd, how, [], [], start);
    assert After(w.backends, w.last, start) == (w.backends, 0);
  }

  lemma EmptyIsCoherent(be: Backend)
    requires be.parts == map[]
    ensures Coherent(World(Initial(), [be], 0))
  {
    forall key ensures Resilience.Copies([be], key) == 0 { SumZero(Resilience.Holds(key), [be]); }
  }

  /** All messages of a file that can be read are jobs for its pieces. */
  lemma AllJobs(f: Input, run: seq<Chunking.Action>, received: seq<Chunking.Message>)
    requires DeliveredBy(f, run, received)
    ensures forall m | m in received :: m.Job? && m.num < |f.pieces|
  {
    var src := Chunking.Source(|f.pieces|, false);
    Chunking.ChannelSafety(src, run);
    forall m | m in received ensures m.Job? && m.num < |f.pieces| {
      assert multiset(received)[m] == Chunking.Due(src, m);
    }
  }

  lemma {:induction false} NoEarlyLoss(f: Input, received: seq<Chunking.Message>)
    requires ValidInput(f) && forall m | m in received :: ChunkFor(f, m).Some?
    ensures EarlyLosses(f, received) == 0
  {
    if received != [] {
      var front, m := received[..|received| - 1], received[|received| - 1];
      assert forall x :: x in front ==> x in received;
      NoEarlyLoss(f, front);
      assert m in received;
    }
  }

  /** Settings for one backend, and a file whose pieces they can encode. */
  ghost predicate CanStore(how: Settings, pieces: seq<Bytes>) {
    && ValidSettingsFor(how) && how.opts.dataParts == 1 && how.opts.parityParts == 0
    && RoundTrips(Input(how.ctx, how.opts, pieces))
    && (forall p | p in pieces :: Encoded(how.ctx, how.opts.compress, how.opts.encrypt, p).Ok?)
    && CollisionFree(how.ctx.lib, Encodings(Input(how.ctx, how.opts, pieces)))
  }

  /** The file as it arrives in some interleaving. */
  lemma SomeTarget(how: Settings, pieces: seq<Bytes>) returns (t: Target, delivery: seq<Chunking.Action>)
    requires CanStore(how, pieces)
    ensures t.path == "p" && t.kind.RegularFile? && t.opens && t.pieces == pieces
    ensures DeliveredBy(InputFor(how, t), delivery, t.received) && EarlyLosses(InputFor(how, t), t.received) == 0
  {
    var src := Chunking.Source(|pieces|, false);
    assert Chunking.Execute(src, []).Some?;
    delivery := Chunking.EveryRunCanEnd(src, []);
    assert [] + delivery == delivery;
    var received := Chunking.Execute(src, delivery).value.received;
    t := Target("p", RegularFile, 0, true, pieces, received);
    var f := InputFor(how, t);
    AllJobs(f, delivery, received);
    forall m | m in received ensures ChunkFor(f, m).Some? { assert pieces[m.num] in pieces; }
    NoEarlyLoss(f, received);
  }

  lemma NothingListed()
    ensures Fresh(WithVolume(), "s")
  {
    assert Listings([Volume("v", [])], "s") == 0;
    forall i: nat ensures !ListedAt(WithVolume().media, i, "s") { }
  }

  /** A complete store into the new volume lists its snapshot. */
  lemma StoreLists(cmd: Command)
    requires cmd.Store? && cmd.from == 0 && cmd.index == 0 && cmd.pos == 0 && cmd.base.None? && cmd.id == "s"
    requires cmd.w == Writes(3, false) && Enabled(WithVolume(), cmd)
    ensures Listed(Next(WithVolume(), cmd), "s")
  {
    FirstListed();
    OneStoredListings();
    assert ListedAt(Next(WithVolume(), cmd).media, 0, "s");
  }

  /** Storing the targets into a new volume. */
  lemma FirstStoreTurn(w: World, how: Settings, t: Target) returns (turn: Turn)
    requires w.disk == WithVolume() && Coherent(w) && ValidSettingsFor(how) && ParityLaw(how.ctx, how.opts)
    requires PartCounts(1, how.opts.parityParts) == Some((how.opts.dataParts, how.opts.parityParts))
    ensures turn.cmd.Store? && turn.cmd.base.None? && turn.cmd.id == "s" && turn.cmd.w == Writes(3, false)
    ensures turn.how == how && turn.targets == [t] && turn.events == [StartEvent] + EventsOfTargets(how, [t])
    ensures Possible(w, turn) && Listed(Played(w, turn).disk, "s")
  {
    var end := Filed(how, [t], Filing(w.backends, 0, []));
    var cmd := Store(0, 0, 0, None, "s", end.archives, KeysOn(end.backends), Writes(3, false));
    ArchivesAreStored(how, [t], w.backends, 0, w.disk.parts);
    NothingListed();
    StoreIsTurn(w, cmd, how, [t], end.backends, end.last);
    StoreLists(cmd);
    turn := Turn(cmd, how, [t], [], EventsOfTurn(cmd, how, [t], []));
    assert turn.events == [StartEvent] + EventsOfTargets(how, [t]);
  }

  /** The run of three turns. */
  lemma ThreeTurns(w0: World, a: Turn, w1: World, b: Turn, w2: World, c: Turn, w3: World)
    requires Possible(w0, a) && Played(w0, a) == w1 && Possible(w1, b) && Played(w1, b) == w2
    requires Possible(w2, c) && Played(w2, c) == w3
    requires a.cmd == REINDEX && b.cmd == VOLUME
    requires c.cmd.Store? && c.cmd.base.None? && c.cmd.w == Writes(3, false)
    requires |w0.disk.media| == |w1.disk.media| == |w2.disk.media| == 1
    ensures Plays([w0, w1, w2, w3], [a, b, c]) && AllCompleted([w0, w1, w2, w3], [a, b, c])
  {
    var ws, run := [w0, w1, w2, w3], [a, b, c];
    forall i: nat | i < |run| ensures StepAt(ws, run, i) && CompletedAt(ws, run, i) {
      assert i == 0 || i == 1 || i == 2;
    }
  }

  /** Only the last turn stores anything, and no turn attaches a backend. */
  lemma WhatTurnsAsk(run: seq<Turn>, how: Settings, t: Target)
    requires |run| == 3 && !run[0].cmd.Store? && !run[1].cmd.Store? && run[2].cmd.Store? && ValidSettingsFor(how)
    requires run[2].how == how && run[2].targets == [t]
    requires run[0].events == [StartEvent] && run[1].events == [StartEvent]
    requires run[2].events == [StartEvent] + EventsOfTargets(how, [t])
    ensures EncodingsUpTo(run, 3) == Encodings(InputFor(how, t))
    ensures AllBringHealth(EventsBetween(run, 0, 3))
  {
    assert EncodingsUpTo(run, 1) == EncodingsUpTo(run, 0) + EncodingsOfTurn(run[0]) == {};
    assert EncodingsUpTo(run, 2) == EncodingsUpTo(run, 1) + EncodingsOfTurn(run[1]) == {};
    assert [t][..0] == [] && EncodingsOfAll(how, []) == {};
    StoresBringNone(how, [t]);
    assert EventsBetween(run, 0, 1) == [StartEvent];
    assert EventsBetween(run, 0, 2) == [StartEvent, StartEvent];
    forall e | e in EventsBetween(run, 0, 3) ensures BringsHealth(e) {
      assert e == StartEvent || e in EventsOfTargets(how, [t]);
    }
  }

  lemma SetUp(how: Settings, be: Backend) returns (index: Turn, volume: Turn)
    requires be.parts == map[]
    ensures index.cmd == REINDEX && volume.cmd == VOLUME && index.how == how && volume.how == how
    ensures index.events == [StartEvent] && volume.events == [StartEvent]
    ensures var w0, w1, w2 := World(Initial(), [be], 0), World(Indexed(), [be], 0), World(WithVolume(), [be], 0);
            && Possible(w0, index) && Played(w0, index) == w1
            && Possible(w1, volume) && Played(w1, volume) == w2
  {
    EmptyIsCoherent(be);
    FirstIndex();
    index := QuietTurn(World(Initial(), [be], 0), REINDEX, how);
    FirstVolume();
    volume := QuietTurn(World(Indexed(), [be], 0), VOLUME, how);
  }

  /** The run: set up, add a volume, store one target. */
  lemma FirstRun(how: Settings, t: Target, be: Backend) returns (ws: seq<World>, run: seq<Turn>)
    requires ValidSettingsFor(how) && ParityLaw(how.ctx, how.opts) && be.parts == map[]
    requires PartCounts(1, how.opts.parityParts) == Some((how.opts.dataParts, how.opts.parityParts))
    ensures |run| == 3 && Plays(ws, run) && AllCompleted(ws, run) && New(ws[0])
    ensures ws[0].backends == [be] && ws[2].backends == [be]
    ensures run[2].cmd.Store? && run[2].cmd.w == Writes(3, false) && run[2].how == how && run[2].targets == [t]
    ensures Listed(ws[3].disk, run[2].cmd.id)
    ensures SameRepository(run, how) && EncodingsUpTo(run, 3) == Encodings(InputFor(how, t))
    ensures AllBringHealth(EventsBetween(run, 0, 3))
  {
    var index, volume := SetUp(how, be);
    var w2 := World(WithVolume(), [be], 0);
    var store := FirstStoreTurn(w2, how, t);
    var w0, w1, w3 := World(Initial(), [be], 0), World(Indexed(), [be], 0), Played(w2, store);
    ThreeTurns(w0, index, w1, volume, w2, store, w3);
    ws, run := [w0, w1, w2, w3], [index, volume, store];
    WhatTurnsAsk(run, how, t);
  }

  /**
   A first backup restores: the run exists for every file in pieces that can be encoded and every healthy backend that
   is empty, it ends with the snapshot listed, and its file restores to its bytes.
   */
  lemma FirstBackupRestores(how: Settings, pieces: seq<Bytes>, be: Backend)
    returns (ws: seq<World>, run: seq<Turn>, delivery: seq<Chunking.Action>)
    requires CanStore(how, pieces) && be.parts == map[] && Resilience.Healthy(be)
    ensures |run| == 3 && Plays(ws, run) && AllCompleted(ws, run) && New(ws[0]) && ws[0].backends == [be]
    ensures StoresFile(ws[2], run[2], 0, delivery) && run[2].targets[0].pieces == pieces
    ensures Listed(ws[3].disk, run[2].cmd.id)
    ensures Restored(how.ctx, ArchiveOf(ws[2], run[2], 0), ContentsOf(ws[3].backends), 0) == Ok(Flatten(pieces))
  {
    var t;
    t, delivery := SomeTarget(how, pieces);
    ws, run := FirstRun(how, t, be);
    HealthyAt(ws, run, 3);
    assert StoresEncodable(ws[2], run[2], 0, delivery);
    assert FileKept(InputFor(how, t), t.received, ws[3].backends, ws[3].backends, {});
    HealthyBackupRestores(ws, run, 2, 0, delivery, ws[3].backends, {});
  }
}
