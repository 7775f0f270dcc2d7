/**
 Storing a file: processChunk (chunk.go), the consumer loop of Snapshot.Add (snapshot.go), the tolerance arithmetic
 of the store command (cmd/knoxite/store.go), and what the loop leaves on the backends.
 */
module Storing {
  import opened Basics
  import opened Libraries
  import opened Codec
  import opened Erasure
  import opened Backends
  import opened Resilience
  import opened Archives
  import opened Decoding
  import Chunking

  datatype Options = Options(compress: nat, encrypt: nat, dataParts: nat, parityParts: nat)

  /** `store`: the tolerance must leave at least one backend; it splits the backends into data and parity. */
  function PartCounts(backends: nat, tolerance: nat): (r: Option<(nat, nat)>)
    ensures r.Some? <==> tolerance < backends
    ensures r.Some? ==> r.value.0 > 0 && r.value.1 == tolerance && r.value.0 + r.value.1 == backends
  {
    if backends - tolerance <= 0 then None else Some((backends - tolerance, tolerance))
  }

  /** A file in pieces, and how it is to be stored. */
  datatype Input = Input(ctx: Context, opts: Options, pieces: seq<Bytes>)

  ghost predicate ValidInput(f: Input) {
    CipherLaws(f.ctx.lib) && ValidCompression(f.opts.compress) && ValidEncryption(f.opts.encrypt)
  }

  /** processChunk for one job: the chunk's metadata and its parts; None is an error result. */
  function EncodedChunk(f: Input, data: Bytes, num: nat): Option<(Chunk, seq<Bytes>)>
    requires ValidInput(f)
  {
    var b := Encoded(f.ctx, f.opts.compress, f.opts.encrypt, data);
    if b.Err? then None
    else
      var hash, plainHash := f.ctx.lib.hash(b.value), f.ctx.lib.hash(data);
      var c := Chunk(f.opts.dataParts, f.opts.parityParts, |data|, |b.value|, plainHash, hash, num);
      if f.opts.parityParts > 0 then
        var pars := RedundantData(f.ctx.lib, b.value, f.opts.dataParts, f.opts.parityParts);
        if pars.None? then None else Some((c, pars.value))
      else Some((c.(dataParts := 1), [b.value]))
  }

  /** The chunk that a message brings; None if reading or encoding it has failed. */
  function ChunkFor(f: Input, m: Chunking.Message): Option<(Chunk, seq<Bytes>)>
    requires ValidInput(f)
  {
    if m.ReadError? || m.num >= |f.pieces| then None else EncodedChunk(f, f.pieces[m.num], m.num)
  }

  /**
   A message brings a chunk if and only if it is a job for a piece of the file, the compressor accepts the piece, and,
   with parity, the counts are right and there is something to split. Its parts are then the encoded piece itself, or
   its shards and their parity.
   */
  lemma ChunkExactly(f: Input, m: Chunking.Message, b: Bytes)
    requires ValidInput(f)
    ensures ChunkFor(f, m).Some? <==> BringsChunk(f, m)
    ensures BringsChunk(f, m) && EncodedAs(f.ctx, f.opts.compress, f.opts.encrypt, f.pieces[m.num], b) ==>
              var (c, parts) := ChunkFor(f, m).value;
              && c.num == m.num
              && parts == if f.opts.parityParts == 0 then [b]
                          else
                            var shards := Split(b, f.opts.dataParts).value;
                            shards + f.ctx.lib.parity(shards, f.opts.parityParts)
  {
    if m.Job? && m.num < |f.pieces| {
      var e := Encoded(f.ctx, f.opts.compress, f.opts.encrypt, f.pieces[m.num]);
      EncodedExact(f.ctx, f.opts.compress, f.opts.encrypt, f.pieces[m.num], b);
      if e.Ok? { EncodedExact(f.ctx, f.opts.compress, f.opts.encrypt, f.pieces[m.num], e.value); }
    }
  }

  ghost predicate BringsChunk(f: Input, m: Chunking.Message)
    requires ValidInput(f)
  {
    && m.Job? && m.num < |f.pieces|
    && exists b :: EncodedAs(f.ctx, f.opts.compress, f.opts.encrypt, f.pieces[m.num], b) && CanSplit(f.opts, b)
  }

  /** Nothing to split, or right counts and at least one byte. */
  predicate CanSplit(opts: Options, b: Bytes) {
    opts.parityParts > 0 ==> 0 < opts.dataParts && opts.dataParts + opts.parityParts <= 256 && b != []
  }

  /**
   What the consumer loop has built up. `dropped` counts the chunks that are not in the archive, `reported` those
   of them for which an error goes to the caller: after a worker's error the loop sends on the nil error of opening
   the file.
   */
  datatype Progress = Progress(
    backends: seq<Backend>,
    last: nat,
    chunks: seq<Chunk>,
    storageSize: nat,
    transferred: nat,
    dropped: nat,
    reported: nat)

  function Begin(bs: seq<Backend>, last: nat): Progress { Progress(bs, last, [], 0, 0, 0, 0) }

  /** The consumer's reaction to one message. */
  function AddedOne(f: Input, m: Chunking.Message, s: Progress): (r: Progress)
    requires ValidInput(f) && |s.backends| > 0
    ensures |r.backends| == |s.backends|
  {
    var result := ChunkFor(f, m);
    if result.None? then s.(dropped := s.dropped + 1)
    else
      var (c, parts) := result.value;
      var stored := StoreParts(s.backends, s.last, c.hash, c.dataParts, parts, 0, 0);
      var s' := s.(backends := stored.0, last := stored.1);
      if stored.2.None? then s'.(dropped := s.dropped + 1, reported := s.reported + 1)
      else
        s'.(chunks := s.chunks + [c],
            storageSize := s.storageSize + stored.2.value,
            transferred := s.transferred + c.originalSize)
  }

  function Added(f: Input, received: seq<Chunking.Message>, s: Progress): (r: Progress)
    requires ValidInput(f) && |s.backends| > 0
    ensures |r.backends| == |s.backends|
  {
    if received == [] then s
    else AddedOne(f, received[|received| - 1], Added(f, received[..|received| - 1], s))
  }

  /** The loop `for cd := range chunkchan` of Snapshot.Add, on the messages in the order they arrive. */
  method AddChunks(f: Input, received: seq<Chunking.Message>, mgr: BackendManager)
    returns (chunks: seq<Chunk>, storageSize: nat, transferred: nat, dropped: nat, reported: nat)
    requires ValidInput(f) && |mgr.backends| > 0
    modifies mgr
    ensures Progress(mgr.backends, mgr.lastUsedBackend, chunks, storageSize, transferred, dropped, reported)
         == Added(f, received, Begin(old(mgr.backends), old(mgr.lastUsedBackend)))
  {
    chunks, storageSize, transferred, dropped, reported := [], 0, 0, 0, 0;
    ghost var s0 := Begin(mgr.backends, mgr.lastUsedBackend);
    for i := 0 to |received|
      invariant |mgr.backends| > 0
      invariant Progress(mgr.backends, mgr.lastUsedBackend, chunks, storageSize, transferred, dropped, reported)
             == Added(f, received[..i], s0)
    {
      assert received[..i + 1][..i] == received[..i];
      var result := ChunkFor(f, received[i]);
      if result.None? {
        dropped := dropped + 1;
        continue;
      }
      var (chunk, parts) := result.value;
      var n := mgr.StoreChunk(chunk.hash, chunk.dataParts, parts);
      if n.None? {
        dropped, reported := dropped + 1, reported + 1;
        continue;
      }
      chunks := chunks + [chunk];
      storageSize := storageSize + n.value;
      transferred := transferred + chunk.originalSize;
    }
    assert received[..|received|] == received;
  }

  /** How many chunks were lost before they got to the backends. */
  function EarlyLosses(f: Input, received: seq<Chunking.Message>): nat
    requires ValidInput(f)
  {
    if received == [] then 0
    else
      var last := |received| - 1;
      EarlyLosses(f, received[..last]) + if ChunkFor(f, received[last]).None? then 1 else 0
  }

  /**
   Every message becomes a chunk of the archive or is dropped, and what the caller is told falls short of what was
   dropped by exactly the chunks that were lost before they got to the backends: a store that reports no error
   can have left chunks out.
   */
  lemma {:induction false} DroppedAndReported(f: Input, received: seq<Chunking.Message>, bs: seq<Backend>, last: nat)
    requires ValidInput(f) && |bs| > 0
    ensures var r := Added(f, received, Begin(bs, last));
            && |r.chunks| + r.dropped == |received|
            && r.dropped == r.reported + EarlyLosses(f, received)
  {
    if received != [] {
      DroppedAndReported(f, received[..|received| - 1], bs, last);
    }
  }

  function OriginalSize(): Chunk -> nat { (c: Chunk) => c.originalSize }

  /** The transferred size is that of the data of the chunks in the archive. */
  lemma {:induction false} AddedTransferred(f: Input, received: seq<Chunking.Message>, bs: seq<Backend>, last: nat)
    requires ValidInput(f) && |bs| > 0
    ensures var r := Added(f, received, Begin(bs, last)); r.transferred == Sum(OriginalSize(), r.chunks)
  {
    if received != [] {
      var front, m := received[..|received| - 1], received[|received| - 1];
      AddedTransferred(f, front, bs, last);
      var before, now := Added(f, front, Begin(bs, last)), Added(f, received, Begin(bs, last));
      if now.chunks != before.chunks { SumAppend(OriginalSize(), before.chunks, ChunkFor(f, m).value.0); }
    }
  }

  /** The largest part of each message's chunk that was not there yet, added up. */
  function LargestWritten(f: Input, received: seq<Chunking.Message>, s: Progress): nat
    requires ValidInput(f) && |s.backends| > 0
  {
    if received == [] then 0
    else
      var front, result := received[..|received| - 1], ChunkFor(f, received[|received| - 1]);
      var before := Added(f, front, s);
      LargestWritten(f, front, s)
      + if result.None? then 0
        else
          var (c, parts) := result.value;
          Largest(WrittenSizes(before.backends, before.last, c.hash, c.dataParts, parts, 0), 0)
  }

  /** On backends that do not fail the storage size is that. */
  lemma {:induction false} AddedStorageSize(f: Input, received: seq<Chunking.Message>, s: Progress)
    requires ValidInput(f) && |s.backends| > 0 && NoneFails(s.backends)
    ensures Added(f, received, s).storageSize == s.storageSize + LargestWritten(f, received, s)
    ensures NoneFails(Added(f, received, s).backends)
  {
    if received != [] {
      var front, m := received[..|received| - 1], received[|received| - 1];
      AddedStorageSize(f, front, s);
      var before := Added(f, front, s);
      if ChunkFor(f, m).Some? {
        var (c, parts) := ChunkFor(f, m).value;
        StoreReportsLargest(before.backends, before.last, c.hash, c.dataParts, parts, 0, 0);
        StoreNeverFails(before.backends, before.last, c.hash, c.dataParts, parts, 0, 0);
      }
    }
  }

  /** On healthy backends exactly those chunks are dropped that were lost before they got there. */
  lemma {:induction false} HealthyDropsEarlyLosses(f: Input, received: seq<Chunking.Message>, s: Progress)
    requires ValidInput(f) && |s.backends| > 0 && AllHealthy(s.backends)
    ensures Added(f, received, s).dropped == s.dropped + EarlyLosses(f, received)
    ensures AllHealthy(Added(f, received, s).backends)
  {
    if received != [] {
      var front, m := received[..|received| - 1], received[|received| - 1];
      HealthyDropsEarlyLosses(f, front, s);
      var before := Added(f, front, s);
      if ChunkFor(f, m).Some? {
        var (c, parts) := ChunkFor(f, m).value;
        HealthyStoreSucceeds(before.backends, before.last, c.hash, c.dataParts, parts, 0, 0);
      }
    }
  }

  /* ---- What is on the backends, whatever has failed ---- */

  /** The chunk is the one that processChunk made of the piece with its number. */
  ghost predicate TrueRecord(f: Input, c: Chunk)
    requires ValidInput(f)
  {
    && c.num < |f.pieces|
    && EncodedChunk(f, f.pieces[c.num], c.num).Some?
    && EncodedChunk(f, f.pieces[c.num], c.num).value.0 == c
  }

  lemma {:induction false} AddedTrue(f: Input, received: seq<Chunking.Message>, s: Progress)
    requires ValidInput(f) && |s.backends| > 0 && s.chunks == []
    ensures forall c | c in Added(f, received, s).chunks :: TrueRecord(f, c) && Chunking.Job(c.num) in received
  {
    if received != [] {
      var front, m := received[..|received| - 1], received[|received| - 1];
      assert received == front + [m];
      AddedTrue(f, front, s);
      assert forall x :: x in front ==> x in received;
    }
  }

  /** The record says of the piece with its number what readers and restores take from it. */
  ghost predicate Describes(f: Input, c: Chunk, b: Bytes)
    requires ValidInput(f)
  {
    && c.num < |f.pieces|
    && c.originalSize == |f.pieces[c.num]|
    && c.decryptedHash == f.ctx.lib.hash(f.pieces[c.num])
    && EncodedAs(f.ctx, f.opts.compress, f.opts.encrypt, f.pieces[c.num], b)
    && c.size == |b| && c.hash == f.ctx.lib.hash(b)
    && c.dataParts == (if f.opts.parityParts > 0 then f.opts.dataParts else 1)
    && c.parityParts == f.opts.parityParts
  }

  ghost predicate Described(f: Input, c: Chunk)
    requires ValidInput(f)
  {
    exists b :: Describes(f, c, b)
  }

  lemma TrueIsDescribed(f: Input, c: Chunk)
    requires ValidInput(f) && TrueRecord(f, c)
    ensures Described(f, c)
  {
    var b := Encoded(f.ctx, f.opts.compress, f.opts.encrypt, f.pieces[c.num]).value;
    EncodedExact(f.ctx, f.opts.compress, f.opts.encrypt, f.pieces[c.num], b);
    assert Describes(f, c, b);
  }

  /**
   The archive only ever holds records of pieces that were received, right in every field: sizes and checksums of the
   piece and of its encoded form, and the part counts.
   */
  lemma AddedRecords(f: Input, received: seq<Chunking.Message>, s: Progress)
    requires ValidInput(f) && |s.backends| > 0 && s.chunks == []
    ensures forall c | c in Added(f, received, s).chunks :: Described(f, c) && Chunking.Job(c.num) in received
  {
    AddedTrue(f, received, s);
    forall c | c in Added(f, received, s).chunks ensures Described(f, c) { TrueIsDescribed(f, c); }
  }

  ghost predicate AtMostOnce(received: seq<Chunking.Message>) {
    forall m :: multiset(received)[m] <= 1
  }

  lemma AtMostOnceFront(front: seq<Chunking.Message>, m: Chunking.Message)
    requires AtMostOnce(front + [m])
    ensures AtMostOnce(front) && m !in front
  {
    assert multiset(front + [m]) == multiset(front) + multiset{m};
    forall x ensures multiset(front)[x] <= 1 { assert multiset(front + [m])[x] <= 1; }
    assert multiset(front + [m])[m] <= 1;
  }

  lemma {:induction false} AddedDistinct(f: Input, received: seq<Chunking.Message>, s: Progress)
    requires ValidInput(f) && |s.backends| > 0 && s.chunks == [] && AtMostOnce(received)
    ensures DistinctNumbers(Added(f, received, s).chunks)
  {
    if received != [] {
      var front, m := received[..|received| - 1], received[|received| - 1];
      assert received == front + [m];
      AtMostOnceFront(front, m);
      AddedDistinct(f, front, s);
      AddedTrue(f, front, s);
    }
  }

  /** Part `p` of the chunk is on some backend. */
  ghost predicate OnSome(bs: seq<Backend>, key: PartKey) { exists b :: PartOn(bs, b, key) }

  ghost predicate PartsOnSome(bs: seq<Backend>, c: Chunk, parts: nat) {
    forall p: nat | p < parts :: OnSome(bs, PartOf(c, p))
  }

  lemma PartsStay(bs: seq<Backend>, bs': seq<Backend>, c: Chunk, parts: nat)
    requires PartsOnSome(bs, c, parts) && Grown(bs, bs')
    ensures PartsOnSome(bs', c, parts)
  {
    forall p: nat | p < parts ensures OnSome(bs', PartOf(c, p)) {
      assert OnSome(bs, PartOf(c, p));
      var b :| PartOn(bs, b, PartOf(c, p));
      assert PartOn(bs', b, PartOf(c, p));
    }
  }

  function PartsIn(f: Input, c: Chunk): nat
    requires ValidInput(f) && c.num < |f.pieces| && EncodedChunk(f, f.pieces[c.num], c.num).Some?
  {
    |EncodedChunk(f, f.pieces[c.num], c.num).value.1|
  }

  lemma OneMoreOnBackends(f: Input, m: Chunking.Message, s: Progress)
    requires ValidInput(f) && |s.backends| > 0
    ensures Grown(s.backends, AddedOne(f, m, s).backends)
    ensures var t := AddedOne(f, m, s);
            |t.chunks| > |s.chunks| ==>
              && t.chunks == s.chunks + [ChunkFor(f, m).value.0]
              && PartsOnSome(t.backends, ChunkFor(f, m).value.0, |ChunkFor(f, m).value.1|)
  {
    var result := ChunkFor(f, m);
    if result.Some? {
      var (c, parts) := result.value;
      var stored := StoreParts(s.backends, s.last, c.hash, c.dataParts, parts, 0, 0);
      StoreGrows(s.backends, s.last, c.hash, c.dataParts, parts, 0, 0);
      if stored.2.Some? {
        forall p: nat | p < |parts| ensures OnSome(stored.0, PartOf(c, p)) {
          StorePlaces(s.backends, s.last, c.hash, c.dataParts, parts, p);
        }
      }
    }
  }

  /**
   Whatever fails, and whatever was stored before: every part of every chunk that gets into the archive is on some
   backend, and no backend has lost a part.
   */
  lemma {:induction false} AddedOnBackends(f: Input, received: seq<Chunking.Message>, s: Progress)
    requires ValidInput(f) && |s.backends| > 0 && s.chunks == []
    ensures Grown(s.backends, Added(f, received, s).backends)
    ensures forall c | c in Added(f, received, s).chunks ::
              TrueRecord(f, c) && PartsOnSome(Added(f, received, s).backends, c, PartsIn(f, c))
  {
    AddedTrue(f, received, s);
    if received != [] {
      var front, m := received[..|received| - 1], received[|received| - 1];
      var before := Added(f, front, s);
      AddedTrue(f, front, s);
      AddedOnBackends(f, front, s);
      OneMoreOnBackends(f, m, before);
      forall c | c in Added(f, received, s).chunks
        ensures PartsOnSome(Added(f, received, s).backends, c, PartsIn(f, c))
      {
        if c in before.chunks { PartsStay(before.backends, Added(f, received, s).backends, c, PartsIn(f, c)); }
      }
    }
  }

  /* ---- Exactly what is on the backends, if nothing was dropped ---- */

  /** The round-robin position after the chunks of the messages have been stored. */
  function Position(f: Input, received: seq<Chunking.Message>, n: nat, last: nat): nat
    requires ValidInput(f)
  {
    if received == [] then last
    else
      var before := Position(f, received[..|received| - 1], n, last);
      var result := ChunkFor(f, received[|received| - 1]);
      if result.None? then before else Advance(before, n, |result.value.1|)
  }

  /** The chunk has a part with this key. */
  predicate Carries(result: Option<(Chunk, seq<Bytes>)>, key: PartKey) {
    result.Some? && result.value.0.hash == key.hash && result.value.0.dataParts == key.total
    && key.part < |result.value.1|
  }

  /** The backends on which the part is stored for one or more of the messages. */
  function Touched(f: Input, received: seq<Chunking.Message>, n: nat, last: nat, key: PartKey): set<nat>
    requires ValidInput(f)
  {
    if received == [] then {}
    else
      var front := received[..|received| - 1];
      Touched(f, front, n, last, key)
      + if Carries(ChunkFor(f, received[|received| - 1]), key)
        then {Place(Position(f, front, n, last), n, key.part)} else {}
  }

  /** Whatever message carries the part, it carries these bytes. */
  ghost predicate Carried(f: Input, received: seq<Chunking.Message>, key: PartKey, data: Bytes)
    requires ValidInput(f)
  {
    forall m | m in received && Carries(ChunkFor(f, m), key) :: ChunkFor(f, m).value.1[key.part] == data
  }

  /** One more chunk, successfully stored. */
  lemma OneMoreEffect(f: Input, m: Chunking.Message, s: Progress, b: nat, key: PartKey)
    requires ValidInput(f) && b < |s.backends| && AddedOne(f, m, s).dropped == s.dropped
    ensures ChunkFor(f, m).Some?
    ensures AddedOne(f, m, s).last == Advance(s.last, |s.backends|, |ChunkFor(f, m).value.1|)
    ensures CopyAt(AddedOne(f, m, s).backends[b], key)
         == if Carries(ChunkFor(f, m), key) && Place(s.last, |s.backends|, key.part) == b
            then Some(StoredOver(s.backends[b], key, ChunkFor(f, m).value.1[key.part]))
            else CopyAt(s.backends[b], key)
  {
    var (c, parts) := ChunkFor(f, m).value;
    StorePosition(s.backends, s.last, c.hash, c.dataParts, parts, 0, 0);
    StoreEffect(s.backends, s.last, c.hash, c.dataParts, parts, 0, 0, b, key);
  }

  /** Storing a part again where it was stored changes nothing. */
  lemma StoredTwice(be: Backend, be': Backend, key: PartKey, data: Bytes)
    requires CopyAt(be', key) == Some(StoredOver(be, key, data))
    ensures StoredOver(be', key, data) == StoredOver(be, key, data)
  {
  }

  /**
   A store without loss, on any backends: the position is the one that round robin gives, and a copy of a part is
   what StoreChunk leaves where the part went, and what was there elsewhere.
   */
  lemma {:induction false} AddedEffect(
      f: Input, received: seq<Chunking.Message>, bs: seq<Backend>, last: nat, b: nat, key: PartKey, data: Bytes)
    requires ValidInput(f) && b < |bs| && Carried(f, received, key, data)
    requires Added(f, received, Begin(bs, last)).dropped == 0
    ensures Added(f, received, Begin(bs, last)).last == Position(f, received, |bs|, last)
    ensures CopyAt(Added(f, received, Begin(bs, last)).backends[b], key)
         == if b in Touched(f, received, |bs|, last, key) then Some(StoredOver(bs[b], key, data))
            else CopyAt(bs[b], key)
  {
    if received != [] {
      var front, m := received[..|received| - 1], received[|received| - 1];
      assert received == front + [m];
      var s := Added(f, front, Begin(bs, last));
      assert s.dropped == 0 && Added(f, received, Begin(bs, last)) == AddedOne(f, m, s);
      assert Carried(f, front, key, data) by { assert forall x :: x in front ==> x in received; }
      AddedEffect(f, front, bs, last, b, key, data);
      OneMoreEffect(f, m, s, b, key);
      if b in Touched(f, front, |bs|, last, key) { StoredTwice(bs[b], s.backends[b], key, data); }
    }
  }

  ghost predicate MadeFor(f: Input, m: Chunking.Message, c: Chunk)
    requires ValidInput(f)
  {
    ChunkFor(f, m).Some? && c == ChunkFor(f, m).value.0
  }

  /** If nothing was dropped, the chunks of the archive are those of the messages, in their order. */
  lemma {:induction false} AddedChunks(f: Input, received: seq<Chunking.Message>, bs: seq<Backend>, last: nat)
    requires ValidInput(f) && |bs| > 0 && Added(f, received, Begin(bs, last)).dropped == 0
    ensures var chunks := Added(f, received, Begin(bs, last)).chunks;
            |chunks| == |received| && forall i | 0 <= i < |received| :: MadeFor(f, received[i], chunks[i])
  {
    if received != [] {
      var front, m := received[..|received| - 1], received[|received| - 1];
      assert Added(f, front, Begin(bs, last)).dropped == 0;
      AddedChunks(f, front, bs, last);
      var before, chunks := Added(f, front, Begin(bs, last)).chunks, Added(f, received, Begin(bs, last)).chunks;
      assert chunks == before + [ChunkFor(f, m).value.0];
      forall i | 0 <= i < |received| ensures MadeFor(f, received[i], chunks[i]) {
        if i < |front| { assert MadeFor(f, front[i], before[i]); }
      }
    }
  }

  /** Every message's part is stored at its place. */
  lemma {:induction false} TouchedPlace(
      f: Input, received: seq<Chunking.Message>, n: nat, last: nat, key: PartKey, i: nat)
    requires ValidInput(f) && i < |received| && Carries(ChunkFor(f, received[i]), key)
    ensures Place(Position(f, received[..i], n, last), n, key.part) in Touched(f, received, n, last, key)
  {
    if i < |received| - 1 {
      var front := received[..|received| - 1];
      assert front[..i] == received[..i];
      TouchedPlace(f, front, n, last, key, i);
    }
  }

  /* ---- All files of a snapshot ---- */

  /**
   A scan result: for a regular file its pieces, the order in which their chunks will arrive, and whether it opens.
   */
  datatype Target = Target(
    path: string,
    kind: Kind,
    size: nat,
    opens: bool,
    pieces: seq<Bytes>,
    received: seq<Chunking.Message>)

  /** How the files are stored. */
  datatype Settings = Settings(ctx: Context, opts: Options)

  ghost predicate ValidSettingsFor(how: Settings) {
    CipherLaws(how.ctx.lib) && ValidCompression(how.opts.compress) && ValidEncryption(how.opts.encrypt)
  }

  function InputFor(how: Settings, t: Target): Input { Input(how.ctx, how.opts, t.pieces) }

  function Skipped(t: Target): bool { t.kind.RegularFile? && !t.opens }

  function Scanned(t: Target): Archive { Archive(t.path, t.kind, [], t.size, 0, 0, 0) }

  /** The archive of a regular file, from what the consumer loop has built up. */
  function FiledAs(how: Settings, t: Target, chunks: seq<Chunk>, storageSize: nat): Archive {
    Archive(t.path, t.kind, chunks, t.size, storageSize, how.opts.encrypt, how.opts.compress)
  }

  datatype Filing = Filing(backends: seq<Backend>, last: nat, archives: seq<Archive>)

  function FiledOne(how: Settings, t: Target, s: Filing): (r: Filing)
    requires ValidSettingsFor(how) && |s.backends| > 0
    ensures |r.backends| == |s.backends|
  {
    if Skipped(t) then s
    else if t.kind.RegularFile? then
      var a := Added(InputFor(how, t), t.received, Begin(s.backends, s.last));
      Filing(a.backends, a.last, s.archives + [FiledAs(how, t, a.chunks, a.storageSize)])
    else s.(archives := s.archives + [Scanned(t)])
  }

  /** What storing the targets one after the other leaves on the backends, and the archives it gives. */
  function Filed(how: Settings, targets: seq<Target>, s: Filing): (r: Filing)
    requires ValidSettingsFor(how) && |s.backends| > 0
    ensures |r.backends| == |s.backends|
  {
    if targets == [] then s
    else FiledOne(how, targets[|targets| - 1], Filed(how, targets[..|targets| - 1], s))
  }

  /** The targets that get an archive: all but files that cannot be opened any more. */
  function Kept(targets: seq<Target>): seq<Target> {
    if targets == [] then []
    else
      var t := targets[|targets| - 1];
      Kept(targets[..|targets| - 1]) + if t.kind == RegularFile && !t.opens then [] else [t]
  }

  /** The consumer loop builds up the archive's chunks and storage size, from these backends on. */
  ghost predicate BuiltFrom(how: Settings, t: Target, a: Archive, bs: seq<Backend>, last: nat)
    requires ValidSettingsFor(how) && |bs| > 0
  {
    var r := Added(InputFor(how, t), t.received, Begin(bs, last));
    a.chunks == r.chunks && a.storageSize == r.storageSize
  }

  /** What an archive says of its target. */
  ghost predicate ArchiveOfTarget(how: Settings, t: Target, a: Archive)
    requires ValidSettingsFor(how)
  {
    && a.path == t.path && a.kind == t.kind && a.size == t.size
    && (a.kind != RegularFile ==> a.chunks == [] && a.storageSize == 0)
    && (a.kind == RegularFile ==>
          && a.encrypted == how.opts.encrypt && a.compressed == how.opts.compress
          && exists bs, last :: |bs| > 0 && BuiltFrom(how, t, a, bs, last))
  }

  /** Every target but those gets one archive, in their order, with its path, kind and size and the settings. */
  lemma {:induction false} FiledArchives(how: Settings, targets: seq<Target>, bs: seq<Backend>, last: nat)
    requires ValidSettingsFor(how) && |bs| > 0
    ensures var archives := Filed(how, targets, Filing(bs, last, [])).archives;
            && |archives| == |Kept(targets)|
            && forall i | 0 <= i < |archives| :: ArchiveOfTarget(how, Kept(targets)[i], archives[i])
  {
    if targets != [] {
      var front, t := targets[..|targets| - 1], targets[|targets| - 1];
      FiledArchives(how, front, bs, last);
      var before, now := Filed(how, front, Filing(bs, last, [])), Filed(how, targets, Filing(bs, last, [])).archives;
      if t.kind.RegularFile? && t.opens {
        assert BuiltFrom(how, t, now[|now| - 1], before.backends, before.last);
      }
    }
  }

  /** All parts of the chunk are on backends. */
  ghost predicate WhollyOn(bs: seq<Backend>, c: Chunk) { PartsOnSome(bs, c, TotalParts(c)) }

  /** The erasure code is lawful for the counts that are used. */
  ghost predicate ParityLaw(ctx: Context, opts: Options) {
    opts.parityParts > 0 ==> Lawful(ctx.lib, opts.dataParts, opts.parityParts)
  }

  lemma PartCount(f: Input, data: Bytes, num: nat)
    requires ValidInput(f) && ParityLaw(f.ctx, f.opts) && EncodedChunk(f, data, num).Some?
    ensures |EncodedChunk(f, data, num).value.1| == TotalParts(EncodedChunk(f, data, num).value.0)
  {
    if f.opts.parityParts > 0 {
      var b := Encoded(f.ctx, f.opts.compress, f.opts.encrypt, data).value;
      assert Recoverable(f.ctx.lib, f.opts.dataParts, f.opts.parityParts, Split(b, f.opts.dataParts).value);
    }
  }

  lemma AddedWhollyOn(f: Input, received: seq<Chunking.Message>, s: Progress)
    requires ValidInput(f) && ParityLaw(f.ctx, f.opts) && |s.backends| > 0 && s.chunks == []
    ensures Grown(s.backends, Added(f, received, s).backends)
    ensures forall c | c in Added(f, received, s).chunks :: WhollyOn(Added(f, received, s).backends, c)
  {
    AddedOnBackends(f, received, s);
    forall c | c in Added(f, received, s).chunks ensures WhollyOn(Added(f, received, s).backends, c) {
      assert TrueRecord(f, c);
      PartCount(f, f.pieces[c.num], c.num);
    }
  }

  ghost predicate AllWhollyOn(bs: seq<Backend>, archives: seq<Archive>) {
    forall a, c | a in archives && c in a.chunks :: WhollyOn(bs, c)
  }

  lemma AllStay(bs: seq<Backend>, bs': seq<Backend>, archives: seq<Archive>)
    requires AllWhollyOn(bs, archives) && Grown(bs, bs')
    ensures AllWhollyOn(bs', archives)
  {
    forall a, c | a in archives && c in a.chunks ensures WhollyOn(bs', c) {
      assert WhollyOn(bs, c);
      PartsStay(bs, bs', c, TotalParts(c));
    }
  }

  lemma OneMoreFiled(how: Settings, t: Target, s: Filing)
    requires ValidSettingsFor(how) && ParityLaw(how.ctx, how.opts) && |s.backends| > 0
    requires AllWhollyOn(s.backends, s.archives)
    ensures Grown(s.backends, FiledOne(how, t, s).backends)
    ensures AllWhollyOn(FiledOne(how, t, s).backends, FiledOne(how, t, s).archives)
  {
    if t.kind.RegularFile? && t.opens {
      AddedWhollyOn(InputFor(how, t), t.received, Begin(s.backends, s.last));
      AllStay(s.backends, FiledOne(how, t, s).backends, s.archives);
    }
  }

  /**
   Storing all targets, whatever fails on the way and whatever was stored before: every chunk of every archive has
   all of its parts on backends in the end, and no backend has lost a part.
   */
  lemma {:induction false} FiledIsStored(how: Settings, targets: seq<Target>, s: Filing)
    requires ValidSettingsFor(how) && ParityLaw(how.ctx, how.opts) && |s.backends| > 0 && s.archives == []
    ensures Grown(s.backends, Filed(how, targets, s).backends)
    ensures AllWhollyOn(Filed(how, targets, s).backends, Filed(how, targets, s).archives)
  {
    if targets != [] {
      var before := Filed(how, targets[..|targets| - 1], s);
      FiledIsStored(how, targets[..|targets| - 1], s);
      OneMoreFiled(how, targets[|targets| - 1], before);
      GrownTransitive(s.backends, before.backends, Filed(how, targets, s).backends);
    }
  }
}
