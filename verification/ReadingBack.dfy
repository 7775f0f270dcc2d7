/**
 Random access to what was stored: a file that was stored without loss meets what the cached readers ask for, so that
 any window of it is read back.
 */
module ReadingBack {
  import opened Basics
  import opened Libraries
  import opened Codec
  import opened Backends
  import opened Resilience
  import opened Archives
  import opened Decoding
  import opened Enduring
  import opened Storing
  import opened Surviving
  import opened RoundTripping
  import opened Reading
  import Chunking

  /** What is stored under one hash decodes to one piece. */
  lemma SameHashSamePiece(f: Input, arc: Archive, c: Chunk, d: Chunk)
    requires RoundTrips(f) && MatchingSettings(f.opts, arc) && CollisionFree(f.ctx.lib, Encodings(f))
    requires TrueRecord(f, c) && TrueRecord(f, d) && c.hash == d.hash
    ensures f.pieces[c.num] == f.pieces[d.num]
  {
    var p, q := f.pieces[c.num], f.pieces[d.num];
    var b, e := Encoded(f.ctx, f.opts.compress, f.opts.encrypt, p), Encoded(f.ctx, f.opts.compress, f.opts.encrypt, q);
    assert p in f.pieces && q in f.pieces;
    assert b.value in Encodings(f) && e.value in Encodings(f);
    DecodedEncoded(f.ctx, arc, c, p);
    DecodedEncoded(f.ctx, arc, d, q);
  }

  /** The records of a stored archive give the length of each piece. */
  lemma SizesRecorded(f: Input, received: seq<Chunking.Message>, start: Progress)
    requires ValidInput(f) && |start.backends| > 0 && start.chunks == []
    ensures forall c | c in Added(f, received, start).chunks ::
              c.num < |f.pieces| && c.originalSize == |f.pieces[c.num]|
  {
    AddedRecords(f, received, start);
    forall c | c in Added(f, received, start).chunks
      ensures c.num < |f.pieces| && c.originalSize == |f.pieces[c.num]|
    {
      assert Described(f, c);
    }
  }

  /**
   A file in nonempty pieces that was stored without loss, in any interleaving, meets all that the cached readers ask
   for, after anything that happens to the backends later and any tolerated loss, on the condition of the round trip.
   */
  lemma StoredIsReady(
      f: Input, run: seq<Chunking.Action>, received: seq<Chunking.Message>, bs: seq<Backend>, last: nat,
      later: seq<Event>, arc: Archive, bs': seq<Backend>, lost: set<nat>)
    requires RoundTrips(f) && MatchingSettings(f.opts, arc) && CollisionFree(f.ctx.lib, Encodings(f)) && last < |bs|
    requires PartCounts(|bs|, f.opts.parityParts) == Some((f.opts.dataParts, f.opts.parityParts))
    requires DeliveredBy(f, run, received) && arc.kind.RegularFile? && forall p | p in f.pieces :: p != []
    requires var s := Added(f, received, Begin(bs, last));
             var end := After(s.backends, s.last, later).0;
             && s.dropped == 0 && arc.chunks == s.chunks
             && Survived(end, bs', lost) && FileStands(f, received, later, end, bs', lost)
    requires |lost| <= f.opts.parityParts
    ensures Ready(f.ctx, arc, ContentsOf(bs'), CacheState(map[], false), f.pieces)
  {
    var src := Chunking.Source(|f.pieces|, false);
    Chunking.ChannelSafety(src, run);
    ArrivalsComplete(f, Chunking.Execute(src, run).value, bs, last);
    SurvivorsServe(f, received, bs, last, later, arc, bs', lost);
    SizesRecorded(f, received, Begin(bs, last));
    AddedTrue(f, received, Begin(bs, last));
    forall c | c in arc.chunks ensures c.originalSize == |f.pieces[c.num]| > 0 { assert f.pieces[c.num] in f.pieces; }
    forall c, d | c in arc.chunks && d in arc.chunks && c.hash == d.hash ensures f.pieces[c.num] == f.pieces[d.num] {
      SameHashSamePiece(f, arc, c, d);
    }
  }

  lemma SurvivorsAreSteady(bs: seq<Backend>, bs': seq<Backend>, lost: set<nat>)
    requires Survived(bs, bs', lost)
    ensures Steady(bs')
  {
    forall b | 0 <= b < |bs'| ensures Healthy(bs'[b]) || Dead(bs'[b]) {
      assert if b in lost then Dead(bs'[b]) else Healthy(bs'[b]);
    }
  }

  /** Reading a window of such a file with a new cache gives the window of the original file. */
  method ReadStored(
      f: Input, arc: Archive, offset: int, size: int, mgr: BackendManager, ghost run: seq<Chunking.Action>,
      ghost received: seq<Chunking.Message>, ghost bs: seq<Backend>, ghost last: nat, ghost later: seq<Event>,
      ghost lost: set<nat>)
    returns (r: Outcome)
    requires RoundTrips(f) && MatchingSettings(f.opts, arc) && CollisionFree(f.ctx.lib, Encodings(f)) && last < |bs|
    requires PartCounts(|bs|, f.opts.parityParts) == Some((f.opts.dataParts, f.opts.parityParts))
    requires DeliveredBy(f, run, received) && arc.kind.RegularFile? && forall p | p in f.pieces :: p != []
    requires var s := Added(f, received, Begin(bs, last));
             var end := After(s.backends, s.last, later).0;
             && s.dropped == 0 && arc.chunks == s.chunks
             && Survived(end, mgr.backends, lost) && FileStands(f, received, later, end, mgr.backends, lost)
    requires |lost| <= f.opts.parityParts
    modifies mgr`backends
    ensures r == ReadOutcome(Flatten(f.pieces), offset, size)
    ensures 0 <= offset < |Flatten(f.pieces)| && size > 0 ==> r == Got(Window(Flatten(f.pieces), offset, size))
  {
    StoredIsReady(f, run, received, bs, last, later, arc, mgr.backends, lost);
    SurvivorsAreSteady(
      After(Added(f, received, Begin(bs, last)).backends, Added(f, received, Begin(bs, last)).last, later).0,
      mgr.backends, lost);
    var cache := new ChunkCache();
    r := cache.ReadArchive(f.ctx, arc, offset, size, mgr, f.pieces);
  }
}
