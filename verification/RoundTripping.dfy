/**
 Getting files back: the round trip of a file and of all files of a snapshot through anything that happens to the
 backends later and any tolerated loss; and that a restore is never wrong.
 */
module RoundTripping {
  import opened Basics
  import opened Libraries
  import opened Codec
  import opened Erasure
  import opened Backends
  import opened Resilience
  import opened Archives
  import opened Decoding
  import opened Enduring
  import opened Storing
  import opened Surviving
  import Chunking

  /* ---- One file ---- */

  lemma {:induction false} TwiceInMultiset<T>(s: seq<T>, i: nat, j: nat)
    requires i < j < |s| && s[i] == s[j]
    ensures multiset(s)[s[i]] >= 2
  {
    var a, b := s[..j], s[j..];
    assert s == a + b && a[i] == s[i] && b[0] == s[i];
    assert multiset(s) == multiset(a) + multiset(b);
    assert s[i] in multiset(a) && s[i] in multiset(b);
  }

  /** Chunks that carry the numbers of messages delivered once each are a complete archive. */
  lemma DeliveredIsComplete(src: Chunking.Source, s: Chunking.State, chunks: seq<Chunk>)
    requires !src.readFails && Chunking.EachDeliveredOnce(src, s) && |chunks| == |s.received|
    requires forall i :: 0 <= i < |chunks| ==> s.received[i] == Chunking.Job(chunks[i].num)
    ensures DistinctNumbers(chunks) && Complete(chunks) && |chunks| == src.pieces
  {
    forall i, j | 0 <= i < j < |chunks| ensures chunks[i].num != chunks[j].num {
      if chunks[i].num == chunks[j].num { TwiceInMultiset(s.received, i, j); }
    }
    forall num: nat ensures num in Numbers(chunks) <==> num < src.pieces {
      var m := Chunking.Job(num);
      assert multiset(s.received)[m] == Chunking.Due(src, m);
      if num in Numbers(chunks) {
        var c :| c in chunks && c.num == num;
        var i :| 0 <= i < |chunks| && chunks[i] == c;
        assert m in s.received;
      }
      if num < src.pieces {
        assert m in multiset(s.received);
        var i :| 0 <= i < |s.received| && s.received[i] == m;
        assert chunks[i] in chunks;
      }
    }
    assert Numbers(chunks) == UpTo(src.pieces);
    DistinctCount(chunks);
    CompleteIffNumbers(chunks);
  }

  /** The archive of a file whose pieces were all delivered once and stored is complete. */
  lemma ArrivalsComplete(f: Input, s: Chunking.State, bs: seq<Backend>, last: nat)
    requires ValidInput(f) && |bs| > 0 && Added(f, s.received, Begin(bs, last)).dropped == 0
    requires Chunking.EachDeliveredOnce(Chunking.Source(|f.pieces|, false), s)
    ensures var chunks := Added(f, s.received, Begin(bs, last)).chunks; Complete(chunks) && |chunks| == |f.pieces|
  {
    var chunks := Added(f, s.received, Begin(bs, last)).chunks;
    AddedChunks(f, s.received, bs, last);
    forall i | 0 <= i < |chunks| ensures s.received[i] == Chunking.Job(chunks[i].num) {
      assert MadeFor(f, s.received[i], chunks[i]);
    }
    DeliveredIsComplete(Chunking.Source(|f.pieces|, false), s, chunks);
  }

  /** The encoded forms of the pieces: the data that the hashes in the archive tell apart. */
  function Encodings(f: Input): set<Bytes>
    requires ValidInput(f)
  {
    set p | p in f.pieces && Encoded(f.ctx, f.opts.compress, f.opts.encrypt, p).Ok? ::
      Encoded(f.ctx, f.opts.compress, f.opts.encrypt, p).value
  }

  /** Chunks with one hash have the same parts. */
  lemma SameHashSameParts(f: Input, m: Chunking.Message, m': Chunking.Message)
    requires ValidInput(f) && CollisionFree(f.ctx.lib, Encodings(f))
    requires ChunkFor(f, m).Some? && ChunkFor(f, m').Some?
    requires ChunkFor(f, m).value.0.hash == ChunkFor(f, m').value.0.hash
    ensures ChunkFor(f, m).value.1 == ChunkFor(f, m').value.1
  {
    var e, e' := Encoded(f.ctx, f.opts.compress, f.opts.encrypt, f.pieces[m.num]),
                 Encoded(f.ctx, f.opts.compress, f.opts.encrypt, f.pieces[m'.num]);
    assert f.pieces[m.num] in f.pieces && f.pieces[m'.num] in f.pieces;
    assert e.value in Encodings(f) && e'.value in Encodings(f);
  }

  lemma CarriedBy(f: Input, received: seq<Chunking.Message>, m: Chunking.Message, key: PartKey)
    requires ValidInput(f) && CollisionFree(f.ctx.lib, Encodings(f)) && Carries(ChunkFor(f, m), key)
    ensures Carried(f, received, key, ChunkFor(f, m).value.1[key.part])
  {
    forall m' | m' in received && Carries(ChunkFor(f, m'), key)
      ensures ChunkFor(f, m').value.1[key.part] == ChunkFor(f, m).value.1[key.part]
    {
      SameHashSameParts(f, m, m');
    }
  }

  /** The operations that storing the file asks of the backends. */
  function EventsFor(f: Input, m: Chunking.Message): seq<Event>
    requires ValidInput(f)
  {
    var result := ChunkFor(f, m);
    if result.None? then [] else [StoreEvent(result.value.0.hash, result.value.0.dataParts, result.value.1)]
  }

  function EventsOf(f: Input, received: seq<Chunking.Message>): seq<Event>
    requires ValidInput(f)
  {
    if received == [] then []
    else EventsOf(f, received[..|received| - 1]) + EventsFor(f, received[|received| - 1])
  }

  /** The consumer loop does to the backends what its events do, whatever fails. */
  lemma {:induction false} AddedIsEvents(f: Input, received: seq<Chunking.Message>, s: Progress)
    requires ValidInput(f) && |s.backends| > 0
    ensures (Added(f, received, s).backends, Added(f, received, s).last)
         == After(s.backends, s.last, EventsOf(f, received))
  {
    if received != [] {
      var front, m := received[..|received| - 1], received[|received| - 1];
      AddedIsEvents(f, front, s);
      AfterAppend(s.backends, s.last, EventsOf(f, front), EventsFor(f, m));
      var r := After(s.backends, s.last, EventsOf(f, front));
      if ChunkFor(f, m).Some? {
        assert EventsFor(f, m)[..0] == [];
        assert After(r.0, r.1, EventsFor(f, m)) == Happen(r.0, r.1, EventsFor(f, m)[0]);
      }
    }
  }

  lemma Associative<T>(a: seq<T>, b: seq<T>, c: seq<T>)
    ensures (a + b) + c == a + (b + c)
  {
  }

  /** The events before, of and after message `i`. */
  lemma {:induction false} EventsCut(f: Input, received: seq<Chunking.Message>, i: nat) returns (tail: seq<Event>)
    requires ValidInput(f) && i < |received|
    ensures EventsOf(f, received) == EventsOf(f, received[..i]) + EventsFor(f, received[i]) + tail
    decreases |received|
  {
    var n := |received| - 1;
    if i == n {
      tail := [];
    } else {
      var front, last := received[..n], EventsFor(f, received[n]);
      var middle := EventsCut(f, front, i);
      assert front[..i] == received[..i] && front[i] == received[i];
      tail := middle + last;
      Associative(EventsOf(f, received[..i]) + EventsFor(f, received[i]), middle, last);
    }
  }

  lemma {:induction false} EventsInnocent(
      f: Input, received: seq<Chunking.Message>, key: PartKey, data: Bytes)
    requires ValidInput(f) && Carried(f, received, key, data)
    ensures AllInnocent(EventsOf(f, received), key, data)
  {
    if received != [] {
      var front, m := received[..|received| - 1], received[|received| - 1];
      assert received == front + [m];
      assert Carried(f, front, key, data) by { assert forall x :: x in front ==> x in received; }
      EventsInnocent(f, front, key, data);
      assert m in received;
      forall e | e in EventsOf(f, received) ensures Innocent(e, key, data) {
        assert e in EventsOf(f, front) || e in EventsFor(f, m);
      }
    }
  }

  /**
   Every part of the file has been left alone since, or stored again; its first remaining copy is not torn; and the
   loss keeps the remaining copies.
   */
  ghost predicate FileStands(
      f: Input, received: seq<Chunking.Message>, later: seq<Event>, end: seq<Backend>, bs': seq<Backend>,
      lost: set<nat>)
    requires ValidInput(f)
  {
    forall m, key | m in received && Carries(ChunkFor(f, m), key) ::
      PartStands(key, ChunkFor(f, m).value.1[key.part], later, end, bs', lost)
  }

  /** Storing the chunk of message `i` succeeded: nothing was dropped. */
  lemma {:induction false} StoredWell(f: Input, received: seq<Chunking.Message>, bs: seq<Backend>, last: nat, i: nat)
    requires ValidInput(f) && |bs| > 0 && Added(f, received, Begin(bs, last)).dropped == 0 && i < |received|
    requires ChunkFor(f, received[i]).Some?
    ensures var r := After(bs, last, EventsOf(f, received[..i]));
            var (c, parts) := ChunkFor(f, received[i]).value;
            |r.0| == |bs| && StoreParts(r.0, r.1, c.hash, c.dataParts, parts, 0, 0).2.Some?
  {
    var n := |received| - 1;
    var front := received[..n];
    assert Added(f, front, Begin(bs, last)).dropped == 0;
    if i < n {
      StoredWell(f, front, bs, last, i);
      assert front[..i] == received[..i];
    } else {
      AddedIsEvents(f, front, Begin(bs, last));
    }
  }

  /** After a store without loss and any later operations, the copy of one part of one message's chunk. */
  lemma PartStays(
      f: Input, received: seq<Chunking.Message>, bs: seq<Backend>, last: nat, later: seq<Event>, i: nat, key: PartKey)
    requires ValidInput(f) && |bs| > 0 && Added(f, received, Begin(bs, last)).dropped == 0
    requires i < |received| && Carries(ChunkFor(f, received[i]), key)
    requires AllInnocent(EventsOf(f, received) + later, key, ChunkFor(f, received[i]).value.1[key.part])
    ensures var at := Place(After(bs, last, EventsOf(f, received[..i])).1, |bs|, key.part);
            at < |bs| && CopyOn(After(bs, last, EventsOf(f, received) + later).0, at, key).Some?
  {
    var (c, parts) := ChunkFor(f, received[i]).value;
    var head, e := EventsOf(f, received[..i]), StoreEvent(c.hash, c.dataParts, parts);
    var r := After(bs, last, head);
    StoredWell(f, received, bs, last, i);
    var tail := EventsCut(f, received, i);
    Associative(head + [e], tail, later);
    TailInnocent(head + [e], tail + later, key, parts[key.part]);
    StoredStays(r.0, r.1, e, tail + later, key, parts[key.part]);
    AfterAround(bs, last, head, e, tail + later);
  }

  lemma TailInnocent(head: seq<Event>, tail: seq<Event>, key: PartKey, data: Bytes)
    requires AllInnocent(head + tail, key, data)
    ensures AllInnocent(tail, key, data)
  {
    assert forall e :: e in tail ==> e in head + tail;
  }

  /** What is served of it. */
  lemma PartServed(
      f: Input, received: seq<Chunking.Message>, bs: seq<Backend>, last: nat, later: seq<Event>,
      bs': seq<Backend>, lost: set<nat>, i: nat, key: PartKey)
    requires ValidInput(f) && last < |bs| && CollisionFree(f.ctx.lib, Encodings(f))
    requires var s := Added(f, received, Begin(bs, last));
             var end := After(s.backends, s.last, later).0;
             s.dropped == 0 && Survived(end, bs', lost) && FileStands(f, received, later, end, bs', lost)
    requires i < |received| && Carries(ChunkFor(f, received[i]), key)
    ensures var data := ChunkFor(f, received[i]).value.1[key.part];
            ContentsOf(bs')(key).None? || ContentsOf(bs')(key) == Some(data)
    ensures Place(After(bs, last, EventsOf(f, received[..i])).1, |bs|, key.part) !in lost ==> ContentsOf(bs')(key).Some?
  {
    var data, own := ChunkFor(f, received[i]).value.1[key.part], EventsOf(f, received);
    var s := Added(f, received, Begin(bs, last));
    var end := After(s.backends, s.last, later).0;
    assert PartStands(key, data, later, end, bs', lost);
    ServedIsFirstCopy(end, bs', lost, key);
    AddedIsEvents(f, received, Begin(bs, last));
    AfterAppend(bs, last, own, later);
    CarriedBy(f, received, received[i], key);
    EventsInnocent(f, received, key, data);
    PartStays(f, received, bs, last, later, i, key);
    var at := Place(After(bs, last, EventsOf(f, received[..i])).1, |bs|, key.part);
    if at !in lost { FirstCopyExists(end, lost, key, 0, at); }
  }

  lemma OneServes(
      f: Input, received: seq<Chunking.Message>, bs: seq<Backend>, last: nat, later: seq<Event>, arc: Archive,
      bs': seq<Backend>, lost: set<nat>, i: nat)
    requires RoundTrips(f) && MatchingSettings(f.opts, arc) && CollisionFree(f.ctx.lib, Encodings(f)) && last < |bs|
    requires PartCounts(|bs|, f.opts.parityParts) == Some((f.opts.dataParts, f.opts.parityParts))
    requires var s := Added(f, received, Begin(bs, last));
             var end := After(s.backends, s.last, later).0;
             s.dropped == 0 && Survived(end, bs', lost) && FileStands(f, received, later, end, bs', lost)
    requires |lost| <= f.opts.parityParts && i < |received| && ChunkFor(f, received[i]).Some?
    ensures Loaded(f.ctx, arc, ChunkFor(f, received[i]).value.0, ContentsOf(bs')).0 == Ok(f.pieces[received[i].num])
  {
    var (c, parts) := ChunkFor(f, received[i]).value;
    var at := After(bs, last, EventsOf(f, received[..i])).1;
    StoredWell(f, received, bs, last, i);
    AfterPosition(bs, last, EventsOf(f, received[..i]));
    forall q: nat | q < |parts|
      ensures ContentsOf(bs')(PartOf(c, q)).None? || ContentsOf(bs')(PartOf(c, q)) == Some(parts[q])
      ensures Place(at, |bs|, q) !in lost ==> ContentsOf(bs')(PartOf(c, q)).Some?
    {
      PartServed(f, received, bs, last, later, bs', lost, i, PartOf(c, q));
    }
    LoadsBack(f, arc, f.pieces[received[i].num], received[i].num, ContentsOf(bs'), |bs|, at, lost);
  }

  /** After a tolerated loss every chunk of the archive still gives its piece. */
  lemma SurvivorsServe(
      f: Input, received: seq<Chunking.Message>, bs: seq<Backend>, last: nat, later: seq<Event>, arc: Archive,
      bs': seq<Backend>, lost: set<nat>)
    requires RoundTrips(f) && MatchingSettings(f.opts, arc) && CollisionFree(f.ctx.lib, Encodings(f)) && last < |bs|
    requires PartCounts(|bs|, f.opts.parityParts) == Some((f.opts.dataParts, f.opts.parityParts))
    requires var s := Added(f, received, Begin(bs, last));
             var end := After(s.backends, s.last, later).0;
             && s.dropped == 0 && arc.chunks == s.chunks
             && Survived(end, bs', lost) && FileStands(f, received, later, end, bs', lost)
    requires |lost| <= f.opts.parityParts
    ensures Serves(f.ctx, arc, ContentsOf(bs'), f.pieces)
  {
    AddedChunks(f, received, bs, last);
    forall c | c in arc.chunks
      ensures c.num < |f.pieces| && Loaded(f.ctx, arc, c, ContentsOf(bs')).0 == Ok(f.pieces[c.num])
    {
      var i :| 0 <= i < |arc.chunks| && arc.chunks[i] == c;
      assert MadeFor(f, received[i], c);
      OneServes(f, received, bs, last, later, arc, bs', lost, i);
    }
  }

  /** The messages are all that some interleaving delivers for the file. */
  ghost predicate DeliveredBy(f: Input, run: seq<Chunking.Action>, received: seq<Chunking.Message>) {
    var s := Chunking.Execute(Chunking.Source(|f.pieces|, false), run);
    s.Some? && Chunking.Over(s.value) && received == s.value.received
  }

  /**
   End to end: for every file in pieces and every interleaving of producer, workers, closer and consumer, if no chunk
   was dropped, then whatever happens to the backends later, and after any tolerated number of them has failed for
   good, the restore of the archive, whose chunks are in arrival order, gives exactly the original bytes, as long as
   the first remaining copy of no part is torn.
   */
  lemma RoundTrip(
      f: Input, run: seq<Chunking.Action>, received: seq<Chunking.Message>, bs: seq<Backend>, last: nat,
      later: seq<Event>, arc: Archive, bs': seq<Backend>, lost: set<nat>)
    requires RoundTrips(f) && MatchingSettings(f.opts, arc) && CollisionFree(f.ctx.lib, Encodings(f)) && last < |bs|
    requires PartCounts(|bs|, f.opts.parityParts) == Some((f.opts.dataParts, f.opts.parityParts))
    requires DeliveredBy(f, run, received)
    requires var s := Added(f, received, Begin(bs, last));
             var end := After(s.backends, s.last, later).0;
             && s.dropped == 0 && arc.chunks == s.chunks
             && Survived(end, bs', lost) && FileStands(f, received, later, end, bs', lost)
    requires |lost| <= f.opts.parityParts
    ensures Restored(f.ctx, arc, ContentsOf(bs'), 0) == Ok(Flatten(f.pieces))
  {
    var src := Chunking.Source(|f.pieces|, false);
    var s := Chunking.Execute(src, run).value;
    Chunking.ChannelSafety(src, run);
    ArrivalsComplete(f, s, bs, last);
    SurvivorsServe(f, received, bs, last, later, arc, bs', lost);
    CompleteRestores(f.ctx, arc, ContentsOf(bs'), f.pieces);
    assert f.pieces[..|f.pieces|] == f.pieces;
  }

  /* ---- All files of a snapshot ---- */

  /** The operations that storing a target asks of the backends. */
  function EventsOfTarget(how: Settings, t: Target): seq<Event>
    requires ValidSettingsFor(how)
  {
    if t.kind.RegularFile? && t.opens then EventsOf(InputFor(how, t), t.received) else []
  }

  function EventsOfTargets(how: Settings, targets: seq<Target>): seq<Event>
    requires ValidSettingsFor(how)
  {
    if targets == [] then []
    else EventsOfTargets(how, targets[..|targets| - 1]) + EventsOfTarget(how, targets[|targets| - 1])
  }

  /** Storing the targets does to the backends what their events do, whatever fails. */
  lemma {:induction false} FiledIsEvents(how: Settings, targets: seq<Target>, s: Filing)
    requires ValidSettingsFor(how) && |s.backends| > 0
    ensures (Filed(how, targets, s).backends, Filed(how, targets, s).last)
         == After(s.backends, s.last, EventsOfTargets(how, targets))
  {
    if targets != [] {
      var front, t := targets[..|targets| - 1], targets[|targets| - 1];
      FiledIsEvents(how, front, s);
      var before := Filed(how, front, s);
      AfterAppend(s.backends, s.last, EventsOfTargets(how, front), EventsOfTarget(how, t));
      if t.kind.RegularFile? && t.opens {
        AddedIsEvents(InputFor(how, t), t.received, Begin(before.backends, before.last));
      }
    }
  }

  lemma EventsOfNextTarget(how: Settings, targets: seq<Target>, t: Target)
    requires ValidSettingsFor(how)
    ensures EventsOfTargets(how, targets + [t]) == EventsOfTargets(how, targets) + EventsOfTarget(how, t)
  {
    assert (targets + [t])[..|targets|] == targets;
  }

  lemma {:induction false} EventsOfMoreTargets(how: Settings, a: seq<Target>, b: seq<Target>)
    requires ValidSettingsFor(how)
    ensures EventsOfTargets(how, a + b) == EventsOfTargets(how, a) + EventsOfTargets(how, b)
  {
    if b == [] {
      assert a + b == a;
    } else {
      var front, t := b[..|b| - 1], b[|b| - 1];
      assert b == front + [t];
      Associative(a, front, [t]);
      calc {
        EventsOfTargets(how, a + b);
        { EventsOfNextTarget(how, a + front, t); }
        EventsOfTargets(how, a + front) + EventsOfTarget(how, t);
        { EventsOfMoreTargets(how, a, front); }
        (EventsOfTargets(how, a) + EventsOfTargets(how, front)) + EventsOfTarget(how, t);
        { Associative(EventsOfTargets(how, a), EventsOfTargets(how, front), EventsOfTarget(how, t)); }
        EventsOfTargets(how, a) + (EventsOfTargets(how, front) + EventsOfTarget(how, t));
        { EventsOfNextTarget(how, front, t); }
        EventsOfTargets(how, a) + EventsOfTargets(how, b);
      }
    }
  }

  /** The archive that target `i` gets. */
  function ArchiveAt(how: Settings, targets: seq<Target>, i: nat, s: Filing): Archive
    requires ValidSettingsFor(how) && |s.backends| > 0 && i < |targets|
    requires targets[i].kind.RegularFile? && targets[i].opens
  {
    var before := Filed(how, targets[..i], s);
    var a := Added(InputFor(how, targets[i]), targets[i].received, Begin(before.backends, before.last));
    FiledAs(how, targets[i], a.chunks, a.storageSize)
  }

  lemma {:induction false} ArchiveIsFiled(how: Settings, targets: seq<Target>, i: nat, s: Filing)
    requires ValidSettingsFor(how) && |s.backends| > 0 && i < |targets|
    requires targets[i].kind.RegularFile? && targets[i].opens
    ensures ArchiveAt(how, targets, i, s) in Filed(how, targets, s).archives
  {
    var front := targets[..|targets| - 1];
    if i < |front| {
      ArchiveIsFiled(how, front, i, s);
      assert front[..i] == targets[..i];
    }
  }

  /** The encoded forms of all pieces of all targets. */
  function EncodingsOfAll(how: Settings, targets: seq<Target>): set<Bytes>
    requires ValidSettingsFor(how)
  {
    if targets == [] then {}
    else EncodingsOfAll(how, targets[..|targets| - 1]) + Encodings(InputFor(how, targets[|targets| - 1]))
  }

  lemma {:induction false} EncodingsOfOne(how: Settings, targets: seq<Target>, i: nat)
    requires ValidSettingsFor(how) && i < |targets|
    ensures Encodings(InputFor(how, targets[i])) <= EncodingsOfAll(how, targets)
  {
    if i < |targets| - 1 { EncodingsOfOne(how, targets[..|targets| - 1], i); }
  }

  /** Settings that store parts under the same keys only with the same counts. */
  predicate SameCounts(a: Options, b: Options) {
    var total := (o: Options) => if o.parityParts > 0 then o.dataParts else 1;
    total(a) == total(b) ==> a.parityParts == b.parityParts
  }

  /** A part of one file is not overwritten by another file's part of the same name: it is the same part. */
  lemma OtherFileSameParts(f: Input, m: Chunking.Message, f': Input, m': Chunking.Message, key: PartKey)
    requires ValidInput(f) && ValidInput(f') && f.ctx == f'.ctx && SameCounts(f.opts, f'.opts)
    requires CollisionFree(f.ctx.lib, Encodings(f) + Encodings(f'))
    requires Carries(ChunkFor(f, m), key) && Carries(ChunkFor(f', m'), key)
    ensures ChunkFor(f', m').value.1[key.part] == ChunkFor(f, m).value.1[key.part]
  {
    var p, p' := f.pieces[m.num], f'.pieces[m'.num];
    assert p in f.pieces && p' in f'.pieces;
    var e, e' := Encoded(f.ctx, f.opts.compress, f.opts.encrypt, p),
                 Encoded(f.ctx, f'.opts.compress, f'.opts.encrypt, p');
    assert e.value in Encodings(f) && e'.value in Encodings(f');
    assert e.value == e'.value;
  }

  lemma {:induction false} OtherFileInnocent(
      f: Input, m: Chunking.Message, f': Input, received: seq<Chunking.Message>, key: PartKey)
    requires ValidInput(f) && ValidInput(f') && f.ctx == f'.ctx && SameCounts(f.opts, f'.opts)
    requires CollisionFree(f.ctx.lib, Encodings(f) + Encodings(f')) && Carries(ChunkFor(f, m), key)
    ensures AllInnocent(EventsOf(f', received), key, ChunkFor(f, m).value.1[key.part])
  {
    var data := ChunkFor(f, m).value.1[key.part];
    forall m' | m' in received && Carries(ChunkFor(f', m'), key) ensures ChunkFor(f', m').value.1[key.part] == data {
      OtherFileSameParts(f, m, f', m', key);
    }
    EventsInnocent(f', received, key, data);
  }

  /** Storing any targets with the same library leaves the parts of a file alone or stores them again. */
  lemma {:induction false} TargetsInnocent(
      f: Input, m: Chunking.Message, how: Settings, targets: seq<Target>, key: PartKey)
    requires ValidInput(f) && ValidSettingsFor(how) && f.ctx == how.ctx && SameCounts(f.opts, how.opts)
    requires CollisionFree(f.ctx.lib, Encodings(f) + EncodingsOfAll(how, targets)) && Carries(ChunkFor(f, m), key)
    ensures AllInnocent(EventsOfTargets(how, targets), key, ChunkFor(f, m).value.1[key.part])
  {
    if targets != [] {
      var front, t := targets[..|targets| - 1], targets[|targets| - 1];
      TargetsInnocent(f, m, how, front, key);
      OtherFileInnocent(f, m, InputFor(how, t), t.received, key);
    }
  }

  /** Target `i` opens, all of its chunks arrive, and none is dropped. */
  ghost predicate StoredWhole(how: Settings, targets: seq<Target>, i: nat, s: Filing, run: seq<Chunking.Action>)
    requires ValidSettingsFor(how) && |s.backends| > 0 && i < |targets|
  {
    var t, before := targets[i], Filed(how, targets[..i], s);
    && t.kind.RegularFile? && t.opens && DeliveredBy(InputFor(how, t), run, t.received)
    && Added(InputFor(how, t), t.received, Begin(before.backends, before.last)).dropped == 0
  }

  /** What a target's parts are after the targets that follow it. */
  lemma StandsThroughRest(
      how: Settings, targets: seq<Target>, i: nat, s: Filing, later: seq<Event>, bs': seq<Backend>, lost: set<nat>)
    requires ValidSettingsFor(how) && |s.backends| > 0 && i < |targets|
    requires CollisionFree(how.ctx.lib, EncodingsOfAll(how, targets))
    requires var all, f := Filed(how, targets, s), InputFor(how, targets[i]);
             FileStands(f, targets[i].received, later, After(all.backends, all.last, later).0, bs', lost)
    ensures var all, f := Filed(how, targets, s), InputFor(how, targets[i]);
            FileStands(f, targets[i].received, EventsOfTargets(how, targets[i + 1..]) + later,
              After(all.backends, all.last, later).0, bs', lost)
  {
    var t, f, rest := targets[i], InputFor(how, targets[i]), targets[i + 1..];
    var all := Filed(how, targets, s);
    var end := After(all.backends, all.last, later).0;
    EncodingsOfOne(how, targets, i);
    assert targets == targets[..i + 1] + rest;
    EncodingsOfPart(how, targets[..i + 1], rest);
    forall m, key | m in t.received && Carries(ChunkFor(f, m), key)
      ensures PartStands(
        key, ChunkFor(f, m).value.1[key.part], EventsOfTargets(how, rest) + later, end, bs', lost)
    {
      assert PartStands(key, ChunkFor(f, m).value.1[key.part], later, end, bs', lost);
      TargetsInnocent(f, m, how, rest, key);
    }
  }

  lemma {:induction false} EncodingsOfPart(how: Settings, a: seq<Target>, b: seq<Target>)
    requires ValidSettingsFor(how)
    ensures EncodingsOfAll(how, a + b) == EncodingsOfAll(how, a) + EncodingsOfAll(how, b)
  {
    if b == [] {
      assert a + b == a;
    } else {
      assert (a + b)[..|a + b| - 1] == a + b[..|b| - 1];
      EncodingsOfPart(how, a, b[..|b| - 1]);
    }
  }

  /** A sequence of operations cut into four. */
  lemma AfterCut(bs: seq<Backend>, last: nat, a: seq<Event>, b: seq<Event>, c: seq<Event>, d: seq<Event>)
    requires |bs| > 0
    ensures var x, all := After(bs, last, a), After(bs, last, a + b + c);
            var y := After(x.0, x.1, b);
            After(all.0, all.1, d) == After(y.0, y.1, c + d)
  {
    var x, all := After(bs, last, a), After(bs, last, a + b + c);
    AfterAppend(bs, last, a, b);
    AfterAppend(bs, last, a + b, c);
    var y := After(x.0, x.1, b);
    AfterAppend(y.0, y.1, c, d);
  }

  /** The backends before target `i`, its own store, and the events after it make up the whole. */
  lemma AroundTarget(how: Settings, targets: seq<Target>, i: nat, s: Filing, later: seq<Event>)
    requires ValidSettingsFor(how) && s.last < |s.backends| && i < |targets|
    requires targets[i].kind.RegularFile? && targets[i].opens
    ensures var before, all := Filed(how, targets[..i], s), Filed(how, targets, s);
            var a := Added(InputFor(how, targets[i]), targets[i].received, Begin(before.backends, before.last));
            && before.last < |before.backends| == |s.backends|
            && After(all.backends, all.last, later)
               == After(a.backends, a.last, EventsOfTargets(how, targets[i + 1..]) + later)
  {
    var t, rest := targets[i], targets[i + 1..];
    var before, head := Filed(how, targets[..i], s), EventsOfTargets(how, targets[..i]);
    FiledIsEvents(how, targets[..i], s);
    AfterPosition(s.backends, s.last, head);
    AddedIsEvents(InputFor(how, t), t.received, Begin(before.backends, before.last));
    FiledIsEvents(how, targets, s);
    EventsAroundTarget(how, targets, i);
    AfterCut(s.backends, s.last, head, EventsOfTarget(how, t), EventsOfTargets(how, rest), later);
  }

  lemma EventsAroundTarget(how: Settings, targets: seq<Target>, i: nat)
    requires ValidSettingsFor(how) && i < |targets|
    ensures EventsOfTargets(how, targets)
         == EventsOfTargets(how, targets[..i]) + EventsOfTarget(how, targets[i])
            + EventsOfTargets(how, targets[i + 1..])
  {
    assert targets == targets[..i + 1] + targets[i + 1..] && targets[..i + 1][..i] == targets[..i];
    EventsOfMoreTargets(how, targets[..i + 1], targets[i + 1..]);
  }

  /**
   The round trip of a snapshot: of any targets stored one after the other, whatever fails for the others, each file
   none of whose chunks was dropped has an archive that restores to exactly its bytes, after anything that happens to
   the backends later and any tolerated loss, as long as the first remaining copy of none of its parts is torn.
   */
  lemma SnapshotRoundTrip(
      how: Settings, targets: seq<Target>, i: nat, run: seq<Chunking.Action>, s: Filing, later: seq<Event>,
      bs': seq<Backend>, lost: set<nat>)
    requires i < |targets| && RoundTrips(InputFor(how, targets[i])) && s.last < |s.backends|
    requires CollisionFree(how.ctx.lib, EncodingsOfAll(how, targets))
    requires PartCounts(|s.backends|, how.opts.parityParts) == Some((how.opts.dataParts, how.opts.parityParts))
    requires StoredWhole(how, targets, i, s, run) && |lost| <= how.opts.parityParts
    requires var all := Filed(how, targets, s);
             var end := After(all.backends, all.last, later).0;
             Survived(end, bs', lost)
             && FileStands(InputFor(how, targets[i]), targets[i].received, later, end, bs', lost)
    ensures ArchiveAt(how, targets, i, s) in Filed(how, targets, s).archives
    ensures Restored(how.ctx, ArchiveAt(how, targets, i, s), ContentsOf(bs'), 0) == Ok(Flatten(targets[i].pieces))
  {
    var t, f := targets[i], InputFor(how, targets[i]);
    var before, rest := Filed(how, targets[..i], s), EventsOfTargets(how, targets[i + 1..]);
    ArchiveIsFiled(how, targets, i, s);
    AroundTarget(how, targets, i, s, later);
    StandsThroughRest(how, targets, i, s, later, bs', lost);
    EncodingsOfOne(how, targets, i);
    RoundTrip(
      f, run, t.received, before.backends, before.last, rest + later, ArchiveAt(how, targets, i, s), bs', lost);
  }

  /* ---- When a file stands ---- */

  /**
   A part of a file that was stored without loss is served rightly right after it if and only if the condition held
   before; and it stays so through all operations that do not fail to store it.
   */
  lemma FileServedExactly(
      f: Input, received: seq<Chunking.Message>, bs: seq<Backend>, last: nat, later: seq<Event>, lost: set<nat>,
      m: Chunking.Message, key: PartKey)
    requires ValidInput(f) && |bs| > 0 && CollisionFree(f.ctx.lib, Encodings(f))
    requires Added(f, received, Begin(bs, last)).dropped == 0
    requires m in received && Carries(ChunkFor(f, m), key)
    ensures var s, data := Added(f, received, Begin(bs, last)), ChunkFor(f, m).value.1[key.part];
            && (ServedRight(s.backends, lost, key, data)
                <==> ServesRight(bs, Touched(f, received, |bs|, last, key), lost, key, data, 0))
            && (ServedRight(s.backends, lost, key, data) && AllInnocent(later, key, data)
                && NoFailure(s.backends, s.last, later, key) ==>
                  ServedRight(After(s.backends, s.last, later).0, lost, key, data))
  {
    var s, data := Added(f, received, Begin(bs, last)), ChunkFor(f, m).value.1[key.part];
    var touched := Touched(f, received, |bs|, last, key);
    CarriedBy(f, received, m, key);
    forall b: nat | b < |bs|
      ensures CopyAt(s.backends[b], key)
           == if b in touched then Some(StoredOver(bs[b], key, data)) else CopyAt(bs[b], key)
    {
      AddedEffect(f, received, bs, last, b, key, data);
    }
    ServedExactly(bs, s.backends, touched, lost, key, data);
    if ServedRight(s.backends, lost, key, data) && AllInnocent(later, key, data) {
      if NoFailure(s.backends, s.last, later, key) {
        NoFailureKeepsRight(s.backends, s.last, later, lost, key, data);
      }
    }
  }

  /** A part that no backend has yet is served rightly once it is stored, whatever is lost later. */
  lemma NewPartServesRight(
      f: Input, received: seq<Chunking.Message>, bs: seq<Backend>, last: nat, lost: set<nat>, key: PartKey, data: Bytes)
    requires ValidInput(f) && forall b | 0 <= b < |bs| :: key !in bs[b].parts
    ensures ServesRight(bs, Touched(f, received, |bs|, last, key), lost, key, data, 0)
  {
    CleanServesRight(bs, Touched(f, received, |bs|, last, key), lost, key, data, 0);
  }

  /* ---- Never wrong ---- */

  /** Whatever fails and whatever the order: no two chunks of an archive have the same number. */
  lemma ArchiveNumbersDistinct(f: Input, run: seq<Chunking.Action>, readFails: bool, start: Progress)
    requires ValidInput(f) && |start.backends| > 0 && start.chunks == []
    requires Chunking.Execute(Chunking.Source(|f.pieces|, readFails), run).Some?
    ensures var s := Chunking.Execute(Chunking.Source(|f.pieces|, readFails), run).value;
            DistinctNumbers(Added(f, s.received, start).chunks)
  {
    var src := Chunking.Source(|f.pieces|, readFails);
    var s := Chunking.Execute(src, run).value;
    Chunking.ChannelSafety(src, run);
    forall m ensures multiset(s.received)[m] <= 1 { assert multiset(s.received)[m] <= Chunking.Due(src, m); }
    AddedDistinct(f, s.received, start);
  }

  /**
   A restore is never wrong: whatever steps failed while the file was stored, in whatever order its chunks
   arrived, and whatever the backends hold now, pieces that pass the restore's checks for a whole archive are
   the first pieces of the file, and all of it if no chunk was dropped.
   */
  lemma RestoreNeverWrong(
      f: Input, run: seq<Chunking.Action>, readFails: bool, start: Progress, arc: Archive, restored: seq<Bytes>)
    requires ValidInput(f) && |start.backends| > 0 && start.chunks == []
    requires CollisionFree(f.ctx.lib, Elements(f.pieces) + Elements(restored))
    requires var s := Chunking.Execute(Chunking.Source(|f.pieces|, readFails), run);
             s.Some? && arc.chunks == Added(f, s.value.received, start).chunks
    requires MadeOf(f.ctx, arc, restored) && |restored| == |arc.chunks|
    ensures Flatten(restored) <= Flatten(f.pieces)
    ensures |arc.chunks| == |f.pieces| ==> Flatten(restored) == Flatten(f.pieces)
  {
    var src := Chunking.Source(|f.pieces|, readFails);
    var s := Chunking.Execute(src, run).value;
    AddedTrue(f, s.received, start);
    forall c | c in arc.chunks ensures c.decryptedHash == f.ctx.lib.hash(f.pieces[c.num]) {
      assert TrueRecord(f, c);
    }
    RestoreIntegrity(f.ctx, arc, f.pieces, restored);
    FlattenPrefix(f.pieces, |restored|);
  }
}
