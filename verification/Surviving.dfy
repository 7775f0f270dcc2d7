/**
 Getting a chunk back: what backends serve of a stored part after anything has happened to them and some have failed
 for good, exactly; fault tolerance; and two ways in which a torn copy destroys a chunk.
 */
module Surviving {
  import opened Basics
  import opened Libraries
  import opened Codec
  import opened Erasure
  import opened Backends
  import opened Resilience
  import opened Archives
  import opened Decoding
  import opened Enduring
  import opened Storing
  import Chunking

  /* ---- What is served of a part ---- */

  /** Later: the backends in `lost` have failed for good, the others are healthy. */
  ghost predicate Survived(bs: seq<Backend>, bs': seq<Backend>, lost: set<nat>) {
    |bs'| == |bs| && forall b: nat | b < |bs| :: if b in lost then Dead(bs'[b]) else Healthy(bs'[b])
  }

  /** The remaining backends have kept their copies of the part, whatever else has become of them. */
  predicate KeptOn(bs: seq<Backend>, bs': seq<Backend>, lost: set<nat>, key: PartKey) {
    |bs'| == |bs| && forall b: nat | b < |bs| && b !in lost :: CopyAt(bs'[b], key) == CopyAt(bs[b], key)
  }

  lemma DeadOrHealthy(be: Backend)
    ensures !(Dead(be) && Healthy(be))
  {
    assert Dead(be) ==> !Recovers(be, be.clock);
  }

  lemma {:induction false} ServedIsFrom(bs: seq<Backend>, bs': seq<Backend>, lost: set<nat>, key: PartKey, b: nat)
    requires Survived(bs, bs', lost) && KeptOn(bs, bs', lost, key) && b <= |bs|
    ensures LoadedData(Served(bs', LoadPart(key), b)) == FirstCopy(bs, lost, key, b)
    decreases |bs| - b
  {
    if b < |bs| {
      ServedIsFrom(bs, bs', lost, key, b + 1);
      DeadOrHealthy(bs'[b]);
      assert b !in lost ==> CopyAt(bs'[b], key) == CopyAt(bs[b], key);
    }
  }

  /** What is served of a part after a loss is the first remaining copy. */
  lemma ServedIsFirstCopy(bs: seq<Backend>, bs': seq<Backend>, lost: set<nat>, key: PartKey)
    requires Survived(bs, bs', lost) && KeptOn(bs, bs', lost, key)
    ensures ContentsOf(bs')(key) == FirstCopy(bs, lost, key, 0)
  {
    ServedIsFrom(bs, bs', lost, key, 0);
  }

  /** `bs'` is `bs` after the part was stored on the backends in `touched`. */
  ghost predicate StoredOn(bs: seq<Backend>, bs': seq<Backend>, touched: set<nat>, key: PartKey, data: Bytes) {
    && |bs'| == |bs|
    && forall b: nat | b < |bs| ::
         CopyAt(bs'[b], key) == if b in touched then Some(StoredOver(bs[b], key, data)) else CopyAt(bs[b], key)
  }

  /**
   A condition on the backends before the part is stored, and on which of them will be lost: the first remaining
   backend, from `b` on, that has a copy or gets one, either gets one and had none of the right size with wrong
   contents, or gets none and has a right one.
   */
  predicate ServesRight(bs: seq<Backend>, touched: set<nat>, lost: set<nat>, key: PartKey, data: Bytes, b: nat)
    requires b <= |bs|
    decreases |bs| - b
  {
    if b == |bs| then true
    else if b in lost || (b !in touched && key !in bs[b].parts) then ServesRight(bs, touched, lost, key, data, b + 1)
    else if b in touched then HasSize(bs[b], key, |data|) ==> bs[b].parts[key] == data
    else bs[b].parts[key] == data
  }

  lemma {:induction false} ServedExactlyFrom(
      bs: seq<Backend>, bs1: seq<Backend>, touched: set<nat>, lost: set<nat>, key: PartKey, data: Bytes, b: nat)
    requires StoredOn(bs, bs1, touched, key, data) && b <= |bs|
    ensures FirstCopy(bs1, lost, key, b).None? || FirstCopy(bs1, lost, key, b) == Some(data)
        <==> ServesRight(bs, touched, lost, key, data, b)
    decreases |bs| - b
  {
    if b < |bs| {
      ServedExactlyFrom(bs, bs1, touched, lost, key, data, b + 1);
      assert CopyAt(bs1[b], key) == if b in touched then Some(StoredOver(bs[b], key, data)) else CopyAt(bs[b], key);
    }
  }

  /**
   A part that was stored without failure is served rightly, before anything else happens to it, if and only if the
   condition held before it was stored.
   */
  lemma ServedExactly(
      bs: seq<Backend>, bs1: seq<Backend>, touched: set<nat>, lost: set<nat>, key: PartKey, data: Bytes)
    requires StoredOn(bs, bs1, touched, key, data)
    ensures ServedRight(bs1, lost, key, data) <==> ServesRight(bs, touched, lost, key, data, 0)
  {
    ServedExactlyFrom(bs, bs1, touched, lost, key, data, 0);
  }

  /** Backends without a wrong copy of the part meet the condition. */
  lemma {:induction false} CleanServesRight(
      bs: seq<Backend>, touched: set<nat>, lost: set<nat>, key: PartKey, data: Bytes, b: nat)
    requires b <= |bs| && forall i | 0 <= i < |bs| && i !in lost && key in bs[i].parts :: bs[i].parts[key] == data
    ensures ServesRight(bs, touched, lost, key, data, b)
    decreases |bs| - b
  {
    if b < |bs| { CleanServesRight(bs, touched, lost, key, data, b + 1); }
  }

  /** One chunk: its parts after a successful StoreChunk. */
  lemma ChunkStoredOn(bs: seq<Backend>, last: nat, hash: string, total: nat, data: seq<Bytes>, p: nat)
    requires |bs| > 0 && p < |data| && StoreParts(bs, last, hash, total, data, 0, 0).2.Some?
    ensures StoredOn(bs, StoreParts(bs, last, hash, total, data, 0, 0).0, {Place(last, |bs|, p)},
      PartKey(hash, p, total), data[p])
  {
    forall b: nat | b < |bs|
      ensures CopyAt(StoreParts(bs, last, hash, total, data, 0, 0).0[b], PartKey(hash, p, total))
           == if b in {Place(last, |bs|, p)} then Some(StoredOver(bs[b], PartKey(hash, p, total), data[p]))
              else CopyAt(bs[b], PartKey(hash, p, total))
    {
      StoreEffect(bs, last, hash, total, data, 0, 0, b, PartKey(hash, p, total));
    }
  }

  /* ---- Fault tolerance ---- */

  /** The places of the first `i` parts that are lost. */
  function LostPlaces(last: nat, n: nat, i: nat, lost: set<nat>): (r: set<nat>)
    ensures r <= lost
  {
    if i == 0 then {}
    else LostPlaces(last, n, i - 1, lost) + if Place(last, n, i - 1) in lost then {Place(last, n, i - 1)} else {}
  }

  /** Each lost backend costs at most one of up to `n` parts: round robin never uses a backend twice. */
  lemma {:induction false} LostBackendsCostOnePartEach(
      c: Chunk, contents: Contents, last: nat, n: nat, i: nat, lost: set<nat>)
    requires last < n && i <= n
    requires forall p: nat | p < i && Place(last, n, p) !in lost :: contents(PartOf(c, p)).Some?
    ensures Available(contents, c, i) + |LostPlaces(last, n, i, lost)| >= i
    ensures forall p: nat | i <= p < n :: Place(last, n, p) !in LostPlaces(last, n, i, lost)
  {
    if i > 0 {
      LostBackendsCostOnePartEach(c, contents, last, n, i - 1, lost);
      forall p: nat | i <= p < n ensures Place(last, n, p) != Place(last, n, i - 1) {
        PlaceNear(last, n, p);
        PlaceNear(last, n, i - 1);
      }
    }
  }

  /** With no more lost backends than parity parts, enough parts can be loaded. */
  lemma EnoughSurvive(c: Chunk, contents: Contents, n: nat, last: nat, lost: set<nat>)
    requires last < n == TotalParts(c) && |lost| <= c.parityParts
    requires forall i: nat :: i < n && Place(last, n, i) !in lost ==> contents(PartOf(c, i)).Some?
    ensures Available(contents, c, TotalParts(c)) >= c.dataParts
  {
    LostBackendsCostOnePartEach(c, contents, last, n, n, lost);
    SubsetSize(LostPlaces(last, n, n, lost), lost);
  }

  predicate MatchingSettings(opts: Options, arc: Archive) {
    arc.compressed == opts.compress && arc.encrypted == opts.encrypt
  }

  /** The library laws and the key a round trip needs. */
  ghost predicate RoundTrips(f: Input) {
    && ValidInput(f) && Sound(f.ctx) && CompressionLaws(f.ctx.lib)
    && (f.opts.encrypt == AES ==> f.ctx.key != "")
    && ParityLaw(f.ctx, f.opts)
  }

  /** The parts of the chunk are each served rightly or not at all, and served unless their place is lost. */
  ghost predicate ServedWell(contents: Contents, c: Chunk, parts: seq<Bytes>, n: nat, at: nat, lost: set<nat>) {
    && (forall i: nat :: i < |parts| ==> contents(PartOf(c, i)).None? || contents(PartOf(c, i)) == Some(parts[i]))
    && (forall i: nat :: i < |parts| && Place(at, n, i) !in lost ==> contents(PartOf(c, i)).Some?)
  }

  /** A chunk whose parts are served so loads, if no more backends are lost than there are parity parts. */
  lemma LoadsBack(
      f: Input, arc: Archive, p: Bytes, num: nat, contents: Contents, n: nat, at: nat, lost: set<nat>)
    requires RoundTrips(f) && MatchingSettings(f.opts, arc) && EncodedChunk(f, p, num).Some?
    requires PartCounts(n, f.opts.parityParts) == Some((f.opts.dataParts, f.opts.parityParts)) && at < n
    requires |lost| <= f.opts.parityParts
    requires var (c, parts) := EncodedChunk(f, p, num).value; ServedWell(contents, c, parts, n, at, lost)
    ensures Loaded(f.ctx, arc, EncodedChunk(f, p, num).value.0, contents).0 == Ok(p)
  {
    var (c, parts) := EncodedChunk(f, p, num).value;
    var enc := Encoded(f.ctx, f.opts.compress, f.opts.encrypt, p).value;
    DecodedEncoded(f.ctx, arc, c, p);
    PartCount(f, p, num);
    if f.opts.parityParts > 0 {
      EnoughSurvive(c, contents, n, at, lost);
      ReconstructionExact(f.ctx, arc, c, contents, enc, parts);
    } else {
      NothingLost(lost);
    }
  }

  lemma NothingLost<T>(s: set<T>)
    requires |s| == 0
    ensures s == {}
  {
  }

  /** The condition for every part of one chunk, when it is stored next. */
  predicate AllServeRight(bs: seq<Backend>, last: nat, lost: set<nat>, c: Chunk, parts: seq<Bytes>) {
    forall p: nat | p < |parts| :: ServesRight(bs, {Place(last, |bs|, p)}, lost, PartOf(c, p), parts[p], 0)
  }

  /**
   Later operations have left the chunk's parts alone or stored them again, the part that each remaining backend
   serves first is not torn, and the loss keeps the remaining copies.
   */
  ghost predicate Stands(
      c: Chunk, parts: seq<Bytes>, later: seq<Event>, end: seq<Backend>, bs': seq<Backend>, lost: set<nat>)
  {
    forall p: nat | p < |parts| :: PartStands(PartOf(c, p), parts[p], later, end, bs', lost)
  }

  ghost predicate PartStands(
      key: PartKey, data: Bytes, later: seq<Event>, end: seq<Backend>, bs': seq<Backend>, lost: set<nat>)
  {
    AllInnocent(later, key, data) && ServedRight(end, lost, key, data) && KeptOn(end, bs', lost, key)
  }

  /**
   Fault tolerance: a chunk stored with `t` parity parts on `n` backends, from any round-robin position, can be loaded
   after anything has happened to the backends later and any `t` of them have then failed for good, as long as no
   part's first remaining copy is torn. With `t` of 0 no backend may fail.
   */
  lemma FaultTolerance(
      f: Input, arc: Archive, p: Bytes, num: nat, bs: seq<Backend>, last: nat, later: seq<Event>,
      bs': seq<Backend>, lost: set<nat>)
    requires RoundTrips(f) && MatchingSettings(f.opts, arc) && EncodedChunk(f, p, num).Some? && last < |bs|
    requires PartCounts(|bs|, f.opts.parityParts) == Some((f.opts.dataParts, f.opts.parityParts))
    requires var (c, parts) := EncodedChunk(f, p, num).value;
             var r := StoreParts(bs, last, c.hash, c.dataParts, parts, 0, 0);
             var end := After(r.0, r.1, later).0;
             r.2.Some? && Survived(end, bs', lost) && Stands(c, parts, later, end, bs', lost)
    requires |lost| <= f.opts.parityParts
    ensures Loaded(f.ctx, arc, EncodedChunk(f, p, num).value.0, ContentsOf(bs')).0 == Ok(p)
  {
    var (c, parts) := EncodedChunk(f, p, num).value;
    var r := StoreParts(bs, last, c.hash, c.dataParts, parts, 0, 0);
    var end := After(r.0, r.1, later).0;
    forall i: nat | i < |parts|
      ensures ContentsOf(bs')(PartOf(c, i)).None? || ContentsOf(bs')(PartOf(c, i)) == Some(parts[i])
      ensures Place(last, |bs|, i) !in lost ==> ContentsOf(bs')(PartOf(c, i)).Some?
    {
      assert PartStands(PartOf(c, i), parts[i], later, end, bs', lost);
      ServedIsFirstCopy(end, bs', lost, PartOf(c, i));
      StoredStays(bs, last, StoreEvent(c.hash, c.dataParts, parts), later, PartOf(c, i), parts[i]);
      if Place(last, |bs|, i) !in lost { FirstCopyExists(end, lost, PartOf(c, i), 0, Place(last, |bs|, i)); }
    }
    LoadsBack(f, arc, p, num, ContentsOf(bs'), |bs|, last, lost);
  }

  /**
   When it is not torn: if the condition held before the chunk was stored and no later operation has failed to store
   one of its parts.
   */
  lemma UndisturbedServes(
      bs: seq<Backend>, last: nat, c: Chunk, parts: seq<Bytes>, later: seq<Event>, lost: set<nat>, p: nat)
    requires |bs| > 0 && StoreParts(bs, last, c.hash, c.dataParts, parts, 0, 0).2.Some? && p < |parts|
    requires AllServeRight(bs, last, lost, c, parts) && AllInnocent(later, PartOf(c, p), parts[p])
    requires var r := StoreParts(bs, last, c.hash, c.dataParts, parts, 0, 0); NoFailure(r.0, r.1, later, PartOf(c, p))
    ensures var r := StoreParts(bs, last, c.hash, c.dataParts, parts, 0, 0);
            ServedRight(After(r.0, r.1, later).0, lost, PartOf(c, p), parts[p])
  {
    var r := StoreParts(bs, last, c.hash, c.dataParts, parts, 0, 0);
    ChunkStoredOn(bs, last, c.hash, c.dataParts, parts, p);
    ServedExactly(bs, r.0, {Place(last, |bs|, p)}, lost, PartOf(c, p), parts[p]);
    NoFailureKeepsRight(r.0, r.1, later, lost, PartOf(c, p), parts[p]);
  }

  /** What the first remaining copy decodes to, if there is one that the decoder accepts. */
  function ServedValue(f: Input, arc: Archive, first: Option<Bytes>): Option<Bytes>
    requires CipherLaws(f.ctx.lib) && ValidSettings(arc)
  {
    if first.None? || Unpacked(f.ctx, arc, first.value).Err? then None
    else Some(Unpacked(f.ctx, arc, first.value).value)
  }

  /** A chunk without parity loads exactly what is served of its one part. */
  lemma LoadsWhatIsServed(f: Input, arc: Archive, p: Bytes, num: nat, contents: Contents)
    requires RoundTrips(f) && MatchingSettings(f.opts, arc) && EncodedChunk(f, p, num).Some?
    requires f.opts.parityParts == 0
    requires var value := ServedValue(f, arc, contents(PartOf(EncodedChunk(f, p, num).value.0, 0)));
             value.Some? ==> CollisionFree(f.ctx.lib, {p, value.value})
    ensures var (c, parts) := EncodedChunk(f, p, num).value;
            && |parts| == 1
            && (Loaded(f.ctx, arc, c, contents).0 == Ok(p) <==> ServedValue(f, arc, contents(PartOf(c, 0))) == Some(p))
            && ServedValue(f, arc, Some(parts[0])) == Some(p)
  {
    var c := EncodedChunk(f, p, num).value.0;
    DecodedEncoded(f.ctx, arc, c, p);
  }

  /**
   Exactly when a chunk without parity still loads: stored with success, and its part's own place having a right copy
   and remaining, it loads after any later operations if and only if the copy that is served then decodes to the data;
   and that is so, without compression, if and only if no copy is torn ahead of every right one.
   */
  lemma StillLoadsExactly(
      f: Input, arc: Archive, p: Bytes, num: nat, bs: seq<Backend>, last: nat, later: seq<Event>,
      bs': seq<Backend>, lost: set<nat>)
    requires RoundTrips(f) && MatchingSettings(f.opts, arc) && EncodedChunk(f, p, num).Some? && last < |bs|
    requires f.opts.parityParts == 0 && Place(last, |bs|, 0) < |bs| && Place(last, |bs|, 0) !in lost
    requires var (c, parts) := EncodedChunk(f, p, num).value;
             var r := StoreParts(bs, last, c.hash, c.dataParts, parts, 0, 0);
             var end, key := After(r.0, r.1, later).0, PartOf(c, 0);
             && |parts| == 1 && CopyOn(r.0, Place(last, |bs|, 0), key) == Some(parts[0])
             && AllInnocent(later, key, parts[0]) && Survived(end, bs', lost) && KeptOn(end, bs', lost, key)
             && (ServedValue(f, arc, FirstCopy(end, lost, key, 0)).Some? ==>
                   CollisionFree(f.ctx.lib, {p, ServedValue(f, arc, FirstCopy(end, lost, key, 0)).value}))
    ensures var (c, parts) := EncodedChunk(f, p, num).value;
            var r := StoreParts(bs, last, c.hash, c.dataParts, parts, 0, 0);
            var end, key := After(r.0, r.1, later).0, PartOf(c, 0);
            var loads := Loaded(f.ctx, arc, c, ContentsOf(bs')).0 == Ok(p);
            && (loads <==> ServedValue(f, arc, FirstCopy(end, lost, key, 0)) == Some(p))
            && (!TornAhead(end, lost, key, parts[0], Place(last, |bs|, 0)) ==> loads)
            && (f.opts.compress == NONE ==> (loads <==> !TornAhead(end, lost, key, parts[0], Place(last, |bs|, 0))))
  {
    var (c, parts) := EncodedChunk(f, p, num).value;
    var r := StoreParts(bs, last, c.hash, c.dataParts, parts, 0, 0);
    var end, key := After(r.0, r.1, later).0, PartOf(c, 0);
    ServedIsFirstCopy(end, bs', lost, key);
    LoadsWhatIsServed(f, arc, p, num, ContentsOf(bs'));
    StillServedExactly(r.0, r.1, later, lost, key, parts[0], Place(last, |bs|, 0));
    var first := FirstCopy(end, lost, key, 0);
    if f.opts.compress == NONE && first.Some? { UnpackedApart(f.ctx, arc, parts[0], first.value); }
  }

  /* ---- Fault tolerance, exactly ---- */

  /** None of the backends has a part of the chunk. */
  ghost predicate NewChunk(bs: seq<Backend>, c: Chunk, parts: nat) {
    forall b: nat, p: nat | b < |bs| && p < parts :: CopyAt(bs[b], PartOf(c, p)).None?
  }

  /** Every backend is the place of exactly one of `n` parts. */
  lemma PlaceOf(last: nat, n: nat, b: nat) returns (p: nat)
    requires last < n && b < n
    ensures p < n && Place(last, n, p) == b
  {
    p := if b > last then b - last - 1 else b + n - last - 1;
    PlaceNear(last, n, p);
  }

  lemma AllLostPlaces(last: nat, n: nat, lost: set<nat>)
    requires last < n && forall b | b in lost :: b < n
    ensures LostPlaces(last, n, n, lost) == lost
  {
    forall b | b in lost ensures b in LostPlaces(last, n, n, lost) {
      var p := PlaceOf(last, n, b);
      LostPlaceIn(last, n, n, lost, p);
    }
  }

  lemma {:induction false} LostPlaceIn(last: nat, n: nat, i: nat, lost: set<nat>, p: nat)
    requires p < i && Place(last, n, p) in lost
    ensures Place(last, n, p) in LostPlaces(last, n, i, lost)
  {
    if p < i - 1 { LostPlaceIn(last, n, i - 1, lost, p); }
  }

  /** If a part can be loaded exactly when its place remains, each lost backend costs exactly one part. */
  lemma {:induction false} LostCostExactlyOne(c: Chunk, contents: Contents, last: nat, n: nat, i: nat, lost: set<nat>)
    requires last < n && i <= n
    requires forall p: nat | p < i :: contents(PartOf(c, p)).Some? <==> Place(last, n, p) !in lost
    ensures Available(contents, c, i) + |LostPlaces(last, n, i, lost)| == i
    ensures forall p: nat | i <= p < n :: Place(last, n, p) !in LostPlaces(last, n, i, lost)
  {
    if i > 0 {
      LostCostExactlyOne(c, contents, last, n, i - 1, lost);
      forall p: nat | i <= p < n ensures Place(last, n, p) != Place(last, n, i - 1) {
        PlaceNear(last, n, p);
        PlaceNear(last, n, i - 1);
      }
    }
  }

  /**
   A part that was new everywhere is, after the store of its chunk, on its place and nowhere else.
   */
  lemma NewPartServed(
      bs: seq<Backend>, last: nat, c: Chunk, parts: seq<Bytes>, bs': seq<Backend>, lost: set<nat>, p: nat)
    requires |bs| > 0 && p < |parts| && NewChunk(bs, c, |parts|)
    requires var r := StoreParts(bs, last, c.hash, c.dataParts, parts, 0, 0);
             r.2.Some? && Survived(r.0, bs', lost) && KeptOn(r.0, bs', lost, PartOf(c, p))
    ensures ContentsOf(bs')(PartOf(c, p)) == if Place(last, |bs|, p) in lost then None else Some(parts[p])
  {
    var r := StoreParts(bs, last, c.hash, c.dataParts, parts, 0, 0);
    var key, at := PartOf(c, p), Place(last, |bs|, p);
    ServedIsFirstCopy(r.0, bs', lost, key);
    PlaceInRange(last, |bs|, p);
    forall b: nat | b < |bs| ensures CopyAt(r.0[b], key) == if b == at then Some(parts[p]) else None {
      StoreEffect(bs, last, c.hash, c.dataParts, parts, 0, 0, b, key);
      assert CopyAt(bs[b], key).None?;
    }
    if FirstCopy(r.0, lost, key, 0).Some? {
      var first := FirstCopyIs(r.0, lost, key, 0);
    }
    if at !in lost { FirstCopyExists(r.0, lost, key, 0, at); }
  }

  /** A part is served, and rightly, exactly if its place remains. */
  ghost predicate ServedUnlessLost(contents: Contents, c: Chunk, parts: seq<Bytes>, n: nat, at: nat, lost: set<nat>) {
    forall i: nat | i < |parts| :: contents(PartOf(c, i)) == if Place(at, n, i) in lost then None else Some(parts[i])
  }

  /** A chunk with parity whose parts are served so. */
  lemma LoadsUpToTolerance(
      f: Input, arc: Archive, p: Bytes, num: nat, contents: Contents, n: nat, at: nat, lost: set<nat>)
    requires RoundTrips(f) && MatchingSettings(f.opts, arc) && EncodedChunk(f, p, num).Some?
    requires PartCounts(n, f.opts.parityParts) == Some((f.opts.dataParts, f.opts.parityParts)) && at < n
    requires f.opts.parityParts > 0 && forall b | b in lost :: b < n
    requires var (c, parts) := EncodedChunk(f, p, num).value; ServedUnlessLost(contents, c, parts, n, at, lost)
    ensures Loaded(f.ctx, arc, EncodedChunk(f, p, num).value.0, contents).0 == Ok(p) <==> |lost| <= f.opts.parityParts
  {
    var (c, parts) := EncodedChunk(f, p, num).value;
    var enc := Encoded(f.ctx, f.opts.compress, f.opts.encrypt, p).value;
    PartCount(f, p, num);
    DecodedEncoded(f.ctx, arc, c, p);
    LostCostExactlyOne(c, contents, at, n, n, lost);
    AllLostPlaces(at, n, lost);
    ReconstructionExact(f.ctx, arc, c, contents, enc, parts);
  }

  /** A chunk without parity. */
  lemma LoadsIfPlaceRemains(
      f: Input, arc: Archive, p: Bytes, num: nat, contents: Contents, n: nat, at: nat, lost: set<nat>)
    requires RoundTrips(f) && MatchingSettings(f.opts, arc) && EncodedChunk(f, p, num).Some?
    requires f.opts.parityParts == 0
    requires var (c, parts) := EncodedChunk(f, p, num).value; ServedUnlessLost(contents, c, parts, n, at, lost)
    ensures Loaded(f.ctx, arc, EncodedChunk(f, p, num).value.0, contents).0 == Ok(p) <==> Place(at, n, 0) !in lost
  {
    var (c, parts) := EncodedChunk(f, p, num).value;
    DecodedEncoded(f.ctx, arc, c, p);
    assert |parts| == 1;
  }

  /**
   The tolerance is exact: a chunk that was new, stored with `t` > 0 parity parts, loads after the loss of any set of
   backends if and only if these are no more than `t`, whichever they are; without parity, if and only if the backend
   that its one part went to is not among them.
   */
  lemma FaultToleranceExact(
      f: Input, arc: Archive, p: Bytes, num: nat, bs: seq<Backend>, last: nat, bs': seq<Backend>, lost: set<nat>)
    requires RoundTrips(f) && MatchingSettings(f.opts, arc) && EncodedChunk(f, p, num).Some? && last < |bs|
    requires PartCounts(|bs|, f.opts.parityParts) == Some((f.opts.dataParts, f.opts.parityParts))
    requires forall b | b in lost :: b < |bs|
    requires var (c, parts) := EncodedChunk(f, p, num).value;
             var r := StoreParts(bs, last, c.hash, c.dataParts, parts, 0, 0);
             && NewChunk(bs, c, |parts|) && r.2.Some? && Survived(r.0, bs', lost)
             && forall i: nat | i < |parts| :: KeptOn(r.0, bs', lost, PartOf(c, i))
    ensures Loaded(f.ctx, arc, EncodedChunk(f, p, num).value.0, ContentsOf(bs')).0 == Ok(p)
        <==> if f.opts.parityParts > 0 then |lost| <= f.opts.parityParts else Place(last, |bs|, 0) !in lost
  {
    var (c, parts) := EncodedChunk(f, p, num).value;
    forall i: nat | i < |parts|
      ensures ContentsOf(bs')(PartOf(c, i)) == if Place(last, |bs|, i) in lost then None else Some(parts[i])
    {
      NewPartServed(bs, last, c, parts, bs', lost, i);
    }
    if f.opts.parityParts > 0 {
      LoadsUpToTolerance(f, arc, p, num, ContentsOf(bs'), |bs|, last, lost);
    } else {
      LoadsIfPlaceRemains(f, arc, p, num, ContentsOf(bs'), |bs|, last, lost);
    }
  }

  /* ---- Where the condition fails: a torn copy ---- */

  /** Fails three times, leaving an empty file the first time; never fails again. */
  function FailsThrice(): Backend {
    Backend(map[], map[], (t: nat) => if t == 0 then Fails(Some(0)) else if t < 3 then Fails(None) else Succeeds, 0)
  }

  function NeverFailing(): Backend { Backend(map[], map[], (t: nat) => Succeeds, 0) }

  lemma ThreeFailures(key: PartKey, data: Bytes)
    requires data != []
    ensures var r := Try(FailsThrice(), StorePart(key, data), RETRIES);
            && r.1.None? && r.0.parts == map[key := []] && r.0.clock == 3 && r.0.faults == FailsThrice().faults
  {
    var b0 := FailsThrice();
    var b1 := Once(b0, StorePart(key, data)).0;
    var b2 := Once(b1, StorePart(key, data)).0;
    var b3 := Once(b2, StorePart(key, data)).0;
    assert b1.parts == map[key := []];
    assert Try(b0, StorePart(key, data), 3) == Try(b1, StorePart(key, data), 2);
    assert Try(b1, StorePart(key, data), 2) == Try(b2, StorePart(key, data), 1);
    assert Try(b2, StorePart(key, data), 1) == Try(b3, StorePart(key, data), 0);
  }

  lemma OnePartStored(bs: seq<Backend>, last: nat, hash: string, total: nat, data: Bytes)
    requires |bs| > 0
    ensures var at := NextBackend(last, |bs|);
            var t := Try(bs[at], StorePart(PartKey(hash, 0, total), data), RETRIES);
            var r := StoreParts(bs, last, hash, total, [data], 0, 0);
            r.0 == bs[at := t.0] && r.1 == at && (r.2.Some? <==> t.1.Some?)
  {
    var at := NextBackend(last, |bs|);
    var t := Try(bs[at], StorePart(PartKey(hash, 0, total), data), RETRIES);
    if t.1.Some? {
      var n := if t.1.value.Size? && t.1.value.size > 0 then t.1.value.size else 0;
      assert StoreParts(bs[at := t.0], at, hash, total, [data], 1, n) == (bs[at := t.0], at, Some(n));
    }
  }

  /**
   A store without parity on two backends fails on the first, which leaves an empty file. The next store of the same
   chunk succeeds on the second. From then on both backends are healthy and nothing is lost; but the empty copy is
   the one that is served, and the chunk cannot be read.
   */
  lemma TornCopyIsServed(f: Input, arc: Archive, p: Bytes, num: nat) returns (bs: seq<Backend>, bs': seq<Backend>)
    requires ValidInput(f) && Sound(f.ctx) && MatchingSettings(f.opts, arc)
    requires f.opts.compress == NONE && f.opts.encrypt == NONE && f.opts.parityParts == 0
    requires p != [] && CollisionFree(f.ctx.lib, {p, []})
    ensures EncodedChunk(f, p, num).Some?
    ensures var (c, parts) := EncodedChunk(f, p, num).value;
            var first := StoreParts([FailsThrice(), NeverFailing()], 1, c.hash, c.dataParts, parts, 0, 0);
            var second := StoreParts(first.0, first.1, c.hash, c.dataParts, parts, 0, 0);
            && first.2.None? && bs == first.0 && second.2.Some? && bs' == second.0
            && AllHealthy(bs') && Survived(bs', bs', {})
            && !AllServeRight(bs, first.1, {}, c, parts)
            && Loaded(f.ctx, arc, c, ContentsOf(bs')).0 == Err(WrongChecksum)
  {
    PlainEncoded(f, p);
    var (c, parts) := EncodedChunk(f, p, num).value;
    var key := PartOf(c, 0);
    var bs0 := [FailsThrice(), NeverFailing()];
    ThreeFailures(key, p);
    OnePartStored(bs0, 1, c.hash, c.dataParts, p);
    bs := StoreParts(bs0, 1, c.hash, c.dataParts, parts, 0, 0).0;
    assert Try(bs[1], StorePart(key, p), RETRIES) == Once(bs[1], StorePart(key, p));
    OnePartStored(bs, 0, c.hash, c.dataParts, p);
    bs' := StoreParts(bs, 0, c.hash, c.dataParts, parts, 0, 0).0;
    forall t: nat | t >= bs'[0].clock ensures Recovers(bs'[0], t) { assert bs'[0].faults(t).Succeeds?; }
    forall t: nat | t >= bs'[1].clock ensures Recovers(bs'[1], t) { assert bs'[1].faults(t).Succeeds?; }
    assert Served(bs', LoadPart(key), 0) == Some(Data([]));
    DecodedPlain(f.ctx, arc, c, []);
    ChunkStoredOn(bs, 0, c.hash, c.dataParts, parts, 0);
    ServedExactly(bs, bs', {Place(0, 2, 0)}, {}, key, p);
    ServedIsFirstCopy(bs', bs', {}, key);
    PlainDecoded(f, arc, []);
  }

  /**
   A later failure destroys an earlier success. A store without parity on two backends succeeds on the second. A later
   store of the same chunk, by another file or another backup, goes to the first, fails and leaves an empty file.
   From then on both backends are healthy and nothing is lost, and the chunk cannot be read any more.
   */
  lemma LaterFailureDestroys(f: Input, arc: Archive, p: Bytes, num: nat) returns (bs1: seq<Backend>, bs2: seq<Backend>)
    requires ValidInput(f) && Sound(f.ctx) && MatchingSettings(f.opts, arc)
    requires f.opts.compress == NONE && f.opts.encrypt == NONE && f.opts.parityParts == 0
    requires p != [] && CollisionFree(f.ctx.lib, {p, []})
    ensures EncodedChunk(f, p, num).Some?
    ensures var (c, parts) := EncodedChunk(f, p, num).value;
            var first := StoreParts([FailsThrice(), NeverFailing()], 0, c.hash, c.dataParts, parts, 0, 0);
            var second := StoreParts(first.0, first.1, c.hash, c.dataParts, parts, 0, 0);
            && first.2.Some? && bs1 == first.0 && ServedRight(bs1, {}, PartOf(c, 0), p)
            && second.2.None? && bs2 == second.0 && AllHealthy(bs2)
            && TornAhead(bs2, {}, PartOf(c, 0), p, 1)
            && Loaded(f.ctx, arc, c, ContentsOf(bs2)).0 == Err(WrongChecksum)
  {
    PlainEncoded(f, p);
    var (c, parts) := EncodedChunk(f, p, num).value;
    var key := PartOf(c, 0);
    var bs0 := [FailsThrice(), NeverFailing()];
    assert Try(bs0[1], StorePart(key, p), RETRIES) == Once(bs0[1], StorePart(key, p));
    OnePartStored(bs0, 0, c.hash, c.dataParts, p);
    bs1 := StoreParts(bs0, 0, c.hash, c.dataParts, parts, 0, 0).0;
    ThreeFailures(key, p);
    OnePartStored(bs1, 1, c.hash, c.dataParts, p);
    bs2 := StoreParts(bs1, 1, c.hash, c.dataParts, parts, 0, 0).0;
    forall t: nat | t >= bs2[0].clock ensures Recovers(bs2[0], t) { assert bs2[0].faults(t).Succeeds?; }
    forall t: nat | t >= bs2[1].clock ensures Recovers(bs2[1], t) { assert bs2[1].faults(t).Succeeds?; }
    assert Served(bs2, LoadPart(key), 0) == Some(Data([]));
    assert TornFirst(bs2, {}, key, p, 0);
    DecodedPlain(f.ctx, arc, c, []);
    PlainDecoded(f, arc, []);
  }

  /** Without compression and encryption the pipelines change nothing. */
  lemma PlainEncoded(f: Input, p: Bytes)
    requires ValidInput(f) && f.opts.compress == NONE && f.opts.encrypt == NONE
    ensures Encoded(f.ctx, NONE, NONE, p) == Ok(p)
  {
    var pipe := NewEncodingPipeline(f.ctx.lib, NONE, NONE, f.ctx.key).value;
    TwoProcessors(f.ctx.lib, pipe[0], pipe[1], p);
  }

  lemma PlainDecoded(f: Input, arc: Archive, p: Bytes)
    requires ValidInput(f) && arc.compressed == NONE && arc.encrypted == NONE
    ensures Decrypted(f.ctx, arc, p) == p
  {
    PipelinesUsable(f.ctx.lib, NONE, NONE, f.ctx.key);
    var pipe := NewDecodingPipeline(f.ctx.lib, NONE, NONE, f.ctx.key).value;
    TwoProcessors(f.ctx.lib, pipe[0], pipe[1], p);
  }
}
