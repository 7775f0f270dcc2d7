/**
 What the BackendManager guarantees against failing backends: retries hide short faults, metadata files
 behave as a write-all/read-one register, and round robin spreads the parts of a chunk.
 */
module Resilience {
  import opened Basics
  import opened Backends

  /** One of the three attempts from time `t` on succeeds. */
  predicate Recovers(be: Backend, t: nat) {
    be.faults(t).Succeeds? || be.faults(t + 1).Succeeds? || be.faults(t + 2).Succeeds?
  }

  /** The backend never again fails three times in a row. */
  ghost predicate Healthy(be: Backend) { forall t: nat | t >= be.clock :: Recovers(be, t) }

  /** The backend has failed for good. */
  ghost predicate Dead(be: Backend) { forall t: nat | t >= be.clock :: !be.faults(t).Succeeds? }

  ghost predicate Steady(bs: seq<Backend>) { forall b :: 0 <= b < |bs| ==> Healthy(bs[b]) || Dead(bs[b]) }

  predicate SameContents(be: Backend, be': Backend) { be'.parts == be.parts && be'.files == be.files }

  /** Same adversary, later. */
  ghost predicate Later(be: Backend, be': Backend) { be'.faults == be.faults && be'.clock >= be.clock }

  /** Only time has passed. */
  ghost predicate Alike(bs: seq<Backend>, bs': seq<Backend>) {
    |bs'| == |bs| && forall b :: 0 <= b < |bs| ==> SameContents(bs[b], bs'[b]) && Later(bs[b], bs'[b])
  }

  /** What the backend's contents have to say to a request to load. */
  function Held(be: Backend, req: Request): Option<Answer> {
    match req
    case LoadPart(key) => if key in be.parts then Some(Data(be.parts[key])) else None
    case LoadFile(file) => if file in be.files then Some(Data(be.files[file])) else None
    case _ => None
  }

  predicate Loads(req: Request) { req.LoadPart? || req.LoadFile? }

  lemma {:induction false} TryLoad(be: Backend, req: Request, n: nat)
    requires Loads(req)
    ensures var r := Try(be, req, n);
            && SameContents(be, r.0) && Later(be, r.0)
            && (r.1.Some? ==> r.1 == Held(be, req))
            && (Dead(be) ==> r.1.None?)
    decreases n
  {
    if n > 0 {
      TryLoad(Once(be, req).0, req, n - 1);
    }
  }

  /** Fewer than three failures in a row are invisible. */
  lemma TryLoadHealthy(be: Backend, req: Request)
    requires Loads(req) && Healthy(be)
    ensures Try(be, req, RETRIES).1 == Held(be, req)
  {
    var b1 := Once(be, req).0;
    var b2 := Once(b1, req).0;
    assert Recovers(be, be.clock);
    assert Try(be, req, 3) == if Once(be, req).1.Some? then Once(be, req) else Try(b1, req, 2);
    assert Try(b1, req, 2) == if Once(b1, req).1.Some? then Once(b1, req) else Try(b2, req, 1);
    TryLoad(b2, req, 1);
    assert Try(b2, req, 1) == if Once(b2, req).1.Some? then Once(b2, req) else Try(Once(b2, req).0, req, 0);
  }

  /** What a steady set of backends serves: the copy of the first live backend that has one. */
  ghost function Served(bs: seq<Backend>, req: Request, b: nat): Option<Answer>
    requires b <= |bs|
    decreases |bs| - b
  {
    if b == |bs| then None
    else if Healthy(bs[b]) && Held(bs[b], req).Some? then Held(bs[b], req)
    else Served(bs, req, b + 1)
  }

  lemma {:induction false} ServedAlike(bs: seq<Backend>, bs': seq<Backend>, req: Request, b: nat)
    requires Loads(req) && Alike(bs, bs') && Steady(bs) && b <= |bs|
    ensures Steady(bs') && Served(bs', req, b) == Served(bs, req, b)
    decreases |bs| - b
  {
    forall i | 0 <= i < |bs|
      ensures Healthy(bs[i]) ==> Healthy(bs'[i])
      ensures Dead(bs[i]) ==> Dead(bs'[i])
      ensures Dead(bs[i]) ==> !Healthy(bs[i]) && !Healthy(bs'[i])
    {
      if Healthy(bs[i]) {
        forall t: nat | t >= bs'[i].clock ensures Recovers(bs'[i], t) { assert Recovers(bs[i], t); }
      }
      if Dead(bs[i]) {
        assert !Recovers(bs[i], bs[i].clock) && !Recovers(bs'[i], bs'[i].clock);
      }
    }
    if b < |bs| {
      ServedAlike(bs, bs', req, b + 1);
    }
  }

  /**
   Loading from many backends: nothing but time changes, any answer is some backend's own copy, and once
   every backend is either healthy or dead the answer is exactly what the live contents say.
   */
  lemma {:induction false} FirstLoad(bs: seq<Backend>, req: Request, b: nat)
    requires Loads(req) && b <= |bs|
    ensures var r := First(bs, req, b);
            && Alike(bs, r.0)
            && (r.1.Some? ==> exists i :: b <= i < |bs| && Held(bs[i], req) == r.1)
            && (Steady(bs) ==> r.1 == Served(bs, req, b))
    decreases |bs| - b
  {
    if b < |bs| {
      var r := Try(bs[b], req, RETRIES);
      var bs' := bs[b := r.0];
      TryLoad(bs[b], req, RETRIES);
      FirstLoad(bs', req, b + 1);
      if Steady(bs) {
        ServedAlike(bs, bs', req, b + 1);
        if Healthy(bs[b]) { TryLoadHealthy(bs[b], req); }
      }
    }
  }

  /* ---- Metadata files: write all, read one ---- */

  /** What attempts to save `data` may leave behind when they all fail: the old file or a prefix of the new. */
  predicate Leftover(be: Backend, be': Backend, file: File, data: Bytes) {
    && be'.parts == be.parts
    && be'.files - {file} == be.files - {file}
    && (be'.files == be.files || (file in be'.files && be'.files[file] <= data))
  }

  lemma LeftoverJoin(a: Backend, b: Backend, c: Backend, file: File, data: Bytes)
    requires Leftover(a, b, file, data)
    ensures Leftover(b, c, file, data) ==> Leftover(a, c, file, data)
    ensures b.files[file := data] == a.files[file := data]
  {
    assert b.files[file := data] == (b.files - {file})[file := data] == a.files[file := data];
  }

  /** A save succeeds with exactly the new file in place, or fails after as many failures as attempts. */
  lemma {:induction false} TrySave(be: Backend, file: File, data: Bytes, n: nat)
    ensures var r := Try(be, SaveFile(file, data), n);
            && Later(be, r.0)
            && (r.1.Some? ==> r.0.parts == be.parts && r.0.files == be.files[file := data])
            && (r.1.None? ==> Leftover(be, r.0, file, data))
            && (r.1.None? ==> forall t: nat | be.clock <= t < be.clock + n :: !be.faults(t).Succeeds?)
    decreases n
  {
    if n > 0 && !be.faults(be.clock).Succeeds? {
      var b1 := Once(be, SaveFile(file, data)).0;
      TrySave(b1, file, data, n - 1);
      LeftoverJoin(be, b1, Try(b1, SaveFile(file, data), n - 1).0, file, data);
    }
  }

  /** Backend `b` failed the save: those before it have the new file, those after it are untouched. */
  ghost predicate FailedAt(bs: seq<Backend>, bs': seq<Backend>, file: File, data: Bytes, start: nat, b: nat) {
    && start <= b < |bs| == |bs'|
    && (forall i :: start <= i < b ==> bs'[i].parts == bs[i].parts && bs'[i].files == bs[i].files[file := data])
    && Leftover(bs[b], bs'[b], file, data)
    && !Recovers(bs[b], bs[b].clock)
    && (forall i :: b < i < |bs| ==> bs'[i] == bs[i])
  }

  /** Backends before `b` are not asked. */
  lemma {:induction false} EveryFrame(bs: seq<Backend>, req: Request, b: nat)
    requires b <= |bs|
    ensures forall i :: 0 <= i < b ==> Every(bs, req, b).0[i] == bs[i]
    decreases |bs| - b
  {
    if b < |bs| {
      EveryFrame(bs[b := Try(bs[b], req, RETRIES).0], req, b + 1);
    }
  }

  /** The backend has the new file and everything else as before. */
  ghost predicate Saved(be: Backend, be': Backend, file: File, data: Bytes) {
    be'.parts == be.parts && be'.files == be.files[file := data] && Later(be, be')
  }

  /** One more backend, saved before the others. */
  lemma FailedFurther(
      bs: seq<Backend>, bs1: seq<Backend>, bs': seq<Backend>, file: File, data: Bytes, b: nat, i: nat)
    requires b < |bs| && |bs1| == |bs| && FailedAt(bs1, bs', file, data, b + 1, i)
    requires forall j :: 0 <= j < |bs| && j != b ==> bs1[j] == bs[j]
    requires Saved(bs[b], bs1[b], file, data) && bs'[b] == bs1[b]
    ensures FailedAt(bs, bs', file, data, b, i)
  {
  }

  /**
   SaveSnapshot, SaveChunkIndex and SaveRepository: success puts the new bytes on every backend, failure
   happens at one backend that failed three times in a row and splits the backends into new and old.
   */
  lemma {:induction false} SaveEvery(bs: seq<Backend>, file: File, data: Bytes, b: nat)
    requires b <= |bs|
    ensures var r := Every(bs, SaveFile(file, data), b);
            && (r.1 ==> forall i :: b <= i < |bs| ==> Saved(bs[i], r.0[i], file, data))
            && (!r.1 ==> exists i :: FailedAt(bs, r.0, file, data, b, i))
    decreases |bs| - b
  {
    if b < |bs| {
      var r := Try(bs[b], SaveFile(file, data), RETRIES);
      var bs' := bs[b := r.0];
      TrySave(bs[b], file, data, RETRIES);
      if r.1.None? {
        assert FailedAt(bs, bs', file, data, b, b);
      } else {
        EveryFrame(bs', SaveFile(file, data), b + 1);
        SaveEvery(bs', file, data, b + 1);
        var rest := Every(bs', SaveFile(file, data), b + 1);
        if !rest.1 {
          var i :| FailedAt(bs', rest.0, file, data, b + 1, i);
          FailedFurther(bs, bs', rest.0, file, data, b, i);
        }
      }
    }
  }

  /** A save that fails can leave any part of the new file behind, the old one being lost. */
  lemma FailedSaveTears(was: Bytes, file: File, data: Bytes, n: nat) returns (be: Backend)
    requires n < |data|
    ensures be.files == map[file := was]
    ensures var r := Try(be, SaveFile(file, data), RETRIES);
            r.1.None? && r.0.files == map[file := data[..n]]
  {
    be := Backend(map[], map[file := was], (t: nat) => Fails(Some(n)), 0);
    var req := SaveFile(file, data);
    var b1 := Once(be, req).0;
    var b2 := Once(b1, req).0;
    var b3 := Once(b2, req).0;
    assert Try(be, req, 3) == Try(b1, req, 2);
    assert Try(b1, req, 2) == Try(b2, req, 1);
    assert Try(b2, req, 1) == Try(b3, req, 0);
    assert b3.files == map[file := data[..n]];
  }

  /** Every backend holds `data` in `file`. */
  ghost predicate AllHold(bs: seq<Backend>, file: File, data: Bytes) {
    forall i :: 0 <= i < |bs| ==> file in bs[i].files && bs[i].files[file] == data
  }

  lemma AllHoldIsRead(bs: seq<Backend>, file: File, data: Bytes)
    requires AllHold(bs, file, data)
    ensures First(bs, LoadFile(file), 0).1.Some? ==> First(bs, LoadFile(file), 0).1 == Some(Data(data))
    ensures Steady(bs) && (exists i :: 0 <= i < |bs| && Healthy(bs[i])) ==> First(bs, LoadFile(file), 0).1.Some?
  {
    FirstLoad(bs, LoadFile(file), 0);
    if i: nat :| Steady(bs) && i < |bs| && Healthy(bs[i]) {
      ServedSome(bs, LoadFile(file), 0, i);
    }
  }

  /**
   The register: after a successful save any later successful load, whichever backends have failed since,
   returns the saved bytes, and it is successful as long as one backend is healthy and the rest is steady.
   */
  lemma SavedFileIsRead(bs: seq<Backend>, file: File, data: Bytes, bs': seq<Backend>)
    requires Every(bs, SaveFile(file, data), 0).1
    requires |bs'| == |bs|
    requires forall i :: 0 <= i < |bs| ==> bs'[i].files == Every(bs, SaveFile(file, data), 0).0[i].files
    ensures var loaded := First(bs', LoadFile(file), 0).1;
            && (loaded.Some? ==> loaded == Some(Data(data)))
            && (Steady(bs') && (exists i :: 0 <= i < |bs'| && Healthy(bs'[i])) ==> loaded.Some?)
  {
    SaveEvery(bs, file, data, 0);
    assert AllHold(bs', file, data);
    AllHoldIsRead(bs', file, data);
  }

  lemma HealthySaveSucceeds(bs: seq<Backend>, file: File, data: Bytes)
    requires forall i :: 0 <= i < |bs| ==> Healthy(bs[i])
    ensures Every(bs, SaveFile(file, data), 0).1
  {
    SaveEvery(bs, file, data, 0);
    assert forall i :: 0 <= i < |bs| ==> Recovers(bs[i], bs[i].clock);
  }

  /** A live backend that has a copy makes the copy, or an earlier one, available. */
  lemma {:induction false} ServedSome(bs: seq<Backend>, req: Request, b: nat, i: nat)
    requires b <= i < |bs| && Healthy(bs[i]) && Held(bs[i], req).Some?
    ensures Served(bs, req, b).Some?
    decreases |bs| - b
  {
    if !(Healthy(bs[b]) && Held(bs[b], req).Some?) {
      ServedSome(bs, req, b + 1, i);
    }
  }

  /* ---- Chunk parts: round robin ---- */

  /** All parts but `key`, and all metadata, are as before. */
  ghost predicate OthersKept(be: Backend, be': Backend, key: PartKey) {
    && be'.files == be.files
    && (forall k | k != key :: k in be'.parts <==> k in be.parts)
    && (forall k | k != key && k in be.parts && k in be'.parts :: be'.parts[k] == be.parts[k])
  }

  lemma {:induction false} TryStore(be: Backend, key: PartKey, data: Bytes, n: nat)
    ensures var r := Try(be, StorePart(key, data), n);
            && Later(be, r.0)
            && OthersKept(be, r.0, key)
            && (r.1.Some? ==>
              key in r.0.parts && r.0.parts[key] == (if HasSize(be, key, |data|) then be.parts[key] else data))
            && (r.1.Some? ==> r.1.value.Size? && r.1.value.size <= |data|)
            && (HasSize(be, key, |data|) ==> r.0.parts == be.parts)
            && (r.1.None? ==> forall t: nat | be.clock <= t < be.clock + n :: !be.faults(t).Succeeds?)
    decreases n
  {
    if n > 0 {
      var b1 := Once(be, StorePart(key, data)).0;
      assert OthersKept(be, b1, key);
      TryStore(b1, key, data, n - 1);
      if !be.faults(be.clock).Succeeds? && !HasSize(be, key, |data|) && HasSize(b1, key, |data|) {
        assert b1.parts[key] == data;
      }
    }
  }

  /** Where part `p` of a chunk goes when the last used backend was `last`. */
  function Place(last: nat, n: nat, p: nat): nat
    decreases p
  {
    if p == 0 then NextBackend(last, n) else Place(NextBackend(last, n), n, p - 1)
  }

  /** Up to `n` parts go to consecutive backends, cyclically: no two of them to the same one. */
  lemma {:induction false} PlaceNear(last: nat, n: nat, p: nat)
    requires last < n && p < n
    ensures Place(last, n, p) == if last + 1 + p < n then last + 1 + p else last + 1 + p - n
    decreases p
  {
    if p > 0 {
      PlaceNear(NextBackend(last, n), n, p - 1);
    }
  }

  lemma {:induction false} PlaceInRange(last: nat, n: nat, p: nat)
    requires n > 0
    ensures Place(last, n, p) < n
    decreases p
  {
    if p > 0 {
      PlaceInRange(NextBackend(last, n), n, p - 1);
    }
  }

  /** The last used backend after `parts` more parts. */
  function Advance(last: nat, n: nat, parts: nat): nat {
    if parts == 0 then last else Place(last, n, parts - 1)
  }

  /** Parts of other chunks, and all metadata, are as before. */
  ghost predicate OtherChunksKept(be: Backend, be': Backend, hash: string) {
    && be'.files == be.files
    && (forall k: PartKey | k.hash != hash :: k in be'.parts <==> k in be.parts)
    && (forall k: PartKey | k.hash != hash && k in be.parts && k in be'.parts :: be'.parts[k] == be.parts[k])
  }

  lemma OtherChunksKeptTransitive(b0: Backend, b1: Backend, b2: Backend, hash: string)
    requires OtherChunksKept(b0, b1, hash) && OtherChunksKept(b1, b2, hash)
    ensures OtherChunksKept(b0, b2, hash)
  {
  }

  /** StoreChunk, whether it succeeds or not, touches nothing but the parts of its own chunk, on any backend `b`. */
  lemma {:induction false} StoreFrame(
      bs: seq<Backend>, last: nat, hash: string, total: nat, data: seq<Bytes>, i: nat, size: nat, b: nat)
    requires b < |bs| && i <= |data|
    ensures var be := StoreParts(bs, last, hash, total, data, i, size).0[b];
            Later(bs[b], be) && OtherChunksKept(bs[b], be, hash)
    decreases |data| - i
  {
    if i < |data| {
      var at, key := NextBackend(last, |bs|), PartKey(hash, i, total);
      var r := Try(bs[at], StorePart(key, data[i]), RETRIES);
      TryStore(bs[at], key, data[i], RETRIES);
      assert OtherChunksKept(bs[at], r.0, hash);
      if r.1.Some? {
        var bs', n := bs[at := r.0], if r.1.value.size > size then r.1.value.size else size;
        StoreFrame(bs', at, hash, total, data, i + 1, n, b);
        var rest := StoreParts(bs', at, hash, total, data, i + 1, n).0;
        OtherChunksKeptTransitive(bs[b], bs'[b], rest[b], hash);
      }
    }
  }

  /** No backend has lost a part. */
  ghost predicate Grown(bs: seq<Backend>, bs': seq<Backend>) {
    |bs'| == |bs| && forall b, key :: 0 <= b < |bs| && key in bs[b].parts ==> key in bs'[b].parts
  }

  lemma {:induction false} TryStoreGrows(be: Backend, key: PartKey, data: Bytes, n: nat)
    ensures be.parts.Keys <= Try(be, StorePart(key, data), n).0.parts.Keys
    decreases n
  {
    if n > 0 {
      TryStoreGrows(Once(be, StorePart(key, data)).0, key, data, n - 1);
    }
  }

  lemma GrownTransitive(a: seq<Backend>, b: seq<Backend>, c: seq<Backend>)
    requires Grown(a, b) && Grown(b, c)
    ensures Grown(a, c)
  {
  }

  /** StoreChunk, whether it succeeds or not, makes no backend lose a part. */
  lemma {:induction false} StoreGrows(
      bs: seq<Backend>, last: nat, hash: string, total: nat, data: seq<Bytes>, i: nat, size: nat)
    requires |bs| > 0 && i <= |data|
    ensures Grown(bs, StoreParts(bs, last, hash, total, data, i, size).0)
    decreases |data| - i
  {
    if i < |data| {
      var at, key := NextBackend(last, |bs|), PartKey(hash, i, total);
      var r := Try(bs[at], StorePart(key, data[i]), RETRIES);
      TryStoreGrows(bs[at], key, data[i], RETRIES);
      var bs' := bs[at := r.0];
      assert Grown(bs, bs');
      if r.1.Some? {
        var n := if r.1.value.Size? && r.1.value.size > size then r.1.value.size else size;
        StoreGrows(bs', at, hash, total, data, i + 1, n);
        GrownTransitive(bs, bs', StoreParts(bs', at, hash, total, data, i + 1, n).0);
      }
    }
  }

  function CopyAt(be: Backend, key: PartKey): Option<Bytes> {
    if key in be.parts then Some(be.parts[key]) else None
  }

  /** What a successful attempt leaves: a copy that already had the part's size stays as it is. */
  function StoredOver(be: Backend, key: PartKey, data: Bytes): Bytes {
    if HasSize(be, key, |data|) then be.parts[key] else data
  }

  /** Storing some part on some backend, seen from backend `b` and part `key`. */
  lemma OnePartEffect(bs: seq<Backend>, at: nat, part: PartKey, data: Bytes, b: nat, key: PartKey)
    requires at < |bs| && b < |bs| && Try(bs[at], StorePart(part, data), RETRIES).1.Some?
    ensures CopyAt(bs[at := Try(bs[at], StorePart(part, data), RETRIES).0][b], key)
         == if b == at && key == part then Some(StoredOver(bs[b], key, data)) else CopyAt(bs[b], key)
  {
    TryStore(bs[at], part, data, RETRIES);
  }

  /** Round robin puts part `key` of the chunk on backend `b`, if part `i` is the next to be stored. */
  predicate GoesTo(last: nat, n: nat, hash: string, total: nat, parts: nat, i: nat, b: nat, key: PartKey) {
    && key.hash == hash && key.total == total && i <= key.part < parts
    && Place(last, n, key.part - i) == b
  }

  /** The next part goes to the next backend, and each of the others where it would have gone without it. */
  lemma GoesToNext(last: nat, n: nat, hash: string, total: nat, parts: nat, i: nat, b: nat, key: PartKey)
    requires n > 0 && i < parts
    ensures GoesTo(last, n, hash, total, parts, i, b, key)
        <==> if key == PartKey(hash, i, total) then b == NextBackend(last, n)
             else GoesTo(NextBackend(last, n), n, hash, total, parts, i + 1, b, key)
  {
  }

  /**
   What a successful StoreChunk leaves of any part on any backend, whatever was there before: at the place that
   round robin picks for it the part's bytes, unless a copy of that size was there already; elsewhere what was there.
   */
  lemma {:induction false} StoreEffect(
      bs: seq<Backend>, last: nat, hash: string, total: nat, data: seq<Bytes>, i: nat, size: nat, b: nat, key: PartKey)
    requires b < |bs| && i <= |data| && StoreParts(bs, last, hash, total, data, i, size).2.Some?
    ensures CopyAt(StoreParts(bs, last, hash, total, data, i, size).0[b], key)
         == if GoesTo(last, |bs|, hash, total, |data|, i, b, key) then Some(StoredOver(bs[b], key, data[key.part]))
            else CopyAt(bs[b], key)
    decreases |data| - i
  {
    if i < |data| {
      var at, part := NextBackend(last, |bs|), PartKey(hash, i, total);
      GoesToNext(last, |bs|, hash, total, |data|, i, b, key);
      var r := Try(bs[at], StorePart(part, data[i]), RETRIES);
      OnePartEffect(bs, at, part, data[i], b, key);
      var n := if r.1.value.Size? && r.1.value.size > size then r.1.value.size else size;
      StoreEffect(bs[at := r.0], at, hash, total, data, i + 1, n, b, key);
    }
  }

  /** A successful StoreChunk has moved the round-robin position by one for each part. */
  lemma {:induction false} StorePosition(
      bs: seq<Backend>, last: nat, hash: string, total: nat, data: seq<Bytes>, i: nat, size: nat)
    requires |bs| > 0 && i <= |data| && StoreParts(bs, last, hash, total, data, i, size).2.Some?
    ensures StoreParts(bs, last, hash, total, data, i, size).1 == Advance(last, |bs|, |data| - i)
    decreases |data| - i
  {
    if i < |data| {
      var at, part := NextBackend(last, |bs|), PartKey(hash, i, total);
      var r := Try(bs[at], StorePart(part, data[i]), RETRIES);
      var n := if r.1.value.Size? && r.1.value.size > size then r.1.value.size else size;
      StorePosition(bs[at := r.0], at, hash, total, data, i + 1, n);
    }
  }

  predicate PartOn(bs: seq<Backend>, b: nat, key: PartKey) { b < |bs| && key in bs[b].parts }

  /** A successful StoreChunk has put part `p` on the backend that round robin picks for it. */
  lemma StorePlaces(bs: seq<Backend>, last: nat, hash: string, total: nat, data: seq<Bytes>, p: nat)
    requires |bs| > 0 && p < |data| && StoreParts(bs, last, hash, total, data, 0, 0).2.Some?
    ensures PartOn(StoreParts(bs, last, hash, total, data, 0, 0).0, Place(last, |bs|, p), PartKey(hash, p, total))
  {
    PlaceInRange(last, |bs|, p);
    StoreEffect(bs, last, hash, total, data, 0, 0, Place(last, |bs|, p), PartKey(hash, p, total));
  }

  /* ---- What StoreChunk reports ---- */

  /** The length of the longest part from `i` on, or `least` if that is more. */
  function Longest(data: seq<Bytes>, i: nat, least: nat): (r: nat)
    requires i <= |data|
    ensures r >= least && (r == least || exists j :: i <= j < |data| && |data[j]| == r)
    ensures forall j :: i <= j < |data| ==> |data[j]| <= r
    decreases |data| - i
  {
    if i == |data| then least else Longest(data, i + 1, if |data[i]| > least then |data[i]| else least)
  }

  ghost predicate NeverFails(be: Backend) { forall t: nat | t >= be.clock :: be.faults(t).Succeeds? }

  ghost predicate NoneFails(bs: seq<Backend>) { forall b | 0 <= b < |bs| :: NeverFails(bs[b]) }

  /** How many bytes each part from `i` on has written where nothing fails: none for a part that is already there. */
  function WrittenSizes(bs: seq<Backend>, last: nat, hash: string, total: nat, data: seq<Bytes>, i: nat): (r: seq<nat>)
    requires |bs| > 0 && i <= |data|
    ensures |r| == |data| - i
    decreases |data| - i
  {
    if i == |data| then []
    else
      var at := NextBackend(last, |bs|);
      [if HasSize(bs[at], PartKey(hash, i, total), |data[i]|) then 0 else |data[i]|]
      + WrittenSizes(bs, at, hash, total, data, i + 1)
  }

  function Largest(sizes: seq<nat>, least: nat): nat {
    if sizes == [] then least else Largest(sizes[1..], if sizes[0] > least then sizes[0] else least)
  }

  /** Another part, on whatever backend, does not matter for the parts after it. */
  lemma {:induction false} WrittenSizesSame(
      bs: seq<Backend>, bs': seq<Backend>, last: nat, hash: string, total: nat, data: seq<Bytes>, i: nat)
    requires |bs| == |bs'| > 0 && i <= |data|
    requires forall b, p: nat | 0 <= b < |bs| && i <= p < |data| ::
               CopyAt(bs'[b], PartKey(hash, p, total)) == CopyAt(bs[b], PartKey(hash, p, total))
    ensures WrittenSizes(bs', last, hash, total, data, i) == WrittenSizes(bs, last, hash, total, data, i)
    decreases |data| - i
  {
    if i < |data| {
      var at := NextBackend(last, |bs|);
      assert CopyAt(bs'[at], PartKey(hash, i, total)) == CopyAt(bs[at], PartKey(hash, i, total));
      WrittenSizesSame(bs, bs', at, hash, total, data, i + 1);
    }
  }

  /** Backends that do not fail go on not failing. */
  lemma {:induction false} StoreNeverFails(
      bs: seq<Backend>, last: nat, hash: string, total: nat, data: seq<Bytes>, i: nat, size: nat)
    requires |bs| > 0 && i <= |data| && NoneFails(bs)
    ensures NoneFails(StoreParts(bs, last, hash, total, data, i, size).0)
    decreases |data| - i
  {
    if i < |data| {
      var at, key := NextBackend(last, |bs|), PartKey(hash, i, total);
      var r := Try(bs[at], StorePart(key, data[i]), RETRIES);
      TryStore(bs[at], key, data[i], RETRIES);
      if r.1.Some? {
        var n := if r.1.value.Size? && r.1.value.size > size then r.1.value.size else size;
        StoreNeverFails(bs[at := r.0], at, hash, total, data, i + 1, n);
      }
    }
  }

  /** StoreChunk reports the size of the largest part it has written, whatever was stored before. */
  lemma {:induction false} StoreReportsLargest(
      bs: seq<Backend>, last: nat, hash: string, total: nat, data: seq<Bytes>, i: nat, size: nat)
    requires |bs| > 0 && i <= |data| && NoneFails(bs)
    ensures StoreParts(bs, last, hash, total, data, i, size).2
         == Some(Largest(WrittenSizes(bs, last, hash, total, data, i), size))
    decreases |data| - i
  {
    if i < |data| {
      var at, key := NextBackend(last, |bs|), PartKey(hash, i, total);
      var r := Try(bs[at], StorePart(key, data[i]), RETRIES);
      assert bs[at].faults(bs[at].clock).Succeeds?;
      assert r == Once(bs[at], StorePart(key, data[i]));
      var bs', n := bs[at := r.0], if r.1.value.size > size then r.1.value.size else size;
      forall b, p: nat | 0 <= b < |bs| && i + 1 <= p < |data|
        ensures CopyAt(bs'[b], PartKey(hash, p, total)) == CopyAt(bs[b], PartKey(hash, p, total))
      {
        OnePartEffect(bs, at, key, data[i], b, PartKey(hash, p, total));
      }
      WrittenSizesSame(bs, bs', at, hash, total, data, i + 1);
      StoreReportsLargest(bs', at, hash, total, data, i + 1, n);
    }
  }

  function Itself(): nat -> nat { (n: nat) => n }

  /** The largest of some sizes is their sum if and only if at most one of them is not zero. */
  lemma {:induction false} LargestIsSum(sizes: seq<nat>, least: nat)
    ensures Largest(sizes, least) <= least + Sum(Itself(), sizes)
    ensures Largest(sizes, least) == least + Sum(Itself(), sizes)
        <==> AtMostOneNonzero([least] + sizes)
  {
    if sizes != [] {
      var more := if sizes[0] > least then sizes[0] else least;
      LargestIsSum(sizes[1..], more);
      FirstTwo(least, sizes);
    } else {
      assert [least] + sizes == [least];
    }
  }

  predicate AtMostOneNonzero(sizes: seq<nat>) { forall i, j :: 0 <= i < j < |sizes| ==> sizes[i] == 0 || sizes[j] == 0 }

  lemma FirstTwo(least: nat, sizes: seq<nat>)
    requires sizes != []
    ensures AtMostOneNonzero([least] + sizes) <==>
              && (least == 0 || sizes[0] == 0)
              && AtMostOneNonzero([if sizes[0] > least then sizes[0] else least] + sizes[1..])
  {
    var more := if sizes[0] > least then sizes[0] else least;
    var all, rest := [least] + sizes, [more] + sizes[1..];
    assert all[0] == least && all[1] == sizes[0] && rest[0] == more;
    assert forall i :: 1 <= i < |rest| ==> rest[i] == all[i + 1];
    if AtMostOneNonzero(all) {
      forall i, j | 0 <= i < j < |rest| ensures rest[i] == 0 || rest[j] == 0 {
        assert all[0] == 0 || all[j + 1] == 0;
        assert all[i + 1] == 0 || all[j + 1] == 0;
      }
    }
    if (least == 0 || sizes[0] == 0) && AtMostOneNonzero(rest) {
      forall i, j | 0 <= i < j < |all| ensures all[i] == 0 || all[j] == 0 {
        if j >= 2 { assert rest[if i < 2 then 0 else i - 1] == 0 || rest[j - 1] == 0; }
      }
    }
  }

  /**
   When the report is what has been written: on backends that do not fail, if and only if at most one of the parts
   was missing and not empty. So it always is without parity, and with parity only if all parts but one were there.
   */
  lemma ReportIsWhatWasWritten(bs: seq<Backend>, last: nat, hash: string, total: nat, data: seq<Bytes>)
    requires |bs| > 0 && NoneFails(bs)
    ensures var sizes := WrittenSizes(bs, last, hash, total, data, 0);
            StoreParts(bs, last, hash, total, data, 0, 0).2 == Some(Sum(Itself(), sizes)) <==> AtMostOneNonzero(sizes)
    ensures |data| <= 1 ==> AtMostOneNonzero(WrittenSizes(bs, last, hash, total, data, 0))
  {
    var sizes := WrittenSizes(bs, last, hash, total, data, 0);
    StoreReportsLargest(bs, last, hash, total, data, 0, 0);
    LargestIsSum(sizes, 0);
    assert ([0] + sizes)[1..] == sizes;
    assert forall i :: 0 <= i < |sizes| ==> ([0] + sizes)[i + 1] == sizes[i];
  }

  /** What one part adds to the report is no more than its length. */
  lemma OnePartReports(be: Backend, key: PartKey, data: Bytes)
    ensures var a := Try(be, StorePart(key, data), RETRIES).1;
            a.Some? ==> a.value.Size? && a.value.size <= |data|
  {
    TryStore(be, key, data, RETRIES);
  }

  lemma {:induction false} StoreWithin(
      bs: seq<Backend>, last: nat, hash: string, total: nat, data: seq<Bytes>, i: nat, size: nat, bound: nat)
    requires |bs| > 0 && i <= |data| && size <= bound
    requires forall j :: i <= j < |data| ==> |data[j]| <= bound
    ensures var r := StoreParts(bs, last, hash, total, data, i, size).2; r.Some? ==> r.value <= bound
    decreases |data| - i
  {
    if i < |data| {
      var at, key := NextBackend(last, |bs|), PartKey(hash, i, total);
      var r := Try(bs[at], StorePart(key, data[i]), RETRIES);
      OnePartReports(bs[at], key, data[i]);
      if r.1.Some? {
        var n := if r.1.value.size > size then r.1.value.size else size;
        StoreWithin(bs[at := r.0], at, hash, total, data, i + 1, n, bound);
      }
    }
  }

  /** Whatever fails, and whatever was there: it never reports more than that. */
  lemma StoreReportsNoMore(
      bs: seq<Backend>, last: nat, hash: string, total: nat, data: seq<Bytes>, i: nat, size: nat)
    requires |bs| > 0 && i <= |data|
    ensures var r := StoreParts(bs, last, hash, total, data, i, size).2; r.Some? ==> r.value <= Longest(data, i, size)
  {
    StoreWithin(bs, last, hash, total, data, i, size, Longest(data, i, size));
  }

  /* ---- Dead backends ---- */

  /** A backend that has failed for good answers no request. */
  lemma {:induction false} DeadAnswersNothing(be: Backend, req: Request, n: nat)
    requires Dead(be)
    ensures Try(be, req, n).1.None?
    decreases n
  {
    if n > 0 {
      assert !be.faults(be.clock).Succeeds?;
      DeadAnswersNothing(Once(be, req).0, req, n - 1);
    }
  }

  /** On such backends nothing is deleted, whatever they hold. */
  lemma {:induction false} DeadDeleteNothing(bs: seq<Backend>, key: PartKey, b: nat)
    requires b <= |bs| && forall i :: 0 <= i < |bs| ==> Dead(bs[i])
    ensures First(bs, DeletePart(key), b).1.None?
    decreases |bs| - b
  {
    if b < |bs| {
      DeadAnswersNothing(bs[b], DeletePart(key), RETRIES);
      TryDelete(bs[b], key, RETRIES);
      DeadDeleteNothing(bs[b := Try(bs[b], DeletePart(key), RETRIES).0], key, b + 1);
    }
  }

  /* ---- Deleting parts ---- */

  function Holds(key: PartKey): Backend -> nat { (be: Backend) => if key in be.parts then 1 else 0 }

  /** On how many backends the part is. */
  function Copies(bs: seq<Backend>, key: PartKey): nat { Sum(Holds(key), bs) }

  /** Nothing has changed but that `key` may be gone. */
  ghost predicate OnlyGone(be: Backend, be': Backend, key: PartKey) {
    && be'.files == be.files && Later(be, be')
    && (be'.parts == be.parts || be'.parts == be.parts - {key})
  }

  lemma {:induction false} TryDelete(be: Backend, key: PartKey, n: nat)
    ensures var r := Try(be, DeletePart(key), n);
            && OnlyGone(be, r.0, key)
            && (r.1.Some? ==> key in be.parts && key !in r.0.parts)
            && (r.1.None? ==> r.0.parts == be.parts)
    decreases n
  {
    if n > 0 {
      TryDelete(Once(be, DeletePart(key)).0, key, n - 1);
    }
  }

  lemma TryDeleteHealthy(be: Backend, key: PartKey)
    requires Healthy(be) && key in be.parts
    ensures Try(be, DeletePart(key), RETRIES).1.Some?
  {
    var req := DeletePart(key);
    var b1 := Once(be, req).0;
    var b2 := Once(b1, req).0;
    assert Recovers(be, be.clock);
    assert Try(be, req, 3) == if Once(be, req).1.Some? then Once(be, req) else Try(b1, req, 2);
    assert Try(b1, req, 2) == if Once(b1, req).1.Some? then Once(b1, req) else Try(b2, req, 1);
    assert Try(b2, req, 1) == if Once(b2, req).1.Some? then Once(b2, req) else Try(Once(b2, req).0, req, 0);
  }

  /** DeleteChunk takes away one copy of its part when it succeeds, and touches no other part. */
  lemma {:induction false} DeleteTakesOneCopy(bs: seq<Backend>, key: PartKey, b: nat, other: PartKey)
    requires b <= |bs|
    ensures var r := First(bs, DeletePart(key), b);
            Copies(r.0, other) + (if other == key && r.1.Some? then 1 else 0) == Copies(bs, other)
    decreases |bs| - b
  {
    if b < |bs| {
      var r := Try(bs[b], DeletePart(key), RETRIES);
      TryDelete(bs[b], key, RETRIES);
      SumUpdate(Holds(other), bs, b, r.0);
      if r.1.None? {
        DeleteTakesOneCopy(bs[b := r.0], key, b + 1, other);
      }
    }
  }

  /** Metadata, and the contents of every part that is still there, are as before. */
  lemma {:induction false} DeleteFrame(bs: seq<Backend>, key: PartKey, b: nat)
    requires b <= |bs|
    ensures forall i :: 0 <= i < |bs| ==> OnlyGone(bs[i], First(bs, DeletePart(key), b).0[i], key)
    decreases |bs| - b
  {
    if b < |bs| {
      var r := Try(bs[b], DeletePart(key), RETRIES);
      TryDelete(bs[b], key, RETRIES);
      if r.1.None? {
        DeleteFrame(bs[b := r.0], key, b + 1);
      }
    }
  }

  ghost predicate AllHealthy(bs: seq<Backend>) { forall b :: 0 <= b < |bs| ==> Healthy(bs[b]) }

  lemma StillHealthy(be: Backend, be': Backend)
    requires Healthy(be) && Later(be, be')
    ensures Healthy(be')
  {
    forall t: nat | t >= be'.clock ensures Recovers(be', t) { assert Recovers(be, t); }
  }

  lemma DeleteStaysHealthy(bs: seq<Backend>, key: PartKey)
    requires AllHealthy(bs)
    ensures AllHealthy(First(bs, DeletePart(key), 0).0)
  {
    DeleteFrame(bs, key, 0);
    forall b | 0 <= b < |bs| ensures Healthy(First(bs, DeletePart(key), 0).0[b]) {
      StillHealthy(bs[b], First(bs, DeletePart(key), 0).0[b]);
    }
  }

  /** On healthy backends a part can be deleted exactly if some backend from `b` on has it. */
  lemma {:induction false} DeleteFinds(bs: seq<Backend>, key: PartKey, b: nat)
    requires b <= |bs| && AllHealthy(bs)
    ensures First(bs, DeletePart(key), b).1.Some? <==> exists i :: b <= i < |bs| && key in bs[i].parts
    decreases |bs| - b
  {
    if b < |bs| {
      var r := Try(bs[b], DeletePart(key), RETRIES);
      TryDelete(bs[b], key, RETRIES);
      if r.1.None? {
        if key in bs[b].parts { TryDeleteHealthy(bs[b], key); }
        StillHealthy(bs[b], r.0);
        var bs' := bs[b := r.0];
        DeleteFinds(bs', key, b + 1);
        assert forall i :: b < i < |bs| ==> bs'[i] == bs[i];
      } else {
        assert key in bs[b].parts;
      }
    }
  }

  lemma DeletableIffStored(bs: seq<Backend>, key: PartKey)
    requires AllHealthy(bs)
    ensures First(bs, DeletePart(key), 0).1.Some? <==> Copies(bs, key) > 0
  {
    DeleteFinds(bs, key, 0);
    SumZero(Holds(key), bs);
    assert forall i :: 0 <= i < |bs| ==> (Holds(key)(bs[i]) > 0 <==> key in bs[i].parts);
  }

  /* ---- Healthy backends ---- */

  /** On a healthy backend one of three attempts stores the part. */
  lemma TryStoreHealthy(be: Backend, key: PartKey, data: Bytes)
    requires Healthy(be)
    ensures Try(be, StorePart(key, data), RETRIES).1.Some? && Healthy(Try(be, StorePart(key, data), RETRIES).0)
  {
    var req := StorePart(key, data);
    var b1 := Once(be, req).0;
    var b2 := Once(b1, req).0;
    assert Recovers(be, be.clock);
    assert Try(be, req, 3) == if Once(be, req).1.Some? then Once(be, req) else Try(b1, req, 2);
    assert Try(b1, req, 2) == if Once(b1, req).1.Some? then Once(b1, req) else Try(b2, req, 1);
    assert Try(b2, req, 1) == if Once(b2, req).1.Some? then Once(b2, req) else Try(Once(b2, req).0, req, 0);
    TryStore(be, key, data, RETRIES);
    StillHealthy(be, Try(be, req, RETRIES).0);
  }

  /** Healthy backends, which may fail twice in a row all the time, store every chunk. */
  lemma {:induction false} HealthyStoreSucceeds(
      bs: seq<Backend>, last: nat, hash: string, total: nat, data: seq<Bytes>, i: nat, size: nat)
    requires |bs| > 0 && i <= |data| && AllHealthy(bs)
    ensures var r := StoreParts(bs, last, hash, total, data, i, size); r.2.Some? && AllHealthy(r.0)
    decreases |data| - i
  {
    if i < |data| {
      var at, key := NextBackend(last, |bs|), PartKey(hash, i, total);
      var r := Try(bs[at], StorePart(key, data[i]), RETRIES);
      TryStoreHealthy(bs[at], key, data[i]);
      OnePartReports(bs[at], key, data[i]);
      HealthyStoreSucceeds(
        bs[at := r.0], at, hash, total, data, i + 1, if r.1.value.size > size then r.1.value.size else size);
    }
  }
}
