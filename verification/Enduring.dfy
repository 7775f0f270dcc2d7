/**
 What becomes of a stored part while the backends go on being used: any sequence of later stores, whatever their
 outcome, of deletions of other parts, loads, saves of metadata, and backends that are added.
 */
module Enduring {
  import opened Basics
  import opened Backends
  import opened Resilience

  /** The copy of a part on backend `b`; none on a backend that does not exist yet. */
  function CopyOn(bs: seq<Backend>, b: nat, key: PartKey): Option<Bytes> {
    if b < |bs| then CopyAt(bs[b], key) else None
  }

  /**
   What storing the part may make of a copy: nothing, or a prefix of the data in its place, if it did not have the
   data's size. So a right copy is never damaged, no copy vanishes, and a wrong one of the right size stays as it is; a
   whole prefix is the data itself.
   */
  predicate Endures(was: Option<Bytes>, now: Option<Bytes>, data: Bytes) {
    now == was || (now.Some? && now.value <= data && !(was.Some? && |was.value| == |data|))
  }

  predicate Torn(copy: Option<Bytes>, data: Bytes) { copy.Some? && copy.value != data }

  lemma {:induction false} TryLeaves(be: Backend, key: PartKey, data: Bytes, n: nat)
    ensures Endures(CopyAt(be, key), CopyAt(Try(be, StorePart(key, data), n).0, key), data)
    decreases n
  {
    if n > 0 {
      TryLeaves(Once(be, StorePart(key, data)).0, key, data, n - 1);
    }
  }

  /** One part on one backend, with any outcome, seen from backend `b` and part `key`. */
  lemma OnePartLeaves(bs: seq<Backend>, at: nat, part: PartKey, data: Bytes, b: nat, key: PartKey)
    requires at < |bs| && b < |bs|
    ensures var now := CopyAt(bs[at := Try(bs[at], StorePart(part, data), RETRIES).0][b], key);
            if b == at && key == part then Endures(CopyAt(bs[b], key), now, data) else now == CopyAt(bs[b], key)
  {
    TryLeaves(bs[at], part, data, RETRIES);
    TryStore(bs[at], part, data, RETRIES);
  }

  /**
   What StoreChunk leaves of any part on any backend, whatever its outcome: only a part of the chunk, only where round
   robin puts it, and there only in place of a copy that did not have the part's size.
   */
  lemma {:induction false} StoreLeaves(
      bs: seq<Backend>, last: nat, hash: string, total: nat, data: seq<Bytes>, i: nat, size: nat, b: nat, key: PartKey)
    requires b < |bs| && i <= |data|
    ensures var was, now := CopyAt(bs[b], key), CopyAt(StoreParts(bs, last, hash, total, data, i, size).0[b], key);
            if GoesTo(last, |bs|, hash, total, |data|, i, b, key) then Endures(was, now, data[key.part]) else now == was
    decreases |data| - i
  {
    if i < |data| {
      var at, part := NextBackend(last, |bs|), PartKey(hash, i, total);
      var r := Try(bs[at], StorePart(part, data[i]), RETRIES);
      OnePartLeaves(bs, at, part, data[i], b, key);
      if r.1.Some? {
        var n := if r.1.value.Size? && r.1.value.size > size then r.1.value.size else size;
        StoreLeaves(bs[at := r.0], at, hash, total, data, i + 1, n, b, key);
      }
    }
  }

  /* ---- Sequences of operations ---- */

  /**
   Everything that the BackendManager is asked to do. Starting the program gives a new manager, which begins its round
   robin anew.
   */
  datatype Event =
    | StoreEvent(hash: string, total: nat, data: seq<Bytes>)
    | DeleteEvent(key: PartKey)
    | LoadEvent(wanted: Request)
    | SaveEvent(file: File, contents: Bytes)
    | AttachEvent(backend: Backend)
    | StartEvent

  function Happen(bs: seq<Backend>, last: nat, e: Event): (r: (seq<Backend>, nat))
    requires |bs| > 0
    ensures |r.0| == |bs| + if e.AttachEvent? then 1 else 0
  {
    match e
    case StoreEvent(hash, total, data) =>
      var r := StoreParts(bs, last, hash, total, data, 0, 0);
      (r.0, r.1)
    case DeleteEvent(key) => (First(bs, DeletePart(key), 0).0, last)
    case LoadEvent(wanted) => (if Loads(wanted) then First(bs, wanted, 0).0 else bs, last)
    case SaveEvent(file, contents) => (Every(bs, SaveFile(file, contents), 0).0, last)
    case AttachEvent(be) => (bs + [be], last)
    case StartEvent => (bs, 0)
  }

  /** The backends and the round-robin position after a sequence of operations. */
  function After(bs: seq<Backend>, last: nat, events: seq<Event>): (r: (seq<Backend>, nat))
    requires |bs| > 0
    ensures |r.0| >= |bs|
  {
    if events == [] then (bs, last)
    else
      var r := After(bs, last, events[..|events| - 1]);
      Happen(r.0, r.1, events[|events| - 1])
  }

  lemma {:induction false} AfterAppend(bs: seq<Backend>, last: nat, a: seq<Event>, b: seq<Event>)
    requires |bs| > 0
    ensures After(bs, last, a + b) == After(After(bs, last, a).0, After(bs, last, a).1, b)
  {
    if b == [] {
      assert a + b == a;
    } else {
      assert (a + b)[..|a + b| - 1] == a + b[..|b| - 1];
      AfterAppend(bs, last, a, b[..|b| - 1]);
    }
  }

  /** Storing any chunk leaves the round-robin position within the backends. */
  lemma {:induction false} StorePositionInRange(
      bs: seq<Backend>, last: nat, hash: string, total: nat, data: seq<Bytes>, i: nat, size: nat)
    requires last < |bs| && i <= |data|
    ensures StoreParts(bs, last, hash, total, data, i, size).1 < |bs|
    decreases |data| - i
  {
    if i < |data| {
      var at, part := NextBackend(last, |bs|), PartKey(hash, i, total);
      var r := Try(bs[at], StorePart(part, data[i]), RETRIES);
      if r.1.Some? {
        var n := if r.1.value.Size? && r.1.value.size > size then r.1.value.size else size;
        StorePositionInRange(bs[at := r.0], at, hash, total, data, i + 1, n);
      }
    }
  }

  lemma {:induction false} AfterPosition(bs: seq<Backend>, last: nat, events: seq<Event>)
    requires last < |bs|
    ensures After(bs, last, events).1 < |After(bs, last, events).0|
  {
    if events != [] {
      var front, e := events[..|events| - 1], events[|events| - 1];
      AfterPosition(bs, last, front);
      var r := After(bs, last, front);
      if e.StoreEvent? { StorePositionInRange(r.0, r.1, e.hash, e.total, e.data, 0, 0); }
    }
  }

  /** The operation stores a part under this key. */
  predicate Stores(e: Event, key: PartKey) {
    e.StoreEvent? && e.hash == key.hash && e.total == key.total && key.part < |e.data|
  }

  /** If the operation stores the part, it stores these bytes, and it brings no copy of it along. */
  predicate Consistent(e: Event, key: PartKey, data: Bytes) {
    (Stores(e, key) ==> e.data[key.part] == data) && (e.AttachEvent? ==> key !in e.backend.parts)
  }

  /** Moreover it does not delete the part. */
  predicate Innocent(e: Event, key: PartKey, data: Bytes) {
    Consistent(e, key, data) && !(e.DeleteEvent? && e.key == key)
  }

  ghost predicate AllConsistent(events: seq<Event>, key: PartKey, data: Bytes) {
    forall e | e in events :: Consistent(e, key, data)
  }

  ghost predicate AllInnocent(events: seq<Event>, key: PartKey, data: Bytes) {
    forall e | e in events :: Innocent(e, key, data)
  }

  /** The operation tries to store the part on backend `b`, and fails. */
  predicate FailsOn(bs: seq<Backend>, last: nat, e: Event, key: PartKey, b: nat)
    requires |bs| > 0
  {
    && Stores(e, key)
    && StoreParts(bs, last, e.hash, e.total, e.data, 0, 0).2.None?
    && GoesTo(last, |bs|, e.hash, e.total, |e.data|, 0, b, key)
  }

  lemma SavesKeepParts(bs: seq<Backend>, file: File, contents: Bytes, b: nat)
    requires b < |bs|
    ensures Every(bs, SaveFile(file, contents), 0).0[b].parts == bs[b].parts
  {
    SaveEvery(bs, file, contents, 0);
    var r := Every(bs, SaveFile(file, contents), 0);
    if r.1 {
      assert Saved(bs[b], r.0[b], file, contents);
    } else {
      var i :| FailedAt(bs, r.0, file, contents, 0, i);
    }
  }

  /** One operation, seen from one copy. */
  lemma HappenLeaves(bs: seq<Backend>, last: nat, e: Event, key: PartKey, data: Bytes, b: nat)
    requires |bs| > 0 && Innocent(e, key, data)
    ensures Endures(CopyOn(bs, b, key), CopyOn(Happen(bs, last, e).0, b, key), data)
    ensures Torn(CopyOn(Happen(bs, last, e).0, b, key), data) && !Torn(CopyOn(bs, b, key), data) ==>
              FailsOn(bs, last, e, key, b)
  {
    if b < |bs| {
      match e
      case StoreEvent(hash, total, parts) =>
        StoreLeaves(bs, last, hash, total, parts, 0, 0, b, key);
        if StoreParts(bs, last, hash, total, parts, 0, 0).2.Some? {
          StoreEffect(bs, last, hash, total, parts, 0, 0, b, key);
        }
      case DeleteEvent(other) => DeleteFrame(bs, other, 0);
      case LoadEvent(wanted) => if Loads(wanted) { FirstLoad(bs, wanted, 0); }
      case SaveEvent(file, contents) => SavesKeepParts(bs, file, contents, b);
      case AttachEvent(be) =>
      case StartEvent =>
    }
  }

  lemma SavesFile(bs: seq<Backend>, file: File, contents: Bytes, b: nat)
    requires b < |bs|
    ensures var r := Every(bs, SaveFile(file, contents), 0);
            && r.0[b].files - {file} == bs[b].files - {file}
            && (r.1 ==> r.0[b].files == bs[b].files[file := contents])
  {
    SaveEvery(bs, file, contents, 0);
    var r := Every(bs, SaveFile(file, contents), 0);
    if r.1 {
      assert Saved(bs[b], r.0[b], file, contents);
    } else {
      var i :| FailedAt(bs, r.0, file, contents, 0, i);
    }
  }

  /** Metadata: only saves touch it, and they do with a file what the manager does on every backend. */
  lemma HappenFiles(bs: seq<Backend>, last: nat, e: Event, b: nat)
    requires b < |bs|
    ensures !e.SaveEvent? ==> Happen(bs, last, e).0[b].files == bs[b].files
    ensures e.SaveEvent? ==> Happen(bs, last, e).0[b].files - {e.file} == bs[b].files - {e.file}
    ensures e.SaveEvent? && Every(bs, SaveFile(e.file, e.contents), 0).1 ==>
              Happen(bs, last, e).0[b].files == bs[b].files[e.file := e.contents]
  {
    match e
    case StoreEvent(hash, total, data) =>
      StoreFrame(bs, last, hash, total, data, 0, 0, b);
    case DeleteEvent(key) => DeleteFrame(bs, key, 0);
    case LoadEvent(wanted) => if Loads(wanted) { FirstLoad(bs, wanted, 0); }
    case SaveEvent(file, contents) =>
      SavesFile(bs, file, contents, b);
    case AttachEvent(be) =>
    case StartEvent =>
  }

  lemma InnocentFront(events: seq<Event>, key: PartKey, data: Bytes)
    requires events != [] && AllInnocent(events, key, data)
    ensures AllInnocent(events[..|events| - 1], key, data) && Innocent(events[|events| - 1], key, data)
  {
    assert forall e :: e in events[..|events| - 1] ==> e in events;
  }

  /** What a sequence of operations may make of a copy is what one operation may make of it. */
  lemma {:induction false} AfterLeaves(
      bs: seq<Backend>, last: nat, events: seq<Event>, key: PartKey, data: Bytes, b: nat)
    requires |bs| > 0 && AllInnocent(events, key, data)
    ensures Endures(CopyOn(bs, b, key), CopyOn(After(bs, last, events).0, b, key), data)
  {
    if events != [] {
      var front := events[..|events| - 1];
      InnocentFront(events, key, data);
      AfterLeaves(bs, last, front, key, data, b);
      var r := After(bs, last, front);
      HappenLeaves(r.0, r.1, events[|events| - 1], key, data, b);
    }
  }

  /** A torn copy that was not there before comes from a store of the part that failed on that very backend. */
  lemma {:induction false} TornNeedsFailure(
      bs: seq<Backend>, last: nat, events: seq<Event>, key: PartKey, data: Bytes, b: nat) returns (i: nat)
    requires |bs| > 0 && AllInnocent(events, key, data)
    requires Torn(CopyOn(After(bs, last, events).0, b, key), data) && !Torn(CopyOn(bs, b, key), data)
    ensures i < |events|
    ensures FailsOn(After(bs, last, events[..i]).0, After(bs, last, events[..i]).1, events[i], key, b)
  {
    var n := |events| - 1;
    var front := events[..n];
    InnocentFront(events, key, data);
    var r := After(bs, last, front);
    if Torn(CopyOn(r.0, b, key), data) {
      i := TornNeedsFailure(bs, last, front, key, data, b);
      assert front[..i] == events[..i];
    } else {
      HappenLeaves(r.0, r.1, events[n], key, data, b);
      i := n;
    }
  }

  /** A store that succeeds leaves a copy of each part where round robin puts it, through everything that follows. */
  lemma StoredStays(bs: seq<Backend>, last: nat, e: Event, later: seq<Event>, key: PartKey, data: Bytes)
    requires |bs| > 0 && Stores(e, key) && AllInnocent(later, key, data)
    requires StoreParts(bs, last, e.hash, e.total, e.data, 0, 0).2.Some?
    ensures var r, at := Happen(bs, last, e), Place(last, |bs|, key.part);
            at < |bs| && CopyOn(After(r.0, r.1, later).0, at, key).Some?
  {
    var r, at := Happen(bs, last, e), Place(last, |bs|, key.part);
    PlaceInRange(last, |bs|, key.part);
    StoreEffect(bs, last, e.hash, e.total, e.data, 0, 0, at, key);
    AfterLeaves(r.0, r.1, later, key, data, at);
  }

  /** The backends after the operations before, the one operation, and those after it. */
  lemma AfterAround(bs: seq<Backend>, last: nat, head: seq<Event>, e: Event, tail: seq<Event>)
    requires |bs| > 0
    ensures var r := After(bs, last, head);
            var now := Happen(r.0, r.1, e);
            After(bs, last, head + [e] + tail) == After(now.0, now.1, tail)
  {
    AfterAppend(bs, last, head, [e]);
    AfterAppend(bs, last, head + [e], tail);
    assert [e][..0] == [];
  }

  /* ---- What is served ---- */

  /** The copy on the first remaining backend, from `b` on, that has one. */
  function FirstCopy(bs: seq<Backend>, lost: set<nat>, key: PartKey, b: nat): Option<Bytes>
    requires b <= |bs|
    decreases |bs| - b
  {
    if b == |bs| then None
    else if b in lost || key !in bs[b].parts then FirstCopy(bs, lost, key, b + 1)
    else Some(bs[b].parts[key])
  }

  /** On some remaining backend, from `b` on, there is a copy; the first one is served. */
  lemma {:induction false} FirstCopyIs(bs: seq<Backend>, lost: set<nat>, key: PartKey, b: nat) returns (at: nat)
    requires b <= |bs| && FirstCopy(bs, lost, key, b).Some?
    ensures b <= at < |bs| && at !in lost && CopyOn(bs, at, key) == FirstCopy(bs, lost, key, b)
    ensures forall a | b <= a < at && a !in lost :: CopyOn(bs, a, key).None?
    decreases |bs| - b
  {
    if b in lost || key !in bs[b].parts {
      at := FirstCopyIs(bs, lost, key, b + 1);
    } else {
      at := b;
    }
  }

  lemma {:induction false} FirstCopyExists(bs: seq<Backend>, lost: set<nat>, key: PartKey, b: nat, at: nat)
    requires b <= at < |bs| && at !in lost && CopyOn(bs, at, key).Some?
    ensures FirstCopy(bs, lost, key, b).Some?
    decreases |bs| - b
  {
    if b in lost || key !in bs[b].parts { FirstCopyExists(bs, lost, key, b + 1, at); }
  }

  /** No remaining backend serves a wrong copy. */
  predicate ServedRight(bs: seq<Backend>, lost: set<nat>, key: PartKey, data: Bytes) {
    FirstCopy(bs, lost, key, 0).None? || FirstCopy(bs, lost, key, 0) == Some(data)
  }

  /** A torn copy on a remaining backend before `r`, with no right copy on a remaining backend before it. */
  ghost predicate TornAhead(bs: seq<Backend>, lost: set<nat>, key: PartKey, data: Bytes, r: nat) {
    exists b: nat :: b < r && TornFirst(bs, lost, key, data, b)
  }

  ghost predicate TornFirst(bs: seq<Backend>, lost: set<nat>, key: PartKey, data: Bytes, b: nat) {
    && b !in lost && Torn(CopyOn(bs, b, key), data)
    && forall a: nat | a < b && a !in lost :: CopyOn(bs, a, key) != Some(data)
  }

  /**
   Exactly when a stored part is still served rightly: with a right copy on remaining backend `r`, after any later
   operations, if and only if no copy is torn before it, ahead of every right one.
   */
  lemma StillServedExactly(
      bs: seq<Backend>, last: nat, events: seq<Event>, lost: set<nat>, key: PartKey, data: Bytes, r: nat)
    requires |bs| > 0 && AllInnocent(events, key, data)
    requires r < |bs| && r !in lost && CopyOn(bs, r, key) == Some(data)
    ensures FirstCopy(After(bs, last, events).0, lost, key, 0) == Some(data)
        <==> !TornAhead(After(bs, last, events).0, lost, key, data, r)
  {
    var end := After(bs, last, events).0;
    AfterLeaves(bs, last, events, key, data, r);
    FirstCopyExists(end, lost, key, 0, r);
    var first := FirstCopyIs(end, lost, key, 0);
    if FirstCopy(end, lost, key, 0) != Some(data) {
      assert first < r;
      assert TornFirst(end, lost, key, data, first);
    }
  }

  /** None of the operations fails to store the part. */
  ghost predicate NoFailure(bs: seq<Backend>, last: nat, events: seq<Event>, key: PartKey)
    requires |bs| > 0
  {
    forall i: nat, b: nat | i < |events| ::
      !FailsOn(After(bs, last, events[..i]).0, After(bs, last, events[..i]).1, events[i], key, b)
  }

  /** Operations none of which fails to store the part leave it rightly served. */
  lemma NoFailureKeepsRight(
      bs: seq<Backend>, last: nat, events: seq<Event>, lost: set<nat>, key: PartKey, data: Bytes)
    requires |bs| > 0 && AllInnocent(events, key, data) && NoFailure(bs, last, events, key)
    requires ServedRight(bs, lost, key, data)
    ensures ServedRight(After(bs, last, events).0, lost, key, data)
  {
    var end := After(bs, last, events).0;
    if FirstCopy(end, lost, key, 0).Some? {
      var first := FirstCopyIs(end, lost, key, 0);
      if Torn(CopyOn(end, first, key), data) {
        if !Torn(CopyOn(bs, first, key), data) {
          var i := TornNeedsFailure(bs, last, events, key, data, first);
          assert false;
        }
        FirstCopyExists(bs, lost, key, 0, first);
        var before := FirstCopyIs(bs, lost, key, 0);
        AfterLeaves(bs, last, events, key, data, before);
        assert before >= first;
      }
    }
  }

  /* ---- Deletions included ---- */

  ghost predicate NoneTorn(bs: seq<Backend>, key: PartKey, data: Bytes) {
    forall b: nat :: !Torn(CopyOn(bs, b, key), data)
  }

  ghost predicate FailsNowhere(bs: seq<Backend>, last: nat, e: Event, key: PartKey)
    requires |bs| > 0
  {
    forall b: nat :: !FailsOn(bs, last, e, key, b)
  }

  lemma HappenNoneTorn(bs: seq<Backend>, last: nat, e: Event, key: PartKey, data: Bytes)
    requires |bs| > 0 && Consistent(e, key, data) && NoneTorn(bs, key, data)
    requires FailsNowhere(bs, last, e, key)
    ensures NoneTorn(Happen(bs, last, e).0, key, data)
  {
    forall b: nat ensures !Torn(CopyOn(Happen(bs, last, e).0, b, key), data) {
      assert !Torn(CopyOn(bs, b, key), data);
      if Innocent(e, key, data) {
        assert !FailsOn(bs, last, e, key, b);
        HappenLeaves(bs, last, e, key, data, b);
      } else {
        DeleteFrame(bs, key, 0);
      }
    }
  }

  /**
   Where no copy is torn, none ever will be, whatever is stored, deleted and stored again, unless an operation fails to
   store the part.
   */
  lemma {:induction false} AfterNoneTorn(bs: seq<Backend>, last: nat, events: seq<Event>, key: PartKey, data: Bytes)
    requires |bs| > 0 && AllConsistent(events, key, data) && NoFailure(bs, last, events, key)
    requires NoneTorn(bs, key, data)
    ensures NoneTorn(After(bs, last, events).0, key, data)
  {
    if events != [] {
      var n := |events| - 1;
      var front := events[..n];
      NoFailureFront(bs, last, events, key);
      assert forall e :: e in front ==> e in events;
      AfterNoneTorn(bs, last, front, key, data);
      assert events[n] in events;
      HappenNoneTorn(After(bs, last, front).0, After(bs, last, front).1, events[n], key, data);
    }
  }

  lemma NoFailureFront(bs: seq<Backend>, last: nat, events: seq<Event>, key: PartKey)
    requires |bs| > 0 && events != [] && NoFailure(bs, last, events, key)
    ensures NoFailure(bs, last, events[..|events| - 1], key)
    ensures var r := After(bs, last, events[..|events| - 1]); FailsNowhere(r.0, r.1, events[|events| - 1], key)
  {
    var front := events[..|events| - 1];
    forall i: nat, b: nat | i < |front|
      ensures !FailsOn(After(bs, last, front[..i]).0, After(bs, last, front[..i]).1, front[i], key, b)
    {
      assert front[..i] == events[..i];
    }
  }

  lemma NoneTornIsServed(bs: seq<Backend>, lost: set<nat>, key: PartKey, data: Bytes)
    requires NoneTorn(bs, key, data)
    ensures ServedRight(bs, lost, key, data)
  {
    if FirstCopy(bs, lost, key, 0).Some? {
      var at := FirstCopyIs(bs, lost, key, 0);
      assert !Torn(CopyOn(bs, at, key), data);
    }
  }

  /** Hence a part that was nowhere torn, and that no operation failed to store, is served rightly, if at all. */
  lemma NeverFailedIsRight(
      bs: seq<Backend>, last: nat, events: seq<Event>, lost: set<nat>, key: PartKey, data: Bytes)
    requires |bs| > 0 && AllConsistent(events, key, data) && NoFailure(bs, last, events, key)
    requires NoneTorn(bs, key, data)
    ensures ServedRight(After(bs, last, events).0, lost, key, data)
  {
    AfterNoneTorn(bs, last, events, key, data);
    NoneTornIsServed(After(bs, last, events).0, lost, key, data);
  }

  /* ---- Healthy backends ---- */

  /** Backends that are attached are healthy. */
  ghost predicate BringsHealth(e: Event) { e.AttachEvent? ==> Healthy(e.backend) }

  ghost predicate AllBringHealth(events: seq<Event>) { forall e | e in events :: BringsHealth(e) }

  lemma AlikeStaysHealthy(bs: seq<Backend>, bs': seq<Backend>)
    requires AllHealthy(bs) && Alike(bs, bs')
    ensures AllHealthy(bs')
  {
    forall b | 0 <= b < |bs'| ensures Healthy(bs'[b]) { StillHealthy(bs[b], bs'[b]); }
  }

  lemma SaveStaysHealthy(bs: seq<Backend>, file: File, contents: Bytes)
    requires AllHealthy(bs)
    ensures AllHealthy(Every(bs, SaveFile(file, contents), 0).0)
  {
    HealthySaveSucceeds(bs, file, contents);
    SaveEvery(bs, file, contents, 0);
    forall b | 0 <= b < |bs| ensures Healthy(Every(bs, SaveFile(file, contents), 0).0[b]) {
      StillHealthy(bs[b], Every(bs, SaveFile(file, contents), 0).0[b]);
    }
  }

  lemma HappenHealthy(bs: seq<Backend>, last: nat, e: Event)
    requires |bs| > 0 && AllHealthy(bs) && BringsHealth(e)
    ensures AllHealthy(Happen(bs, last, e).0)
  {
    match e
    case StoreEvent(hash, total, data) => HealthyStoreSucceeds(bs, last, hash, total, data, 0, 0);
    case DeleteEvent(key) => DeleteStaysHealthy(bs, key);
    case LoadEvent(wanted) =>
      if Loads(wanted) {
        FirstLoad(bs, wanted, 0);
        AlikeStaysHealthy(bs, First(bs, wanted, 0).0);
      }
    case SaveEvent(file, contents) => SaveStaysHealthy(bs, file, contents);
    case AttachEvent(be) =>
    case StartEvent =>
  }

  lemma {:induction false} AfterHealthy(bs: seq<Backend>, last: nat, events: seq<Event>)
    requires |bs| > 0 && AllHealthy(bs) && AllBringHealth(events)
    ensures AllHealthy(After(bs, last, events).0)
  {
    if events != [] {
      var front, e := events[..|events| - 1], events[|events| - 1];
      assert forall x :: x in front ==> x in events;
      AfterHealthy(bs, last, front);
      assert e in events;
      HappenHealthy(After(bs, last, front).0, After(bs, last, front).1, e);
    }
  }

  /** On healthy backends no operation ever fails to store a part. */
  lemma HealthyNeverFails(bs: seq<Backend>, last: nat, events: seq<Event>, key: PartKey)
    requires |bs| > 0 && AllHealthy(bs) && AllBringHealth(events)
    ensures NoFailure(bs, last, events, key)
  {
    forall i: nat, b: nat | i < |events|
      ensures !FailsOn(After(bs, last, events[..i]).0, After(bs, last, events[..i]).1, events[i], key, b)
    {
      var r, e := After(bs, last, events[..i]), events[i];
      assert forall x :: x in events[..i] ==> x in events;
      AfterHealthy(bs, last, events[..i]);
      if e.StoreEvent? { HealthyStoreSucceeds(r.0, r.1, e.hash, e.total, e.data, 0, 0); }
    }
  }
}
