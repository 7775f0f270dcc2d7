/**
 The levels of the model tied together: what storing files leaves on the backends is what a store step of the state
 machine asks for, the presence of all parts of all chunks of the snapshot.
 */
module Linking {
  import opened Basics
  import opened Backends
  import opened Archives
  import opened Resilience
  import opened Storing
  import Decoding
  import Repository

  /** The parts of the state machine are those that some backend has. */
  ghost predicate PartsOnBackends(parts: set<PartKey>, bs: seq<Backend>) {
    forall key :: key in parts <==> Copies(bs, key) > 0
  }

  /** All parts that some backend has. */
  function KeysOn(bs: seq<Backend>): set<PartKey> {
    if bs == [] then {} else bs[0].parts.Keys + KeysOn(bs[1..])
  }

  lemma {:induction false} KeyIsOn(bs: seq<Backend>, key: PartKey)
    ensures key in KeysOn(bs) <==> Copies(bs, key) > 0
  {
    if bs != [] { KeyIsOn(bs[1..], key); }
  }

  lemma OnSomeBackend(bs: seq<Backend>, b: nat, key: PartKey)
    requires PartOn(bs, b, key)
    ensures Copies(bs, key) > 0
  {
    SumZero(Holds(key), bs);
    assert Holds(key)(bs[b]) > 0;
  }

  lemma SomeBackendHas(bs: seq<Backend>, key: PartKey) returns (b: nat)
    requires Copies(bs, key) > 0
    ensures PartOn(bs, b, key)
  {
    SumZero(Holds(key), bs);
    b :| b < |bs| && Holds(key)(bs[b]) > 0;
  }

  /** Parts that no backend loses stay parts of the state machine, and the new ones join them. */
  lemma PartsJoin(parts: set<PartKey>, bs: seq<Backend>, bs': seq<Backend>)
    requires PartsOnBackends(parts, bs) && Grown(bs, bs')
    ensures PartsOnBackends(parts + KeysOn(bs'), bs')
  {
    forall key ensures key in parts + KeysOn(bs') <==> Copies(bs', key) > 0 {
      KeyIsOn(bs', key);
      if key in parts {
        var b := SomeBackendHas(bs, key);
        OnSomeBackend(bs', b, key);
      }
    }
  }

  lemma WhollyOnIsStored(parts: set<PartKey>, bs: seq<Backend>, c: Chunk)
    requires PartsOnBackends(parts, bs) && WhollyOn(bs, c)
    ensures Repository.Stored(parts, c)
  {
    forall p: nat | p < c.dataParts + c.parityParts ensures PartKey(c.hash, p, c.dataParts) in parts {
      assert OnSome(bs, Decoding.PartOf(c, p));
      var b :| PartOn(bs, b, Decoding.PartOf(c, p));
      OnSomeBackend(bs, b, Decoding.PartOf(c, p));
    }
  }

  /**
   Whatever fails while the targets are stored, and however many chunks are dropped: every chunk of every archive that
   comes out has all of its parts stored, as the store step of the state machine demands.
   */
  lemma ArchivesAreStored(how: Settings, targets: seq<Target>, bs: seq<Backend>, last: nat, parts: set<PartKey>)
    requires ValidSettingsFor(how) && ParityLaw(how.ctx, how.opts) && |bs| > 0 && PartsOnBackends(parts, bs)
    ensures var end := Filed(how, targets, Filing(bs, last, []));
            && PartsOnBackends(parts + KeysOn(end.backends), end.backends)
            && forall a, c | a in end.archives && c in a.chunks :: Repository.Stored(parts + KeysOn(end.backends), c)
  {
    var end := Filed(how, targets, Filing(bs, last, []));
    FiledIsStored(how, targets, Filing(bs, last, []));
    PartsJoin(parts, bs, end.backends);
    forall a, c | a in end.archives && c in a.chunks ensures Repository.Stored(parts + KeysOn(end.backends), c) {
      assert WhollyOn(end.backends, c);
      WhollyOnIsStored(parts + KeysOn(end.backends), end.backends, c);
    }
  }

  /* ---- Metadata files ---- */

  /** The file that a backend has, if any. */
  function FileAt(be: Backend, file: File): Option<Bytes> { if file in be.files then Some(be.files[file]) else None }

  /** How a program reads copies: what it wrote is read back, and a part of it is not readable. */
  ghost predicate ReadsBack<T(!new)>(read: Option<Bytes> -> Option<T>, contents: Bytes, now: T) {
    && read(Some(contents)) == Some(now)
    && forall n: nat | n < |contents| :: read(Some(contents[..n])).None?
  }

  /** Every backend's copy is what the state machine says after `done` writes. */
  ghost predicate CopiesWritten<T>(
      bs: seq<Backend>, bs': seq<Backend>, file: File, read: Option<Bytes> -> Option<T>, now: T, done: nat, torn: bool)
  {
    && |bs'| == |bs|
    && forall i: nat | i < |bs| ::
         read(FileAt(bs'[i], file)) == Repository.Written(read(FileAt(bs[i], file)), now, i, done, torn)
  }

  /** What a failed save leaves on the backend at which it fails: the old file, the whole new one, or a torn one. */
  lemma FailedCopy<T(!new)>(
      bs: seq<Backend>, bs': seq<Backend>, file: File, contents: Bytes, read: Option<Bytes> -> Option<T>, now: T,
      i: nat)
    returns (done: nat, torn: bool)
    requires ReadsBack(read, contents, now) && FailedAt(bs, bs', file, contents, 0, i)
    ensures CopiesWritten(bs, bs', file, read, now, done, torn) && done <= |bs| && (done == |bs| ==> !torn)
  {
    var was, kept := FileAt(bs[i], file), FileAt(bs'[i], file);
    if kept == was {
      done, torn := i, false;
    } else if kept == Some(contents) {
      done, torn := i + 1, false;
    } else {
      assert kept.value == contents[..|kept.value|] && contents[..|contents|] == contents;
      done, torn := i, true;
    }
  }

  /**
   The write budget of the state machine and the faults of the backends: whatever the backends do while a metadata file
   is saved on all of them, with three attempts on each, there is a number of writes that were done, and a next one
   that left a torn copy or not, which account for every copy; on success they were all done. No other file and no
   part changes.
   */
  lemma SaveIsWrites<T(!new)>(
      bs: seq<Backend>, file: File, contents: Bytes, read: Option<Bytes> -> Option<T>, now: T)
    returns (done: nat, torn: bool)
    requires ReadsBack(read, contents, now)
    ensures var r := Every(bs, SaveFile(file, contents), 0);
            && CopiesWritten(bs, r.0, file, read, now, done, torn)
            && done <= |bs| && (r.1 ==> done == |bs|)
            && forall i: nat | i < |bs| ::
                 r.0[i].parts == bs[i].parts && r.0[i].files - {file} == bs[i].files - {file}
  {
    var r := Every(bs, SaveFile(file, contents), 0);
    SaveEvery(bs, file, contents, 0);
    if r.1 {
      assert forall i: nat | i < |bs| :: Resilience.Saved(bs[i], r.0[i], file, contents);
      done, torn := |bs|, false;
    } else {
      var i: nat :| FailedAt(bs, r.0, file, contents, 0, i);
      done, torn := FailedCopy(bs, r.0, file, contents, read, now, i);
    }
  }
}
