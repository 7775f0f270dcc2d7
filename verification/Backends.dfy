/**
 The storage backends and the BackendManager over them (backendmanager.go, storage_filesystem.go).
 A backend is a store of chunk parts and metadata files with an adversary: `faults(t)` decides what the
 attempt at time `t` does. A failed write may leave a prefix of the data behind.
 */
module Backends {
  import opened Basics

  const RETRIES: nat := 3

  /** A stored part: the hash of the encoded chunk, the part's number, and the number of data parts. */
  datatype PartKey = PartKey(hash: string, part: nat, total: nat)

  datatype File = SnapshotFile(id: string) | IndexFile | RepositoryFile

  datatype Attempt = Succeeds | Fails(written: Option<nat>)

  datatype Backend = Backend(parts: map<PartKey, Bytes>, files: map<File, Bytes>, faults: nat -> Attempt, clock: nat)

  datatype Request =
    | LoadPart(key: PartKey) | StorePart(key: PartKey, data: Bytes) | DeletePart(key: PartKey)
    | LoadFile(file: File) | SaveFile(file: File, data: Bytes)

  datatype Answer = Data(data: Bytes) | Size(size: nat) | Done

  function Prefix(data: Bytes, n: nat): Bytes { if n < |data| then data[..n] else data }

  /** The backend already has the part at its full size: StoreChunk then writes nothing. */
  predicate HasSize(be: Backend, key: PartKey, size: nat) { key in be.parts && |be.parts[key]| == size }

  /** One attempt of one request. */
  function Once(be: Backend, req: Request): (Backend, Option<Answer>) {
    var now := be.faults(be.clock);
    var later := be.(clock := be.clock + 1);
    match req
    case LoadPart(key) =>
      (later, if now.Succeeds? && key in be.parts then Some(Data(be.parts[key])) else None)
    case LoadFile(file) =>
      (later, if now.Succeeds? && file in be.files then Some(Data(be.files[file])) else None)
    case DeletePart(key) =>
      if now.Succeeds? && key in be.parts then (later.(parts := be.parts - {key}), Some(Done)) else (later, None)
    case StorePart(key, data) =>
      if HasSize(be, key, |data|) then (later, if now.Succeeds? then Some(Size(0)) else None)
      else if now.Succeeds? then (later.(parts := be.parts[key := data]), Some(Size(|data|)))
      else if now.written.Some? then (later.(parts := be.parts[key := Prefix(data, now.written.value)]), None)
      else (later, None)
    case SaveFile(file, data) =>
      if now.Succeeds? then (later.(files := be.files[file := data]), Some(Done))
      else if now.written.Some? then (later.(files := be.files[file := Prefix(data, now.written.value)]), None)
      else (later, None)
  }

  /** Up to `n` attempts, until one succeeds. */
  function Try(be: Backend, req: Request, n: nat): (Backend, Option<Answer>)
    decreases n
  {
    if n == 0 then (be, None)
    else
      var r := Once(be, req);
      if r.1.Some? then r else Try(r.0, req, n - 1)
  }

  /** Ask the backends from `b` on until one answers: the Load methods and DeleteChunk. */
  function First(bs: seq<Backend>, req: Request, b: nat): (r: (seq<Backend>, Option<Answer>))
    requires b <= |bs|
    ensures |r.0| == |bs|
    decreases |bs| - b
  {
    if b == |bs| then (bs, None)
    else
      var r := Try(bs[b], req, RETRIES);
      if r.1.Some? then (bs[b := r.0], r.1) else First(bs[b := r.0], req, b + 1)
  }

  /** Ask every backend from `b` on, up to the first that fails: the Save methods. */
  function Every(bs: seq<Backend>, req: Request, b: nat): (r: (seq<Backend>, bool))
    requires b <= |bs|
    ensures |r.0| == |bs|
    decreases |bs| - b
  {
    if b == |bs| then (bs, true)
    else
      var r := Try(bs[b], req, RETRIES);
      if r.1.None? then (bs[b := r.0], false) else Every(bs[b := r.0], req, b + 1)
  }

  function NextBackend(last: nat, n: nat): nat { if last + 2 > n then 0 else last + 1 }

  /** Store the parts from `i` on, round robin; `size` is the largest size written so far. */
  function StoreParts(bs: seq<Backend>, last: nat, hash: string, total: nat, data: seq<Bytes>, i: nat, size: nat)
    : (r: (seq<Backend>, nat, Option<nat>))
    requires |bs| > 0 && i <= |data|
    ensures |r.0| == |bs|
    decreases |data| - i
  {
    if i == |data| then (bs, last, Some(size))
    else
      var at := NextBackend(last, |bs|);
      var r := Try(bs[at], StorePart(PartKey(hash, i, total), data[i]), RETRIES);
      if r.1.None? then (bs[at := r.0], at, None)
      else
        var n := if r.1.value.Size? then r.1.value.size else 0;
        StoreParts(bs[at := r.0], at, hash, total, data, i + 1, if n > size then n else size)
  }

  class BackendManager {
    var backends: seq<Backend>
    var lastUsedBackend: nat

    constructor ()
      ensures backends == [] && lastUsedBackend == 0
    {
      backends, lastUsedBackend := [], 0;
    }

    method AddBackend(be: Backend)
      modifies this`backends
      ensures backends == old(backends) + [be]
    {
      backends := backends + [be];
    }

    /** The retry loop that every method of the manager has around its call of a backend. */
    method Retry(b: nat, req: Request) returns (a: Option<Answer>)
      requires b < |backends|
      modifies this`backends
      ensures backends == old(backends)[b := Try(old(backends)[b], req, RETRIES).0]
      ensures a == Try(old(backends)[b], req, RETRIES).1
    {
      a := None;
      var i := 0;
      while i < RETRIES
        invariant i <= RETRIES && |backends| == |old(backends)| && a.None?
        invariant backends == old(backends)[b := backends[b]]
        invariant Try(old(backends)[b], req, RETRIES) == Try(backends[b], req, RETRIES - i)
      {
        var r := Once(backends[b], req);
        backends, a := backends[b := r.0], r.1;
        if a.Some? { return; }
        i := i + 1;
      }
    }

    /** LoadChunk, DeleteChunk, LoadSnapshot, LoadChunkIndex and LoadRepository all have this loop. */
    method AskFirst(req: Request) returns (a: Option<Answer>)
      modifies this`backends
      ensures (backends, a) == First(old(backends), req, 0)
    {
      a := None;
      for b := 0 to |backends|
        invariant |backends| == |old(backends)| && a.None?
        invariant First(old(backends), req, 0) == First(backends, req, b)
      {
        a := Retry(b, req);
        if a.Some? { return; }
      }
    }

    /** SaveSnapshot, SaveChunkIndex and SaveRepository all have this loop. */
    method AskEvery(req: Request) returns (ok: bool)
      modifies this`backends
      ensures (backends, ok) == Every(old(backends), req, 0)
    {
      ok := true;
      for b := 0 to |backends|
        invariant |backends| == |old(backends)| && ok
        invariant Every(old(backends), req, 0) == Every(backends, req, b)
      {
        var a := Retry(b, req);
        if a.None? { return false; }
      }
    }

    method LoadChunk(key: PartKey) returns (r: Option<Bytes>)
      modifies this`backends
      ensures backends == First(old(backends), LoadPart(key), 0).0
      ensures r == LoadedData(First(old(backends), LoadPart(key), 0).1)
    {
      var a := AskFirst(LoadPart(key));
      r := LoadedData(a);
    }

    method StoreChunk(hash: string, total: nat, data: seq<Bytes>) returns (r: Option<nat>)
      requires |backends| > 0
      modifies this
      ensures (backends, lastUsedBackend, r) == StoreParts(old(backends), old(lastUsedBackend), hash, total, data, 0, 0)
    {
      var size := 0;
      for i := 0 to |data|
        invariant |backends| == |old(backends)|
        invariant StoreParts(old(backends), old(lastUsedBackend), hash, total, data, 0, 0)
               == StoreParts(backends, lastUsedBackend, hash, total, data, i, size)
      {
        lastUsedBackend := lastUsedBackend + 1;
        if lastUsedBackend + 1 > |backends| {
          lastUsedBackend := 0;
        }
        var a := Retry(lastUsedBackend, StorePart(PartKey(hash, i, total), data[i]));
        if a.None? { return None; }
        if a.value.Size? && a.value.size > size {
          size := a.value.size;
        }
      }
      r := Some(size);
    }

    method DeleteChunk(key: PartKey) returns (ok: bool)
      modifies this`backends
      ensures backends == First(old(backends), DeletePart(key), 0).0
      ensures ok == First(old(backends), DeletePart(key), 0).1.Some?
    {
      var a := AskFirst(DeletePart(key));
      ok := a.Some?;
    }
  }

  function LoadedData(a: Option<Answer>): Option<Bytes> {
    if a.Some? && a.value.Data? then Some(a.value.data) else None
  }
}
