/** Loading, decoding, restoring and verifying chunks (decode.go, verify.go). */
module Decoding {
  import opened Basics
  import opened Libraries
  import opened Codec
  import opened Erasure
  import opened Backends
  import opened Resilience
  import opened Archives

  datatype ReadError =
    | ChunkMissing(num: nat)
    | NotLoaded
    | BadCounts
    | CodecFailed(cause: CodecError)
    | WrongChecksum
    | NotReconstructed(blocksFound: nat, failedBackends: nat)

  type Read<T> = Result<T, ReadError>

  const TWO_TO_64: nat := 0x1_0000_0000_0000_0000

  /** Subtraction on the 64-bit unsigned integers of Go's `uint`. */
  function UintMinus(a: nat, b: nat): (r: nat)
    ensures 0 <= a - b < TWO_TO_64 ==> r == a - b
    ensures 0 < b - a < TWO_TO_64 ==> r == TWO_TO_64 - (b - a)
  {
    (a - b) % TWO_TO_64
  }

  /** The repository's key and what the program is linked against. */
  datatype Context = Context(lib: Library, key: string)

  /** What the libraries promise whatever the backends return. */
  ghost predicate Sound(ctx: Context) {
    && CipherLaws(ctx.lib)
    && forall k, m, shards | ctx.lib.rebuild(k, m, shards).Some? :: |ctx.lib.rebuild(k, m, shards).value| == |shards|
  }

  predicate ValidSettings(arc: Archive) { ValidCompression(arc.compressed) && ValidEncryption(arc.encrypted) }

  /** What the decoding pipeline makes of some bytes. */
  function Unpacked(ctx: Context, arc: Archive, b: Bytes): Result<Bytes, CodecError>
    requires CipherLaws(ctx.lib) && ValidSettings(arc)
  {
    PipelinesUsable(ctx.lib, arc.compressed, arc.encrypted, ctx.key);
    var pipe := NewDecodingPipeline(ctx.lib, arc.compressed, arc.encrypted, ctx.key);
    if pipe.Err? then Err(pipe.error) else Processed(ctx.lib, pipe.value, b)
  }

  /** decodeChunk: undo the pipeline, then compare checksums. */
  function Decoded(ctx: Context, arc: Archive, chunk: Chunk, b: Bytes): Read<Bytes>
    requires CipherLaws(ctx.lib) && ValidSettings(arc)
  {
    var data := Unpacked(ctx, arc, b);
    if data.Err? then Err(CodecFailed(data.error))
    else if ctx.lib.hash(data.value) != chunk.decryptedHash then Err(WrongChecksum)
    else Ok(data.value)
  }

  /** What the encoding pipeline makes of the data; the error of the pipeline's constructor is ignored there. */
  function Encoded(ctx: Context, compress: nat, encrypt: nat, data: Bytes): Result<Bytes, CodecError>
    requires CipherLaws(ctx.lib) && ValidCompression(compress) && ValidEncryption(encrypt)
  {
    PipelinesUsable(ctx.lib, compress, encrypt, ctx.key);
    var pipe := NewEncodingPipeline(ctx.lib, compress, encrypt, ctx.key);
    Processed(ctx.lib, if pipe.Ok? then pipe.value else [], data)
  }

  /**
   `b` is the data as a chunk holds it: compressed and encrypted under the repository's key; or the data itself where
   the pipeline could not be built.
   */
  ghost predicate EncodedAs(ctx: Context, compress: nat, encrypt: nat, data: Bytes, b: Bytes)
    requires CipherLaws(ctx.lib)
  {
    if encrypt == AES && ctx.key == "" then b == data
    else
      var z := Compressed(ctx.lib, compress, data);
      z.Some? && Enciphered(ctx.lib, encrypt, ctx.key, z.value, b)
  }

  /** What is stored of a piece, exactly. */
  lemma EncodedExact(ctx: Context, compress: nat, encrypt: nat, data: Bytes, b: Bytes)
    requires CipherLaws(ctx.lib) && ValidCompression(compress) && ValidEncryption(encrypt)
    ensures Encoded(ctx, compress, encrypt, data) == Ok(b) <==> EncodedAs(ctx, compress, encrypt, data, b)
    ensures Encoded(ctx, compress, encrypt, data).Err?
        <==> !(encrypt == AES && ctx.key == "") && Compressed(ctx.lib, compress, data).None?
  {
    if encrypt == AES && ctx.key == "" {
      PipelinesUsable(ctx.lib, compress, encrypt, ctx.key);
    } else {
      EncodingExact(ctx.lib, compress, encrypt, ctx.key, data, b);
    }
  }

  /** What is read of any stored bytes, exactly. */
  lemma UnpackedExact(ctx: Context, arc: Archive, b: Bytes, z: Bytes)
    requires CipherLaws(ctx.lib) && ValidSettings(arc) && UsableKey(ctx, arc)
    requires Enciphered(ctx.lib, arc.encrypted, ctx.key, z, b)
    ensures Unpacked(ctx, arc, b)
         == if arc.compressed == NONE then Ok(z)
            else if ctx.lib.decompress(arc.compressed, z).Some? then Ok(ctx.lib.decompress(arc.compressed, z).value)
            else Err(DecompressionFailed)
  {
    var y := DecodingExact(ctx.lib, arc.compressed, arc.encrypted, ctx.key, b);
  }

  predicate UsableKey(ctx: Context, arc: Archive) { arc.encrypted == AES ==> ctx.key != "" }

  /**
   Decoding what was encoded with the archive's settings gives the data back if its checksum is the recorded one,
   and a checksum error if it is not.
   */
  lemma DecodedEncoded(ctx: Context, arc: Archive, chunk: Chunk, data: Bytes)
    requires CipherLaws(ctx.lib) && CompressionLaws(ctx.lib) && ValidSettings(arc) && UsableKey(ctx, arc)
    requires Encoded(ctx, arc.compressed, arc.encrypted, data).Ok?
    ensures Decoded(ctx, arc, chunk, Encoded(ctx, arc.compressed, arc.encrypted, data).value)
         == if ctx.lib.hash(data) == chunk.decryptedHash then Ok(data) else Err(WrongChecksum)
  {
    PipelineRoundTrip(ctx.lib, arc.compressed, arc.encrypted, ctx.key, data);
  }

  /** A successful read has the recorded checksum, whatever the backends hold. */
  ghost predicate Checked(ctx: Context, chunk: Chunk, r: Read<Bytes>) {
    r.Ok? ==> ctx.lib.hash(r.value) == chunk.decryptedHash
  }

  /** If `b` is the encoded form of some data, `r` is that data or says that its checksum is not the recorded one. */
  ghost predicate UndoesEncoding(ctx: Context, arc: Archive, chunk: Chunk, b: Bytes, r: Read<Bytes>)
    requires CipherLaws(ctx.lib) && ValidSettings(arc)
  {
    forall data | Encoded(ctx, arc.compressed, arc.encrypted, data) == Ok(b) ::
      r == if ctx.lib.hash(data) == chunk.decryptedHash then Ok(data) else Err(WrongChecksum)
  }

  /**
   decodeChunk. A result has the recorded checksum; and on encoded data the result is that data exactly if its
   checksum is the recorded one.
   */
  method DecodeChunk(ctx: Context, arc: Archive, chunk: Chunk, b: Bytes) returns (r: Read<Bytes>)
    requires CipherLaws(ctx.lib) && ValidSettings(arc)
    ensures Checked(ctx, chunk, r)
    ensures CompressionLaws(ctx.lib) && UsableKey(ctx, arc) ==> UndoesEncoding(ctx, arc, chunk, b, r)
    ensures r == Decoded(ctx, arc, chunk, b)
  {
    if CompressionLaws(ctx.lib) && UsableKey(ctx, arc) {
      forall data | Encoded(ctx, arc.compressed, arc.encrypted, data) == Ok(b)
        ensures Decoded(ctx, arc, chunk, b)
             == if ctx.lib.hash(data) == chunk.decryptedHash then Ok(data) else Err(WrongChecksum)
      {
        DecodedEncoded(ctx, arc, chunk, data);
      }
    }
    PipelinesUsable(ctx.lib, arc.compressed, arc.encrypted, ctx.key);
    var pipe := NewDecodingPipeline(ctx.lib, arc.compressed, arc.encrypted, ctx.key);
    if pipe.Err? { return Err(CodecFailed(pipe.error)); }
    var data := Process(ctx.lib, pipe.value, b);
    if data.Err? { return Err(CodecFailed(data.error)); }
    if ctx.lib.hash(data.value) != chunk.decryptedHash { return Err(WrongChecksum); }
    return Ok(data.value);
  }

  /** What the backends give for a part at the moment: the view of a steady set of backends, or any other. */
  type Contents = PartKey -> Option<Bytes>

  ghost function ContentsOf(bs: seq<Backend>): Contents {
    key => LoadedData(Served(bs, LoadPart(key), 0))
  }

  function PartOf(chunk: Chunk, i: nat): PartKey { PartKey(chunk.hash, i, chunk.dataParts) }

  function TotalParts(chunk: Chunk): nat { chunk.dataParts + chunk.parityParts }

  /** Reconstruct, if a part was missing, and Join: the encoded chunk, and the parts as they are left. */
  function Assembled(ctx: Context, chunk: Chunk, pars: seq<Option<Bytes>>, missing: nat)
    : (r: (Option<Bytes>, seq<Option<Bytes>>))
    requires Sound(ctx) && |pars| == TotalParts(chunk)
    ensures |r.1| == |pars|
  {
    var rebuilt := if missing > 0 then ctx.lib.rebuild(chunk.dataParts, chunk.parityParts, pars) else Some(pars);
    if rebuilt.None? then (None, pars) else (Join(rebuilt.value[..chunk.dataParts], chunk.size), rebuilt.value)
  }

  /** The parity branch of loadChunk from part `i` on, and the number of parts it has asked for in the end. */
  function LoadedParts(
      ctx: Context, arc: Archive, chunk: Chunk, contents: Contents, pars: seq<Option<Bytes>>, i: nat,
      found: nat, missing: nat)
    : (Read<Bytes>, nat)
    requires Sound(ctx) && ValidSettings(arc) && i <= |pars| == TotalParts(chunk)
    decreases |pars| - i
  {
    if i == |pars| then (Err(NotReconstructed(found, UintMinus(chunk.dataParts, found))), i)
    else
      var part := contents(PartOf(chunk, i));
      if part.None? then LoadedParts(ctx, arc, chunk, contents, pars[i := None], i + 1, found, missing + 1)
      else if found + 1 >= chunk.dataParts then
        var a := Assembled(ctx, chunk, pars[i := part], missing);
        if a.0.None? then LoadedParts(ctx, arc, chunk, contents, a.1, i + 1, found + 1, missing)
        else (Decoded(ctx, arc, chunk, a.0.value), i + 1)
      else LoadedParts(ctx, arc, chunk, contents, pars[i := part], i + 1, found + 1, missing)
  }

  function NoParts(n: nat): (r: seq<Option<Bytes>>)
    ensures |r| == n
    ensures forall i :: 0 <= i < n ==> r[i].None?
  {
    seq(n, _ => None)
  }

  /** loadChunk, and the number of parts it asks for. */
  function Loaded(ctx: Context, arc: Archive, chunk: Chunk, contents: Contents): (Read<Bytes>, nat)
    requires Sound(ctx) && ValidSettings(arc)
  {
    if chunk.parityParts > 0 then
      if !ValidCounts(chunk.dataParts, chunk.parityParts) then (Err(BadCounts), 0)
      else LoadedParts(ctx, arc, chunk, contents, NoParts(TotalParts(chunk)), 0, 0, 0)
    else
      var part := contents(PartOf(chunk, 0));
      (if part.None? then Err(NotLoaded) else Decoded(ctx, arc, chunk, part.value), 1)
  }

  /** The erasure library is only asked for counts that it accepts: from one data part on, at most 256 parts. */
  lemma BadCountsExactly(ctx: Context, arc: Archive, chunk: Chunk, contents: Contents)
    requires Sound(ctx) && ValidSettings(arc)
    ensures Loaded(ctx, arc, chunk, contents).0 == Err(BadCounts)
        <==> chunk.parityParts > 0 && !(0 < chunk.dataParts && chunk.dataParts + chunk.parityParts <= 256)
  {
    if chunk.parityParts > 0 && ValidCounts(chunk.dataParts, chunk.parityParts) {
      NeverBadCounts(ctx, arc, chunk, contents, NoParts(TotalParts(chunk)), 0, 0, 0);
    }
  }

  lemma {:induction false} NeverBadCounts(
      ctx: Context, arc: Archive, chunk: Chunk, contents: Contents, pars: seq<Option<Bytes>>, i: nat,
      found: nat, missing: nat)
    requires Sound(ctx) && ValidSettings(arc) && i <= |pars| == TotalParts(chunk)
    ensures LoadedParts(ctx, arc, chunk, contents, pars, i, found, missing).0 != Err(BadCounts)
    decreases |pars| - i
  {
    if i < |pars| {
      var part := contents(PartOf(chunk, i));
      if part.None? {
        NeverBadCounts(ctx, arc, chunk, contents, pars[i := None], i + 1, found, missing + 1);
      } else if found + 1 < chunk.dataParts {
        NeverBadCounts(ctx, arc, chunk, contents, pars[i := part], i + 1, found + 1, missing);
      } else {
        var a := Assembled(ctx, chunk, pars[i := part], missing);
        NeverBadCounts(ctx, arc, chunk, contents, a.1, i + 1, found + 1, missing);
      }
    }
  }

  lemma AlikeTransitive(a: seq<Backend>, b: seq<Backend>, c: seq<Backend>)
    requires Alike(a, b) && Alike(b, c)
    ensures Alike(a, c)
  {
  }

  /** One call of the manager's LoadChunk, seen against the state `start` in which a longer operation began. */
  lemma LoadStep(start: seq<Backend>, now: seq<Backend>, key: PartKey)
    requires Alike(start, now)
    ensures var r := First(now, LoadPart(key), 0);
            && Alike(start, r.0)
            && (Steady(start) ==> LoadedData(r.1) == ContentsOf(start)(key))
  {
    FirstLoad(now, LoadPart(key), 0);
    AlikeTransitive(start, now, First(now, LoadPart(key), 0).0);
    if Steady(start) {
      ServedAlike(start, now, LoadPart(key), 0);
    }
  }

  method Assemble(ctx: Context, chunk: Chunk, pars: seq<Option<Bytes>>, missing: nat)
    returns (b: Option<Bytes>, pars': seq<Option<Bytes>>)
    requires Sound(ctx) && |pars| == TotalParts(chunk)
    ensures (b, pars') == Assembled(ctx, chunk, pars, missing)
  {
    pars' := pars;
    if missing > 0 {
      var rebuilt := ctx.lib.rebuild(chunk.dataParts, chunk.parityParts, pars);
      if rebuilt.None? { return None, pars; }
      pars' := rebuilt.value;
    }
    b := Join(pars'[..chunk.dataParts], chunk.size);
  }

  /** One call of the manager's LoadChunk within an operation that began in state `start`. */
  method Fetch(mgr: BackendManager, key: PartKey, ghost start: seq<Backend>, ghost contents: Contents)
    returns (part: Option<Bytes>)
    requires Alike(start, mgr.backends)
    requires Steady(start) ==> contents == ContentsOf(start)
    modifies mgr`backends
    ensures Alike(start, mgr.backends)
    ensures Steady(start) ==> part == contents(key)
  {
    LoadStep(start, mgr.backends, key);
    part := mgr.LoadChunk(key);
  }

  /** One round of the loop in loadChunk. */
  lemma GoOn(
      ctx: Context, arc: Archive, chunk: Chunk, contents: Contents, pars: seq<Option<Bytes>>, i: nat,
      found: nat, missing: nat)
    requires Sound(ctx) && ValidSettings(arc) && i < |pars| == TotalParts(chunk)
    ensures var part := contents(PartOf(chunk, i));
            var now := LoadedParts(ctx, arc, chunk, contents, pars, i, found, missing);
            && (part.None? ==>
                  now == LoadedParts(ctx, arc, chunk, contents, pars[i := None], i + 1, found, missing + 1))
            && (part.Some? && found + 1 < chunk.dataParts ==>
                  now == LoadedParts(ctx, arc, chunk, contents, pars[i := part], i + 1, found + 1, missing))
            && (part.Some? && found + 1 >= chunk.dataParts ==>
                  var a := Assembled(ctx, chunk, pars[i := part], missing);
                  now == if a.0.None? then LoadedParts(ctx, arc, chunk, contents, a.1, i + 1, found + 1, missing)
                         else (Decoded(ctx, arc, chunk, a.0.value), i + 1))
  {
  }

  /** One round of the loop: the result if it ends the loop, otherwise what the loop goes on with. */
  method Round(
      ctx: Context, arc: Archive, chunk: Chunk, mgr: BackendManager, pars: seq<Option<Bytes>>, i: nat, found: nat,
      missing: nat, ghost start: seq<Backend>, ghost contents: Contents)
    returns (stop: Option<Read<Bytes>>, pars': seq<Option<Bytes>>, found': nat, missing': nat)
    requires Sound(ctx) && ValidSettings(arc) && i < |pars| == TotalParts(chunk) && Alike(start, mgr.backends)
    requires Steady(start) ==> contents == ContentsOf(start)
    modifies mgr`backends
    ensures Alike(start, mgr.backends) && |pars'| == |pars|
    ensures stop.Some? ==> Checked(ctx, chunk, stop.value)
    ensures Steady(start) ==>
              LoadedParts(ctx, arc, chunk, contents, pars, i, found, missing)
              == if stop.Some? then (stop.value, i + 1)
                 else LoadedParts(ctx, arc, chunk, contents, pars', i + 1, found', missing')
  {
    GoOn(ctx, arc, chunk, contents, pars, i, found, missing);
    var part := Fetch(mgr, PartOf(chunk, i), start, contents);
    if part.None? { return None, pars[i := None], found, missing + 1; }
    stop, pars', found', missing' := None, pars[i := part], found + 1, missing;
    if found' >= chunk.dataParts {
      var b;
      b, pars' := Assemble(ctx, chunk, pars', missing);
      if b.Some? {
        var data := DecodeChunk(ctx, arc, chunk, b.value);
        stop := Some(data);
      }
    }
  }

  /** The parity branch of loadChunk: try to load all parts until the chunk can be put together. */
  method LoadParity(ctx: Context, arc: Archive, chunk: Chunk, mgr: BackendManager, ghost contents: Contents)
    returns (r: Read<Bytes>, ghost asked: nat)
    requires Sound(ctx) && ValidSettings(arc)
    requires Steady(mgr.backends) ==> contents == ContentsOf(mgr.backends)
    modifies mgr`backends
    ensures Alike(old(mgr.backends), mgr.backends)
    ensures Checked(ctx, chunk, r)
    ensures Steady(old(mgr.backends)) ==>
      (r, asked) == LoadedParts(ctx, arc, chunk, contents, NoParts(TotalParts(chunk)), 0, 0, 0)
  {
    var n := chunk.dataParts + chunk.parityParts;
    var pars := NoParts(n);
    var found, missing := 0, 0;
    ghost var start, steady := mgr.backends, Steady(mgr.backends);
    ghost var expected := LoadedParts(ctx, arc, chunk, contents, pars, 0, 0, 0);
    for i := 0 to n
      invariant |pars| == n && Alike(start, mgr.backends)
      invariant steady ==> expected == LoadedParts(ctx, arc, chunk, contents, pars, i, found, missing)
    {
      var stop;
      stop, pars, found, missing := Round(ctx, arc, chunk, mgr, pars, i, found, missing, start, contents);
      if stop.Some? { return stop.value, i + 1; }
    }
    return Err(NotReconstructed(found, UintMinus(chunk.dataParts, found))), n;
  }

  /**
   loadChunk on the live backends. Only time passes on them; a result always has the right checksum; and on
   steady backends the result is the one that their contents determine.
   */
  method LoadChunk(ctx: Context, arc: Archive, chunk: Chunk, mgr: BackendManager)
    returns (r: Read<Bytes>, ghost asked: nat)
    requires Sound(ctx) && ValidSettings(arc)
    modifies mgr`backends
    ensures Alike(old(mgr.backends), mgr.backends)
    ensures Checked(ctx, chunk, r)
    ensures Steady(old(mgr.backends)) ==> (r, asked) == Loaded(ctx, arc, chunk, ContentsOf(old(mgr.backends)))
  {
    if chunk.parityParts > 0 {
      if !ValidCounts(chunk.dataParts, chunk.parityParts) { return Err(BadCounts), 0; }
      r, asked := LoadParity(ctx, arc, chunk, mgr, ContentsOf(mgr.backends));
      return;
    }
    var b := Fetch(mgr, PartOf(chunk, 0), mgr.backends, ContentsOf(mgr.backends));
    asked := 1;
    if b.None? { return Err(NotLoaded), 1; }
    r := DecodeChunk(ctx, arc, chunk, b.value);
  }

  /* ---- loadChunk: complete, minimal, and exact about what it found ---- */

  /** How many of the first `i` parts can be loaded. */
  function Available(contents: Contents, chunk: Chunk, i: nat): (n: nat)
    ensures n <= i
  {
    if i == 0 then 0 else Available(contents, chunk, i - 1) + if contents(PartOf(chunk, i - 1)).Some? then 1 else 0
  }

  lemma {:induction false} KnownUpdate(pars: seq<Option<Bytes>>, i: nat, part: Option<Bytes>)
    requires i < |pars| && pars[i].None? && part.Some?
    ensures |Known(pars[i := part])| == |Known(pars)| + 1
  {
    if i == 0 {
      assert pars[i := part][1..] == pars[1..];
    } else {
      assert pars[i := part][1..] == pars[1..][i - 1 := part];
      KnownUpdate(pars[1..], i - 1, part);
    }
  }

  lemma {:induction false} KnownNone(pars: seq<Option<Bytes>>)
    requires forall i :: 0 <= i < |pars| ==> pars[i].None?
    ensures Known(pars) == []
  {
    if pars != [] {
      KnownNone(pars[1..]);
    }
  }

  /** The slice of parts after part `i - 1`: what could be loaded so far, and nothing else. */
  function Slots(contents: Contents, chunk: Chunk, i: nat): (r: seq<Option<Bytes>>)
    requires i <= TotalParts(chunk)
    ensures |r| == TotalParts(chunk)
  {
    seq(TotalParts(chunk), j requires 0 <= j < TotalParts(chunk) => if j < i then contents(PartOf(chunk, j)) else None)
  }

  lemma SlotsNext(contents: Contents, chunk: Chunk, i: nat)
    requires i < TotalParts(chunk)
    ensures Slots(contents, chunk, i)[i := contents(PartOf(chunk, i))] == Slots(contents, chunk, i + 1)
  {
  }

  lemma {:induction false} KnownSlots(contents: Contents, chunk: Chunk, i: nat)
    requires i <= TotalParts(chunk)
    ensures |Known(Slots(contents, chunk, i))| == Available(contents, chunk, i)
  {
    if i == 0 {
      KnownNone(Slots(contents, chunk, 0));
    } else {
      KnownSlots(contents, chunk, i - 1);
      SlotsNext(contents, chunk, i - 1);
      if contents(PartOf(chunk, i - 1)).Some? {
        KnownUpdate(Slots(contents, chunk, i - 1), i - 1, contents(PartOf(chunk, i - 1)));
      } else {
        assert Slots(contents, chunk, i) == Slots(contents, chunk, i - 1);
      }
    }
  }

  /** All of the first `k` parts, if none was missing among them. */
  lemma {:induction false} AllAvailable(contents: Contents, chunk: Chunk, i: nat, j: nat)
    requires Available(contents, chunk, i) == i && j < i
    ensures contents(PartOf(chunk, j)).Some?
  {
    if j < i - 1 { AllAvailable(contents, chunk, i - 1, j); }
  }

  lemma {:induction false} AvailableGrows(contents: Contents, chunk: Chunk, i: nat, j: nat)
    requires i <= j
    ensures Available(contents, chunk, i) <= Available(contents, chunk, j)
    decreases j
  {
    if i < j { AvailableGrows(contents, chunk, i, j - 1); }
  }

  /** Part `asked - 1` is the `k`-th that could be loaded. */
  predicate StopsAtKth(contents: Contents, chunk: Chunk, asked: nat) {
    && 0 < asked <= TotalParts(chunk)
    && Available(contents, chunk, asked) == chunk.dataParts
    && contents(PartOf(chunk, asked - 1)).Some?
  }

  /** What the loop puts together from the parts before part `asked`. */
  function FirstAssembly(ctx: Context, chunk: Chunk, contents: Contents, asked: nat): Option<Bytes>
    requires Sound(ctx) && asked <= TotalParts(chunk) && Available(contents, chunk, asked) <= asked
  {
    Assembled(ctx, chunk, Slots(contents, chunk, asked), asked - Available(contents, chunk, asked)).0
  }

  /** As soon as `k` parts are loaded, they can be put together. */
  ghost predicate KthAssembles(ctx: Context, chunk: Chunk, contents: Contents)
    requires Sound(ctx)
  {
    forall asked: nat | StopsAtKth(contents, chunk, asked) :: FirstAssembly(ctx, chunk, contents, asked).Some?
  }

  /**
   If `k` parts can be loaded, `r` is what decoding makes of the first `k` of them put together, after no more
   requests than that takes; otherwise it is the error that reports how many were found and how many more it would
   have taken.
   */
  ghost predicate ExactOutcome(ctx: Context, arc: Archive, chunk: Chunk, contents: Contents, r: (Read<Bytes>, nat))
    requires Sound(ctx) && ValidSettings(arc)
  {
    var all := Available(contents, chunk, TotalParts(chunk));
    if all >= chunk.dataParts then
      && StopsAtKth(contents, chunk, r.1)
      && var b := FirstAssembly(ctx, chunk, contents, r.1);
         b.Some? && r.0 == Decoded(ctx, arc, chunk, b.value)
    else r == (Err(NotReconstructed(all, chunk.dataParts - all)), TotalParts(chunk))
  }

  /** The loop from round `i` on, when nothing could be put together before. */
  ghost function FromRound(ctx: Context, arc: Archive, chunk: Chunk, contents: Contents, i: nat): (Read<Bytes>, nat)
    requires Sound(ctx) && ValidSettings(arc) && i <= TotalParts(chunk)
  {
    var found := Available(contents, chunk, i);
    LoadedParts(ctx, arc, chunk, contents, Slots(contents, chunk, i), i, found, i - found)
  }

  /** The round in which the `k`-th part comes ends the loop. */
  lemma LastRound(ctx: Context, arc: Archive, chunk: Chunk, contents: Contents, i: nat)
    requires Sound(ctx) && ValidSettings(arc) && i < TotalParts(chunk)
    requires Available(contents, chunk, i) < chunk.dataParts && StopsAtKth(contents, chunk, i + 1)
    requires FirstAssembly(ctx, chunk, contents, i + 1).Some?
    ensures FromRound(ctx, arc, chunk, contents, i)
         == (Decoded(ctx, arc, chunk, FirstAssembly(ctx, chunk, contents, i + 1).value), i + 1)
  {
    SlotsNext(contents, chunk, i);
  }

  /** Any other round before it goes on to the next. */
  lemma NextRound(ctx: Context, arc: Archive, chunk: Chunk, contents: Contents, i: nat)
    requires Sound(ctx) && ValidSettings(arc) && i < TotalParts(chunk)
    requires Available(contents, chunk, i + 1) < chunk.dataParts
    ensures FromRound(ctx, arc, chunk, contents, i) == FromRound(ctx, arc, chunk, contents, i + 1)
  {
    SlotsNext(contents, chunk, i);
  }

  lemma AllAsked(ctx: Context, arc: Archive, chunk: Chunk, contents: Contents)
    requires Sound(ctx) && ValidSettings(arc)
    requires Available(contents, chunk, TotalParts(chunk)) < chunk.dataParts <= 256
    ensures ExactOutcome(ctx, arc, chunk, contents, FromRound(ctx, arc, chunk, contents, TotalParts(chunk)))
  {
  }

  lemma {:induction false} ExactFrom(ctx: Context, arc: Archive, chunk: Chunk, contents: Contents, i: nat)
    requires Sound(ctx) && ValidSettings(arc) && i <= TotalParts(chunk) && KthAssembles(ctx, chunk, contents)
    requires Available(contents, chunk, i) < chunk.dataParts <= 256
    ensures ExactOutcome(ctx, arc, chunk, contents, FromRound(ctx, arc, chunk, contents, i))
    decreases TotalParts(chunk) - i
  {
    if i < TotalParts(chunk) {
      if Available(contents, chunk, i + 1) < chunk.dataParts {
        NextRound(ctx, arc, chunk, contents, i);
        ExactFrom(ctx, arc, chunk, contents, i + 1);
      } else {
        assert StopsAtKth(contents, chunk, i + 1);
        LastRound(ctx, arc, chunk, contents, i);
        AvailableGrows(contents, chunk, i + 1, TotalParts(chunk));
      }
    } else {
      AllAsked(ctx, arc, chunk, contents);
    }
  }

  /**
   loadChunk, for any contents whose first `k` parts can be put together: it decodes them if and only if `k` parts
   can be loaded, asks for nothing after the `k`-th success, and otherwise reports exactly what it found.
   */
  lemma LoadedExactly(ctx: Context, arc: Archive, chunk: Chunk, contents: Contents)
    requires Sound(ctx) && ValidSettings(arc) && ValidCounts(chunk.dataParts, chunk.parityParts)
    requires KthAssembles(ctx, chunk, contents)
    ensures ExactOutcome(ctx, arc, chunk, contents, Loaded(ctx, arc, chunk, contents))
  {
    assert Slots(contents, chunk, 0) == NoParts(TotalParts(chunk));
    ExactFrom(ctx, arc, chunk, contents, 0);
  }

  /* ---- Parts of equal size, whatever they hold ---- */

  /** Every part that can be loaded has `size` bytes. */
  ghost predicate PartsOfSize(contents: Contents, chunk: Chunk, size: nat) {
    forall i: nat | i < TotalParts(chunk) && contents(PartOf(chunk, i)).Some? ::
      |contents(PartOf(chunk, i)).value| == size
  }

  lemma EqualSizesAssemble(ctx: Context, chunk: Chunk, contents: Contents, size: nat, asked: nat)
    requires Sound(ctx) && Completes(ctx.lib, chunk.dataParts, chunk.parityParts)
    requires PartsOfSize(contents, chunk, size) && size > 0 && chunk.size <= chunk.dataParts * size
    requires StopsAtKth(contents, chunk, asked)
    ensures FirstAssembly(ctx, chunk, contents, asked).Some?
  {
    var pars, k := Slots(contents, chunk, asked), chunk.dataParts;
    KnownSlots(contents, chunk, asked);
    assert OfSize(pars, size);
    if asked > k {
      var rebuilt := ctx.lib.rebuild(k, chunk.parityParts, pars);
      assert Completed(rebuilt, TotalParts(chunk), size);
      JoinOfSize(rebuilt.value[..k], size, chunk.size);
    } else {
      forall j | 0 <= j < k ensures pars[..k][j].Some? { AllAvailable(contents, chunk, asked, j); }
      JoinOfSize(pars[..k], size, chunk.size);
    }
  }

  /**
   Reconstruction from parts of one size, intact or not: loadChunk hands the first DataParts parts that can be
   loaded, put together, to decodeChunk if there are so many, and asks for no more. If and only if there are fewer it
   fails to reconstruct, with the exact counts, which do not wrap around.
   */
  lemma ReconstructionBySize(ctx: Context, arc: Archive, chunk: Chunk, contents: Contents, size: nat)
    requires Sound(ctx) && ValidSettings(arc) && ValidCounts(chunk.dataParts, chunk.parityParts)
    requires Completes(ctx.lib, chunk.dataParts, chunk.parityParts)
    requires PartsOfSize(contents, chunk, size) && size > 0 && chunk.size <= chunk.dataParts * size
    ensures ExactOutcome(ctx, arc, chunk, contents, Loaded(ctx, arc, chunk, contents))
    ensures var r, all := Loaded(ctx, arc, chunk, contents).0, Available(contents, chunk, TotalParts(chunk));
            && (r.Err? && r.error.NotReconstructed? <==> all < chunk.dataParts)
            && (r.Err? && r.error.NotReconstructed? ==> r.error == NotReconstructed(all, chunk.dataParts - all))
  {
    forall asked: nat | StopsAtKth(contents, chunk, asked)
      ensures FirstAssembly(ctx, chunk, contents, asked).Some?
    {
      EqualSizesAssemble(ctx, chunk, contents, size, asked);
    }
    LoadedExactly(ctx, arc, chunk, contents);
  }

  /* ---- Parts that are intact or lost ---- */

  /** Every part of the chunk is lost or as it was stored. */
  ghost predicate IntactOrLost(contents: Contents, chunk: Chunk, full: seq<Bytes>) {
    && |full| == TotalParts(chunk)
    && forall i: nat :: i < |full| ==>
         contents(PartOf(chunk, i)).None? || contents(PartOf(chunk, i)) == Some(full[i])
  }

  /** `b` is the encoded chunk that the metadata in `chunk` describes, and `full` its parts. */
  ghost predicate StoredAs(ctx: Context, chunk: Chunk, b: Bytes, full: seq<Bytes>) {
    && chunk.parityParts > 0 && chunk.size == |b|
    && Lawful(ctx.lib, chunk.dataParts, chunk.parityParts)
    && RedundantData(ctx.lib, b, chunk.dataParts, chunk.parityParts) == Some(full)
  }

  /** As soon as `k` intact parts are loaded, they are put together to the encoded chunk. */
  lemma EnoughPartsAssemble(ctx: Context, chunk: Chunk, contents: Contents, asked: nat, b: Bytes, full: seq<Bytes>)
    requires Sound(ctx) && StoredAs(ctx, chunk, b, full) && IntactOrLost(contents, chunk, full)
    requires StopsAtKth(contents, chunk, asked)
    ensures FirstAssembly(ctx, chunk, contents, asked) == Some(b)
  {
    var pars := Slots(contents, chunk, asked);
    KnownSlots(contents, chunk, asked);
    assert Erased(pars, full);
    if asked > chunk.dataParts {
      AnyShardsSuffice(ctx.lib, b, chunk.dataParts, chunk.parityParts, pars);
    } else {
      forall j: nat | j < chunk.dataParts ensures pars[j].Some? {
        AllAvailable(contents, chunk, asked, j);
      }
      DataShardsSuffice(ctx.lib, b, chunk.dataParts, chunk.parityParts, pars);
    }
  }

  /** `r` is the decoded chunk if `k` parts can be loaded, and otherwise the error with the exact counts. */
  ghost predicate IntactOutcome(
      ctx: Context, arc: Archive, chunk: Chunk, contents: Contents, b: Bytes, r: (Read<Bytes>, nat))
    requires Sound(ctx) && ValidSettings(arc)
  {
    var all := Available(contents, chunk, TotalParts(chunk));
    if all >= chunk.dataParts then r.0 == Decoded(ctx, arc, chunk, b) && StopsAtKth(contents, chunk, r.1)
    else r == (Err(NotReconstructed(all, chunk.dataParts - all)), TotalParts(chunk))
  }

  /**
   Reconstruction: when every part is intact or lost, loadChunk yields the decoded chunk if and only if at
   least DataParts parts can be loaded, asks for no part after the DataParts-th success, and otherwise
   reports exactly how many it found and how many were missing, without wrapping around.
   */
  lemma ReconstructionExact(
      ctx: Context, arc: Archive, chunk: Chunk, contents: Contents, b: Bytes, full: seq<Bytes>)
    requires Sound(ctx) && ValidSettings(arc) && StoredAs(ctx, chunk, b, full) && IntactOrLost(contents, chunk, full)
    ensures IntactOutcome(ctx, arc, chunk, contents, b, Loaded(ctx, arc, chunk, contents))
  {
    forall asked: nat | StopsAtKth(contents, chunk, asked)
      ensures FirstAssembly(ctx, chunk, contents, asked) == Some(b)
    {
      EnoughPartsAssemble(ctx, chunk, contents, asked, b, full);
    }
    LoadedExactly(ctx, arc, chunk, contents);
  }

  /* ---- One corrupted part ---- */

  /** All parts can be loaded, and all but data part `j` are intact. */
  ghost predicate AllButOne(contents: Contents, chunk: Chunk, full: seq<Bytes>, j: nat, instead: Option<Bytes>) {
    && |full| == TotalParts(chunk) && j < chunk.dataParts
    && forall i: nat :: i < |full| ==> contents(PartOf(chunk, i)) == if i == j then instead else Some(full[i])
  }

  lemma {:induction false} AvailableAll(contents: Contents, chunk: Chunk, i: nat)
    requires forall j: nat :: j < i ==> contents(PartOf(chunk, j)).Some?
    ensures Available(contents, chunk, i) == i
  {
    if i > 0 { AvailableAll(contents, chunk, i - 1); }
  }

  /** What the data parts give with one of them replaced. */
  function WithPart(full: seq<Bytes>, k: nat, j: nat, instead: Bytes, size: nat): Bytes
    requires j < k <= |full|
  {
    var all := Flatten(full[..k][j := instead]);
    if size <= |all| then all[..size] else all
  }

  lemma {:induction false} FlattenSize(ss: seq<Bytes>, size: nat)
    requires forall i :: 0 <= i < |ss| ==> |ss[i]| == size
    ensures |Flatten(ss)| == |ss| * size
  {
    if ss != [] {
      SizeOfMore(|ss|, size);
      FlattenSize(ss[1..], size);
    }
  }

  /** The first `k` parts, one of them corrupted, are joined as they are. */
  lemma CorruptJoined(
      ctx: Context, chunk: Chunk, contents: Contents, b: Bytes, full: seq<Bytes>, j: nat, bad: Bytes)
    requires Sound(ctx) && StoredAs(ctx, chunk, b, full)
    requires AllButOne(contents, chunk, full, j, Some(bad)) && |bad| == |full[j]|
    ensures StopsAtKth(contents, chunk, chunk.dataParts)
    ensures forall asked: nat | StopsAtKth(contents, chunk, asked) :: asked == chunk.dataParts
    ensures FirstAssembly(ctx, chunk, contents, chunk.dataParts)
         == Some(WithPart(full, chunk.dataParts, j, bad, chunk.size))
    ensures |WithPart(full, chunk.dataParts, j, bad, chunk.size)| == |b|
  {
    var k, ds := chunk.dataParts, Split(b, chunk.dataParts).value;
    assert Recoverable(ctx.lib, k, chunk.parityParts, ds);
    assert full[..k] == ds;
    var parts := full[..k][j := bad];
    forall asked: nat | asked <= TotalParts(chunk) ensures Available(contents, chunk, asked) == asked {
      AvailableAll(contents, chunk, asked);
    }
    assert Slots(contents, chunk, k)[..k] == AllKnown(parts);
    var size := |ds[0]|;
    forall i | 0 <= i < k ensures |parts[i]| == size { assert ds[i] == full[i]; }
    FlattenSize(parts, size);
    FlattenSize(ds, size);
    EnoughBytes(b, k);
    JoinAllKnown(parts, chunk.size);
  }

  lemma EnoughBytes(b: Bytes, k: nat)
    requires k > 0 && b != []
    ensures |b| <= |Flatten(Split(b, k).value)|
  {
    var size := ShardSize(|b|, k);
    ShardSizeCovers(|b|, k);
    CutFlatten(b + Zeros(size * k - |b|), size, k);
  }

  /** What the decoding pipeline makes of uncompressed data. */
  function Decrypted(ctx: Context, arc: Archive, b: Bytes): Bytes
    requires CipherLaws(ctx.lib) && ValidSettings(arc) && arc.compressed == NONE && UsableKey(ctx, arc)
  {
    PlainDecoding(ctx.lib, arc.encrypted, ctx.key, b, b);
    Processed(ctx.lib, NewDecodingPipeline(ctx.lib, NONE, arc.encrypted, ctx.key).value, b).value
  }

  lemma DecodedPlain(ctx: Context, arc: Archive, chunk: Chunk, b: Bytes)
    requires CipherLaws(ctx.lib) && ValidSettings(arc) && arc.compressed == NONE && UsableKey(ctx, arc)
    ensures var p := Decrypted(ctx, arc, b);
            Decoded(ctx, arc, chunk, b) == if ctx.lib.hash(p) == chunk.decryptedHash then Ok(p) else Err(WrongChecksum)
  {
    PlainDecoding(ctx.lib, arc.encrypted, ctx.key, b, b);
  }

  /** Without compression, different bytes decode to different data. */
  lemma UnpackedApart(ctx: Context, arc: Archive, a: Bytes, b: Bytes)
    requires CipherLaws(ctx.lib) && ValidSettings(arc) && arc.compressed == NONE && Unpacked(ctx, arc, a).Ok?
    ensures Unpacked(ctx, arc, b).Ok?
    ensures Unpacked(ctx, arc, a) == Unpacked(ctx, arc, b) ==> a == b
  {
    PipelinesUsable(ctx.lib, NONE, arc.encrypted, ctx.key);
    PlainDecoding(ctx.lib, arc.encrypted, ctx.key, a, b);
  }

  /**
   What intact-or-lost leaves out: one corrupted data part of the right size is put together with the other data parts,
   although every other part is intact and was not asked for. Unless the result happens to decode to the data all the
   same, which it never does without compression, loadChunk fails with what the decoder or the checksum says; if the
   part were lost instead, the chunk would load.
   */
  lemma CorruptPartHidesIntactOnes(
      ctx: Context, arc: Archive, chunk: Chunk, contents: Contents, lost: Contents, b: Bytes, full: seq<Bytes>,
      j: nat, bad: Bytes, p: Bytes)
    requires Sound(ctx) && ValidSettings(arc) && StoredAs(ctx, chunk, b, full) && Decoded(ctx, arc, chunk, b) == Ok(p)
    requires AllButOne(contents, chunk, full, j, Some(bad)) && |bad| == |full[j]|
    requires AllButOne(lost, chunk, full, j, None)
    requires var raw := Unpacked(ctx, arc, WithPart(full, chunk.dataParts, j, bad, chunk.size));
             raw.Ok? ==> CollisionFree(ctx.lib, {p, raw.value})
    ensures var joined := WithPart(full, chunk.dataParts, j, bad, chunk.size);
            var raw := Unpacked(ctx, arc, joined);
            && Loaded(ctx, arc, chunk, contents)
               == (if raw.Err? then Err(CodecFailed(raw.error))
                   else if raw.value == p then Ok(p) else Err(WrongChecksum), chunk.dataParts)
            && (arc.compressed == NONE && joined != b ==> raw.Ok? && raw.value != p)
    ensures Loaded(ctx, arc, chunk, lost).0 == Ok(p)
  {
    var joined := WithPart(full, chunk.dataParts, j, bad, chunk.size);
    CorruptJoined(ctx, chunk, contents, b, full, j, bad);
    LoadedExactly(ctx, arc, chunk, contents);
    AvailableAll(contents, chunk, TotalParts(chunk));
    if arc.compressed == NONE { UnpackedApart(ctx, arc, b, joined); }
    OneLostIsEnough(lost, chunk, full, j);
    ReconstructionExact(ctx, arc, chunk, lost, b, full);
  }

  lemma OneLostIsEnough(lost: Contents, chunk: Chunk, full: seq<Bytes>, j: nat)
    requires AllButOne(lost, chunk, full, j, None)
    ensures Available(lost, chunk, TotalParts(chunk)) == TotalParts(chunk) - 1
  {
    AllButOneAvailable(lost, chunk, full, j, TotalParts(chunk));
  }

  lemma {:induction false} AllButOneAvailable(lost: Contents, chunk: Chunk, full: seq<Bytes>, j: nat, i: nat)
    requires AllButOne(lost, chunk, full, j, None) && i <= TotalParts(chunk)
    ensures Available(lost, chunk, i) == if j < i then i - 1 else i
  {
    if i > 0 { AllButOneAvailable(lost, chunk, full, j, i - 1); }
  }

  /* ---- The report of a failed reconstruction ---- */

  /** The parts as `i` rounds leave them in which nothing could be put together. */
  function Left(ctx: Context, chunk: Chunk, contents: Contents, i: nat): (r: seq<Option<Bytes>>)
    requires Sound(ctx) && i <= TotalParts(chunk)
    ensures |r| == TotalParts(chunk)
  {
    if i == 0 then NoParts(TotalParts(chunk))
    else
      var now := Left(ctx, chunk, contents, i - 1)[i - 1 := contents(PartOf(chunk, i - 1))];
      if Tries(chunk, contents, i - 1)
      then Assembled(ctx, chunk, now, i - Available(contents, chunk, i)).1
      else now
  }

  /** Round `i` loads a part, and there are enough of them to try. */
  predicate Tries(chunk: Chunk, contents: Contents, i: nat) {
    contents(PartOf(chunk, i)).Some? && Available(contents, chunk, i + 1) >= chunk.dataParts
  }

  /** What round `i` puts together, if none before it has put together anything. */
  function Attempted(ctx: Context, chunk: Chunk, contents: Contents, i: nat): Option<Bytes>
    requires Sound(ctx) && i < TotalParts(chunk)
  {
    if Tries(chunk, contents, i) then
      Assembled(ctx, chunk, Left(ctx, chunk, contents, i)[i := contents(PartOf(chunk, i))],
        i + 1 - Available(contents, chunk, i + 1)).0
    else None
  }

  /** No round before `n` can put the chunk together from these contents. */
  predicate NeverAssembles(ctx: Context, chunk: Chunk, contents: Contents, n: nat)
    requires Sound(ctx) && n <= TotalParts(chunk)
  {
    forall i: nat | i < n :: Attempted(ctx, chunk, contents, i).None?
  }

  /** Round `i` is the first that can. */
  predicate FirstAssembles(ctx: Context, chunk: Chunk, contents: Contents, i: nat)
    requires Sound(ctx) && i < TotalParts(chunk)
  {
    NeverAssembles(ctx, chunk, contents, i) && Attempted(ctx, chunk, contents, i).Some?
  }

  /** The first round that can put the chunk together decides; if there is none, the report has all that were found. */
  ghost predicate RoundOutcome(ctx: Context, arc: Archive, chunk: Chunk, contents: Contents, r: (Read<Bytes>, nat))
    requires Sound(ctx) && ValidSettings(arc)
  {
    var all := Available(contents, chunk, TotalParts(chunk));
    && (forall i: nat | i < TotalParts(chunk) && FirstAssembles(ctx, chunk, contents, i) ::
          r == (Decoded(ctx, arc, chunk, Attempted(ctx, chunk, contents, i).value), i + 1))
    && (NeverAssembles(ctx, chunk, contents, TotalParts(chunk)) ==>
          r == (Err(NotReconstructed(all, UintMinus(chunk.dataParts, all))), TotalParts(chunk)))
  }

  /** The loop from round `i` on. */
  ghost function FromLeft(ctx: Context, arc: Archive, chunk: Chunk, contents: Contents, i: nat): (Read<Bytes>, nat)
    requires Sound(ctx) && ValidSettings(arc) && i <= TotalParts(chunk)
  {
    var found := Available(contents, chunk, i);
    LoadedParts(ctx, arc, chunk, contents, Left(ctx, chunk, contents, i), i, found, i - found)
  }

  lemma RoundOnce(ctx: Context, arc: Archive, chunk: Chunk, contents: Contents, i: nat)
    requires Sound(ctx) && ValidSettings(arc) && i < TotalParts(chunk)
    ensures FromLeft(ctx, arc, chunk, contents, i)
         == var b := Attempted(ctx, chunk, contents, i);
            if b.Some? then (Decoded(ctx, arc, chunk, b.value), i + 1) else FromLeft(ctx, arc, chunk, contents, i + 1)
  {
  }

  lemma {:induction false} RoundsFrom(ctx: Context, arc: Archive, chunk: Chunk, contents: Contents, i: nat)
    requires Sound(ctx) && ValidSettings(arc) && i <= TotalParts(chunk) && NeverAssembles(ctx, chunk, contents, i)
    ensures RoundOutcome(ctx, arc, chunk, contents, FromLeft(ctx, arc, chunk, contents, i))
    decreases TotalParts(chunk) - i
  {
    if i < TotalParts(chunk) {
      RoundOnce(ctx, arc, chunk, contents, i);
      if Attempted(ctx, chunk, contents, i).None? {
        RoundsFrom(ctx, arc, chunk, contents, i + 1);
      } else {
        OnlyFirst(ctx, chunk, contents, i);
      }
    }
  }

  lemma OnlyFirst(ctx: Context, chunk: Chunk, contents: Contents, i: nat)
    requires Sound(ctx) && i < TotalParts(chunk) && FirstAssembles(ctx, chunk, contents, i)
    ensures !NeverAssembles(ctx, chunk, contents, TotalParts(chunk))
    ensures forall j: nat | j < TotalParts(chunk) && FirstAssembles(ctx, chunk, contents, j) :: j == i
  {
  }

  /**
   loadChunk on any contents at all: the first round that can put the chunk together decides what it returns. It fails
   to reconstruct if and only if there is none; the number of blocks in the report is then the number of parts that
   could be loaded, and the number of failed backends wraps around to a huge one if and only if moreover more than
   DataParts parts could be loaded.
   */
  lemma FailureReportExact(ctx: Context, arc: Archive, chunk: Chunk, contents: Contents)
    requires Sound(ctx) && ValidSettings(arc) && ValidCounts(chunk.dataParts, chunk.parityParts)
    ensures RoundOutcome(ctx, arc, chunk, contents, Loaded(ctx, arc, chunk, contents))
    ensures var r, all := Loaded(ctx, arc, chunk, contents).0, Available(contents, chunk, TotalParts(chunk));
            && (r.Err? && r.error.NotReconstructed? <==> NeverAssembles(ctx, chunk, contents, TotalParts(chunk)))
            && (r.Err? && r.error.NotReconstructed? ==> r.error.blocksFound == all)
            && (r.Err? && r.error.NotReconstructed? && r.error.failedBackends > TWO_TO_64 - 256
                <==> NeverAssembles(ctx, chunk, contents, TotalParts(chunk)) && all > chunk.dataParts)
  {
    RoundsFrom(ctx, arc, chunk, contents, 0);
    if !NeverAssembles(ctx, chunk, contents, TotalParts(chunk)) {
      var i := FirstRound(ctx, chunk, contents, TotalParts(chunk));
    }
  }

  lemma {:induction false} FirstRound(ctx: Context, chunk: Chunk, contents: Contents, n: nat) returns (i: nat)
    requires Sound(ctx) && n <= TotalParts(chunk) && !NeverAssembles(ctx, chunk, contents, n)
    ensures i < n && FirstAssembles(ctx, chunk, contents, i)
  {
    if NeverAssembles(ctx, chunk, contents, n - 1) {
      i := n - 1;
    } else {
      i := FirstRound(ctx, chunk, contents, n - 1);
    }
  }

  /** The report really wraps around: a short copy of the only data part, and the parity part intact. */
  lemma FailureReportWraps(ctx: Context, arc: Archive)
    requires Sound(ctx) && ValidSettings(arc)
    ensures var chunk := Chunk(1, 1, 1, 1, "", "h", 0);
            var contents := (key: PartKey) => if key.part == 0 then Some([]) else Some([7 as Byte]);
            Loaded(ctx, arc, chunk, contents).0 == Err(NotReconstructed(2, TWO_TO_64 - 1))
  {
    var chunk := Chunk(1, 1, 1, 1, "", "h", 0);
    var contents := (key: PartKey) => if key.part == 0 then Some([]) else Some([7 as Byte]);
    var p0 := NoParts(2);
    var short: Option<Bytes> := Some([]);
    var p1, p2 := p0[0 := short], p0[0 := short][1 := Some([7 as Byte])];
    assert p1[..1] == p2[..1] == [short] && [short][1..] == [];
    assert Join([short], 1) == None by { assert Join([], 1).None?; }
    assert Assembled(ctx, chunk, p1, 0) == (None, p1) && Assembled(ctx, chunk, p2, 0) == (None, p2);
    assert LoadedParts(ctx, arc, chunk, contents, p2, 2, 2, 0).0 == Err(NotReconstructed(2, UintMinus(1, 2)));
    assert LoadedParts(ctx, arc, chunk, contents, p1, 1, 1, 0) == LoadedParts(ctx, arc, chunk, contents, p2, 2, 2, 0);
    assert LoadedParts(ctx, arc, chunk, contents, p0, 0, 0, 0) == LoadedParts(ctx, arc, chunk, contents, p1, 1, 1, 0);
  }

  /* ---- Restoring and verifying an archive ---- */

  /** The bytes DecodeArchive writes for chunks `i` and up, or the error it stops with. */
  function Restored(ctx: Context, arc: Archive, contents: Contents, i: nat): Read<Bytes>
    requires Sound(ctx) && ValidSettings(arc) && i <= |arc.chunks|
    decreases |arc.chunks| - i
  {
    if i == |arc.chunks| then Ok([])
    else if IndexOf(arc.chunks, i).None? then Err(ChunkMissing(i))
    else
      var b := Loaded(ctx, arc, Numbered(arc.chunks, i), contents).0;
      if b.Err? then b
      else
        var rest := Restored(ctx, arc, contents, i + 1);
        if rest.Err? then rest else Ok(b.value + rest.value)
  }

  /** `out` is made of one piece per chunk number, each with the checksum recorded for it. */
  ghost predicate MadeOf(ctx: Context, arc: Archive, pieces: seq<Bytes>) {
    |pieces| <= |arc.chunks| && forall i :: 0 <= i < |pieces| ==>
      IndexOf(arc.chunks, i).Some? && ctx.lib.hash(pieces[i]) == Numbered(arc.chunks, i).decryptedHash
  }

  /**
   The chunk loop of DecodeArchive. Whatever the backends return and however they fail, success means that
   every chunk number was there and every piece written has its recorded checksum.
   */
  method DecodeArchive(ctx: Context, arc: Archive, mgr: BackendManager)
    returns (r: Read<Bytes>, ghost pieces: seq<Bytes>)
    requires Sound(ctx) && ValidSettings(arc) && arc.kind.RegularFile?
    modifies mgr`backends
    ensures Alike(old(mgr.backends), mgr.backends)
    ensures r.Ok? ==> |pieces| == |arc.chunks| && MadeOf(ctx, arc, pieces) && r.value == Flatten(pieces)
    ensures Steady(old(mgr.backends)) ==> r == Restored(ctx, arc, ContentsOf(old(mgr.backends)), 0)
  {
    var written: Bytes := [];
    pieces := [];
    ghost var start, contents := mgr.backends, ContentsOf(mgr.backends);
    ghost var expected, steady := Restored(ctx, arc, contents, 0), Steady(mgr.backends);
    assert expected.Ok? ==> [] + expected.value == expected.value;
    for i := 0 to |arc.chunks|
      invariant Alike(start, mgr.backends)
      invariant |pieces| == i && MadeOf(ctx, arc, pieces) && written == Flatten(pieces)
      invariant steady ==> expected == Prepended(written, Restored(ctx, arc, contents, i))
    {
      var idx := IndexOfChunk(arc.chunks, i);
      if idx.None? { return Err(ChunkMissing(i)), pieces; }
      var chunk := arc.chunks[idx.value];
      var b := LoadWithin(ctx, arc, chunk, mgr, start, contents);
      if b.Err? { return b, pieces; }
      if steady { RestoreStep(ctx, arc, contents, i, written, b.value); }
      OnePieceMore(ctx, arc, pieces, b.value);
      written := written + b.value;
      pieces := pieces + [b.value];
    }
    assert written + [] == written;
    r := Ok(written);
  }

  function Prepended(head: Bytes, r: Read<Bytes>): Read<Bytes> {
    if r.Err? then r else Ok(head + r.value)
  }

  lemma RestoreStep(ctx: Context, arc: Archive, contents: Contents, i: nat, written: Bytes, b: Bytes)
    requires Sound(ctx) && ValidSettings(arc) && i < |arc.chunks|
    requires IndexOf(arc.chunks, i).Some? && Loaded(ctx, arc, Numbered(arc.chunks, i), contents).0 == Ok(b)
    ensures Prepended(written, Restored(ctx, arc, contents, i))
      == Prepended(written + b, Restored(ctx, arc, contents, i + 1))
  {
    var rest := Restored(ctx, arc, contents, i + 1);
    if rest.Ok? {
      assert written + (b + rest.value) == written + b + rest.value;
    }
  }

  lemma OnePieceMore(ctx: Context, arc: Archive, pieces: seq<Bytes>, b: Bytes)
    requires MadeOf(ctx, arc, pieces) && |pieces| < |arc.chunks|
    requires IndexOf(arc.chunks, |pieces|).Some? && ctx.lib.hash(b) == Numbered(arc.chunks, |pieces|).decryptedHash
    ensures MadeOf(ctx, arc, pieces + [b]) && Flatten(pieces + [b]) == Flatten(pieces) + b
  {
    FlattenOneMore(pieces, b);
  }

  lemma FlattenOneMore(pieces: seq<Bytes>, b: Bytes)
    ensures Flatten(pieces + [b]) == Flatten(pieces) + b
  {
    FlattenAppend(pieces, [b]);
    assert Flatten([b]) == b + [];
  }

  /** loadChunk as one step of an operation that began in state `start`. */
  method LoadWithin(
      ctx: Context, arc: Archive, chunk: Chunk, mgr: BackendManager, ghost start: seq<Backend>,
      ghost contents: Contents)
    returns (r: Read<Bytes>)
    requires Sound(ctx) && ValidSettings(arc) && Alike(start, mgr.backends)
    requires Steady(start) ==> contents == ContentsOf(start)
    modifies mgr`backends
    ensures Alike(start, mgr.backends)
    ensures Checked(ctx, chunk, r)
    ensures Steady(start) ==> r == Loaded(ctx, arc, chunk, contents).0
  {
    ghost var now, asked := mgr.backends, 0;
    r, asked := LoadChunk(ctx, arc, chunk, mgr);
    AlikeTransitive(start, now, mgr.backends);
    if Steady(start) {
      ContentsAlike(start, now);
      LoadedSame(ctx, arc, chunk, ContentsOf(start), ContentsOf(now));
    }
  }

  lemma ContentsAlike(bs: seq<Backend>, bs': seq<Backend>)
    requires Alike(bs, bs') && Steady(bs)
    ensures Steady(bs') && forall key :: ContentsOf(bs')(key) == ContentsOf(bs)(key)
  {
    forall key ensures ContentsOf(bs')(key) == ContentsOf(bs)(key) {
      ServedAlike(bs, bs', LoadPart(key), 0);
    }
    ServedAlike(bs, bs', LoadPart(PartKey("", 0, 0)), 0);
  }

  lemma {:induction false} LoadedPartsSame(
      ctx: Context, arc: Archive, chunk: Chunk, a: Contents, b: Contents, pars: seq<Option<Bytes>>, i: nat,
      found: nat, missing: nat)
    requires Sound(ctx) && ValidSettings(arc) && i <= |pars| == TotalParts(chunk)
    requires forall j: nat :: j < |pars| ==> a(PartOf(chunk, j)) == b(PartOf(chunk, j))
    ensures LoadedParts(ctx, arc, chunk, a, pars, i, found, missing)
      == LoadedParts(ctx, arc, chunk, b, pars, i, found, missing)
    decreases |pars| - i
  {
    if i < |pars| {
      var part := a(PartOf(chunk, i));
      if part.None? {
        LoadedPartsSame(ctx, arc, chunk, a, b, pars[i := None], i + 1, found, missing + 1);
      } else if found + 1 >= chunk.dataParts {
        LoadedPartsSame(ctx, arc, chunk, a, b, Assembled(ctx, chunk, pars[i := part], missing).1, i + 1, found + 1,
          missing);
      } else {
        LoadedPartsSame(ctx, arc, chunk, a, b, pars[i := part], i + 1, found + 1, missing);
      }
    }
  }

  /** loadChunk depends on the contents only. */
  lemma LoadedSame(ctx: Context, arc: Archive, chunk: Chunk, a: Contents, b: Contents)
    requires Sound(ctx) && ValidSettings(arc) && forall key :: a(key) == b(key)
    ensures Loaded(ctx, arc, chunk, a) == Loaded(ctx, arc, chunk, b)
  {
    LoadedPartsSame(ctx, arc, chunk, a, b, NoParts(TotalParts(chunk)), 0, 0, 0);
  }

  /** The error VerifyArchive returns, or None for nil. */
  function Verified(ctx: Context, arc: Archive, contents: Contents, i: nat): Option<ReadError>
    requires Sound(ctx) && ValidSettings(arc) && i <= |arc.chunks|
    decreases |arc.chunks| - i
  {
    if !arc.kind.RegularFile? || i == |arc.chunks| then None
    else if IndexOf(arc.chunks, i).None? then Some(ChunkMissing(i))
    else
      var b := Loaded(ctx, arc, Numbered(arc.chunks, i), contents).0;
      if b.Err? then Some(b.error) else Verified(ctx, arc, contents, i + 1)
  }

  method VerifyArchive(ctx: Context, arc: Archive, mgr: BackendManager) returns (r: Option<ReadError>)
    requires Sound(ctx) && ValidSettings(arc)
    modifies mgr`backends
    ensures Alike(old(mgr.backends), mgr.backends)
    ensures Steady(old(mgr.backends)) ==> r == Verified(ctx, arc, ContentsOf(old(mgr.backends)), 0)
  {
    if !arc.kind.RegularFile? { return None; }
    ghost var start, contents, steady := mgr.backends, ContentsOf(mgr.backends), Steady(mgr.backends);
    for i := 0 to |arc.chunks|
      invariant Alike(start, mgr.backends)
      invariant steady ==> Verified(ctx, arc, contents, 0) == Verified(ctx, arc, contents, i)
    {
      var idx := IndexOfChunk(arc.chunks, i);
      if idx.None? { return Some(ChunkMissing(i)); }
      var b := LoadWithin(ctx, arc, arc.chunks[idx.value], mgr, start, contents);
      if b.Err? { return Some(b.error); }
    }
    return None;
  }

  /**
   Verifying a file returns nil exactly when restoring it would succeed, and otherwise the same error; verifying what is
   not a file returns nil.
   */
  lemma {:induction false} VerifyAgreesWithRestore(ctx: Context, arc: Archive, contents: Contents, i: nat)
    requires Sound(ctx) && ValidSettings(arc) && i <= |arc.chunks|
    ensures var r := Restored(ctx, arc, contents, i);
            Verified(ctx, arc, contents, i) == if !arc.kind.RegularFile? || r.Ok? then None else Some(r.error)
    decreases |arc.chunks| - i
  {
    if arc.kind.RegularFile? && i < |arc.chunks| && IndexOf(arc.chunks, i).Some? {
      VerifyAgreesWithRestore(ctx, arc, contents, i + 1);
    }
  }

  /** The metadata of each chunk records the checksum of its piece of the file. */
  ghost predicate Records(ctx: Context, chunks: seq<Chunk>, pieces: seq<Bytes>) {
    forall c | c in chunks :: c.num < |pieces| && c.decryptedHash == ctx.lib.hash(pieces[c.num])
  }

  lemma PieceIsOriginal(ctx: Context, arc: Archive, original: seq<Bytes>, pieces: seq<Bytes>, i: nat)
    requires Records(ctx, arc.chunks, original) && MadeOf(ctx, arc, pieces) && i < |pieces|
    requires CollisionFree(ctx.lib, Elements(original) + Elements(pieces))
    ensures i < |original| && pieces[i] == original[i]
  {
    var c := Numbered(arc.chunks, i);
    assert c in arc.chunks;
    assert original[i] in original && pieces[i] in pieces;
    assert ctx.lib.hash(pieces[i]) == ctx.lib.hash(original[i]);
  }

  /**
   Restore integrity: pieces with the recorded checksums are the original ones. With `DecodeArchive` this
   says that a restore from arbitrary backend contents either fails or writes exactly the original bytes.
   */
  lemma RestoreIntegrity(ctx: Context, arc: Archive, original: seq<Bytes>, pieces: seq<Bytes>)
    requires Records(ctx, arc.chunks, original) && MadeOf(ctx, arc, pieces)
    requires CollisionFree(ctx.lib, Elements(original) + Elements(pieces))
    ensures |pieces| <= |original| && pieces == original[..|pieces|]
    ensures |pieces| == |original| ==> Flatten(pieces) == Flatten(original)
  {
    forall i: nat | i < |pieces| ensures i < |original| && pieces[i] == original[i] {
      PieceIsOriginal(ctx, arc, original, pieces, i);
    }
    if pieces != [] {
      PieceIsOriginal(ctx, arc, original, pieces, |pieces| - 1);
    }
    assert |pieces| == |original| ==> pieces == original;
  }

  /** Every chunk of the archive can be loaded, and gives its piece of the file. */
  ghost predicate Serves(ctx: Context, arc: Archive, contents: Contents, pieces: seq<Bytes>)
    requires Sound(ctx) && ValidSettings(arc)
  {
    forall c | c in arc.chunks :: c.num < |pieces| && Loaded(ctx, arc, c, contents).0 == Ok(pieces[c.num])
  }

  /** The first chunk number that is missing. */
  function FirstMissing(chunks: seq<Chunk>, i: nat): (r: Option<nat>)
    requires i <= |chunks|
    ensures r.Some? ==> i <= r.value < |chunks| && IndexOf(chunks, r.value).None?
    ensures r.None? ==> forall j :: i <= j < |chunks| ==> IndexOf(chunks, j).Some?
    decreases |chunks| - i
  {
    if i == |chunks| then None else if IndexOf(chunks, i).None? then Some(i) else FirstMissing(chunks, i + 1)
  }

  lemma {:induction false} RestoredFrom(ctx: Context, arc: Archive, contents: Contents, pieces: seq<Bytes>, i: nat)
    requires Sound(ctx) && ValidSettings(arc) && Serves(ctx, arc, contents, pieces) && i <= |arc.chunks|
    ensures var missing := FirstMissing(arc.chunks, i);
            && (missing.Some? ==> Restored(ctx, arc, contents, i) == Err(ChunkMissing(missing.value)))
            && (missing.None? ==> (i == |arc.chunks| || |arc.chunks| <= |pieces|))
            && (missing.None? && i < |arc.chunks| ==>
              Restored(ctx, arc, contents, i) == Ok(Flatten(pieces[i..|arc.chunks|])))
            && (i == |arc.chunks| ==> Restored(ctx, arc, contents, i) == Ok([]))
    decreases |arc.chunks| - i
  {
    if i < |arc.chunks| && IndexOf(arc.chunks, i).Some? {
      assert Numbered(arc.chunks, i) in arc.chunks;
      RestoredFrom(ctx, arc, contents, pieces, i + 1);
      if FirstMissing(arc.chunks, i).None? {
        var n := |arc.chunks|;
        assert pieces[i..n][0] == pieces[i] && pieces[i..n][1..] == pieces[i + 1..n];
        assert i + 1 == n ==> pieces[i + 1..n] == [];
      }
    }
  }

  lemma {:induction false} BeforeFirstMissing(chunks: seq<Chunk>, i: nat, j: nat)
    requires i <= |chunks| && FirstMissing(chunks, i).Some? && i <= j < FirstMissing(chunks, i).value
    ensures IndexOf(chunks, j).Some?
    decreases |chunks| - i
  {
    if i < j { BeforeFirstMissing(chunks, i + 1, j); }
  }

  lemma GapIsFirst(chunks: seq<Chunk>)
    requires FirstMissing(chunks, 0).Some?
    ensures var gap := FirstMissing(chunks, 0).value;
            gap !in Numbers(chunks) && UpTo(gap) <= Numbers(chunks)
  {
    forall j: nat | j < FirstMissing(chunks, 0).value ensures j in Numbers(chunks) {
      BeforeFirstMissing(chunks, 0, j);
      assert Numbered(chunks, j) in chunks;
    }
  }

  /** A complete archive whose chunks can all be loaded restores to the pieces in the order of their numbers. */
  lemma CompleteRestores(ctx: Context, arc: Archive, contents: Contents, pieces: seq<Bytes>)
    requires Sound(ctx) && ValidSettings(arc) && Serves(ctx, arc, contents, pieces) && Complete(arc.chunks)
    ensures |arc.chunks| <= |pieces|
    ensures Restored(ctx, arc, contents, 0) == Ok(Flatten(pieces[..|arc.chunks|]))
  {
    RestoredFrom(ctx, arc, contents, pieces, 0);
    assert |arc.chunks| > 0 ==> pieces[0..|arc.chunks|] == pieces[..|arc.chunks|];
  }

  /**
   Dropped chunks: an archive in which some chunks of a file are missing, the others being loadable, restores
   if and only if the numbers that survived are 0, 1, ... without a gap; it then gives a prefix of the file,
   and otherwise the error names the first gap.
   */
  lemma DroppedChunks(ctx: Context, arc: Archive, contents: Contents, pieces: seq<Bytes>)
    requires Sound(ctx) && ValidSettings(arc) && Serves(ctx, arc, contents, pieces) && DistinctNumbers(arc.chunks)
    ensures var r := Restored(ctx, arc, contents, 0);
            var n := |arc.chunks|;
            && (r.Ok? <==> Numbers(arc.chunks) == UpTo(n))
            && (r.Ok? ==> n <= |pieces| && r.value == Flatten(pieces[..n]) && r.value <= Flatten(pieces))
            && (r.Err? ==>
                  && r.error.ChunkMissing? && r.error.num !in Numbers(arc.chunks)
                  && UpTo(r.error.num) <= Numbers(arc.chunks))
  {
    CompleteIffNumbers(arc.chunks);
    if FirstMissing(arc.chunks, 0).None? {
      CompleteRestores(ctx, arc, contents, pieces);
      FlattenPrefix(pieces, |arc.chunks|);
    } else {
      RestoredFrom(ctx, arc, contents, pieces, 0);
      GapIsFirst(arc.chunks);
    }
  }
}
