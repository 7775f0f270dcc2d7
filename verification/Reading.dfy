/** Random access to an archive through the global chunk cache and its mutex (decode.go, archive.go). */
module Reading {
  import opened Basics
  import opened Libraries
  import opened Codec
  import opened Backends
  import opened Resilience
  import opened Archives
  import opened Decoding

  datatype Outcome =
    | Got(data: Bytes)
    | Failed(error: ReadError)
    | EndOfFile
    | SeekFailed
    | Blocked     // waits for ever on the mutex
    | Panicked

  /** The global cache, keyed by the hash of the encoded chunk, and whether its mutex is held. */
  datatype CacheState = CacheState(entries: map<string, Bytes>, locked: bool)

  /**
   readArchiveChunk: the mutex is taken before the cache is looked at and given back only when there is
   something to return; a failed load returns with the mutex held.
   */
  function ChunkRead(ctx: Context, arc: Archive, contents: Contents, st: CacheState, num: nat): (CacheState, Outcome)
    requires Sound(ctx) && ValidSettings(arc)
  {
    if IndexOf(arc.chunks, num).None? then (st, Failed(ChunkMissing(num)))
    else if st.locked then (st, Blocked)
    else
      var chunk := Numbered(arc.chunks, num);
      if chunk.hash in st.entries then (st, Got(st.entries[chunk.hash]))
      else
        var loaded := Loaded(ctx, arc, chunk, contents).0;
        if loaded.Err? then (st.(locked := true), Failed(loaded.error))
        else (st.(entries := st.entries[chunk.hash := loaded.value]), Got(loaded.value))
  }

  /* ---- Coherence ---- */

  /** Chunks with the same encoded hash hold the same data. */
  ghost predicate HashesAgree(chunks: set<Chunk>) {
    forall c, d | c in chunks && d in chunks && c.hash == d.hash :: c.decryptedHash == d.decryptedHash
  }

  /** Every cached entry has the checksum of every chunk it would be returned for. */
  ghost predicate Coherent(ctx: Context, st: CacheState, chunks: set<Chunk>) {
    forall c | c in chunks && c.hash in st.entries :: ctx.lib.hash(st.entries[c.hash]) == c.decryptedHash
  }

  ghost predicate Within(arc: Archive, chunks: set<Chunk>) { forall c | c in arc.chunks :: c in chunks }

  lemma {:induction false} LoadedPartsChecked(
      ctx: Context, arc: Archive, chunk: Chunk, contents: Contents, pars: seq<Option<Bytes>>, i: nat,
      found: nat, missing: nat)
    requires Sound(ctx) && ValidSettings(arc) && i <= |pars| == TotalParts(chunk)
    ensures Checked(ctx, chunk, LoadedParts(ctx, arc, chunk, contents, pars, i, found, missing).0)
    decreases |pars| - i
  {
    if i < |pars| {
      var part := contents(PartOf(chunk, i));
      if part.None? {
        LoadedPartsChecked(ctx, arc, chunk, contents, pars[i := None], i + 1, found, missing + 1);
      } else if found + 1 >= chunk.dataParts {
        LoadedPartsChecked(ctx, arc, chunk, contents, Assembled(ctx, chunk, pars[i := part], missing).1, i + 1,
          found + 1, missing);
      } else {
        LoadedPartsChecked(ctx, arc, chunk, contents, pars[i := part], i + 1, found + 1, missing);
      }
    }
  }

  lemma LoadedChecked(ctx: Context, arc: Archive, chunk: Chunk, contents: Contents)
    requires Sound(ctx) && ValidSettings(arc)
    ensures Checked(ctx, chunk, Loaded(ctx, arc, chunk, contents).0)
  {
    LoadedPartsChecked(ctx, arc, chunk, contents, NoParts(TotalParts(chunk)), 0, 0, 0);
  }

  /** One read keeps the cache coherent, and what it returns has the chunk's checksum. */
  lemma ReadKeepsCoherent(ctx: Context, arc: Archive, contents: Contents, st: CacheState, num: nat, chunks: set<Chunk>)
    requires Sound(ctx) && ValidSettings(arc) && HashesAgree(chunks) && Within(arc, chunks) && Coherent(ctx, st, chunks)
    ensures var r := ChunkRead(ctx, arc, contents, st, num);
            && Coherent(ctx, r.0, chunks)
            && (r.1.Got? ==>
              IndexOf(arc.chunks, num).Some? && ctx.lib.hash(r.1.data) == Numbered(arc.chunks, num).decryptedHash)
  {
    if IndexOf(arc.chunks, num).Some? {
      var chunk := Numbered(arc.chunks, num);
      assert chunk in arc.chunks;
      LoadedChecked(ctx, arc, chunk, contents);
    }
  }

  /** A request to the cache, by a reader or by a prefetch. */
  datatype Lookup = Lookup(arc: Archive, num: nat)

  ghost predicate Allowed(l: Lookup, chunks: set<Chunk>) { ValidSettings(l.arc) && Within(l.arc, chunks) }

  ghost predicate AllAllowed(lookups: seq<Lookup>, chunks: set<Chunk>) {
    forall i :: 0 <= i < |lookups| ==> Allowed(lookups[i], chunks)
  }

  /** The cache after a sequence of lookups, from the empty cache at program start. */
  ghost function CacheAfter(ctx: Context, contents: Contents, lookups: seq<Lookup>, chunks: set<Chunk>): CacheState
    requires Sound(ctx) && AllAllowed(lookups, chunks)
  {
    if lookups == [] then CacheState(map[], false)
    else
      var last := lookups[|lookups| - 1];
      ChunkRead(ctx, last.arc, contents, CacheAfter(ctx, contents, lookups[..|lookups| - 1], chunks), last.num).0
  }

  /** The archive has the chunk that the lookup asks for. */
  predicate Exists(l: Lookup) { IndexOf(l.arc.chunks, l.num).Some? }

  ghost function LoadedFor(ctx: Context, contents: Contents, l: Lookup): Read<Bytes>
    requires Sound(ctx) && ValidSettings(l.arc)
  {
    if Exists(l) then Loaded(ctx, l.arc, Numbered(l.arc.chunks, l.num), contents).0 else Err(ChunkMissing(l.num))
  }

  ghost predicate Loads(ctx: Context, contents: Contents, l: Lookup)
    requires Sound(ctx) && ValidSettings(l.arc)
  {
    LoadedFor(ctx, contents, l).Ok?
  }

  /**
   Cache coherence over every sequence of lookups, prefetches included: if chunks with the same encoded hash
   hold the same data, a lookup that returns data returns what loading the chunk would return.
   */
  lemma CacheCoherence(ctx: Context, contents: Contents, lookups: seq<Lookup>, chunks: set<Chunk>, l: Lookup)
    requires Sound(ctx) && HashesAgree(chunks) && Allowed(l, chunks) && AllAllowed(lookups, chunks)
    ensures var st := CacheAfter(ctx, contents, lookups, chunks);
            var cached := ChunkRead(ctx, l.arc, contents, st, l.num).1;
            && Coherent(ctx, st, chunks)
            && (cached.Got? && Loads(ctx, contents, l) ==>
                  var loaded := LoadedFor(ctx, contents, l).value;
                  CollisionFree(ctx.lib, {cached.data, loaded}) ==> loaded == cached.data)
  {
    var st := CacheAfter(ctx, contents, lookups, chunks);
    CoherentAfter(ctx, contents, lookups, chunks);
    ReadKeepsCoherent(ctx, l.arc, contents, st, l.num, chunks);
    if IndexOf(l.arc.chunks, l.num).Some? {
      LoadedChecked(ctx, l.arc, Numbered(l.arc.chunks, l.num), contents);
    }
  }

  lemma {:induction false} CoherentAfter(ctx: Context, contents: Contents, lookups: seq<Lookup>, chunks: set<Chunk>)
    requires Sound(ctx) && HashesAgree(chunks) && AllAllowed(lookups, chunks)
    ensures Coherent(ctx, CacheAfter(ctx, contents, lookups, chunks), chunks)
  {
    if lookups != [] {
      var front, last := lookups[..|lookups| - 1], lookups[|lookups| - 1];
      CoherentAfter(ctx, contents, front, chunks);
      ReadKeepsCoherent(ctx, last.arc, contents, CacheAfter(ctx, contents, front, chunks), last.num, chunks);
    }
  }

  /* ---- When the mutex is lost ---- */

  function HashFor(l: Lookup): string
    requires Exists(l)
  {
    Numbered(l.arc.chunks, l.num).hash
  }

  /** Lookup `j` loads a chunk with the given encoded hash. */
  ghost predicate LoadsHash(
      ctx: Context, contents: Contents, lookups: seq<Lookup>, chunks: set<Chunk>, j: nat, h: string)
    requires Sound(ctx) && AllAllowed(lookups, chunks) && j < |lookups|
  {
    Exists(lookups[j]) && HashFor(lookups[j]) == h && Loads(ctx, contents, lookups[j])
  }

  /** Lookup `i` finds neither its chunk in the cache nor all it needs on the backends. */
  ghost predicate LosesMutex(ctx: Context, contents: Contents, lookups: seq<Lookup>, chunks: set<Chunk>, i: nat)
    requires Sound(ctx) && AllAllowed(lookups, chunks) && i < |lookups|
  {
    && Exists(lookups[i]) && !Loads(ctx, contents, lookups[i])
    && forall j: nat | j < i :: !LoadsHash(ctx, contents, lookups, chunks, j, HashFor(lookups[i]))
  }

  lemma LosesMutexFront(ctx: Context, contents: Contents, lookups: seq<Lookup>, chunks: set<Chunk>, n: nat, i: nat)
    requires Sound(ctx) && AllAllowed(lookups, chunks) && i < n <= |lookups|
    ensures LosesMutex(ctx, contents, lookups[..n], chunks, i) <==> LosesMutex(ctx, contents, lookups, chunks, i)
  {
    forall j: nat, h | j < i
      ensures LoadsHash(ctx, contents, lookups[..n], chunks, j, h) <==> LoadsHash(ctx, contents, lookups, chunks, j, h)
    {
      assert lookups[..n][j] == lookups[j];
    }
    assert lookups[..n][i] == lookups[i];
  }

  /** As long as the mutex is free, the cache holds exactly the hashes of the chunks that were loaded. */
  lemma {:induction false} CachedHashes(
      ctx: Context, contents: Contents, lookups: seq<Lookup>, chunks: set<Chunk>, h: string)
    requires Sound(ctx) && AllAllowed(lookups, chunks) && !CacheAfter(ctx, contents, lookups, chunks).locked
    ensures h in CacheAfter(ctx, contents, lookups, chunks).entries
        <==> exists j: nat :: j < |lookups| && LoadsHash(ctx, contents, lookups, chunks, j, h)
  {
    if lookups != [] {
      var n := |lookups| - 1;
      var front, last := lookups[..n], lookups[n];
      CachedHashes(ctx, contents, front, chunks, h);
      forall j: nat | j < n
        ensures LoadsHash(ctx, contents, front, chunks, j, h) <==> LoadsHash(ctx, contents, lookups, chunks, j, h)
      {
        assert front[j] == lookups[j];
      }
      assert LoadsHash(ctx, contents, lookups, chunks, n, h) <==>
        Exists(last) && HashFor(last) == h && Loads(ctx, contents, last);
    }
  }

  /**
   The mutex is lost, in a run of lookups from the start of the program, if and only if one of them asks for a chunk
   that cannot be loaded and that no earlier one has loaded.
   */
  lemma {:induction false} MutexLostExactly(
      ctx: Context, contents: Contents, lookups: seq<Lookup>, chunks: set<Chunk>)
    requires Sound(ctx) && AllAllowed(lookups, chunks)
    ensures CacheAfter(ctx, contents, lookups, chunks).locked
        <==> exists i: nat :: i < |lookups| && LosesMutex(ctx, contents, lookups, chunks, i)
  {
    if lookups != [] {
      var n := |lookups| - 1;
      var front, last := lookups[..n], lookups[n];
      MutexLostExactly(ctx, contents, front, chunks);
      forall i: nat | i < n
        ensures LosesMutex(ctx, contents, front, chunks, i) <==> LosesMutex(ctx, contents, lookups, chunks, i)
      {
        LosesMutexFront(ctx, contents, lookups, chunks, n, i);
      }
      if !CacheAfter(ctx, contents, front, chunks).locked && Exists(last) {
        LastLookup(ctx, contents, lookups, chunks);
      }
    }
  }

  lemma LastLookup(ctx: Context, contents: Contents, lookups: seq<Lookup>, chunks: set<Chunk>)
    requires Sound(ctx) && AllAllowed(lookups, chunks) && lookups != [] && Exists(lookups[|lookups| - 1])
    requires !CacheAfter(ctx, contents, lookups[..|lookups| - 1], chunks).locked
    ensures CacheAfter(ctx, contents, lookups, chunks).locked
        <==> LosesMutex(ctx, contents, lookups, chunks, |lookups| - 1)
  {
    var n := |lookups| - 1;
    var front, h := lookups[..n], HashFor(lookups[n]);
    CachedHashes(ctx, contents, front, chunks, h);
    forall j: nat | j < n
      ensures LoadsHash(ctx, contents, front, chunks, j, h) <==> LoadsHash(ctx, contents, lookups, chunks, j, h)
    {
      assert front[j] == lookups[j];
    }
  }

  /** Once it is lost it stays lost: every later lookup of a chunk that exists waits for ever. */
  lemma {:induction false} LostForEver(
      ctx: Context, contents: Contents, lookups: seq<Lookup>, more: seq<Lookup>, chunks: set<Chunk>, l: Lookup)
    requires Sound(ctx) && AllAllowed(lookups, chunks) && AllAllowed(lookups + more, chunks) && Allowed(l, chunks)
    requires CacheAfter(ctx, contents, lookups, chunks).locked
    ensures CacheAfter(ctx, contents, lookups + more, chunks).locked
    ensures Exists(l) ==>
      ChunkRead(ctx, l.arc, contents, CacheAfter(ctx, contents, lookups + more, chunks), l.num).1 == Blocked
    decreases |more|
  {
    if more == [] {
      assert lookups + more == lookups;
    } else {
      var front := more[..|more| - 1];
      assert (lookups + more)[..|lookups + more| - 1] == lookups + front;
      forall i | 0 <= i < |lookups + front| ensures Allowed((lookups + front)[i], chunks) {
        assert (lookups + front)[i] == (lookups + more)[i];
      }
      LostForEver(ctx, contents, lookups, front, chunks, l);
    }
  }

  /**
   The condition is needed: the key of the cache is the encoded hash alone. After one chunk was read, a read
   of any other chunk with the same encoded hash returns the first chunk's data, and this has the second
   one's checksum if and only if the two hold the same data.
   */
  lemma CacheKeyIgnoresSettings(ctx: Context, a: Archive, b: Archive, contents: Contents, i: nat, j: nat)
    requires Sound(ctx) && ValidSettings(a) && ValidSettings(b)
    requires IndexOf(a.chunks, i).Some? && IndexOf(b.chunks, j).Some?
    requires Numbered(a.chunks, i).hash == Numbered(b.chunks, j).hash
    requires ChunkRead(ctx, a, contents, CacheState(map[], false), i).1.Got?
    ensures var first := ChunkRead(ctx, a, contents, CacheState(map[], false), i);
            var second := ChunkRead(ctx, b, contents, first.0, j).1;
            && second == first.1
            && (ctx.lib.hash(second.data) == Numbered(b.chunks, j).decryptedHash
                <==> Numbered(a.chunks, i).decryptedHash == Numbered(b.chunks, j).decryptedHash)
            && (Numbered(a.chunks, i).decryptedHash != Numbered(b.chunks, j).decryptedHash ==>
                  Loaded(ctx, b, Numbered(b.chunks, j), contents).0 != Ok(second.data))
  {
    LoadedChecked(ctx, a, Numbered(a.chunks, i), contents);
    LoadedChecked(ctx, b, Numbered(b.chunks, j), contents);
  }

  /* ---- Reading a window of a file ---- */

  /** The archive of a file whose pieces the live backends, or the cache, can give. */
  ghost predicate Readable(ctx: Context, arc: Archive, contents: Contents, st: CacheState, pieces: seq<Bytes>)
    requires Sound(ctx) && ValidSettings(arc)
  {
    && arc.kind.RegularFile? && Complete(arc.chunks) && |pieces| == |arc.chunks|
    && Serves(ctx, arc, contents, pieces)
    && (forall c | c in arc.chunks :: c.originalSize == |pieces[c.num]| > 0)
    && !st.locked
    && (forall c | c in arc.chunks && c.hash in st.entries :: st.entries[c.hash] == pieces[c.num])
  }

  /** Chunks of the archive with the same encoded hash are pieces with the same bytes. */
  ghost predicate PiecesAgree(arc: Archive, pieces: seq<Bytes>)
    requires forall c | c in arc.chunks :: c.num < |pieces|
  {
    forall c, d | c in arc.chunks && d in arc.chunks && c.hash == d.hash :: pieces[c.num] == pieces[d.num]
  }

  /** Readable, and no two of its pieces are confused by the cache. */
  ghost predicate Ready(ctx: Context, arc: Archive, contents: Contents, st: CacheState, pieces: seq<Bytes>)
    requires Sound(ctx) && ValidSettings(arc)
  {
    Readable(ctx, arc, contents, st, pieces) && PiecesAgree(arc, pieces)
  }

  /** The bytes of a file from `offset` on, at most `size` of them. */
  function Window(content: Bytes, offset: nat, size: nat): Bytes
    requires offset <= |content|
  {
    if offset + size <= |content| then content[offset..offset + size] else content[offset..]
  }

  /** What ReadArchive answers, for any offset and size that an `int` can be. */
  function ReadOutcome(content: Bytes, offset: int, size: int): Outcome {
    if content == [] || offset >= |content| then EndOfFile
    else if size <= 0 then Got([])
    else if offset < 0 then Panicked
    else Got(Window(content, offset, size))
  }

  lemma ReadableChunk(ctx: Context, arc: Archive, contents: Contents, st: CacheState, pieces: seq<Bytes>, num: nat)
    requires Sound(ctx) && ValidSettings(arc) && Ready(ctx, arc, contents, st, pieces) && num < |pieces|
    ensures var r := ChunkRead(ctx, arc, contents, st, num);
            r.1 == Got(pieces[num]) && Ready(ctx, arc, contents, r.0, pieces)
  {
    assert Numbered(arc.chunks, num) in arc.chunks;
  }

  lemma {:induction false} StartsAreLengths(arc: Archive, pieces: seq<Bytes>, i: nat)
    requires Complete(arc.chunks) && |pieces| == |arc.chunks| && i <= |pieces|
    requires forall c | c in arc.chunks :: c.num < |pieces| && c.originalSize == |pieces[c.num]|
    ensures StartOf(arc.chunks, i) == |Flatten(pieces[..i])|
  {
    if i > 0 {
      StartsAreLengths(arc, pieces, i - 1);
      FlattenNext(pieces, i - 1);
      assert Numbered(arc.chunks, i - 1) in arc.chunks;
    }
  }

  lemma PieceInContent(pieces: seq<Bytes>, i: nat)
    requires i < |pieces|
    ensures var start := |Flatten(pieces[..i])|;
            && start + |pieces[i]| == |Flatten(pieces[..i + 1])| <= |Flatten(pieces)|
            && Flatten(pieces)[start..start + |pieces[i]|] == pieces[i]
  {
    FlattenNext(pieces, i);
    FlattenPrefix(pieces, i + 1);
    var start := |Flatten(pieces[..i])|;
    assert Flatten(pieces)[..start + |pieces[i]|][start..] == pieces[i];
  }

  /** The cache after lookups of the chunks `from`, `from + 1`, ..., `to - 1`. */
  function Looked(ctx: Context, arc: Archive, contents: Contents, st: CacheState, from: nat, to: nat): CacheState
    requires Sound(ctx) && ValidSettings(arc)
  {
    if to <= from then st
    else ChunkRead(ctx, arc, contents, Looked(ctx, arc, contents, st, from, to - 1), to - 1).0
  }

  /** The byte before place `end` of the file is in piece `p`. */
  predicate EndsIn(pieces: seq<Bytes>, p: nat, end: nat) {
    p < |pieces| && |Flatten(pieces[..p])| < end <= |Flatten(pieces[..p + 1])|
  }

  /**
   A read that begins in chunk `part` looks up the chunks from that one up to the one before `to`: all that hold a byte
   of the window and, if the window does not go past the end of the file, the next one; if nothing is asked for, that
   chunk alone.
   */
  predicate LooksUpTo(pieces: seq<Bytes>, part: nat, offset: nat, size: int, to: nat) {
    if size <= 0 then to == part + 1
    else if offset + size > |Flatten(pieces)| then to == |pieces|
    else to >= 2 && EndsIn(pieces, to - 2, offset + size)
  }

  ghost predicate LookedUp(
      ctx: Context, arc: Archive, contents: Contents, before: CacheState, after: CacheState, pieces: seq<Bytes>,
      part: nat, offset: nat, size: int)
    requires Sound(ctx) && ValidSettings(arc)
  {
    exists to :: LooksUpTo(pieces, part, offset, size, to) && after == Looked(ctx, arc, contents, before, part, to)
  }

  /** The same from the chunk that holds the byte at the offset. */
  ghost predicate LookedFrom(
      ctx: Context, arc: Archive, contents: Contents, before: CacheState, after: CacheState, pieces: seq<Bytes>,
      offset: nat, size: int)
    requires Sound(ctx) && ValidSettings(arc)
  {
    exists part ::
      EndsIn(pieces, part, offset + 1) && LookedUp(ctx, arc, contents, before, after, pieces, part, offset, size)
  }

  /** A read that cannot get a chunk waits for ever if the lookup does, and panics on any other error. */
  predicate StopsAs(looked: Outcome, r: Outcome) {
    (looked.Blocked? ==> r == Blocked) && (looked.Failed? ==> r == Panicked)
  }

  /** Chunk number `part` holds the byte at the offset. */
  predicate Holding(chunks: seq<Chunk>, part: nat, offset: int)
    requires Complete(chunks) && part < |chunks|
  {
    StartOf(chunks, part) <= offset < StartOf(chunks, part + 1)
  }

  /** ChunkForOffset finds it. */
  lemma OneHolds(chunks: seq<Chunk>, part: nat, offset: int, at: OffsetResult)
    requires Complete(chunks) && part < |chunks| && Holding(chunks, part, offset) && !at.SeekError?
    requires at.PastEnd? <==> chunks == [] || StartOf(chunks, |chunks|) <= offset
    requires at.At? ==>
               && at.num < |chunks|
               && StartOf(chunks, at.num) + at.internal == offset < StartOf(chunks, at.num + 1)
               && (at.internal < 0 <==> offset < 0)
    ensures at.At? && at.num == part
  {
    StartsIncrease(chunks, part + 1, |chunks|);
    if at.At? && at.num < part { StartsIncrease(chunks, at.num + 1, part); }
    if at.At? && at.num > part { StartsIncrease(chunks, part + 1, at.num); }
  }

  class ChunkCache {
    var entries: map<string, Bytes>
    var locked: bool

    constructor ()
      ensures State() == CacheState(map[], false)
    {
      entries, locked := map[], false;
    }

    ghost function State(): CacheState
      reads this
    {
      CacheState(entries, locked)
    }

    method ReadArchiveChunk(
        ctx: Context, arc: Archive, num: nat, mgr: BackendManager, ghost start: seq<Backend>,
        ghost contents: Contents)
      returns (r: Outcome)
      requires Sound(ctx) && ValidSettings(arc) && Alike(start, mgr.backends)
      requires Steady(start) ==> contents == ContentsOf(start)
      modifies this, mgr`backends
      ensures Alike(start, mgr.backends)
      ensures Steady(start) ==> (State(), r) == ChunkRead(ctx, arc, contents, old(State()), num)
      ensures old(locked) ==> locked && !r.Got?
    {
      var idx := IndexOfChunk(arc.chunks, num);
      if idx.None? { return Failed(ChunkMissing(num)); }
      var chunk := arc.chunks[idx.value];
      if locked { return Blocked; }
      locked := true;
      if chunk.hash in entries {
        locked := false;
        return Got(entries[chunk.hash]);
      }
      var loaded := LoadWithin(ctx, arc, chunk, mgr, start, contents);
      if loaded.Err? { return Failed(loaded.error); }
      entries := entries[chunk.hash := loaded.value];
      locked := false;
      return Got(loaded.value);
    }

    /** DecodeArchiveData: the whole file, through the cache; nothing for what is not a regular file. */
    method DecodeArchiveData(ctx: Context, arc: Archive, mgr: BackendManager, ghost pieces: seq<Bytes>)
      returns (r: Outcome)
      requires Sound(ctx) && ValidSettings(arc)
      modifies this, mgr`backends
      ensures Alike(old(mgr.backends), mgr.backends)
      ensures !arc.kind.RegularFile? ==> r == Got([]) && State() == old(State()) && mgr.backends == old(mgr.backends)
      ensures Steady(old(mgr.backends)) && Ready(ctx, arc, ContentsOf(old(mgr.backends)), old(State()), pieces) ==>
        && r == Got(Flatten(pieces)) && Ready(ctx, arc, ContentsOf(old(mgr.backends)), State(), pieces)
        && State() == Looked(ctx, arc, ContentsOf(old(mgr.backends)), old(State()), 0, |arc.chunks|)
    {
      if !arc.kind.RegularFile? { return Got([]); }
      var b: Bytes := [];
      ghost var start, contents := mgr.backends, ContentsOf(mgr.backends);
      ghost var good := Steady(start) && Ready(ctx, arc, contents, State(), pieces);
      for i := 0 to |arc.chunks|
        invariant Alike(start, mgr.backends)
        invariant good ==> Ready(ctx, arc, contents, State(), pieces) && b == Flatten(pieces[..i])
        invariant good ==> State() == Looked(ctx, arc, contents, old(State()), 0, i)
      {
        if good { ReadableChunk(ctx, arc, contents, State(), pieces, i); }
        r := ReadArchiveChunk(ctx, arc, i, mgr, start, contents);
        if !r.Got? { return; }
        if good { FlattenNext(pieces, i); }
        b := b + r.data;
      }
      assert good ==> pieces[..|arc.chunks|] == pieces;
      r := Got(b);
    }

    /** One round of the loop of ReadArchive: the chunk's data from `internal` on, as much of it as is still wanted. */
    method CopyPart(ctx: Context, arc: Archive, part: nat, internal: nat, size: int, mgr: BackendManager,
                    ghost start: seq<Backend>, ghost contents: Contents, ghost cached: CacheState, ghost first: nat,
                    ghost offset: nat, b: Bytes, ghost pieces: seq<Bytes>, ghost good: bool)
      returns (r: Outcome)
      requires Sound(ctx) && ValidSettings(arc) && Alike(start, mgr.backends) && |b| < size && part < |arc.chunks|
      requires Steady(start) ==> contents == ContentsOf(start)
      requires good ==> Steady(start)
      requires good ==> GotTo(ctx, arc, contents, cached, State(), pieces, first, offset, b, part, internal, size)
      requires Steady(start) ==> GotPast(ctx, arc, contents, cached, State(), first, part)
      modifies this, mgr`backends
      ensures Alike(start, mgr.backends)
      ensures r.Got? ==> 0 < |r.data| <= size - |b|
      ensures r.Got? && Steady(start) ==> GotPast(ctx, arc, contents, cached, State(), first, part + 1)
      ensures Steady(start) && first < |arc.chunks| ==> StopsAs(ChunkRead(ctx, arc, contents, cached, first).1, r)
      ensures good ==>
                r.Got?
                && GotTo(ctx, arc, contents, cached, State(), pieces, first, offset, b + r.data, part + 1, 0, size)
    {
      if good {
        OneChunkMore(ctx, arc, contents, State(), pieces, offset, b, part, internal, size);
        FlattenNext(pieces, part);
      }
      var cd := ReadArchiveChunk(ctx, arc, part, mgr, start, contents);
      if cd.Blocked? { return Blocked; }
      if !cd.Got? || cd.data == [] || internal >= |cd.data| { return Panicked; }
      r := Got(Cropped(cd.data[internal..], size - |b|));
    }

    /**
     The loop of ReadArchive from a place in a chunk on: the bytes, and the place after them, where the loop stops once
     it has as many as are wanted, or at the end of the archive.
     */
    method CopyParts(ctx: Context, arc: Archive, part: nat, internal: nat, size: int, mgr: BackendManager,
                     ghost start: seq<Backend>, ghost contents: Contents,
                     ghost offset: nat, ghost pieces: seq<Bytes>, ghost good: bool)
      returns (r: Outcome, neededPart: nat, internalOffset: nat)
      requires Sound(ctx) && ValidSettings(arc) && Alike(start, mgr.backends)
      requires Steady(start) ==> contents == ContentsOf(start)
      requires good ==> Steady(start)
      requires good ==>
                 GotTo(ctx, arc, contents, State(), State(), pieces, part, offset, [], part, internal, size)
      modifies this, mgr`backends
      ensures Alike(start, mgr.backends)
      ensures r.Got? ==> r.data == [] || |r.data| <= size
      ensures r.Got? && |r.data| < size ==> neededPart >= |arc.chunks|
      ensures good ==>
                && r.Got?
                && GotTo(ctx, arc, contents, old(State()), State(), pieces, part, offset, r.data,
                         neededPart, internalOffset, size)
      ensures Steady(start) && size > 0 && part < |arc.chunks| ==>
                StopsAs(ChunkRead(ctx, arc, contents, old(State()), part).1, r)
    {
      var b: Bytes := [];
      ghost var cached := State();
      neededPart, internalOffset := part, internal;
      while |b| < size
        invariant |b| <= size || b == []
        invariant if neededPart == part then b == [] else neededPart > part
        invariant Alike(start, mgr.backends)
        invariant Steady(start) ==> GotPast(ctx, arc, contents, cached, State(), part, neededPart)
        // Compared with true, the predicate is proved as a whole and not part by part, which is cheaper.
        invariant good ==>
          GotTo(ctx, arc, contents, cached, State(), pieces, part, offset, b, neededPart, internalOffset, size) == true
      {
        if neededPart >= |arc.chunks| { break; }
        var copied := CopyPart(
          ctx, arc, neededPart, internalOffset, size, mgr, start, contents, cached, part, offset, b, pieces, good);
        if !copied.Got? { return copied, neededPart, internalOffset; }
        b := b + copied.data;
        internalOffset := 0;
        neededPart := neededPart + 1;
      }
      r := Got(b);
    }

    /** ReadArchive from a place in a chunk on: the loop, and after a full window the prefetch of the next chunk. */
    method ReadFrom(ctx: Context, arc: Archive, part: nat, internal: nat, size: int, mgr: BackendManager,
                    ghost offset: nat, ghost pieces: seq<Bytes>, ghost good: bool)
      returns (r: Outcome)
      requires Sound(ctx) && ValidSettings(arc)
      requires good ==> Steady(mgr.backends) && Ready(ctx, arc, ContentsOf(mgr.backends), State(), pieces)
      requires good ==> Reached(pieces, offset, [], part, internal, size)
      modifies this, mgr`backends
      ensures Alike(old(mgr.backends), mgr.backends)
      ensures good ==> Ready(ctx, arc, ContentsOf(old(mgr.backends)), State(), pieces)
      ensures good ==> offset <= |Flatten(pieces)|
      ensures good ==> r == Got(if size <= 0 then [] else Window(Flatten(pieces), offset, size))
      ensures good ==>
                LookedUp(ctx, arc, ContentsOf(old(mgr.backends)), old(State()), State(), pieces, part, offset, size)
      ensures Steady(old(mgr.backends)) && size > 0 && part < |arc.chunks| ==>
                StopsAs(ChunkRead(ctx, arc, ContentsOf(old(mgr.backends)), old(State()), part).1, r)
    {
      ghost var start, contents, cached := mgr.backends, ContentsOf(mgr.backends), State();
      var neededPart: nat, internalOffset: nat;
      r, neededPart, internalOffset :=
        CopyParts(ctx, arc, part, internal, size, mgr, start, contents, offset, pieces, good);
      if !r.Got? { return; }
      if |r.data| < size {
        if good { GotToEnd(ctx, arc, contents, cached, State(), pieces, part, offset, r.data, neededPart, size); }
        return;
      }
      if good {
        GotAll(ctx, arc, contents, cached, State(), pieces, part, offset, r.data, neededPart, internalOffset, size);
      }
      Prefetch(ctx, arc, neededPart, mgr, start, contents, pieces, good);
    }

    /**
     The goroutine that ReadArchive leaves behind. Whenever it runs, it is one more lookup between two others, since it
     holds the mutex from before it looks at the cache until it is done.
     */
    method Prefetch(ctx: Context, arc: Archive, num: nat, mgr: BackendManager,
                    ghost start: seq<Backend>, ghost contents: Contents, ghost pieces: seq<Bytes>, ghost good: bool)
      requires Sound(ctx) && ValidSettings(arc) && Alike(start, mgr.backends)
      requires Steady(start) ==> contents == ContentsOf(start)
      requires good ==> Steady(start) && Ready(ctx, arc, contents, State(), pieces)
      modifies this, mgr`backends
      ensures Alike(start, mgr.backends)
      ensures Steady(start) ==> State() == ChunkRead(ctx, arc, contents, old(State()), num).0
      ensures good ==> Ready(ctx, arc, contents, State(), pieces)
    {
      if good { AnyLookupKeepsReady(ctx, arc, contents, State(), pieces, num); }
      var ignored := ReadArchiveChunk(ctx, arc, num, mgr, start, contents);
    }

    /** ReadArchive at a negative place in the first chunk: what slices the chunk there panics. */
    method ReadBefore(ctx: Context, arc: Archive, part: nat, size: int, mgr: BackendManager,
                      ghost pieces: seq<Bytes>, ghost good: bool)
      returns (r: Outcome)
      requires Sound(ctx) && ValidSettings(arc)
      requires good ==> Steady(mgr.backends) && Ready(ctx, arc, ContentsOf(mgr.backends), State(), pieces)
      requires good ==> part < |pieces|
      modifies this, mgr`backends
      ensures Alike(old(mgr.backends), mgr.backends)
      ensures good ==> Ready(ctx, arc, ContentsOf(old(mgr.backends)), State(), pieces)
      ensures good ==> r == if size <= 0 then Got([]) else Panicked
      ensures good ==> State() == Looked(ctx, arc, ContentsOf(old(mgr.backends)), old(State()), part, part + 1)
    {
      ghost var start, contents := mgr.backends, ContentsOf(mgr.backends);
      if size <= 0 {
        Prefetch(ctx, arc, part, mgr, start, contents, pieces, good);
        return Got([]);
      }
      if good { AnyLookupKeepsReady(ctx, arc, contents, State(), pieces, part); }
      var cd := ReadArchiveChunk(ctx, arc, part, mgr, start, contents);
      r := if cd.Blocked? then Blocked else Panicked;
    }

    /** ReadArchive from the place that ChunkForOffset has found. */
    method ReadAt(ctx: Context, arc: Archive, part: nat, internal: int, offset: int, size: int, mgr: BackendManager,
                  ghost pieces: seq<Bytes>, ghost good: bool)
      returns (r: Outcome)
      requires Sound(ctx) && ValidSettings(arc) && (internal < 0 <==> offset < 0)
      requires good ==> Steady(mgr.backends) && Ready(ctx, arc, ContentsOf(mgr.backends), State(), pieces)
      requires good ==> part < |pieces| && Flatten(pieces) != [] && offset < |Flatten(pieces)|
      requires good && internal >= 0 ==> Reached(pieces, offset, [], part, internal, size)
      modifies this, mgr`backends
      ensures Alike(old(mgr.backends), mgr.backends)
      ensures good ==> Ready(ctx, arc, ContentsOf(old(mgr.backends)), State(), pieces)
      ensures good ==> r == ReadOutcome(Flatten(pieces), offset, size)
      ensures good && offset >= 0 && EndsIn(pieces, part, offset + 1) ==>
                LookedFrom(ctx, arc, ContentsOf(old(mgr.backends)), old(State()), State(), pieces, offset, size)
      ensures good && offset < 0 ==>
                State() == Looked(ctx, arc, ContentsOf(old(mgr.backends)), old(State()), part, part + 1)
      ensures Steady(old(mgr.backends)) && size > 0 && offset >= 0 && part < |arc.chunks| ==>
                StopsAs(ChunkRead(ctx, arc, ContentsOf(old(mgr.backends)), old(State()), part).1, r)
    {
      if internal < 0 {
        r := ReadBefore(ctx, arc, part, size, mgr, pieces, good);
      } else {
        r := ReadFrom(ctx, arc, part, internal, size, mgr, offset, pieces, good);
      }
    }

    /** Where ReadArchive begins, in terms of the file. */
    static method Locate(
        ctx: Context, arc: Archive, offset: int, size: int, ghost contents: Contents, ghost st: CacheState,
        ghost pieces: seq<Bytes>, ghost good: bool)
      returns (at: OffsetResult)
      requires Sound(ctx) && ValidSettings(arc) && (good ==> Ready(ctx, arc, contents, st, pieces))
      ensures at.At? ==> (at.internal < 0 <==> offset < 0)
      ensures good ==> !at.SeekError? && (at.PastEnd? <==> Flatten(pieces) == [] || |Flatten(pieces)| <= offset)
      ensures good && at.At? ==> at.num < |pieces|
      ensures at.At? && offset < 0 ==> at.num == 0
      ensures Complete(arc.chunks) ==> forall part: nat | part < |arc.chunks| && Holding(arc.chunks, part, offset) ::
                at.At? && at.num == part
      ensures good && at.At? && offset >= 0 ==>
                Reached(pieces, offset, [], at.num, at.internal, size) && EndsIn(pieces, at.num, offset + 1)
    {
      at := ChunkForOffset(arc.chunks, offset);
      if Complete(arc.chunks) {
        forall part: nat | part < |arc.chunks| && Holding(arc.chunks, part, offset) ensures at.At? && at.num == part {
          OneHolds(arc.chunks, part, offset, at);
        }
      }
      if good {
        ContentBounds(ctx, arc, contents, st, pieces, at, offset, size);
        if at.At? && offset >= 0 { ChunkHolds(ctx, arc, contents, st, pieces, at.num, at.internal, offset); }
      }
    }

    /**
     ReadArchive, prefetch included. On a readable archive, with its chunks in any order and the cache in any coherent
     state, it returns exactly the window of the file, or EndOfFile past its end; it panics if and only if the offset
     is negative and something is asked for.
     */
    method ReadArchive(
        ctx: Context, arc: Archive, offset: int, size: int, mgr: BackendManager, ghost pieces: seq<Bytes>)
      returns (r: Outcome)
      requires Sound(ctx) && ValidSettings(arc)
      modifies this, mgr`backends
      ensures Alike(old(mgr.backends), mgr.backends)
      ensures !arc.kind.RegularFile? ==> r == Got([]) && State() == old(State()) && mgr.backends == old(mgr.backends)
      ensures Steady(old(mgr.backends)) && Ready(ctx, arc, ContentsOf(old(mgr.backends)), old(State()), pieces) ==>
        && Ready(ctx, arc, ContentsOf(old(mgr.backends)), State(), pieces)
        && r == ReadOutcome(Flatten(pieces), offset, size)
        && (r == EndOfFile ==> State() == old(State()))
        && (r != EndOfFile && offset < 0 ==>
              State() == Looked(ctx, arc, ContentsOf(old(mgr.backends)), old(State()), 0, 1))
        && (r != EndOfFile && offset >= 0 ==>
              LookedFrom(ctx, arc, ContentsOf(old(mgr.backends)), old(State()), State(), pieces, offset, size))
      ensures Steady(old(mgr.backends)) && arc.kind.RegularFile? && Complete(arc.chunks) && offset >= 0 && size > 0 ==>
                forall part: nat | part < |arc.chunks| && Holding(arc.chunks, part, offset) ::
                  StopsAs(ChunkRead(ctx, arc, ContentsOf(old(mgr.backends)), old(State()), part).1, r)
    {
      if !arc.kind.RegularFile? { return Got([]); }
      ghost var start, contents := mgr.backends, ContentsOf(mgr.backends);
      ghost var good := Steady(mgr.backends) && Ready(ctx, arc, contents, State(), pieces);
      var at := Locate(ctx, arc, offset, size, contents, State(), pieces, good);
      if at.SeekError? { return SeekFailed; }
      if at.PastEnd? { return EndOfFile; }
      r := ReadAt(ctx, arc, at.num, at.internal, offset, size, mgr, pieces, good);
    }
  }

  /** `d`, or as much of it as is still wanted. */
  function Cropped(d: Bytes, wanted: nat): Bytes { if |d| > wanted then d[..wanted] else d }

  /** `b` is what lies between `offset` and the place reached, which is a real place in a chunk or the end. */
  ghost predicate Reached(pieces: seq<Bytes>, offset: nat, b: Bytes, part: nat, internal: nat, size: int) {
    && part <= |pieces|
    && (if part < |pieces| then internal < |pieces[part]| else internal == 0)
    && offset + |b| <= |Flatten(pieces)|
    && b == Flatten(pieces)[offset..offset + |b|]
    && (|b| < size ==> offset + |b| == |Flatten(pieces[..part])| + internal)
  }

  lemma EndReached(pieces: seq<Bytes>, offset: nat, b: Bytes, part: nat, size: int)
    requires Reached(pieces, offset, b, part, 0, size) && |b| < size && part == |pieces|
    ensures offset <= |Flatten(pieces)| && b == Window(Flatten(pieces), offset, size)
  {
    assert pieces[..|pieces|] == pieces;
  }

  lemma WindowFull(pieces: seq<Bytes>, offset: nat, b: Bytes, part: nat, internal: nat, size: int)
    requires Reached(pieces, offset, b, part, internal, size) && (if size <= 0 then b == [] else |b| == size)
    ensures offset <= |Flatten(pieces)| && b == if size <= 0 then [] else Window(Flatten(pieces), offset, size)
  {
  }

  /** How far the loop has got: with bytes `b`, at a place in chunk `part`, having looked up the chunks before it. */
  ghost predicate GotTo(
      ctx: Context, arc: Archive, contents: Contents, cached: CacheState, st: CacheState, pieces: seq<Bytes>,
      first: nat, offset: nat, b: Bytes, part: nat, internal: nat, size: int)
    requires Sound(ctx) && ValidSettings(arc)
  {
    && Ready(ctx, arc, contents, st, pieces) && Reached(pieces, offset, b, part, internal, size)
    && first <= part && (size <= 0 ==> part == first) && st == Looked(ctx, arc, contents, cached, first, part)
    && if part == first then b == [] else EndsIn(pieces, part - 1, offset + |b|)
  }

  /** The loop is at its first chunk, and the cache as it was, or has got that chunk. */
  ghost predicate GotPast(
      ctx: Context, arc: Archive, contents: Contents, cached: CacheState, st: CacheState, first: nat, part: nat)
    requires Sound(ctx) && ValidSettings(arc)
  {
    if part == first then st == cached else part > first && ChunkRead(ctx, arc, contents, cached, first).1.Got?
  }

  /** The end of the file is reached before the window is full. */
  lemma GotToEnd(
      ctx: Context, arc: Archive, contents: Contents, cached: CacheState, st: CacheState, pieces: seq<Bytes>,
      first: nat, offset: nat, b: Bytes, part: nat, size: int)
    requires Sound(ctx) && ValidSettings(arc) && |b| < size && part == |pieces|
    requires GotTo(ctx, arc, contents, cached, st, pieces, first, offset, b, part, 0, size)
    ensures offset <= |Flatten(pieces)| && b == Window(Flatten(pieces), offset, size)
    ensures LookedUp(ctx, arc, contents, cached, st, pieces, first, offset, size)
  {
    EndReached(pieces, offset, b, part, size);
    assert pieces[..|pieces|] == pieces;
    assert LooksUpTo(pieces, first, offset, size, part);
  }

  /** The window is full, and the next chunk is looked up. */
  lemma GotAll(
      ctx: Context, arc: Archive, contents: Contents, cached: CacheState, st: CacheState, pieces: seq<Bytes>,
      first: nat, offset: nat, b: Bytes, part: nat, internal: nat, size: int)
    requires Sound(ctx) && ValidSettings(arc) && (if size <= 0 then b == [] else |b| == size)
    requires GotTo(ctx, arc, contents, cached, st, pieces, first, offset, b, part, internal, size)
    ensures offset <= |Flatten(pieces)| && b == if size <= 0 then [] else Window(Flatten(pieces), offset, size)
    ensures LookedUp(
              ctx, arc, contents, cached, ChunkRead(ctx, arc, contents, st, part).0, pieces, first, offset, size)
  {
    WindowFull(pieces, offset, b, part, internal, size);
    assert LooksUpTo(pieces, first, offset, size, part + 1);
    assert Looked(ctx, arc, contents, cached, first, part + 1) == ChunkRead(ctx, arc, contents, st, part).0;
  }

  lemma Extend(content: Bytes, offset: nat, at: nat, d: Bytes, n: nat)
    requires offset <= at && at + |d| <= |content| && content[at..at + |d|] == d && n <= |d|
    ensures content[offset..at] + d[..n] == content[offset..at + n]
  {
    assert content[at..at + |d|][..n] == content[at..at + n];
  }

  /** The rest of a piece is found in the content where the piece's end is less its length. */
  lemma RestInContent(pieces: seq<Bytes>, part: nat, internal: nat)
    requires part < |pieces| && internal <= |pieces[part]|
    ensures var at, d := |Flatten(pieces[..part])| + internal, pieces[part][internal..];
            at + |d| == |Flatten(pieces[..part + 1])| <= |Flatten(pieces)| && Flatten(pieces)[at..at + |d|] == d
  {
    PieceInContent(pieces, part);
    var start := |Flatten(pieces[..part])|;
    assert Flatten(pieces)[start..start + |pieces[part]|][internal..]
      == Flatten(pieces)[start + internal..start + |pieces[part]|];
  }

  lemma OnePieceMore(pieces: seq<Bytes>, offset: nat, b: Bytes, part: nat, internal: nat, size: int)
    requires Reached(pieces, offset, b, part, internal, size) && |b| < size && part < |pieces|
    requires part + 1 < |pieces| ==> |pieces[part + 1]| > 0
    ensures Reached(pieces, offset, b + Cropped(pieces[part][internal..], size - |b|), part + 1, 0, size)
  {
    RestInContent(pieces, part, internal);
    var d := pieces[part][internal..];
    var n := if |d| > size - |b| then size - |b| else |d|;
    assert Cropped(d, size - |b|) == d[..n];
    Extend(Flatten(pieces), offset, offset + |b|, d, n);
  }

  /** One round of the loop of ReadArchive. */
  lemma OneChunkMore(
      ctx: Context, arc: Archive, contents: Contents, st: CacheState, pieces: seq<Bytes>, offset: nat,
      b: Bytes, part: nat, internal: nat, size: int)
    requires Sound(ctx) && ValidSettings(arc) && Ready(ctx, arc, contents, st, pieces) && part < |arc.chunks|
    requires Reached(pieces, offset, b, part, internal, size) && |b| < size
    ensures var r := ChunkRead(ctx, arc, contents, st, part);
            && r.1 == Got(pieces[part]) && internal < |pieces[part]| && Ready(ctx, arc, contents, r.0, pieces)
            && Reached(pieces, offset, b + Cropped(pieces[part][internal..], size - |b|), part + 1, 0, size)
  {
    ReadableChunk(ctx, arc, contents, st, pieces, part);
    if part + 1 < |pieces| {
      assert Numbered(arc.chunks, part + 1) in arc.chunks;
    }
    OnePieceMore(pieces, offset, b, part, internal, size);
  }

  /** A lookup of any number, also of one past the last chunk, leaves the archive readable. */
  lemma AnyLookupKeepsReady(
      ctx: Context, arc: Archive, contents: Contents, st: CacheState, pieces: seq<Bytes>, num: nat)
    requires Sound(ctx) && ValidSettings(arc) && Ready(ctx, arc, contents, st, pieces)
    ensures Ready(ctx, arc, contents, ChunkRead(ctx, arc, contents, st, num).0, pieces)
    ensures num < |pieces| ==> ChunkRead(ctx, arc, contents, st, num).1 == Got(pieces[num])
  {
    if IndexOf(arc.chunks, num).Some? {
      assert Numbered(arc.chunks, num) in arc.chunks;
      ReadableChunk(ctx, arc, contents, st, pieces, num);
    }
  }

  /** What ChunkForOffset says, in terms of the file's content. */
  lemma ContentBounds(
      ctx: Context, arc: Archive, contents: Contents, st: CacheState, pieces: seq<Bytes>,
      at: OffsetResult, offset: int, size: int)
    requires Sound(ctx) && ValidSettings(arc) && Readable(ctx, arc, contents, st, pieces)
    requires !at.SeekError?
    requires at.PastEnd? <==> arc.chunks == [] || StartOf(arc.chunks, |arc.chunks|) <= offset
    requires at.At? ==>
               && at.num < |arc.chunks|
               && StartOf(arc.chunks, at.num) + at.internal == offset < StartOf(arc.chunks, at.num + 1)
    requires at.At? && at.internal < 0 ==> at.internal == offset
    ensures at.PastEnd? <==> Flatten(pieces) == [] || |Flatten(pieces)| <= offset
    ensures at.At? ==> (at.internal < 0 <==> offset < 0)
    ensures at.At? && at.internal >= 0 ==> Reached(pieces, offset, [], at.num, at.internal, size)
  {
    assert pieces[..|pieces|] == pieces;
    StartsAreLengths(arc, pieces, |pieces|);
    if arc.chunks != [] {
      assert Numbered(arc.chunks, 0) in arc.chunks;
      PieceInContent(pieces, 0);
    }
    if at.At? {
      StartsAreLengths(arc, pieces, at.num);
      StartsAreLengths(arc, pieces, at.num + 1);
      PieceInContent(pieces, at.num);
    }
  }

  /** The chunk that ChunkForOffset names holds the byte at the offset. */
  lemma ChunkHolds(
      ctx: Context, arc: Archive, contents: Contents, st: CacheState, pieces: seq<Bytes>, num: nat, internal: int,
      offset: nat)
    requires Sound(ctx) && ValidSettings(arc) && Readable(ctx, arc, contents, st, pieces) && num < |arc.chunks|
    requires StartOf(arc.chunks, num) + internal == offset < StartOf(arc.chunks, num + 1) && internal >= 0
    ensures EndsIn(pieces, num, offset + 1)
  {
    StartsAreLengths(arc, pieces, num);
    StartsAreLengths(arc, pieces, num + 1);
  }

  /**
   What consecutive reads of `size` bytes give, each starting where the one before ended, until the end of the file.
   */
  function ReadOn(content: Bytes, offset: nat, size: nat): Bytes
    requires offset <= |content| && size > 0
    decreases |content| - offset
  {
    match ReadOutcome(content, offset, size)
    case Got(w) => if w == [] then [] else w + ReadOn(content, offset + |w|, size)
    case _ => []
  }

  /** Consecutive reads put together are the rest of the file: from offset 0 the whole of it. */
  lemma {:induction false} ReadsCover(content: Bytes, offset: nat, size: nat)
    requires offset <= |content| && size > 0
    ensures ReadOn(content, offset, size) == content[offset..]
    decreases |content| - offset
  {
    if offset < |content| {
      var w := Window(content, offset, size);
      ReadsCover(content, offset + |w|, size);
      assert content[offset..] == w + content[offset + |w|..];
    }
  }

  /** In a file whose pieces do not collide with what is cached, a coherent cache makes the archive readable. */
  lemma CoherentIsReadable(
      ctx: Context, arc: Archive, contents: Contents, st: CacheState, pieces: seq<Bytes>, chunks: set<Chunk>)
    requires Sound(ctx) && ValidSettings(arc) && arc.kind.RegularFile? && Complete(arc.chunks)
    requires |pieces| == |arc.chunks| && Serves(ctx, arc, contents, pieces) && Records(ctx, arc.chunks, pieces)
    requires forall c | c in arc.chunks :: c.originalSize == |pieces[c.num]| > 0
    requires Within(arc, chunks) && HashesAgree(chunks) && Coherent(ctx, st, chunks) && !st.locked
    requires CollisionFree(ctx.lib, Elements(pieces) + st.entries.Values)
    ensures Ready(ctx, arc, contents, st, pieces)
  {
    forall c | c in arc.chunks && c.hash in st.entries ensures st.entries[c.hash] == pieces[c.num] {
      assert pieces[c.num] in pieces && st.entries[c.hash] in st.entries.Values;
      assert ctx.lib.hash(st.entries[c.hash]) == ctx.lib.hash(pieces[c.num]);
    }
    forall c, d | c in arc.chunks && d in arc.chunks && c.hash == d.hash ensures pieces[c.num] == pieces[d.num] {
      assert pieces[c.num] in pieces && pieces[d.num] in pieces;
      assert ctx.lib.hash(pieces[c.num]) == ctx.lib.hash(pieces[d.num]);
    }
  }
}
