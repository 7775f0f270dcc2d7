/** Chunks and archives (chunk.go, archive.go): finding a chunk by its number and by an offset. */
module Archives {
  import opened Basics

  datatype Chunk = Chunk(
    dataParts: nat,
    parityParts: nat,
    originalSize: nat,
    size: nat,
    decryptedHash: string,
    hash: string,
    num: nat)

  datatype Kind = RegularFile | Directory | SymLink

  datatype Archive = Archive(
    path: string,
    kind: Kind,
    chunks: seq<Chunk>,
    size: nat,
    storageSize: nat,
    encrypted: nat,
    compressed: nat)

  /** The slice index of the first chunk from `i` on with the given number. */
  function IndexFrom(chunks: seq<Chunk>, num: nat, i: nat): (r: Option<nat>)
    requires i <= |chunks|
    ensures r.Some? ==> i <= r.value < |chunks| && chunks[r.value].num == num
    ensures r.Some? ==> forall j :: i <= j < r.value ==> chunks[j].num != num
    ensures r.None? ==> forall j :: i <= j < |chunks| ==> chunks[j].num != num
    decreases |chunks| - i
  {
    if i == |chunks| then None
    else if chunks[i].num == num then Some(i)
    else IndexFrom(chunks, num, i + 1)
  }

  function IndexOf(chunks: seq<Chunk>, num: nat): Option<nat> { IndexFrom(chunks, num, 0) }

  method IndexOfChunk(chunks: seq<Chunk>, num: nat) returns (r: Option<nat>)
    ensures r == IndexOf(chunks, num)
  {
    for i := 0 to |chunks|
      invariant IndexOf(chunks, num) == IndexFrom(chunks, num, i)
    {
      if chunks[i].num == num { return Some(i); }
    }
    return None;
  }

  /** Every number below the number of chunks is there: then each is there once. */
  predicate Complete(chunks: seq<Chunk>) {
    forall i :: 0 <= i < |chunks| ==> IndexOf(chunks, i).Some?
  }

  /** Chunk number `i`. */
  function Numbered(chunks: seq<Chunk>, i: nat): (c: Chunk)
    requires IndexOf(chunks, i).Some?
    ensures c.num == i
  {
    chunks[IndexOf(chunks, i).value]
  }

  /** The offset at which chunk number `i` starts. */
  function StartOf(chunks: seq<Chunk>, i: nat): nat
    requires Complete(chunks) && i <= |chunks|
  {
    if i == 0 then 0 else StartOf(chunks, i - 1) + Numbered(chunks, i - 1).originalSize
  }

  datatype OffsetResult = At(num: nat, internal: int) | SeekError | PastEnd

  /**
   The chunk that holds the byte at `offset` and the byte's place in it. On a complete archive the answer is
   PastEnd exactly when the offset is past the file or the file is empty, whatever the order the chunks are in; a
   negative offset gives the first chunk and a negative place.
   */
  method ChunkForOffset(chunks: seq<Chunk>, offset: int) returns (r: OffsetResult)
    ensures Complete(chunks) ==> !r.SeekError?
    ensures Complete(chunks) ==> (r.PastEnd? <==> chunks == [] || StartOf(chunks, |chunks|) <= offset)
    ensures Complete(chunks) && r.At? ==>
              r.num < |chunks| && StartOf(chunks, r.num) + r.internal == offset < StartOf(chunks, r.num + 1)
    ensures r.At? ==> (r.internal < 0 <==> offset < 0)
    ensures r.At? && r.internal < 0 ==> r.num == 0 && r.internal == offset
    ensures r.SeekError? ==> exists i :: 0 <= i < |chunks| && IndexOf(chunks, i).None?
  {
    var size := 0;
    for i := 0 to |chunks|
      invariant Complete(chunks) ==> size == StartOf(chunks, i)
      invariant if i == 0 then size == 0 else 0 <= size <= offset
    {
      var idx := IndexOfChunk(chunks, i);
      if idx.None? { return SeekError; }
      var chunk := chunks[idx.value];
      if size + chunk.originalSize > offset {
        if Complete(chunks) { StartsIncrease(chunks, i + 1, |chunks|); }
        return At(chunk.num, offset - size);
      }
      size := size + chunk.originalSize;
    }
    return PastEnd;
  }

  lemma {:induction false} StartsIncrease(chunks: seq<Chunk>, i: nat, j: nat)
    requires Complete(chunks) && i <= j <= |chunks|
    ensures StartOf(chunks, i) <= StartOf(chunks, j)
    decreases j
  {
    if i < j { StartsIncrease(chunks, i, j - 1); }
  }

  function Numbers(chunks: seq<Chunk>): set<nat> { set c | c in chunks :: c.num }

  /** The numbers 0, 1, ..., n - 1. */
  function UpTo(n: nat): (r: set<nat>)
    ensures forall i: nat :: i in r <==> i < n
    ensures |r| == n
  {
    if n == 0 then {} else UpTo(n - 1) + {n - 1}
  }

  predicate DistinctNumbers(chunks: seq<Chunk>) {
    forall i, j :: 0 <= i < j < |chunks| ==> chunks[i].num != chunks[j].num
  }

  lemma {:induction false} DistinctCount(chunks: seq<Chunk>)
    requires DistinctNumbers(chunks)
    ensures |Numbers(chunks)| == |chunks|
  {
    if chunks != [] {
      var front, last := chunks[..|chunks| - 1], chunks[|chunks| - 1];
      DistinctCount(front);
      assert forall c :: c in chunks <==> c in front || c == last;
      assert Numbers(chunks) == Numbers(front) + {last.num};
      assert last.num !in Numbers(front);
    }
  }

  /**
   Pigeonhole: chunks with different numbers are complete if and only if their numbers are exactly
   0, 1, ..., up to their count.
   */
  lemma CompleteIffNumbers(chunks: seq<Chunk>)
    requires DistinctNumbers(chunks)
    ensures Complete(chunks) <==> Numbers(chunks) == UpTo(|chunks|)
  {
    DistinctCount(chunks);
    if Complete(chunks) {
      forall i: nat | i < |chunks| ensures i in Numbers(chunks) {
        assert Numbered(chunks, i) in chunks;
      }
      SubsetSize(UpTo(|chunks|), Numbers(chunks));
    }
    if Numbers(chunks) == UpTo(|chunks|) {
      forall i | 0 <= i < |chunks| ensures IndexOf(chunks, i).Some? {
        assert i in UpTo(|chunks|);
        var c :| c in chunks && c.num == i;
      }
    }
  }
}
