/**
 The library code that knoxite calls, as arbitrary functions with the laws the model relies on.
 `Library` is one choice of these functions; every theorem is stated for all of them.
 */
module Libraries {
  import opened Basics

  const BLOCK_SIZE: nat := 16

  datatype Library = Library(
    sha256: string -> Bytes,
    aes: (Bytes, Bytes) -> Bytes,                  // key, block
    compress: (nat, Bytes) -> Option<Bytes>,       // algorithm, data; None is an error
    decompress: (nat, Bytes) -> Option<Bytes>,
    hash: Bytes -> string,                         // HighwayHash, in hexadecimal
    parity: (seq<Bytes>, nat) -> seq<Bytes>,       // Reed-Solomon: data shards, number of parity shards
    rebuild: (nat, nat, seq<Option<Bytes>>) -> Option<seq<Option<Bytes>>>)

  /** The block cipher maps blocks to blocks; nothing else is assumed about it. */
  ghost predicate CipherLaws(lib: Library) {
    && (forall password :: |lib.sha256(password)| == 32)
    && (forall key, block | |block| == BLOCK_SIZE :: |lib.aes(key, block)| == BLOCK_SIZE)
  }

  /** Each of the five compressors is undone by its decompressor. */
  ghost predicate CompressionLaws(lib: Library) {
    forall algo, data | 1 <= algo <= 5 && lib.compress(algo, data).Some? ::
      lib.decompress(algo, lib.compress(algo, data).value) == Some(data)
  }

  /** No two of the byte strings in play have the same hash. */
  ghost predicate CollisionFree(lib: Library, played: set<Bytes>) {
    forall a, b | a in played && b in played && lib.hash(a) == lib.hash(b) :: a == b
  }
}
