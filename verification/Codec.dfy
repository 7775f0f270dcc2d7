/** The codec pipeline (pipeline.go, encryption.go, compression.go), with CFB mode written out. */
module Codec {
  import opened Basics
  import opened Libraries

  /* ---- CFB mode: section 6.3 of NIST SP 800-38A, whole blocks, with a partial last block ---- */

  type BlockFunction = Bytes -> Bytes

  ghost predicate MapsBlocks(f: BlockFunction) {
    forall block | |block| == BLOCK_SIZE :: |f(block)| == BLOCK_SIZE
  }

  function Xor(a: Bytes, mask: Bytes): (r: Bytes)
    requires |a| <= |mask|
    ensures |r| == |a|
    ensures forall k :: 0 <= k < |a| ==> r[k] == a[k] ^ mask[k]
  {
    seq(|a|, k requires 0 <= k < |a| => a[k] ^ mask[k])
  }

  /** Each ciphertext block, fed back, masks the next block of plaintext. */
  function CfbEncrypt(f: BlockFunction, iv: Bytes, plain: Bytes): Bytes
    requires MapsBlocks(f) && |iv| == BLOCK_SIZE
    decreases |plain|
  {
    if |plain| <= BLOCK_SIZE then Xor(plain, f(iv))
    else
      var first := Xor(plain[..BLOCK_SIZE], f(iv));
      first + CfbEncrypt(f, first, plain[BLOCK_SIZE..])
  }

  function CfbDecrypt(f: BlockFunction, iv: Bytes, cipher: Bytes): Bytes
    requires MapsBlocks(f) && |iv| == BLOCK_SIZE
    decreases |cipher|
  {
    if |cipher| <= BLOCK_SIZE then Xor(cipher, f(iv))
    else Xor(cipher[..BLOCK_SIZE], f(iv)) + CfbDecrypt(f, cipher[..BLOCK_SIZE], cipher[BLOCK_SIZE..])
  }

  /** The input of the block cipher for block `j`: the IV, then the previous ciphertext block. */
  function InputBlock(iv: Bytes, cipher: Bytes, j: nat): (r: Bytes)
    requires |iv| == BLOCK_SIZE && BLOCK_SIZE * j <= |cipher|
    ensures |r| == BLOCK_SIZE
  {
    if j == 0 then iv else cipher[BLOCK_SIZE * (j - 1)..BLOCK_SIZE * j]
  }

  /** The standard's equation at byte `k`: C_j = P_j xor the leading bytes of CIPH(I_j). */
  ghost predicate CfbAt(f: BlockFunction, iv: Bytes, plain: Bytes, cipher: Bytes, k: nat)
    requires MapsBlocks(f) && |iv| == BLOCK_SIZE && k < |cipher| == |plain|
  {
    cipher[k] == plain[k] ^ f(InputBlock(iv, cipher, k / BLOCK_SIZE))[k % BLOCK_SIZE]
  }

  ghost predicate SatisfiesCfb(f: BlockFunction, iv: Bytes, plain: Bytes, cipher: Bytes)
    requires MapsBlocks(f) && |iv| == BLOCK_SIZE
  {
    |plain| == |cipher| && forall k :: 0 <= k < |cipher| ==> CfbAt(f, iv, plain, cipher, k)
  }

  lemma ByteXorTwice(b: Byte, mask: Byte)
    ensures (b ^ mask) ^ mask == b
  {
  }

  lemma XorTwice(b: Bytes, mask: Bytes)
    requires |b| <= |mask|
    ensures Xor(Xor(b, mask), mask) == b
  {
    forall k | 0 <= k < |b| ensures Xor(Xor(b, mask), mask)[k] == b[k] {
      ByteXorTwice(b[k], mask[k]);
    }
  }

  /** Masking with xor is its own inverse. */
  lemma XorSwap(a: Bytes, b: Bytes, mask: Bytes)
    requires |a| == |b| <= |mask|
    ensures a == Xor(b, mask) <==> b == Xor(a, mask)
  {
    XorTwice(a, mask);
    XorTwice(b, mask);
  }

  lemma CfbAtFirst(f: BlockFunction, iv: Bytes, plain: Bytes, cipher: Bytes, k: nat)
    requires MapsBlocks(f) && |iv| == BLOCK_SIZE && k < |cipher| == |plain| && k < BLOCK_SIZE
    ensures CfbAt(f, iv, plain, cipher, k) <==> cipher[k] == plain[k] ^ f(iv)[k]
  {
    assert k / BLOCK_SIZE == 0 && k % BLOCK_SIZE == k;
  }

  lemma CfbAtRest(f: BlockFunction, iv: Bytes, plain: Bytes, cipher: Bytes, k: nat)
    requires MapsBlocks(f) && |iv| == BLOCK_SIZE && k < |cipher| == |plain| && BLOCK_SIZE <= k
    ensures CfbAt(f, iv, plain, cipher, k)
            <==> CfbAt(f, cipher[..BLOCK_SIZE], plain[BLOCK_SIZE..], cipher[BLOCK_SIZE..], k - BLOCK_SIZE)
  {
    var i := k - BLOCK_SIZE;
    assert k / BLOCK_SIZE == i / BLOCK_SIZE + 1 && k % BLOCK_SIZE == i % BLOCK_SIZE;
    assert InputBlock(iv, cipher, k / BLOCK_SIZE)
      == InputBlock(cipher[..BLOCK_SIZE], cipher[BLOCK_SIZE..], i / BLOCK_SIZE);
  }

  lemma CfbOneBlock(f: BlockFunction, iv: Bytes, plain: Bytes, cipher: Bytes)
    requires MapsBlocks(f) && |iv| == BLOCK_SIZE && |plain| == |cipher| <= BLOCK_SIZE
    ensures SatisfiesCfb(f, iv, plain, cipher) <==> cipher == Xor(plain, f(iv))
  {
    forall k | 0 <= k < |cipher| ensures CfbAt(f, iv, plain, cipher, k) <==> cipher[k] == plain[k] ^ f(iv)[k] {
      CfbAtFirst(f, iv, plain, cipher, k);
    }
    if SatisfiesCfb(f, iv, plain, cipher) {
      assert forall k :: 0 <= k < |cipher| ==> CfbAt(f, iv, plain, cipher, k);
      assert cipher == Xor(plain, f(iv));
    }
  }

  /** The equation for a long message is the equation for its first block and the one for the rest. */
  lemma CfbSplit(f: BlockFunction, iv: Bytes, plain: Bytes, cipher: Bytes)
    requires MapsBlocks(f) && |iv| == BLOCK_SIZE && |plain| == |cipher| > BLOCK_SIZE
    ensures SatisfiesCfb(f, iv, plain, cipher) <==>
            && cipher[..BLOCK_SIZE] == Xor(plain[..BLOCK_SIZE], f(iv))
            && SatisfiesCfb(f, cipher[..BLOCK_SIZE], plain[BLOCK_SIZE..], cipher[BLOCK_SIZE..])
  {
    var head, p, c := cipher[..BLOCK_SIZE], plain[BLOCK_SIZE..], cipher[BLOCK_SIZE..];
    if SatisfiesCfb(f, iv, plain, cipher) {
      forall k | 0 <= k < BLOCK_SIZE ensures head[k] == plain[k] ^ f(iv)[k] {
        CfbAtFirst(f, iv, plain, cipher, k);
      }
      forall k | 0 <= k < |c| ensures CfbAt(f, head, p, c, k) {
        CfbAtRest(f, iv, plain, cipher, k + BLOCK_SIZE);
      }
    }
    if head == Xor(plain[..BLOCK_SIZE], f(iv)) && SatisfiesCfb(f, head, p, c) {
      forall k | 0 <= k < |cipher| ensures CfbAt(f, iv, plain, cipher, k) {
        if k < BLOCK_SIZE {
          CfbAtFirst(f, iv, plain, cipher, k);
          assert cipher[k] == head[k];
        } else {
          assert CfbAt(f, head, p, c, k - BLOCK_SIZE);
          CfbAtRest(f, iv, plain, cipher, k);
        }
      }
    }
  }

  lemma {:induction false} CfbLengths(f: BlockFunction, iv: Bytes, data: Bytes)
    requires MapsBlocks(f) && |iv| == BLOCK_SIZE
    ensures |CfbEncrypt(f, iv, data)| == |data| == |CfbDecrypt(f, iv, data)|
    decreases |data|
  {
    if |data| > BLOCK_SIZE {
      CfbLengths(f, Xor(data[..BLOCK_SIZE], f(iv)), data[BLOCK_SIZE..]);
      CfbLengths(f, data[..BLOCK_SIZE], data[BLOCK_SIZE..]);
    }
  }

  lemma SplitEqual(a: Bytes, head: Bytes, tail: Bytes)
    requires |a| >= |head|
    ensures a == head + tail <==> a[..|head|] == head && a[|head|..] == tail
  {
    assert a == a[..|head|] + a[|head|..];
  }

  /**
   CFB exactly: the standard's equation between a plaintext and a ciphertext of any length holds if and only
   if the one is the encryption of the other, and if and only if the other is the decryption of the one.
   */
  lemma {:induction false} CfbCharacterised(f: BlockFunction, iv: Bytes, plain: Bytes, cipher: Bytes)
    requires MapsBlocks(f) && |iv| == BLOCK_SIZE
    ensures SatisfiesCfb(f, iv, plain, cipher) <==> cipher == CfbEncrypt(f, iv, plain)
    ensures SatisfiesCfb(f, iv, plain, cipher) <==> plain == CfbDecrypt(f, iv, cipher)
    decreases |plain| + |cipher|
  {
    CfbLengths(f, iv, plain);
    CfbLengths(f, iv, cipher);
    if |plain| != |cipher| {
    } else if |plain| <= BLOCK_SIZE {
      CfbOneBlock(f, iv, plain, cipher);
      XorSwap(plain, cipher, f(iv));
    } else {
      var head, p, c := cipher[..BLOCK_SIZE], plain[BLOCK_SIZE..], cipher[BLOCK_SIZE..];
      CfbSplit(f, iv, plain, cipher);
      CfbCharacterised(f, head, p, c);
      XorSwap(plain[..BLOCK_SIZE], head, f(iv));
      SplitEqual(cipher, Xor(plain[..BLOCK_SIZE], f(iv)), CfbEncrypt(f, Xor(plain[..BLOCK_SIZE], f(iv)), p));
      SplitEqual(plain, Xor(head, f(iv)), CfbDecrypt(f, head, c));
    }
  }

  /** CFB keeps the length and decryption inverts encryption, for every block function and every length. */
  lemma CfbRoundTrip(f: BlockFunction, iv: Bytes, data: Bytes)
    requires MapsBlocks(f) && |iv| == BLOCK_SIZE
    ensures CfbDecrypt(f, iv, CfbEncrypt(f, iv, data)) == data
    ensures CfbEncrypt(f, iv, CfbDecrypt(f, iv, data)) == data
    ensures |CfbEncrypt(f, iv, data)| == |data|
  {
    CfbLengths(f, iv, data);
    CfbCharacterised(f, iv, data, CfbEncrypt(f, iv, data));
    CfbCharacterised(f, iv, CfbDecrypt(f, iv, data), data);
  }

  /** Different ciphertexts decrypt to different plaintexts. */
  lemma CfbInjective(f: BlockFunction, iv: Bytes, a: Bytes, b: Bytes)
    requires MapsBlocks(f) && |iv| == BLOCK_SIZE
    ensures CfbDecrypt(f, iv, a) == CfbDecrypt(f, iv, b) ==> a == b
  {
    CfbRoundTrip(f, iv, a);
    CfbRoundTrip(f, iv, b);
  }

  /* ---- Processors and pipelines ---- */

  datatype CodecError = EmptyPassword | CompressionFailed | DecompressionFailed

  const NONE: nat := 0
  const AES: nat := 1

  /** The state of an Encryptor or a Decryptor: both are built in the same way. */
  datatype Cryptor = Cryptor(encryption: nat, iv: Bytes, block: Option<BlockFunction>)

  datatype Processor =
    | Compressor(compression: nat)
    | Encryptor(cryptor: Cryptor)
    | Decryptor(cryptor: Cryptor)
    | Decompressor(compression: nat)

  type Pipeline = seq<Processor>

  predicate ValidCompression(compression: nat) { compression <= 5 }

  predicate ValidEncryption(encryption: nat) { encryption == NONE || encryption == AES }

  /** NewEncryptor and NewDecryptor: the key is the hash of the password, the IV its first block. */
  function NewCryptor(lib: Library, encryption: nat, password: string): Result<Cryptor, CodecError>
    requires CipherLaws(lib)
  {
    if encryption != AES then Ok(Cryptor(encryption, [], None))
    else if password == "" then Err(EmptyPassword)
    else
      var key := lib.sha256(password);
      Ok(Cryptor(encryption, key[..BLOCK_SIZE], Some(block => lib.aes(key, block))))
  }

  function NewEncodingPipeline(lib: Library, compression: nat, encryption: nat, password: string)
    : Result<Pipeline, CodecError>
    requires CipherLaws(lib)
  {
    var cryptor := NewCryptor(lib, encryption, password);
    if cryptor.Err? then Err(cryptor.error) else Ok([Compressor(compression), Encryptor(cryptor.value)])
  }

  function NewDecodingPipeline(lib: Library, compression: nat, encryption: nat, password: string)
    : Result<Pipeline, CodecError>
    requires CipherLaws(lib)
  {
    var cryptor := NewCryptor(lib, encryption, password);
    if cryptor.Err? then Err(cryptor.error) else Ok([Decryptor(cryptor.value), Decompressor(compression)])
  }

  /** A cryptor that Process does not panic on: it encrypts nothing, or has its cipher. */
  ghost predicate Usable(c: Cryptor) {
    c.encryption == NONE || (c.block.Some? && MapsBlocks(c.block.value) && |c.iv| == BLOCK_SIZE)
  }

  ghost predicate UsableProcessor(p: Processor) {
    match p
    case Compressor(compression) => ValidCompression(compression)
    case Decompressor(compression) => ValidCompression(compression)
    case Encryptor(cryptor) => Usable(cryptor)
    case Decryptor(cryptor) => Usable(cryptor)
  }

  ghost predicate UsablePipeline(pipe: Pipeline) {
    forall i :: 0 <= i < |pipe| ==> UsableProcessor(pipe[i])
  }

  function ProcessOne(lib: Library, p: Processor, data: Bytes): Result<Bytes, CodecError>
    requires UsableProcessor(p)
  {
    match p
    case Compressor(compression) =>
      if compression == NONE then Ok(data)
      else
        var r := lib.compress(compression, data);
        if r.Some? then Ok(r.value) else Err(CompressionFailed)
    case Decompressor(compression) =>
      if compression == NONE then Ok(data)
      else
        var r := lib.decompress(compression, data);
        if r.Some? then Ok(r.value) else Err(DecompressionFailed)
    case Encryptor(c) =>
      if c.encryption == NONE then Ok(data) else Ok(CfbEncrypt(c.block.value, c.iv, data))
    case Decryptor(c) =>
      if c.encryption == NONE then Ok(data) else Ok(CfbDecrypt(c.block.value, c.iv, data))
  }

  /** What a pipeline makes of the data: one processor after the other, up to the first error. */
  function Processed(lib: Library, pipe: Pipeline, data: Bytes): Result<Bytes, CodecError>
    requires UsablePipeline(pipe)
  {
    if pipe == [] then Ok(data)
    else
      var r := ProcessOne(lib, pipe[0], data);
      if r.Err? then r else Processed(lib, pipe[1..], r.value)
  }

  method Process(lib: Library, pipe: Pipeline, data: Bytes) returns (r: Result<Bytes, CodecError>)
    requires UsablePipeline(pipe)
    ensures r == Processed(lib, pipe, data)
  {
    r := Ok(data);
    for i := 0 to |pipe|
      invariant r.Ok?
      invariant Processed(lib, pipe, data) == Processed(lib, pipe[i..], r.value)
    {
      assert pipe[i..][1..] == pipe[i + 1..];
      r := ProcessOne(lib, pipe[i], r.value);
      if r.Err? { return; }
    }
  }

  lemma PipelinesUsable(lib: Library, compression: nat, encryption: nat, password: string)
    requires CipherLaws(lib) && ValidCompression(compression) && ValidEncryption(encryption)
    ensures var enc := NewEncodingPipeline(lib, compression, encryption, password);
            var dec := NewDecodingPipeline(lib, compression, encryption, password);
            && (enc.Ok? <==> dec.Ok?)
            && (enc.Err? <==> encryption == AES && password == "")
            && (enc.Ok? ==> UsablePipeline(enc.value) && UsablePipeline(dec.value))
  {
  }

  lemma OneProcessor(lib: Library, p: Processor, data: Bytes)
    requires UsableProcessor(p)
    ensures UsablePipeline([p]) && Processed(lib, [p], data) == ProcessOne(lib, p, data)
  {
    var r := ProcessOne(lib, p, data);
    assert [p][1..] == [];
    if r.Ok? { assert Processed(lib, [], r.value) == Ok(r.value); }
  }

  lemma TwoProcessors(lib: Library, p: Processor, q: Processor, data: Bytes)
    requires UsablePipeline([p, q])
    ensures UsableProcessor(p) && UsableProcessor(q)
    ensures var r := ProcessOne(lib, p, data);
            Processed(lib, [p, q], data) == if r.Err? then r else ProcessOne(lib, q, r.value)
  {
    var pipe := [p, q];
    assert pipe[0] == p && pipe[1] == q && pipe[1..] == [q];
    var r := ProcessOne(lib, pipe[0], data);
    if r.Ok? { OneProcessor(lib, q, r.value); }
    assert Processed(lib, pipe, data) == if r.Err? then r else Processed(lib, pipe[1..], r.value);
  }

  /**
   The decoding pipeline undoes the encoding pipeline: for every valid pair of algorithms, every password
   the constructors accept and every input of any length that the compressor accepts.
   */
  lemma PipelineRoundTrip(lib: Library, compression: nat, encryption: nat, password: string, data: Bytes)
    requires CipherLaws(lib) && CompressionLaws(lib) && ValidCompression(compression) && ValidEncryption(encryption)
    requires encryption == AES ==> password != ""
    ensures var enc := NewEncodingPipeline(lib, compression, encryption, password);
            var dec := NewDecodingPipeline(lib, compression, encryption, password);
            && enc.Ok? && dec.Ok? && UsablePipeline(enc.value) && UsablePipeline(dec.value)
            && var b := Processed(lib, enc.value, data);
               && (b.Ok? ==> Processed(lib, dec.value, b.value) == Ok(data))
               && (b.Err? <==> compression != NONE && lib.compress(compression, data).None?)
  {
    PipelinesUsable(lib, compression, encryption, password);
    var enc := NewEncodingPipeline(lib, compression, encryption, password).value;
    var dec := NewDecodingPipeline(lib, compression, encryption, password).value;
    TwoProcessors(lib, enc[0], enc[1], data);
    var compressed := ProcessOne(lib, enc[0], data);
    if compressed.Ok? {
      var c := enc[1].cryptor;
      assert dec[0].cryptor == c;
      var b := ProcessOne(lib, enc[1], compressed.value).value;
      TwoProcessors(lib, dec[0], dec[1], b);
      if c.encryption == AES {
        CfbRoundTrip(c.block.value, c.iv, compressed.value);
      }
      assert ProcessOne(lib, dec[0], b) == Ok(compressed.value);
    }
  }

  /** Without compression decoding never fails, and different inputs decode differently. */
  lemma PlainDecoding(lib: Library, encryption: nat, password: string, a: Bytes, b: Bytes)
    requires CipherLaws(lib) && ValidEncryption(encryption) && (encryption == AES ==> password != "")
    ensures var dec := NewDecodingPipeline(lib, NONE, encryption, password);
            && dec.Ok? && UsablePipeline(dec.value)
            && Processed(lib, dec.value, a).Ok? && Processed(lib, dec.value, b).Ok?
            && (Processed(lib, dec.value, a) == Processed(lib, dec.value, b) ==> a == b)
  {
    PipelinesUsable(lib, NONE, encryption, password);
    var dec := NewDecodingPipeline(lib, NONE, encryption, password).value;
    TwoProcessors(lib, dec[0], dec[1], a);
    TwoProcessors(lib, dec[0], dec[1], b);
    if encryption == AES {
      CfbInjective(dec[0].cryptor.block.value, dec[0].cryptor.iv, a, b);
    }
  }

  /* ---- What the pipelines compute ---- */

  /** The data after compression; None if the compressor refuses it. */
  function Compressed(lib: Library, compression: nat, data: Bytes): Option<Bytes> {
    if compression == NONE then Some(data) else lib.compress(compression, data)
  }

  /**
   `cipher` is `plain` under the encryption: the same bytes without one, and otherwise what the equation of CFB mode
   makes of it with AES, the SHA-256 of the password as the key and the key's first block as the IV.
   */
  ghost predicate Enciphered(lib: Library, encryption: nat, password: string, plain: Bytes, cipher: Bytes)
    requires CipherLaws(lib)
  {
    if encryption == NONE then cipher == plain
    else SatisfiesCfb(block => lib.aes(lib.sha256(password), block), lib.sha256(password)[..BLOCK_SIZE], plain, cipher)
  }

  /** The equation depends on what the block function does and not on how it is given. */
  lemma SameEquation(f: BlockFunction, g: BlockFunction, iv: Bytes, plain: Bytes, cipher: Bytes)
    requires MapsBlocks(f) && MapsBlocks(g) && |iv| == BLOCK_SIZE && forall block :: f(block) == g(block)
    ensures SatisfiesCfb(f, iv, plain, cipher) <==> SatisfiesCfb(g, iv, plain, cipher)
  {
    if |plain| == |cipher| {
      forall k | 0 <= k < |cipher| ensures CfbAt(f, iv, plain, cipher, k) <==> CfbAt(g, iv, plain, cipher, k) { }
    }
  }

  /** What a cryptor does, in terms of the equation. */
  lemma CryptorExact(lib: Library, encryption: nat, password: string, plain: Bytes, cipher: Bytes)
    requires CipherLaws(lib) && ValidEncryption(encryption) && (encryption == AES ==> password != "")
    ensures var c := NewCryptor(lib, encryption, password);
            && c.Ok? && Usable(c.value)
            && (ProcessOne(lib, Encryptor(c.value), plain) == Ok(cipher)
                <==> Enciphered(lib, encryption, password, plain, cipher))
            && (ProcessOne(lib, Decryptor(c.value), cipher) == Ok(plain)
                <==> Enciphered(lib, encryption, password, plain, cipher))
  {
    if encryption == AES {
      var c, key := NewCryptor(lib, encryption, password).value, lib.sha256(password);
      SameEquation(c.block.value, block => lib.aes(key, block), c.iv, plain, cipher);
      CfbCharacterised(c.block.value, c.iv, plain, cipher);
    }
  }

  /**
   What the encoding pipeline stores, exactly: the compressed data, encrypted as the equation says under the key of the
   password; an error if and only if the compressor refuses the data.
   */
  lemma EncodingExact(lib: Library, compression: nat, encryption: nat, password: string, data: Bytes, b: Bytes)
    requires CipherLaws(lib) && ValidCompression(compression) && ValidEncryption(encryption)
    requires encryption == AES ==> password != ""
    ensures var enc := NewEncodingPipeline(lib, compression, encryption, password);
            var z := Compressed(lib, compression, data);
            && enc.Ok? && UsablePipeline(enc.value)
            && (z.None? ==> Processed(lib, enc.value, data) == Err(CompressionFailed))
            && (z.Some? ==>
                  && Processed(lib, enc.value, data).Ok?
                  && (Processed(lib, enc.value, data) == Ok(b) <==> Enciphered(lib, encryption, password, z.value, b)))
  {
    PipelinesUsable(lib, compression, encryption, password);
    var enc := NewEncodingPipeline(lib, compression, encryption, password).value;
    TwoProcessors(lib, enc[0], enc[1], data);
    if Compressed(lib, compression, data).Some? {
      CryptorExact(lib, encryption, password, Compressed(lib, compression, data).value, b);
    }
  }

  /**
   What the decoding pipeline makes of any bytes, exactly: there is just one text that they are the encryption of, and
   the result is what the decompressor makes of it, or its error.
   */
  lemma DecodingExact(lib: Library, compression: nat, encryption: nat, password: string, b: Bytes) returns (z: Bytes)
    requires CipherLaws(lib) && ValidCompression(compression) && ValidEncryption(encryption)
    requires encryption == AES ==> password != ""
    ensures Enciphered(lib, encryption, password, z, b)
    ensures forall y | Enciphered(lib, encryption, password, y, b) :: y == z
    ensures var dec := NewDecodingPipeline(lib, compression, encryption, password);
            && dec.Ok? && UsablePipeline(dec.value)
            && Processed(lib, dec.value, b)
               == if compression == NONE then Ok(z)
                  else if lib.decompress(compression, z).Some? then Ok(lib.decompress(compression, z).value)
                  else Err(DecompressionFailed)
  {
    PipelinesUsable(lib, compression, encryption, password);
    var dec := NewDecodingPipeline(lib, compression, encryption, password).value;
    z := ProcessOne(lib, dec[0], b).value;
    TwoProcessors(lib, dec[0], dec[1], b);
    CryptorExact(lib, encryption, password, z, b);
    forall y | Enciphered(lib, encryption, password, y, b) ensures y == z {
      CryptorExact(lib, encryption, password, y, b);
    }
  }
}
