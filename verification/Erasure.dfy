/**
 Erasure coding of an encoded chunk (redundancy.go) over an abstract Reed-Solomon code: splitting into
 data shards and joining them are written out, the parity arithmetic is a parameter with one law. The
 law is not vacuous: with one parity shard, bytewise xor satisfies it.
 */
module Erasure {
  import opened Basics
  import opened Libraries

  /** What the library accepts: at least one data and one parity shard, at most 256 shards. */
  predicate ValidCounts(k: nat, m: nat) { k > 0 && m > 0 && k + m <= 256 }

  function Zeros(n: nat): (r: Bytes)
    ensures |r| == n
  {
    seq(n, _ => 0)
  }

  lemma OneLess(size: nat, k: nat)
    requires k > 0
    ensures size * k == size * (k - 1) + size && size * (k - 1) >= 0
  {
  }

  /** Cut into `k` pieces of `size` bytes. */
  function Cut(data: Bytes, size: nat, k: nat): (r: seq<Bytes>)
    requires |data| == size * k
    ensures |r| == k
    ensures forall i :: 0 <= i < k ==> |r[i]| == size
  {
    if k == 0 then []
    else
      OneLess(size, k);
      [data[..size]] + Cut(data[size..], size, k - 1)
  }

  lemma {:induction false} CutFlatten(data: Bytes, size: nat, k: nat)
    requires |data| == size * k
    ensures Flatten(Cut(data, size, k)) == data
  {
    if k > 0 {
      OneLess(size, k);
      CutFlatten(data[size..], size, k - 1);
      assert Cut(data, size, k)[1..] == Cut(data[size..], size, k - 1);
    }
  }

  function ShardSize(length: nat, k: nat): nat
    requires k > 0
  {
    (length + k - 1) / k
  }

  lemma ShardSizeCovers(length: nat, k: nat)
    requires k > 0
    ensures length <= ShardSize(length, k) * k
    ensures length > 0 ==> ShardSize(length, k) > 0 && (ShardSize(length, k) - 1) * k < length
  {
    var q, r := (length + k - 1) / k, (length + k - 1) % k;
    assert length + k - 1 == q * k + r && r < k;
  }

  /** reedsolomon.Split: equal shards, the last ones padded with zeros; empty data cannot be split. */
  function Split(data: Bytes, k: nat): (r: Option<seq<Bytes>>)
    requires k > 0
    ensures r.Some? <==> data != []
    ensures r.Some? ==> ShardSet(r.value, k)
  {
    if data == [] then None
    else
      var size := ShardSize(|data|, k);
      ShardSizeCovers(|data|, k);
      Some(Cut(data + Zeros(size * k - |data|), size, k))
  }

  /** The byte at place `p` of shard `i`: that of the data, and zero behind its end. */
  function ShardByte(data: Bytes, size: nat, i: nat, p: nat): Byte {
    if size * i + p < |data| then data[size * i + p] else 0
  }

  lemma {:induction false} CutAt(data: Bytes, size: nat, k: nat, i: nat, p: nat)
    requires |data| == size * k && i < k && p < size
    ensures 0 <= size * i + p < |data| && Cut(data, size, k)[i][p] == data[size * i + p]
  {
    OneLess(size, k);
    if i > 0 {
      OneLess(size, i);
      CutAt(data[size..], size, k - 1, i - 1, p);
    }
  }

  /** Splitting, byte by byte: shards of the least size that is enough, cut from the data padded with zeros. */
  lemma SplitExact(data: Bytes, k: nat, i: nat, p: nat)
    requires k > 0 && data != [] && i < k && p < |Split(data, k).value[0]|
    ensures var size := |Split(data, k).value[0]|;
            && (size - 1) * k < |data| <= size * k
            && |Split(data, k).value[i]| == size
            && Split(data, k).value[i][p] == ShardByte(data, size, i, p)
  {
    var size := ShardSize(|data|, k);
    ShardSizeCovers(|data|, k);
    CutAt(data + Zeros(size * k - |data|), size, k, i, p);
  }

  /** `k` shards of one positive size. */
  predicate ShardSet(shards: seq<Bytes>, k: nat) {
    && |shards| == k > 0
    && |shards[0]| > 0
    && forall i :: 0 <= i < k ==> |shards[i]| == |shards[0]|
  }

  /** reedsolomon.Join on the data shards: the first `size` bytes, unless a shard before them is missing. */
  function Join(shards: seq<Option<Bytes>>, size: nat): (r: Option<Bytes>)
    ensures r.Some? ==> |r.value| == size
  {
    if shards == [] then (if size == 0 then Some([]) else None)
    else if shards[0].None? then None
    else if |shards[0].value| >= size then Some(shards[0].value[..size])
    else
      var rest := Join(shards[1..], size - |shards[0].value|);
      if rest.None? then None else Some(shards[0].value + rest.value)
  }

  /** The shards of a slice with gaps that are there, in order. */
  function Known(shards: seq<Option<Bytes>>): (r: seq<Bytes>)
    ensures |r| <= |shards|
    ensures forall b :: b in r ==> Some(b) in shards
  {
    if shards == [] then []
    else (if shards[0].Some? then [shards[0].value] else []) + Known(shards[1..])
  }

  function AllKnown(full: seq<Bytes>): (r: seq<Option<Bytes>>)
    ensures |r| == |full|
    ensures forall i :: 0 <= i < |r| ==> r[i] == Some(full[i])
  {
    seq(|full|, i requires 0 <= i < |full| => Some(full[i]))
  }

  /** Some shards of `full` are lost; the others are intact. */
  ghost predicate Erased(shards: seq<Option<Bytes>>, full: seq<Bytes>) {
    |shards| == |full| && forall i :: 0 <= i < |full| ==> shards[i].None? || shards[i] == Some(full[i])
  }

  /** The law of the code: parity has the shards' size, and any `k` of the `k + m` shards give back all of them. */
  ghost predicate Lawful(lib: Library, k: nat, m: nat) {
    forall data | ShardSet(data, k) :: Recoverable(lib, k, m, data)
  }

  ghost predicate Recoverable(lib: Library, k: nat, m: nat, data: seq<Bytes>) {
    && |lib.parity(data, m)| == m
    && forall shards | Erased(shards, data + lib.parity(data, m)) && |Known(shards)| >= k ::
         lib.rebuild(k, m, shards) == Some(AllKnown(data + lib.parity(data, m)))
  }

  /** The shards that are there have `size` bytes. */
  predicate OfSize(shards: seq<Option<Bytes>>, size: nat) {
    forall i :: 0 <= i < |shards| && shards[i].Some? ==> |shards[i].value| == size
  }

  /**
   The other law of the code: whatever `k` or more shards of one positive size hold, rebuilding fills every gap
   with a shard of that size.
   */
  ghost predicate Completes(lib: Library, k: nat, m: nat) {
    forall shards, size: nat | |shards| == k + m && size > 0 && OfSize(shards, size) && |Known(shards)| >= k ::
      Completed(lib.rebuild(k, m, shards), k + m, size)
  }

  predicate Completed(rebuilt: Option<seq<Option<Bytes>>>, n: nat, size: nat) {
    && rebuilt.Some? && |rebuilt.value| == n && OfSize(rebuilt.value, size)
    && forall i :: 0 <= i < n ==> rebuilt.value[i].Some?
  }

  /** redundantData: the data shards followed by the parity shards; None is an error of the library. */
  function RedundantData(lib: Library, data: Bytes, k: nat, m: nat): Option<seq<Bytes>> {
    if !ValidCounts(k, m) then None
    else
      var shards := Split(data, k);
      if shards.None? then None else Some(shards.value + lib.parity(shards.value, m))
  }

  lemma {:induction false} JoinAllKnown(shards: seq<Bytes>, size: nat)
    requires size <= |Flatten(shards)|
    ensures Join(AllKnown(shards), size) == Some(Flatten(shards)[..size])
  {
    if shards != [] {
      assert AllKnown(shards)[1..] == AllKnown(shards[1..]);
      if |shards[0]| < size {
        JoinAllKnown(shards[1..], size - |shards[0]|);
        assert Flatten(shards)[..size] == shards[0] + Flatten(shards[1..])[..size - |shards[0]|];
      } else {
        assert Flatten(shards)[..size] == shards[0][..size];
      }
    }
  }

  /** Joining the data shards of a chunk gives its bytes, without the padding. */
  lemma JoinSplit(data: Bytes, k: nat)
    requires k > 0 && data != []
    ensures Join(AllKnown(Split(data, k).value), |data|) == Some(data)
  {
    var size := ShardSize(|data|, k);
    ShardSizeCovers(|data|, k);
    var padded := data + Zeros(size * k - |data|);
    CutFlatten(padded, size, k);
    JoinAllKnown(Cut(padded, size, k), |data|);
  }

  lemma SizeOfMore(k: nat, size: nat)
    requires k > 0
    ensures k * size == size + (k - 1) * size
  {
  }

  /** Shards that are all there, and long enough together, can be joined. */
  lemma {:induction false} JoinOfSize(shards: seq<Option<Bytes>>, size: nat, wanted: nat)
    requires OfSize(shards, size) && (forall i :: 0 <= i < |shards| ==> shards[i].Some?) && wanted <= |shards| * size
    ensures Join(shards, wanted).Some?
  {
    if shards != [] {
      SizeOfMore(|shards|, size);
      assert |shards[0].value| == size;
      if size < wanted {
        assert forall i :: 0 <= i < |shards[1..]| ==> shards[1..][i] == shards[i + 1];
        JoinOfSize(shards[1..], size, wanted - size);
      }
    }
  }

  /** Any `k` intact shards are enough: rebuilding the rest and joining gives the data back. */
  lemma AnyShardsSuffice(lib: Library, data: Bytes, k: nat, m: nat, shards: seq<Option<Bytes>>)
    requires RedundantData(lib, data, k, m).Some? && Lawful(lib, k, m)
    requires Erased(shards, RedundantData(lib, data, k, m).value) && |Known(shards)| >= k
    ensures var full := RedundantData(lib, data, k, m).value;
            && |full| == k + m
            && lib.rebuild(k, m, shards) == Some(AllKnown(full))
            && Join(AllKnown(full)[..k], |data|) == Some(data)
  {
    var ds := Split(data, k).value;
    assert Recoverable(lib, k, m, ds);
    assert AllKnown(ds + lib.parity(ds, m))[..k] == AllKnown(ds);
    JoinSplit(data, k);
  }

  /** The first `k` shards need no rebuilding. */
  lemma DataShardsSuffice(lib: Library, data: Bytes, k: nat, m: nat, shards: seq<Option<Bytes>>)
    requires RedundantData(lib, data, k, m).Some? && Lawful(lib, k, m)
    requires Erased(shards, RedundantData(lib, data, k, m).value)
    requires forall i :: 0 <= i < k ==> shards[i].Some?
    ensures Join(shards[..k], |data|) == Some(data)
  {
    var ds := Split(data, k).value;
    assert Recoverable(lib, k, m, ds);
    assert shards[..k] == AllKnown(ds);
    JoinSplit(data, k);
  }

  /* ---- One concrete code: a single parity shard, the xor of the data shards ---- */

  function XorAt(shards: seq<Bytes>, p: nat): Byte {
    if shards == [] then 0 else (if p < |shards[0]| then shards[0][p] else 0) ^ XorAt(shards[1..], p)
  }

  function XorShards(shards: seq<Bytes>, size: nat): (r: Bytes)
    ensures |r| == size
    ensures forall p :: 0 <= p < size ==> r[p] == XorAt(shards, p)
  {
    seq(size, p requires 0 <= p < size => XorAt(shards, p))
  }

  function XorParity(data: seq<Bytes>, m: nat): seq<Bytes> {
    if m == 1 && data != [] then [XorShards(data, |data[0]|)] else []
  }

  function XorRebuild(k: nat, m: nat, shards: seq<Option<Bytes>>): Option<seq<Option<Bytes>>> {
    var known := Known(shards);
    if m != 1 || k == 0 || |shards| != k + 1 || |known| < k then None
    else
      Some(seq(k + 1, i requires 0 <= i < k + 1 =>
        if shards[i].Some? then shards[i] else Some(XorShards(known, |known[0]|))))
  }

  lemma ByteXor(a: Byte, b: Byte, c: Byte)
    ensures a ^ a == 0 && 0 ^ a == a && a ^ 0 == a
    ensures (a ^ b) ^ c == a ^ (b ^ c)
    ensures a ^ b == b ^ a
    ensures a ^ b == 0 ==> a == b
  {
  }

  lemma {:induction false} XorAtAppend(shards: seq<Bytes>, last: Bytes, p: nat)
    ensures XorAt(shards + [last], p) == XorAt(shards, p) ^ if p < |last| then last[p] else 0
  {
    var own: Byte := if p < |last| then last[p] else 0;
    if shards == [] {
      assert shards + [last] == [last] && [last][1..] == [];
      ByteXor(own, 0, 0);
    } else {
      assert (shards + [last])[1..] == shards[1..] + [last];
      XorAtAppend(shards[1..], last, p);
      ByteXor(if p < |shards[0]| then shards[0][p] else 0, XorAt(shards[1..], p), own);
    }
  }

  /** The xor of the shards that are missing. */
  function XorLost(shards: seq<Option<Bytes>>, full: seq<Bytes>, p: nat): Byte
    requires |shards| == |full|
  {
    if shards == [] then 0
    else (if shards[0].None? && p < |full[0]| then full[0][p] else 0) ^ XorLost(shards[1..], full[1..], p)
  }

  lemma {:induction false} XorKnownLost(shards: seq<Option<Bytes>>, full: seq<Bytes>, p: nat)
    requires Erased(shards, full)
    ensures XorAt(full, p) == XorAt(Known(shards), p) ^ XorLost(shards, full, p)
  {
    if shards != [] {
      assert Erased(shards[1..], full[1..]) by {
        assert forall i :: 0 <= i < |full[1..]| ==> full[1..][i] == full[i + 1] && shards[1..][i] == shards[i + 1];
      }
      XorKnownLost(shards[1..], full[1..], p);
      var own: Byte := if p < |full[0]| then full[0][p] else 0;
      var known, lost := XorAt(Known(shards[1..]), p), XorLost(shards[1..], full[1..], p);
      if shards[0].Some? {
        assert Known(shards)[1..] == Known(shards[1..]);
        ByteXor(own, known, lost);
        ByteXor(0, lost, 0);
        ByteXor(lost, 0, 0);
      } else {
        assert Known(shards) == Known(shards[1..]);
        ByteXor(own, known, lost);
        ByteXor(known, own, lost);
      }
    } else {
      ByteXor(0, 0, 0);
    }
  }

  lemma {:induction false} NoneLost(shards: seq<Option<Bytes>>, full: seq<Bytes>, p: nat)
    requires |shards| == |full| == |Known(shards)|
    ensures XorLost(shards, full, p) == 0 && forall i :: 0 <= i < |shards| ==> shards[i].Some?
  {
    if shards != [] {
      NoneLost(shards[1..], full[1..], p);
      ByteXor(0, 0, 0);
      assert forall i :: 0 < i < |shards| ==> shards[i] == shards[1..][i - 1];
    }
  }

  lemma {:induction false} OneLost(shards: seq<Option<Bytes>>, full: seq<Bytes>, p: nat, j: nat)
    requires |shards| == |full| == |Known(shards)| + 1 && j < |shards| && shards[j].None? && p < |full[j]|
    ensures XorLost(shards, full, p) == full[j][p]
  {
    var own: Byte := full[j][p];
    if shards[0].None? {
      NoneLost(shards[1..], full[1..], p);
      ByteXor(own, 0, 0);
    } else {
      OneLost(shards[1..], full[1..], p, j - 1);
      ByteXor(own, 0, 0);
    }
  }

  /** The abstract code's law can be met: xor meets it for one parity shard and any number of data shards. */
  lemma XorCodeIsLawful(lib: Library, k: nat)
    requires lib.parity == XorParity && lib.rebuild == XorRebuild
    ensures Lawful(lib, k, 1)
  {
    forall data | ShardSet(data, k) ensures Recoverable(lib, k, 1, data) {
      var parity := XorShards(data, |data[0]|);
      var full := data + lib.parity(data, 1);
      assert full == data + [parity];
      forall shards | Erased(shards, full) && |Known(shards)| >= k
        ensures lib.rebuild(k, 1, shards) == Some(AllKnown(full))
      {
        XorRebuilds(data, k, shards);
      }
    }
  }

  lemma XorRebuilds(data: seq<Bytes>, k: nat, shards: seq<Option<Bytes>>)
    requires ShardSet(data, k)
    requires Erased(shards, data + [XorShards(data, |data[0]|)]) && |Known(shards)| >= k
    ensures XorRebuild(k, 1, shards) == Some(AllKnown(data + [XorShards(data, |data[0]|)]))
  {
    var size, full := |data[0]|, data + [XorShards(data, |data[0]|)];
    var known := Known(shards);
    forall b | b in known ensures |b| == size {
      var i :| 0 <= i < |shards| && shards[i] == Some(b);
      assert full[i] == b;
    }
    forall j | 0 <= j < k + 1 && shards[j].None? ensures XorShards(known, |known[0]|) == full[j] {
      if |known| == k + 1 {
        NoneLost(shards, full, 0);
      }
      forall p | 0 <= p < size ensures XorAt(known, p) == full[j][p] {
        XorAtAppend(data, XorShards(data, size), p);
        ByteXor(XorAt(data, p), 0, 0);
        XorKnownLost(shards, full, p);
        OneLost(shards, full, p, j);
        ByteXor(XorAt(known, p), full[j][p], 0);
      }
    }
    var rebuilt := XorRebuild(k, 1, shards).value;
    forall i | 0 <= i < k + 1 ensures rebuilt[i] == Some(full[i]) {
      assert shards[i].Some? ==> shards[i] == Some(full[i]);
    }
    assert rebuilt == AllKnown(full);
  }

  /** Xor also meets the law about sizes. */
  lemma XorCodeCompletes(lib: Library, k: nat)
    requires lib.rebuild == XorRebuild && k > 0
    ensures Completes(lib, k, 1)
  {
    forall shards, size: nat | |shards| == k + 1 && size > 0 && OfSize(shards, size) && |Known(shards)| >= k
      ensures Completed(lib.rebuild(k, 1, shards), k + 1, size)
    {
      var known := Known(shards);
      assert known[0] in known;
      var i :| 0 <= i < |shards| && shards[i] == Some(known[0]);
      assert |known[0]| == size;
    }
  }
}
