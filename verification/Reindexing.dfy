/**
 How canonical a rebuilt index is (chunkindex.go, reindex and AddArchive): references do not depend on the order
 in which archives are visited; part counts are those of the first chunk that is visited with a hash.
 */
module Reindexing {
  import opened Basics
  import opened Archives
  import opened ChunkIndexing

  function ListedBy(id: string): Volume -> nat { (v: Volume) => Count(v.snapshots, id) }

  /** How often an id is listed. */
  function Listings(volumes: seq<Volume>, id: string): nat { Sum(ListedBy(id), volumes) }

  /** A listed id loads the snapshot that carries it. */
  predicate OwnIds(volumes: seq<Volume>, load: string -> Option<Snapshot>) {
    forall v | v in volumes :: forall id | id in v.snapshots && load(id).Some? :: load(id).value.id == id
  }

  lemma {:induction false} OccurrencesInVolume(
      ids: seq<string>, load: string -> Option<Snapshot>, h: string, s: string, i: nat)
    requires i <= |ids| && load(s).Some? && load(s).value.id == s
    requires forall id | id in ids && load(id).Some? :: load(id).value.id == id
    ensures Sum(InListed(load, h, s), ids[..i]) == Count(ids[..i], s) * InSnapshot(load(s).value, h)
  {
    if i > 0 {
      OccurrencesInVolume(ids, load, h, s, i - 1);
      SumNext(InListed(load, h, s), ids, i - 1);
      assert ids[..i] == ids[..i - 1] + [ids[i - 1]];
      CountNext(ids[..i - 1], ids[i - 1], s);
      assert ids[i - 1] in ids;
      Distribute(Count(ids[..i - 1], s), if ids[i - 1] == s then 1 else 0, InSnapshot(load(s).value, h));
    }
  }

  lemma OccurrencesPerListing(volumes: seq<Volume>, load: string -> Option<Snapshot>, h: string, s: string)
    requires load(s).Some? && load(s).value.id == s && OwnIds(volumes, load)
    ensures Occurrences(volumes, load, h, s) == Listings(volumes, s) * InSnapshot(load(s).value, h)
  {
    var n := InSnapshot(load(s).value, h);
    forall v | v in volumes ensures InVolume(load, h, s)(v) == ListedBy(s)(v) * n {
      OccurrencesInVolume(v.snapshots, load, h, s, |v.snapshots|);
      assert v.snapshots[..|v.snapshots|] == v.snapshots;
    }
    SumScaled(InVolume(load, h, s), ListedBy(s), n, volumes);
  }

  /**
   Reindexing is canonical: the index rebuilt from a listing has, for any visiting order, snapshot `s` under
   hash `h` exactly as often as `h` occurs among the chunks of `s`, for every snapshot that is listed once.
   */
  lemma ReindexCanonical(volumes: seq<Volume>, load: string -> Option<Snapshot>, uses: seq<Use>, h: string, s: string)
    requires ListingUses(uses, volumes, load) && OwnIds(volumes, load) && load(s).Some? && load(s).value.id == s
    ensures KeysMatch(WithUses(map[], uses))
    ensures Refs(WithUses(map[], uses), h, s) == Listings(volumes, s) * InSnapshot(load(s).value, h)
    ensures Listings(volumes, s) == 1 ==> Refs(WithUses(map[], uses), h, s) == InSnapshot(load(s).value, h)
  {
    RebuiltRefs(map[], uses, volumes, load);
    StillKeysMatch(map[], uses);
    OccurrencesPerListing(volumes, load, h, s);
  }

  function ItemOf(c: Chunk): Item { Item(c.hash, c.dataParts, c.parityParts, c.size, []) }

  predicate FirstWith(uses: seq<Use>, h: string, i: int) {
    0 <= i < |uses| && uses[i].chunk.hash == h && forall j :: 0 <= j < i ==> uses[j].chunk.hash != h
  }

  /** An item's part counts and size are those of the first chunk seen with its hash. */
  lemma {:induction false} CountsOfFirst(uses: seq<Use>, h: string)
    ensures h in WithUses(map[], uses) <==> exists i :: 0 <= i < |uses| && uses[i].chunk.hash == h
    ensures forall i | FirstWith(uses, h, i) ::
      h in WithUses(map[], uses) && WithUses(map[], uses)[h].(snapshots := []) == ItemOf(uses[i].chunk)
  {
    if uses != [] {
      var front, last := uses[..|uses| - 1], uses[|uses| - 1];
      CountsOfFirst(front, h);
      assert forall i :: 0 <= i < |front| ==> front[i] == uses[i];
      forall i | FirstWith(uses, h, i)
        ensures h in WithUses(map[], uses) && WithUses(map[], uses)[h].(snapshots := []) == ItemOf(uses[i].chunk)
      {
        if i < |front| { assert FirstWith(front, h, i); }
      }
      if h in WithUses(map[], uses) && last.chunk.hash != h {
        var i :| 0 <= i < |front| && front[i].chunk.hash == h;
        assert uses[i].chunk.hash == h;
      }
    }
  }

  /** Chunks with the same hash have the same part counts and size. */
  predicate AgreeingCounts(uses: seq<Use>) {
    forall i, j :: 0 <= i < |uses| && 0 <= j < |uses| && uses[i].chunk.hash == uses[j].chunk.hash ==>
      ItemOf(uses[i].chunk) == ItemOf(uses[j].chunk)
  }

  lemma {:induction false} FirstExists(uses: seq<Use>, h: string, i: nat) returns (first: nat)
    requires i < |uses| && uses[i].chunk.hash == h
    ensures FirstWith(uses, h, first)
    decreases i
  {
    if j: nat :| j < i && uses[j].chunk.hash == h {
      first := FirstExists(uses, h, j);
    } else {
      first := i;
    }
  }

  lemma {:induction false} TimesPositive(uses: seq<Use>, i: nat)
    requires i < |uses|
    ensures Times(uses, uses[i].chunk.hash, uses[i].snapshot) > 0
  {
    if i < |uses| - 1 { TimesPositive(uses[..|uses| - 1], i); }
  }

  lemma {:induction false} TimesWitness(uses: seq<Use>, h: string, s: string) returns (i: nat)
    requires Times(uses, h, s) > 0
    ensures i < |uses| && uses[i] == Use(uses[i].chunk, s) && uses[i].chunk.hash == h
  {
    var last := uses[|uses| - 1];
    if last.chunk.hash == h && last.snapshot == s {
      i := |uses| - 1;
    } else {
      i := TimesWitness(uses[..|uses| - 1], h, s);
    }
  }

  /** Where one order has a chunk with a hash, so does the other. */
  lemma SameHashes(uses: seq<Use>, uses': seq<Use>, i: nat) returns (j: nat)
    requires forall h, s :: Times(uses, h, s) == Times(uses', h, s)
    requires i < |uses|
    ensures j < |uses'| && uses'[j].chunk.hash == uses[i].chunk.hash
  {
    TimesPositive(uses, i);
    j := TimesWitness(uses', uses[i].chunk.hash, uses[i].snapshot);
  }

  /** The orders see the same counts first for hash `h`. */
  ghost predicate SameFirst(uses: seq<Use>, uses': seq<Use>, h: string) {
    forall i, i' | FirstWith(uses, h, i) && FirstWith(uses', h, i') :: ItemOf(uses[i].chunk) == ItemOf(uses'[i'].chunk)
  }

  ghost predicate SameItem(ix: Index, ix': Index, h: string) {
    && (h in ix <==> h in ix')
    && (h in ix && h in ix' ==> ix[h].(snapshots := []) == ix'[h].(snapshots := []))
  }

  lemma SameKey(uses: seq<Use>, uses': seq<Use>, h: string)
    requires forall h, s :: Times(uses, h, s) == Times(uses', h, s)
    ensures h in WithUses(map[], uses) ==> h in WithUses(map[], uses')
  {
    CountsOfFirst(uses, h);
    CountsOfFirst(uses', h);
    if i: nat :| i < |uses| && uses[i].chunk.hash == h {
      var j := SameHashes(uses, uses', i);
    }
  }

  lemma SameItemIff(uses: seq<Use>, uses': seq<Use>, h: string)
    requires forall h, s :: Times(uses, h, s) == Times(uses', h, s)
    ensures SameItem(WithUses(map[], uses), WithUses(map[], uses'), h) <==> SameFirst(uses, uses', h)
  {
    SameKey(uses, uses', h);
    SameKey(uses', uses, h);
    CountsOfFirst(uses, h);
    CountsOfFirst(uses', h);
    if i: nat :| i < |uses| && uses[i].chunk.hash == h {
      var j := SameHashes(uses, uses', i);
      var f := FirstExists(uses, h, i);
      var f' := FirstExists(uses', h, j);
      assert FirstWith(uses, h, f) && FirstWith(uses', h, f');
    }
  }

  /** The same index but for the order of the lists. */
  ghost predicate SameButOrder(ix: Index, ix': Index) {
    && (forall h :: SameItem(ix, ix', h))
    && (forall h, s :: Refs(ix, h, s) == Refs(ix', h, s))
  }

  /**
   Two visiting orders of the same chunks give indexes that differ in nothing but the order of their lists if
   and only if they agree, for every hash, on the counts that come first.
   */
  lemma OrderMattersOnlyForCounts(uses: seq<Use>, uses': seq<Use>)
    requires forall h, s :: Times(uses, h, s) == Times(uses', h, s)
    ensures SameButOrder(WithUses(map[], uses), WithUses(map[], uses')) <==> forall h :: SameFirst(uses, uses', h)
  {
    forall h, s ensures Refs(WithUses(map[], uses), h, s) == Refs(WithUses(map[], uses'), h, s) {
      RefsOfWithUses(map[], uses, h, s);
      RefsOfWithUses(map[], uses', h, s);
    }
    forall h ensures SameItem(WithUses(map[], uses), WithUses(map[], uses'), h) <==> SameFirst(uses, uses', h) {
      SameItemIff(uses, uses', h);
    }
  }

  /** That is so when equal hashes mean equal counts: when the repository's backends have never changed. */
  lemma OrderDoesNotMatter(uses: seq<Use>, uses': seq<Use>)
    requires forall h, s :: Times(uses, h, s) == Times(uses', h, s)
    requires AgreeingCounts(uses + uses')
    ensures SameButOrder(WithUses(map[], uses), WithUses(map[], uses'))
  {
    forall h ensures SameFirst(uses, uses', h) {
      forall i, i' | FirstWith(uses, h, i) && FirstWith(uses', h, i')
        ensures ItemOf(uses[i].chunk) == ItemOf(uses'[i'].chunk)
      {
        assert (uses + uses')[i] == uses[i] && (uses + uses')[|uses| + i'] == uses'[i'];
      }
    }
    OrderMattersOnlyForCounts(uses, uses');
  }

  /**
   Otherwise it does: two chunks with one hash, stored under tolerance 1 when the repository had three and four
   backends.
   */
  lemma OrderCanMatter()
    ensures var two, three := Use(Chunk(2, 1, 1, 1, "d", "h", 0), "s"), Use(Chunk(3, 1, 1, 1, "d", "h", 0), "t");
            && (forall h, s :: Times([two, three], h, s) == Times([three, two], h, s))
            && WithUses(map[], [two, three])["h"].dataParts == 2
            && WithUses(map[], [three, two])["h"].dataParts == 3
  {
    var two, three := Use(Chunk(2, 1, 1, 1, "d", "h", 0), "s"), Use(Chunk(3, 1, 1, 1, "d", "h", 0), "t");
    assert [two, three][..1] == [two] && [three, two][..1] == [three] && [two][..0] == [] && [three][..0] == [];
    CountsOfFirst([two, three], "h");
    CountsOfFirst([three, two], "h");
    assert FirstWith([two, three], "h", 0) && FirstWith([three, two], "h", 0);
    forall h, s ensures Times([two, three], h, s) == Times([three, two], h, s) {
      assert [two, three] == [two] + [three] && [three, two] == [three] + [two];
      TimesAppend([two], [three], h, s);
      TimesAppend([three], [two], h, s);
    }
  }
}
