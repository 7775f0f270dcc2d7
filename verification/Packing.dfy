/**
 What a pack deletes (chunkindex.go, Pack; backendmanager.go, DeleteChunk): exactly one copy of every part of
 every unused item, in whatever order the items are visited, and nothing else.
 */
module Packing {
  import opened Basics
  import opened Backends
  import opened Resilience
  import opened Archives
  import opened ChunkIndexing
  import opened Reindexing

  function Parts(item: Item): nat { item.dataParts + item.parityParts }

  /** One if `key` is one of the item's parts from `i` on. */
  function Takes(item: Item, i: nat, key: PartKey): nat { if PartOfItem(item, key) && key.part >= i then 1 else 0 }

  /** The part loop takes one copy of each part it gets to, and never touches another part. */
  lemma {:induction false} DeletePartsCopies(bs: seq<Backend>, item: Item, i: nat, freed: nat, key: PartKey)
    requires i <= Parts(item)
    ensures var r := DeleteParts(bs, item, i, freed);
            && Copies(r.backends, key) <= Copies(bs, key) <= Copies(r.backends, key) + Takes(item, i, key)
            && (r.ok ==> Copies(bs, key) == Copies(r.backends, key) + Takes(item, i, key))
    decreases Parts(item) - i
  {
    if i < Parts(item) {
      var part := PartKey(item.hash, i, item.dataParts);
      DeleteTakesOneCopy(bs, part, 0, key);
      var d := First(bs, DeletePart(part), 0);
      if d.1.Some? { DeletePartsCopies(d.0, item, i + 1, freed + item.size, key); }
    }
  }

  lemma OneMore(n: nat, size: nat)
    requires n > 0
    ensures n * size == size + (n - 1) * size
  {
  }

  lemma {:induction false} DeletePartsFreed(bs: seq<Backend>, item: Item, i: nat, freed: nat)
    requires i <= Parts(item)
    ensures var r := DeleteParts(bs, item, i, freed);
            && r.freed >= freed
            && (r.ok ==> r.freed == freed + (Parts(item) - i) * item.size)
    decreases Parts(item) - i
  {
    if i < Parts(item) {
      var d := First(bs, DeletePart(PartKey(item.hash, i, item.dataParts)), 0);
      OneMore(Parts(item) - i, item.size);
      if d.1.Some? { DeletePartsFreed(d.0, item, i + 1, freed + item.size); }
    }
  }

  /** All of the item's parts from `i` on are somewhere. */
  ghost predicate AllStored(bs: seq<Backend>, item: Item, i: nat) {
    forall p: nat | i <= p < Parts(item) :: Copies(bs, PartKey(item.hash, p, item.dataParts)) > 0
  }

  /** Deleting part `i` does not matter for the parts after it. */
  lemma AllStoredStep(bs: seq<Backend>, item: Item, i: nat)
    requires i < Parts(item)
    ensures var part := PartKey(item.hash, i, item.dataParts);
            AllStored(bs, item, i) <==> Copies(bs, part) > 0 && AllStored(First(bs, DeletePart(part), 0).0, item, i + 1)
  {
    var part := PartKey(item.hash, i, item.dataParts);
    var bs' := First(bs, DeletePart(part), 0).0;
    forall p: nat | i < p < Parts(item)
      ensures Copies(bs', PartKey(item.hash, p, item.dataParts)) == Copies(bs, PartKey(item.hash, p, item.dataParts))
    {
      DeleteTakesOneCopy(bs, part, 0, PartKey(item.hash, p, item.dataParts));
    }
  }

  lemma {:induction false} DeletePartsHealthy(bs: seq<Backend>, item: Item, i: nat, freed: nat)
    requires i <= Parts(item) && AllHealthy(bs)
    ensures AllHealthy(DeleteParts(bs, item, i, freed).backends)
    decreases Parts(item) - i
  {
    if i < Parts(item) {
      var part := PartKey(item.hash, i, item.dataParts);
      DeleteStaysHealthy(bs, part);
      var d := First(bs, DeletePart(part), 0);
      if d.1.Some? { DeletePartsHealthy(d.0, item, i + 1, freed + item.size); }
    }
  }

  /** On healthy backends the part loop succeeds exactly if every part is stored. */
  lemma {:induction false} DeletePartsSucceeds(bs: seq<Backend>, item: Item, i: nat, freed: nat)
    requires i <= Parts(item) && AllHealthy(bs)
    ensures DeleteParts(bs, item, i, freed).ok <==> AllStored(bs, item, i)
    decreases Parts(item) - i
  {
    if i < Parts(item) {
      var part := PartKey(item.hash, i, item.dataParts);
      var d := First(bs, DeletePart(part), 0);
      DeletableIffStored(bs, part);
      AllStoredStep(bs, item, i);
      if d.1.Some? {
        DeleteStaysHealthy(bs, part);
        DeletePartsSucceeds(d.0, item, i + 1, freed + item.size);
      }
    }
  }

  /** One if `key` is a part of an unused item that the order has visited. */
  function TakesAll(ix: Index, order: seq<string>, key: PartKey): nat {
    if key.hash in order && GarbagePart(ix, key) then 1 else 0
  }

  lemma {:induction false} CollectedCopies(bs: seq<Backend>, ix: Index, order: seq<string>, key: PartKey)
    requires KeysMatch(ix) && Distinct(order)
    ensures var r := Collected(bs, ix, order);
            && Copies(r.backends, key) <= Copies(bs, key) <= Copies(r.backends, key) + TakesAll(ix, order, key)
            && (r.ok ==> Copies(bs, key) == Copies(r.backends, key) + TakesAll(ix, order, key))
  {
    if order != [] {
      var front, h := order[..|order| - 1], order[|order| - 1];
      CollectedCopies(bs, ix, front, key);
      assert order == front + [h] && h !in front;
      var r := Collected(bs, ix, front);
      if r.ok && Garbage(ix, h) { DeletePartsCopies(r.backends, ix[h], 0, r.freed, key); }
    }
  }

  /** The size that deleting the unused item of a hash adds up: the whole chunk's size once per part. */
  function FreedBy(ix: Index): string -> nat {
    (h: string) => if Garbage(ix, h) then Parts(ix[h]) * ix[h].size else 0
  }

  lemma {:induction false} CollectedFreed(bs: seq<Backend>, ix: Index, order: seq<string>)
    requires Distinct(order)
    ensures Collected(bs, ix, order).ok ==> Collected(bs, ix, order).freed == Total(FreedBy(ix), Elements(order))
  {
    if order != [] {
      var front, h := order[..|order| - 1], order[|order| - 1];
      CollectedFreed(bs, ix, front);
      assert order == front + [h] && h !in front;
      assert Elements(order) - {h} == Elements(front);
      TotalTake(FreedBy(ix), Elements(order), h);
      var r := Collected(bs, ix, front);
      if r.ok && Garbage(ix, h) { DeletePartsFreed(r.backends, ix[h], 0, r.freed); }
    }
  }

  /**
   A pack that succeeds has taken one copy of every part of every unused item and nothing else, and reports the
   same size whatever the order: for each unused item its whole size times its number of parts.
   */
  lemma PackExact(bs: seq<Backend>, ix: Index, order: seq<string>)
    requires KeysMatch(ix) && Visits(order, ix) && Collected(bs, ix, order).ok
    ensures Collected(bs, ix, order).freed == Total(FreedBy(ix), ix.Keys)
    ensures forall key ::
      Copies(Collected(bs, ix, order).backends, key) + (if GarbagePart(ix, key) then 1 else 0) == Copies(bs, key)
  {
    CollectedFreed(bs, ix, order);
    assert Elements(order) == ix.Keys;
    forall key
      ensures Copies(Collected(bs, ix, order).backends, key) + (if GarbagePart(ix, key) then 1 else 0)
        == Copies(bs, key)
    {
      CollectedCopies(bs, ix, order, key);
    }
  }

  /* ---- What a pack leaves behind ---- */

  function KeyOf(c: Chunk, p: nat): PartKey { PartKey(c.hash, p, c.dataParts) }

  /** Of every part of the chunk a copy is gone. */
  ghost predicate TakenWhole(bs: seq<Backend>, bs': seq<Backend>, c: Chunk) {
    forall p: nat | p < c.dataParts + c.parityParts :: Copies(bs', KeyOf(c, p)) < Copies(bs, KeyOf(c, p))
  }

  /** The item's part counts cover all parts of the chunk. */
  predicate CountsCover(item: Item, c: Chunk) {
    c.dataParts == item.dataParts && c.parityParts <= item.parityParts
  }

  /**
   What leaks: of a chunk that nobody uses any more, a successful pack takes the parts that its item's counts
   describe. It takes a copy of every part if and only if those counts cover the chunk's own; when the numbers of data
   parts differ it takes none. Afterwards the index does not know the hash, and a later pack takes nothing either.
   */
  lemma LeakExact(bs: seq<Backend>, ix: Index, order: seq<string>, c: Chunk)
    requires KeysMatch(ix) && Visits(order, ix) && Collected(bs, ix, order).ok
    requires Garbage(ix, c.hash) && c.dataParts + c.parityParts > 0
    ensures var after := Collected(bs, ix, order).backends;
            && (TakenWhole(bs, after, c) <==> CountsCover(ix[c.hash], c))
            && (c.dataParts != ix[c.hash].dataParts ==>
                  forall p: nat | p < c.dataParts + c.parityParts ::
                    Copies(after, KeyOf(c, p)) == Copies(bs, KeyOf(c, p)))
    ensures forall order' :: Collected(Collected(bs, ix, order).backends, Packed(ix), order').backends
                          == Collected(bs, ix, order).backends
  {
    var after, n := Collected(bs, ix, order).backends, c.dataParts + c.parityParts;
    PackExact(bs, ix, order);
    forall p: nat | p < n
      ensures Copies(after, KeyOf(c, p)) + (if GarbagePart(ix, KeyOf(c, p)) then 1 else 0)
        == Copies(bs, KeyOf(c, p)) { }
    if TakenWhole(bs, after, c) {
      assert Copies(after, KeyOf(c, n - 1)) < Copies(bs, KeyOf(c, n - 1));
      assert GarbagePart(ix, KeyOf(c, n - 1));
    }
    forall order' ensures Collected(after, Packed(ix), order').backends == after {
      SecondPackIsIdle(after, ix, order');
    }
  }

  /** Nothing leaks where equal hashes mean equal counts. */
  lemma NothingLeaks(bs: seq<Backend>, ix: Index, order: seq<string>, uses: seq<Use>, i: nat)
    requires KeysMatch(ix) && Visits(order, ix) && Collected(bs, ix, order).ok
    requires AgreeingCounts(uses) && i < |uses| && Garbage(ix, uses[i].chunk.hash)
    requires var h := uses[i].chunk.hash;
             h in WithUses(map[], uses) ==> ix[h].(snapshots := []) == WithUses(map[], uses)[h].(snapshots := [])
    ensures CountsCover(ix[uses[i].chunk.hash], uses[i].chunk)
    ensures TakenWhole(bs, Collected(bs, ix, order).backends, uses[i].chunk)
  {
    var c := uses[i].chunk;
    var first := FirstExists(uses, c.hash, i);
    CountsOfFirst(uses, c.hash);
    assert ItemOf(uses[first].chunk) == ItemOf(c);
    if c.dataParts + c.parityParts > 0 { LeakExact(bs, ix, order, c); }
  }

  /* ---- When a pack succeeds ---- */

  ghost predicate AllGarbageStored(bs: seq<Backend>, ix: Index, order: seq<string>) {
    forall h | h in order && Garbage(ix, h) :: AllStored(bs, ix[h], 0)
  }

  lemma AllStoredSame(bs: seq<Backend>, bs': seq<Backend>, item: Item)
    requires forall key | PartOfItem(item, key) :: Copies(bs', key) == Copies(bs, key)
    ensures AllStored(bs', item, 0) <==> AllStored(bs, item, 0)
  {
    forall p: nat | p < Parts(item)
      ensures Copies(bs', PartKey(item.hash, p, item.dataParts)) == Copies(bs, PartKey(item.hash, p, item.dataParts))
    {
      assert PartOfItem(item, PartKey(item.hash, p, item.dataParts));
    }
  }

  /** On healthy backends a pack succeeds exactly if every part of every unused item is still stored. */
  lemma {:induction false} PackSucceedsIff(bs: seq<Backend>, ix: Index, order: seq<string>)
    requires KeysMatch(ix) && Distinct(order) && AllHealthy(bs)
    ensures AllHealthy(Collected(bs, ix, order).backends)
    ensures Collected(bs, ix, order).ok <==> AllGarbageStored(bs, ix, order)
  {
    if order != [] {
      var front, h := order[..|order| - 1], order[|order| - 1];
      PackSucceedsIff(bs, ix, front);
      assert order == front + [h] && h !in front;
      var r := Collected(bs, ix, front);
      if r.ok && Garbage(ix, h) {
        DeletePartsHealthy(r.backends, ix[h], 0, r.freed);
        DeletePartsSucceeds(r.backends, ix[h], 0, r.freed);
        forall key | PartOfItem(ix[h], key) ensures Copies(r.backends, key) == Copies(bs, key) {
          CollectedCopies(bs, ix, front, key);
        }
        AllStoredSame(bs, r.backends, ix[h]);
      }
    }
  }

  /** A part of an unused item that is stored nowhere makes every pack fail. */
  lemma MissingPartBlocksPack(bs: seq<Backend>, ix: Index, order: seq<string>, key: PartKey)
    requires KeysMatch(ix) && Visits(order, ix) && GarbagePart(ix, key) && Copies(bs, key) == 0
    ensures !Collected(bs, ix, order).ok
  {
    CollectedCopies(bs, ix, order, key);
  }

  /** Freeing something means having taken a copy of some part. */
  lemma {:induction false} FreedTookSomething(bs: seq<Backend>, item: Item, i: nat, freed: nat) returns (key: PartKey)
    requires i < Parts(item) && DeleteParts(bs, item, i, freed).freed > freed
    ensures PartOfItem(item, key) && Copies(DeleteParts(bs, item, i, freed).backends, key) < Copies(bs, key)
  {
    key := PartKey(item.hash, i, item.dataParts);
    var d := First(bs, DeletePart(key), 0);
    DeleteTakesOneCopy(bs, key, 0, key);
    DeletePartsCopies(d.0, item, i + 1, freed + item.size, key);
  }

  lemma {:induction false} CollectedTookSomething(bs: seq<Backend>, ix: Index, order: seq<string>)
    returns (key: PartKey)
    requires KeysMatch(ix) && Distinct(order) && Collected(bs, ix, order).freed > 0
    ensures GarbagePart(ix, key) && Copies(Collected(bs, ix, order).backends, key) < Copies(bs, key)
  {
    var front, h := order[..|order| - 1], order[|order| - 1];
    assert order == front + [h] && h !in front;
    var r := Collected(bs, ix, front);
    if r.freed > 0 {
      key := CollectedTookSomething(bs, ix, front);
      if r.ok && Garbage(ix, h) { DeletePartsCopies(r.backends, ix[h], 0, r.freed, key); }
    } else {
      DeletePartsFreed(r.backends, ix[h], 0, r.freed);
      key := FreedTookSomething(r.backends, ix[h], 0, r.freed);
      CollectedCopies(bs, ix, front, key);
    }
  }

  /**
   A pack that fails after it has freed something cannot be completed: where no part has a second copy, every
   later pack of the same index fails too, in every order, until the missing part is stored again.
   */
  lemma FailedPackSticks(bs: seq<Backend>, ix: Index, order: seq<string>, order': seq<string>)
    requires KeysMatch(ix) && Distinct(order) && Visits(order', ix)
    requires !Collected(bs, ix, order).ok && Collected(bs, ix, order).freed > 0
    requires forall key :: Copies(bs, key) <= 1
    ensures !Collected(Collected(bs, ix, order).backends, ix, order').ok
  {
    var key := CollectedTookSomething(bs, ix, order);
    MissingPartBlocksPack(Collected(bs, ix, order).backends, ix, order', key);
  }

  /** A second pack deletes nothing and frees nothing, whatever the backends do. */
  lemma {:induction false} SecondPackIsIdle(bs: seq<Backend>, ix: Index, order: seq<string>)
    ensures Packed(Packed(ix)) == Packed(ix)
    ensures Collected(bs, Packed(ix), order) == Collection(bs, 0, true)
  {
    if order != [] { SecondPackIsIdle(bs, ix, order[..|order| - 1]); }
  }
}
