/** Reading any file whatever: it is refused, or leaves a consistent manager
    (src/addrman.cpp, Unserialize). */
module AddrManAnyFile {
  import opened AddrManModel
  import opened AddrManInvariant
  import opened AddrManCheck
  import opened AddrManDisk

  /** What CheckAddrman would not notice is in order. */
  ghost predicate Sound(h: Hashing, s: State) { Unchecked(h, s) && InTable(s) }

  lemma EmptySound(h: Hashing, key: Key)
    ensures Sound(h, Empty(key))
  {
    forall a ensures AddrIndexed(Empty(key), a) {}
    forall id: Id ensures NetKnown(h, Empty(key), id) {}
  }

  lemma LoadNewOneSound(h: Hashing, s: State, d: DiskInfo)
    requires Sound(h, s)
    ensures Sound(h, LoadNewOne(h, s, d))
  {
    var s' := LoadNewOne(h, s, d);
    forall a ensures AddrIndexed(s', a) { assert AddrIndexed(s, a); }
    forall id: Id ensures NetKnown(h, s', id) { assert NetKnown(h, s, id); }
  }

  lemma {:induction false} LoadNewSound(h: Hashing, s: State, ds: seq<DiskInfo>)
    requires Sound(h, s)
    ensures Sound(h, LoadNew(h, s, ds))
    decreases |ds|
  {
    if ds != [] {
      LoadNewOneSound(h, s, ds[0]);
      LoadNewSound(h, LoadNewOne(h, s, ds[0]), ds[1..]);
    }
  }

  lemma LoadTriedOneSound(h: Hashing, s: State, d: DiskInfo)
    requires Sound(h, s)
    ensures Sound(h, LoadTriedOne(h, s, d))
  {
    var s' := LoadTriedOne(h, s, d);
    forall a ensures AddrIndexed(s', a) { assert AddrIndexed(s, a); }
    forall id: Id ensures NetKnown(h, s', id) { assert NetKnown(h, s, id); }
  }

  lemma {:induction false} LoadTriedSound(h: Hashing, s: State, ds: seq<DiskInfo>)
    requires Sound(h, s)
    ensures Sound(h, LoadTried(h, s, ds))
    decreases |ds|
  {
    if ds != [] {
      LoadTriedOneSound(h, s, ds[0]);
      LoadTriedSound(h, LoadTriedOne(h, s, ds[0]), ds[1..]);
    }
  }

  ghost predicate InRange(es: seq<BucketEntry>, n: int) { forall e :: e in es ==> 0 <= e.bucket < n }

  lemma GiveSlotSound(h: Hashing, s: State, sl: Slot, id: Id)
    requires Sound(h, s) && id in s.mapInfo && 0 <= sl.bucket < NEW_BUCKET_COUNT
    ensures Sound(h, GiveSlot(s, sl, id))
  {
    var s' := GiveSlot(s, sl, id);
    forall a ensures AddrIndexed(s', a) { assert AddrIndexed(s, a); }
    forall j: Id ensures NetKnown(h, s', j) { assert NetKnown(h, s, j); }
  }

  lemma RestoreOneSound(h: Hashing, s: State, e: BucketEntry, restore: bool)
    requires Sound(h, s) && (restore ==> 0 <= e.bucket < NEW_BUCKET_COUNT)
    ensures Sound(h, RestoreOne(h, s, e, restore))
  {
    if e.index in s.mapInfo {
      var info := s.mapInfo[e.index];
      if restore {
        GiveSlotSound(h, s, NewSlotIn(h, s.key, info.service, e.bucket), e.index);
      }
      GiveSlotSound(h, s, NewSlot(h, s.key, info.service, info.source), e.index);
    }
  }

  lemma {:induction false} RestoreAllSound(h: Hashing, s: State, es: seq<BucketEntry>, restore: bool)
    requires Sound(h, s) && (restore ==> InRange(es, NEW_BUCKET_COUNT))
    ensures Sound(h, RestoreAll(h, s, es, restore))
    decreases |es|
  {
    if es != [] {
      RestoreOneSound(h, s, es[0], restore);
      RestoreAllSound(h, RestoreOne(h, s, es[0], restore), es[1..], restore);
    }
  }

  /** Delete forgets the address of the entry, whether or not it belongs to another entry too. */
  lemma DeleteSound(h: Hashing, s: State, id: Id)
    requires Sound(h, s)
    ensures Sound(h, Delete(h, s, id))
  {
    if id in s.mapInfo {
      var k := s.mapInfo[id].randomPos;
      var u := SwapRandom(s, k, |s.vRandom| - 1);
      SwapSound(h, s, k, |s.vRandom| - 1);
      RemoveLastSound(h, u, id);
    }
  }

  lemma SwapSound(h: Hashing, s: State, i: int, j: int)
    requires Sound(h, s)
    ensures Sound(h, SwapRandom(s, i, j))
  {
    var u := SwapRandom(s, i, j);
    SwapRandomFrame(s, i, j);
    forall id | id in u.mapInfo ensures 0 <= id < u.nIdCount { SwapRandomMoves(s, i, j, id); }
    forall a ensures AddrIndexed(u, a) {
      assert AddrIndexed(s, a);
      if a in s.mapAddr {
        SwapRandomMoves(s, i, j, s.mapAddr[a]);
      }
    }
    forall id: Id ensures NetKnown(h, u, id) {
      assert NetKnown(h, s, id);
      SwapRandomMoves(s, i, j, id);
    }
  }

  lemma RemoveLastSound(h: Hashing, u: State, id: Id)
    requires Sound(h, u)
    ensures Sound(h, RemoveLast(h, u, id))
  {
    var s' := RemoveLast(h, u, id);
    forall a ensures AddrIndexed(s', a) { assert AddrIndexed(u, a); }
    forall j: Id ensures NetKnown(h, s', j) { assert NetKnown(h, u, j); }
  }

  lemma {:induction false} PruneSound(h: Hashing, s: State, ids: seq<Id>)
    requires Sound(h, s)
    ensures Sound(h, Prune(h, s, ids))
    decreases |ids|
  {
    if ids != [] {
      DeleteSound(h, s, ids[0]);
      PruneSound(h, if ids[0] in s.mapInfo && !s.mapInfo[ids[0]].inTried && s.mapInfo[ids[0]].refCount == 0
                    then Delete(h, s, ids[0]) else s, ids[1..]);
    }
  }

  lemma {:induction false} EntriesInBucket(b: int, indices: seq<int>, nNew: int)
    ensures forall e :: e in EntriesOf(b, indices, nNew) ==> e.bucket == b && 0 <= e.index < nNew
  {
    if indices != [] {
      EntriesInBucket(b, indices[1..], nNew);
    }
  }

  lemma {:induction false} EntriesInRange(buckets: seq<seq<int>>, b: nat, nNew: int)
    ensures InRange(BucketEntries(buckets, b, nNew), |buckets|)
    ensures forall e :: e in BucketEntries(buckets, b, nNew) ==> 0 <= e.index < nNew
    decreases |buckets| - b
  {
    if b < |buckets| {
      EntriesInBucket(b, buckets[b], nNew);
      EntriesInRange(buckets, b + 1, nNew);
    }
  }

  /**
   * A file of any content, read in any order: what the final check of Unserialize cannot see is in
   * order, so the check refuses exactly the inconsistent outcomes.
   */
  lemma AnyFile(h: Hashing, d: Disk, asmap: int, pruneOrder: seq<Id>)
    requires Rebuild(h, d, asmap, pruneOrder).Loaded?
    ensures var s := Rebuild(h, d, asmap, pruneOrder).state; CheckPasses(h, s) <==> Consistent(h, s)
  {
    var restore := (if d.format >= V1_DETERMINISTIC then FlipBit30(d.nUBuckets) else d.nUBuckets) == NEW_BUCKET_COUNT
      && (if d.format >= V2_ASMAP then d.asmap else 0) == asmap;
    var s0 := LoadNew(h, Empty(d.key), d.newInfos);
    var s1 := LoadTried(h, s0, d.triedInfos);
    var es := BucketEntries(d.buckets, 0, d.nNew);
    EmptySound(h, d.key);
    LoadNewSound(h, Empty(d.key), d.newInfos);
    LoadTriedSound(h, s0, d.triedInfos);
    EntriesInRange(d.buckets, 0, d.nNew);
    RestoreAllSound(h, s1, es, restore);
    PruneSound(h, RestoreAll(h, s1, es, restore), pruneOrder);
    CheckIsAlmostComplete(h, Rebuild(h, d, asmap, pruneOrder).state);
  }
}
