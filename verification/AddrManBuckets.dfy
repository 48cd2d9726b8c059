/** How buckets and positions come from hashes, and how few of them one network group or one
    source group can reach (src/addrman.cpp). */
module AddrManBuckets {
  import opened AddrManModel

  const TRIED_BUCKETS_PER_GROUP := 8
  const NEW_BUCKETS_PER_SOURCE_GROUP := 64

  type Group = int   // a network group: addresses that are easily had together

  /** The keyed hashes that are taken, each of what the source feeds into it. */
  datatype Hashes = Hashes(
    group: Service -> Group,
    sourceGroup: Source -> Group,
    ofService: (Key, Service) -> nat,
    ofGroup: (Key, Group, nat) -> nat,
    ofGroups: (Key, Group, Group) -> nat,
    ofPlace: (Key, char, int, Service) -> nat)

  /** The hashing of the manager, made from those hashes. */
  function HashingOf(r: Hashes, network: Service -> Network, netClass: Service -> Network, routable: Service -> bool,
                     valid: Service -> bool, announces: (Service, Source) -> bool): Hashing
  {
    Hashing(
      (key, a) => r.ofGroup(key, r.group(a), r.ofService(key, a) % TRIED_BUCKETS_PER_GROUP),
      (key, a, src) => r.ofGroup(key, r.sourceGroup(src), r.ofGroups(key, r.group(a), r.sourceGroup(src)) % NEW_BUCKETS_PER_SOURCE_GROUP),
      (key, isNew, bucket, a) => r.ofPlace(key, if isNew then 'N' else 'K', bucket, a),
      network, netClass, routable, valid, announces)
  }

  ghost predicate Made(h: Hashing, r: Hashes) {
    h == HashingOf(r, h.network, h.netClass, h.routable, h.valid, h.announces)
  }

  /** The k-th bucket of a group. */
  function GroupBucket(r: Hashes, key: Key, g: Group, k: nat, count: int): int
    requires count > 0
  {
    r.ofGroup(key, g, k) % count
  }

  ghost function FirstBuckets(r: Hashes, key: Key, g: Group, n: nat, count: int): set<int>
    requires count > 0
  {
    if n == 0 then {} else FirstBuckets(r, key, g, n - 1, count) + {GroupBucket(r, key, g, n - 1, count)}
  }

  lemma {:induction false} FirstBucketsHave(r: Hashes, key: Key, g: Group, n: nat, count: int, k: nat)
    requires count > 0 && k < n
    ensures GroupBucket(r, key, g, k, count) in FirstBuckets(r, key, g, n, count)
  {
    if k < n - 1 {
      FirstBucketsHave(r, key, g, n - 1, count, k);
    }
  }

  lemma {:induction false} FirstBucketsFew(r: Hashes, key: Key, g: Group, n: nat, count: int)
    requires count > 0
    ensures |FirstBuckets(r, key, g, n, count)| <= n
  {
    if n > 0 {
      FirstBucketsFew(r, key, g, n - 1, count);
    }
  }

  /** All addresses of a network group share eight buckets of the tried table. */
  lemma FewTriedBuckets(h: Hashing, r: Hashes, key: Key, g: Group) returns (buckets: set<int>)
    requires Made(h, r)
    ensures |buckets| <= 8
    ensures forall a :: r.group(a) == g ==> TriedSlot(h, key, a).bucket in buckets
  {
    buckets := FirstBuckets(r, key, g, TRIED_BUCKETS_PER_GROUP, TRIED_BUCKET_COUNT);
    FirstBucketsFew(r, key, g, TRIED_BUCKETS_PER_GROUP, TRIED_BUCKET_COUNT);
    forall a | r.group(a) == g ensures TriedSlot(h, key, a).bucket in buckets {
      FirstBucketsHave(r, key, g, TRIED_BUCKETS_PER_GROUP, TRIED_BUCKET_COUNT, r.ofService(key, a) % TRIED_BUCKETS_PER_GROUP);
    }
  }

  /** All addresses that the sources of one group tell of share 64 buckets of the new table, and those
      of one network group told by one source group share one. */
  lemma FewNewBuckets(h: Hashing, r: Hashes, key: Key, g: Group) returns (buckets: set<int>)
    requires Made(h, r)
    ensures |buckets| <= 64
    ensures forall a, src :: r.sourceGroup(src) == g ==> NewSlot(h, key, a, src).bucket in buckets
    ensures forall a, b, src, from :: r.group(a) == r.group(b) && r.sourceGroup(src) == g == r.sourceGroup(from) ==>
      NewSlot(h, key, a, src).bucket == NewSlot(h, key, b, from).bucket
  {
    buckets := FirstBuckets(r, key, g, NEW_BUCKETS_PER_SOURCE_GROUP, NEW_BUCKET_COUNT);
    FirstBucketsFew(r, key, g, NEW_BUCKETS_PER_SOURCE_GROUP, NEW_BUCKET_COUNT);
    forall a, src | r.sourceGroup(src) == g ensures NewSlot(h, key, a, src).bucket in buckets {
      FirstBucketsHave(r, key, g, NEW_BUCKETS_PER_SOURCE_GROUP, NEW_BUCKET_COUNT, r.ofGroups(key, r.group(a), g) % NEW_BUCKETS_PER_SOURCE_GROUP);
    }
  }

  /** Within its bucket an address has one position, by another hash for each table. */
  lemma Positions(h: Hashing, r: Hashes, key: Key, a: Service, src: Source, bucket: int)
    requires Made(h, r)
    ensures TriedSlot(h, key, a).pos == r.ofPlace(key, 'K', TriedSlot(h, key, a).bucket, a) % 64
    ensures NewSlot(h, key, a, src).pos == r.ofPlace(key, 'N', NewSlot(h, key, a, src).bucket, a) % 64
    ensures NewSlotIn(h, key, a, bucket) == Slot(bucket, r.ofPlace(key, 'N', bucket, a) % 64)
  {
  }
}
