/** Serialize and Unserialize of the address manager (src/addrman.cpp) on structured
    values: which records are written, in which order, and how the manager is rebuilt
    from them. The iteration orders of the unordered maps are parameters. */
module AddrManDisk {
  import opened AddrManModel

  const FILE_FORMAT := 4
  const INCOMPATIBILITY_BASE := 32
  const V1_DETERMINISTIC := 1
  const V2_ASMAP := 2
  const BIT_30 := 0x4000_0000

  /** What is written of an entry. */
  datatype DiskInfo = DiskInfo(
    service: Service, time: int, services: set<nat>, source: Source, lastSuccess: int, attempts: int)

  datatype Disk = Disk(
    format: nat,
    compat: nat,
    key: Key,
    nNew: int,
    nTried: int,
    nUBuckets: int,
    newInfos: seq<DiskInfo>,
    triedInfos: seq<DiskInfo>,
    buckets: seq<seq<int>>,
    asmap: int)

  datatype Loaded = LoadFailed | Loaded(state: State)

  function ToDisk(info: Info): DiskInfo {
    DiskInfo(info.service, info.time, info.services, info.source, info.lastSuccess, info.attempts)
  }

  function FromDisk(d: DiskInfo, refCount: int, inTried: bool, pos: int): Info {
    Info(d.service, d.time, d.services, d.source, 0, 0, d.lastSuccess, d.attempts, refCount, inTried, pos)
  }

  // ---------- Serialize ----------

  predicate Written(s: State, id: Id, tried: bool) {
    id in s.mapInfo && if tried then s.mapInfo[id].inTried else s.mapInfo[id].refCount != 0
  }

  /** The ids written to the new (or tried) part of the file, in iteration order. */
  function Chosen(s: State, order: seq<Id>, tried: bool): (r: seq<Id>)
    ensures forall k :: 0 <= k < |r| ==> Written(s, r[k], tried)
  {
    if order == [] then []
    else if Written(s, order[0], tried) then [order[0]] + Chosen(s, order[1..], tried)
    else Chosen(s, order[1..], tried)
  }

  function Infos(s: State, ids: seq<Id>): seq<DiskInfo>
    requires forall k :: 0 <= k < |ids| ==> ids[k] in s.mapInfo
  {
    seq(|ids|, k requires 0 <= k < |ids| => ToDisk(s.mapInfo[ids[k]]))
  }

  /** mapUnkIds: the position of a new id among the new ids written. */
  function IndexOf(ids: seq<Id>, id: Id): int {
    if ids == [] then 0 else if ids[0] == id then 0 else 1 + IndexOf(ids[1..], id)
  }

  /** The indices written for one bucket, from position i on. */
  function BucketIndices(t: Table, ids: seq<Id>, b: int, i: int): seq<int>
    decreases BUCKET_SIZE - i
  {
    if i >= BUCKET_SIZE then []
    else
      var rest := BucketIndices(t, ids, b, i + 1);
      if Slot(b, i) in t then [IndexOf(ids, t[Slot(b, i)])] + rest else rest
  }

  /** Flipping bit 30 of a non-negative 31-bit number. */
  function FlipBit30(x: int): int {
    if (x / BIT_30) % 2 == 0 then x + BIT_30 else x - BIT_30
  }

  function Serialize(s: State, order: seq<Id>, asmap: int): Disk {
    var ids := Chosen(s, order, false);
    Disk(FILE_FORMAT, INCOMPATIBILITY_BASE + FILE_FORMAT, s.key, s.nNew, s.nTried, FlipBit30(NEW_BUCKET_COUNT),
         Infos(s, ids), Infos(s, Chosen(s, order, true)),
         seq(NEW_BUCKET_COUNT, b => BucketIndices(s.newTable, ids, b, 0)),
         asmap)
  }

  // ---------- Unserialize ----------

  /** One entry of the new part; nNew counts along, ending at the number in the file. */
  function LoadNewOne(h: Hashing, s: State, d: DiskInfo): State {
    var id := s.nIdCount;
    s.(nIdCount := id + 1,
       mapInfo := s.mapInfo[id := FromDisk(d, 0, false, |s.vRandom|)],
       mapAddr := s.mapAddr[d.service := id],
       vRandom := s.vRandom + [id],
       nNew := s.nNew + 1,
       netCounts := Bump(s.netCounts, h.network(d.service), 1, 0))
  }

  function LoadNew(h: Hashing, s: State, ds: seq<DiskInfo>): State
    decreases |ds|
  {
    if ds == [] then s else LoadNew(h, LoadNewOne(h, s, ds[0]), ds[1..])
  }

  /** One entry of the tried part: kept if its address is valid and its slot is free. */
  function LoadTriedOne(h: Hashing, s: State, d: DiskInfo): State {
    var slot := TriedSlot(h, s.key, d.service);
    if h.valid(d.service) && slot !in s.triedTable then
      var id := s.nIdCount;
      s.(nIdCount := id + 1,
         mapInfo := s.mapInfo[id := FromDisk(d, 0, true, |s.vRandom|)],
         mapAddr := s.mapAddr[d.service := id],
         vRandom := s.vRandom + [id],
         nTried := s.nTried + 1,
         triedTable := s.triedTable[slot := id],
         netCounts := Bump(s.netCounts, h.network(d.service), 0, 1))
    else s
  }

  function LoadTried(h: Hashing, s: State, ds: seq<DiskInfo>): State
    decreases |ds|
  {
    if ds == [] then s else LoadTried(h, LoadTriedOne(h, s, ds[0]), ds[1..])
  }

  datatype BucketEntry = BucketEntry(bucket: int, index: int)

  function EntriesOf(b: int, indices: seq<int>, nNew: int): seq<BucketEntry> {
    if indices == [] then []
    else (if 0 <= indices[0] < nNew then [BucketEntry(b, indices[0])] else []) + EntriesOf(b, indices[1..], nNew)
  }

  /** bucket_entries: the usable bucket/index pairs of buckets b.. in file order. */
  function BucketEntries(buckets: seq<seq<int>>, b: nat, nNew: int): seq<BucketEntry>
    decreases |buckets| - b
  {
    if b >= |buckets| then [] else EntriesOf(b, buckets[b], nNew) + BucketEntries(buckets, b + 1, nNew)
  }

  function GiveSlot(s: State, sl: Slot, id: Id): State
    requires id in s.mapInfo
  {
    WithRefs(s, id, s.mapInfo[id].refCount + 1, s.newTable[sl := id])
  }

  /** Put an entry back into its bucket, or give it a reference by its source. */
  function RestoreOne(h: Hashing, s: State, e: BucketEntry, restore: bool): State {
    if e.index !in s.mapInfo then s
    else
      var info := s.mapInfo[e.index];
      if !h.valid(info.service) || info.refCount >= NEW_BUCKETS_PER_ADDRESS then s
      else
        var sl := NewSlotIn(h, s.key, info.service, e.bucket);
        if restore && sl !in s.newTable then GiveSlot(s, sl, e.index)
        else
          var primary := NewSlot(h, s.key, info.service, info.source);
          if primary !in s.newTable then GiveSlot(s, primary, e.index) else s
  }

  function RestoreAll(h: Hashing, s: State, es: seq<BucketEntry>, restore: bool): State
    decreases |es|
  {
    if es == [] then s else RestoreAll(h, RestoreOne(h, s, es[0], restore), es[1..], restore)
  }

  /** Entries that ended up in no table are deleted. */
  function Prune(h: Hashing, s: State, ids: seq<Id>): State
    decreases |ids|
  {
    if ids == [] then s
    else
      var s1 := if ids[0] in s.mapInfo && !s.mapInfo[ids[0]].inTried && s.mapInfo[ids[0]].refCount == 0
                then Delete(h, s, ids[0]) else s;
      Prune(h, s1, ids[1..])
  }

  /** Unserialize up to its final consistency check; pruneOrder is the order in which
      it walks mapInfo. The stream holds as many records as its header says. */
  function Rebuild(h: Hashing, d: Disk, asmap: int, pruneOrder: seq<Id>): Loaded {
    if d.compat < INCOMPATIBILITY_BASE || d.compat - INCOMPATIBILITY_BASE > FILE_FORMAT then LoadFailed
    else if d.nNew > NEW_BUCKET_COUNT * BUCKET_SIZE || d.nNew < 0 then LoadFailed
    else if d.nTried > TRIED_BUCKET_COUNT * BUCKET_SIZE || d.nTried < 0 then LoadFailed
    else if |d.newInfos| != d.nNew || |d.triedInfos| != d.nTried then LoadFailed
    else
      var uBuckets := if d.format >= V1_DETERMINISTIC then FlipBit30(d.nUBuckets) else d.nUBuckets;
      if Max(0, uBuckets) != |d.buckets| then LoadFailed
      else
        var serializedAsmap := if d.format >= V2_ASMAP then d.asmap else 0;
        var restore := uBuckets == NEW_BUCKET_COUNT && serializedAsmap == asmap;
        var s1 := LoadTried(h, LoadNew(h, Empty(d.key), d.newInfos), d.triedInfos);
        Loaded(Prune(h, RestoreAll(h, s1, BucketEntries(d.buckets, 0, d.nNew), restore), pruneOrder))
  }
}
