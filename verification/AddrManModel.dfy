/** State and operations of the address manager (src/addrman.cpp,
    src/addrman_impl.h) as functions on values. The class in AddrMan.dfy runs the
    same operations in place on arrays and is proved equal to these functions.

    Hash functions, clock readings and random draws are parameters. Where the
    source asserts, the functions leave the state unchanged; the class proves that
    those assertions hold. */
module AddrManModel {

  const TRIED_BUCKET_COUNT := 256
  const NEW_BUCKET_COUNT := 1024
  const BUCKET_SIZE := 64
  const NEW_BUCKETS_PER_ADDRESS := 8
  const TRIED_COLLISION_SIZE := 10
  // durations in seconds
  const MINUTE := 60
  const HOUR := 3600
  const HORIZON := 30 * 24 * HOUR
  const RETRIES := 3
  const MAX_FAILURES := 10
  const MIN_FAIL := 7 * 24 * HOUR
  const REPLACEMENT := 4 * HOUR
  const TEST_WINDOW := 40 * MINUTE

  type Key = int        // nKey; 0 is the null key
  type Service = int    // a CService: network address and port
  type Source = int     // a CNetAddr
  type Network = int
  type Id = int

  /** Everything the manager computes by hashing or from the address alone. */
  datatype Hashing = Hashing(
    triedHash: (Key, Service) -> nat,
    newHash: (Key, Service, Source) -> nat,
    positionHash: (Key, bool, int, Service) -> nat,
    network: Service -> Network,
    netClass: Service -> Network,
    routable: Service -> bool,
    valid: Service -> bool,
    announces: (Service, Source) -> bool)

  datatype Slot = Slot(bucket: int, pos: int)

  /** CAddress: a service with a time and service flags (a set of bits). */
  datatype Address = Address(service: Service, time: int, services: set<nat>)

  datatype Info = Info(
    service: Service,
    time: int,
    services: set<nat>,
    source: Source,
    lastTry: int,
    lastCountAttempt: int,
    lastSuccess: int,
    attempts: int,
    refCount: int,
    inTried: bool,
    randomPos: int)

  datatype NewTriedCount = NewTriedCount(nNew: int, nTried: int)

  type Table = map<Slot, Id>   // occupied slots only

  datatype State = State(
    key: Key,
    nIdCount: Id,
    mapInfo: map<Id, Info>,
    mapAddr: map<Service, Id>,
    vRandom: seq<Id>,
    nTried: int,
    triedTable: Table,
    nNew: int,
    newTable: Table,
    lastGood: int,
    collisions: set<Id>,
    netCounts: map<Network, NewTriedCount>)

  // ---------- Placement ----------

  function TriedBucket(h: Hashing, key: Key, a: Service): (b: int)
    ensures 0 <= b < TRIED_BUCKET_COUNT
  {
    h.triedHash(key, a) % TRIED_BUCKET_COUNT
  }

  function NewBucket(h: Hashing, key: Key, a: Service, src: Source): (b: int)
    ensures 0 <= b < NEW_BUCKET_COUNT
  {
    h.newHash(key, a, src) % NEW_BUCKET_COUNT
  }

  function BucketPosition(h: Hashing, key: Key, isNew: bool, bucket: int, a: Service): (p: int)
    ensures 0 <= p < BUCKET_SIZE
  {
    h.positionHash(key, isNew, bucket, a) % BUCKET_SIZE
  }

  /** The only slot of the tried table this address can be in. */
  function TriedSlot(h: Hashing, key: Key, a: Service): Slot {
    var b := TriedBucket(h, key, a);
    Slot(b, BucketPosition(h, key, false, b, a))
  }

  /** The only slot of a given bucket of the new table this address can be in. */
  function NewSlotIn(h: Hashing, key: Key, a: Service, bucket: int): Slot {
    Slot(bucket, BucketPosition(h, key, true, bucket, a))
  }

  function NewSlot(h: Hashing, key: Key, a: Service, src: Source): Slot {
    NewSlotIn(h, key, a, NewBucket(h, key, a, src))
  }

  predicate IsTerrible(info: Info, now: int) {
    if now - info.lastTry <= MINUTE then false
    else if info.time > now + 10 * MINUTE then true
    else if now - info.time > HORIZON then true
    else if info.lastSuccess == 0 && info.attempts >= RETRIES then true
    else now - info.lastSuccess > MIN_FAIL && info.attempts >= MAX_FAILURES
  }

  // ---------- Counters ----------

  function CountOf(nc: map<Network, NewTriedCount>, net: Network): NewTriedCount {
    if net in nc then nc[net] else NewTriedCount(0, 0)
  }

  function Bump(nc: map<Network, NewTriedCount>, net: Network, dNew: int, dTried: int): map<Network, NewTriedCount> {
    nc[net := NewTriedCount(CountOf(nc, net).nNew + dNew, CountOf(nc, net).nTried + dTried)]
  }

  function Max(a: int, b: int): int { if a < b then b else a }

  function Min(a: int, b: int): int { if a < b then a else b }

  // ---------- Small operations ----------

  function Empty(key: Key): State {
    State(key, 0, map[], map[], [], 0, map[], 0, map[], 1, {}, map[])
  }

  datatype Found = NotFound | Found(id: Id)

  function Find(s: State, a: Service): Found {
    if a in s.mapAddr && s.mapAddr[a] in s.mapInfo then Found(s.mapAddr[a]) else NotFound
  }

  function SetInfo(s: State, id: Id, info: Info): State {
    s.(mapInfo := s.mapInfo[id := info])
  }

  function Create(h: Hashing, s: State, addr: Address, src: Source): State {
    var info := Info(addr.service, addr.time, addr.services, src, 0, 0, 0, 0, 0, false, |s.vRandom|);
    s.(nIdCount := s.nIdCount + 1,
       mapInfo := s.mapInfo[s.nIdCount := info],
       mapAddr := s.mapAddr[addr.service := s.nIdCount],
       vRandom := s.vRandom + [s.nIdCount],
       nNew := s.nNew + 1,
       netCounts := Bump(s.netCounts, h.network(addr.service), 1, 0))
  }

  function SwapRandom(s: State, i: int, j: int): State {
    if i == j || !(0 <= i < |s.vRandom| && 0 <= j < |s.vRandom|) then s
    else
      var id1, id2 := s.vRandom[i], s.vRandom[j];
      if id1 !in s.mapInfo || id2 !in s.mapInfo then s
      else
        var m1 := s.mapInfo[id1 := s.mapInfo[id1].(randomPos := j)];
        s.(mapInfo := m1[id2 := m1[id2].(randomPos := i)],
           vRandom := s.vRandom[i := id2][j := id1])
  }

  /** Delete once the entry is at the end of vRandom. */
  function RemoveLast(h: Hashing, s: State, id: Id): State {
    if id !in s.mapInfo || s.vRandom == [] then s
    else
      s.(netCounts := Bump(s.netCounts, h.network(s.mapInfo[id].service), -1, 0),
         vRandom := s.vRandom[..|s.vRandom| - 1],
         mapAddr := s.mapAddr - {s.mapInfo[id].service},
         mapInfo := s.mapInfo - {id},
         nNew := s.nNew - 1)
  }

  function Delete(h: Hashing, s: State, id: Id): State {
    if id !in s.mapInfo then s
    else RemoveLast(h, SwapRandom(s, s.mapInfo[id].randomPos, |s.vRandom| - 1), id)
  }

  /** One reference of the entry in this slot of the new table is dropped; the entry
      is deleted with its last reference. */
  function ClearNew(h: Hashing, s: State, slot: Slot): State {
    if slot !in s.newTable || s.newTable[slot] !in s.mapInfo then s
    else
      var id := s.newTable[slot];
      var info := s.mapInfo[id];
      var s1 := SetInfo(s, id, info.(refCount := info.refCount - 1)).(newTable := s.newTable - {slot});
      if info.refCount == 1 then Delete(h, s1, id) else s1
  }

  // ---------- Moving an entry from the new to the tried table ----------

  /** The slots of the new table that hold id. */
  function RefSlots(t: Table, id: Id): set<Slot> {
    set sl | sl in t && t[sl] == id
  }

  /** All references to id leave the new table, and id is no longer counted as new. */
  function RemoveRefs(h: Hashing, s: State, id: Id): State
    requires id in s.mapInfo
  {
    var info := s.mapInfo[id];
    SetInfo(s, id, info.(refCount := 0)).(
      newTable := s.newTable - RefSlots(s.newTable, id),
      nNew := s.nNew - 1,
      netCounts := Bump(s.netCounts, h.network(info.service), -1, 0))
  }

  /** The occupant of a tried slot leaves the tried table. */
  function LeaveTried(h: Hashing, s: State, slot: Slot): State
    requires slot in s.triedTable && s.triedTable[slot] in s.mapInfo
  {
    var id := s.triedTable[slot];
    SetInfo(s, id, s.mapInfo[id].(inTried := false)).(
      triedTable := s.triedTable - {slot},
      nTried := s.nTried - 1,
      netCounts := Bump(s.netCounts, h.network(s.mapInfo[id].service), 0, -1))
  }

  /** An entry outside both tables enters the new table with one reference. */
  function EnterNew(h: Hashing, s: State, slot: Slot, id: Id): State
    requires id in s.mapInfo
  {
    SetInfo(s, id, s.mapInfo[id].(refCount := 1)).(
      newTable := s.newTable[slot := id],
      nNew := s.nNew + 1,
      netCounts := Bump(s.netCounts, h.network(s.mapInfo[id].service), 1, 0))
  }

  function EnterTried(h: Hashing, s: State, slot: Slot, id: Id): State
    requires id in s.mapInfo
  {
    SetInfo(s, id, s.mapInfo[id].(inTried := true)).(
      triedTable := s.triedTable[slot := id],
      nTried := s.nTried + 1,
      netCounts := Bump(s.netCounts, h.network(s.mapInfo[id].service), 0, 1))
  }

  /** The occupant of the tried slot moves to its own place in the new table. */
  function Evict(h: Hashing, s: State, slot: Slot): State {
    if slot !in s.triedTable || s.triedTable[slot] !in s.mapInfo then s
    else
      var old_ := s.triedTable[slot];
      var place := NewSlot(h, s.key, s.mapInfo[old_].service, s.mapInfo[old_].source);
      var s1 := ClearNew(h, LeaveTried(h, s, slot), place);
      if old_ in s1.mapInfo then EnterNew(h, s1, place, old_) else s1
  }

  function MakeTried(h: Hashing, s: State, id: Id): State
    requires id in s.mapInfo
  {
    var slot := TriedSlot(h, s.key, s.mapInfo[id].service);
    var s1 := Evict(h, RemoveRefs(h, s, id), slot);
    if id in s1.mapInfo then EnterTried(h, s1, slot, id) else s1
  }

  // ---------- Operations ----------

  /** Inputs of AddSingle besides the address: the clock when it is read first, the clock when the
      occupant of the slot is judged, and the stochastic test. */
  datatype AddArgs = AddArgs(addr: Address, src: Source, penalty: int, now: int, judged: int, drewZero: bool)

  /** The known entry with its time and services refreshed. */
  function Refreshed(info: Info, a: AddArgs, penalty: int): Info {
    var interval := if a.now - a.addr.time < 24 * HOUR then HOUR else 24 * HOUR;
    var time := if info.time < a.addr.time - interval - penalty then Max(0, a.addr.time - penalty) else info.time;
    info.(time := time, services := info.services + a.addr.services)
  }

  /** The known entry is left where it is. */
  predicate NoNewReference(info: Info, a: AddArgs) {
    || a.addr.time <= info.time
    || info.inTried
    || info.refCount == NEW_BUCKETS_PER_ADDRESS
    || (info.refCount > 0 && !a.drewZero)
  }

  datatype Added = Added(state: State, inserted: bool)

  /** The state with another reference count for id and another new table. */
  function WithRefs(s: State, id: Id, n: int, t: Table): State
    requires id in s.mapInfo
  {
    SetInfo(s, id, s.mapInfo[id].(refCount := n)).(newTable := t)
  }

  /** The slot is free, or its occupant may be overwritten for the sake of id. */
  predicate MayTake(s: State, slot: Slot, id: Id, now: int)
    requires id in s.mapInfo
  {
    slot !in s.newTable ||
    (s.newTable[slot] in s.mapInfo &&
      var other := s.mapInfo[s.newTable[slot]];
      IsTerrible(other, now) || (other.refCount > 1 && s.mapInfo[id].refCount == 0))
  }

  /** Overwrite the slot with one more reference to id. */
  function Insert(h: Hashing, s: State, slot: Slot, id: Id): State {
    var s1 := ClearNew(h, s, slot);
    if id in s1.mapInfo then WithRefs(s1, id, s1.mapInfo[id].refCount + 1, s1.newTable[slot := id]) else s1
  }

  /** Second half of AddSingle: give entry id a reference in the bucket of this
      source, or delete it if it would have none. */
  function AddReference(h: Hashing, s: State, id: Id, src: Source, now: int): Added
    requires id in s.mapInfo
  {
    var slot := NewSlot(h, s.key, s.mapInfo[id].service, src);
    if slot in s.newTable && s.newTable[slot] == id then Added(s, false)
    else if MayTake(s, slot, id, now) then Added(Insert(h, s, slot, id), true)
    else if s.mapInfo[id].refCount == 0 then Added(Delete(h, s, id), false)
    else Added(s, false)
  }

  function AddKnown(h: Hashing, s: State, id: Id, a: AddArgs, penalty: int): Added
    requires id in s.mapInfo
  {
    var info := Refreshed(s.mapInfo[id], a, penalty);
    var s1 := SetInfo(s, id, info);
    if NoNewReference(info, a) then Added(s1, false) else AddReference(h, s1, id, a.src, a.judged)
  }

  /** A fresh entry with its time penalty: in no table yet, but counted as new. */
  function Penalised(h: Hashing, s: State, a: AddArgs, penalty: int): State {
    var created := Create(h, s, a.addr, a.src);
    var info := created.mapInfo[s.nIdCount];
    SetInfo(created, s.nIdCount, info.(time := Max(0, info.time - penalty)))
  }

  function AddUnknown(h: Hashing, s: State, a: AddArgs, penalty: int): Added {
    AddReference(h, Penalised(h, s, a, penalty), s.nIdCount, a.src, a.judged)
  }

  function AddSingle(h: Hashing, s: State, a: AddArgs): Added {
    if !h.routable(a.addr.service) then Added(s, false)
    else
      var penalty := if h.announces(a.addr.service, a.src) then 0 else a.penalty;
      match Find(s, a.addr.service)
      case Found(id) => AddKnown(h, s, id, a, penalty)
      case NotFound => AddUnknown(h, s, a, penalty)
  }

  /** The statistics of a successful connection. */
  function Succeeded(s: State, id: Id, time: int): State
    requires id in s.mapInfo
  {
    SetInfo(s.(lastGood := time), id, s.mapInfo[id].(lastSuccess := time, lastTry := time, attempts := 0))
  }

  function RememberCollision(s: State, id: Id): State {
    if |s.collisions| < TRIED_COLLISION_SIZE then s.(collisions := s.collisions + {id}) else s
  }

  function Good(h: Hashing, s: State, a: Service, testBeforeEvict: bool, time: int): Added {
    match Find(s, a)
    case NotFound => Added(s.(lastGood := time), false)
    case Found(id) =>
      var s1 := Succeeded(s, id, time);
      var info := s1.mapInfo[id];
      if info.inTried || info.refCount <= 0 then Added(s1, false)
      else if testBeforeEvict && TriedSlot(h, s.key, info.service) in s.triedTable then Added(RememberCollision(s1, id), false)
      else Added(MakeTried(h, s1, id), true)
  }

  function Attempt(s: State, a: Service, countFailure: bool, time: int): State {
    match Find(s, a)
    case NotFound => s
    case Found(id) =>
      var info := s.mapInfo[id].(lastTry := time);
      SetInfo(s, id, if countFailure && info.lastCountAttempt < s.lastGood
                     then info.(lastCountAttempt := time, attempts := info.attempts + 1) else info)
  }

  function Connected(s: State, a: Service, time: int): State {
    match Find(s, a)
    case NotFound => s
    case Found(id) =>
      if time - s.mapInfo[id].time > 20 * MINUTE then SetInfo(s, id, s.mapInfo[id].(time := time)) else s
  }

  function SetServices(s: State, a: Service, services: set<nat>): State {
    match Find(s, a)
    case NotFound => s
    case Found(id) => SetInfo(s, id, s.mapInfo[id].(services := services))
  }

  // ---------- Pending collisions ----------

  datatype Verdict = Keep | Erase | Replace

  /** What ResolveCollisions decides about one pending id at time now. */
  function Judge(h: Hashing, s: State, id: Id, now: int): Verdict {
    if id !in s.mapInfo then Erase
    else
      var info := s.mapInfo[id];
      var slot := TriedSlot(h, s.key, info.service);
      if !h.valid(info.service) then Erase
      else if slot !in s.triedTable then Replace
      else if s.triedTable[slot] !in s.mapInfo then Keep
      else
        var old_ := s.mapInfo[s.triedTable[slot]];
        if now - old_.lastSuccess < REPLACEMENT then Erase
        else if now - old_.lastTry < REPLACEMENT then
          if now - old_.lastTry > 60 then Replace else Keep
        else if now - info.lastSuccess > TEST_WINDOW then Replace
        else Keep
  }

  function ResolveOne(h: Hashing, s: State, id: Id, now: int): State {
    match Judge(h, s, id, now)
    case Keep => s
    case Erase => s.(collisions := s.collisions - {id})
    case Replace =>
      var s1 := if id in s.mapInfo then Good(h, s, s.mapInfo[id].service, false, now).state else s;
      s1.(collisions := s1.collisions - {id})
  }

  /** The loop of ResolveCollisions over the ids in `pending`, in this order; clock(id)
      is the time read while handling id. */
  function ResolveAll(h: Hashing, s: State, pending: seq<Id>, clock: Id -> int): State
    decreases |pending|
  {
    if pending == [] then s
    else ResolveAll(h, ResolveOne(h, s, pending[0], clock(pending[0])), pending[1..], clock)
  }

  /** SelectTriedCollision with the drawn id: the id of the tried entry to test, and
      the pending set without ids that are gone. */
  datatype Selected = Nothing | Selected(old_: Info)

  function SelectTriedCollision(h: Hashing, s: State, id: Id): (State, Selected) {
    if id !in s.collisions then (s, Nothing)
    else if id !in s.mapInfo then (s.(collisions := s.collisions - {id}), Nothing)
    else
      var slot := TriedSlot(h, s.key, s.mapInfo[id].service);
      if slot in s.triedTable && s.triedTable[slot] in s.mapInfo then (s, Selected(s.mapInfo[s.triedTable[slot]])) else (s, Nothing)
  }

  // ---------- GetAddr ----------

  datatype AddrQuery = AddrQuery(limit: nat, byNetwork: bool, network: Network, filtered: bool, now: int)

  predicate Wanted(h: Hashing, q: AddrQuery, info: Info) {
    (q.byNetwork ==> h.netClass(info.service) == q.network) && (q.filtered ==> !IsTerrible(info, q.now))
  }

  /** nNodes: the number of addresses asked for. */
  function AddrLimit(size: nat, maxAddresses: nat, maxPct: nat): nat {
    var byPct := if maxPct != 0 then Min(maxPct, 100) * size / 100 else size;
    if maxAddresses != 0 then Min(byPct, maxAddresses) else byPct
  }

  /** insecure_rand.randrange(vRandom.size() - n) + n */
  function DrawIndex(rand: nat -> nat, n: nat, size: nat): (k: nat)
    requires n < size
    ensures n <= k < size
  {
    n + rand(n) % (size - n)
  }

  /** The loop of GetAddr from index n on: the shuffled state and the ids returned. */
  function GetAddrFrom(h: Hashing, s: State, q: AddrQuery, rand: nat -> nat, n: nat, got: seq<Id>): (State, seq<Id>)
    decreases |s.vRandom| - n
  {
    if n >= |s.vRandom| || |got| >= q.limit then (s, got)
    else
      var s1 := SwapRandom(s, n, DrawIndex(rand, n, |s.vRandom|));
      var id := s1.vRandom[n];
      var got' := if id in s1.mapInfo && Wanted(h, q, s1.mapInfo[id]) then got + [id] else got;
      GetAddrFrom(h, s1, q, rand, n + 1, got')
  }
}
