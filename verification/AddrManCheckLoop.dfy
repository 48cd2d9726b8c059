/** The loops of CheckAddrman (src/addrman.cpp), proved to return 0 exactly when the
    declarative reading CheckPasses holds. */
module AddrManCheckLoop {
  import opened AddrManModel
  import opened AddrManInvariant
  import opened AddrManCheck
  import opened AddrManScan
  import A = AddrMan
  import opened Sets

  // ---------- First loop: the entries ----------

  /** The local counters cover the entries outside `todo`. */
  ghost predicate LocalOk(h: Hashing, mi: map<Id, Info>, todo: set<Id>, c: map<Network, NewTriedCount>, net: Network) {
    CountOf(c, net) == NewTriedCount(|NewIn(h, mi, todo, net)|, |TriedIn(h, mi, net) - todo|)
  }

  ghost predicate LocalsOk(h: Hashing, mi: map<Id, Info>, todo: set<Id>, c: map<Network, NewTriedCount>) {
    && (forall net: Network {:trigger LocalOk(h, mi, todo, c, net)} :: LocalOk(h, mi, todo, c, net))
    && (forall net :: net in c <==> net in LocalNets(h, mi, mi.Keys - todo))
  }

  lemma LocalsStart(h: Hashing, mi: map<Id, Info>)
    ensures LocalsOk(h, mi, mi.Keys, map[])
  {
    forall net: Network ensures LocalOk(h, mi, mi.Keys, map[], net) {
      SameSet(NewIn(h, mi, mi.Keys, net), {});
      SameSet(TriedIn(h, mi, net) - mi.Keys, {});
    }
  }

  lemma LocalsStep(h: Hashing, mi: map<Id, Info>, todo: set<Id>, c: map<Network, NewTriedCount>, id: Id)
    requires LocalsOk(h, mi, todo, c) && id in todo && id in mi
    ensures var t := mi[id].inTried;
            LocalsOk(h, mi, todo - {id}, Bump(c, h.network(mi[id].service), if t then 0 else 1, if t then 1 else 0))
  {
    var home := h.network(mi[id].service);
    var t := mi[id].inTried;
    var c' := Bump(c, home, if t then 0 else 1, if t then 1 else 0);
    forall net: Network ensures LocalOk(h, mi, todo - {id}, c', net) {
      assert LocalOk(h, mi, todo, c, net);
      CardChange(NewIn(h, mi, todo, net), NewIn(h, mi, todo - {id}, net), id);
      CardChange(TriedIn(h, mi, net) - todo, TriedIn(h, mi, net) - (todo - {id}), id);
    }
    forall net: Network ensures net in c' <==> net in LocalNets(h, mi, mi.Keys - (todo - {id})) {
      LocalNetsStep(h, mi, todo, id, net);
    }
  }

  lemma LocalNetsStep(h: Hashing, mi: map<Id, Info>, todo: set<Id>, id: Id, net: Network)
    requires id in todo && id in mi
    ensures net in LocalNets(h, mi, mi.Keys - (todo - {id})) <==>
      net == h.network(mi[id].service) || net in LocalNets(h, mi, mi.Keys - todo)
  {
    if net in LocalNets(h, mi, mi.Keys - todo) {
      var j :| j in mi.Keys - todo && j in mi && h.network(mi[j].service) == net;
      assert j in mi.Keys - (todo - {id});
    }
    if net in LocalNets(h, mi, mi.Keys - (todo - {id})) {
      var j :| j in mi.Keys - (todo - {id}) && j in mi && h.network(mi[j].service) == net;
      assert j == id || j in mi.Keys - todo;
    }
    assert id in mi.Keys - (todo - {id});
  }

  /** What the first loop has collected about the entries outside `todo`. */
  ghost predicate Collected(mi: map<Id, Info>, todo: set<Id>, setTried: set<Id>, mapNew: map<Id, int>, id: Id) {
    && (id in setTried <==> id in TriedIds(mi) && id !in todo)
    && (id in mapNew <==> id in NewIds(mi, todo))
    && (id in mapNew && id in mi ==> mapNew[id] == mi[id].refCount)
  }

  ghost predicate CollectedAll(mi: map<Id, Info>, todo: set<Id>, setTried: set<Id>, mapNew: map<Id, int>) {
    forall id {:trigger Collected(mi, todo, setTried, mapNew, id)} :: Collected(mi, todo, setTried, mapNew, id)
  }

  /** The code of the first failing test for an entry, 0 if there is none. */
  method CheckEntry(m: A.AddrMan, id: Id) returns (code: int)
    requires id in m.mapInfo
    ensures code == 0 <==> EntryPasses(m.View(), id)
  {
    var info := m.mapInfo[id];
    if info.inTried {
      if info.lastSuccess == 0 { return -1; }
      if info.refCount != 0 { return -2; }
    } else {
      if info.refCount < 0 || info.refCount > NEW_BUCKETS_PER_ADDRESS { return -3; }
      if info.refCount == 0 { return -4; }
    }
    if info.service !in m.mapAddr || m.mapAddr[info.service] != id { return -5; }
    if info.randomPos < 0 || info.randomPos >= |m.vRandom| || m.vRandom[info.randomPos] != id { return -14; }
    if info.lastTry < 0 { return -6; }
    if info.lastSuccess < 0 { return -8; }
    code := 0;
  }

  method CheckEntries(m: A.AddrMan)
    returns (code: int, setTried: set<Id>, mapNew: map<Id, int>, counts: map<Network, NewTriedCount>)
    ensures code != 0 ==> exists id :: id in m.mapInfo && !EntryOk(m.View(), id)
    ensures code == 0 ==> forall id {:trigger EntryOk(m.View(), id)} :: EntryOk(m.View(), id)
    ensures code == 0 ==> CollectedAll(m.mapInfo, {}, setTried, mapNew) && LocalsOk(m.h, m.mapInfo, {}, counts)
  {
    setTried, mapNew, counts := {}, map[], map[];
    var todo := m.mapInfo.Keys;
    LocalsStart(m.h, m.mapInfo);
    while todo != {}
      invariant forall id :: id in todo ==> id in m.mapInfo
      invariant forall id {:trigger EntryOk(m.View(), id)} :: id !in todo ==> EntryOk(m.View(), id)
      invariant CollectedAll(m.mapInfo, todo, setTried, mapNew)
      invariant LocalsOk(m.h, m.mapInfo, todo, counts)
      decreases todo
    {
      NotEmpty(todo);
      var id :| id in todo;
      code := CheckEntry(m, id);
      if code != 0 { return; }
      LocalsStep(m.h, m.mapInfo, todo, counts, id);
      CollectStep(m.mapInfo, todo, setTried, mapNew, id);
      var info := m.mapInfo[id];
      if info.inTried {
        setTried := setTried + {id};
        counts := Bump(counts, m.h.network(info.service), 0, 1);
      } else {
        mapNew := mapNew[id := info.refCount];
        counts := Bump(counts, m.h.network(info.service), 1, 0);
      }
      todo := todo - {id};
    }
    code := 0;
  }

  lemma CollectStep(mi: map<Id, Info>, todo: set<Id>, setTried: set<Id>, mapNew: map<Id, int>, id: Id)
    requires CollectedAll(mi, todo, setTried, mapNew) && id in todo && id in mi
    ensures CollectedAll(mi, todo - {id},
              if mi[id].inTried then setTried + {id} else setTried,
              if mi[id].inTried then mapNew else mapNew[id := mi[id].refCount])
  {
    var st := if mi[id].inTried then setTried + {id} else setTried;
    var mn := if mi[id].inTried then mapNew else mapNew[id := mi[id].refCount];
    forall j: Id ensures Collected(mi, todo - {id}, st, mn, j) { assert Collected(mi, todo, setTried, mapNew, j); }
  }

  // ---------- Second loop: the tried table ----------

  /** setTried holds the tried ids not seen yet. */
  ghost predicate TriedLeft(h: Hashing, s: State, n: int, i: int, left: set<Id>, id: Id) {
    id in left <==>
      && id in TriedIds(s.mapInfo)
      && var sl := TriedSlot(h, s.key, s.mapInfo[id].service);
         !(Before(sl, n, i) && sl in s.triedTable && s.triedTable[sl] == id)
  }

  ghost predicate TriedScan(h: Hashing, s: State, n: int, i: int, left: set<Id>) {
    && (forall id {:trigger TriedLeft(h, s, n, i, left, id)} :: TriedLeft(h, s, n, i, left, id))
    && (forall sl {:trigger TriedSlotPasses(h, s, sl)} :: Before(sl, n, i) ==> TriedSlotPasses(h, s, sl))
  }

  /** One slot: either the scan goes on, or the slot is not as it should be. */
  lemma TriedScanStep(h: Hashing, s: State, n: int, i: int, left: set<Id>)
    requires TriedScan(h, s, n, i, left)
    ensures var sl := Slot(n, i);
            if sl !in s.triedTable then TriedScan(h, s, n, i + 1, left)
            else
              var id := s.triedTable[sl];
              if id in left && id in s.mapInfo && sl == TriedSlot(h, s.key, s.mapInfo[id].service)
              then TriedScan(h, s, n, i + 1, left - {id})
              else !TriedSlotPasses(h, s, sl)
  {
    var sl := Slot(n, i);
    var left' := if sl in s.triedTable then left - {s.triedTable[sl]} else left;
    if sl in s.triedTable { assert TriedLeft(h, s, n, i, left, s.triedTable[sl]); }
    var i' := i + 1;
    if sl in s.triedTable ==> s.triedTable[sl] in left && s.triedTable[sl] in s.mapInfo && TriedSlotPasses(h, s, sl) {
      forall id: Id ensures TriedLeft(h, s, n, i', left', id) { assert TriedLeft(h, s, n, i, left, id); }
      forall x: Slot | Before(x, n, i') ensures TriedSlotPasses(h, s, x) { assert x == sl || Before(x, n, i); }
    }
  }

  method CheckTriedTable(m: A.AddrMan, setTried: set<Id>, ghost mapNew: map<Id, int>) returns (code: int)
    requires m.Valid() && CollectedAll(m.mapInfo, {}, setTried, mapNew)
    ensures code != -13 && code != 0 ==> exists sl :: !TriedSlotPasses(m.h, m.View(), sl)
    ensures code == 0 || code == -13 ==> forall sl {:trigger TriedSlotPasses(m.h, m.View(), sl)} :: TriedSlotPasses(m.h, m.View(), sl)
    ensures code == 0 ==> forall id {:trigger TriedIdPlaced(m.h, m.View(), id)} :: TriedIdPlaced(m.h, m.View(), id)
    ensures code == -13 ==> exists id :: !TriedIdPlaced(m.h, m.View(), id)
  {
    ghost var s := m.View();
    var left := setTried;
    forall id: Id ensures TriedLeft(m.h, s, 0, 0, left, id) {
      assert Collected(m.mapInfo, {}, setTried, mapNew, id);
    }
    forall sl: Slot | Before(sl, 0, 0) ensures TriedSlotPasses(m.h, s, sl) { assert A.SlotTied(m.vvTried, m.triedTable, sl); }
    var n := 0;
    while n < TRIED_BUCKET_COUNT
      invariant 0 <= n <= TRIED_BUCKET_COUNT
      invariant TriedScan(m.h, s, n, 0, left)
    {
      code, left := CheckTriedBucket(m, n, left);
      if code != 0 { return; }
      n := n + 1;
    }
    forall sl: Slot ensures TriedSlotPasses(m.h, s, sl) {
      assert A.SlotTied(m.vvTried, m.triedTable, sl);
      assert Before(sl, n, 0) || sl !in s.triedTable;
    }
    code := if left == {} then 0 else -13;
    if left == {} {
      forall id: Id ensures TriedIdPlaced(m.h, s, id) { assert TriedLeft(m.h, s, n, 0, left, id); }
    } else {
      NotEmpty(left);
      ghost var id :| id in left;
      assert TriedLeft(m.h, s, n, 0, left, id);
      assert A.SlotTied(m.vvTried, m.triedTable, TriedSlot(m.h, s.key, s.mapInfo[id].service));
      assert !TriedIdPlaced(m.h, m.View(), id);
    }
  }

  method CheckTriedBucket(m: A.AddrMan, n: int, left0: set<Id>) returns (code: int, left: set<Id>)
    requires m.Valid() && 0 <= n < TRIED_BUCKET_COUNT && TriedScan(m.h, m.View(), n, 0, left0)
    ensures code == 0 || code == -11 || code == -17 || code == -18
    ensures code == 0 ==> TriedScan(m.h, m.View(), n + 1, 0, left)
    ensures code != 0 ==> exists sl :: !TriedSlotPasses(m.h, m.View(), sl)
  {
    left := left0;
    var i := 0;
    while i < BUCKET_SIZE
      invariant 0 <= i <= BUCKET_SIZE && TriedScan(m.h, m.View(), n, i, left)
    {
      code, left := CheckTriedSlot(m, n, i, left);
      if code != 0 { return; }
      i := i + 1;
    }
    BucketDone(m.h, m, m.View(), n, left);
    code := 0;
  }

  method CheckTriedSlot(m: A.AddrMan, n: int, i: int, left0: set<Id>) returns (code: int, left: set<Id>)
    requires m.Valid() && 0 <= n < TRIED_BUCKET_COUNT && 0 <= i < BUCKET_SIZE && TriedScan(m.h, m.View(), n, i, left0)
    ensures code == 0 || code == -11 || code == -17 || code == -18
    ensures code == 0 ==> TriedScan(m.h, m.View(), n, i + 1, left)
    ensures code != 0 ==> !TriedSlotPasses(m.h, m.View(), Slot(n, i))
  {
    TriedScanStep(m.h, m.View(), n, i, left0);
    left := left0;
    var id := m.GetTried(Slot(n, i));
    if id != -1 {
      if id !in left { return -11, left; }
      if id !in m.mapInfo || TriedBucket(m.h, m.key, m.mapInfo[id].service) != n { return -17, left; }
      if BucketPosition(m.h, m.key, false, n, m.mapInfo[id].service) != i { return -18, left; }
      left := left - {id};
    }
    code := 0;
  }

  lemma BucketDone(h: Hashing, m: A.AddrMan, s: State, n: int, left: set<Id>)
    requires m.Valid() && s == m.View() && TriedScan(h, s, n, BUCKET_SIZE, left)
    ensures TriedScan(h, s, n + 1, 0, left)
  {
    var n' := n + 1;
    forall sl: Slot | Before(sl, n', 0) ensures TriedSlotPasses(h, s, sl) {
      assert A.SlotTied(m.vvTried, m.triedTable, sl);
      assert Before(sl, n, BUCKET_SIZE) || sl !in s.triedTable;
    }
    forall id: Id ensures TriedLeft(h, s, n', 0, left, id) {
      assert TriedLeft(h, s, n, BUCKET_SIZE, left, id);
      if id in s.mapInfo { assert A.SlotTied(m.vvTried, m.triedTable, TriedSlot(h, s.key, s.mapInfo[id].service)); }
    }
  }

  // ---------- Third loop: the new table ----------

  /** mapNew holds, for the new ids, the references not seen yet. */
  ghost predicate NewLeft(s: State, n: int, i: int, left: map<Id, int>, id: Id) {
    && (id in left ==> id in NewIds(s.mapInfo, {}))
    && (id in NewIds(s.mapInfo, {}) ==>
          var seen := |Seen(s.newTable, n, i, id)|;
          && seen <= s.mapInfo[id].refCount
          && (id in left <==> seen < s.mapInfo[id].refCount)
          && (id in left ==> left[id] == s.mapInfo[id].refCount - seen))
  }

  ghost predicate NewScan(h: Hashing, s: State, n: int, i: int, left: map<Id, int>) {
    && (forall id {:trigger NewLeft(s, n, i, left, id)} :: NewLeft(s, n, i, left, id))
    && (forall sl {:trigger NewSlotPasses(h, s, sl)} :: Before(sl, n, i) ==> NewSlotPasses(h, s, sl))
  }

  ghost predicate NewTableFails(h: Hashing, s: State) {
    (exists sl :: !NewSlotPasses(h, s, sl)) || (exists id :: !NewIdPlaced(s, id))
  }

  function TakeOne(left: map<Id, int>, id: Id): map<Id, int>
    requires id in left
  {
    if left[id] == 1 then left - {id} else left[id := left[id] - 1]
  }

  lemma NewScanStep(h: Hashing, s: State, n: int, i: int, left: map<Id, int>)
    requires NewScan(h, s, n, i, left)
    requires Slot(n, i) in s.newTable ==> s.newTable[Slot(n, i)] in left && NewSlotPasses(h, s, Slot(n, i))
    ensures NewScan(h, s, n, i + 1, if Slot(n, i) in s.newTable then TakeOne(left, s.newTable[Slot(n, i)]) else left)
  {
    var i' := i + 1;
    var left' := if Slot(n, i) in s.newTable then TakeOne(left, s.newTable[Slot(n, i)]) else left;
    forall id: Id ensures NewLeft(s, n, i', left', id) {
      assert NewLeft(s, n, i, left, id);
      SeenStep(s.newTable, n, i, id);
    }
    forall x: Slot | Before(x, n, i') ensures NewSlotPasses(h, s, x) { assert x == Slot(n, i) || Before(x, n, i); }
  }

  /** An id without references left to see fails, one way or the other. */
  lemma NewScanFails(h: Hashing, s: State, n: int, i: int, left: map<Id, int>)
    requires NewScan(h, s, n, i, left) && Slot(n, i) in s.newTable && s.newTable[Slot(n, i)] !in left
    ensures !NewSlotPasses(h, s, Slot(n, i)) || !NewIdPlaced(s, s.newTable[Slot(n, i)])
  {
    var sl := Slot(n, i);
    var id := s.newTable[sl];
    assert NewLeft(s, n, i, left, id);
    if id in NewIds(s.mapInfo, {}) {
      SlotSubset(Seen(s.newTable, n, i, id) + {sl}, RefSlots(s.newTable, id));
    }
  }

  method CheckNewSlot(m: A.AddrMan, n: int, i: int, left0: map<Id, int>) returns (code: int, left: map<Id, int>)
    requires m.Valid() && 0 <= n < NEW_BUCKET_COUNT && 0 <= i < BUCKET_SIZE && NewScan(m.h, m.View(), n, i, left0)
    ensures code == 0 || code == -12 || code == -19
    ensures code == 0 ==> NewScan(m.h, m.View(), n, i + 1, left)
    ensures code != 0 ==> NewTableFails(m.h, m.View())
  {
    left := left0;
    var sl := Slot(n, i);
    var id := m.GetNew(sl);
    if id != -1 {
      if id !in left {
        NewScanFails(m.h, m.View(), n, i, left);
        return -12, left;
      }
      assert NewLeft(m.View(), n, i, left, id);
      if id !in m.mapInfo || BucketPosition(m.h, m.key, true, n, m.mapInfo[id].service) != i {
        assert !NewSlotPasses(m.h, m.View(), sl);
        return -19, left;
      }
      NewScanStep(m.h, m.View(), n, i, left);
      left := TakeOne(left, id);
    } else {
      NewScanStep(m.h, m.View(), n, i, left);
    }
    code := 0;
  }

  lemma SeenNext(m: A.AddrMan, n: int, id: Id)
    requires m.Valid()
    ensures Seen(m.newTable, n, BUCKET_SIZE, id) == Seen(m.newTable, n + 1, 0, id)
  {
    forall sl: Slot ensures sl in Seen(m.newTable, n, BUCKET_SIZE, id) <==> sl in Seen(m.newTable, n + 1, 0, id) {
      assert A.SlotTied(m.vvNew, m.newTable, sl);
    }
  }

  lemma NewBucketDone(m: A.AddrMan, n: int, left: map<Id, int>)
    requires m.Valid() && NewScan(m.h, m.View(), n, BUCKET_SIZE, left)
    ensures NewScan(m.h, m.View(), n + 1, 0, left)
  {
    var n' := n + 1;
    var s := m.View();
    forall sl: Slot | Before(sl, n', 0) ensures NewSlotPasses(m.h, s, sl) {
      assert A.SlotTied(m.vvNew, m.newTable, sl);
      assert Before(sl, n, BUCKET_SIZE) || sl !in s.newTable;
    }
    forall id: Id ensures NewLeft(s, n', 0, left, id) {
      assert NewLeft(s, n, BUCKET_SIZE, left, id);
      SeenNext(m, n, id);
    }
  }

  method CheckNewBucket(m: A.AddrMan, n: int, left0: map<Id, int>) returns (code: int, left: map<Id, int>)
    requires m.Valid() && 0 <= n < NEW_BUCKET_COUNT && NewScan(m.h, m.View(), n, 0, left0)
    ensures code == 0 || code == -12 || code == -19
    ensures code == 0 ==> NewScan(m.h, m.View(), n + 1, 0, left)
    ensures code != 0 ==> NewTableFails(m.h, m.View())
  {
    left := left0;
    var i := 0;
    while i < BUCKET_SIZE
      invariant 0 <= i <= BUCKET_SIZE && NewScan(m.h, m.View(), n, i, left)
    {
      code, left := CheckNewSlot(m, n, i, left);
      if code != 0 { return; }
      i := i + 1;
    }
    NewBucketDone(m, n, left);
    code := 0;
  }

  lemma NewScanStart(m: A.AddrMan, setTried: set<Id>, mapNew: map<Id, int>)
    requires m.Valid() && CollectedAll(m.mapInfo, {}, setTried, mapNew)
    requires forall id {:trigger EntryOk(m.View(), id)} :: EntryOk(m.View(), id)
    ensures NewScan(m.h, m.View(), 0, 0, mapNew)
  {
    var s := m.View();
    forall sl: Slot ensures Before(sl, 0, 0) ==> sl !in s.newTable { assert A.SlotTied(m.vvNew, m.newTable, sl); }
    forall id: Id ensures NewLeft(s, 0, 0, mapNew, id) {
      assert Collected(m.mapInfo, {}, setTried, mapNew, id) && EntryOk(s, id);
      assert Seen(s.newTable, 0, 0, id) == {};
    }
    forall sl: Slot | Before(sl, 0, 0) ensures NewSlotPasses(m.h, s, sl) { }
  }

  lemma NewScanEnd(m: A.AddrMan, left: map<Id, int>)
    requires m.Valid() && NewScan(m.h, m.View(), NEW_BUCKET_COUNT, 0, left)
    ensures forall sl {:trigger NewSlotPasses(m.h, m.View(), sl)} :: NewSlotPasses(m.h, m.View(), sl)
    ensures forall id {:trigger NewIdPlaced(m.View(), id)} :: NewIdPlaced(m.View(), id) <==> id !in left
  {
    var s := m.View();
    forall sl: Slot ensures sl in s.newTable ==> Before(sl, NEW_BUCKET_COUNT, 0) { assert A.SlotTied(m.vvNew, m.newTable, sl); }
    forall sl: Slot ensures NewSlotPasses(m.h, s, sl) { assert Before(sl, NEW_BUCKET_COUNT, 0) || sl !in s.newTable; }
    forall id: Id ensures NewIdPlaced(s, id) <==> id !in left {
      assert NewLeft(s, NEW_BUCKET_COUNT, 0, left, id);
      assert Seen(s.newTable, NEW_BUCKET_COUNT, 0, id) == RefSlots(s.newTable, id);
    }
  }

  method CheckNewTable(m: A.AddrMan, ghost setTried: set<Id>, mapNew: map<Id, int>) returns (code: int)
    requires m.Valid() && CollectedAll(m.mapInfo, {}, setTried, mapNew)
    requires forall id {:trigger EntryOk(m.View(), id)} :: EntryOk(m.View(), id)
    ensures code != 0 ==> NewTableFails(m.h, m.View())
    ensures code == 0 ==> forall sl {:trigger NewSlotPasses(m.h, m.View(), sl)} :: NewSlotPasses(m.h, m.View(), sl)
    ensures code == 0 ==> forall id {:trigger NewIdPlaced(m.View(), id)} :: NewIdPlaced(m.View(), id)
  {
    NewScanStart(m, setTried, mapNew);
    var left := mapNew;
    var n := 0;
    while n < NEW_BUCKET_COUNT
      invariant 0 <= n <= NEW_BUCKET_COUNT && NewScan(m.h, m.View(), n, 0, left)
    {
      code, left := CheckNewBucket(m, n, left);
      if code != 0 { return; }
      n := n + 1;
    }
    NewScanEnd(m, left);
    code := if left.Keys == {} then 0 else -15;
    if left.Keys != {} {
      NotEmpty(left.Keys);
      ghost var id :| id in left.Keys;
      assert !NewIdPlaced(m.View(), id);
    }
  }

  // ---------- The counters per network, and the whole check ----------

  method CheckNetworks(m: A.AddrMan, counts: map<Network, NewTriedCount>) returns (code: int)
    requires LocalsOk(m.h, m.mapInfo, {}, counts)
    ensures code == 0 <==>
      && |LocalNets(m.h, m.mapInfo, m.mapInfo.Keys)| <= |m.netCounts.Keys|
      && (forall net: Network {:trigger NetPasses(m.h, m.View(), net)} :: NetPasses(m.h, m.View(), net))
  {
    assert m.mapInfo.Keys - {} == m.mapInfo.Keys;
    SameSet(counts.Keys, LocalNets(m.h, m.mapInfo, m.mapInfo.Keys));
    if |m.netCounts.Keys| < |counts.Keys| { return -20; }
    var todo := m.netCounts.Keys;
    while todo != {}
      invariant forall net :: net in todo ==> net in m.netCounts
      invariant forall net: Network {:trigger NetPasses(m.h, m.View(), net)} :: net !in todo ==> NetPasses(m.h, m.View(), net)
      decreases todo
    {
      NotEmpty(todo);
      var net :| net in todo;
      assert LocalOk(m.h, m.mapInfo, {}, counts, net);
      assert TriedIn(m.h, m.mapInfo, net) - {} == TriedIn(m.h, m.mapInfo, net);
      if CountOf(counts, net) != m.netCounts[net] {
        assert !NetPasses(m.h, m.View(), net);
        return -21;
      }
      todo := todo - {net};
    }
    code := 0;
  }

  /** Returns 0 exactly when the check passes. */
  method CheckAddrman(m: A.AddrMan) returns (code: int)
    requires m.Valid()
    ensures code == 0 <==> CheckPasses(m.h, m.View())
    ensures code == 0 && Unchecked(m.h, m.View()) <==> Consistent(m.h, m.View())
  {
    ArraysAreTables(m);
    CheckIsAlmostComplete(m.h, m.View());
    if |m.vRandom| != m.nTried + m.nNew { return -7; }
    var setTried, mapNew, counts;
    code, setTried, mapNew, counts := CheckEntries(m);
    if code != 0 { return; }
    CollectedSizes(m.mapInfo, setTried, mapNew);
    if |setTried| != m.nTried { return -9; }
    if |mapNew.Keys| != m.nNew { return -10; }
    // The sizes -13 and -15 are reported only after both tables have been scanned.
    var triedCode := CheckTriedTable(m, setTried, mapNew);
    if triedCode != 0 && triedCode != -13 { return triedCode; }
    var newCode := CheckNewTable(m, setTried, mapNew);
    if newCode != 0 && newCode != -15 { return newCode; }
    if triedCode != 0 { return triedCode; }
    if newCode != 0 { return newCode; }
    if m.key == 0 { return -16; }
    code := CheckNetworks(m, counts);
  }

  lemma ArraysAreTables(m: A.AddrMan)
    requires m.Valid()
    ensures InTable(m.View())
  {
    forall sl | sl in m.newTable ensures 0 <= sl.bucket < NEW_BUCKET_COUNT { assert A.SlotTied(m.vvNew, m.newTable, sl); }
  }

  lemma CollectedSizes(mi: map<Id, Info>, setTried: set<Id>, mapNew: map<Id, int>)
    requires CollectedAll(mi, {}, setTried, mapNew)
    ensures setTried == TriedIds(mi) && mapNew.Keys == NewIds(mi, {})
  {
    forall id: Id ensures (id in setTried <==> id in TriedIds(mi)) && (id in mapNew.Keys <==> id in NewIds(mi, {})) {
      assert Collected(mi, {}, setTried, mapNew, id);
    }
    SameSet(setTried, TriedIds(mi));
    SameSet(mapNew.Keys, NewIds(mi, {}));
  }
}
