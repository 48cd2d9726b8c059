/** What it means for the five overlapping structures of the address manager to
    agree, and that every small operation keeps the agreement.

    Between small operations an entry can be `loose` (known to the indexes but in
    neither table) and, while it is moved between tables, `uncounted`. */
module AddrManInvariant {
  import opened AddrManModel
  import opened Sets

  // ---------- The invariant ----------

  ghost predicate InfoIndexed(s: State, id: Id) {
    id in s.mapInfo ==>
      var info := s.mapInfo[id];
      && 0 <= id < s.nIdCount
      && 0 <= info.randomPos < |s.vRandom| && s.vRandom[info.randomPos] == id
      && info.service in s.mapAddr && s.mapAddr[info.service] == id
      && info.lastTry >= 0 && info.lastSuccess >= 0
  }

  ghost predicate RandomIndexed(s: State, i: int) {
    0 <= i < |s.vRandom| ==> s.vRandom[i] in s.mapInfo && s.mapInfo[s.vRandom[i]].randomPos == i
  }

  ghost predicate AddrIndexed(s: State, a: Service) {
    a in s.mapAddr ==> s.mapAddr[a] in s.mapInfo && s.mapInfo[s.mapAddr[a]].service == a
  }

  /** mapInfo, mapAddr and vRandom describe the same entries. */
  ghost predicate Indexed(s: State) {
    && s.nIdCount >= 0
    && (forall id {:trigger InfoIndexed(s, id)} :: InfoIndexed(s, id))
    && (forall i {:trigger RandomIndexed(s, i)} :: RandomIndexed(s, i))
    && (forall a {:trigger AddrIndexed(s, a)} :: AddrIndexed(s, a))
  }

  ghost predicate TriedSlotOk(h: Hashing, s: State, sl: Slot) {
    sl in s.triedTable ==>
      && s.triedTable[sl] in s.mapInfo && s.mapInfo[s.triedTable[sl]].inTried
      && sl == TriedSlot(h, s.key, s.mapInfo[s.triedTable[sl]].service)
  }

  ghost predicate TriedEntryOk(h: Hashing, s: State, id: Id) {
    id in s.mapInfo && s.mapInfo[id].inTried ==>
      var sl := TriedSlot(h, s.key, s.mapInfo[id].service);
      sl in s.triedTable && s.triedTable[sl] == id && s.mapInfo[id].lastSuccess > 0
  }

  /** The tried table holds exactly the tried entries, each in its own slot. */
  ghost predicate TriedOk(h: Hashing, s: State) {
    && (forall sl {:trigger TriedSlotOk(h, s, sl)} :: TriedSlotOk(h, s, sl))
    && (forall id {:trigger TriedEntryOk(h, s, id)} :: TriedEntryOk(h, s, id))
  }

  ghost predicate NewSlotOk(h: Hashing, s: State, sl: Slot) {
    sl in s.newTable ==>
      var id := s.newTable[sl];
      && id in s.mapInfo && !s.mapInfo[id].inTried
      && 0 <= sl.bucket < NEW_BUCKET_COUNT
      && sl == NewSlotIn(h, s.key, s.mapInfo[id].service, sl.bucket)
  }

  ghost predicate RefsOk(s: State, id: Id, loose: set<Id>) {
    id in s.mapInfo ==>
      var info := s.mapInfo[id];
      && info.refCount == |RefSlots(s.newTable, id)|
      && info.refCount <= NEW_BUCKETS_PER_ADDRESS
      && (id in loose || info.inTried ==> info.refCount == 0)
      && (id in loose ==> !info.inTried)
      && (id !in loose && !info.inTried ==> info.refCount >= 1)
  }

  /** The new table holds only new entries, each in a slot of its own, and every
      reference count is the number of slots. */
  ghost predicate NewOk(h: Hashing, s: State, loose: set<Id>) {
    && (forall sl {:trigger NewSlotOk(h, s, sl)} :: NewSlotOk(h, s, sl))
    && (forall id {:trigger RefsOk(s, id, loose)} :: RefsOk(s, id, loose))
  }

  ghost function NewIds(mi: map<Id, Info>, uncounted: set<Id>): set<Id> {
    set id | id in mi && !mi[id].inTried && id !in uncounted
  }

  ghost function TriedIds(mi: map<Id, Info>): set<Id> {
    set id | id in mi && mi[id].inTried
  }

  ghost function NewIn(h: Hashing, mi: map<Id, Info>, uncounted: set<Id>, net: Network): set<Id> {
    set id | id in mi && !mi[id].inTried && id !in uncounted && h.network(mi[id].service) == net
  }

  ghost function TriedIn(h: Hashing, mi: map<Id, Info>, net: Network): set<Id> {
    set id | id in mi && mi[id].inTried && h.network(mi[id].service) == net
  }

  ghost predicate NetCountOk(h: Hashing, s: State, uncounted: set<Id>, net: Network) {
    CountOf(s.netCounts, net) ==
      NewTriedCount(|NewIn(h, s.mapInfo, uncounted, net)|, |TriedIn(h, s.mapInfo, net)|)
  }

  ghost predicate NetKnown(h: Hashing, s: State, id: Id) {
    id in s.mapInfo ==> h.network(s.mapInfo[id].service) in s.netCounts
  }

  /** nNew, nTried and the counters per network are exact. */
  ghost predicate CountsOk(h: Hashing, s: State, uncounted: set<Id>) {
    && s.nNew == |NewIds(s.mapInfo, uncounted)|
    && s.nTried == |TriedIds(s.mapInfo)|
    && (forall net: Network {:trigger NetCountOk(h, s, uncounted, net)} :: NetCountOk(h, s, uncounted, net))
    && (forall id {:trigger NetKnown(h, s, id)} :: NetKnown(h, s, id))
  }

  ghost predicate Inv(h: Hashing, s: State, loose: set<Id>, uncounted: set<Id>) {
    && Indexed(s)
    && TriedOk(h, s)
    && NewOk(h, s, loose)
    && CountsOk(h, s, uncounted)
    && uncounted <= loose
    && s.key != 0
  }

  ghost predicate Consistent(h: Hashing, s: State) {
    Inv(h, s, {}, {})
  }

  lemma EmptyConsistent(h: Hashing, key: Key)
    requires key != 0
    ensures Consistent(h, Empty(key))
  {
    var s := Empty(key);
    assert NewIds(s.mapInfo, {}) == {} && TriedIds(s.mapInfo) == {};
    forall net: Network ensures NetCountOk(h, s, {}, net) {
      assert NewIn(h, s.mapInfo, {}, net) == {} && TriedIn(h, s.mapInfo, net) == {};
    }
  }

  // ---------- Counting ----------

  lemma CardChange(a: set<Id>, b: set<Id>, id: Id)
    requires forall j :: j != id ==> (j in a <==> j in b)
    ensures |b| == |a| - (if id in a then 1 else 0) + (if id in b then 1 else 0)
  {
    SameSet(a - {id}, b - {id});
    assert |a| == |a - {id}| + if id in a then 1 else 0;
    assert |b| == |b - {id}| + if id in b then 1 else 0;
  }

  ghost function AsNew(mi: map<Id, Info>, uncounted: set<Id>, id: Id): int {
    if id in mi && !mi[id].inTried && id !in uncounted then 1 else 0
  }

  ghost function AsTried(mi: map<Id, Info>, id: Id): int {
    if id in mi && mi[id].inTried then 1 else 0
  }

  /** Entry j has the same role and address on both sides. */
  ghost predicate SameAt(m: map<Id, Info>, u: set<Id>, m': map<Id, Info>, u': set<Id>, j: Id) {
    && (j in m <==> j in m') && (j in u <==> j in u')
    && (j in m && j in m' ==> m[j].inTried == m'[j].inTried && m[j].service == m'[j].service)
  }

  /** The two maps differ, for counting purposes, at id only. */
  ghost predicate SameElsewhere(m: map<Id, Info>, u: set<Id>, m': map<Id, Info>, u': set<Id>, id: Id) {
    && (forall j {:trigger SameAt(m, u, m', u', j)} :: j != id ==> SameAt(m, u, m', u', j))
    && (id in m && id in m' ==> m[id].service == m'[id].service)
  }

  lemma TotalsChange(m: map<Id, Info>, u: set<Id>, m': map<Id, Info>, u': set<Id>, id: Id)
    requires SameElsewhere(m, u, m', u', id)
    ensures |NewIds(m', u')| == |NewIds(m, u)| - AsNew(m, u, id) + AsNew(m', u', id)
    ensures |TriedIds(m')| == |TriedIds(m)| - AsTried(m, id) + AsTried(m', id)
  {
    forall j | j != id
      ensures j in NewIds(m, u) <==> j in NewIds(m', u')
      ensures j in TriedIds(m) <==> j in TriedIds(m')
    { assert SameAt(m, u, m', u', j); }
    CardChange(NewIds(m, u), NewIds(m', u'), id);
    CardChange(TriedIds(m), TriedIds(m'), id);
  }

  lemma NetChange(h: Hashing, m: map<Id, Info>, u: set<Id>, m': map<Id, Info>, u': set<Id>, id: Id, home: Network, net: Network)
    requires SameElsewhere(m, u, m', u', id)
    requires id in m ==> h.network(m[id].service) == home
    requires id in m' ==> h.network(m'[id].service) == home
    ensures |NewIn(h, m', u', net)| == |NewIn(h, m, u, net)| + if net == home then AsNew(m', u', id) - AsNew(m, u, id) else 0
    ensures |TriedIn(h, m', net)| == |TriedIn(h, m, net)| + if net == home then AsTried(m', id) - AsTried(m, id) else 0
  {
    forall j | j != id
      ensures j in NewIn(h, m, u, net) <==> j in NewIn(h, m', u', net)
      ensures j in TriedIn(h, m, net) <==> j in TriedIn(h, m', net)
    { assert SameAt(m, u, m', u', j); }
    CardChange(NewIn(h, m, u, net), NewIn(h, m', u', net), id);
    CardChange(TriedIn(h, m, net), TriedIn(h, m', net), id);
  }

  /** The counters follow when entry id changes its role and they are bumped to match. */
  lemma CountsFollow(h: Hashing, s: State, u: set<Id>, s': State, u': set<Id>, id: Id, home: Network)
    requires CountsOk(h, s, u) && SameElsewhere(s.mapInfo, u, s'.mapInfo, u', id)
    requires id in s.mapInfo ==> h.network(s.mapInfo[id].service) == home
    requires id in s'.mapInfo ==> h.network(s'.mapInfo[id].service) == home
    requires s'.nNew == s.nNew - AsNew(s.mapInfo, u, id) + AsNew(s'.mapInfo, u', id)
    requires s'.nTried == s.nTried - AsTried(s.mapInfo, id) + AsTried(s'.mapInfo, id)
    requires s'.netCounts == Bump(s.netCounts, home,
               AsNew(s'.mapInfo, u', id) - AsNew(s.mapInfo, u, id), AsTried(s'.mapInfo, id) - AsTried(s.mapInfo, id))
    ensures CountsOk(h, s', u')
  {
    TotalsChange(s.mapInfo, u, s'.mapInfo, u', id);
    forall net: Network ensures NetCountOk(h, s', u', net) {
      assert NetCountOk(h, s, u, net);
      NetChange(h, s.mapInfo, u, s'.mapInfo, u', id, home, net);
    }
    forall j: Id ensures NetKnown(h, s', j) {
      assert NetKnown(h, s, j);
      assert j != id ==> SameAt(s.mapInfo, u, s'.mapInfo, u', j);
    }
  }

  /** Counters do not depend on anything but the set of ids, their role and address. */
  lemma CountsSame(h: Hashing, s: State, u: set<Id>, s': State)
    requires CountsOk(h, s, u) && s'.nNew == s.nNew && s'.nTried == s.nTried && s'.netCounts == s.netCounts
    requires forall j {:trigger SameAt(s.mapInfo, u, s'.mapInfo, u, j)} :: SameAt(s.mapInfo, u, s'.mapInfo, u, j)
    ensures CountsOk(h, s', u)
  {
    // -1 is as good as any id: nothing changes there either.
    assert SameAt(s.mapInfo, u, s'.mapInfo, u, -1);
    TotalsChange(s.mapInfo, u, s'.mapInfo, u, -1);
    forall net: Network ensures NetCountOk(h, s', u, net) {
      assert NetCountOk(h, s, u, net);
      var home := if -1 in s.mapInfo then h.network(s.mapInfo[-1].service) else net;
      NetChange(h, s.mapInfo, u, s'.mapInfo, u, -1, home, net);
    }
    forall j: Id ensures NetKnown(h, s', j) {
      assert NetKnown(h, s, j) && SameAt(s.mapInfo, u, s'.mapInfo, u, j);
    }
  }

  // ---------- Frames ----------

  /** Entry j keeps what its table slots depend on. */
  ghost predicate SameInTables(s: State, l: set<Id>, s': State, l': set<Id>, j: Id) {
    j in s'.mapInfo ==>
      && j in s.mapInfo && (j in l <==> j in l')
      && s'.mapInfo[j].service == s.mapInfo[j].service && s'.mapInfo[j].inTried == s.mapInfo[j].inTried
      && s'.mapInfo[j].refCount == s.mapInfo[j].refCount
      && (s'.mapInfo[j].inTried ==> s'.mapInfo[j].lastSuccess > 0)
  }

  /** Entry j, if it disappears, was in neither table. */
  ghost predicate GoneFromTables(s: State, s': State, j: Id) {
    j in s.mapInfo && j !in s'.mapInfo ==> !s.mapInfo[j].inTried && s.mapInfo[j].refCount == 0
  }

  lemma TriedFrame(h: Hashing, s: State, l: set<Id>, s': State, l': set<Id>)
    requires TriedOk(h, s) && s'.triedTable == s.triedTable && s'.key == s.key
    requires forall j {:trigger SameInTables(s, l, s', l', j)} :: SameInTables(s, l, s', l', j)
    requires forall j {:trigger GoneFromTables(s, s', j)} :: GoneFromTables(s, s', j)
    ensures TriedOk(h, s')
  {
    forall sl: Slot ensures TriedSlotOk(h, s', sl) {
      assert TriedSlotOk(h, s, sl);
      if sl in s.triedTable {
        assert SameInTables(s, l, s', l', s.triedTable[sl]) && GoneFromTables(s, s', s.triedTable[sl]);
      }
    }
    forall j: Id ensures TriedEntryOk(h, s', j) {
      assert TriedEntryOk(h, s, j) && SameInTables(s, l, s', l', j);
    }
  }

  lemma NewFrame(h: Hashing, s: State, l: set<Id>, s': State, l': set<Id>)
    requires NewOk(h, s, l) && s'.newTable == s.newTable && s'.key == s.key
    requires forall j {:trigger SameInTables(s, l, s', l', j)} :: SameInTables(s, l, s', l', j)
    requires forall j {:trigger GoneFromTables(s, s', j)} :: GoneFromTables(s, s', j)
    ensures NewOk(h, s', l')
  {
    forall sl: Slot ensures NewSlotOk(h, s', sl) {
      assert NewSlotOk(h, s, sl);
      if sl in s.newTable {
        var id := s.newTable[sl];
        assert sl in RefSlots(s.newTable, id);
        assert RefsOk(s, id, l) && SameInTables(s, l, s', l', id) && GoneFromTables(s, s', id);
      }
    }
    forall j: Id ensures RefsOk(s', j, l') { assert RefsOk(s, j, l) && SameInTables(s, l, s', l', j); }
  }

  lemma IndexedFrame(s: State, id: Id, info: Info, s': State)
    requires Indexed(s) && id in s.mapInfo && s'.mapInfo == s.mapInfo[id := info]
    requires info.service == s.mapInfo[id].service && info.randomPos == s.mapInfo[id].randomPos
    requires info.lastTry >= 0 && info.lastSuccess >= 0
    requires s'.vRandom == s.vRandom && s'.mapAddr == s.mapAddr && s'.nIdCount == s.nIdCount
    ensures Indexed(s')
  {
    forall j: Id ensures InfoIndexed(s', j) { assert InfoIndexed(s, j); }
    forall i: int ensures RandomIndexed(s', i) { assert RandomIndexed(s, i); }
    forall a: Service ensures AddrIndexed(s', a) { assert AddrIndexed(s, a); }
  }

  // ---------- Changes that concern no table ----------

  /** Two infos agree in everything the tables and indexes depend on. */
  ghost predicate SameRole(i: Info, j: Info) {
    i.service == j.service && i.refCount == j.refCount && i.inTried == j.inTried && i.randomPos == j.randomPos
  }

  lemma SetInfoInv(h: Hashing, s: State, id: Id, info: Info, l: set<Id>, u: set<Id>)
    requires Inv(h, s, l, u) && id in s.mapInfo && SameRole(info, s.mapInfo[id])
    requires info.lastTry >= 0 && info.lastSuccess >= 0 && (info.inTried ==> info.lastSuccess > 0)
    ensures Inv(h, SetInfo(s, id, info), l, u)
  {
    var s' := SetInfo(s, id, info);
    IndexedFrame(s, id, info, s');
    forall j: Id ensures SameInTables(s, l, s', l, j) { assert TriedEntryOk(h, s, j); }
    TriedFrame(h, s, l, s', l);
    NewFrame(h, s, l, s', l);
    CountsSame(h, s, u, s');
  }

  /** Fields outside the structures do not matter. */
  lemma SideFieldsInv(h: Hashing, s: State, good: int, collisions: set<Id>, l: set<Id>, u: set<Id>)
    requires Inv(h, s, l, u)
    ensures Inv(h, s.(lastGood := good, collisions := collisions), l, u)
  {
    var s' := s.(lastGood := good, collisions := collisions);
    forall j: Id ensures InfoIndexed(s', j) { assert InfoIndexed(s, j); }
    forall i: int ensures RandomIndexed(s', i) { assert RandomIndexed(s, i); }
    forall a: Service ensures AddrIndexed(s', a) { assert AddrIndexed(s, a); }
    forall j: Id ensures SameInTables(s, l, s', l, j) { assert TriedEntryOk(h, s, j); }
    TriedFrame(h, s, l, s', l);
    NewFrame(h, s, l, s', l);
    CountsSame(h, s, u, s');
  }

  /** Entry j keeps everything but its place in vRandom. */
  ghost predicate OnlyMoved(m: map<Id, Info>, m': map<Id, Info>, j: Id) {
    && (j in m <==> j in m')
    && (j in m && j in m' ==> m'[j] == m[j].(randomPos := m'[j].randomPos))
  }

  lemma SwapRandomIndexed(s: State, i: int, j: int)
    requires Indexed(s)
    ensures Indexed(SwapRandom(s, i, j))
    ensures |SwapRandom(s, i, j).vRandom| == |s.vRandom|
  {
    var s' := SwapRandom(s, i, j);
    assert RandomIndexed(s, i) && RandomIndexed(s, j);
    forall k: Id ensures InfoIndexed(s', k) { assert InfoIndexed(s, k); }
    forall k: int ensures RandomIndexed(s', k) { assert RandomIndexed(s, k); }
    forall a: Service ensures AddrIndexed(s', a) { assert AddrIndexed(s, a); }
  }

  lemma SwapRandomMoves(s: State, i: int, j: int, k: Id)
    ensures OnlyMoved(s.mapInfo, SwapRandom(s, i, j).mapInfo, k)
  {
  }

  lemma SwapRandomInv(h: Hashing, s: State, i: int, j: int, l: set<Id>, u: set<Id>)
    requires Inv(h, s, l, u)
    ensures Inv(h, SwapRandom(s, i, j), l, u)
  {
    var s' := SwapRandom(s, i, j);
    SwapRandomIndexed(s, i, j);
    forall k: Id
      ensures SameInTables(s, l, s', l, k) && GoneFromTables(s, s', k) && SameAt(s.mapInfo, u, s'.mapInfo, u, k)
    {
      assert TriedEntryOk(h, s, k);
      SwapRandomMoves(s, i, j, k);
    }
    TriedFrame(h, s, l, s', l);
    NewFrame(h, s, l, s', l);
    CountsSame(h, s, u, s');
  }

  // ---------- Create and Delete ----------

  lemma FreshId(s: State)
    requires Indexed(s)
    ensures s.nIdCount !in s.mapInfo
  {
    assert InfoIndexed(s, s.nIdCount);
  }

  lemma CreateIndexed(h: Hashing, s: State, addr: Address, src: Source)
    requires Indexed(s) && addr.service !in s.mapAddr
    ensures Indexed(Create(h, s, addr, src))
  {
    FreshId(s);
    var s' := Create(h, s, addr, src);
    forall j: Id ensures InfoIndexed(s', j) { assert InfoIndexed(s, j); }
    forall i: int ensures RandomIndexed(s', i) { assert RandomIndexed(s, i); }
    forall a: Service ensures AddrIndexed(s', a) { assert AddrIndexed(s, a); }
  }

  lemma CreateTables(h: Hashing, s: State, addr: Address, src: Source, l: set<Id>)
    requires NewOk(h, s, l) && TriedOk(h, s) && s.nIdCount !in s.mapInfo
    ensures NewOk(h, Create(h, s, addr, src), l + {s.nIdCount}) && TriedOk(h, Create(h, s, addr, src))
  {
    var s' := Create(h, s, addr, src);
    var id := s.nIdCount;
    forall sl: Slot ensures NewSlotOk(h, s', sl) && (sl in s.newTable ==> s.newTable[sl] != id) { assert NewSlotOk(h, s, sl); }
    assert RefSlots(s'.newTable, id) == {};
    forall j: Id ensures RefsOk(s', j, l + {id}) { assert RefsOk(s, j, l); }
    forall sl: Slot ensures TriedSlotOk(h, s', sl) { assert TriedSlotOk(h, s, sl); }
    forall j: Id ensures TriedEntryOk(h, s', j) { assert TriedEntryOk(h, s, j); }
  }

  lemma CreateInv(h: Hashing, s: State, addr: Address, src: Source, l: set<Id>)
    requires Inv(h, s, l, {}) && addr.service !in s.mapAddr
    ensures Inv(h, Create(h, s, addr, src), l + {s.nIdCount}, {})
  {
    FreshId(s);
    CreateIndexed(h, s, addr, src);
    CreateTables(h, s, addr, src, l);
    CountsFollow(h, s, {}, Create(h, s, addr, src), {}, s.nIdCount, h.network(addr.service));
  }

  lemma RemoveLastIndexed(h: Hashing, s: State, id: Id)
    requires Indexed(s) && id in s.mapInfo && |s.vRandom| >= 1 && s.vRandom[|s.vRandom| - 1] == id
    ensures Indexed(RemoveLast(h, s, id))
  {
    var s' := RemoveLast(h, s, id);
    assert InfoIndexed(s, id);
    assert RandomIndexed(s, |s.vRandom| - 1);
    forall j: Id ensures InfoIndexed(s', j) { assert InfoIndexed(s, j); }
    forall i: int ensures RandomIndexed(s', i) { assert RandomIndexed(s, i); }
    forall a: Service ensures AddrIndexed(s', a) { assert AddrIndexed(s, a); }
  }

  lemma RemoveLastInv(h: Hashing, s: State, id: Id, l: set<Id>, u: set<Id>)
    requires Inv(h, s, l, u) && id in s.mapInfo && id in l && id !in u
    requires |s.vRandom| >= 1 && s.vRandom[|s.vRandom| - 1] == id
    ensures Inv(h, RemoveLast(h, s, id), l - {id}, u)
  {
    var s' := RemoveLast(h, s, id);
    RemoveLastIndexed(h, s, id);
    assert RefsOk(s, id, l);
    forall j: Id ensures SameInTables(s, l, s', l - {id}, j) { assert TriedEntryOk(h, s, j); }
    TriedFrame(h, s, l, s', l - {id});
    NewFrame(h, s, l, s', l - {id});
    CountsFollow(h, s, u, s', u, id, h.network(s.mapInfo[id].service));
  }

  lemma SwapToEnd(s: State, id: Id)
    requires Indexed(s) && id in s.mapInfo
    ensures |s.vRandom| >= 1
    ensures var s1 := SwapRandom(s, s.mapInfo[id].randomPos, |s.vRandom| - 1);
            id in s1.mapInfo && |s1.vRandom| == |s.vRandom| && s1.vRandom[|s.vRandom| - 1] == id
  {
    assert InfoIndexed(s, id);
    assert RandomIndexed(s, |s.vRandom| - 1);
  }

  lemma DeleteInv(h: Hashing, s: State, id: Id, l: set<Id>, u: set<Id>)
    requires Inv(h, s, l, u) && id in s.mapInfo && id in l && id !in u
    ensures Inv(h, Delete(h, s, id), l - {id}, u)
  {
    SwapToEnd(s, id);
    SwapRandomInv(h, s, s.mapInfo[id].randomPos, |s.vRandom| - 1, l, u);
    RemoveLastInv(h, SwapRandom(s, s.mapInfo[id].randomPos, |s.vRandom| - 1), id, l, u);
  }

  /** Key, id counter, pending collisions and time of the last success are the same. */
  ghost predicate SameSides(s: State, s': State) {
    s'.key == s.key && s'.nIdCount == s.nIdCount && s'.collisions == s.collisions && s'.lastGood == s.lastGood
  }

  /** Entry j is untouched, except for its place in vRandom, unless it is `gone`. */
  ghost predicate OtherUntouched(s: State, s': State, gone: Id, j: Id) {
    && (j in s'.mapInfo ==> j in s.mapInfo)
    && (j in s.mapInfo && j != gone ==>
          j in s'.mapInfo && s'.mapInfo[j] == s.mapInfo[j].(randomPos := s'.mapInfo[j].randomPos))
  }

  ghost predicate OthersUntouched(s: State, s': State, gone: Id) {
    forall j {:trigger OtherUntouched(s, s', gone, j)} :: OtherUntouched(s, s', gone, j)
  }

  /** What Delete does to the other entries. */
  lemma DeleteEffect(h: Hashing, s: State, id: Id)
    requires Indexed(s) && id in s.mapInfo
    ensures OthersUntouched(s, Delete(h, s, id), id) && id !in Delete(h, s, id).mapInfo
    ensures |Delete(h, s, id).vRandom| == |s.vRandom| - 1
    ensures Delete(h, s, id).newTable == s.newTable && Delete(h, s, id).triedTable == s.triedTable
    ensures SameSides(s, Delete(h, s, id))
  {
    SwapToEnd(s, id);
    var s1 := SwapRandom(s, s.mapInfo[id].randomPos, |s.vRandom| - 1);
    SwapRandomFrame(s, s.mapInfo[id].randomPos, |s.vRandom| - 1);
    forall j: Id ensures OtherUntouched(s, RemoveLast(h, s1, id), id, j) {
      SwapRandomMoves(s, s.mapInfo[id].randomPos, |s.vRandom| - 1, j);
    }
  }

  lemma SwapRandomFrame(s: State, i: int, j: int)
    ensures SwapRandom(s, i, j) == s.(mapInfo := SwapRandom(s, i, j).mapInfo, vRandom := SwapRandom(s, i, j).vRandom)
  {
  }

  // ---------- The new table ----------

  /** Removing one slot takes one reference from its occupant only. */
  lemma RefSlotsRemove(t: Table, sl: Slot)
    requires sl in t
    ensures |RefSlots(t - {sl}, t[sl])| == |RefSlots(t, t[sl])| - 1
    ensures forall j :: j != t[sl] ==> RefSlots(t - {sl}, j) == RefSlots(t, j)
  {
    assert RefSlots(t - {sl}, t[sl]) == RefSlots(t, t[sl]) - {sl};
    assert sl in RefSlots(t, t[sl]);
    forall j | j != t[sl] ensures RefSlots(t - {sl}, j) == RefSlots(t, j) { }
  }

  lemma RefSlotsAdd(t: Table, sl: Slot, id: Id)
    requires sl !in t
    ensures |RefSlots(t[sl := id], id)| == |RefSlots(t, id)| + 1
    ensures forall j :: j != id ==> RefSlots(t[sl := id], j) == RefSlots(t, j)
  {
    assert RefSlots(t[sl := id], id) == RefSlots(t, id) + {sl};
    forall j | j != id ensures RefSlots(t[sl := id], j) == RefSlots(t, j) { }
  }

  /** Reference counts and the new table concern neither the indexes, nor the tried
      table, nor the counters. */
  lemma RefCountOnly(h: Hashing, s: State, id: Id, n: int, t: Table, u: set<Id>)
    requires Indexed(s) && TriedOk(h, s) && CountsOk(h, s, u) && id in s.mapInfo
    ensures Indexed(WithRefs(s, id, n, t)) && TriedOk(h, WithRefs(s, id, n, t)) && CountsOk(h, WithRefs(s, id, n, t), u)
  {
    var s' := WithRefs(s, id, n, t);
    assert InfoIndexed(s, id);
    IndexedFrame(s, id, s'.mapInfo[id], s');
    forall sl: Slot ensures TriedSlotOk(h, s', sl) { assert TriedSlotOk(h, s, sl); }
    forall j: Id ensures TriedEntryOk(h, s', j) { assert TriedEntryOk(h, s, j); }
    CountsSame(h, s, u, s');
  }

  /** Taking the occupant's reference in slot sl, without deleting the entry. */
  function DropRef(s: State, sl: Slot): State
    requires sl in s.newTable && s.newTable[sl] in s.mapInfo
  {
    var id := s.newTable[sl];
    WithRefs(s, id, s.mapInfo[id].refCount - 1, s.newTable - {sl})
  }

  lemma DropRefNew(h: Hashing, s: State, sl: Slot, l: set<Id>)
    requires NewOk(h, s, l) && sl in s.newTable && s.newTable[sl] in s.mapInfo
    ensures s.newTable[sl] !in l && s.mapInfo[s.newTable[sl]].refCount >= 1 && !s.mapInfo[s.newTable[sl]].inTried
    ensures NewOk(h, DropRef(s, sl), if s.mapInfo[s.newTable[sl]].refCount == 1 then l + {s.newTable[sl]} else l)
  {
    var id := s.newTable[sl];
    var s' := DropRef(s, sl);
    assert NewSlotOk(h, s, sl) && RefsOk(s, id, l);
    RefSlotsRemove(s.newTable, sl);
    assert sl in RefSlots(s.newTable, id);
    var l' := if s.mapInfo[id].refCount == 1 then l + {id} else l;
    forall j: Id ensures RefsOk(s', j, l') { assert RefsOk(s, j, l); }
    forall x: Slot ensures NewSlotOk(h, s', x) { assert NewSlotOk(h, s, x); }
  }

  lemma DropRefInv(h: Hashing, s: State, sl: Slot, l: set<Id>, u: set<Id>)
    requires Inv(h, s, l, u) && sl in s.newTable && s.newTable[sl] in s.mapInfo
    ensures s.newTable[sl] !in l && s.mapInfo[s.newTable[sl]].refCount >= 1
    ensures Inv(h, DropRef(s, sl), if s.mapInfo[s.newTable[sl]].refCount == 1 then l + {s.newTable[sl]} else l, u)
  {
    var id := s.newTable[sl];
    DropRefNew(h, s, sl, l);
    RefCountOnly(h, s, id, s.mapInfo[id].refCount - 1, s.newTable - {sl}, u);
  }

  lemma ClearLastInv(h: Hashing, s: State, sl: Slot, l: set<Id>, u: set<Id>)
    requires Inv(h, s, l, u) && sl in s.newTable && s.newTable[sl] in s.mapInfo
    requires s.mapInfo[s.newTable[sl]].refCount == 1
    ensures Inv(h, ClearNew(h, s, sl), l, u)
    ensures ClearNew(h, s, sl).newTable == s.newTable - {sl}
    ensures OthersUntouched(s, ClearNew(h, s, sl), s.newTable[sl])
    ensures |ClearNew(h, s, sl).vRandom| == |s.vRandom| - 1
    ensures SameSides(s, ClearNew(h, s, sl)) && ClearNew(h, s, sl).triedTable == s.triedTable
  {
    var id := s.newTable[sl];
    var s1 := DropRef(s, sl);
    assert ClearNew(h, s, sl) == Delete(h, s1, id);
    DropRefInv(h, s, sl, l, u);
    DeleteInv(h, s1, id, l + {id}, u);
    assert l + {id} - {id} == l;
    DeleteEffect(h, s1, id);
    forall j: Id ensures OtherUntouched(s, ClearNew(h, s, sl), id, j) {
      assert OtherUntouched(s1, Delete(h, s1, id), id, j);
    }
  }

  /** ClearNew keeps the invariant and empties the slot; only the entry in that slot
      can be deleted, and only with its last reference. */
  lemma ClearNewInv(h: Hashing, s: State, sl: Slot, l: set<Id>, u: set<Id>)
    requires Inv(h, s, l, u)
    ensures Inv(h, ClearNew(h, s, sl), l, u)
    ensures ClearNew(h, s, sl).newTable == s.newTable - {sl}
    ensures OthersUntouched(s, ClearNew(h, s, sl), if sl in s.newTable then s.newTable[sl] else -1)
    ensures |s.vRandom| - 1 <= |ClearNew(h, s, sl).vRandom| <= |s.vRandom|
    ensures SameSides(s, ClearNew(h, s, sl)) && ClearNew(h, s, sl).triedTable == s.triedTable
  {
    assert NewSlotOk(h, s, sl);
    if sl in s.newTable {
      DropRefInv(h, s, sl, l, u);
      if s.mapInfo[s.newTable[sl]].refCount == 1 { ClearLastInv(h, s, sl, l, u); }
    } else {
      assert s.newTable - {sl} == s.newTable;
    }
  }

  /** A new or loose entry gets one more reference in a free slot. */
  function GainRef(s: State, sl: Slot, id: Id): State
    requires id in s.mapInfo
  {
    WithRefs(s, id, s.mapInfo[id].refCount + 1, s.newTable[sl := id])
  }

  lemma GainRefNew(h: Hashing, s: State, sl: Slot, id: Id, l: set<Id>)
    requires NewOk(h, s, l) && id in s.mapInfo && !s.mapInfo[id].inTried
    requires sl !in s.newTable && 0 <= sl.bucket < NEW_BUCKET_COUNT
    requires sl == NewSlotIn(h, s.key, s.mapInfo[id].service, sl.bucket)
    requires s.mapInfo[id].refCount < NEW_BUCKETS_PER_ADDRESS
    ensures NewOk(h, GainRef(s, sl, id), l - {id})
  {
    var s' := GainRef(s, sl, id);
    RefSlotsAdd(s.newTable, sl, id);
    forall j: Id ensures RefsOk(s', j, l - {id}) { assert RefsOk(s, j, l); }
    forall x: Slot ensures NewSlotOk(h, s', x) { assert NewSlotOk(h, s, x); }
  }

  lemma GainRefInv(h: Hashing, s: State, sl: Slot, id: Id, l: set<Id>, u: set<Id>)
    requires Inv(h, s, l, u) && id in s.mapInfo && !s.mapInfo[id].inTried && id !in u
    requires sl !in s.newTable && 0 <= sl.bucket < NEW_BUCKET_COUNT
    requires sl == NewSlotIn(h, s.key, s.mapInfo[id].service, sl.bucket)
    requires s.mapInfo[id].refCount < NEW_BUCKETS_PER_ADDRESS
    ensures Inv(h, GainRef(s, sl, id), l - {id}, u)
  {
    GainRefNew(h, s, sl, id, l);
    RefCountOnly(h, s, id, s.mapInfo[id].refCount + 1, s.newTable[sl := id], u);
  }
}
