/** What the operations of the address manager do and do not change (src/addrman.cpp). */
module AddrManEffects {
  import opened AddrManModel
  import opened AddrManInvariant
  import opened AddrManOps
  import opened AddrManRuns

  // ---------- Histories ----------

  /** Only the reference count, the table and the place in vRandom may differ. */
  ghost predicate SameHistory(a: Info, b: Info) {
    a.(refCount := b.refCount, inTried := b.inTried, randomPos := b.randomPos) == b
  }

  ghost predicate HistoryKept(s: State, s': State, j: Id) {
    j in s'.mapInfo ==> j in s.mapInfo && SameHistory(s.mapInfo[j], s'.mapInfo[j])
  }

  lemma DeleteHistory(h: Hashing, s: State, id: Id, j: Id)
    ensures HistoryKept(s, Delete(h, s, id), j)
  {
    if id in s.mapInfo {
      SwapRandomMoves(s, s.mapInfo[id].randomPos, |s.vRandom| - 1, j);
    }
  }

  lemma ClearNewHistory(h: Hashing, s: State, slot: Slot, j: Id)
    ensures HistoryKept(s, ClearNew(h, s, slot), j)
  {
    if slot in s.newTable && s.newTable[slot] in s.mapInfo {
      DeleteHistory(h, DropRef(s, slot), s.newTable[slot], j);
    }
  }

  lemma EvictHistory(h: Hashing, s: State, slot: Slot, j: Id)
    ensures HistoryKept(s, Evict(h, s, slot), j)
  {
    if slot in s.triedTable && s.triedTable[slot] in s.mapInfo {
      var old_ := s.triedTable[slot];
      ClearNewHistory(h, LeaveTried(h, s, slot), NewSlot(h, s.key, s.mapInfo[old_].service, s.mapInfo[old_].source), j);
    }
  }

  /** Moving an entry to tried changes no entry's times, services or attempts. */
  lemma MakeTriedHistory(h: Hashing, s: State, id: Id, j: Id)
    requires id in s.mapInfo
    ensures HistoryKept(s, MakeTried(h, s, id), j)
  {
    var s1 := RemoveRefs(h, s, id);
    EvictHistory(h, s1, TriedSlot(h, s.key, s.mapInfo[id].service), j);
  }

  lemma AddReferenceHistory(h: Hashing, s: State, id: Id, src: Source, now: int, j: Id)
    requires id in s.mapInfo
    ensures HistoryKept(s, AddReference(h, s, id, src, now).state, j)
  {
    ClearNewHistory(h, s, NewSlot(h, s.key, s.mapInfo[id].service, src), j);
    DeleteHistory(h, s, id, j);
  }

  lemma AddKnownHistory(h: Hashing, s: State, id: Id, a: AddArgs, penalty: int, j: Id)
    requires id in s.mapInfo && j != id
    ensures HistoryKept(s, AddKnown(h, s, id, a, penalty).state, j)
  {
    AddReferenceHistory(h, SetInfo(s, id, Refreshed(s.mapInfo[id], a, penalty)), id, a.src, a.judged, j);
  }

  lemma AddUnknownHistory(h: Hashing, s: State, a: AddArgs, penalty: int, j: Id)
    requires j != s.nIdCount
    ensures HistoryKept(s, AddUnknown(h, s, a, penalty).state, j)
  {
    AddReferenceHistory(h, Penalised(h, s, a, penalty), s.nIdCount, a.src, a.judged, j);
  }

  /** AddSingle changes the history of no address but its own. */
  lemma AddSingleHistory(h: Hashing, s: State, a: AddArgs, j: Id)
    requires Consistent(h, s) && j in s.mapInfo && s.mapInfo[j].service != a.addr.service
    ensures HistoryKept(s, AddSingle(h, s, a).state, j)
  {
    var penalty := if h.announces(a.addr.service, a.src) then 0 else a.penalty;
    assert AddrIndexed(s, a.addr.service) && InfoIndexed(s, j);
    match Find(s, a.addr.service) {
      case Found(id) => AddKnownHistory(h, s, id, a, penalty, j);
      case NotFound => AddUnknownHistory(h, s, a, penalty, j);
    }
  }

  /** Good changes the history of its own entry only, and there only the record of the success. */
  lemma GoodHistory(h: Hashing, s: State, a: Service, test: bool, time: int, j: Id)
    ensures Find(s, a) != Found(j) ==> HistoryKept(s, Good(h, s, a, test, time).state, j)
    ensures var s' := Good(h, s, a, test, time).state; Find(s, a) == Found(j) && j in s'.mapInfo ==>
      j in s.mapInfo && SameHistory(s.mapInfo[j].(lastSuccess := time, lastTry := time, attempts := 0), s'.mapInfo[j])
  {
    if Find(s, a).Found? {
      MakeTriedHistory(h, Succeeded(s, Find(s, a).id, time), Find(s, a).id, j);
    }
  }

  // ---------- What Good does ----------

  /** When Good says that it moved an entry, the entry was new and is now in its tried slot; with
      test before evict the slot was free. */
  lemma GoodMoves(h: Hashing, s: State, a: Service, test: bool, time: int)
    requires Consistent(h, s) && time > 0 && Good(h, s, a, test, time).inserted
    ensures Find(s, a).Found? && !s.mapInfo[Find(s, a).id].inTried
    ensures var slot := TriedSlot(h, s.key, a);
      (test ==> slot !in s.triedTable) && Good(h, s, a, test, time).state.triedTable == s.triedTable[slot := Find(s, a).id]
  {
    var id := Find(s, a).id;
    var s1 := Succeeded(s, id, time);
    assert AddrIndexed(s, a);
    SucceededInv(h, s, id, time);
    MakeTriedInv(h, s1, id);
  }

  /** Otherwise both tables and the set of entries are as they were, and the address is unknown, tried
      already, or waiting for the test of the entry in its slot. */
  lemma GoodStays(h: Hashing, s: State, a: Service, test: bool, time: int)
    requires Consistent(h, s) && time > 0 && !Good(h, s, a, test, time).inserted
    ensures var s' := Good(h, s, a, test, time).state;
      s'.triedTable == s.triedTable && s'.newTable == s.newTable && s'.mapInfo.Keys == s.mapInfo.Keys
    ensures Find(s, a).Found? ==> s.mapInfo[Find(s, a).id].inTried || (test && TriedSlot(h, s.key, a) in s.triedTable)
  {
    if Find(s, a).Found? {
      assert AddrIndexed(s, a) && RefsOk(s, Find(s, a).id, {});
    }
  }

  // ---------- What AddSingle does ----------

  /** Afterwards the slot holds id, and the entry it held before has lost this one reference. */
  ghost predicate Replaced(s: State, s': State, slot: Slot, id: Id) {
    && s'.newTable == s.newTable[slot := id]
    && (slot in s.newTable ==> s.newTable[slot] != id)
    && id in s'.mapInfo && !s'.mapInfo[id].inTried
  }

  lemma ClearNewTable(h: Hashing, s: State, slot: Slot)
    ensures slot in s.newTable && s.newTable[slot] in s.mapInfo ==> ClearNew(h, s, slot).newTable == s.newTable - {slot}
    ensures !(slot in s.newTable && s.newTable[slot] in s.mapInfo) ==> ClearNew(h, s, slot) == s
  {
    if slot in s.newTable && s.newTable[slot] in s.mapInfo {
      DeleteTable(h, DropRef(s, slot), s.newTable[slot]);
    }
  }

  lemma DeleteTable(h: Hashing, s: State, id: Id)
    requires id in s.mapInfo
    ensures Delete(h, s, id).newTable == s.newTable
    ensures s.vRandom != [] ==> Delete(h, s, id).mapAddr == s.mapAddr - {s.mapInfo[id].service}
  {
    var k := s.mapInfo[id].randomPos;
    SwapRandomFrame(s, k, |s.vRandom| - 1);
    SwapRandomMoves(s, k, |s.vRandom| - 1, id);
    RemoveLastEffect(h, SwapRandom(s, k, |s.vRandom| - 1), id, id);
  }

  lemma InsertOutcome(h: Hashing, s: State, slot: Slot, id: Id)
    requires id in s.mapInfo && !s.mapInfo[id].inTried
    requires slot in s.newTable ==> s.newTable[slot] in s.mapInfo && s.newTable[slot] != id
    ensures Replaced(s, Insert(h, s, slot, id), slot, id)
  {
    ClearNewTable(h, s, slot);
    if slot in s.newTable {
      ClearNewOthers(h, s, slot, id);
      assert (s.newTable - {slot})[slot := id] == s.newTable[slot := id];
    }
  }

  lemma AddReferenceOutcome(h: Hashing, s: State, id: Id, src: Source, now: int, l: set<Id>)
    requires Inv(h, s, l, {}) && id in s.mapInfo && !s.mapInfo[id].inTried
    ensures var r := AddReference(h, s, id, src, now); var slot := NewSlot(h, s.key, s.mapInfo[id].service, src);
      && (r.inserted ==> Replaced(s, r.state, slot, id))
      && (!r.inserted ==> r.state.newTable == s.newTable)
      && (!r.inserted && s.mapInfo[id].refCount > 0 ==> r.state == s)
  {
    var slot := NewSlot(h, s.key, s.mapInfo[id].service, src);
    assert NewSlotOk(h, s, slot);
    if slot !in s.newTable || s.newTable[slot] != id {
      InsertOutcome(h, s, slot, id);
    }
    DeleteTable(h, s, id);
  }

  lemma AddKnownOutcome(h: Hashing, s: State, id: Id, a: AddArgs, penalty: int)
    requires Consistent(h, s) && id in s.mapInfo
    ensures var r := AddKnown(h, s, id, a, penalty);
      && (r.inserted ==> Replaced(s, r.state, NewSlot(h, s.key, s.mapInfo[id].service, a.src), id) && r.state.mapInfo[id].service == s.mapInfo[id].service)
      && (!r.inserted ==> r.state == SetInfo(s, id, Refreshed(s.mapInfo[id], a, penalty)))
  {
    var info := Refreshed(s.mapInfo[id], a, penalty);
    assert InfoIndexed(s, id) && TriedEntryOk(h, s, id) && RefsOk(s, id, {});
    SetInfoInv(h, s, id, info, {}, {});
    if !NoNewReference(info, a) {
      AddReferenceOutcome(h, SetInfo(s, id, info), id, a.src, a.judged, {});
      AddReferenceHistory(h, SetInfo(s, id, info), id, a.src, a.judged, id);
    }
  }

  lemma AddUnknownOutcome(h: Hashing, s: State, a: AddArgs, penalty: int)
    requires Consistent(h, s) && a.addr.service !in s.mapAddr
    ensures var r := AddUnknown(h, s, a, penalty);
      && (r.inserted ==> Replaced(s, r.state, NewSlot(h, s.key, a.addr.service, a.src), s.nIdCount) && r.state.mapInfo[s.nIdCount].service == a.addr.service)
      && (!r.inserted ==> r.state.newTable == s.newTable && r.state.mapAddr == s.mapAddr)
  {
    var id, t := s.nIdCount, Penalised(h, s, a, penalty);
    var slot := NewSlot(h, s.key, a.addr.service, a.src);
    PenalisedInv(h, s, a, penalty);
    AddReferenceOutcome(h, t, id, a.src, a.judged, {id});
    AddReferenceHistory(h, t, id, a.src, a.judged, id);
    assert NewSlotOk(h, s, slot) && InfoIndexed(s, id);
    assert slot in s.newTable ==> s.newTable[slot] != id;
    DeleteTable(h, t, id);
    assert t.mapAddr - {a.addr.service} == s.mapAddr;
  }

  /**
   * AddSingle reports an insertion exactly when the address takes over the slot that its bucket has for
   * it; the tables change there and nowhere else. Otherwise neither table nor the known addresses change.
   */
  lemma AddSingleOutcome(h: Hashing, s: State, a: AddArgs)
    requires Consistent(h, s)
    ensures var r := AddSingle(h, s, a);
      && (r.inserted ==>
            && Find(r.state, a.addr.service).Found?
            && Replaced(s, r.state, NewSlot(h, s.key, a.addr.service, a.src), Find(r.state, a.addr.service).id)
            && (Find(s, a.addr.service).Found? ==> Find(r.state, a.addr.service) == Find(s, a.addr.service)))
      && (!r.inserted ==> r.state.newTable == s.newTable && r.state.mapAddr == s.mapAddr)
      && r.state.triedTable == s.triedTable
  {
    var service, r := a.addr.service, AddSingle(h, s, a);
    var penalty := if h.announces(service, a.src) then 0 else a.penalty;
    assert AddrIndexed(s, service);
    AddSingleInv(h, s, a);
    AddSingleKept(h, s, a, -1);
    match Find(s, service) {
      case Found(id) =>
        AddKnownOutcome(h, s, id, a, penalty);
        assert InfoIndexed(r.state, id);
      case NotFound =>
        AddUnknownOutcome(h, s, a, penalty);
        assert InfoIndexed(r.state, s.nIdCount);
    }
  }

  // ---------- Who is evicted ----------

  ghost predicate Stale(s: State, id: Id, now: int) { id in s.mapInfo && now - s.mapInfo[id].lastSuccess >= REPLACEMENT }

  /** What Good can do to the entry o in a tried slot. */
  lemma GoodAtSlot(h: Hashing, s: State, id: Id, now: int, slot: Slot)
    requires Consistent(h, s) && now > 0 && slot in s.triedTable && id in s.mapInfo
    ensures var s' := Good(h, s, s.mapInfo[id].service, false, now).state; var o := s.triedTable[slot];
      && (slot != TriedSlot(h, s.key, s.mapInfo[id].service) ==> slot in s'.triedTable && s'.triedTable[slot] == o)
      && (o != id && o in s'.mapInfo ==> o in s.mapInfo && s'.mapInfo[o].lastSuccess == s.mapInfo[o].lastSuccess)
  {
    var a := s.mapInfo[id].service;
    assert InfoIndexed(s, id) && Find(s, a) == Found(id);
    GoodHistory(h, s, a, false, now, s.triedTable[slot]);
    if Good(h, s, a, false, now).inserted {
      GoodMoves(h, s, a, false, now);
    } else {
      GoodStays(h, s, a, false, now);
    }
  }

  lemma ResolveOneSpares(h: Hashing, s: State, id: Id, now: int, slot: Slot)
    requires Consistent(h, s) && now > 0 && slot in s.triedTable
    ensures var s' := ResolveOne(h, s, id, now); var o := s.triedTable[slot];
      && (slot in s'.triedTable && s'.triedTable[slot] != o ==> Stale(s, o, now))
      && (o in s'.mapInfo && !Stale(s, o, now) ==> o in s.mapInfo && s'.mapInfo[o].lastSuccess == s.mapInfo[o].lastSuccess)
  {
    assert TriedSlotOk(h, s, slot);
    if id in s.mapInfo {
      GoodAtSlot(h, s, id, now, slot);
    }
  }

  lemma {:induction false} ResolveAllSpares(h: Hashing, s: State, pending: seq<Id>, clock: Id -> int, slot: Slot)
    requires Consistent(h, s) && (forall id :: clock(id) > 0) && slot in s.triedTable
    ensures var s' := ResolveAll(h, s, pending, clock);
      slot in s'.triedTable && s'.triedTable[slot] != s.triedTable[slot] ==>
        exists i :: 0 <= i < |pending| && Stale(s, s.triedTable[slot], clock(pending[i]))
    decreases |pending|
  {
    if pending != [] {
      var id, o := pending[0], s.triedTable[slot];
      var s1 := ResolveOne(h, s, id, clock(id));
      ResolveOneSpares(h, s, id, clock(id), slot);
      ResolveOneInv(h, s, id, clock(id));
      ResolveOneLater(h, s, id, clock(id));
      assert SlotLater(s, s1, slot);
      if !Stale(s, o, clock(id)) {
        assert TriedSlotOk(h, s1, slot) && TriedSlotOk(h, s, slot);
        ResolveAllSpares(h, s1, pending[1..], clock, slot);
        if i :| 0 <= i < |pending[1..]| && Stale(s1, o, clock(pending[1..][i])) {
          assert Stale(s, o, clock(pending[i + 1]));
        }
      }
    }
  }

  /** No operation displaces a tried entry that connected within the last four hours: only resolving
      collisions displaces any, and only one whose last success is at least so long ago. */
  lemma DoSpares(h: Hashing, s: State, op: Op, slot: Slot)
    requires Consistent(h, s) && TimesOk(op) && slot in s.triedTable
    ensures slot in Do(h, s, op).triedTable
    ensures Do(h, s, op).triedTable[slot] != s.triedTable[slot] ==>
      op.OpResolve? && exists i :: 0 <= i < |op.pending| && Stale(s, s.triedTable[slot], op.clock(op.pending[i]))
  {
    DoLater(h, s, op);
    assert SlotLater(s, Do(h, s, op), slot);
    match op {
      case OpAdd(a) => AddSingleKept(h, s, a, -1);
      case OpGood(a, time) =>
        if Good(h, s, a, true, time).inserted {
          GoodMoves(h, s, a, true, time);
        } else {
          GoodStays(h, s, a, true, time);
        }
      case OpResolve(pending, clock) => ResolveAllSpares(h, s, pending, clock, slot);
      case OpGetAddr(q, rand) => GetAddrKept(h, s, q, rand, 0, [], -1);
      case _ =>
    }
  }
}
