/** Every operation of the address manager keeps its structures consistent. */
module AddrManOps {
  import opened AddrManModel
  import opened AddrManInvariant

  // ---------- From new to tried ----------

  lemma RemoveRefsTables(h: Hashing, s: State, id: Id, l: set<Id>)
    requires NewOk(h, s, l) && id in s.mapInfo && !s.mapInfo[id].inTried
    ensures NewOk(h, RemoveRefs(h, s, id), l + {id})
  {
    var s' := RemoveRefs(h, s, id);
    assert RefSlots(s'.newTable, id) == {};
    forall j: Id ensures RefsOk(s', j, l + {id}) {
      assert RefsOk(s, j, l);
      if j != id { assert RefSlots(s'.newTable, j) == RefSlots(s.newTable, j); }
    }
    forall sl: Slot ensures NewSlotOk(h, s', sl) { assert NewSlotOk(h, s, sl); }
  }

  /** After the scan entry id is loose and uncounted. */
  lemma RemoveRefsInv(h: Hashing, s: State, id: Id, l: set<Id>)
    requires Inv(h, s, l, {}) && id in s.mapInfo && !s.mapInfo[id].inTried
    ensures Inv(h, RemoveRefs(h, s, id), l + {id}, {id})
  {
    var s' := RemoveRefs(h, s, id);
    RemoveRefsTables(h, s, id, l);
    assert InfoIndexed(s, id);
    IndexedFrame(s, id, s'.mapInfo[id], s');
    forall sl: Slot ensures TriedSlotOk(h, s', sl) { assert TriedSlotOk(h, s, sl); }
    forall j: Id ensures TriedEntryOk(h, s', j) { assert TriedEntryOk(h, s, j); }
    CountsFollow(h, s, {}, s', {id}, id, h.network(s.mapInfo[id].service));
  }

  lemma LeaveTriedTables(h: Hashing, s: State, slot: Slot, l: set<Id>)
    requires TriedOk(h, s) && NewOk(h, s, l) && slot in s.triedTable && s.triedTable[slot] in s.mapInfo
    ensures TriedOk(h, LeaveTried(h, s, slot))
    ensures NewOk(h, LeaveTried(h, s, slot), l + {s.triedTable[slot]})
    ensures s.mapInfo[s.triedTable[slot]].inTried && s.triedTable[slot] !in l
  {
    var s' := LeaveTried(h, s, slot);
    var id := s.triedTable[slot];
    assert TriedSlotOk(h, s, slot) && RefsOk(s, id, l);
    forall sl: Slot ensures TriedSlotOk(h, s', sl) { assert TriedSlotOk(h, s, sl); }
    forall j: Id ensures TriedEntryOk(h, s', j) { assert TriedEntryOk(h, s, j); }
    forall sl: Slot ensures NewSlotOk(h, s', sl) { assert NewSlotOk(h, s, sl); }
    forall j: Id ensures RefsOk(s', j, l + {id}) { assert RefsOk(s, j, l); }
  }

  lemma LeaveTriedInv(h: Hashing, s: State, slot: Slot, l: set<Id>)
    requires Inv(h, s, l, l) && slot in s.triedTable && s.triedTable[slot] in s.mapInfo
    ensures Inv(h, LeaveTried(h, s, slot), l + {s.triedTable[slot]}, l + {s.triedTable[slot]})
    ensures s.triedTable[slot] !in l
  {
    var s' := LeaveTried(h, s, slot);
    var id := s.triedTable[slot];
    LeaveTriedTables(h, s, slot, l);
    assert InfoIndexed(s, id);
    IndexedFrame(s, id, s'.mapInfo[id], s');
    CountsFollow(h, s, l, s', l + {id}, id, h.network(s.mapInfo[id].service));
  }

  lemma EnterNewTables(h: Hashing, s: State, slot: Slot, id: Id, l: set<Id>)
    requires TriedOk(h, s) && NewOk(h, s, l) && id in s.mapInfo && id in l
    requires slot !in s.newTable && 0 <= slot.bucket < NEW_BUCKET_COUNT
    requires slot == NewSlotIn(h, s.key, s.mapInfo[id].service, slot.bucket)
    ensures TriedOk(h, EnterNew(h, s, slot, id)) && NewOk(h, EnterNew(h, s, slot, id), l - {id})
  {
    var s' := EnterNew(h, s, slot, id);
    assert RefsOk(s, id, l);
    RefSlotsAdd(s.newTable, slot, id);
    forall sl: Slot ensures TriedSlotOk(h, s', sl) { assert TriedSlotOk(h, s, sl); }
    forall j: Id ensures TriedEntryOk(h, s', j) { assert TriedEntryOk(h, s, j); }
    forall sl: Slot ensures NewSlotOk(h, s', sl) { assert NewSlotOk(h, s, sl); }
    forall j: Id ensures RefsOk(s', j, l - {id}) { assert RefsOk(s, j, l); }
  }

  lemma EnterNewInv(h: Hashing, s: State, slot: Slot, id: Id, l: set<Id>)
    requires Inv(h, s, l, l) && id in s.mapInfo && id in l
    requires slot !in s.newTable && 0 <= slot.bucket < NEW_BUCKET_COUNT
    requires slot == NewSlotIn(h, s.key, s.mapInfo[id].service, slot.bucket)
    ensures Inv(h, EnterNew(h, s, slot, id), l - {id}, l - {id})
  {
    var s' := EnterNew(h, s, slot, id);
    assert RefsOk(s, id, l);
    EnterNewTables(h, s, slot, id, l);
    assert InfoIndexed(s, id);
    IndexedFrame(s, id, s'.mapInfo[id], s');
    CountsFollow(h, s, l, s', l - {id}, id, h.network(s.mapInfo[id].service));
  }

  lemma EnterTriedTables(h: Hashing, s: State, slot: Slot, id: Id, l: set<Id>)
    requires TriedOk(h, s) && NewOk(h, s, l) && id in s.mapInfo && id in l
    requires slot !in s.triedTable && slot == TriedSlot(h, s.key, s.mapInfo[id].service)
    requires s.mapInfo[id].lastSuccess > 0
    ensures TriedOk(h, EnterTried(h, s, slot, id)) && NewOk(h, EnterTried(h, s, slot, id), l - {id})
  {
    var s' := EnterTried(h, s, slot, id);
    assert RefsOk(s, id, l);
    forall sl: Slot ensures TriedSlotOk(h, s', sl) { assert TriedSlotOk(h, s, sl); }
    forall j: Id ensures TriedEntryOk(h, s', j) { assert TriedEntryOk(h, s, j); }
    forall sl: Slot ensures NewSlotOk(h, s', sl) {
      assert NewSlotOk(h, s, sl);
      if sl in s.newTable { assert sl in RefSlots(s.newTable, s.newTable[sl]); }
    }
    forall j: Id ensures RefsOk(s', j, l - {id}) { assert RefsOk(s, j, l); }
  }

  lemma EnterTriedInv(h: Hashing, s: State, slot: Slot, id: Id, l: set<Id>)
    requires Inv(h, s, l, {id}) && id in s.mapInfo && id in l
    requires slot !in s.triedTable && slot == TriedSlot(h, s.key, s.mapInfo[id].service)
    requires s.mapInfo[id].lastSuccess > 0
    ensures Inv(h, EnterTried(h, s, slot, id), l - {id}, {})
  {
    var s' := EnterTried(h, s, slot, id);
    assert RefsOk(s, id, l);
    EnterTriedTables(h, s, slot, id, l);
    assert InfoIndexed(s, id);
    IndexedFrame(s, id, s'.mapInfo[id], s');
    CountsFollow(h, s, {id}, s', {}, id, h.network(s.mapInfo[id].service));
  }

  /** A loose entry occupies no slot of the new table. */
  lemma LooseHasNoSlot(h: Hashing, s: State, l: set<Id>, sl: Slot)
    requires NewOk(h, s, l) && sl in s.newTable
    ensures s.newTable[sl] !in l
  {
    assert NewSlotOk(h, s, sl) && RefsOk(s, s.newTable[sl], l);
    assert sl in RefSlots(s.newTable, s.newTable[sl]);
  }

  /** No new ids, at most one entry fewer, and id itself untouched. */
  ghost predicate AtMostOneLost(s: State, s': State) {
    && |s.vRandom| - 1 <= |s'.vRandom| <= |s.vRandom|
    && (forall j {:trigger j in s'.mapInfo} :: j in s'.mapInfo ==> j in s.mapInfo)
    && SameSides(s, s')
  }

  /** Entry j is still there, with at most its place in vRandom changed. */
  ghost predicate Survives(s: State, s': State, j: Id) {
    j in s.mapInfo && j in s'.mapInfo && s'.mapInfo[j] == s.mapInfo[j].(randomPos := s'.mapInfo[j].randomPos)
  }

  /** `id` and `old_` are loose in s and survive the step to s'. */
  ghost predicate BothSurvive(s: State, s': State, id: Id, old_: Id) {
    && Survives(s, s', id)
    && Survives(s, s', old_)
    && AtMostOneLost(s, s')
  }

  lemma EvictClear(h: Hashing, s: State, place: Slot, id: Id, old_: Id)
    requires Inv(h, s, {id, old_}, {id, old_}) && id in s.mapInfo && old_ in s.mapInfo
    ensures Inv(h, ClearNew(h, s, place), {id, old_}, {id, old_})
    ensures place !in ClearNew(h, s, place).newTable && ClearNew(h, s, place).triedTable == s.triedTable
    ensures BothSurvive(s, ClearNew(h, s, place), id, old_)
  {
    var l := {id, old_};
    var s' := ClearNew(h, s, place);
    ClearNewInv(h, s, place, l, l);
    if place in s.newTable { LooseHasNoSlot(h, s, l, place); }
    var gone := if place in s.newTable then s.newTable[place] else -1;
    assert OtherUntouched(s, s', gone, id) && OtherUntouched(s, s', gone, old_);
    forall j | j in s'.mapInfo ensures j in s.mapInfo { assert OtherUntouched(s, s', gone, j); }
  }

  /** The slot is free in s', id is still on its way, the former occupant is known. */
  ghost predicate Vacated(h: Hashing, s: State, s': State, slot: Slot, id: Id) {
    && Inv(h, s', {id}, {id})
    && s'.triedTable == s.triedTable - {slot}
    && Survives(s, s', id)
    && (slot in s.triedTable ==> s.triedTable[slot] in s'.mapInfo)
    && AtMostOneLost(s, s')
  }

  /** Eviction seen from its two ends; s2 is the state after ClearNew. */
  lemma EvictEnds(h: Hashing, s: State, slot: Slot, id: Id, place: Slot, s2: State)
    requires Inv(h, s, {id}, {id}) && id in s.mapInfo && slot in s.triedTable && s.triedTable[slot] in s.mapInfo
    requires place == NewSlot(h, s.key, s.mapInfo[s.triedTable[slot]].service, s.mapInfo[s.triedTable[slot]].source)
    requires Inv(h, s2, {id, s.triedTable[slot]}, {id, s.triedTable[slot]})
    requires place !in s2.newTable && s2.triedTable == s.triedTable - {slot}
    requires BothSurvive(LeaveTried(h, s, slot), s2, id, s.triedTable[slot]) && id != s.triedTable[slot]
    ensures Vacated(h, s, EnterNew(h, s2, place, s.triedTable[slot]), slot, id)
  {
    var old_ := s.triedTable[slot];
    EnterNewInv(h, s2, place, old_, {id, old_});
    assert {id, old_} - {old_} == {id};
  }

  /** Moving the occupant of a tried slot to the new table while `id` is on its way
      to tried: neither of the two is deleted, and at most one entry is. */
  lemma EvictInv(h: Hashing, s: State, slot: Slot, id: Id)
    requires Inv(h, s, {id}, {id}) && id in s.mapInfo && slot in s.triedTable && s.triedTable[slot] in s.mapInfo
    ensures Vacated(h, s, Evict(h, s, slot), slot, id)
  {
    var old_ := s.triedTable[slot];
    var place := NewSlot(h, s.key, s.mapInfo[old_].service, s.mapInfo[old_].source);
    LeaveTriedInv(h, s, slot, {id});
    assert {id} + {old_} == {id, old_};
    EvictClear(h, LeaveTried(h, s, slot), place, id, old_);
    EvictEnds(h, s, slot, id, place, ClearNew(h, LeaveTried(h, s, slot), place));
  }

  /** The tried slot is free for id, whether or not something had to be evicted. */
  lemma VacateInv(h: Hashing, s: State, slot: Slot, id: Id)
    requires Inv(h, s, {id}, {id}) && id in s.mapInfo
    ensures Vacated(h, s, Evict(h, s, slot), slot, id)
  {
    assert TriedSlotOk(h, s, slot);
    if slot in s.triedTable {
      EvictInv(h, s, slot, id);
    } else {
      assert s.triedTable - {slot} == s.triedTable;
    }
  }

  ghost predicate MovedToTried(h: Hashing, s: State, s': State, id: Id)
    requires id in s.mapInfo
  {
    var slot := TriedSlot(h, s.key, s.mapInfo[id].service);
    && id in s'.mapInfo && s'.mapInfo[id].inTried
    && s'.triedTable == s.triedTable[slot := id]
    && (slot in s.triedTable ==> s.triedTable[slot] in s'.mapInfo)
    && AtMostOneLost(s, s')
  }

  /** The last step of MakeTried; s2 is the state after the eviction. */
  lemma MakeTriedEnd(h: Hashing, s: State, id: Id, slot: Slot, s1: State, s2: State)
    requires id in s.mapInfo && s.mapInfo[id].lastSuccess > 0 && id in s1.mapInfo
    requires slot == TriedSlot(h, s.key, s.mapInfo[id].service)
    requires s1.mapInfo[id].service == s.mapInfo[id].service && s1.mapInfo[id].lastSuccess == s.mapInfo[id].lastSuccess
    requires s1.triedTable == s.triedTable && AtMostOneLost(s, s1) && |s1.vRandom| == |s.vRandom|
    requires Vacated(h, s1, s2, slot, id)
    ensures Consistent(h, EnterTried(h, s2, slot, id))
    ensures MovedToTried(h, s, EnterTried(h, s2, slot, id), id)
  {
    EnterTriedInv(h, s2, slot, id, {id});
    assert {id} - {id} == {};
    assert (s.triedTable - {slot})[slot := id] == s.triedTable[slot := id];
  }

  /** MakeTried keeps the structures consistent; the moved entry ends up in its tried
      slot, an evicted one stays known, at most one entry is lost, and no occupied
      slot of the tried table becomes free. */
  lemma MakeTriedInv(h: Hashing, s: State, id: Id)
    requires Consistent(h, s) && id in s.mapInfo && !s.mapInfo[id].inTried && s.mapInfo[id].lastSuccess > 0
    ensures Consistent(h, MakeTried(h, s, id))
    ensures MovedToTried(h, s, MakeTried(h, s, id), id)
  {
    var slot := TriedSlot(h, s.key, s.mapInfo[id].service);
    RemoveRefsInv(h, s, id, {});
    assert {} + {id} == {id};
    VacateInv(h, RemoveRefs(h, s, id), slot, id);
    MakeTriedEnd(h, s, id, slot, RemoveRefs(h, s, id), Evict(h, RemoveRefs(h, s, id), slot));
  }

  // ---------- What stays as it was ----------

  /** Entry j is not new, and keeps its address and its table. */
  ghost predicate Kept(s: State, s': State, j: Id) {
    j in s'.mapInfo ==>
      j in s.mapInfo && s'.mapInfo[j].service == s.mapInfo[j].service && s'.mapInfo[j].inTried == s.mapInfo[j].inTried
  }

  lemma DeleteKept(h: Hashing, s: State, id: Id, j: Id)
    ensures Kept(s, Delete(h, s, id), j)
    ensures SameSides(s, Delete(h, s, id)) && Delete(h, s, id).triedTable == s.triedTable
  {
    if id in s.mapInfo {
      SwapRandomMoves(s, s.mapInfo[id].randomPos, |s.vRandom| - 1, j);
      SwapRandomFrame(s, s.mapInfo[id].randomPos, |s.vRandom| - 1);
    }
  }

  lemma ClearNewKept(h: Hashing, s: State, slot: Slot, j: Id)
    ensures Kept(s, ClearNew(h, s, slot), j)
    ensures SameSides(s, ClearNew(h, s, slot)) && ClearNew(h, s, slot).triedTable == s.triedTable
  {
    if slot in s.newTable && s.newTable[slot] in s.mapInfo {
      DeleteKept(h, DropRef(s, slot), s.newTable[slot], j);
    }
  }

  lemma InsertKept(h: Hashing, s: State, slot: Slot, id: Id, j: Id)
    ensures Kept(s, Insert(h, s, slot, id), j)
    ensures SameSides(s, Insert(h, s, slot, id)) && Insert(h, s, slot, id).triedTable == s.triedTable
  {
    ClearNewKept(h, s, slot, j);
  }

  lemma AddReferenceKept(h: Hashing, s: State, id: Id, src: Source, now: int, j: Id)
    requires id in s.mapInfo
    ensures Kept(s, AddReference(h, s, id, src, now).state, j)
    ensures SameSides(s, AddReference(h, s, id, src, now).state)
    ensures AddReference(h, s, id, src, now).state.triedTable == s.triedTable
  {
    InsertKept(h, s, NewSlot(h, s.key, s.mapInfo[id].service, src), id, j);
    DeleteKept(h, s, id, j);
  }

  lemma RemoveLastEffect(h: Hashing, u: State, id: Id, j: Id)
    ensures RemoveLast(h, u, id).newTable == u.newTable
    ensures id in u.mapInfo && u.vRandom != [] ==> RemoveLast(h, u, id).mapAddr == u.mapAddr - {u.mapInfo[id].service}
    ensures j != id && j in u.mapInfo ==> j in RemoveLast(h, u, id).mapInfo && RemoveLast(h, u, id).mapInfo[j] == u.mapInfo[j]
  {
  }

  lemma DeleteOthers(h: Hashing, s: State, id: Id, j: Id)
    requires id in s.mapInfo && j in s.mapInfo && j != id
    ensures Survives(s, Delete(h, s, id), j)
  {
    var k := s.mapInfo[id].randomPos;
    SwapRandomMoves(s, k, |s.vRandom| - 1, j);
    RemoveLastEffect(h, SwapRandom(s, k, |s.vRandom| - 1), id, j);
  }

  lemma ClearNewOthers(h: Hashing, s: State, slot: Slot, id: Id)
    requires id in s.mapInfo && slot in s.newTable && s.newTable[slot] in s.mapInfo && s.newTable[slot] != id
    ensures Survives(s, ClearNew(h, s, slot), id)
  {
    DeleteOthers(h, DropRef(s, slot), s.newTable[slot], id);
  }

  // ---------- Adding ----------

  lemma InsertInv(h: Hashing, s: State, slot: Slot, id: Id, l: set<Id>)
    requires Inv(h, s, l, {}) && l <= {id} && id in s.mapInfo && !s.mapInfo[id].inTried
    requires s.mapInfo[id].refCount < NEW_BUCKETS_PER_ADDRESS
    requires 0 <= slot.bucket < NEW_BUCKET_COUNT && slot == NewSlotIn(h, s.key, s.mapInfo[id].service, slot.bucket)
    requires slot in s.newTable ==> s.newTable[slot] != id
    ensures Consistent(h, Insert(h, s, slot, id))
  {
    ClearNewInv(h, s, slot, l, {});
    assert InfoIndexed(s, id) && NewSlotOk(h, s, slot);
    if slot in s.newTable {
      ClearNewOthers(h, s, slot, id);
    }
    SlotCleared(h, s, slot);
    InsertCleared(h, s, ClearNew(h, s, slot), slot, id, l);
  }

  lemma SlotCleared(h: Hashing, s: State, slot: Slot)
    requires slot in s.newTable ==> s.newTable[slot] in s.mapInfo
    ensures slot !in ClearNew(h, s, slot).newTable && ClearNew(h, s, slot).key == s.key
  {
  }

  lemma InsertCleared(h: Hashing, s: State, s1: State, slot: Slot, id: Id, l: set<Id>)
    requires s1 == ClearNew(h, s, slot) && Inv(h, s1, l, {}) && l <= {id} && slot !in s1.newTable
    requires id in s1.mapInfo && !s1.mapInfo[id].inTried && s1.mapInfo[id].refCount < NEW_BUCKETS_PER_ADDRESS
    requires 0 <= slot.bucket < NEW_BUCKET_COUNT && slot == NewSlotIn(h, s1.key, s1.mapInfo[id].service, slot.bucket)
    ensures Consistent(h, Insert(h, s, slot, id))
  {
    GainRefInv(h, s1, slot, id, l, {});
    assert l - {id} == {};
  }

  lemma DropUnreferenced(h: Hashing, s: State, id: Id, l: set<Id>)
    requires Inv(h, s, l, {}) && l <= {id} && id in s.mapInfo && !s.mapInfo[id].inTried
    ensures s.mapInfo[id].refCount == 0 ==> Consistent(h, Delete(h, s, id))
    ensures s.mapInfo[id].refCount != 0 ==> l == {}
  {
    assert RefsOk(s, id, l);
    if s.mapInfo[id].refCount == 0 {
      assert l == {id};
      DeleteInv(h, s, id, l, {});
      assert l - {id} == {};
    } else {
      assert l == {};
    }
  }

  lemma AddReferenceInv(h: Hashing, s: State, id: Id, src: Source, now: int, l: set<Id>)
    requires Inv(h, s, l, {}) && l <= {id} && id in s.mapInfo && !s.mapInfo[id].inTried
    requires s.mapInfo[id].refCount < NEW_BUCKETS_PER_ADDRESS
    ensures Consistent(h, AddReference(h, s, id, src, now).state)
  {
    var slot := NewSlot(h, s.key, s.mapInfo[id].service, src);
    DropUnreferenced(h, s, id, l);
    if slot in s.newTable && s.newTable[slot] == id {
      assert RefsOk(s, id, l);
      assert slot in RefSlots(s.newTable, id);
    } else if MayTake(s, slot, id, now) {
      InsertInv(h, s, slot, id, l);
    }
  }

  lemma AddKnownInv(h: Hashing, s: State, id: Id, a: AddArgs, penalty: int)
    requires Consistent(h, s) && id in s.mapInfo
    ensures Consistent(h, AddKnown(h, s, id, a, penalty).state)
  {
    var info := Refreshed(s.mapInfo[id], a, penalty);
    assert InfoIndexed(s, id) && TriedEntryOk(h, s, id) && RefsOk(s, id, {});
    SetInfoInv(h, s, id, info, {}, {});
    if !NoNewReference(info, a) { AddReferenceInv(h, SetInfo(s, id, info), id, a.src, a.judged, {}); }
  }

  lemma PenalisedInv(h: Hashing, s: State, a: AddArgs, penalty: int)
    requires Consistent(h, s) && a.addr.service !in s.mapAddr
    ensures Inv(h, Penalised(h, s, a, penalty), {s.nIdCount}, {})
  {
    var s1 := Create(h, s, a.addr, a.src);
    var id := s.nIdCount;
    CreateInv(h, s, a.addr, a.src, {});
    assert {} + {id} == {id};
    SetInfoInv(h, s1, id, s1.mapInfo[id].(time := Max(0, s1.mapInfo[id].time - penalty)), {id}, {});
  }

  lemma AddUnknownInv(h: Hashing, s: State, a: AddArgs, penalty: int)
    requires Consistent(h, s) && a.addr.service !in s.mapAddr
    ensures Consistent(h, AddUnknown(h, s, a, penalty).state)
  {
    PenalisedInv(h, s, a, penalty);
    AddReferenceInv(h, Penalised(h, s, a, penalty), s.nIdCount, a.src, a.judged, {s.nIdCount});
  }

  lemma AddSingleInv(h: Hashing, s: State, a: AddArgs)
    requires Consistent(h, s)
    ensures Consistent(h, AddSingle(h, s, a).state)
  {
    var penalty := if h.announces(a.addr.service, a.src) then 0 else a.penalty;
    assert AddrIndexed(s, a.addr.service);
    match Find(s, a.addr.service) {
      case Found(id) => AddKnownInv(h, s, id, a, penalty);
      case NotFound => AddUnknownInv(h, s, a, penalty);
    }
  }

  // ---------- Good and the small updates ----------

  lemma SucceededInv(h: Hashing, s: State, id: Id, time: int)
    requires Consistent(h, s) && time > 0 && id in s.mapInfo
    ensures Consistent(h, Succeeded(s, id, time))
  {
    SideFieldsInv(h, s, time, s.collisions, {}, {});
    var info := s.mapInfo[id].(lastSuccess := time, lastTry := time, attempts := 0);
    SetInfoInv(h, s.(lastGood := time, collisions := s.collisions), id, info, {}, {});
  }

  lemma GoodInv(h: Hashing, s: State, a: Service, test: bool, time: int)
    requires Consistent(h, s) && time > 0
    ensures Consistent(h, Good(h, s, a, test, time).state)
  {
    if Find(s, a).NotFound? {
      SideFieldsInv(h, s, time, s.collisions, {}, {});
    } else {
      var id := Find(s, a).id;
      var s1 := Succeeded(s, id, time);
      SucceededInv(h, s, id, time);
      if !s1.mapInfo[id].inTried {
        SideFieldsInv(h, s1, s1.lastGood, s1.collisions + {id}, {}, {});
        MakeTriedInv(h, s1, id);
      }
    }
  }

  lemma AttemptInv(h: Hashing, s: State, a: Service, count: bool, time: int)
    requires Consistent(h, s) && time >= 0
    ensures Consistent(h, Attempt(s, a, count, time))
  {
    if Find(s, a).Found? {
      var id := Find(s, a).id;
      assert InfoIndexed(s, id) && TriedEntryOk(h, s, id);
      SetInfoInv(h, s, id, Attempt(s, a, count, time).mapInfo[id], {}, {});
    }
  }

  lemma ConnectedInv(h: Hashing, s: State, a: Service, time: int)
    requires Consistent(h, s)
    ensures Consistent(h, Connected(s, a, time))
  {
    if Find(s, a).Found? {
      var id := Find(s, a).id;
      assert InfoIndexed(s, id) && TriedEntryOk(h, s, id);
      SetInfoInv(h, s, id, s.mapInfo[id].(time := time), {}, {});
    }
  }

  lemma SetServicesInv(h: Hashing, s: State, a: Service, services: set<nat>)
    requires Consistent(h, s)
    ensures Consistent(h, SetServices(s, a, services))
  {
    if Find(s, a).Found? {
      var id := Find(s, a).id;
      assert InfoIndexed(s, id) && TriedEntryOk(h, s, id);
      SetInfoInv(h, s, id, s.mapInfo[id].(services := services), {}, {});
    }
  }

  // ---------- Pending collisions and GetAddr ----------

  lemma ResolveOneInv(h: Hashing, s: State, id: Id, now: int)
    requires Consistent(h, s) && now > 0
    ensures Consistent(h, ResolveOne(h, s, id, now))
  {
    SideFieldsInv(h, s, s.lastGood, s.collisions - {id}, {}, {});
    if id in s.mapInfo {
      var s1 := Good(h, s, s.mapInfo[id].service, false, now).state;
      GoodInv(h, s, s.mapInfo[id].service, false, now);
      SideFieldsInv(h, s1, s1.lastGood, s1.collisions - {id}, {}, {});
    }
  }

  lemma {:induction false} ResolveAllInv(h: Hashing, s: State, pending: seq<Id>, clock: Id -> int)
    requires Consistent(h, s) && forall id :: clock(id) > 0
    ensures Consistent(h, ResolveAll(h, s, pending, clock))
    decreases |pending|
  {
    if pending != [] {
      ResolveOneInv(h, s, pending[0], clock(pending[0]));
      ResolveAllInv(h, ResolveOne(h, s, pending[0], clock(pending[0])), pending[1..], clock);
    }
  }

  lemma SelectInv(h: Hashing, s: State, id: Id)
    requires Consistent(h, s)
    ensures Consistent(h, SelectTriedCollision(h, s, id).0)
  {
    SideFieldsInv(h, s, s.lastGood, s.collisions - {id}, {}, {});
  }

  lemma {:induction false} GetAddrInv(h: Hashing, s: State, q: AddrQuery, rand: nat -> nat, n: nat, got: seq<Id>)
    requires Consistent(h, s)
    ensures Consistent(h, GetAddrFrom(h, s, q, rand, n, got).0)
    decreases |s.vRandom| - n
  {
    if n < |s.vRandom| && |got| < q.limit {
      var k := DrawIndex(rand, n, |s.vRandom|);
      var s1 := SwapRandom(s, n, k);
      SwapRandomInv(h, s, n, k, {}, {});
      var id := s1.vRandom[n];
      var got' := if id in s1.mapInfo && Wanted(h, q, s1.mapInfo[id]) then got + [id] else got;
      GetAddrInv(h, s1, q, rand, n + 1, got');
    }
  }
}
