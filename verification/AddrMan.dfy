/** The address manager as an object that updates its maps, its vector and its two
    bucket tables in place (src/addrman.cpp). Every method is proved equal to the
    function of the same name in AddrManModel, and proves the source's assertions. */
module AddrMan {
  import M = AddrManModel
  import opened AddrManModel
  import opened AddrManInvariant
  import opened AddrManOps
  import opened AddrManScan
  import opened Sets

  /** Slot sl of the bucket table shows what t says; -1 marks an empty slot. */
  ghost predicate SlotTied(a: array2<Id>, t: Table, sl: Slot)
    reads a
  {
    if 0 <= sl.bucket < a.Length0 && 0 <= sl.pos < a.Length1
    then a[sl.bucket, sl.pos] == (if sl in t then t[sl] else -1) && (sl in t ==> t[sl] != -1)
    else sl !in t
  }

  ghost predicate Tied(a: array2<Id>, t: Table)
    reads a
  {
    forall sl {:trigger SlotTied(a, t, sl)} :: SlotTied(a, t, sl)
  }

  class AddrMan {
    const h: Hashing
    const vvTried: array2<Id>
    const vvNew: array2<Id>
    var key: Key
    var nIdCount: Id
    var mapInfo: map<Id, Info>
    var mapAddr: map<Service, Id>
    var vRandom: seq<Id>
    var nTried: int
    var nNew: int
    var lastGood: int
    var collisions: set<Id>
    var netCounts: map<Network, NewTriedCount>
    ghost var triedTable: Table   // what vvTried shows
    ghost var newTable: Table     // what vvNew shows

    /** The value this object represents. */
    ghost function View(): State
      reads this
    {
      State(key, nIdCount, mapInfo, mapAddr, vRandom, nTried, triedTable, nNew, newTable, lastGood, collisions, netCounts)
    }

    ghost predicate Valid()
      reads this, vvTried, vvNew
    {
      && vvTried.Length0 == TRIED_BUCKET_COUNT && vvTried.Length1 == BUCKET_SIZE
      && vvNew.Length0 == NEW_BUCKET_COUNT && vvNew.Length1 == BUCKET_SIZE
      && vvTried != vvNew
      && Tied(vvTried, triedTable) && Tied(vvNew, newTable)
    }

    constructor (h: Hashing, key: Key)
      ensures Valid() && this.h == h && View() == Empty(key)
      ensures fresh(vvTried) && fresh(vvNew)
    {
      this.h := h;
      this.key := key;
      nIdCount, mapInfo, mapAddr, vRandom := 0, map[], map[], [];
      nTried, nNew, lastGood, collisions, netCounts := 0, 0, 1, {}, map[];
      vvTried := new Id[TRIED_BUCKET_COUNT, BUCKET_SIZE]((i, j) => -1);
      vvNew := new Id[NEW_BUCKET_COUNT, BUCKET_SIZE]((i, j) => -1);
      triedTable, newTable := map[], map[];
    }

    // ---------- The two bucket tables ----------

    method GetNew(sl: Slot) returns (id: Id)
      requires Valid() && 0 <= sl.bucket < NEW_BUCKET_COUNT && 0 <= sl.pos < BUCKET_SIZE
      ensures id != -1 <==> sl in newTable
      ensures id != -1 ==> newTable[sl] == id
    {
      assert SlotTied(vvNew, newTable, sl);
      id := vvNew[sl.bucket, sl.pos];
    }

    method GetTried(sl: Slot) returns (id: Id)
      requires Valid() && 0 <= sl.bucket < TRIED_BUCKET_COUNT && 0 <= sl.pos < BUCKET_SIZE
      ensures id != -1 <==> sl in triedTable
      ensures id != -1 ==> triedTable[sl] == id
    {
      assert SlotTied(vvTried, triedTable, sl);
      id := vvTried[sl.bucket, sl.pos];
    }

    method SetNew(sl: Slot, id: Id)
      requires Valid() && 0 <= sl.bucket < NEW_BUCKET_COUNT && 0 <= sl.pos < BUCKET_SIZE
      modifies this`newTable, vvNew
      ensures Valid() && newTable == if id == -1 then old(newTable) - {sl} else old(newTable)[sl := id]
    {
      vvNew[sl.bucket, sl.pos] := id;
      newTable := if id == -1 then newTable - {sl} else newTable[sl := id];
      forall x: Slot ensures SlotTied(vvNew, newTable, x) { assert old(SlotTied(vvNew, newTable, x)); }
      forall x: Slot ensures SlotTied(vvTried, triedTable, x) { assert old(SlotTied(vvTried, triedTable, x)); }
    }

    method SetTried(sl: Slot, id: Id)
      requires Valid() && 0 <= sl.bucket < TRIED_BUCKET_COUNT && 0 <= sl.pos < BUCKET_SIZE
      modifies this`triedTable, vvTried
      ensures Valid() && triedTable == if id == -1 then old(triedTable) - {sl} else old(triedTable)[sl := id]
    {
      vvTried[sl.bucket, sl.pos] := id;
      triedTable := if id == -1 then triedTable - {sl} else triedTable[sl := id];
      forall x: Slot ensures SlotTied(vvTried, triedTable, x) { assert old(SlotTied(vvTried, triedTable, x)); }
      forall x: Slot ensures SlotTied(vvNew, newTable, x) { assert old(SlotTied(vvNew, newTable, x)); }
    }

    // ---------- Small operations ----------

    method Find(a: Service) returns (r: Found)
      ensures r == M.Find(View(), a)
    {
      if a in mapAddr && mapAddr[a] in mapInfo { r := Found(mapAddr[a]); } else { r := NotFound; }
    }

    method Create(addr: Address, src: Source) returns (id: Id)
      requires Valid()
      modifies this
      ensures Valid() && id == old(nIdCount) && View() == M.Create(h, old(View()), addr, src)
    {
      id := nIdCount;
      nIdCount := nIdCount + 1;
      mapInfo := mapInfo[id := Info(addr.service, addr.time, addr.services, src, 0, 0, 0, 0, 0, false, |vRandom|)];
      mapAddr := mapAddr[addr.service := id];
      vRandom := vRandom + [id];
      nNew := nNew + 1;
      netCounts := Bump(netCounts, h.network(addr.service), 1, 0);
    }

    method SwapRandom(i: int, j: int)
      requires Valid() && Indexed(View())
      requires i != j ==> 0 <= i < |vRandom| && 0 <= j < |vRandom|
      modifies this
      ensures Valid() && View() == M.SwapRandom(old(View()), i, j)
    {
      if i == j { return; }
      var id1, id2 := vRandom[i], vRandom[j];
      assert RandomIndexed(View(), i) && RandomIndexed(View(), j);
      mapInfo := mapInfo[id1 := mapInfo[id1].(randomPos := j)];
      mapInfo := mapInfo[id2 := mapInfo[id2].(randomPos := i)];
      vRandom := vRandom[i := id2][j := id1];
    }

    method RemoveLast(id: Id)
      requires Valid() && id in mapInfo && vRandom != []
      modifies this
      ensures Valid() && View() == M.RemoveLast(h, old(View()), id)
    {
      netCounts := Bump(netCounts, h.network(mapInfo[id].service), -1, 0);
      vRandom := vRandom[..|vRandom| - 1];
      mapAddr := mapAddr - {mapInfo[id].service};
      mapInfo := mapInfo - {id};
      nNew := nNew - 1;
    }

    method Delete(id: Id)
      requires Valid() && Indexed(View())
      requires id in mapInfo && !mapInfo[id].inTried && mapInfo[id].refCount == 0
      modifies this
      ensures Valid() && View() == M.Delete(h, old(View()), id)
    {
      SwapToEnd(View(), id);
      assert InfoIndexed(View(), id);
      SwapRandom(mapInfo[id].randomPos, |vRandom| - 1);
      RemoveLast(id);
    }

    /** The occupant of the slot loses this reference. */
    method DropReference(sl: Slot, id: Id)
      requires Valid() && sl in newTable && newTable[sl] == id && id in mapInfo
      modifies this`mapInfo, this`newTable, vvNew
      ensures Valid() && View() == DropRef(old(View()), sl)
    {
      assert SlotTied(vvNew, newTable, sl);
      mapInfo := mapInfo[id := mapInfo[id].(refCount := mapInfo[id].refCount - 1)];
      SetNew(sl, -1);
    }

    method ClearNew(sl: Slot, ghost l: set<Id>, ghost u: set<Id>)
      requires Valid() && Inv(h, View(), l, u)
      requires 0 <= sl.bucket < NEW_BUCKET_COUNT && 0 <= sl.pos < BUCKET_SIZE
      modifies this, vvNew
      ensures Valid() && View() == M.ClearNew(h, old(View()), sl)
    {
      var id := GetNew(sl);
      if id != -1 {
        assert NewSlotOk(h, View(), sl);
        DropRefInv(h, View(), sl, l, u);
        DropRefNew(h, View(), sl, l);
        assert mapInfo[id].refCount > 0;
        DropReference(sl, id);
        if mapInfo[id].refCount == 0 { Delete(id); }
      }
    }

    /** One bucket of the scan. */
    method ScanSlot(sl: Slot, id: Id) returns (hit: bool)
      requires Valid() && 0 <= sl.bucket < NEW_BUCKET_COUNT && 0 <= sl.pos < BUCKET_SIZE && id in mapInfo && id != -1
      modifies this`mapInfo, this`newTable, vvNew
      ensures hit <==> sl in old(View()).newTable && old(View()).newTable[sl] == id
      ensures Valid() && View() == if hit then DropRef(old(View()), sl) else old(View())
    {
      var found := GetNew(sl);
      hit := found == id;
      if hit { DropReference(sl, id); }
    }

    /** The scan at the start of MakeTried, with its early exit. */
    method ScanReferences(id: Id)
      requires Valid() && id in mapInfo && id != -1
      requires OwnSlots(h, key, mapInfo[id].service, newTable, id)
      requires mapInfo[id].refCount == |RefSlots(newTable, id)|
      modifies this`mapInfo, this`newTable, vvNew
      ensures Valid() && View() == WithRefs(old(View()), id, 0, old(View()).newTable - RefSlots(old(View()).newTable, id))
    {
      ghost var s := View();
      var a := mapInfo[id].service;
      var start := NewBucket(h, key, a, mapInfo[id].source);
      ScanStart(s.newTable, id, start);
      var n := 0;
      while n < NEW_BUCKET_COUNT
        invariant 0 <= n <= NEW_BUCKET_COUNT && id in mapInfo
        invariant Valid() && View() == Scanning(s, id, start, n)
      {
        ScanStepState(h, s, id, start, n);
        var hit := ScanSlot(NewSlotIn(h, key, a, (start + n) % NEW_BUCKET_COUNT), id);
        n := n + 1;
        if hit && mapInfo[id].refCount == 0 { break; }
      }
      ScanEnd(h, key, a, s.newTable, id, start, n);
    }

    /** Takes the entry out of all its new buckets. */
    method RemoveRefs(id: Id)
      requires Valid() && Consistent(h, View()) && id in mapInfo && !mapInfo[id].inTried
      modifies this, vvNew
      ensures Valid() && View() == M.RemoveRefs(h, old(View()), id)
    {
      EntriesOwnTheirSlots(h, View(), id, {});
      assert RefsOk(View(), id, {}) && InfoIndexed(View(), id);
      ScanReferences(id);
      nNew := nNew - 1;
      netCounts := Bump(netCounts, h.network(mapInfo[id].service), -1, 0);
      assert mapInfo[id].refCount == 0;
    }

    method LeaveTried(sl: Slot, id: Id)
      requires Valid() && sl in triedTable && triedTable[sl] == id && id in mapInfo
      modifies this, vvTried
      ensures Valid() && View() == M.LeaveTried(h, old(View()), sl)
    {
      assert SlotTied(vvTried, triedTable, sl);
      mapInfo := mapInfo[id := mapInfo[id].(inTried := false)];
      nTried := nTried - 1;
      netCounts := Bump(netCounts, h.network(mapInfo[id].service), 0, -1);
      SetTried(sl, -1);
    }

    method EnterNew(sl: Slot, id: Id)
      requires Valid() && 0 <= sl.bucket < NEW_BUCKET_COUNT && 0 <= sl.pos < BUCKET_SIZE && id in mapInfo && id != -1
      modifies this, vvNew
      ensures Valid() && View() == M.EnterNew(h, old(View()), sl, id)
    {
      mapInfo := mapInfo[id := mapInfo[id].(refCount := 1)];
      nNew := nNew + 1;
      netCounts := Bump(netCounts, h.network(mapInfo[id].service), 1, 0);
      SetNew(sl, id);
    }

    method EnterTried(sl: Slot, id: Id)
      requires Valid() && 0 <= sl.bucket < TRIED_BUCKET_COUNT && 0 <= sl.pos < BUCKET_SIZE && id in mapInfo && id != -1
      modifies this, vvTried
      ensures Valid() && View() == M.EnterTried(h, old(View()), sl, id)
    {
      mapInfo := mapInfo[id := mapInfo[id].(inTried := true)];
      nTried := nTried + 1;
      netCounts := Bump(netCounts, h.network(mapInfo[id].service), 0, 1);
      SetTried(sl, id);
    }

    /** Makes space in the tried table for entry `moving`, which is in neither table. */
    method Evict(sl: Slot, ghost moving: Id)
      requires Valid() && Inv(h, View(), {moving}, {moving}) && moving in mapInfo
      requires 0 <= sl.bucket < TRIED_BUCKET_COUNT && 0 <= sl.pos < BUCKET_SIZE
      modifies this, vvNew, vvTried
      ensures Valid() && View() == M.Evict(h, old(View()), sl)
    {
      var old_ := GetTried(sl);
      if old_ != -1 {
        assert TriedSlotOk(h, View(), sl);
        ghost var s1 := M.LeaveTried(h, View(), sl);
        LeaveTriedInv(h, View(), sl, {moving});
        assert {moving} + {old_} == {moving, old_};
        var place := NewSlot(h, key, mapInfo[old_].service, mapInfo[old_].source);
        LeaveTried(sl, old_);
        EvictClear(h, s1, place, moving, old_);
        ClearNew(place, {moving, old_}, {moving, old_});
        assert place !in newTable;
        EnterNew(place, old_);
      }
    }

    method MakeTried(id: Id)
      requires Valid() && Consistent(h, View()) && id in mapInfo && !mapInfo[id].inTried && mapInfo[id].lastSuccess > 0
      modifies this, vvNew, vvTried
      ensures Valid() && View() == M.MakeTried(h, old(View()), id)
    {
      ghost var s := View();
      assert InfoIndexed(s, id);
      var sl := TriedSlot(h, key, mapInfo[id].service);
      RemoveRefsInv(h, s, id, {});
      assert {} + {id} == {id};
      VacateInv(h, M.RemoveRefs(h, s, id), sl, id);
      RemoveRefs(id);
      Evict(sl, id);
      assert sl !in triedTable;
      EnterTried(sl, id);
    }

    // ---------- Public operations ----------

    /** Overwrites a slot of the new table with a reference to id. */
    method Insert(sl: Slot, id: Id, ghost l: set<Id>)
      requires Valid() && Inv(h, View(), l, {}) && id in mapInfo
      requires sl in newTable ==> newTable[sl] != id
      requires 0 <= sl.bucket < NEW_BUCKET_COUNT && 0 <= sl.pos < BUCKET_SIZE
      modifies this, vvNew
      ensures Valid() && View() == M.Insert(h, old(View()), sl, id)
    {
      ghost var s := View();
      assert InfoIndexed(s, id) && NewSlotOk(h, s, sl);
      if sl in newTable {
        ClearNewOthers(h, s, sl, id);
      }
      ClearNew(sl, l, {});
      GainReference(sl, id);
    }

    method GainReference(sl: Slot, id: Id)
      requires Valid() && id in mapInfo && id >= 0
      requires 0 <= sl.bucket < NEW_BUCKET_COUNT && 0 <= sl.pos < BUCKET_SIZE
      modifies this, vvNew
      ensures Valid() && View() == WithRefs(old(View()), id, old(mapInfo[id].refCount) + 1, old(newTable)[sl := id])
    {
      mapInfo := mapInfo[id := mapInfo[id].(refCount := mapInfo[id].refCount + 1)];
      SetNew(sl, id);
    }

    method AddReference(id: Id, src: Source, now: int, ghost l: set<Id>) returns (inserted: bool)
      requires Valid() && Inv(h, View(), l, {}) && l <= {id} && id in mapInfo && !mapInfo[id].inTried
      modifies this, vvNew
      ensures Valid() && M.AddReference(h, old(View()), id, src, now) == Added(View(), inserted)
    {
      var sl := NewSlot(h, key, mapInfo[id].service, src);
      var occupant := GetNew(sl);
      inserted := occupant == -1;
      assert InfoIndexed(View(), id);
      if occupant != id {
        if !inserted {
          assert NewSlotOk(h, View(), sl);
          var other := mapInfo[occupant];
          if IsTerrible(other, now) || (other.refCount > 1 && mapInfo[id].refCount == 0) { inserted := true; }
        }
        if inserted {
          Insert(sl, id, l);
        } else if mapInfo[id].refCount == 0 {
          Delete(id);
        }
      }
    }

    method AddKnown(id: Id, a: AddArgs, penalty: int) returns (inserted: bool)
      requires Valid() && Consistent(h, View()) && id in mapInfo
      modifies this, vvNew
      ensures Valid() && M.AddKnown(h, old(View()), id, a, penalty) == Added(View(), inserted)
    {
      ghost var s := View();
      assert InfoIndexed(s, id) && TriedEntryOk(h, s, id);
      mapInfo := mapInfo[id := Refreshed(mapInfo[id], a, penalty)];
      SetInfoInv(h, s, id, mapInfo[id], {}, {});
      if NoNewReference(mapInfo[id], a) { return false; }
      inserted := AddReference(id, a.src, a.judged, {});
    }

    /** A new entry with the time penalty applied; it has no reference yet. */
    method CreatePenalised(a: AddArgs, penalty: int) returns (id: Id)
      requires Valid() && Consistent(h, View()) && a.addr.service !in mapAddr
      modifies this
      ensures Valid() && Inv(h, View(), {id}, {}) && id == old(nIdCount) && id in mapInfo && !mapInfo[id].inTried
      ensures View() == M.Penalised(h, old(View()), a, penalty)
    {
      CreateInv(h, View(), a.addr, a.src, {});
      assert {} + {nIdCount} == {nIdCount};
      id := Create(a.addr, a.src);
      ghost var s1 := View();
      mapInfo := mapInfo[id := mapInfo[id].(time := Max(0, mapInfo[id].time - penalty))];
      SetInfoInv(h, s1, id, mapInfo[id], {id}, {});
    }

    method AddUnknown(a: AddArgs, penalty: int) returns (inserted: bool)
      requires Valid() && Consistent(h, View()) && a.addr.service !in mapAddr
      modifies this, vvNew
      ensures Valid() && M.AddUnknown(h, old(View()), a, penalty) == Added(View(), inserted)
    {
      var id := CreatePenalised(a, penalty);
      inserted := AddReference(id, a.src, a.judged, {id});
    }

    method AddSingle(a: AddArgs) returns (inserted: bool)
      requires Valid() && Consistent(h, View())
      modifies this, vvNew
      ensures Valid() && Consistent(h, View())
      ensures M.AddSingle(h, old(View()), a) == Added(View(), inserted)
    {
      AddSingleInv(h, View(), a);
      if !h.routable(a.addr.service) { return false; }
      var penalty := if h.announces(a.addr.service, a.src) then 0 else a.penalty;
      assert AddrIndexed(View(), a.addr.service);
      var found := Find(a.addr.service);
      match found {
        case Found(id) => inserted := AddKnown(id, a, penalty);
        case NotFound => inserted := AddUnknown(a, penalty);
      }
    }

    method RecordSuccess(id: Id, time: int)
      requires Valid() && Consistent(h, View()) && time > 0 && id in mapInfo && lastGood == time
      modifies this`mapInfo
      ensures Valid() && Consistent(h, View()) && View() == Succeeded(old(View()), id, time)
    {
      SucceededInv(h, View(), id, time);
      mapInfo := mapInfo[id := mapInfo[id].(lastSuccess := time, lastTry := time, attempts := 0)];
    }

    /** The part of Good after the statistics are updated. */
    method PlaceGood(id: Id, testBeforeEvict: bool) returns (moved: bool)
      requires Valid() && Consistent(h, View()) && id in mapInfo && mapInfo[id].lastSuccess > 0
      modifies this, vvNew, vvTried
      ensures Valid()
      ensures Added(View(), moved) ==
                var s1 := old(View());
                if s1.mapInfo[id].inTried || s1.mapInfo[id].refCount <= 0 then Added(s1, false)
                else if testBeforeEvict && TriedSlot(h, s1.key, s1.mapInfo[id].service) in s1.triedTable
                then Added(RememberCollision(s1, id), false)
                else Added(M.MakeTried(h, s1, id), true)
    {
      if mapInfo[id].inTried { return false; }
      if mapInfo[id].refCount <= 0 { return false; }
      var there := GetTried(TriedSlot(h, key, mapInfo[id].service));
      if testBeforeEvict && there != -1 {
        if |collisions| < TRIED_COLLISION_SIZE { collisions := collisions + {id}; }
        return false;
      }
      MakeTried(id);
      moved := true;
    }

    method Good(a: Service, testBeforeEvict: bool, time: int) returns (moved: bool)
      requires Valid() && Consistent(h, View()) && time > 0
      modifies this, vvNew, vvTried
      ensures Valid() && Consistent(h, View())
      ensures M.Good(h, old(View()), a, testBeforeEvict, time) == Added(View(), moved)
    {
      GoodInv(h, View(), a, testBeforeEvict, time);
      SideFieldsInv(h, View(), time, collisions, {}, {});
      lastGood := time;
      var found := Find(a);
      if found.NotFound? { return false; }
      RecordSuccess(found.id, time);
      moved := PlaceGood(found.id, testBeforeEvict);
    }

    method Attempt(a: Service, countFailure: bool, time: int)
      requires Valid() && Consistent(h, View()) && time >= 0
      modifies this
      ensures Valid() && Consistent(h, View())
      ensures View() == M.Attempt(old(View()), a, countFailure, time)
    {
      AttemptInv(h, View(), a, countFailure, time);
      var found := Find(a);
      if found.NotFound? { return; }
      var info := mapInfo[found.id].(lastTry := time);
      if countFailure && info.lastCountAttempt < lastGood {
        info := info.(lastCountAttempt := time, attempts := info.attempts + 1);
      }
      mapInfo := mapInfo[found.id := info];
    }

    method Connected(a: Service, time: int)
      requires Valid() && Consistent(h, View())
      modifies this
      ensures Valid() && Consistent(h, View())
      ensures View() == M.Connected(old(View()), a, time)
    {
      ConnectedInv(h, View(), a, time);
      var found := Find(a);
      if found.NotFound? { return; }
      if time - mapInfo[found.id].time > 20 * MINUTE {
        mapInfo := mapInfo[found.id := mapInfo[found.id].(time := time)];
      }
    }

    method SetServices(a: Service, services: set<nat>)
      requires Valid() && Consistent(h, View())
      modifies this
      ensures Valid() && Consistent(h, View())
      ensures View() == M.SetServices(old(View()), a, services)
    {
      SetServicesInv(h, View(), a, services);
      var found := Find(a);
      if found.NotFound? { return; }
      mapInfo := mapInfo[found.id := mapInfo[found.id].(services := services)];
    }

    // ---------- Pending collisions ----------

    /** What is to be done about one pending collision. */
    method Decide(id: Id, now: int) returns (v: Verdict)
      requires Valid() && Consistent(h, View())
      ensures v == Judge(h, View(), id, now)
    {
      if id !in mapInfo { return Erase; }
      var info := mapInfo[id];
      if !h.valid(info.service) { return Erase; }
      var oldId := GetTried(TriedSlot(h, key, info.service));
      if oldId == -1 { return Replace; }
      assert TriedSlotOk(h, View(), TriedSlot(h, key, info.service));
      var info_old := mapInfo[oldId];
      v := Keep;
      if now - info_old.lastSuccess < REPLACEMENT {
        v := Erase;
      } else if now - info_old.lastTry < REPLACEMENT {
        if now - info_old.lastTry > 60 { v := Replace; }
      } else if now - info.lastSuccess > TEST_WINDOW {
        v := Replace;
      }
    }

    method ResolveOne(id: Id, now: int)
      requires Valid() && Consistent(h, View()) && now > 0
      modifies this, vvNew, vvTried
      ensures Valid() && Consistent(h, View())
      ensures View() == M.ResolveOne(h, old(View()), id, now)
    {
      ResolveOneInv(h, View(), id, now);
      var v := Decide(id, now);
      if v.Replace? && id in mapInfo {
        var moved := Good(mapInfo[id].service, false, now);
      }
      if !v.Keep? { collisions := collisions - {id}; }
    }

    /** Handles the pending ids in ascending order, as iterating over a std::set does. */
    method ResolveCollisions(clock: Id -> int)
      requires Valid() && Consistent(h, View()) && forall id :: clock(id) > 0
      modifies this, vvNew, vvTried
      ensures Valid() && Consistent(h, View())
      ensures View() == ResolveAll(h, old(View()), Ascending(old(collisions)), clock)
    {
      var todo := collisions;
      ghost var all := ResolveAll(h, View(), Ascending(todo), clock);
      while todo != {}
        invariant Valid() && Consistent(h, View())
        invariant ResolveAll(h, View(), Ascending(todo), clock) == all
        decreases todo
      {
        var id := Smallest(todo);
        ResolveStep(h, View(), todo, id, clock);
        ResolveOne(id, clock(id));
        todo := todo - {id};
      }
    }

    method SelectTriedCollision(id: Id) returns (r: Selected)
      requires Valid() && Consistent(h, View()) && (collisions == {} || id in collisions)
      modifies this
      ensures Valid() && Consistent(h, View())
      ensures M.SelectTriedCollision(h, old(View()), id) == (View(), r)
    {
      SelectInv(h, View(), id);
      if collisions == {} { return Nothing; }
      if id !in mapInfo {
        collisions := collisions - {id};
        return Nothing;
      }
      var sl := TriedSlot(h, key, mapInfo[id].service);
      var oldId := GetTried(sl);
      assert TriedSlotOk(h, View(), sl);
      r := if oldId == -1 then Nothing else Selected(mapInfo[oldId]);
    }

    // ---------- GetAddr ----------

    method Draw(n: int, k: int) returns (id: Id)
      requires Valid() && Consistent(h, View()) && 0 <= n <= k < |vRandom|
      modifies this
      ensures Valid() && Consistent(h, View()) && View() == M.SwapRandom(old(View()), n, k)
      ensures |vRandom| == old(|vRandom|) && id == vRandom[n] && id in mapInfo
    {
      SwapRandomInv(h, View(), n, k, {}, {});
      SwapRandomIndexed(View(), n, k);
      SwapRandom(n, k);
      assert RandomIndexed(View(), n);
      id := vRandom[n];
    }

    method GetAddr(maxAddresses: nat, maxPct: nat, byNetwork: bool, network: Network, filtered: bool, now: int, rand: nat -> nat)
      returns (got: seq<Id>)
      requires Valid() && Consistent(h, View())
      modifies this
      ensures Valid() && Consistent(h, View())
      ensures (View(), got) == GetAddrFrom(h, old(View()),
                AddrQuery(AddrLimit(|old(vRandom)|, maxAddresses, maxPct), byNetwork, network, filtered, now), rand, 0, [])
    {
      var q := AddrQuery(AddrLimit(|vRandom|, maxAddresses, maxPct), byNetwork, network, filtered, now);
      got := GetAddrLoop(q, rand);
    }

    method GetAddrLoop(q: AddrQuery, rand: nat -> nat) returns (got: seq<Id>)
      requires Valid() && Consistent(h, View())
      modifies this
      ensures Valid() && Consistent(h, View())
      ensures (View(), got) == GetAddrFrom(h, old(View()), q, rand, 0, [])
    {
      ghost var all := GetAddrFrom(h, View(), q, rand, 0, []);
      got := [];
      var n := 0;
      while n < |vRandom|
        invariant Valid() && Consistent(h, View()) && 0 <= n <= |vRandom|
        invariant GetAddrFrom(h, View(), q, rand, n, got) == all
        decreases |vRandom| - n
      {
        if |got| >= q.limit { break; }
        var id := Draw(n, DrawIndex(rand, n, |vRandom|));
        if Wanted(h, q, mapInfo[id]) { got := got + [id]; }
        n := n + 1;
      }
    }
  }

  // ---------- Ascending order ----------

  method Smallest(s: set<Id>) returns (m: Id)
    requires s != {}
    ensures m in s && forall j :: j in s ==> m <= j
  {
    HasSmallest(s);
    m :| IsSmallest(s, m);
  }

  predicate IsSmallest(s: set<Id>, m: Id) { m in s && forall j :: j in s ==> m <= j }

  lemma {:induction false} HasSmallest(s: set<Id>)
    requires s != {}
    ensures exists m :: IsSmallest(s, m)
    decreases |s|
  {
    NotEmpty(s);
    var x :| x in s;
    var rest := s - {x};
    forall j | j in s && j != x ensures j in rest {}
    if rest == {} {
      assert IsSmallest(s, x);
    } else {
      HasSmallest(rest);
      var m :| IsSmallest(rest, m);
      assert IsSmallest(s, if x < m then x else m);
    }
  }

  ghost function Ascending(s: set<Id>): seq<Id>
    decreases |s|
  {
    if s == {} then []
    else
      HasSmallest(s);
      var m :| IsSmallest(s, m);
      [m] + Ascending(s - {m})
  }

  ghost predicate Lists(q: seq<Id>, s: set<Id>) {
    && (forall j :: j in q <==> j in s)
    && (forall i, k :: 0 <= i < k < |q| ==> q[i] < q[k])
  }

  lemma ListsNext(m: Id, q: seq<Id>, s: set<Id>)
    requires m in s && (forall j :: j in s ==> m <= j) && Lists(q, s - {m})
    ensures Lists([m] + q, s)
  {
    var r := [m] + q;
    forall i, k | 0 <= i < k < |r| ensures r[i] < r[k] {
      if i == 0 {
        assert q[k - 1] in q;
      } else {
        assert q[i - 1] < q[k - 1];
      }
    }
  }

  /** The members of the set, each once, in ascending order. */
  lemma {:induction false} AscendingIs(s: set<Id>)
    ensures Lists(Ascending(s), s)
    decreases |s|
  {
    if s != {} {
      HasSmallest(s);
      var m: Id :| m in s && (forall j :: j in s ==> m <= j) && Ascending(s) == [m] + Ascending(s - {m});
      AscendingIs(s - {m});
      ListsNext(m, Ascending(s - {m}), s);
    }
  }

  lemma ResolveStep(h: Hashing, s: State, todo: set<Id>, id: Id, clock: Id -> int)
    requires id in todo && forall j :: j in todo ==> id <= j
    ensures ResolveAll(h, s, Ascending(todo), clock) == ResolveAll(h, M.ResolveOne(h, s, id, clock(id)), Ascending(todo - {id}), clock)
  {
    assert Ascending(todo) == [id] + Ascending(todo - {id});
    assert Ascending(todo)[1..] == Ascending(todo - {id});
  }
}
