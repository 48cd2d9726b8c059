/** When the operations of the address manager do what they do, on the state before the call
    (src/addrman.cpp). */
module AddrManExact {
  import opened AddrManModel
  import opened AddrManInvariant
  import opened AddrManOps
  import opened AddrManRuns
  import opened AddrManEffects

  // ---------- Quality of an entry ----------

  /** Tried within the last minute, an entry is never terrible; otherwise it is for one of four reasons:
      a time more than ten minutes ahead, a time more than thirty days back, three attempts without any success,
      or ten attempts since a success more than a week ago. */
  lemma TerribleIs(info: Info, now: int)
    ensures IsTerrible(info, now) <==>
      now - info.lastTry > 60 &&
      (|| info.time - now > 600
       || now - info.time > 2592000
       || (info.lastSuccess == 0 && info.attempts >= 3)
       || (now - info.lastSuccess > 604800 && info.attempts >= 10))
  {
  }

  // ---------- AddSingle ----------

  /** The slot can be had by an entry that has no other. */
  ghost predicate Yields(s: State, slot: Slot, now: int) {
    slot in s.newTable ==> s.newTable[slot] in s.mapInfo && (IsTerrible(s.mapInfo[s.newTable[slot]], now) || s.mapInfo[s.newTable[slot]].refCount > 1)
  }

  /** The entry of a new address in its first slot. */
  ghost predicate FirstEntry(info: Info, a: AddArgs, penalty: int) {
    && info.service == a.addr.service && info.services == a.addr.services && info.source == a.src
    && info.time == (if a.addr.time > penalty then a.addr.time - penalty else 0)
    && info.lastTry == 0 && info.lastCountAttempt == 0 && info.lastSuccess == 0 && info.attempts == 0
    && info.refCount == 1 && !info.inTried
  }

  lemma InsertedEntry(h: Hashing, s: State, slot: Slot, id: Id)
    requires id in s.mapInfo && (slot in s.newTable ==> s.newTable[slot] in s.mapInfo && s.newTable[slot] != id)
    ensures var s' := Insert(h, s, slot, id);
      id in s'.mapInfo && s'.mapInfo[id] == s.mapInfo[id].(refCount := s.mapInfo[id].refCount + 1, randomPos := s'.mapInfo[id].randomPos)
  {
    if slot in s.newTable {
      ClearNewOthers(h, s, slot, id);
    }
  }

  /** Giving an entry without slots its first one. */
  lemma FirstReference(h: Hashing, t: State, id: Id, src: Source, now: int)
    requires id in t.mapInfo && t.mapInfo[id].refCount == 0
    requires var slot := NewSlot(h, t.key, t.mapInfo[id].service, src); slot in t.newTable ==> t.newTable[slot] in t.mapInfo && t.newTable[slot] != id
    ensures var r := AddReference(h, t, id, src, now);
      && (r.inserted <==> Yields(t, NewSlot(h, t.key, t.mapInfo[id].service, src), now))
      && (r.inserted ==> id in r.state.mapInfo && r.state.mapInfo[id] == t.mapInfo[id].(refCount := 1, randomPos := r.state.mapInfo[id].randomPos))
  {
    InsertedEntry(h, t, NewSlot(h, t.key, t.mapInfo[id].service, src), id);
  }

  lemma PenalisedIs(h: Hashing, s: State, a: AddArgs, penalty: int)
    requires s.nIdCount !in s.mapInfo
    ensures var t := Penalised(h, s, a, penalty); var id := s.nIdCount;
      && t.key == s.key && t.newTable == s.newTable && id in t.mapInfo && t.mapInfo[id].refCount == 0
      && FirstEntry(t.mapInfo[id].(refCount := 1), a, penalty)
      && forall j :: j in s.mapInfo ==> j in t.mapInfo && t.mapInfo[j] == s.mapInfo[j]
  {
  }

  /** An unknown address is added exactly when its slot is free, or held by a terrible entry or by one that has
      other slots too. Its entry is then as announced, and older by the penalty unless it announces itself. */
  lemma AddUnknownExact(h: Hashing, s: State, a: AddArgs)
    requires Consistent(h, s) && h.routable(a.addr.service) && a.addr.service !in s.mapAddr
    ensures var r := AddSingle(h, s, a);
      && (r.inserted <==> Yields(s, NewSlot(h, s.key, a.addr.service, a.src), a.judged))
      && (r.inserted ==> s.nIdCount in r.state.mapInfo && FirstEntry(r.state.mapInfo[s.nIdCount], a, if h.announces(a.addr.service, a.src) then 0 else a.penalty))
  {
    var penalty := if h.announces(a.addr.service, a.src) then 0 else a.penalty;
    var slot := NewSlot(h, s.key, a.addr.service, a.src);
    assert NewSlotOk(h, s, slot) && InfoIndexed(s, s.nIdCount);
    PenalisedIs(h, s, a, penalty);
    FirstReference(h, Penalised(h, s, a, penalty), s.nIdCount, a.src, a.judged);
    assert AddSingle(h, s, a) == AddUnknown(h, s, a, penalty);
  }

  /** The time that an announcement gives a known entry: only news older than an hour, or a day for an address
      that has been off line, are taken over. */
  function NewerTime(info: Info, a: AddArgs, penalty: int): int {
    if a.addr.time - penalty - info.time > (if a.now - a.addr.time < 86400 then 3600 else 86400)
    then (if a.addr.time > penalty then a.addr.time - penalty else 0) else info.time
  }

  /** A known address gets another slot exactly when the announcement is news, it is not in the tried table, has fewer
      than eight slots, wins the draw, and its slot in this bucket is free or held by another entry that is terrible.
      In any case its time and services are brought up to date, and nothing else of it changes. */
  lemma AddKnownExact(h: Hashing, s: State, a: AddArgs)
    requires Consistent(h, s) && h.routable(a.addr.service) && a.addr.service in s.mapAddr
    ensures var r := AddSingle(h, s, a); var id := s.mapAddr[a.addr.service];
      && id in s.mapInfo && id in r.state.mapInfo
      && var info := s.mapInfo[id]; var slot := NewSlot(h, s.key, a.addr.service, a.src);
      && var time := NewerTime(info, a, if h.announces(a.addr.service, a.src) then 0 else a.penalty);
      && (r.inserted <==>
            && a.addr.time > time && !info.inTried && info.refCount < 8 && a.drewZero
            && (slot in s.newTable ==> s.newTable[slot] != id && s.newTable[slot] in s.mapInfo && IsTerrible(s.mapInfo[s.newTable[slot]], a.judged)))
      && r.state.mapInfo[id] == info.(time := time, services := info.services + a.addr.services,
           refCount := info.refCount + (if r.inserted then 1 else 0), randomPos := r.state.mapInfo[id].randomPos)
  {
    var penalty := if h.announces(a.addr.service, a.src) then 0 else a.penalty;
    assert AddrIndexed(s, a.addr.service);
    var id := s.mapAddr[a.addr.service];
    var info, slot := Refreshed(s.mapInfo[id], a, penalty), NewSlot(h, s.key, a.addr.service, a.src);
    assert RefsOk(s, id, {}) && NewSlotOk(h, s, slot);
    var t := SetInfo(s, id, info);
    if !NoNewReference(info, a) && (slot in s.newTable ==> s.newTable[slot] != id) {
      InsertedEntry(h, t, slot, id);
    }
  }

  /** An address that cannot be routed to changes nothing. */
  lemma AddUnroutable(h: Hashing, s: State, a: AddArgs)
    requires !h.routable(a.addr.service)
    ensures AddSingle(h, s, a) == Added(s, false)
  {
  }

  // ---------- MakeTried and Good ----------

  lemma EvictTable(h: Hashing, s: State, slot: Slot)
    requires slot in s.triedTable && s.triedTable[slot] in s.mapInfo
    requires var o := s.mapInfo[s.triedTable[slot]]; var place := NewSlot(h, s.key, o.service, o.source);
      place in s.newTable ==> s.newTable[place] in s.mapInfo && s.newTable[place] != s.triedTable[slot]
    ensures var o := s.triedTable[slot]; var s' := Evict(h, s, slot);
      && s'.newTable == s.newTable[NewSlot(h, s.key, s.mapInfo[o].service, s.mapInfo[o].source) := o]
      && o in s'.mapInfo && s'.mapInfo[o] == s.mapInfo[o].(inTried := false, refCount := 1, randomPos := s'.mapInfo[o].randomPos)
  {
    var o := s.triedTable[slot];
    var t := LeaveTried(h, s, slot);
    var place := NewSlot(h, s.key, s.mapInfo[o].service, s.mapInfo[o].source);
    ClearNewTable(h, t, place);
    if place in s.newTable {
      ClearNewOthers(h, t, place, o);
      assert (s.newTable - {place})[place := o] == s.newTable[place := o];
    }
  }

  /** MakeTried takes the entry out of all its new slots, and the entry it evicts goes to the one new slot that
      its own source gives it, whatever stood there. */
  lemma MakeTriedTables(h: Hashing, s: State, id: Id)
    requires Consistent(h, s) && id in s.mapInfo && !s.mapInfo[id].inTried && s.mapInfo[id].lastSuccess > 0
    ensures var slot := TriedSlot(h, s.key, s.mapInfo[id].service); var s' := MakeTried(h, s, id); var left := s.newTable - RefSlots(s.newTable, id);
      if slot !in s.triedTable then s'.newTable == left
      else
        var o := s.triedTable[slot];
        && o in s.mapInfo && s'.newTable == left[NewSlot(h, s.key, s.mapInfo[o].service, s.mapInfo[o].source) := o]
        && o in s'.mapInfo && !s'.mapInfo[o].inTried && s'.mapInfo[o].refCount == 1
  {
    var slot := TriedSlot(h, s.key, s.mapInfo[id].service);
    var t := RemoveRefs(h, s, id);
    RemoveRefsInv(h, s, id, {});
    assert {} + {id} == {id};
    VacateInv(h, t, slot, id);
    if slot in s.triedTable {
      var o := s.triedTable[slot];
      assert TriedSlotOk(h, s, slot);
      var place := NewSlot(h, s.key, s.mapInfo[o].service, s.mapInfo[o].source);
      assert NewSlotOk(h, t, place) && NewSlotOk(h, s, place);
      EvictTable(h, t, slot);
    }
  }

  /** The record of a success, and nothing else of the entry but its place. */
  ghost predicate Recorded(was: Info, now: Info, time: int) {
    && now.lastSuccess == time && now.lastTry == time && now.attempts == 0
    && now.time == was.time && now.services == was.services && now.source == was.source && now.service == was.service
  }

  lemma GoodGoes(h: Hashing, s: State, id: Id, time: int)
    requires Consistent(h, s) && time > 0 && id in s.mapInfo && !s.mapInfo[id].inTried
    ensures var s' := MakeTried(h, Succeeded(s, id, time), id);
      id in s'.mapInfo && Recorded(s.mapInfo[id], s'.mapInfo[id], time) && s'.collisions == s.collisions && s'.lastGood == time
  {
    var s1 := Succeeded(s, id, time);
    SucceededInv(h, s, id, time);
    MakeTriedInv(h, s1, id);
    MakeTriedHistory(h, s1, id, id);
  }

  lemma GoodKnown(h: Hashing, s: State, a: Service, id: Id, test: bool, time: int)
    requires id in s.mapInfo && Find(s, a) == Found(id) && s.mapInfo[id].service == a && (s.mapInfo[id].inTried || s.mapInfo[id].refCount > 0)
    ensures var r := Good(h, s, a, test, time); var info := s.mapInfo[id]; var taken := TriedSlot(h, s.key, a) in s.triedTable;
      && (r.inserted <==> !info.inTried && !(test && taken))
      && (r.inserted ==> r.state == MakeTried(h, Succeeded(s, id, time), id))
      && (!r.inserted ==> r.state == Succeeded(s, id, time).(collisions :=
            if !info.inTried && test && taken && |s.collisions| < 10 then s.collisions + {id} else s.collisions))
  {
  }

  /** Good moves a known address to tried exactly when it is not there yet and, if the occupant of its slot is to be
      tested first, there is none. The success is recorded in any case, and so is a pending test, ten at most. */
  lemma GoodExact(h: Hashing, s: State, a: Service, test: bool, time: int)
    requires Consistent(h, s) && time > 0
    ensures a !in s.mapAddr ==> Good(h, s, a, test, time) == Added(s.(lastGood := time), false)
    ensures a in s.mapAddr ==>
      var r := Good(h, s, a, test, time); var id := s.mapAddr[a];
      && id in s.mapInfo && id in r.state.mapInfo
      && var info := s.mapInfo[id]; var taken := TriedSlot(h, s.key, a) in s.triedTable;
      && (r.inserted <==> !info.inTried && !(test && taken))
      && Recorded(info, r.state.mapInfo[id], time) && r.state.lastGood == time
      && r.state.collisions == if !info.inTried && test && taken && |s.collisions| < 10 then s.collisions + {id} else s.collisions
  {
    if a in s.mapAddr {
      var id := s.mapAddr[a];
      assert AddrIndexed(s, a) && RefsOk(s, id, {});
      GoodKnown(h, s, a, id, test, time);
      if !s.mapInfo[id].inTried {
        GoodGoes(h, s, id, time);
      }
    }
  }

  // ---------- Attempt, Connected, SetServices ----------

  /** The entry of a is changed to info, and nothing else. */
  ghost predicate OnlyEntry(s: State, s': State, a: Service, info: Info -> Info) {
    s' == if a in s.mapAddr && s.mapAddr[a] in s.mapInfo then s.(mapInfo := s.mapInfo[s.mapAddr[a] := info(s.mapInfo[s.mapAddr[a]])]) else s
  }

  /** A failure is counted at most once since the last success of anyone. */
  lemma AttemptExact(s: State, a: Service, countFailure: bool, time: int)
    ensures OnlyEntry(s, Attempt(s, a, countFailure, time), a, (info: Info) =>
      if countFailure && info.lastCountAttempt < s.lastGood then info.(lastTry := time, lastCountAttempt := time, attempts := info.attempts + 1)
      else info.(lastTry := time))
  {
  }

  /** The time moves only by steps of more than twenty minutes. */
  lemma ConnectedExact(s: State, a: Service, time: int)
    ensures OnlyEntry(s, Connected(s, a, time), a, (info: Info) => if time > info.time + 1200 then info.(time := time) else info)
  {
    if a in s.mapAddr && s.mapAddr[a] in s.mapInfo {
      assert s.mapInfo[s.mapAddr[a] := s.mapInfo[s.mapAddr[a]]] == s.mapInfo;
    }
  }

  lemma SetServicesExact(s: State, a: Service, services: set<nat>)
    ensures OnlyEntry(s, SetServices(s, a, services), a, (info: Info) => info.(services := services))
  {
  }

  // ---------- Pending collisions ----------

  /** The entry in the slot has failed its test, or has not been tested for too long. */
  ghost predicate Lost(o: Info, candidate: Info, now: int) {
    && now - o.lastSuccess >= 14400
    && if now - o.lastTry < 14400 then now - o.lastTry > 60 else now - candidate.lastSuccess > 2400
  }

  ghost predicate Undecided(o: Info, candidate: Info, now: int) { now - o.lastSuccess >= 14400 && !Lost(o, candidate, now) }

  /** A candidate takes over the slot exactly when the entry there has lost, and stays pending exactly as long as
      this is undecided. */
  lemma ResolveExact(h: Hashing, s: State, id: Id, now: int)
    requires Consistent(h, s) && now > 0 && id in s.mapInfo && h.valid(s.mapInfo[id].service) && !s.mapInfo[id].inTried
    requires TriedSlot(h, s.key, s.mapInfo[id].service) in s.triedTable
    ensures var slot := TriedSlot(h, s.key, s.mapInfo[id].service); var s' := ResolveOne(h, s, id, now);
      && s.triedTable[slot] in s.mapInfo
      && var o := s.mapInfo[s.triedTable[slot]];
      && slot in s'.triedTable
      && s'.triedTable[slot] == (if Lost(o, s.mapInfo[id], now) then id else s.triedTable[slot])
      && s'.collisions == (if Undecided(o, s.mapInfo[id], now) then s.collisions else s.collisions - {id})
  {
    var a := s.mapInfo[id].service;
    var slot := TriedSlot(h, s.key, a);
    assert TriedSlotOk(h, s, slot) && InfoIndexed(s, id);
    JudgeIs(h, s, id, now);
    GoodExact(h, s, a, false, now);
    if Lost(s.mapInfo[s.triedTable[slot]], s.mapInfo[id], now) {
      GoodMoves(h, s, a, false, now);
    }
  }

  lemma JudgeIs(h: Hashing, s: State, id: Id, now: int)
    requires id in s.mapInfo && h.valid(s.mapInfo[id].service)
    requires var slot := TriedSlot(h, s.key, s.mapInfo[id].service); slot in s.triedTable && s.triedTable[slot] in s.mapInfo
    ensures var o := s.mapInfo[s.triedTable[TriedSlot(h, s.key, s.mapInfo[id].service)]];
      Judge(h, s, id, now) == if Lost(o, s.mapInfo[id], now) then Replace else if Undecided(o, s.mapInfo[id], now) then Keep else Erase
  {
  }

  /** A candidate that is gone or no longer valid is forgotten, and nothing else happens. */
  lemma ResolveGone(h: Hashing, s: State, id: Id, now: int)
    requires id !in s.mapInfo || !h.valid(s.mapInfo[id].service)
    ensures ResolveOne(h, s, id, now) == s.(collisions := s.collisions - {id})
  {
  }

  /** All pending candidates are resolved, one after the other. */
  lemma {:induction false} ResolveEach(h: Hashing, s: State, pending: seq<Id>, last: Id, clock: Id -> int)
    ensures ResolveAll(h, s, [], clock) == s
    ensures ResolveAll(h, s, pending + [last], clock) == ResolveOne(h, ResolveAll(h, s, pending, clock), last, clock(last))
    decreases |pending|
  {
    var all := pending + [last];
    if pending == [] {
      assert all[1..] == [];
    } else {
      assert all[1..] == pending[1..] + [last];
      ResolveEach(h, ResolveOne(h, s, pending[0], clock(pending[0])), pending[1..], last, clock);
    }
  }

  /** A pending candidate without an entry is forgotten when it is drawn. */
  lemma SelectGone(h: Hashing, s: State, id: Id)
    requires id in s.collisions && id !in s.mapInfo
    ensures SelectTriedCollision(h, s, id) == (s.(collisions := s.collisions - {id}), Nothing)
  {
  }
}
