/** Runs of the address manager: what every reachable state satisfies. */
module AddrManRuns {
  import opened AddrManModel
  import opened AddrManInvariant
  import opened AddrManOps

  // ---------- Operations and runs ----------

  /** One public operation with the clock readings and random draws it consumed.
      Times are what the callers pass: positive for a success, not negative for an
      attempt. */
  datatype Op =
    | OpAdd(a: AddArgs)
    | OpGood(service: Service, time: int)
    | OpAttempt(service: Service, countFailure: bool, time: int)
    | OpConnected(service: Service, time: int)
    | OpSetServices(service: Service, services: set<nat>)
    | OpResolve(pending: seq<Id>, clock: Id -> int)
    | OpSelectCollision(id: Id)
    | OpGetAddr(query: AddrQuery, rand: nat -> nat)

  ghost predicate TimesOk(op: Op) {
    match op
    case OpGood(_, time) => time > 0
    case OpAttempt(_, _, time) => time >= 0
    case OpResolve(_, clock) => forall id :: clock(id) > 0
    case _ => true
  }

  function Do(h: Hashing, s: State, op: Op): State {
    match op
    case OpAdd(a) => AddSingle(h, s, a).state
    case OpGood(a, time) => Good(h, s, a, true, time).state
    case OpAttempt(a, c, time) => Attempt(s, a, c, time)
    case OpConnected(a, time) => Connected(s, a, time)
    case OpSetServices(a, sv) => SetServices(s, a, sv)
    case OpResolve(pending, clock) => ResolveAll(h, s, pending, clock)
    case OpSelectCollision(id) => SelectTriedCollision(h, s, id).0
    case OpGetAddr(q, rand) => GetAddrFrom(h, s, q, rand, 0, []).0
  }

  function Run(h: Hashing, s: State, ops: seq<Op>): State {
    if ops == [] then s else Do(h, Run(h, s, ops[..|ops| - 1]), ops[|ops| - 1])
  }

  // ---------- Consistency over runs ----------

  lemma DoConsistent(h: Hashing, s: State, op: Op)
    requires Consistent(h, s) && TimesOk(op)
    ensures Consistent(h, Do(h, s, op))
  {
    match op {
      case OpAdd(a) => AddSingleInv(h, s, a);
      case OpGood(a, time) => GoodInv(h, s, a, true, time);
      case OpAttempt(a, c, time) => AttemptInv(h, s, a, c, time);
      case OpConnected(a, time) => ConnectedInv(h, s, a, time);
      case OpSetServices(a, sv) => SetServicesInv(h, s, a, sv);
      case OpResolve(pending, clock) => ResolveAllInv(h, s, pending, clock);
      case OpSelectCollision(id) => SelectInv(h, s, id);
      case OpGetAddr(q, rand) => GetAddrInv(h, s, q, rand, 0, []);
    }
  }

  /** Every sequence of operations from the empty manager keeps the structures consistent. */
  lemma {:induction false} RunConsistent(h: Hashing, key: Key, ops: seq<Op>)
    requires key != 0 && forall i :: 0 <= i < |ops| ==> TimesOk(ops[i])
    ensures Consistent(h, Run(h, Empty(key), ops))
  {
    if ops == [] {
      EmptyConsistent(h, key);
    } else {
      RunConsistent(h, key, ops[..|ops| - 1]);
      DoConsistent(h, Run(h, Empty(key), ops[..|ops| - 1]), ops[|ops| - 1]);
    }
  }

  // ---------- Ids are never reused, occupied tried slots never become free ----------

  /** Between the states no id is reused and entries keep their address. */
  ghost predicate EntryLater(s: State, s': State, j: Id) {
    j in s'.mapInfo ==>
      || (j in s.mapInfo && s'.mapInfo[j].service == s.mapInfo[j].service)
      || s.nIdCount <= j < s'.nIdCount
  }

  ghost predicate SlotLater(s: State, s': State, sl: Slot) {
    sl in s.triedTable ==> sl in s'.triedTable
  }

  ghost predicate Later(s: State, s': State) {
    && s'.key == s.key && s.nIdCount <= s'.nIdCount
    && (forall j {:trigger EntryLater(s, s', j)} :: EntryLater(s, s', j))
    && (forall sl {:trigger SlotLater(s, s', sl)} :: SlotLater(s, s', sl))
  }

  lemma LaterTrans(s: State, s1: State, s2: State)
    requires Later(s, s1) && Later(s1, s2)
    ensures Later(s, s2)
  {
    forall j: Id ensures EntryLater(s, s2, j) { assert EntryLater(s, s1, j) && EntryLater(s1, s2, j); }
    forall sl: Slot ensures SlotLater(s, s2, sl) { assert SlotLater(s, s1, sl) && SlotLater(s1, s2, sl); }
  }

  lemma {:induction false} ResolveAllLater(h: Hashing, s: State, pending: seq<Id>, clock: Id -> int)
    requires Consistent(h, s) && forall id :: clock(id) > 0
    ensures Later(s, ResolveAll(h, s, pending, clock))
    decreases |pending|
  {
    if pending != [] {
      var s1 := ResolveOne(h, s, pending[0], clock(pending[0]));
      ResolveOneInv(h, s, pending[0], clock(pending[0]));
      ResolveOneLater(h, s, pending[0], clock(pending[0]));
      ResolveAllLater(h, s1, pending[1..], clock);
      LaterTrans(s, s1, ResolveAll(h, s1, pending[1..], clock));
    }
  }

  lemma GoodLater(h: Hashing, s: State, a: Service, test: bool, time: int)
    requires Consistent(h, s) && time > 0
    ensures Later(s, Good(h, s, a, test, time).state)
  {
    if Find(s, a).Found? {
      var id := Find(s, a).id;
      var s1 := Succeeded(s, id, time);
      SucceededInv(h, s, id, time);
      SucceededLater(s, id, time);
      if !s1.mapInfo[id].inTried {
        MakeTriedInv(h, s1, id);
        MakeTriedLater(h, s1, id);
        LaterTrans(s, s1, MakeTried(h, s1, id));
      }
    }
  }

  lemma SucceededLater(s: State, id: Id, time: int)
    requires id in s.mapInfo
    ensures Later(s, Succeeded(s, id, time)) && Later(s, RememberCollision(Succeeded(s, id, time), id))
  {
  }

  lemma MakeTriedLater(h: Hashing, s: State, id: Id)
    requires id in s.mapInfo && MovedToTried(h, s, MakeTried(h, s, id), id)
    ensures Later(s, MakeTried(h, s, id))
  {
    forall j: Id ensures EntryLater(s, MakeTried(h, s, id), j) { MakeTriedAddresses(h, s, id, j); }
  }

  /** No entry changes its address on the way. */
  lemma MakeTriedAddresses(h: Hashing, s: State, id: Id, j: Id)
    requires id in s.mapInfo
    ensures j in MakeTried(h, s, id).mapInfo ==>
      j in s.mapInfo && MakeTried(h, s, id).mapInfo[j].service == s.mapInfo[j].service
      && (j != id ==> MakeTried(h, s, id).mapInfo[j].inTried ==> s.mapInfo[j].inTried)
  {
    var s1 := RemoveRefs(h, s, id);
    var slot := TriedSlot(h, s.key, s.mapInfo[id].service);
    EvictKept(h, s1, slot, j);
  }

  lemma EvictKept(h: Hashing, s: State, slot: Slot, j: Id)
    ensures j in Evict(h, s, slot).mapInfo ==>
      j in s.mapInfo && Evict(h, s, slot).mapInfo[j].service == s.mapInfo[j].service
      && (Evict(h, s, slot).mapInfo[j].inTried ==> s.mapInfo[j].inTried)
    ensures SameSides(s, Evict(h, s, slot))
  {
    if slot in s.triedTable && s.triedTable[slot] in s.mapInfo {
      var old_ := s.triedTable[slot];
      var place := NewSlot(h, s.key, s.mapInfo[old_].service, s.mapInfo[old_].source);
      ClearNewKept(h, LeaveTried(h, s, slot), place, j);
    }
  }

  lemma ResolveOneLater(h: Hashing, s: State, id: Id, now: int)
    requires Consistent(h, s) && now > 0
    ensures Later(s, ResolveOne(h, s, id, now))
  {
    if id in s.mapInfo {
      var a := s.mapInfo[id].service;
      GoodLater(h, s, a, false, now);
      SidesLater(s, Good(h, s, a, false, now).state, id);
    }
  }

  lemma SidesLater(s: State, s': State, id: Id)
    requires Later(s, s')
    ensures Later(s, s'.(collisions := s'.collisions - {id}))
  {
    var s2 := s'.(collisions := s'.collisions - {id});
    forall j: Id ensures EntryLater(s, s2, j) { assert EntryLater(s, s', j); }
    forall sl: Slot ensures SlotLater(s, s2, sl) { assert SlotLater(s, s', sl); }
  }

  lemma AddSingleLater(h: Hashing, s: State, a: AddArgs)
    requires Consistent(h, s)
    ensures Later(s, AddSingle(h, s, a).state)
  {
    var s' := AddSingle(h, s, a).state;
    forall j: Id ensures EntryLater(s, s', j) { AddSingleKept(h, s, a, j); }
    AddSingleKept(h, s, a, -1);
  }

  /** Nobody becomes tried and the side fields change only by counting ids. */
  ghost predicate AddKept(s: State, s': State, j: Id) {
    && EntryLater(s, s', j)
    && (j in s'.mapInfo && s'.mapInfo[j].inTried ==> j in s.mapInfo && s.mapInfo[j].inTried)
    && s'.triedTable == s.triedTable && s.nIdCount <= s'.nIdCount
    && s'.key == s.key && s'.collisions == s.collisions
  }

  lemma AddKnownKept(h: Hashing, s: State, id: Id, a: AddArgs, penalty: int, j: Id)
    requires id in s.mapInfo
    ensures AddKept(s, AddKnown(h, s, id, a, penalty).state, j)
  {
    AddReferenceKept(h, SetInfo(s, id, Refreshed(s.mapInfo[id], a, penalty)), id, a.src, a.judged, j);
  }

  lemma AddUnknownKept(h: Hashing, s: State, a: AddArgs, penalty: int, j: Id)
    ensures AddKept(s, AddUnknown(h, s, a, penalty).state, j)
  {
    AddReferenceKept(h, Penalised(h, s, a, penalty), s.nIdCount, a.src, a.judged, j);
  }

  lemma AddSingleKept(h: Hashing, s: State, a: AddArgs, j: Id)
    ensures AddKept(s, AddSingle(h, s, a).state, j)
  {
    var penalty := if h.announces(a.addr.service, a.src) then 0 else a.penalty;
    match Find(s, a.addr.service) {
      case Found(id) => AddKnownKept(h, s, id, a, penalty, j);
      case NotFound => AddUnknownKept(h, s, a, penalty, j);
    }
  }

  lemma {:induction false} GetAddrKept(h: Hashing, s: State, q: AddrQuery, rand: nat -> nat, n: nat, got: seq<Id>, j: Id)
    ensures OnlyMoved(s.mapInfo, GetAddrFrom(h, s, q, rand, n, got).0.mapInfo, j)
    ensures var s' := GetAddrFrom(h, s, q, rand, n, got).0; s' == s.(mapInfo := s'.mapInfo, vRandom := s'.vRandom)
    decreases |s.vRandom| - n
  {
    if n < |s.vRandom| && |got| < q.limit {
      var k := DrawIndex(rand, n, |s.vRandom|);
      var s1 := SwapRandom(s, n, k);
      SwapRandomMoves(s, n, k, j);
      SwapRandomFrame(s, n, k);
      var id := s1.vRandom[n];
      GetAddrKept(h, s1, q, rand, n + 1, if id in s1.mapInfo && Wanted(h, q, s1.mapInfo[id]) then got + [id] else got, j);
    }
  }

  /** One operation never reuses an id, never moves an address to another id, and
      never frees an occupied slot of the tried table. */
  lemma DoLater(h: Hashing, s: State, op: Op)
    requires Consistent(h, s) && TimesOk(op)
    ensures Later(s, Do(h, s, op))
  {
    match op {
      case OpAdd(a) => AddSingleLater(h, s, a);
      case OpGood(a, time) => GoodLater(h, s, a, true, time);
      case OpAttempt(a, c, time) =>
      case OpConnected(a, time) =>
      case OpSetServices(a, sv) =>
      case OpResolve(pending, clock) => ResolveAllLater(h, s, pending, clock);
      case OpSelectCollision(id) =>
      case OpGetAddr(q, rand) =>
        forall j: Id ensures EntryLater(s, Do(h, s, op), j) { GetAddrKept(h, s, q, rand, 0, [], j); }
        GetAddrKept(h, s, q, rand, 0, [], 0);
    }
  }

  // ---------- Pending collisions ----------

  /** A pending id that is still known is not in tried, and its tried slot is occupied. */
  ghost predicate CollisionOk(h: Hashing, s: State, id: Id) {
    id in s.collisions ==>
      && 0 <= id < s.nIdCount
      && (id in s.mapInfo ==> !s.mapInfo[id].inTried && TriedSlot(h, s.key, s.mapInfo[id].service) in s.triedTable)
  }

  ghost predicate CollisionsOk(h: Hashing, s: State) {
    forall id {:trigger CollisionOk(h, s, id)} :: CollisionOk(h, s, id)
  }

  /** Id stays pending only if it does not become tried. */
  ghost predicate PendingStaysNew(s: State, s': State, id: Id) {
    id in s'.collisions ==>
      id in s.collisions && (id in s'.mapInfo && s'.mapInfo[id].inTried ==> id in s.mapInfo && s.mapInfo[id].inTried)
  }

  lemma CollisionStays(h: Hashing, s: State, s': State, id: Id)
    requires CollisionsOk(h, s) && Later(s, s') && PendingStaysNew(s, s', id)
    ensures CollisionOk(h, s', id)
  {
    assert CollisionOk(h, s, id) && EntryLater(s, s', id);
    if id in s.mapInfo { assert SlotLater(s, s', TriedSlot(h, s.key, s.mapInfo[id].service)); }
  }

  lemma GoodCollisions(h: Hashing, s: State, a: Service, time: int)
    requires Consistent(h, s) && CollisionsOk(h, s) && time > 0
    ensures CollisionsOk(h, Good(h, s, a, true, time).state)
  {
    var s' := Good(h, s, a, true, time).state;
    GoodLater(h, s, a, true, time);
    forall j: Id ensures CollisionOk(h, s', j) {
      if Find(s, a) == Found(j) {
        GoodCollisionSelf(h, s, a, time);
      } else {
        GoodPending(h, s, a, true, time, j);
        CollisionStays(h, s, s', j);
      }
    }
  }

  /** Good leaves the pending ids other than its own entry alone. */
  lemma GoodPending(h: Hashing, s: State, a: Service, test: bool, time: int, j: Id)
    requires Find(s, a) != Found(j)
    ensures PendingStaysNew(s, Good(h, s, a, test, time).state, j)
  {
    if Find(s, a).Found? {
      var id := Find(s, a).id;
      var s1 := Succeeded(s, id, time);
      MakeTriedAddresses(h, s1, id, j);
      MakeTriedSides(h, s1, id);
    }
  }

  lemma MakeTriedSides(h: Hashing, s: State, id: Id)
    requires id in s.mapInfo
    ensures SameSides(s, MakeTried(h, s, id))
  {
    EvictKept(h, RemoveRefs(h, s, id), TriedSlot(h, s.key, s.mapInfo[id].service), 0);
  }

  lemma GoodCollisionSelf(h: Hashing, s: State, a: Service, time: int)
    requires Consistent(h, s) && CollisionsOk(h, s) && time > 0 && Find(s, a).Found?
    ensures CollisionOk(h, Good(h, s, a, true, time).state, Find(s, a).id)
  {
    var id := Find(s, a).id;
    var s1 := Succeeded(s, id, time);
    assert CollisionOk(h, s, id) && InfoIndexed(s, id);
    MakeTriedSides(h, s1, id);
  }

  lemma ResolveOneCollisions(h: Hashing, s: State, id: Id, now: int)
    requires Consistent(h, s) && CollisionsOk(h, s) && now > 0
    ensures CollisionsOk(h, ResolveOne(h, s, id, now))
  {
    var s' := ResolveOne(h, s, id, now);
    ResolveOneLater(h, s, id, now);
    forall j: Id ensures CollisionOk(h, s', j) {
      if j != id && id in s.mapInfo {
        assert InfoIndexed(s, id);
        GoodPending(h, s, s.mapInfo[id].service, false, now, j);
      }
      ResolvePending(h, s, id, now, j);
      CollisionStays(h, s, s', j);
    }
  }

  lemma ResolvePending(h: Hashing, s: State, id: Id, now: int, j: Id)
    requires j != id && id in s.mapInfo ==> PendingStaysNew(s, Good(h, s, s.mapInfo[id].service, false, now).state, j)
    ensures PendingStaysNew(s, ResolveOne(h, s, id, now), j)
  {
  }

  lemma {:induction false} ResolveAllCollisions(h: Hashing, s: State, pending: seq<Id>, clock: Id -> int)
    requires Consistent(h, s) && CollisionsOk(h, s) && forall id :: clock(id) > 0
    ensures CollisionsOk(h, ResolveAll(h, s, pending, clock))
    decreases |pending|
  {
    if pending != [] {
      ResolveOneInv(h, s, pending[0], clock(pending[0]));
      ResolveOneCollisions(h, s, pending[0], clock(pending[0]));
      ResolveAllCollisions(h, ResolveOne(h, s, pending[0], clock(pending[0])), pending[1..], clock);
    }
  }

  lemma AddCollisions(h: Hashing, s: State, a: AddArgs)
    requires Consistent(h, s) && CollisionsOk(h, s)
    ensures CollisionsOk(h, AddSingle(h, s, a).state)
  {
    var s' := AddSingle(h, s, a).state;
    AddSingleLater(h, s, a);
    forall j: Id ensures CollisionOk(h, s', j) {
      AddSingleKept(h, s, a, j);
      CollisionStays(h, s, s', j);
    }
  }

  /** Operations that make nobody tried and add no pending id. */
  lemma OtherPending(h: Hashing, s: State, op: Op, j: Id)
    requires op.OpAttempt? || op.OpConnected? || op.OpSetServices? || op.OpSelectCollision? || op.OpGetAddr?
    ensures PendingStaysNew(s, Do(h, s, op), j)
  {
    if op.OpGetAddr? { GetAddrKept(h, s, op.query, op.rand, 0, [], j); }
  }

  lemma OtherCollisions(h: Hashing, s: State, op: Op)
    requires Consistent(h, s) && CollisionsOk(h, s) && TimesOk(op)
    requires op.OpAttempt? || op.OpConnected? || op.OpSetServices? || op.OpSelectCollision? || op.OpGetAddr?
    ensures CollisionsOk(h, Do(h, s, op))
  {
    DoLater(h, s, op);
    forall j: Id ensures CollisionOk(h, Do(h, s, op), j) {
      OtherPending(h, s, op, j);
      CollisionStays(h, s, Do(h, s, op), j);
    }
  }

  lemma DoCollisions(h: Hashing, s: State, op: Op)
    requires Consistent(h, s) && CollisionsOk(h, s) && TimesOk(op)
    ensures CollisionsOk(h, Do(h, s, op))
  {
    match op {
      case OpAdd(a) => AddCollisions(h, s, a);
      case OpGood(a, time) => GoodCollisions(h, s, a, time);
      case OpResolve(pending, clock) => ResolveAllCollisions(h, s, pending, clock);
      case _ => OtherCollisions(h, s, op);
    }
  }

  /** In every run every pending id that is still known is outside the tried table
      and its tried slot is occupied. */
  lemma {:induction false} RunCollisions(h: Hashing, key: Key, ops: seq<Op>)
    requires key != 0 && forall i :: 0 <= i < |ops| ==> TimesOk(ops[i])
    ensures CollisionsOk(h, Run(h, Empty(key), ops))
  {
    if ops != [] {
      RunConsistent(h, key, ops[..|ops| - 1]);
      RunCollisions(h, key, ops[..|ops| - 1]);
      DoCollisions(h, Run(h, Empty(key), ops[..|ops| - 1]), ops[|ops| - 1]);
    }
  }

  /** SelectTriedCollision never looks up the empty marker: for a pending id that is
      still known it returns a tried entry, and ResolveCollisions never finds that a
      pending collision has gone away by itself. */
  lemma CollisionIsReal(h: Hashing, key: Key, ops: seq<Op>, id: Id)
    requires key != 0 && forall i :: 0 <= i < |ops| ==> TimesOk(ops[i])
    ensures var s := Run(h, Empty(key), ops);
            id in s.collisions && id in s.mapInfo ==>
              var slot := TriedSlot(h, s.key, s.mapInfo[id].service);
              && slot in s.triedTable && s.triedTable[slot] in s.mapInfo && s.triedTable[slot] != id
              && SelectTriedCollision(h, s, id) == (s, Selected(s.mapInfo[s.triedTable[slot]]))
  {
    var s := Run(h, Empty(key), ops);
    RunConsistent(h, key, ops);
    RunCollisions(h, key, ops);
    assert CollisionOk(h, s, id);
    if id in s.mapInfo { assert TriedSlotOk(h, s, TriedSlot(h, s.key, s.mapInfo[id].service)); }
  }

  /** Over a whole run, from any of its states to any later one. */
  lemma {:induction false} RunLater(h: Hashing, key: Key, ops: seq<Op>, i: nat)
    requires key != 0 && i <= |ops| && forall k :: 0 <= k < |ops| ==> TimesOk(ops[k])
    ensures Later(Run(h, Empty(key), ops[..i]), Run(h, Empty(key), ops))
    decreases |ops|
  {
    if i == |ops| {
      assert ops[..i] == ops;
    } else {
      var front := ops[..|ops| - 1];
      assert front[..i] == ops[..i];
      RunLater(h, key, front, i);
      RunConsistent(h, key, front);
      DoLater(h, Run(h, Empty(key), front), ops[|ops| - 1]);
      LaterTrans(Run(h, Empty(key), ops[..i]), Run(h, Empty(key), front), Run(h, Empty(key), ops));
    }
  }

  // ---------- Only routable addresses get in ----------

  ghost predicate RoutableAt(h: Hashing, s: State, id: Id) { id in s.mapInfo ==> h.routable(s.mapInfo[id].service) }

  ghost predicate AllRoutable(h: Hashing, s: State) {
    forall id {:trigger RoutableAt(h, s, id)} :: RoutableAt(h, s, id)
  }

  lemma AddKnownRoutable(h: Hashing, s: State, id: Id, a: AddArgs, penalty: int, j: Id)
    requires RoutableAt(h, s, j) && id in s.mapInfo
    ensures RoutableAt(h, AddKnown(h, s, id, a, penalty).state, j)
  {
    AddReferenceKept(h, SetInfo(s, id, Refreshed(s.mapInfo[id], a, penalty)), id, a.src, a.judged, j);
  }

  lemma AddUnknownRoutable(h: Hashing, s: State, a: AddArgs, penalty: int, j: Id)
    requires RoutableAt(h, s, j) && h.routable(a.addr.service)
    ensures RoutableAt(h, AddUnknown(h, s, a, penalty).state, j)
  {
    AddReferenceKept(h, Penalised(h, s, a, penalty), s.nIdCount, a.src, a.judged, j);
  }

  lemma AddRoutable(h: Hashing, s: State, a: AddArgs, j: Id)
    requires RoutableAt(h, s, j)
    ensures RoutableAt(h, AddSingle(h, s, a).state, j)
  {
    var penalty := if h.announces(a.addr.service, a.src) then 0 else a.penalty;
    if h.routable(a.addr.service) {
      match Find(s, a.addr.service) {
        case Found(id) => AddKnownRoutable(h, s, id, a, penalty, j);
        case NotFound => AddUnknownRoutable(h, s, a, penalty, j);
      }
    }
  }

  lemma GoodIds(h: Hashing, s: State, a: Service, test: bool, time: int)
    ensures Good(h, s, a, test, time).state.nIdCount == s.nIdCount
  {
    if Find(s, a).Found? { MakeTriedSides(h, Succeeded(s, Find(s, a).id, time), Find(s, a).id); }
  }

  lemma {:induction false} ResolveIds(h: Hashing, s: State, pending: seq<Id>, clock: Id -> int)
    ensures ResolveAll(h, s, pending, clock).nIdCount == s.nIdCount
    decreases |pending|
  {
    if pending != [] {
      var id := pending[0];
      if id in s.mapInfo { GoodIds(h, s, s.mapInfo[id].service, false, clock(id)); }
      ResolveIds(h, ResolveOne(h, s, id, clock(id)), pending[1..], clock);
    }
  }

  lemma OnlyAddCreates(h: Hashing, s: State, op: Op)
    requires !op.OpAdd?
    ensures Do(h, s, op).nIdCount == s.nIdCount
  {
    match op {
      case OpGood(a, time) => GoodIds(h, s, a, true, time);
      case OpResolve(pending, clock) => ResolveIds(h, s, pending, clock);
      case OpGetAddr(q, rand) => GetAddrKept(h, s, q, rand, 0, [], 0);
      case _ =>
    }
  }

  lemma DoRoutable(h: Hashing, s: State, op: Op)
    requires Consistent(h, s) && AllRoutable(h, s) && TimesOk(op)
    ensures AllRoutable(h, Do(h, s, op))
  {
    if op.OpAdd? {
      forall j: Id ensures RoutableAt(h, Do(h, s, op), j) {
        assert RoutableAt(h, s, j);
        AddRoutable(h, s, op.a, j);
      }
    } else {
      OnlyAddCreates(h, s, op);
      DoLater(h, s, op);
      forall j: Id ensures RoutableAt(h, Do(h, s, op), j) { assert RoutableAt(h, s, j) && EntryLater(s, Do(h, s, op), j); }
    }
  }

  lemma {:induction false} RunRoutable(h: Hashing, key: Key, ops: seq<Op>)
    requires key != 0 && forall i :: 0 <= i < |ops| ==> TimesOk(ops[i])
    ensures AllRoutable(h, Run(h, Empty(key), ops))
  {
    if ops != [] {
      RunConsistent(h, key, ops[..|ops| - 1]);
      RunRoutable(h, key, ops[..|ops| - 1]);
      DoRoutable(h, Run(h, Empty(key), ops[..|ops| - 1]), ops[|ops| - 1]);
    }
  }
}
