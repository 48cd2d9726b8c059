/** CheckAddrman, the executable consistency check of the address manager: what its
    result 0 means, that every consistent state passes, and what it leaves unchecked. */
module AddrManCheck {
  import opened AddrManModel
  import opened AddrManInvariant
  import opened AddrManRuns
  import opened Sets

  // ---------- What result 0 means ----------

  /** The first loop's tests for one entry. */
  predicate EntryPasses(s: State, id: Id)
    requires id in s.mapInfo
  {
    var info := s.mapInfo[id];
    && (if info.inTried then info.lastSuccess != 0 && info.refCount == 0
        else 1 <= info.refCount <= NEW_BUCKETS_PER_ADDRESS)
    && info.service in s.mapAddr && s.mapAddr[info.service] == id
    && 0 <= info.randomPos < |s.vRandom| && s.vRandom[info.randomPos] == id
    && info.lastTry >= 0 && info.lastSuccess >= 0
  }

  ghost predicate EntryOk(s: State, id: Id) { id in s.mapInfo ==> EntryPasses(s, id) }

  /** A slot of the tried table holds a tried entry in its own place. */
  ghost predicate TriedSlotPasses(h: Hashing, s: State, sl: Slot) {
    sl in s.triedTable ==>
      s.triedTable[sl] in TriedIds(s.mapInfo) && sl == TriedSlot(h, s.key, s.mapInfo[s.triedTable[sl]].service)
  }

  ghost predicate TriedIdPlaced(h: Hashing, s: State, id: Id) {
    id in TriedIds(s.mapInfo) ==>
      var sl := TriedSlot(h, s.key, s.mapInfo[id].service);
      sl in s.triedTable && s.triedTable[sl] == id
  }

  ghost predicate NewSlotPasses(h: Hashing, s: State, sl: Slot) {
    sl in s.newTable ==>
      s.newTable[sl] in NewIds(s.mapInfo, {}) && sl == NewSlotIn(h, s.key, s.mapInfo[s.newTable[sl]].service, sl.bucket)
  }

  ghost predicate NewIdPlaced(s: State, id: Id) {
    id in NewIds(s.mapInfo, {}) ==> s.mapInfo[id].refCount == |RefSlots(s.newTable, id)|
  }

  ghost function LocalNets(h: Hashing, mi: map<Id, Info>, ids: set<Id>): set<Network> {
    set id | id in ids && id in mi :: h.network(mi[id].service)
  }

  ghost predicate NetPasses(h: Hashing, s: State, net: Network) {
    net in s.netCounts ==>
      s.netCounts[net] == NewTriedCount(|NewIn(h, s.mapInfo, {}, net)|, |TriedIn(h, s.mapInfo, net)|)
  }

  ghost predicate CheckPasses(h: Hashing, s: State) {
    && |s.vRandom| == s.nTried + s.nNew
    && (forall id {:trigger EntryOk(s, id)} :: EntryOk(s, id))
    && |TriedIds(s.mapInfo)| == s.nTried && |NewIds(s.mapInfo, {})| == s.nNew
    && (forall sl {:trigger TriedSlotPasses(h, s, sl)} :: TriedSlotPasses(h, s, sl))
    && (forall id {:trigger TriedIdPlaced(h, s, id)} :: TriedIdPlaced(h, s, id))
    && (forall sl {:trigger NewSlotPasses(h, s, sl)} :: NewSlotPasses(h, s, sl))
    && (forall id {:trigger NewIdPlaced(s, id)} :: NewIdPlaced(s, id))
    && s.key != 0
    && |LocalNets(h, s.mapInfo, s.mapInfo.Keys)| <= |s.netCounts.Keys|
    && (forall net: Network {:trigger NetPasses(h, s, net)} :: NetPasses(h, s, net))
  }

  // ---------- Consistent states pass ----------

  lemma LocalNetsKnown(h: Hashing, s: State)
    requires CountsOk(h, s, {})
    ensures |LocalNets(h, s.mapInfo, s.mapInfo.Keys)| <= |s.netCounts.Keys|
  {
    var nets := LocalNets(h, s.mapInfo, s.mapInfo.Keys);
    forall net | net in nets ensures net in s.netCounts.Keys {
      var id :| id in s.mapInfo.Keys && h.network(s.mapInfo[id].service) == net;
      assert NetKnown(h, s, id);
    }
    SubsetSize(nets, s.netCounts.Keys);
  }

  lemma {:induction false} SubsetSize(a: set<int>, b: set<int>)
    requires forall x :: x in a ==> x in b
    ensures |a| <= |b|
    decreases |b|
  {
    if b == {} {
      SameSet(a, {});
    } else {
      NotEmpty(b);
      var x :| x in b;
      SubsetSize(a - {x}, b - {x});
    }
  }

  /** vRandom is as long as there are entries. */
  lemma {:induction false} RandomSize(s: State, n: nat)
    requires Indexed(s) && n <= |s.vRandom|
    ensures |PlacedBelow(s, n)| == n
  {
    if n == 0 {
      SameSet(PlacedBelow(s, 0), {});
    } else {
      RandomSize(s, n - 1);
      var id := s.vRandom[n - 1];
      assert RandomIndexed(s, n - 1);
      forall j: Id ensures j in PlacedBelow(s, n) <==> j in PlacedBelow(s, n - 1) + {id} { assert InfoIndexed(s, j); }
      SameSet(PlacedBelow(s, n), PlacedBelow(s, n - 1) + {id});
    }
  }

  ghost function PlacedBelow(s: State, n: nat): set<Id> {
    set id | id in s.mapInfo && 0 <= s.mapInfo[id].randomPos < n
  }

  lemma NewPlusTried(m: map<Id, Info>)
    ensures |NewIds(m, {})| + |TriedIds(m)| == |m.Keys|
  {
    SameSet(NewIds(m, {}) + TriedIds(m), m.Keys);
    assert NewIds(m, {}) !! TriedIds(m);
  }

  lemma SizesPass(h: Hashing, s: State)
    requires Indexed(s) && CountsOk(h, s, {})
    ensures |s.vRandom| == s.nTried + s.nNew
  {
    RandomSize(s, |s.vRandom|);
    forall j: Id ensures j in PlacedBelow(s, |s.vRandom|) <==> j in s.mapInfo.Keys { assert InfoIndexed(s, j); }
    SameSet(PlacedBelow(s, |s.vRandom|), s.mapInfo.Keys);
    NewPlusTried(s.mapInfo);
  }

  /** Every consistent state passes the check. */
  lemma ConsistentPasses(h: Hashing, s: State)
    requires Consistent(h, s)
    ensures CheckPasses(h, s)
  {
    SizesPass(h, s);
    LocalNetsKnown(h, s);
    forall id: Id ensures EntryOk(s, id) && TriedIdPlaced(h, s, id) && NewIdPlaced(s, id) {
      assert InfoIndexed(s, id) && RefsOk(s, id, {}) && TriedEntryOk(h, s, id);
    }
    forall sl: Slot ensures TriedSlotPasses(h, s, sl) { assert TriedSlotOk(h, s, sl); }
    forall sl: Slot ensures NewSlotPasses(h, s, sl) { assert NewSlotOk(h, s, sl); }
    forall net: Network ensures NetPasses(h, s, net) { assert NetCountOk(h, s, {}, net); }
  }

  /** Every reachable state passes the check. */
  lemma RunPasses(h: Hashing, key: Key, ops: seq<Op>)
    requires key != 0 && forall i :: 0 <= i < |ops| ==> TimesOk(ops[i])
    ensures CheckPasses(h, Run(h, Empty(key), ops))
  {
    RunConsistent(h, key, ops);
    ConsistentPasses(h, Run(h, Empty(key), ops));
  }

  // ---------- What the check leaves open ----------

  /** Not covered by the check: ids below the counter, no address without an entry,
      every network counted. */
  ghost predicate Unchecked(h: Hashing, s: State) {
    && s.nIdCount >= 0
    && (forall id :: id in s.mapInfo ==> 0 <= id < s.nIdCount)
    && (forall a {:trigger AddrIndexed(s, a)} :: AddrIndexed(s, a))
    && (forall id {:trigger NetKnown(h, s, id)} :: NetKnown(h, s, id))
  }

  /** Every slot of the new table lies within the table, as for an array it must. */
  ghost predicate InTable(s: State) { forall sl :: sl in s.newTable ==> 0 <= sl.bucket < NEW_BUCKET_COUNT }

  lemma PassesIndexed(h: Hashing, s: State)
    requires CheckPasses(h, s) && Unchecked(h, s)
    ensures Indexed(s)
  {
    forall id: Id ensures InfoIndexed(s, id) { assert EntryOk(s, id); }
    NewPlusTried(s.mapInfo);
    forall i: int ensures RandomIndexed(s, i) {
      if 0 <= i < |s.vRandom| {
        var id := FillsAll(s, i);
        assert EntryOk(s, id);
      }
    }
  }

  /** Places are distinct and as many as entries, so every place is taken. */
  lemma FillsAll(s: State, i: nat) returns (id: Id)
    requires i < |s.vRandom| == |s.mapInfo.Keys|
    requires forall id {:trigger EntryOk(s, id)} :: EntryOk(s, id)
    ensures id in s.mapInfo && s.mapInfo[id].randomPos == i
  {
    if forall j :: j in s.mapInfo ==> s.mapInfo[j].randomPos != i {
      forall j | j in s.mapInfo.Keys ensures 0 <= s.mapInfo[j].randomPos < |s.vRandom| { assert EntryOk(s, j); }
      PlacesTaken(s, s.mapInfo.Keys, i, |s.vRandom|);
    }
    id :| id in s.mapInfo && s.mapInfo[id].randomPos == i;
  }

  /** Entries below place n that avoid place i are fewer than n. */
  lemma {:induction false} PlacesTaken(s: State, ids: set<Id>, i: nat, n: nat)
    requires i < |s.vRandom| && n <= |s.vRandom|
    requires forall id {:trigger EntryOk(s, id)} :: EntryOk(s, id)
    requires forall j :: j in ids ==> j in s.mapInfo && 0 <= s.mapInfo[j].randomPos < n && s.mapInfo[j].randomPos != i
    ensures |ids| <= n - if i < n then 1 else 0
    decreases n
  {
    if n == 0 {
      SameSet(ids, {});
    } else if n - 1 == i {
      PlacesTaken(s, ids, i, n - 1);
    } else {
      var last := s.vRandom[n - 1];
      forall j | j in ids - {last} ensures s.mapInfo[j].randomPos < n - 1 { assert EntryOk(s, j); }
      PlacesTaken(s, ids - {last}, i, n - 1);
    }
  }

  /** Consistency is exactly: the table is a table, the check passes, and the three things it
      does not look at are in order too. */
  lemma CheckIsAlmostComplete(h: Hashing, s: State)
    ensures Consistent(h, s) <==> InTable(s) && CheckPasses(h, s) && Unchecked(h, s)
  {
    if Consistent(h, s) {
      ConsistentPasses(h, s);
      forall id | id in s.mapInfo ensures 0 <= id < s.nIdCount { assert InfoIndexed(s, id); }
      forall sl | sl in s.newTable ensures 0 <= sl.bucket < NEW_BUCKET_COUNT { assert NewSlotOk(h, s, sl); }
    }
    if InTable(s) && CheckPasses(h, s) && Unchecked(h, s) {
      PassesIndexed(h, s);
      PassesTables(h, s);
      PassesCounts(h, s);
    }
  }

  /** The check does pass on broken states: one address without an entry. No run leads to this one. */
  lemma CheckMisses(h: Hashing, key: Key, a: Service)
    requires key != 0
    ensures var s := Empty(key).(mapAddr := map[a := 5]); InTable(s) && CheckPasses(h, s) && !Consistent(h, s)
    ensures forall ops :: (forall i :: 0 <= i < |ops| ==> TimesOk(ops[i])) ==> Run(h, Empty(key), ops) != Empty(key).(mapAddr := map[a := 5])
  {
    var s := Empty(key).(mapAddr := map[a := 5]);
    EmptyConsistent(h, key);
    ConsistentPasses(h, Empty(key));
    forall id: Id ensures EntryOk(s, id) && TriedIdPlaced(h, s, id) && NewIdPlaced(s, id) {}
    forall sl: Slot ensures TriedSlotPasses(h, s, sl) && NewSlotPasses(h, s, sl) {}
    forall net: Network ensures NetPasses(h, s, net) {}
    assert !AddrIndexed(s, a);
    forall ops | forall i :: 0 <= i < |ops| ==> TimesOk(ops[i]) ensures Run(h, Empty(key), ops) != s {
      RunConsistent(h, key, ops);
    }
  }

  lemma PassesTables(h: Hashing, s: State)
    requires InTable(s) && CheckPasses(h, s) && Unchecked(h, s)
    ensures TriedOk(h, s) && NewOk(h, s, {})
  {
    forall sl: Slot ensures TriedSlotOk(h, s, sl) { assert TriedSlotPasses(h, s, sl); }
    forall id: Id ensures TriedEntryOk(h, s, id) { assert TriedIdPlaced(h, s, id) && EntryOk(s, id); }
    forall sl: Slot ensures NewSlotOk(h, s, sl) { assert NewSlotPasses(h, s, sl); }
    forall id: Id ensures RefsOk(s, id, {}) {
      assert NewIdPlaced(s, id) && EntryOk(s, id);
      if id in s.mapInfo && s.mapInfo[id].inTried {
        forall sl: Slot ensures sl !in RefSlots(s.newTable, id) { assert NewSlotPasses(h, s, sl); }
        assert RefSlots(s.newTable, id) == {};
      }
    }
  }

  lemma PassesCounts(h: Hashing, s: State)
    requires CheckPasses(h, s) && Unchecked(h, s)
    ensures CountsOk(h, s, {})
  {
    forall net: Network ensures NetCountOk(h, s, {}, net) {
      assert NetPasses(h, s, net);
      if net !in s.netCounts {
        forall id: Id ensures id !in NewIn(h, s.mapInfo, {}, net) && id !in TriedIn(h, s.mapInfo, net) {
          assert NetKnown(h, s, id);
        }
        SameSet(NewIn(h, s.mapInfo, {}, net), {});
        SameSet(TriedIn(h, s.mapInfo, net), {});
      }
    }
  }
}
