/** Unserialize of Serialize restores the address manager up to a renaming of the ids
    and the fields that live in memory only. */
module AddrManRoundTrip {
  import opened AddrManModel
  import opened AddrManInvariant
  import opened AddrManOps
  import opened AddrManDisk
  import opened AddrManScan
  import opened AddrManCheck
  import R = AddrManRuns
  import opened Sets

  // ---------- Enumerations ----------

  ghost predicate Distinct(q: seq<Id>) {
    forall i, j :: 0 <= i < j < |q| ==> q[i] != q[j]
  }

  /** q lists every element of s once. */
  ghost predicate Enumerates(q: seq<Id>, s: set<Id>) {
    Distinct(q) && forall id :: id in q <==> id in s
  }

  lemma {:induction false} EnumerationSize(q: seq<Id>, s: set<Id>)
    requires Enumerates(q, s)
    ensures |q| == |s|
  {
    if q == [] {
      SameSet(s, {});
    } else {
      var last := q[|q| - 1];
      var front := q[..|q| - 1];
      forall id ensures id in front <==> id in s - {last} {
        if id in s && id != last { assert id in q; }
      }
      EnumerationSize(front, s - {last});
    }
  }

  lemma {:induction false} ChosenMembers(s: State, order: seq<Id>, tried: bool, id: Id)
    ensures id in Chosen(s, order, tried) <==> id in order && Written(s, id, tried)
  {
    if order != [] {
      ChosenMembers(s, order[1..], tried, id);
      assert order == [order[0]] + order[1..];
    }
  }

  lemma {:induction false} ChosenDistinct(s: State, order: seq<Id>, tried: bool)
    requires Distinct(order)
    ensures Distinct(Chosen(s, order, tried))
  {
    if order != [] {
      ChosenDistinct(s, order[1..], tried);
      ChosenMembers(s, order[1..], tried, order[0]);
    }
  }

  lemma WrittenRole(h: Hashing, s: State, id: Id)
    requires Consistent(h, s)
    ensures Written(s, id, false) <==> id in NewIds(s.mapInfo, {})
    ensures Written(s, id, true) <==> id in TriedIds(s.mapInfo)
  {
    assert RefsOk(s, id, {});
  }

  /** The two parts of the file list the new and the tried entries, each once; so the
      assertions against nNew and nTried in Serialize hold. */
  lemma ChosenSizes(h: Hashing, s: State, order: seq<Id>)
    requires Consistent(h, s) && Enumerates(order, s.mapInfo.Keys)
    ensures Enumerates(Chosen(s, order, false), NewIds(s.mapInfo, {})) && |Chosen(s, order, false)| == s.nNew
    ensures Enumerates(Chosen(s, order, true), TriedIds(s.mapInfo)) && |Chosen(s, order, true)| == s.nTried
  {
    ChosenDistinct(s, order, false);
    ChosenDistinct(s, order, true);
    forall id
      ensures id in Chosen(s, order, false) <==> id in NewIds(s.mapInfo, {})
      ensures id in Chosen(s, order, true) <==> id in TriedIds(s.mapInfo)
    {
      ChosenMembers(s, order, false, id);
      ChosenMembers(s, order, true, id);
      WrittenRole(h, s, id);
    }
    EnumerationSize(Chosen(s, order, false), NewIds(s.mapInfo, {}));
    EnumerationSize(Chosen(s, order, true), TriedIds(s.mapInfo));
  }

  lemma {:induction false} IndexOfAt(q: seq<Id>, k: nat)
    requires Distinct(q) && k < |q|
    ensures IndexOf(q, q[k]) == k
  {
    if k > 0 { IndexOfAt(q[1..], k - 1); }
  }

  // ---------- The two lists together ----------

  /** `all` lists the entries of s: first the nn new ones, then the tried ones. */
  ghost predicate Listed(s: State, all: seq<Id>, nn: nat, k: int) {
    0 <= k < |all| ==> all[k] in s.mapInfo && (s.mapInfo[all[k]].inTried <==> nn <= k)
  }

  ghost predicate Listing(h: Hashing, s: State, all: seq<Id>, nn: nat) {
    && Consistent(h, s) && Enumerates(all, s.mapInfo.Keys) && nn <= |all|
    && forall k {:trigger Listed(s, all, nn, k)} :: Listed(s, all, nn, k)
  }

  lemma FileListing(h: Hashing, s: State, order: seq<Id>)
    requires Consistent(h, s) && Enumerates(order, s.mapInfo.Keys)
    ensures Listing(h, s, Chosen(s, order, false) + Chosen(s, order, true), |Chosen(s, order, false)|)
  {
    ChosenSizes(h, s, order);
    var a, b := Chosen(s, order, false), Chosen(s, order, true);
    var all := a + b;
    forall k: int ensures Listed(s, all, |a|, k) {
      if 0 <= k < |a| { assert a[k] in NewIds(s.mapInfo, {}); }
      if |a| <= k < |all| { assert b[k - |a|] in TriedIds(s.mapInfo); }
    }
    forall i, j | 0 <= i < j < |all| ensures all[i] != all[j] {
      assert Listed(s, all, |a|, i) && Listed(s, all, |a|, j);
    }
    forall id ensures id in all <==> id in s.mapInfo.Keys {
      assert id in all <==> id in a || id in b;
    }
  }

  // ---------- Loading the entries ----------

  ghost predicate ValidAt(h: Hashing, s: State, id: Id) { id in s.mapInfo ==> h.valid(s.mapInfo[id].service) }

  ghost predicate AllValid(h: Hashing, s: State) {
    forall id {:trigger ValidAt(h, s, id)} :: ValidAt(h, s, id)
  }

  ghost function Below(n: int): (r: set<Id>)
    ensures forall k :: k in r <==> 0 <= k < n
  {
    if n <= 0 then {} else Below(n - 1) + {n - 1}
  }

  /** Entry k of the rebuilt manager is the k-th of the list, without references yet. */
  ghost predicate EntryLoaded(s: State, all: seq<Id>, nn: nat, m: nat, st: State, k: Id) {
    && (k in st.mapInfo <==> 0 <= k < m)
    && (0 <= k < m <= |all| && all[k] in s.mapInfo ==>
          st.mapInfo[k] == FromDisk(ToDisk(s.mapInfo[all[k]]), 0, nn <= k, k))
  }

  ghost predicate LoadedUpTo(h: Hashing, s: State, all: seq<Id>, nn: nat, m: nat, st: State) {
    && m <= |all| && st.nIdCount == m == |st.vRandom| && st.key == s.key && st.newTable == map[]
    && (forall k {:trigger EntryLoaded(s, all, nn, m, st, k)} :: EntryLoaded(s, all, nn, m, st, k))
    && Inv(h, st, Below(Min(m, nn)), {})
    && st.collisions == {} && st.lastGood == 1
  }

  /** The address of the next entry is not there yet. */
  lemma NextAddressIsNew(h: Hashing, s: State, all: seq<Id>, nn: nat, m: nat, st: State)
    requires Listing(h, s, all, nn) && LoadedUpTo(h, s, all, nn, m, st) && m < |all|
    ensures all[m] in s.mapInfo && s.mapInfo[all[m]].service !in st.mapAddr
  {
    assert Listed(s, all, nn, m);
    var a := s.mapInfo[all[m]].service;
    forall k | 0 <= k < m ensures all[k] in s.mapInfo && s.mapInfo[all[k]].service != a {
      assert Listed(s, all, nn, k) && InfoIndexed(s, all[k]) && InfoIndexed(s, all[m]);
    }
    assert AddrIndexed(st, a);
    assert a in st.mapAddr ==> EntryLoaded(s, all, nn, m, st, st.mapAddr[a]);
  }

  lemma LoadNewOneIsCreate(h: Hashing, st: State, d: DiskInfo)
    ensures var s1 := Create(h, st, Address(d.service, d.time, d.services), d.source);
            LoadNewOne(h, st, d) == SetInfo(s1, st.nIdCount, FromDisk(d, 0, false, |st.vRandom|))
  {
  }

  lemma LoadNewOneInv(h: Hashing, st: State, d: DiskInfo, l: set<Id>)
    requires Inv(h, st, l, {}) && d.service !in st.mapAddr && d.lastSuccess >= 0
    ensures Inv(h, LoadNewOne(h, st, d), l + {st.nIdCount}, {})
  {
    var s1 := Create(h, st, Address(d.service, d.time, d.services), d.source);
    CreateInv(h, st, Address(d.service, d.time, d.services), d.source, l);
    LoadNewOneIsCreate(h, st, d);
    SetInfoInv(h, s1, st.nIdCount, FromDisk(d, 0, false, |st.vRandom|), l + {st.nIdCount}, {});
  }

  lemma LoadNewStep(h: Hashing, s: State, all: seq<Id>, nn: nat, m: nat, st: State)
    requires Listing(h, s, all, nn) && LoadedUpTo(h, s, all, nn, m, st) && m < nn && all[m] in s.mapInfo
    ensures LoadedUpTo(h, s, all, nn, m + 1, LoadNewOne(h, st, ToDisk(s.mapInfo[all[m]])))
  {
    var st' := LoadNewOne(h, st, ToDisk(s.mapInfo[all[m]]));
    var m' := m + 1;
    NextAddressIsNew(h, s, all, nn, m, st);
    assert InfoIndexed(s, all[m]);
    LoadNewOneInv(h, st, ToDisk(s.mapInfo[all[m]]), Below(m));
    SameSet(Below(m) + {m}, Below(m'));
    forall k: Id ensures EntryLoaded(s, all, nn, m', st', k) { assert EntryLoaded(s, all, nn, m, st, k); }
  }

  lemma BumpTwice(nc: map<Network, NewTriedCount>, net: Network)
    ensures Bump(Bump(Bump(nc, net, 1, 0), net, -1, 0), net, 0, 1) == Bump(nc, net, 0, 1)
  {
  }

  /** Loading a tried entry is creating it and moving it to its free tried slot. */
  lemma LoadTriedOneIsMove(h: Hashing, st: State, d: DiskInfo)
    requires h.valid(d.service) && TriedSlot(h, st.key, d.service) !in st.triedTable
    requires RefSlots(st.newTable, st.nIdCount) == {}
    ensures var s1 := LoadNewOne(h, st, d);
            st.nIdCount in RemoveRefs(h, s1, st.nIdCount).mapInfo
            && LoadTriedOne(h, st, d) == EnterTried(h, RemoveRefs(h, s1, st.nIdCount), TriedSlot(h, st.key, d.service), st.nIdCount)
  {
    BumpTwice(st.netCounts, h.network(d.service));
    assert st.newTable - {} == st.newTable;
  }

  lemma LoadTriedOneInv(h: Hashing, st: State, d: DiskInfo, l: set<Id>)
    requires Inv(h, st, l, {}) && d.service !in st.mapAddr && d.lastSuccess > 0 && st.nIdCount !in l
    requires h.valid(d.service) && TriedSlot(h, st.key, d.service) !in st.triedTable
    ensures Inv(h, LoadTriedOne(h, st, d), l, {})
  {
    var id := st.nIdCount;
    var s1 := LoadNewOne(h, st, d);
    FreshId(st);
    forall sl: Slot ensures sl in st.newTable ==> st.newTable[sl] != id { assert NewSlotOk(h, st, sl); }
    assert RefSlots(st.newTable, id) == {};
    LoadTriedOneIsMove(h, st, d);
    LoadNewOneInv(h, st, d, l);
    RemoveRefsInv(h, s1, id, l + {id});
    SameSet(l + {id} + {id}, l + {id});
    EnterTriedInv(h, RemoveRefs(h, s1, id), TriedSlot(h, st.key, d.service), id, l + {id});
    SameSet(l + {id} - {id}, l);
  }

  /** Whatever is in the tried table is a loaded tried entry in its old slot. */
  lemma TriedSlotLoaded(h: Hashing, s: State, all: seq<Id>, nn: nat, m: nat, st: State, sl: Slot)
    requires Listing(h, s, all, nn) && LoadedUpTo(h, s, all, nn, m, st)
    ensures sl in st.triedTable ==>
      && nn <= st.triedTable[sl] < m && all[st.triedTable[sl]] in s.mapInfo
      && TriedSlot(h, s.key, s.mapInfo[all[st.triedTable[sl]]].service) == sl
  {
    if sl in st.triedTable {
      var k := st.triedTable[sl];
      assert TriedSlotOk(h, st, sl) && EntryLoaded(s, all, nn, m, st, k) && Listed(s, all, nn, k);
    }
  }

  /** No tried entry is lost: its slot is still free. */
  lemma NextSlotIsFree(h: Hashing, s: State, all: seq<Id>, nn: nat, m: nat, st: State)
    requires Listing(h, s, all, nn) && LoadedUpTo(h, s, all, nn, m, st) && nn <= m < |all| && all[m] in s.mapInfo
    ensures TriedSlot(h, s.key, s.mapInfo[all[m]].service) !in st.triedTable
  {
    var sl := TriedSlot(h, s.key, s.mapInfo[all[m]].service);
    assert Listed(s, all, nn, m) && TriedEntryOk(h, s, all[m]);
    forall k | nn <= k < m ensures all[k] in s.mapInfo && TriedSlot(h, s.key, s.mapInfo[all[k]].service) != sl {
      assert Listed(s, all, nn, k) && TriedEntryOk(h, s, all[k]);
    }
    TriedSlotLoaded(h, s, all, nn, m, st, sl);
  }

  lemma LoadTriedStep(h: Hashing, s: State, all: seq<Id>, nn: nat, m: nat, st: State)
    requires Listing(h, s, all, nn) && LoadedUpTo(h, s, all, nn, m, st) && nn <= m < |all| && all[m] in s.mapInfo
    requires h.valid(s.mapInfo[all[m]].service)
    ensures LoadedUpTo(h, s, all, nn, m + 1, LoadTriedOne(h, st, ToDisk(s.mapInfo[all[m]])))
  {
    var st' := LoadTriedOne(h, st, ToDisk(s.mapInfo[all[m]]));
    var m' := m + 1;
    NextAddressIsNew(h, s, all, nn, m, st);
    NextSlotIsFree(h, s, all, nn, m, st);
    assert Listed(s, all, nn, m) && TriedEntryOk(h, s, all[m]);
    LoadTriedOneInv(h, st, ToDisk(s.mapInfo[all[m]]), Below(nn));
    forall k: Id ensures EntryLoaded(s, all, nn, m', st', k) { assert EntryLoaded(s, all, nn, m, st, k); }
  }

  ghost predicate InMap(s: State, all: seq<Id>) { forall k :: 0 <= k < |all| ==> all[k] in s.mapInfo }

  lemma EmptyLoaded(h: Hashing, s: State, all: seq<Id>, nn: nat)
    requires s.key != 0
    ensures LoadedUpTo(h, s, all, nn, 0, Empty(s.key))
  {
    EmptyConsistent(h, s.key);
    SameSet(Below(0), {});
    forall k: Id ensures EntryLoaded(s, all, nn, 0, Empty(s.key), k) { }
  }

  /** Reading the new part of the file from entry m on. */
  lemma {:induction false} LoadNewFrom(h: Hashing, s: State, all: seq<Id>, nn: nat, m: nat, st: State)
    requires Listing(h, s, all, nn) && m <= nn && InMap(s, all) && LoadedUpTo(h, s, all, nn, m, st)
    ensures LoadedUpTo(h, s, all, nn, nn, LoadNew(h, st, Infos(s, all[m..nn])))
    decreases nn - m
  {
    if m < nn {
      var st' := LoadNewOne(h, st, ToDisk(s.mapInfo[all[m]]));
      LoadNewStep(h, s, all, nn, m, st);
      LoadNewFrom(h, s, all, nn, m + 1, st');
      assert Infos(s, all[m..nn])[1..] == Infos(s, all[m + 1..nn]);
    }
  }

  /** Reading the tried part of the file from entry m on. */
  lemma {:induction false} LoadTriedFrom(h: Hashing, s: State, all: seq<Id>, nn: nat, m: nat, st: State)
    requires Listing(h, s, all, nn) && nn <= m <= |all| && InMap(s, all) && AllValid(h, s)
    requires LoadedUpTo(h, s, all, nn, m, st)
    ensures LoadedUpTo(h, s, all, nn, |all|, LoadTried(h, st, Infos(s, all[m..])))
    decreases |all| - m
  {
    if m < |all| {
      assert ValidAt(h, s, all[m]);
      var st' := LoadTriedOne(h, st, ToDisk(s.mapInfo[all[m]]));
      LoadTriedStep(h, s, all, nn, m, st);
      LoadTriedFrom(h, s, all, nn, m + 1, st');
      assert Infos(s, all[m..])[1..] == Infos(s, all[m + 1..]);
    }
  }

  // ---------- Which bucket entries are read back ----------

  /** The bucket entries written for the slots from bucket b, position i on. */
  ghost function EntriesFrom(t: Table, ids: seq<Id>, b: int, i: int): seq<BucketEntry>
    decreases NEW_BUCKET_COUNT - b, BUCKET_SIZE - i
  {
    if b >= NEW_BUCKET_COUNT then []
    else if i >= BUCKET_SIZE then EntriesFrom(t, ids, b + 1, 0)
    else if Slot(b, i) in t then [BucketEntry(b, IndexOf(ids, t[Slot(b, i)]))] + EntriesFrom(t, ids, b, i + 1)
    else EntriesFrom(t, ids, b, i + 1)
  }

  /** Every occupant of the table is in the list of ids. */
  ghost predicate OccupantListed(t: Table, ids: seq<Id>, sl: Slot) {
    sl in t ==> 0 <= IndexOf(ids, t[sl]) < |ids| && ids[IndexOf(ids, t[sl])] == t[sl]
  }

  ghost predicate OccupantsListed(t: Table, ids: seq<Id>) {
    forall sl {:trigger OccupantListed(t, ids, sl)} :: OccupantListed(t, ids, sl)
  }

  lemma Assoc(a: seq<BucketEntry>, b: seq<BucketEntry>, c: seq<BucketEntry>)
    ensures a + (b + c) == (a + b) + c
  {
  }

  lemma EntriesOfCons(b: int, x: int, rest: seq<int>, n: int)
    requires 0 <= x < n
    ensures EntriesOf(b, [x] + rest, n) == [BucketEntry(b, x)] + EntriesOf(b, rest, n)
  {
    assert ([x] + rest)[1..] == rest;
  }

  lemma {:induction false} BucketReadBack(t: Table, ids: seq<Id>, b: int, i: int)
    requires OccupantsListed(t, ids) && b < NEW_BUCKET_COUNT && i <= BUCKET_SIZE
    ensures EntriesFrom(t, ids, b, i) == EntriesOf(b, BucketIndices(t, ids, b, i), |ids|) + EntriesFrom(t, ids, b + 1, 0)
    decreases BUCKET_SIZE - i
  {
    if i < BUCKET_SIZE {
      BucketReadBack(t, ids, b, i + 1);
      var rest := BucketIndices(t, ids, b, i + 1);
      if Slot(b, i) in t {
        assert OccupantListed(t, ids, Slot(b, i));
        var x := IndexOf(ids, t[Slot(b, i)]);
        EntriesOfCons(b, x, rest, |ids|);
        Assoc([BucketEntry(b, x)], EntriesOf(b, rest, |ids|), EntriesFrom(t, ids, b + 1, 0));
      }
    }
  }

  lemma {:induction false} AllReadBack(t: Table, ids: seq<Id>, buckets: seq<seq<int>>, b: nat)
    requires OccupantsListed(t, ids) && |buckets| == NEW_BUCKET_COUNT && b <= NEW_BUCKET_COUNT
    requires forall c :: 0 <= c < |buckets| ==> buckets[c] == BucketIndices(t, ids, c, 0)
    ensures BucketEntries(buckets, b, |ids|) == EntriesFrom(t, ids, b, 0)
    decreases NEW_BUCKET_COUNT - b
  {
    if b < NEW_BUCKET_COUNT {
      AllReadBack(t, ids, buckets, b + 1);
      BucketReadBack(t, ids, b, 0);
    }
  }

  // ---------- Restoring the new table ----------

  ghost predicate SlotRestored(s: State, all: seq<Id>, nn: nat, b: int, i: int, st: State, sl: Slot) {
    && (sl in st.newTable <==> sl in s.newTable && Before(sl, b, i))
    && (sl in st.newTable && sl in s.newTable ==>
          0 <= st.newTable[sl] < nn <= |all| && all[st.newTable[sl]] == s.newTable[sl])
  }

  ghost predicate EntryRestored(s: State, all: seq<Id>, nn: nat, b: int, i: int, st: State, k: Id) {
    && (k in st.mapInfo <==> 0 <= k < |all|)
    && (0 <= k < |all| && all[k] in s.mapInfo ==>
          st.mapInfo[k] == FromDisk(ToDisk(s.mapInfo[all[k]]), |Seen(s.newTable, b, i, all[k])|, nn <= k, k))
  }

  /** New entries none of whose references are back yet. */
  ghost function Waiting(s: State, all: seq<Id>, nn: nat, b: int, i: int): set<Id>
    requires nn <= |all|
  {
    set k | k in Below(nn) && |Seen(s.newTable, b, i, all[k])| == 0
  }

  ghost predicate RestoredUpTo(h: Hashing, s: State, all: seq<Id>, nn: nat, b: int, i: int, st: State) {
    && nn <= |all| && st.key == s.key && st.nIdCount == |all| && st.collisions == {} && st.lastGood == 1
    && (forall sl {:trigger SlotRestored(s, all, nn, b, i, st, sl)} :: SlotRestored(s, all, nn, b, i, st, sl))
    && (forall k {:trigger EntryRestored(s, all, nn, b, i, st, k)} :: EntryRestored(s, all, nn, b, i, st, k))
    && Inv(h, st, Waiting(s, all, nn, b, i), {})
  }

  lemma NothingSeen(h: Hashing, s: State, id: Id)
    requires Consistent(h, s)
    ensures Seen(s.newTable, 0, 0, id) == {}
  {
    forall sl: Slot ensures sl in s.newTable ==> !Before(sl, 0, 0) { assert NewSlotOk(h, s, sl); }
  }

  lemma RestoreStart(h: Hashing, s: State, all: seq<Id>, nn: nat, st: State)
    requires Listing(h, s, all, nn) && LoadedUpTo(h, s, all, nn, |all|, st)
    ensures RestoredUpTo(h, s, all, nn, 0, 0, st)
  {
    forall id: Id ensures Seen(s.newTable, 0, 0, id) == {} { NothingSeen(h, s, id); }
    forall sl: Slot ensures SlotRestored(s, all, nn, 0, 0, st, sl) { assert NewSlotOk(h, s, sl); }
    forall k: Id ensures EntryRestored(s, all, nn, 0, 0, st, k) { assert EntryLoaded(s, all, nn, |all|, st, k); }
    SameSet(Waiting(s, all, nn, 0, 0), Below(nn));
  }

  /** The entry for an occupied slot goes back exactly there. */
  lemma RestoreOneEffect(h: Hashing, s: State, all: seq<Id>, nn: nat, b: int, i: int, st: State, k: Id)
    requires Listing(h, s, all, nn) && RestoredUpTo(h, s, all, nn, b, i, st) && AllValid(h, s)
    requires Slot(b, i) in s.newTable && 0 <= k < nn && all[k] == s.newTable[Slot(b, i)]
    ensures k in st.mapInfo && RestoreOne(h, st, BucketEntry(b, k), true) == GainRef(st, Slot(b, i), k)
    ensures !st.mapInfo[k].inTried && st.mapInfo[k].refCount < NEW_BUCKETS_PER_ADDRESS
    ensures Slot(b, i) !in st.newTable && 0 <= b < NEW_BUCKET_COUNT
    ensures Slot(b, i) == NewSlotIn(h, st.key, st.mapInfo[k].service, b)
  {
    var sl := Slot(b, i);
    assert NewSlotOk(h, s, sl) && RefsOk(s, all[k], {}) && ValidAt(h, s, all[k]);
    assert EntryRestored(s, all, nn, b, i, st, k) && SlotRestored(s, all, nn, b, i, st, sl);
    SlotSubset(Seen(s.newTable, b, i, all[k]) + {sl}, RefSlots(s.newTable, all[k]));
  }

  lemma WaitingStep(h: Hashing, s: State, all: seq<Id>, nn: nat, b: int, i: int, k: Id)
    requires Listing(h, s, all, nn) && Slot(b, i) in s.newTable && 0 <= k < nn && all[k] == s.newTable[Slot(b, i)]
    ensures Waiting(s, all, nn, b, i + 1) == Waiting(s, all, nn, b, i) - {k}
  {
    forall j: Id ensures j in Waiting(s, all, nn, b, i + 1) <==> j in Waiting(s, all, nn, b, i) - {k} {
      if 0 <= j < nn { SeenStep(s.newTable, b, i, all[j]); }
    }
    SameSet(Waiting(s, all, nn, b, i + 1), Waiting(s, all, nn, b, i) - {k});
  }

  lemma RestoreStep(h: Hashing, s: State, all: seq<Id>, nn: nat, b: int, i: int, st: State, k: Id)
    requires Listing(h, s, all, nn) && RestoredUpTo(h, s, all, nn, b, i, st) && AllValid(h, s)
    requires Slot(b, i) in s.newTable && 0 <= k < nn && all[k] == s.newTable[Slot(b, i)]
    ensures RestoredUpTo(h, s, all, nn, b, i + 1, RestoreOne(h, st, BucketEntry(b, k), true))
  {
    var i' := i + 1;
    var sl := Slot(b, i);
    RestoreOneEffect(h, s, all, nn, b, i, st, k);
    var st' := GainRef(st, sl, k);
    GainRefInv(h, st, sl, k, Waiting(s, all, nn, b, i), {});
    WaitingStep(h, s, all, nn, b, i, k);
    forall x: Slot ensures SlotRestored(s, all, nn, b, i', st', x) { assert SlotRestored(s, all, nn, b, i, st, x); }
    forall j: Id ensures EntryRestored(s, all, nn, b, i', st', j) {
      assert EntryRestored(s, all, nn, b, i, st, j);
      if 0 <= j < |all| { SeenStep(s.newTable, b, i, all[j]); }
    }
  }

  /** Passing a free slot, or the end of a bucket, changes nothing. */
  lemma RestoreSkip(h: Hashing, s: State, all: seq<Id>, nn: nat, b: int, i: int, b': int, i': int, st: State)
    requires Consistent(h, s) && RestoredUpTo(h, s, all, nn, b, i, st)
    requires forall sl {:trigger NewSlotOk(h, s, sl)} :: sl in s.newTable ==> (Before(sl, b, i) <==> Before(sl, b', i'))
    ensures RestoredUpTo(h, s, all, nn, b', i', st)
  {
    forall id: Id ensures Seen(s.newTable, b', i', id) == Seen(s.newTable, b, i, id) {
      forall sl: Slot ensures sl in Seen(s.newTable, b', i', id) <==> sl in Seen(s.newTable, b, i, id) { assert NewSlotOk(h, s, sl); }
    }
    forall x: Slot ensures SlotRestored(s, all, nn, b', i', st, x) {
      assert NewSlotOk(h, s, x) && SlotRestored(s, all, nn, b, i, st, x);
    }
    forall j: Id ensures EntryRestored(s, all, nn, b', i', st, j) { assert EntryRestored(s, all, nn, b, i, st, j); }
    SameSet(Waiting(s, all, nn, b', i'), Waiting(s, all, nn, b, i));
  }

  lemma RestoreSkipSlot(h: Hashing, s: State, all: seq<Id>, nn: nat, b: int, i: int, st: State)
    requires Consistent(h, s) && RestoredUpTo(h, s, all, nn, b, i, st) && Slot(b, i) !in s.newTable
    ensures RestoredUpTo(h, s, all, nn, b, i + 1, st)
  {
    forall sl: Slot ensures sl in s.newTable ==> (Before(sl, b, i) <==> Before(sl, b, i + 1)) {
      assert sl.bucket == b && sl.pos == i ==> sl == Slot(b, i);
    }
    RestoreSkip(h, s, all, nn, b, i, b, i + 1, st);
  }

  lemma RestoreSkipBucket(h: Hashing, s: State, all: seq<Id>, nn: nat, b: int, st: State)
    requires Consistent(h, s) && RestoredUpTo(h, s, all, nn, b, BUCKET_SIZE, st)
    ensures RestoredUpTo(h, s, all, nn, b + 1, 0, st)
  {
    forall sl: Slot ensures sl in s.newTable ==> (Before(sl, b, BUCKET_SIZE) <==> Before(sl, b + 1, 0)) {
      assert NewSlotOk(h, s, sl);
    }
    RestoreSkip(h, s, all, nn, b, BUCKET_SIZE, b + 1, 0, st);
  }

  lemma {:induction false} RestoreRest(h: Hashing, s: State, all: seq<Id>, nn: nat, b: int, i: int, st: State)
    requires Listing(h, s, all, nn) && RestoredUpTo(h, s, all, nn, b, i, st) && AllValid(h, s)
    requires OccupantsListed(s.newTable, all[..nn]) && 0 <= b <= NEW_BUCKET_COUNT && 0 <= i <= BUCKET_SIZE
    requires b == NEW_BUCKET_COUNT ==> i == 0
    ensures RestoredUpTo(h, s, all, nn, NEW_BUCKET_COUNT, 0, RestoreAll(h, st, EntriesFrom(s.newTable, all[..nn], b, i), true))
    decreases NEW_BUCKET_COUNT - b, BUCKET_SIZE - i
  {
    if b < NEW_BUCKET_COUNT {
      if i == BUCKET_SIZE {
        RestoreSkipBucket(h, s, all, nn, b, st);
        RestoreRest(h, s, all, nn, b + 1, 0, st);
      } else if Slot(b, i) in s.newTable {
        RestoreHere(h, s, all, nn, b, i, st);
        var e := BucketEntry(b, IndexOf(all[..nn], s.newTable[Slot(b, i)]));
        RestoreRest(h, s, all, nn, b, i + 1, RestoreOne(h, st, e, true));
        assert ([e] + EntriesFrom(s.newTable, all[..nn], b, i + 1))[1..] == EntriesFrom(s.newTable, all[..nn], b, i + 1);
      } else {
        RestoreSkipSlot(h, s, all, nn, b, i, st);
        RestoreRest(h, s, all, nn, b, i + 1, st);
      }
    }
  }

  lemma RestoreHere(h: Hashing, s: State, all: seq<Id>, nn: nat, b: int, i: int, st: State)
    requires Listing(h, s, all, nn) && RestoredUpTo(h, s, all, nn, b, i, st) && AllValid(h, s)
    requires OccupantsListed(s.newTable, all[..nn]) && Slot(b, i) in s.newTable
    ensures RestoredUpTo(h, s, all, nn, b, i + 1,
              RestoreOne(h, st, BucketEntry(b, IndexOf(all[..nn], s.newTable[Slot(b, i)])), true))
  {
    assert OccupantListed(s.newTable, all[..nn], Slot(b, i));
    RestoreStep(h, s, all, nn, b, i, st, IndexOf(all[..nn], s.newTable[Slot(b, i)]));
  }

  // ---------- The whole round trip ----------

  lemma OccupantsAreListed(h: Hashing, s: State, all: seq<Id>, nn: nat)
    requires Listing(h, s, all, nn)
    ensures OccupantsListed(s.newTable, all[..nn])
  {
    forall sl: Slot ensures OccupantListed(s.newTable, all[..nn], sl) {
      assert NewSlotOk(h, s, sl);
      if sl in s.newTable {
        var id := s.newTable[sl];
        assert id in all;
        var k :| 0 <= k < |all| && all[k] == id;
        assert Listed(s, all, nn, k);
        assert all[..nn][k] == id;
        IndexOfAt(all[..nn], k);
      }
    }
  }

  /** When all slots are back, nobody is without a reference. */
  lemma RestoredIsConsistent(h: Hashing, s: State, all: seq<Id>, nn: nat, st: State)
    requires Listing(h, s, all, nn) && RestoredUpTo(h, s, all, nn, NEW_BUCKET_COUNT, 0, st)
    ensures Consistent(h, st)
  {
    forall k: Id ensures k !in Waiting(s, all, nn, NEW_BUCKET_COUNT, 0) {
      if 0 <= k < nn {
        assert Listed(s, all, nn, k) && RefsOk(s, all[k], {});
        AllSeen(h, s, all[k]);
      }
    }
    SameSet(Waiting(s, all, nn, NEW_BUCKET_COUNT, 0), {});
  }

  lemma AllSeen(h: Hashing, s: State, id: Id)
    requires Consistent(h, s)
    ensures Seen(s.newTable, NEW_BUCKET_COUNT, 0, id) == RefSlots(s.newTable, id)
  {
    forall sl: Slot ensures sl in s.newTable ==> Before(sl, NEW_BUCKET_COUNT, 0) { assert NewSlotOk(h, s, sl); }
  }

  lemma {:induction false} PruneNothing(h: Hashing, st: State, ids: seq<Id>)
    requires Consistent(h, st)
    ensures Prune(h, st, ids) == st
    decreases |ids|
  {
    if ids != [] {
      assert RefsOk(st, ids[0], {});
      PruneNothing(h, st, ids[1..]);
    }
  }

  /** The memory-only fields are reset, the place in vRandom is the new id. */
  function Remembered(info: Info, k: Id): Info {
    info.(lastTry := 0, lastCountAttempt := 0, randomPos := k)
  }

  ghost predicate EntrySame(s: State, all: seq<Id>, s': State, k: Id) {
    && (k in s'.mapInfo <==> 0 <= k < |all|)
    && (0 <= k < |all| ==> all[k] in s.mapInfo && s'.mapInfo[k] == Remembered(s.mapInfo[all[k]], k))
  }

  ghost predicate SlotSame(t: Table, all: seq<Id>, t': Table, sl: Slot) {
    && (sl in t <==> sl in t')
    && (sl in t && sl in t' ==> 0 <= t'[sl] < |all| && all[t'[sl]] == t[sl])
  }

  /** s' is s with id all[k] renamed to k and the memory-only fields lost. */
  ghost predicate SameUpToIds(s: State, all: seq<Id>, s': State) {
    && s'.key == s.key && s'.nNew == s.nNew && s'.nTried == s.nTried
    && s'.nIdCount == |all| && s'.collisions == {} && s'.lastGood == 1
    && (forall k {:trigger EntrySame(s, all, s', k)} :: EntrySame(s, all, s', k))
    && (forall sl {:trigger SlotSame(s.newTable, all, s'.newTable, sl)} :: SlotSame(s.newTable, all, s'.newTable, sl))
    && (forall sl {:trigger SlotSame(s.triedTable, all, s'.triedTable, sl)} :: SlotSame(s.triedTable, all, s'.triedTable, sl))
  }

  lemma EntriesSame(h: Hashing, s: State, all: seq<Id>, nn: nat, st: State, k: Id)
    requires Listing(h, s, all, nn) && RestoredUpTo(h, s, all, nn, NEW_BUCKET_COUNT, 0, st)
    ensures EntrySame(s, all, st, k)
  {
    assert EntryRestored(s, all, nn, NEW_BUCKET_COUNT, 0, st, k) && Listed(s, all, nn, k);
    if 0 <= k < |all| {
      AllSeen(h, s, all[k]);
      assert RefsOk(s, all[k], {});
    }
  }

  lemma NewSlotsSame(h: Hashing, s: State, all: seq<Id>, nn: nat, st: State, sl: Slot)
    requires Listing(h, s, all, nn) && RestoredUpTo(h, s, all, nn, NEW_BUCKET_COUNT, 0, st)
    ensures SlotSame(s.newTable, all, st.newTable, sl)
  {
    assert SlotRestored(s, all, nn, NEW_BUCKET_COUNT, 0, st, sl) && NewSlotOk(h, s, sl);
  }

  /** Both tables hold exactly the tried entries in their own slots. */
  lemma TriedSlotsSame(h: Hashing, s: State, all: seq<Id>, nn: nat, st: State, sl: Slot)
    requires Listing(h, s, all, nn) && TriedOk(h, st) && st.key == s.key
    requires forall k {:trigger EntrySame(s, all, st, k)} :: EntrySame(s, all, st, k)
    ensures SlotSame(s.triedTable, all, st.triedTable, sl)
  {
    assert TriedSlotOk(h, s, sl) && TriedSlotOk(h, st, sl);
    if sl in s.triedTable {
      var id := s.triedTable[sl];
      assert id in all;
      var k :| 0 <= k < |all| && all[k] == id;
      assert EntrySame(s, all, st, k) && TriedEntryOk(h, st, k);
    }
    if sl in st.triedTable {
      var k := st.triedTable[sl];
      assert EntrySame(s, all, st, k) && TriedEntryOk(h, s, all[k]);
    }
  }

  lemma CountsSameUpToIds(h: Hashing, s: State, all: seq<Id>, nn: nat, st: State)
    requires Listing(h, s, all, nn) && Consistent(h, st)
    requires forall k {:trigger EntrySame(s, all, st, k)} :: EntrySame(s, all, st, k)
    ensures st.nNew == nn && st.nTried == |all| - nn && s.nNew == nn && s.nTried == |all| - nn
  {
    RolesCount(s, all, nn);
    forall k: Id
      ensures k in NewIds(st.mapInfo, {}) <==> k in Below(nn)
      ensures k in TriedIds(st.mapInfo) <==> k in Below(|all|) - Below(nn)
    {
      assert EntrySame(s, all, st, k) && Listed(s, all, nn, k);
    }
    SameSet(NewIds(st.mapInfo, {}), Below(nn));
    SameSet(TriedIds(st.mapInfo), Below(|all|) - Below(nn));
    BelowSize(nn);
    BelowSize(|all|);
    BelowSubset(nn, |all|);
  }

  lemma {:induction false} BelowSize(n: nat)
    ensures |Below(n)| == n
  {
    if n > 0 { BelowSize(n - 1); }
  }

  lemma BelowSubset(a: nat, b: nat)
    requires a <= b
    ensures |Below(b) - Below(a)| == |Below(b)| - |Below(a)|
  {
    SameSet(Below(b), Below(a) + (Below(b) - Below(a)));
  }

  lemma RolesCount(s: State, all: seq<Id>, nn: nat)
    requires Enumerates(all, s.mapInfo.Keys) && nn <= |all|
    requires s.nNew == |NewIds(s.mapInfo, {})| && s.nTried == |TriedIds(s.mapInfo)|
    requires forall k {:trigger Listed(s, all, nn, k)} :: Listed(s, all, nn, k)
    ensures s.nNew == nn && s.nTried == |all| - nn
  {
    forall id ensures id in all[..nn] <==> id in NewIds(s.mapInfo, {}) {
      if id in all[..nn] {
        var k :| 0 <= k < nn && all[k] == id;
        assert Listed(s, all, nn, k);
      }
      if id in NewIds(s.mapInfo, {}) {
        assert id in all;
        var k :| 0 <= k < |all| && all[k] == id;
        assert Listed(s, all, nn, k);
        assert all[..nn][k] == id;
      }
    }
    EnumerationSize(all[..nn], NewIds(s.mapInfo, {}));
    EnumerationSize(all, s.mapInfo.Keys);
    NewPlusTried(s.mapInfo);
  }

  // ---------- The counts always pass the range checks ----------

  ghost function Column(b: int, n: nat): (r: set<Slot>)
    ensures |r| == n && forall sl :: sl in r <==> sl.bucket == b && 0 <= sl.pos < n
  {
    if n == 0 then {} else
      var rest := Column(b, n - 1);
      assert Slot(b, n - 1) !in rest;
      rest + {Slot(b, n - 1)}
  }

  /** All slots of a table with n buckets. */
  ghost function AllSlots(n: nat): (r: set<Slot>)
    ensures |r| == n * BUCKET_SIZE && forall sl :: sl in r <==> 0 <= sl.bucket < n && 0 <= sl.pos < BUCKET_SIZE
  {
    if n == 0 then {} else
      var rest := AllSlots(n - 1);
      assert rest !! Column(n - 1, BUCKET_SIZE);
      rest + Column(n - 1, BUCKET_SIZE)
  }

  ghost function SlotsOf(t: Table, ids: set<Id>): set<Slot> {
    set sl | sl in t && t[sl] in ids
  }

  lemma {:induction false} OneSlotEach(t: Table, ids: set<Id>)
    requires forall id :: id in ids ==> RefSlots(t, id) != {}
    ensures |ids| <= |SlotsOf(t, ids)|
    decreases |ids|
  {
    if ids != {} {
      NotEmpty(ids);
      var id :| id in ids;
      OneSlotEach(t, ids - {id});
      assert SlotsOf(t, ids) == SlotsOf(t, ids - {id}) + RefSlots(t, id);
      assert SlotsOf(t, ids - {id}) !! RefSlots(t, id);
      assert |RefSlots(t, id)| >= 1;
    }
  }

  /** Ids with a slot each are no more than the table has slots. */
  lemma FitInTable(t: Table, ids: set<Id>, n: nat)
    requires forall id :: id in ids ==> RefSlots(t, id) != {}
    requires forall sl :: sl in SlotsOf(t, ids) ==> 0 <= sl.bucket < n && 0 <= sl.pos < BUCKET_SIZE
    ensures |ids| <= n * BUCKET_SIZE
  {
    OneSlotEach(t, ids);
    SlotSubset(SlotsOf(t, ids), AllSlots(n));
  }

  lemma NewFits(h: Hashing, s: State)
    requires Consistent(h, s)
    ensures 0 <= s.nNew <= NEW_BUCKET_COUNT * BUCKET_SIZE
  {
    var ids := NewIds(s.mapInfo, {});
    forall id | id in ids ensures RefSlots(s.newTable, id) != {} { assert RefsOk(s, id, {}); }
    forall sl | sl in SlotsOf(s.newTable, ids) ensures 0 <= sl.bucket < NEW_BUCKET_COUNT && 0 <= sl.pos < BUCKET_SIZE {
      assert NewSlotOk(h, s, sl);
    }
    FitInTable(s.newTable, ids, NEW_BUCKET_COUNT);
  }

  lemma TriedFits(h: Hashing, s: State)
    requires Consistent(h, s)
    ensures 0 <= s.nTried <= TRIED_BUCKET_COUNT * BUCKET_SIZE
  {
    var ids := TriedIds(s.mapInfo);
    forall id | id in ids ensures RefSlots(s.triedTable, id) != {} {
      assert TriedEntryOk(h, s, id);
      assert TriedSlot(h, s.key, s.mapInfo[id].service) in RefSlots(s.triedTable, id);
    }
    forall sl | sl in SlotsOf(s.triedTable, ids) ensures 0 <= sl.bucket < TRIED_BUCKET_COUNT && 0 <= sl.pos < BUCKET_SIZE {
      assert TriedSlotOk(h, s, sl);
    }
    FitInTable(s.triedTable, ids, TRIED_BUCKET_COUNT);
  }

  // ---------- Main result ----------

  /** A file with a sound header is read in four steps. */
  lemma RebuildSteps(h: Hashing, d: Disk, asmap: int, pruneOrder: seq<Id>)
    requires d.format == FILE_FORMAT && d.compat == INCOMPATIBILITY_BASE + FILE_FORMAT
    requires d.nUBuckets == FlipBit30(NEW_BUCKET_COUNT) && |d.buckets| == NEW_BUCKET_COUNT
    requires |d.newInfos| == d.nNew <= NEW_BUCKET_COUNT * BUCKET_SIZE
    requires |d.triedInfos| == d.nTried <= TRIED_BUCKET_COUNT * BUCKET_SIZE
    ensures Rebuild(h, d, asmap, pruneOrder) ==
      Loaded(Prune(h, RestoreAll(h, Read(h, d.key, d.newInfos, d.triedInfos), BucketEntries(d.buckets, 0, d.nNew), d.asmap == asmap), pruneOrder))
  {
  }

  ghost function Read(h: Hashing, key: Key, news: seq<DiskInfo>, tried: seq<DiskInfo>): State {
    LoadTried(h, LoadNew(h, Empty(key), news), tried)
  }

  /** What Rebuild computes from a file written by Serialize, under whatever hashes and asmap. */
  lemma RebuildSerialized(h0: Hashing, h: Hashing, s: State, order: seq<Id>, asmap: int, asmap': int, pruneOrder: seq<Id>)
    requires Consistent(h0, s) && Enumerates(order, s.mapInfo.Keys)
    ensures var a, b := Chosen(s, order, false), Chosen(s, order, true); var d := Serialize(s, order, asmap);
            Rebuild(h, d, asmap', pruneOrder) ==
              Loaded(Prune(h, RestoreAll(h, Read(h, s.key, Infos(s, a), Infos(s, b)), BucketEntries(d.buckets, 0, |a|), asmap == asmap'), pruneOrder))
  {
    ChosenSizes(h0, s, order);
    NewFits(h0, s);
    TriedFits(h0, s);
    RebuildSteps(h, Serialize(s, order, asmap), asmap', pruneOrder);
  }

  lemma RestoreWhole(h: Hashing, s: State, all: seq<Id>, nn: nat, st: State, buckets: seq<seq<int>>)
    requires Listing(h, s, all, nn) && AllValid(h, s) && LoadedUpTo(h, s, all, nn, |all|, st)
    requires |buckets| == NEW_BUCKET_COUNT
    requires forall c :: 0 <= c < |buckets| ==> buckets[c] == BucketIndices(s.newTable, all[..nn], c, 0)
    ensures RestoredUpTo(h, s, all, nn, NEW_BUCKET_COUNT, 0, RestoreAll(h, st, BucketEntries(buckets, 0, nn), true))
  {
    OccupantsAreListed(h, s, all, nn);
    AllReadBack(s.newTable, all[..nn], buckets, 0);
    RestoreStart(h, s, all, nn, st);
    RestoreRest(h, s, all, nn, 0, 0, st);
  }

  lemma RestoredIsSame(h: Hashing, s: State, all: seq<Id>, nn: nat, st: State)
    requires Listing(h, s, all, nn) && RestoredUpTo(h, s, all, nn, NEW_BUCKET_COUNT, 0, st)
    ensures Consistent(h, st) && SameUpToIds(s, all, st)
  {
    RestoredIsConsistent(h, s, all, nn, st);
    forall k: Id ensures EntrySame(s, all, st, k) { EntriesSame(h, s, all, nn, st, k); }
    forall sl: Slot ensures SlotSame(s.newTable, all, st.newTable, sl) { NewSlotsSame(h, s, all, nn, st, sl); }
    forall sl: Slot ensures SlotSame(s.triedTable, all, st.triedTable, sl) { TriedSlotsSame(h, s, all, nn, st, sl); }
    CountsSameUpToIds(h, s, all, nn, st);
  }

  lemma LoadWhole(h: Hashing, s: State, a: seq<Id>, b: seq<Id>)
    requires Listing(h, s, a + b, |a|) && AllValid(h, s)
    requires (forall k :: 0 <= k < |a| ==> a[k] in s.mapInfo) && (forall k :: 0 <= k < |b| ==> b[k] in s.mapInfo)
    ensures LoadedUpTo(h, s, a + b, |a|, |a + b|, LoadTried(h, LoadNew(h, Empty(s.key), Infos(s, a)), Infos(s, b)))
  {
    var all := a + b;
    assert all[0..|a|] == a && all[|a|..] == b;
    EmptyLoaded(h, s, all, |a|);
    LoadNewFrom(h, s, all, |a|, 0, Empty(s.key));
    LoadTriedFrom(h, s, all, |a|, |a|, LoadNew(h, Empty(s.key), Infos(s, a)));
  }

  /** Reading back the file of any consistent manager with valid addresses, under the
      same asmap, gives a consistent manager that passes the final check and is the
      original up to renamed ids: every new entry is back in each of its buckets and
      no tried entry is lost. */
  lemma RoundTrip(h: Hashing, s: State, order: seq<Id>, asmap: int, pruneOrder: seq<Id>)
    requires Consistent(h, s) && AllValid(h, s) && Enumerates(order, s.mapInfo.Keys)
    ensures var all := Chosen(s, order, false) + Chosen(s, order, true);
            var r := Rebuild(h, Serialize(s, order, asmap), asmap, pruneOrder);
            && Enumerates(all, s.mapInfo.Keys)
            && r.Loaded? && Consistent(h, r.state) && CheckPasses(h, r.state)
            && SameUpToIds(s, all, r.state)
  {
    var a, b := Chosen(s, order, false), Chosen(s, order, true);
    var all := a + b;
    FileListing(h, s, order);
    LoadWhole(h, s, a, b);
    var st := LoadTried(h, LoadNew(h, Empty(s.key), Infos(s, a)), Infos(s, b));
    var buckets := Serialize(s, order, asmap).buckets;
    assert all[..|a|] == a;
    RestoreWhole(h, s, all, |a|, st, buckets);
    var rebuilt := RestoreAll(h, st, BucketEntries(buckets, 0, |a|), true);
    RestoredIsSame(h, s, all, |a|, rebuilt);
    PruneNothing(h, rebuilt, pruneOrder);
    RebuildSerialized(h, h, s, order, asmap, asmap, pruneOrder);
    ConsistentPasses(h, rebuilt);
  }

  /** The same for every reachable manager: only routable addresses get in, and
      routable addresses are valid. */
  lemma RunRoundTrip(h: Hashing, key: Key, ops: seq<R.Op>, order: seq<Id>, asmap: int, pruneOrder: seq<Id>)
    requires key != 0 && (forall i :: 0 <= i < |ops| ==> R.TimesOk(ops[i]))
    requires forall a :: h.routable(a) ==> h.valid(a)
    requires Enumerates(order, R.Run(h, Empty(key), ops).mapInfo.Keys)
    ensures var s := R.Run(h, Empty(key), ops);
            var r := Rebuild(h, Serialize(s, order, asmap), asmap, pruneOrder);
            && r.Loaded? && Consistent(h, r.state) && CheckPasses(h, r.state)
            && SameUpToIds(s, Chosen(s, order, false) + Chosen(s, order, true), r.state)
  {
    var s := R.Run(h, Empty(key), ops);
    R.RunConsistent(h, key, ops);
    R.RunRoutable(h, key, ops);
    forall id: Id ensures ValidAt(h, s, id) { assert R.RoutableAt(h, s, id); }
    RoundTrip(h, s, order, asmap, pruneOrder);
  }
}
