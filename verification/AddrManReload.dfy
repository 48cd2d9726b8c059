/** Reading the file of a manager under another asmap, that is, under other hashes: what comes back
    and what is lost (src/addrman.cpp, Unserialize). */
module AddrManReload {
  import opened AddrManModel
  import opened AddrManInvariant
  import opened AddrManDisk
  import opened AddrManRoundTrip
  import opened AddrManCheck
  import opened AddrManAnyFile
  import R = AddrManRuns
  import opened Sets

  // ---------- The records of a file ----------

  /** No address twice, and sane times. */
  ghost predicate Records(news: seq<DiskInfo>, tried: seq<DiskInfo>) {
    && (forall i, j :: 0 <= i < j < |news| ==> news[i].service != news[j].service)
    && (forall i, j :: 0 <= i < j < |tried| ==> tried[i].service != tried[j].service)
    && (forall i, j :: 0 <= i < |news| && 0 <= j < |tried| ==> news[i].service != tried[j].service)
    && (forall i :: 0 <= i < |news| ==> news[i].lastSuccess >= 0)
    && (forall i :: 0 <= i < |tried| ==> tried[i].lastSuccess > 0)
  }

  // ---------- Loading ----------

  ghost predicate NewAt(news: seq<DiskInfo>, n: nat, st: State, k: Id) {
    && (k in st.mapInfo && k < n ==> k >= 0)
    && (0 <= k < n <= |news| ==> k in st.mapInfo && st.mapInfo[k] == FromDisk(news[k], 0, false, k))
  }

  /** The first n new records are loaded, and nothing else. */
  ghost predicate NewsLoaded(h: Hashing, key: Key, news: seq<DiskInfo>, n: nat, st: State) {
    && n <= |news| && st.nIdCount == n == |st.vRandom| && st.key == key && st.newTable == map[] && st.triedTable == map[]
    && (forall k {:trigger NewAt(news, n, st, k)} :: NewAt(news, n, st, k))
    && Inv(h, st, Below(n), {})
  }

  lemma OtherNewAddress(h: Hashing, key: Key, news: seq<DiskInfo>, tried: seq<DiskInfo>, n: nat, st: State, k: Id)
    requires Records(news, tried) && n < |news| && NewsLoaded(h, key, news, n, st) && k in st.mapInfo
    ensures st.mapInfo[k].service != news[n].service
  {
    assert InfoIndexed(st, k) && NewAt(news, n, st, k);
  }

  lemma NewsStep(h: Hashing, key: Key, news: seq<DiskInfo>, tried: seq<DiskInfo>, n: nat, st: State)
    requires Records(news, tried) && n < |news| && NewsLoaded(h, key, news, n, st)
    ensures NewsLoaded(h, key, news, n + 1, LoadNewOne(h, st, news[n]))
  {
    var st', a, m := LoadNewOne(h, st, news[n]), news[n].service, n + 1;
    assert AddrIndexed(st, a);
    if a in st.mapAddr {
      OtherNewAddress(h, key, news, tried, n, st, st.mapAddr[a]);
    }
    LoadNewOneInv(h, st, news[n], Below(n));
    SameSet(Below(n) + {n}, Below(m));
    forall k: Id ensures NewAt(news, m, st', k) { assert NewAt(news, n, st, k); }
  }

  lemma {:induction false} NewsAll(h: Hashing, key: Key, news: seq<DiskInfo>, tried: seq<DiskInfo>, n: nat, st: State)
    requires Records(news, tried) && NewsLoaded(h, key, news, n, st)
    ensures NewsLoaded(h, key, news, |news|, LoadNew(h, st, news[n..]))
    decreases |news| - n
  {
    if n < |news| {
      NewsStep(h, key, news, tried, n, st);
      assert news[n..][1..] == news[n + 1..];
      NewsAll(h, key, news, tried, n + 1, LoadNewOne(h, st, news[n]));
    } else {
      assert news[n..] == [];
    }
  }

  /** No earlier record of the tried part that can be used has the same slot. */
  ghost predicate First(h: Hashing, key: Key, tried: seq<DiskInfo>, i: nat) {
    && i < |tried| && h.valid(tried[i].service)
    && forall j :: 0 <= j < i && h.valid(tried[j].service) ==> TriedSlot(h, key, tried[j].service) != TriedSlot(h, key, tried[i].service)
  }

  /** Entry k comes from the i-th record of the tried part. */
  ghost predicate FromTried(h: Hashing, key: Key, tried: seq<DiskInfo>, st: State, k: Id, i: nat) {
    First(h, key, tried, i) && k in st.mapInfo && st.mapInfo[k] == FromDisk(tried[i], 0, true, k)
  }

  ghost predicate TriedAt(h: Hashing, key: Key, tried: seq<DiskInfo>, nn: nat, m: nat, st: State, k: Id) {
    k in st.mapInfo && k >= nn ==> exists i: nat :: i < m && FromTried(h, key, tried, st, k, i)
  }

  ghost predicate BackAt(h: Hashing, key: Key, tried: seq<DiskInfo>, m: nat, st: State, i: int) {
    0 <= i < m <= |tried| && h.valid(tried[i].service) ==>
      var slot := TriedSlot(h, key, tried[i].service);
      slot in st.triedTable && (First(h, key, tried, i) ==> FromTried(h, key, tried, st, st.triedTable[slot], i))
  }

  /** All new records and the first m tried ones are read; a tried one whose slot was taken is gone. */
  ghost predicate TriedLoaded(h: Hashing, key: Key, news: seq<DiskInfo>, tried: seq<DiskInfo>, m: nat, st: State) {
    && m <= |tried| && st.nIdCount == |st.vRandom| >= |news| && st.key == key && st.newTable == map[]
    && (forall k {:trigger NewAt(news, |news|, st, k)} :: NewAt(news, |news|, st, k))
    && (forall k {:trigger TriedAt(h, key, tried, |news|, m, st, k)} :: TriedAt(h, key, tried, |news|, m, st, k))
    && (forall i {:trigger BackAt(h, key, tried, m, st, i)} :: BackAt(h, key, tried, m, st, i))
    && Inv(h, st, Below(|news|), {})
  }

  lemma TriedStart(h: Hashing, key: Key, news: seq<DiskInfo>, tried: seq<DiskInfo>, st: State)
    requires NewsLoaded(h, key, news, |news|, st)
    ensures TriedLoaded(h, key, news, tried, 0, st)
  {
    forall k: Id ensures TriedAt(h, key, tried, |news|, 0, st, k) { assert InfoIndexed(st, k); }
    forall i ensures BackAt(h, key, tried, 0, st, i) {}
  }

  /** The address of the next tried record is not there yet. */
  lemma NextIsNew(h: Hashing, key: Key, news: seq<DiskInfo>, tried: seq<DiskInfo>, m: nat, st: State)
    requires Records(news, tried) && m < |tried| && TriedLoaded(h, key, news, tried, m, st)
    ensures tried[m].service !in st.mapAddr
  {
    var a := tried[m].service;
    assert AddrIndexed(st, a);
    if a in st.mapAddr {
      OtherAddress(h, key, news, tried, m, st, st.mapAddr[a]);
    }
  }

  lemma OtherAddress(h: Hashing, key: Key, news: seq<DiskInfo>, tried: seq<DiskInfo>, m: nat, st: State, k: Id)
    requires Records(news, tried) && m < |tried| && TriedLoaded(h, key, news, tried, m, st) && k in st.mapInfo
    ensures st.mapInfo[k].service != tried[m].service
  {
    assert InfoIndexed(st, k) && NewAt(news, |news|, st, k) && TriedAt(h, key, tried, |news|, m, st, k);
  }

  /** A slot that is taken was taken by an earlier record. */
  lemma TakenEarlier(h: Hashing, key: Key, news: seq<DiskInfo>, tried: seq<DiskInfo>, m: nat, st: State)
    requires m < |tried| && h.valid(tried[m].service) && TriedLoaded(h, key, news, tried, m, st)
    ensures TriedSlot(h, key, tried[m].service) in st.triedTable <==> !First(h, key, tried, m)
  {
    var slot := TriedSlot(h, key, tried[m].service);
    if slot in st.triedTable {
      var k := st.triedTable[slot];
      assert TriedSlotOk(h, st, slot) && NewAt(news, |news|, st, k) && TriedAt(h, key, tried, |news|, m, st, k);
      assert InfoIndexed(st, k);
      var i: nat :| i < m && FromTried(h, key, tried, st, k, i);
      assert h.valid(tried[i].service) && TriedSlot(h, key, tried[i].service) == slot;
    } else {
      forall j | 0 <= j < m && h.valid(tried[j].service) ensures TriedSlot(h, key, tried[j].service) != slot {
        assert BackAt(h, key, tried, m, st, j);
      }
    }
  }

  lemma TriedStep(h: Hashing, key: Key, news: seq<DiskInfo>, tried: seq<DiskInfo>, m: nat, st: State)
    requires Records(news, tried) && m < |tried| && TriedLoaded(h, key, news, tried, m, st)
    ensures TriedLoaded(h, key, news, tried, m + 1, LoadTriedOne(h, st, tried[m]))
  {
    var st', n := LoadTriedOne(h, st, tried[m]), m + 1;
    NextIsNew(h, key, news, tried, m, st);
    assert InfoIndexed(st, st.nIdCount);
    if h.valid(tried[m].service) {
      TakenEarlier(h, key, news, tried, m, st);
      if First(h, key, tried, m) {
        LoadTriedOneInv(h, st, tried[m], Below(|news|));
      }
    }
    forall k: Id ensures NewAt(news, |news|, st', k) { assert NewAt(news, |news|, st, k); }
    forall k: Id ensures TriedAt(h, key, tried, |news|, n, st', k) { TriedAtStep(h, key, news, tried, m, st, k); }
    forall i ensures BackAt(h, key, tried, n, st', i) { BackAtStep(h, key, news, tried, m, st, i); }
  }

  lemma TriedAtStep(h: Hashing, key: Key, news: seq<DiskInfo>, tried: seq<DiskInfo>, m: nat, st: State, k: Id)
    requires m < |tried| && TriedLoaded(h, key, news, tried, m, st)
    requires h.valid(tried[m].service) ==> (TriedSlot(h, key, tried[m].service) in st.triedTable <==> !First(h, key, tried, m))
    ensures TriedAt(h, key, tried, |news|, m + 1, LoadTriedOne(h, st, tried[m]), k)
  {
    var st' := LoadTriedOne(h, st, tried[m]);
    assert TriedAt(h, key, tried, |news|, m, st, k) && InfoIndexed(st, st.nIdCount);
    if k in st.mapInfo && k >= |news| {
      var i: nat :| i < m && FromTried(h, key, tried, st, k, i);
      assert FromTried(h, key, tried, st', k, i);
    } else if k in st'.mapInfo && k >= |news| {
      assert FromTried(h, key, tried, st', k, m);
    }
  }

  lemma BackAtStep(h: Hashing, key: Key, news: seq<DiskInfo>, tried: seq<DiskInfo>, m: nat, st: State, i: int)
    requires m < |tried| && TriedLoaded(h, key, news, tried, m, st)
    requires h.valid(tried[m].service) ==> (TriedSlot(h, key, tried[m].service) in st.triedTable <==> !First(h, key, tried, m))
    ensures BackAt(h, key, tried, m + 1, LoadTriedOne(h, st, tried[m]), i)
  {
    assert BackAt(h, key, tried, m, st, i) && InfoIndexed(st, st.nIdCount);
  }

  lemma {:induction false} TriedAll(h: Hashing, key: Key, news: seq<DiskInfo>, tried: seq<DiskInfo>, m: nat, st: State)
    requires Records(news, tried) && TriedLoaded(h, key, news, tried, m, st)
    ensures TriedLoaded(h, key, news, tried, |tried|, LoadTried(h, st, tried[m..]))
    decreases |tried| - m
  {
    if m < |tried| {
      TriedStep(h, key, news, tried, m, st);
      assert tried[m..][1..] == tried[m + 1..];
      TriedAll(h, key, news, tried, m + 1, LoadTriedOne(h, st, tried[m]));
    } else {
      assert tried[m..] == [];
    }
  }

  // ---------- Giving slots ----------

  /** Entry k is as it was, but for its reference count. */
  ghost predicate CountsOnly(st: State, st': State, k: Id) {
    && (k in st.mapInfo <==> k in st'.mapInfo)
    && (k in st.mapInfo && k in st'.mapInfo ==> st'.mapInfo[k] == st.mapInfo[k].(refCount := st'.mapInfo[k].refCount) && st.mapInfo[k].refCount <= st'.mapInfo[k].refCount)
  }

  ghost predicate SlotStays(st: State, st': State, sl: Slot) { sl in st.newTable ==> sl in st'.newTable }

  /** References are only gained, and slots are only taken. */
  ghost predicate Gained(st: State, st': State) {
    && st' == st.(mapInfo := st'.mapInfo, newTable := st'.newTable)
    && (forall k {:trigger CountsOnly(st, st', k)} :: CountsOnly(st, st', k))
    && (forall sl {:trigger SlotStays(st, st', sl)} :: SlotStays(st, st', sl))
  }

  lemma GainedTrans(a: State, b: State, c: State)
    requires Gained(a, b) && Gained(b, c)
    ensures Gained(a, c)
  {
    forall k ensures CountsOnly(a, c, k) { assert CountsOnly(a, b, k) && CountsOnly(b, c, k); }
    forall sl ensures SlotStays(a, c, sl) { assert SlotStays(a, b, sl) && SlotStays(b, c, sl); }
  }

  /** New entries without a slot so far. */
  ghost function Loose(st: State, nn: nat): set<Id> { set k | k in st.mapInfo && 0 <= k < nn && st.mapInfo[k].refCount == 0 }

  ghost predicate NewRole(st: State, nn: nat, k: Id) { 0 <= k < nn ==> k in st.mapInfo && !st.mapInfo[k].inTried }

  ghost predicate Giving(h: Hashing, st: State, nn: nat) {
    Inv(h, st, Loose(st, nn), {}) && forall k {:trigger NewRole(st, nn, k)} :: NewRole(st, nn, k)
  }

  /** The entry has a slot, or another entry has the slot that its source gives it. */
  ghost predicate Served(h: Hashing, st: State, k: Id) {
    k in st.mapInfo && h.valid(st.mapInfo[k].service) ==>
      st.mapInfo[k].refCount >= 1 || NewSlot(h, st.key, st.mapInfo[k].service, st.mapInfo[k].source) in st.newTable
  }

  lemma ServedStays(h: Hashing, st: State, st': State, k: Id)
    requires Gained(st, st') && Served(h, st, k)
    ensures Served(h, st', k)
  {
    assert CountsOnly(st, st', k);
    if k in st.mapInfo {
      assert SlotStays(st, st', NewSlot(h, st.key, st.mapInfo[k].service, st.mapInfo[k].source));
    }
  }

  lemma GiveOne(h: Hashing, st: State, nn: nat, sl: Slot, id: Id)
    requires Giving(h, st, nn) && 0 <= id < nn && id in st.mapInfo && st.mapInfo[id].refCount < NEW_BUCKETS_PER_ADDRESS
    requires sl !in st.newTable && 0 <= sl.bucket < NEW_BUCKET_COUNT && sl == NewSlotIn(h, st.key, st.mapInfo[id].service, sl.bucket)
    ensures Giving(h, GiveSlot(st, sl, id), nn) && Gained(st, GiveSlot(st, sl, id)) && GiveSlot(st, sl, id).mapInfo[id].refCount >= 1
  {
    var st' := GiveSlot(st, sl, id);
    assert NewRole(st, nn, id) && RefsOk(st, id, Loose(st, nn));
    GainRefInv(h, st, sl, id, Loose(st, nn), {});
    SameSet(Loose(st, nn) - {id}, Loose(st', nn));
    forall k: Id ensures NewRole(st', nn, k) { assert NewRole(st, nn, k); }
    forall k ensures CountsOnly(st, st', k) {}
    forall x ensures SlotStays(st, st', x) {}
  }

  lemma SameGained(st: State)
    ensures Gained(st, st)
  {
    forall k ensures CountsOnly(st, st, k) {}
    forall x ensures SlotStays(st, st, x) {}
  }

  /** Whatever happens to a bucket entry, its address is served. */
  lemma RestoreServes(h: Hashing, st: State, nn: nat, e: BucketEntry, restore: bool)
    requires Giving(h, st, nn) && 0 <= e.index < nn && (restore ==> 0 <= e.bucket < NEW_BUCKET_COUNT)
    ensures var st' := RestoreOne(h, st, e, restore); Giving(h, st', nn) && Gained(st, st') && Served(h, st', e.index)
  {
    var st' := RestoreOne(h, st, e, restore);
    assert NewRole(st, nn, e.index) && RefsOk(st, e.index, Loose(st, nn));
    var info := st.mapInfo[e.index];
    SameGained(st);
    if h.valid(info.service) && info.refCount < NEW_BUCKETS_PER_ADDRESS {
      var sl, primary := NewSlotIn(h, st.key, info.service, e.bucket), NewSlot(h, st.key, info.service, info.source);
      if restore && sl !in st.newTable {
        GiveOne(h, st, nn, sl, e.index);
      } else if primary !in st.newTable {
        GiveOne(h, st, nn, primary, e.index);
      }
    }
  }

  lemma {:induction false} RestoreServesAll(h: Hashing, st: State, nn: nat, es: seq<BucketEntry>, restore: bool)
    requires Giving(h, st, nn) && forall e :: e in es ==> 0 <= e.index < nn && (restore ==> 0 <= e.bucket < NEW_BUCKET_COUNT)
    ensures var st' := RestoreAll(h, st, es, restore); Giving(h, st', nn) && Gained(st, st') && forall e :: e in es ==> Served(h, st', e.index)
    decreases |es|
  {
    if es == [] {
      SameGained(st);
    } else {
      var st1 := RestoreOne(h, st, es[0], restore);
      RestoreServes(h, st, nn, es[0], restore);
      RestoreServesAll(h, st1, nn, es[1..], restore);
      var st' := RestoreAll(h, st1, es[1..], restore);
      GainedTrans(st, st1, st');
      ServedStays(h, st1, st', es[0].index);
      assert es == [es[0]] + es[1..];
    }
  }

  // ---------- Pruning ----------

  ghost predicate PrunedAt(st: State, p: State, l: set<Id>, j: Id) {
    && (j in p.mapInfo <==> j in st.mapInfo && j !in l)
    && (j in p.mapInfo && j in st.mapInfo ==> p.mapInfo[j] == st.mapInfo[j].(randomPos := p.mapInfo[j].randomPos))
  }

  /** Exactly the entries of l are gone, and nothing else changed but the order. */
  ghost predicate Pruned(st: State, p: State, l: set<Id>) {
    && p.newTable == st.newTable && p.triedTable == st.triedTable && p.key == st.key
    && forall j {:trigger PrunedAt(st, p, l, j)} :: PrunedAt(st, p, l, j)
  }

  lemma PruneOne(h: Hashing, st: State, l: set<Id>, id: Id)
    requires Inv(h, st, l, {}) && id in l && id in st.mapInfo
    ensures var s1 := Delete(h, st, id); Inv(h, s1, l - {id}, {}) && Pruned(st, s1, {id})
  {
    DeleteInv(h, st, id, l, {});
    DeleteEffect(h, st, id);
    forall j ensures PrunedAt(st, Delete(h, st, id), {id}, j) { assert OtherUntouched(st, Delete(h, st, id), id, j); }
  }

  lemma PrunedTrans(a: State, b: State, c: State, id: Id, l: set<Id>)
    requires Pruned(a, b, {id}) && Pruned(b, c, l - {id}) && id in l
    ensures Pruned(a, c, l)
  {
    forall j ensures PrunedAt(a, c, l, j) { assert PrunedAt(a, b, {id}, j) && PrunedAt(b, c, l - {id}, j); }
  }

  lemma {:induction false} PruneAll(h: Hashing, st: State, l: set<Id>, ids: seq<Id>)
    requires Inv(h, st, l, {}) && (forall k :: k in l ==> k in ids && k in st.mapInfo)
    ensures Consistent(h, Prune(h, st, ids)) && Pruned(st, Prune(h, st, ids), l)
    decreases |ids|
  {
    if ids == [] {
      SameSet(l, {});
      forall j ensures PrunedAt(st, st, l, j) {}
    } else {
      var id := ids[0];
      assert ids == [id] + ids[1..];
      assert RefsOk(st, id, l);
      if id in l {
        PruneOne(h, st, l, id);
        assert PrunedAt(st, Delete(h, st, id), {id}, id);
        forall k | k in l - {id} ensures k in ids[1..] && k in Delete(h, st, id).mapInfo { assert PrunedAt(st, Delete(h, st, id), {id}, k); }
        PruneAll(h, Delete(h, st, id), l - {id}, ids[1..]);
        PrunedTrans(st, Delete(h, st, id), Prune(h, Delete(h, st, id), ids[1..]), id, l);
      } else {
        PruneAll(h, st, l, ids[1..]);
      }
    }
  }

  // ---------- The records that come back ----------

  lemma ReadIs(h: Hashing, key: Key, news: seq<DiskInfo>, tried: seq<DiskInfo>)
    requires Records(news, tried) && key != 0
    ensures TriedLoaded(h, key, news, tried, |tried|, Read(h, key, news, tried)) && Giving(h, Read(h, key, news, tried), |news|)
  {
    EmptyConsistent(h, key);
    SameSet(Below(0), {});
    forall k: Id ensures NewAt(news, 0, Empty(key), k) {}
    NewsAll(h, key, news, tried, 0, Empty(key));
    assert news[0..] == news && tried[0..] == tried;
    var s0 := LoadNew(h, Empty(key), news);
    TriedStart(h, key, news, tried, s0);
    TriedAll(h, key, news, tried, 0, s0);
    var st := LoadTried(h, s0, tried);
    forall k: Id ensures NewRole(st, |news|, k) { assert NewAt(news, |news|, st, k); }
    forall k: Id ensures k in Below(|news|) <==> k in Loose(st, |news|) { assert NewAt(news, |news|, st, k); }
    SameSet(Below(|news|), Loose(st, |news|));
  }

  /** The record of an entry, as it is written. */
  ghost predicate Holds(p: State, d: DiskInfo, inTried: bool) {
    && d.service in p.mapAddr && p.mapAddr[d.service] in p.mapInfo
    && var info := p.mapInfo[p.mapAddr[d.service]];
    && ToDisk(info) == d && info.inTried == inTried
  }

  /** The outcome of reading: st before slots are given, g after, p pruned. */
  ghost predicate Stages(h: Hashing, key: Key, news: seq<DiskInfo>, tried: seq<DiskInfo>, st: State, g: State, p: State) {
    && Records(news, tried) && TriedLoaded(h, key, news, tried, |tried|, st)
    && Gained(st, g) && Giving(h, g, |news|) && Pruned(g, p, Loose(g, |news|)) && Consistent(h, p)
  }

  /** A tried record comes back as it was if and only if it can be used and no earlier one has its slot. */
  lemma TriedComesBack(h: Hashing, key: Key, news: seq<DiskInfo>, tried: seq<DiskInfo>, st: State, g: State, p: State, i: nat)
    requires Stages(h, key, news, tried, st, g, p) && i < |tried|
    ensures First(h, key, tried, i) ==> Holds(p, tried[i], true)
    ensures tried[i].service in p.mapAddr ==> First(h, key, tried, i)
  {
    var a := tried[i].service;
    if First(h, key, tried, i) {
      assert BackAt(h, key, tried, |tried|, st, i);
      var k := st.triedTable[TriedSlot(h, key, a)];
      assert CountsOnly(st, g, k) && PrunedAt(g, p, Loose(g, |news|), k) && NewAt(news, |news|, st, k) && InfoIndexed(st, k);
      assert InfoIndexed(p, k);
    }
    if a in p.mapAddr {
      assert AddrIndexed(p, a);
      var k := p.mapAddr[a];
      assert PrunedAt(g, p, Loose(g, |news|), k) && CountsOnly(st, g, k);
      OnlyFirst(h, key, news, tried, st, k, i);
    }
  }

  lemma OnlyFirst(h: Hashing, key: Key, news: seq<DiskInfo>, tried: seq<DiskInfo>, st: State, k: Id, i: nat)
    requires Records(news, tried) && TriedLoaded(h, key, news, tried, |tried|, st)
    requires i < |tried| && k in st.mapInfo && st.mapInfo[k].service == tried[i].service
    ensures First(h, key, tried, i)
  {
    assert NewAt(news, |news|, st, k) && InfoIndexed(st, k) && TriedAt(h, key, tried, |news|, |tried|, st, k);
    var j: nat :| j < |tried| && FromTried(h, key, tried, st, k, j);
    assert j == i;
  }

  /** A new record that was served comes back as it was, or another entry holds the slot that its source gives it. */
  lemma NewComesBack(h: Hashing, key: Key, news: seq<DiskInfo>, tried: seq<DiskInfo>, st: State, g: State, p: State, k: nat)
    requires Stages(h, key, news, tried, st, g, p) && k < |news| && h.valid(news[k].service) && Served(h, g, k)
    ensures Holds(p, news[k], false) || NewSlot(h, key, news[k].service, news[k].source) in p.newTable
  {
    assert NewAt(news, |news|, st, k) && CountsOnly(st, g, k) && PrunedAt(g, p, Loose(g, |news|), k);
    if g.mapInfo[k].refCount >= 1 {
      assert k in p.mapInfo && InfoIndexed(p, k);
    }
  }

  /** Nothing comes back that was not there, and nothing changes its table. */
  lemma NothingElse(h: Hashing, key: Key, news: seq<DiskInfo>, tried: seq<DiskInfo>, st: State, g: State, p: State, a: Service)
    requires Stages(h, key, news, tried, st, g, p) && a in p.mapAddr
    ensures exists d :: ((d in news && Holds(p, d, false)) || (d in tried && Holds(p, d, true))) && d.service == a
  {
    assert AddrIndexed(p, a);
    var k := p.mapAddr[a];
    assert PrunedAt(g, p, Loose(g, |news|), k) && CountsOnly(st, g, k) && NewAt(news, |news|, st, k) && InfoIndexed(st, k);
    if k < |news| {
      assert news[k] in news && Holds(p, news[k], false);
    } else {
      assert TriedAt(h, key, tried, |news|, |tried|, st, k);
      var i: nat :| i < |tried| && FromTried(h, key, tried, st, k, i);
      assert tried[i] in tried && Holds(p, tried[i], true);
    }
  }

  lemma StagesOf(h: Hashing, key: Key, news: seq<DiskInfo>, tried: seq<DiskInfo>, es: seq<BucketEntry>, restore: bool, pruneOrder: seq<Id>)
    requires Records(news, tried) && key != 0 && (forall k :: 0 <= k < |news| ==> k in pruneOrder)
    requires forall e :: e in es ==> 0 <= e.index < |news| && (restore ==> 0 <= e.bucket < NEW_BUCKET_COUNT)
    ensures var st := Read(h, key, news, tried); var g := RestoreAll(h, st, es, restore);
      && Stages(h, key, news, tried, st, g, Prune(h, g, pruneOrder))
      && forall e :: e in es ==> Served(h, g, e.index)
  {
    var st := Read(h, key, news, tried);
    var g := RestoreAll(h, st, es, restore);
    ReadIs(h, key, news, tried);
    RestoreServesAll(h, st, |news|, es, restore);
    PruneAll(h, g, Loose(g, |news|), pruneOrder);
  }

  // ---------- The header ----------

  /** What the header of a written file says: format 4, readable from format 4 on, and the 1024 buckets with
      bit 30 set. */
  lemma HeaderWritten(s: State, order: seq<Id>, asmap: int)
    ensures var d := Serialize(s, order, asmap);
      && d.format == 4 && d.compat == 36 && d.key == s.key && d.nNew == s.nNew && d.nTried == s.nTried
      && d.nUBuckets == 1024 + 0x4000_0000 && |d.buckets| == 1024 && d.asmap == asmap
  {
  }

  /** Before any record is looked at, a file is refused exactly for its version bytes, for counts beyond the tables
      or for counts that the stream does not hold; formats from 1 on flip bit 30 of the bucket count. */
  lemma HeaderRefused(h: Hashing, d: Disk, asmap: int, pruneOrder: seq<Id>)
    requires 0 <= d.nUBuckets < 0x8000_0000
    ensures Rebuild(h, d, asmap, pruneOrder).LoadFailed? <==>
      || !(32 <= d.compat <= 36) || !(0 <= d.nNew == |d.newInfos| <= 65536) || !(0 <= d.nTried == |d.triedInfos| <= 16384)
      || (d.format == 0 && d.nUBuckets != |d.buckets|)
      || (d.format >= 1 && d.nUBuckets - |d.buckets| != (if d.nUBuckets >= 0x4000_0000 then 0x4000_0000 else -0x4000_0000))
  {
  }

  // ---------- The file of a manager ----------

  lemma WrittenRecords(h: Hashing, s: State, order: seq<Id>)
    requires Consistent(h, s) && Enumerates(order, s.mapInfo.Keys)
    ensures Records(Infos(s, Chosen(s, order, false)), Infos(s, Chosen(s, order, true)))
  {
    var a, b := Chosen(s, order, false), Chosen(s, order, true);
    ChosenSizes(h, s, order);
    forall i, j | 0 <= i < |a| && 0 <= j < |a| && i != j ensures s.mapInfo[a[i]].service != s.mapInfo[a[j]].service {
      assert InfoIndexed(s, a[i]) && InfoIndexed(s, a[j]);
    }
    forall i, j | 0 <= i < |b| && 0 <= j < |b| && i != j ensures s.mapInfo[b[i]].service != s.mapInfo[b[j]].service {
      assert InfoIndexed(s, b[i]) && InfoIndexed(s, b[j]);
    }
    forall i, j | 0 <= i < |a| && 0 <= j < |b| ensures s.mapInfo[a[i]].service != s.mapInfo[b[j]].service {
      assert a[i] in NewIds(s.mapInfo, {}) && b[j] in TriedIds(s.mapInfo);
      assert InfoIndexed(s, a[i]) && InfoIndexed(s, b[j]);
    }
    forall i | 0 <= i < |a| ensures s.mapInfo[a[i]].lastSuccess >= 0 { assert InfoIndexed(s, a[i]); }
    forall i | 0 <= i < |b| ensures s.mapInfo[b[i]].lastSuccess > 0 {
      assert b[i] in TriedIds(s.mapInfo) && TriedEntryOk(h, s, b[i]);
    }
  }

  lemma {:induction false} SlotIsWritten(t: Table, ids: seq<Id>, b: int, i: int, sl: Slot)
    requires sl in t && b <= sl.bucket < NEW_BUCKET_COUNT && 0 <= i <= BUCKET_SIZE && (sl.bucket == b ==> i <= sl.pos) && 0 <= sl.pos < BUCKET_SIZE
    ensures BucketEntry(sl.bucket, IndexOf(ids, t[sl])) in EntriesFrom(t, ids, b, i)
    decreases NEW_BUCKET_COUNT - b, BUCKET_SIZE - i
  {
    if i == BUCKET_SIZE {
      SlotIsWritten(t, ids, b + 1, 0, sl);
    } else if sl != Slot(b, i) {
      SlotIsWritten(t, ids, b, i + 1, sl);
    }
  }

  /** Every new entry is named in some bucket of the file. */
  lemma EveryNewIsNamed(h: Hashing, s: State, order: seq<Id>, asmap: int, k: nat)
    requires Consistent(h, s) && Enumerates(order, s.mapInfo.Keys) && k < |Chosen(s, order, false)|
    ensures Named(BucketEntries(Serialize(s, order, asmap).buckets, 0, |Chosen(s, order, false)|), k)
  {
    var a, b := Chosen(s, order, false), Chosen(s, order, true);
    FileListing(h, s, order);
    ChosenSizes(h, s, order);
    assert (a + b)[..|a|] == a;
    OccupantsAreListed(h, s, a + b, |a|);
    AllReadBack(s.newTable, a, Serialize(s, order, asmap).buckets, 0);
    assert a[k] in NewIds(s.mapInfo, {}) && RefsOk(s, a[k], {});
    var sl :| sl in RefSlots(s.newTable, a[k]);
    assert NewSlotOk(h, s, sl);
    SlotIsWritten(s.newTable, a, 0, 0, sl);
    IndexOfAt(a, k);
  }

  /**
   * What a load owes to the entries of the file. A valid new entry is back unless another entry holds the slot that
   * its source gives it. A tried entry is back exactly when no earlier one of the file has its slot, and is
   * forgotten otherwise.
   */
  ghost predicate Reloaded(h: Hashing, key: Key, news: seq<DiskInfo>, tried: seq<DiskInfo>, r: State) {
    && (forall k :: 0 <= k < |news| && h.valid(news[k].service) ==>
          Holds(r, news[k], false) || NewSlot(h, key, news[k].service, news[k].source) in r.newTable)
    && (forall i: nat :: i < |tried| ==> (Holds(r, tried[i], true) <==> First(h, key, tried, i)))
    && (forall i: nat :: i < |tried| && !First(h, key, tried, i) ==> tried[i].service !in r.mapAddr)
  }

  /** The slot is the one that the source of its occupant gives. */
  ghost predicate PrimaryAt(h: Hashing, st: State, sl: Slot) {
    sl in st.newTable && st.newTable[sl] in st.mapInfo ==>
      var info := st.mapInfo[st.newTable[sl]];
      sl == NewSlot(h, st.key, info.service, info.source)
  }

  ghost predicate Primary(h: Hashing, st: State) {
    forall sl {:trigger PrimaryAt(h, st, sl)} :: PrimaryAt(h, st, sl)
  }

  lemma {:induction false} RestorePrimary(h: Hashing, st: State, es: seq<BucketEntry>)
    requires Primary(h, st)
    ensures Primary(h, RestoreAll(h, st, es, false))
    decreases |es|
  {
    if es != [] {
      var st1 := RestoreOne(h, st, es[0], false);
      forall sl ensures PrimaryAt(h, st1, sl) { assert PrimaryAt(h, st, sl); }
      RestorePrimary(h, st1, es[1..]);
    }
  }

  lemma PrunePrimary(h: Hashing, g: State, p: State, l: set<Id>)
    requires Pruned(g, p, l) && Primary(h, g)
    ensures Primary(h, p)
  {
    forall sl ensures PrimaryAt(h, p, sl) {
      assert PrimaryAt(h, g, sl);
      if sl in p.newTable {
        assert PrunedAt(g, p, l, p.newTable[sl]);
      }
    }
  }

  ghost predicate Named(es: seq<BucketEntry>, k: nat) { exists e :: e in es && e.index == k }

  lemma RecordsReload(h: Hashing, key: Key, news: seq<DiskInfo>, tried: seq<DiskInfo>, es: seq<BucketEntry>, restore: bool, pruneOrder: seq<Id>)
    requires Records(news, tried) && key != 0 && (forall k :: 0 <= k < |news| ==> k in pruneOrder)
    requires forall e :: e in es ==> 0 <= e.index < |news| && (restore ==> 0 <= e.bucket < NEW_BUCKET_COUNT)
    requires forall k: nat :: k < |news| ==> Named(es, k)
    ensures var p := Prune(h, RestoreAll(h, Read(h, key, news, tried), es, restore), pruneOrder);
            Consistent(h, p) && Reloaded(h, key, news, tried, p) && (!restore ==> Primary(h, p))
  {
    StagesOf(h, key, news, tried, es, restore, pruneOrder);
    var st := Read(h, key, news, tried);
    var g := RestoreAll(h, st, es, restore);
    var p := Prune(h, g, pruneOrder);
    if !restore {
      forall sl ensures PrimaryAt(h, st, sl) {}
      RestorePrimary(h, st, es);
      PrunePrimary(h, g, p, Loose(g, |news|));
    }
    forall k: nat | k < |news| && h.valid(news[k].service)
      ensures Holds(p, news[k], false) || NewSlot(h, key, news[k].service, news[k].source) in p.newTable
    {
      assert Named(es, k);
      NewComesBack(h, key, news, tried, st, g, p, k);
    }
    forall i: nat | i < |tried|
      ensures (Holds(p, tried[i], true) <==> First(h, key, tried, i)) && (!First(h, key, tried, i) ==> tried[i].service !in p.mapAddr)
    {
      TriedComesBack(h, key, news, tried, st, g, p, i);
    }
  }

  /**
   * The file of any consistent manager, read under other hashes and another asmap, is accepted and gives a
   * consistent manager that holds what the file promises. Under another asmap every new entry is where its own
   * source puts it.
   */
  lemma Reload(h0: Hashing, h: Hashing, s: State, order: seq<Id>, asmap: int, asmap': int, pruneOrder: seq<Id>)
    requires Consistent(h0, s) && Enumerates(order, s.mapInfo.Keys)
    requires forall k :: 0 <= k < |s.mapInfo.Keys| ==> k in pruneOrder
    ensures var r := Rebuild(h, Serialize(s, order, asmap), asmap', pruneOrder);
            r.Loaded? && Consistent(h, r.state) && CheckPasses(h, r.state) && (asmap != asmap' ==> Primary(h, r.state)) &&
            Reloaded(h, s.key, Infos(s, Chosen(s, order, false)), Infos(s, Chosen(s, order, true)), r.state)
  {
    var a, b := Chosen(s, order, false), Chosen(s, order, true);
    var d := Serialize(s, order, asmap);
    WrittenRecords(h0, s, order);
    RebuildSerialized(h0, h, s, order, asmap, asmap', pruneOrder);
    EntriesInRange(d.buckets, 0, |a|);
    AllPruned(h0, s, order, pruneOrder);
    forall k: nat | k < |a| ensures Named(BucketEntries(d.buckets, 0, |a|), k) { EveryNewIsNamed(h0, s, order, asmap, k); }
    RecordsReload(h, s.key, Infos(s, a), Infos(s, b), BucketEntries(d.buckets, 0, |a|), asmap == asmap', pruneOrder);
    ConsistentPasses(h, Rebuild(h, d, asmap', pruneOrder).state);
  }

  lemma AllPruned(h: Hashing, s: State, order: seq<Id>, pruneOrder: seq<Id>)
    requires Consistent(h, s) && Enumerates(order, s.mapInfo.Keys) && forall k :: 0 <= k < |s.mapInfo.Keys| ==> k in pruneOrder
    ensures forall k :: 0 <= k < |Chosen(s, order, false)| ==> k in pruneOrder
  {
    ChosenSizes(h, s, order);
    NewPlusTried(s.mapInfo);
  }

  /** For every reachable manager: whatever the asmap is when its file is read, no new address is lost but to
      another that holds its slot. */
  lemma RunReload(h0: Hashing, h: Hashing, key: Key, ops: seq<R.Op>, order: seq<Id>, asmap: int, asmap': int, pruneOrder: seq<Id>)
    requires key != 0 && (forall i :: 0 <= i < |ops| ==> R.TimesOk(ops[i]))
    requires var s := R.Run(h0, Empty(key), ops); Enumerates(order, s.mapInfo.Keys) && forall k :: 0 <= k < |s.mapInfo.Keys| ==> k in pruneOrder
    ensures var s := R.Run(h0, Empty(key), ops); var r := Rebuild(h, Serialize(s, order, asmap), asmap', pruneOrder);
            r.Loaded? && Consistent(h, r.state) &&
            Reloaded(h, s.key, Infos(s, Chosen(s, order, false)), Infos(s, Chosen(s, order, true)), r.state)
  {
    var s := R.Run(h0, Empty(key), ops);
    R.RunConsistent(h0, key, ops);
    Reload(h0, h, s, order, asmap, asmap', pruneOrder);
  }
}
