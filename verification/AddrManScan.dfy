/** The wrap-around scan over the new buckets by which MakeTried removes an entry's
    references, with its early exit. */
module AddrManScan {
  import opened AddrManModel
  import opened AddrManInvariant

  /** How many steps after `start` the scan reaches this bucket. */
  ghost function Offset(bucket: int, start: int): int {
    (bucket - start) % NEW_BUCKET_COUNT
  }

  lemma OffsetOf(bucket: int, start: int, n: int)
    requires 0 <= bucket < NEW_BUCKET_COUNT && 0 <= start < NEW_BUCKET_COUNT && 0 <= n < NEW_BUCKET_COUNT
    ensures Offset(bucket, start) == n <==> bucket == (start + n) % NEW_BUCKET_COUNT
    ensures 0 <= Offset(bucket, start) < NEW_BUCKET_COUNT
  {
  }

  /** The table after the first n buckets of the scan. */
  ghost function Scanned(t: Table, id: Id, start: int, n: int): Table {
    t - Passed(t, id, start, n)
  }

  /** Slots that hold id in the first n buckets of the scan. */
  ghost function Passed(t: Table, id: Id, start: int, n: int): set<Slot> {
    set sl | sl in t && t[sl] == id && Offset(sl.bucket, start) < n
  }

  /** Every slot that holds id is the slot of its bucket that the scan looks at. */
  ghost predicate OwnSlot(h: Hashing, key: Key, a: Service, t: Table, id: Id, sl: Slot) {
    sl in t && t[sl] == id ==> 0 <= sl.bucket < NEW_BUCKET_COUNT && sl == NewSlotIn(h, key, a, sl.bucket)
  }

  ghost predicate OwnSlots(h: Hashing, key: Key, a: Service, t: Table, id: Id) {
    forall sl {:trigger OwnSlot(h, key, a, t, id, sl)} :: OwnSlot(h, key, a, t, id, sl)
  }

  lemma EntriesOwnTheirSlots(h: Hashing, s: State, id: Id, l: set<Id>)
    requires NewOk(h, s, l) && id in s.mapInfo
    ensures OwnSlots(h, s.key, s.mapInfo[id].service, s.newTable, id)
  {
    forall sl: Slot ensures OwnSlot(h, s.key, s.mapInfo[id].service, s.newTable, id, sl) { assert NewSlotOk(h, s, sl); }
  }

  lemma ScanStart(t: Table, id: Id, start: int)
    ensures Scanned(t, id, start, 0) == t
  {
    assert Passed(t, id, start, 0) == {};
  }

  /** One bucket further: the slot the scan looks at is emptied if it holds id. */
  lemma ScanStep(h: Hashing, key: Key, a: Service, t: Table, id: Id, start: int, n: int)
    requires OwnSlots(h, key, a, t, id) && 0 <= start < NEW_BUCKET_COUNT && 0 <= n < NEW_BUCKET_COUNT
    ensures var now := Scanned(t, id, start, n);
            var sl := NewSlotIn(h, key, a, (start + n) % NEW_BUCKET_COUNT);
            Scanned(t, id, start, n + 1) == if sl in now && now[sl] == id then now - {sl} else now
  {
    var now := Scanned(t, id, start, n);
    var bucket := (start + n) % NEW_BUCKET_COUNT;
    var sl := NewSlotIn(h, key, a, bucket);
    OffsetOf(bucket, start, n);
    forall x: Slot | x in t && t[x] == id ensures Offset(x.bucket, start) == n <==> x == sl {
      assert OwnSlot(h, key, a, t, id, x);
      OffsetOf(x.bucket, start, n);
    }
    var next := if sl in now && now[sl] == id then now - {sl} else now;
    assert Scanned(t, id, start, n + 1).Keys == next.Keys;
  }

  /** The state during the scan: n buckets done, references counted. */
  ghost function Scanning(s: State, id: Id, start: int, n: int): State
    requires id in s.mapInfo
  {
    var t := Scanned(s.newTable, id, start, n);
    WithRefs(s, id, |RefSlots(t, id)|, t)
  }

  lemma ScanStepState(h: Hashing, s: State, id: Id, start: int, n: int)
    requires id in s.mapInfo && OwnSlots(h, s.key, s.mapInfo[id].service, s.newTable, id)
    requires 0 <= start < NEW_BUCKET_COUNT && 0 <= n < NEW_BUCKET_COUNT
    ensures var now := Scanning(s, id, start, n);
            var sl := NewSlotIn(h, s.key, s.mapInfo[id].service, (start + n) % NEW_BUCKET_COUNT);
            Scanning(s, id, start, n + 1) == if sl in now.newTable && now.newTable[sl] == id then DropRef(now, sl) else now
  {
    var t := Scanned(s.newTable, id, start, n);
    var sl := NewSlotIn(h, s.key, s.mapInfo[id].service, (start + n) % NEW_BUCKET_COUNT);
    ScanStep(h, s.key, s.mapInfo[id].service, s.newTable, id, start, n);
    if sl in t && t[sl] == id { RefSlotsRemove(t, sl); }
  }

  /** The early exit is justified: with no reference left, or after all buckets, the
      whole set of references is gone. */
  lemma ScanEnd(h: Hashing, key: Key, a: Service, t: Table, id: Id, start: int, n: int)
    requires OwnSlots(h, key, a, t, id) && 0 <= start < NEW_BUCKET_COUNT
    requires n == NEW_BUCKET_COUNT || |RefSlots(Scanned(t, id, start, n), id)| == 0
    ensures Scanned(t, id, start, n) == t - RefSlots(t, id)
    ensures RefSlots(Scanned(t, id, start, n), id) == {}
  {
    var now := Scanned(t, id, start, n);
    forall x: Slot | x in t && t[x] == id ensures x !in now {
      assert OwnSlot(h, key, a, t, id, x);
      OffsetOf(x.bucket, start, 0);
      assert x in now ==> x in RefSlots(now, id);
    }
    assert now.Keys == (t - RefSlots(t, id)).Keys;
  }

  // ---------- Scans over all slots of a table ----------

  /** Slots the nested loops have passed when they stand at bucket n, position i. */
  predicate Before(sl: Slot, n: int, i: int) {
    sl.bucket < n || (sl.bucket == n && sl.pos < i)
  }

  /** References to id the nested loops have passed. */
  ghost function Seen(t: Table, n: int, i: int, id: Id): set<Slot> {
    set sl | sl in t && t[sl] == id && Before(sl, n, i)
  }

  lemma SeenStep(t: Table, n: int, i: int, id: Id)
    ensures var i' := i + 1;
            |Seen(t, n, i', id)| == |Seen(t, n, i, id)| + if Slot(n, i) in t && t[Slot(n, i)] == id then 1 else 0
  {
    var i' := i + 1;
    var sl := Slot(n, i);
    if sl in t && t[sl] == id {
      assert Seen(t, n, i', id) == Seen(t, n, i, id) + {sl};
    } else {
      assert Seen(t, n, i', id) == Seen(t, n, i, id);
    }
  }

  lemma {:induction false} SlotSubset(a: set<Slot>, b: set<Slot>)
    requires a <= b
    ensures |a| <= |b|
  {
    assert b == a + (b - a);
  }
}
