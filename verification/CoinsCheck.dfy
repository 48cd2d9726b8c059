/** SanityCheck of src/coins.cpp: it recomputes both totals and inspects every entry;
    on a valid cache it never fails. */
module CoinsCheck {
  import opened CoinsModel
  import opened CoinsLemmas
  import opened Coins

  predicate EntrySane(e: Entry) {
    if e.coin.Spent? then e.isDirty && !e.isFresh else e.isDirty || !e.isFresh
  }

  ghost function DirtyKeys(m: map<OutPoint, Entry>): set<OutPoint> { set op | op in m && m[op].isDirty }

  ghost predicate SaneAt(c: Cache, op: OutPoint) { op in c.coins ==> EntrySane(c.coins[op]) }

  ghost predicate ListedAt(c: Cache, op: OutPoint) { op in c.flagged ==> op in c.coins && c.coins[op].isDirty }

  /** What SanityCheck asserts. */
  ghost predicate Sane(c: Cache) {
    && (forall op {:trigger SaneAt(c, op)} :: SaneAt(c, op))
    && (forall op {:trigger ListedAt(c, op)} :: ListedAt(c, op))
    && |DirtyKeys(c.coins)| == |c.flagged| == c.dirtyCount
    && Usage(c.coins) == c.usage
  }

  lemma {:induction false} ListSize(q: seq<OutPoint>, s: set<OutPoint>)
    requires Distinct(q) && (forall x :: x in q <==> x in s)
    ensures |q| == |s|
  {
    if q == [] {
      assert s == {};
    } else {
      assert q[0] !in q[1..];
      ListSize(q[1..], s - {q[0]});
    }
  }

  lemma ValidIsSane(c: Cache, base: CoinMap)
    requires CacheOk(c, base)
    ensures Sane(c)
  {
    forall op ensures SaneAt(c, op) { assert EntryOk(c, base, op); }
    forall op ensures ListedAt(c, op) { assert FlagOk(c, op); }
    forall x ensures x in c.flagged <==> x in DirtyKeys(c.coins) { assert FlagOk(c, x); }
    ListSize(c.flagged, DirtyKeys(c.coins));
  }

  lemma DirtyWithout(m: map<OutPoint, Entry>, op: OutPoint)
    requires op in m
    ensures |DirtyKeys(m)| == |DirtyKeys(m - {op})| + if m[op].isDirty then 1 else 0
  {
    assert DirtyKeys(m) - {op} == DirtyKeys(m - {op});
  }

  ghost predicate SaneOutside(m: map<OutPoint, Entry>, rest: map<OutPoint, Entry>, op: OutPoint) {
    op in m && op !in rest ==> EntrySane(m[op])
  }

  /** The loop over all entries. */
  method ScanEntries(m: map<OutPoint, Entry>) returns (sane: bool, recomputed: int, countDirty: int)
    ensures sane <==> forall op {:trigger SaneOutside(m, map[], op)} :: SaneOutside(m, map[], op)
    ensures recomputed == Usage(m) && countDirty == |DirtyKeys(m)|
  {
    var rest := m;
    recomputed, countDirty, sane := 0, 0, true;
    while rest != map[]
      invariant forall op :: op in rest ==> op in m && m[op] == rest[op]
      invariant recomputed + Usage(rest) == Usage(m)
      invariant countDirty + |DirtyKeys(rest)| == |DirtyKeys(m)|
      invariant sane <==> forall op {:trigger SaneOutside(m, rest, op)} :: SaneOutside(m, rest, op)
      decreases |rest|
    {
      var op :| op in rest;
      UsageRemove(rest, op);
      DirtyWithout(rest, op);
      SaneStep(m, rest, op);
      sane := sane && EntrySane(rest[op]);
      recomputed := recomputed + Mem(rest[op].coin);
      if rest[op].isDirty {
        countDirty := countDirty + 1;
      }
      rest := rest - {op};
    }
    assert DirtyKeys(map[]) == {};
  }

  lemma SaneStep(m: map<OutPoint, Entry>, rest: map<OutPoint, Entry>, op: OutPoint)
    requires op in m && op in rest && m[op] == rest[op]
    ensures (forall x {:trigger SaneOutside(m, rest - {op}, x)} :: SaneOutside(m, rest - {op}, x))
            <==> (forall x {:trigger SaneOutside(m, rest, x)} :: SaneOutside(m, rest, x)) && EntrySane(m[op])
  {
    var less := rest - {op};
    forall x ensures SaneOutside(m, less, x) <==> if x == op then EntrySane(m[op]) else SaneOutside(m, rest, x) {}
    assert SaneOutside(m, rest, op);
  }

  /** The loop over the list of flagged entries. */
  method ScanList(q: seq<OutPoint>, m: map<OutPoint, Entry>) returns (linked: bool, countLinked: int)
    ensures linked <==> forall op :: op in q ==> op in m && m[op].isDirty
    ensures countLinked == |q|
  {
    linked, countLinked := true, 0;
    while countLinked < |q|
      invariant 0 <= countLinked <= |q|
      invariant linked <==> forall op :: op in q[..countLinked] ==> op in m && m[op].isDirty
    {
      var op := q[countLinked];
      assert q[..countLinked + 1] == q[..countLinked] + [op];
      linked := linked && op in m && m[op].isDirty;
      countLinked := countLinked + 1;
    }
    assert q[..countLinked] == q;
  }

  lemma ListedAll(c: Cache)
    ensures (forall op {:trigger ListedAt(c, op)} :: ListedAt(c, op))
            <==> forall op :: op in c.flagged ==> op in c.coins && c.coins[op].isDirty
  {
    if forall op {:trigger ListedAt(c, op)} :: ListedAt(c, op) {
      forall op | op in c.flagged ensures op in c.coins && c.coins[op].isDirty { assert ListedAt(c, op); }
    }
  }

  method SanityCheck(c: CoinsCache) returns (ok: bool)
    ensures ok <==> Sane(c.State())
  {
    var sane, recomputed, countDirty := ScanEntries(c.cacheCoins);
    var linked, countLinked := ScanList(c.flagged, c.cacheCoins);
    assert forall op :: SaneAt(c.State(), op) <==> SaneOutside(c.cacheCoins, map[], op);
    ListedAll(c.State());
    ok := sane && linked && countDirty == countLinked == c.dirtyCount && recomputed == c.usage;
  }
}
