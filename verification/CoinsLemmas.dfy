/** What each cache operation does to the layer's invariant and to what it shows. */
module CoinsLemmas {
  import opened CoinsModel

  // ---------- Totals ----------

  lemma {:induction false} UsageRemove(m: map<OutPoint, Entry>, op: OutPoint)
    requires op in m
    ensures Usage(m) == Mem(m[op].coin) + Usage(m - {op})
    decreases |m|
  {
    var pick :| pick in m && Usage(m) == Mem(m[pick].coin) + Usage(m - {pick});
    if pick != op {
      UsageRemove(m - {pick}, op);
      UsageRemove(m - {op}, pick);
      assert m - {pick} - {op} == m - {op} - {pick};
    }
  }

  lemma UsageUpdate(m: map<OutPoint, Entry>, op: OutPoint, e: Entry)
    ensures Usage(m[op := e]) == (if op in m then Usage(m) - Mem(m[op].coin) else Usage(m)) + Mem(e.coin)
  {
    var m' := m[op := e];
    UsageRemove(m', op);
    if op in m {
      UsageRemove(m, op);
      assert m' - {op} == m - {op};
    } else {
      assert m' - {op} == m;
    }
  }

  lemma {:induction false} RemoveKeeps(q: seq<OutPoint>, op: OutPoint)
    requires Distinct(q)
    ensures Distinct(Remove(q, op)) && |Remove(q, op)| == |q| - (if op in q then 1 else 0)
  {
    if q != [] {
      var tail := q[1..];
      RemoveKeeps(tail, op);
      assert q[0] !in tail;
    }
  }

  // ---------- The two entry updates ----------

  lemma DropOk(c: Cache, base: CoinMap, op: OutPoint)
    requires CacheOk(c, base) && op in c.coins
    ensures CacheOk(Drop(c, op), base)
  {
    var d := Drop(c, op);
    UsageRemove(c.coins, op);
    RemoveKeeps(c.flagged, op);
    assert FlagOk(c, op);
    forall x ensures EntryOk(d, base, x) { assert EntryOk(c, base, x); }
    forall x ensures FlagOk(d, x) { assert FlagOk(c, x); }
  }

  lemma StoreOk(c: Cache, base: CoinMap, op: OutPoint, e: Entry)
    requires CacheOk(c, base)
    ensures CacheOk(Store(c, op, e), base) <==> EntryOk(Store(c, op, e), base, op)
  {
    var d := Store(c, op, e);
    UsageUpdate(c.coins, op, e);
    RemoveKeeps(c.flagged, op);
    assert FlagOk(c, op);
    forall x ensures x != op ==> EntryOk(d, base, x) { assert EntryOk(c, base, x); }
    forall x ensures FlagOk(d, x) { assert FlagOk(c, x); }
  }

  lemma StoreShows(c: Cache, base: CoinMap, view: CoinMap, op: OutPoint, e: Entry)
    requires Shows(c, base, view)
    ensures Shows(Store(c, op, e), base, PutCoin(view, op, e.coin))
  {
    forall x ensures ShownAt(Store(c, op, e), base, PutCoin(view, op, e.coin), x) { assert ShownAt(c, base, view, x); }
  }

  lemma DropShows(c: Cache, base: CoinMap, view: CoinMap, op: OutPoint)
    requires Shows(c, base, view) && op in c.coins
    ensures Shows(Drop(c, op), base, PutCoin(view, op, Lookup(base, op)))
  {
    var v := PutCoin(view, op, Lookup(base, op));
    forall x ensures ShownAt(Drop(c, op), base, v, x) { assert ShownAt(c, base, view, x); }
  }

  lemma SameMap(m: CoinMap, n: CoinMap)
    requires AllUnspent(m) && AllUnspent(n)
    requires forall op {:trigger Lookup(m, op)} :: Lookup(m, op) == Lookup(n, op)
    ensures m == n
  {
    forall op ensures op in m <==> op in n { assert Lookup(m, op) == Lookup(n, op); }
    forall op | op in m ensures m[op] == n[op] { assert Lookup(m, op) == Lookup(n, op); }
  }

  // ---------- The operations ----------

  lemma FetchOk(c: Cache, base: CoinMap, view: CoinMap, op: OutPoint)
    requires CacheOk(c, base) && Shows(c, base, view) && AllUnspent(base)
    requires op !in c.coins && op in base
    ensures CacheOk(Fetch(c, op, base[op]), base) && Shows(Fetch(c, op, base[op]), base, view)
  {
    assert ShownAt(c, base, view, op);
    StoreOk(c, base, op, Entry(base[op], false, false));
    StoreShows(c, base, view, op, Entry(base[op], false, false));
    assert PutCoin(view, op, base[op]) == view;
  }

  /** AddCoin keeps the flags truthful exactly when the caller's promise holds: without
      possible_overwrite, a coin unknown to this cache must not be unspent below. */
  lemma AddCoinOk(c: Cache, base: CoinMap, op: OutPoint, coin: Coin, possibleOverwrite: bool)
    requires CacheOk(c, base) && coin.Unspent? && !coin.unspendable
    requires AddCoin(c, op, coin, possibleOverwrite).Done?
    ensures CacheOk(AddCoin(c, op, coin, possibleOverwrite).cache, base)
            <==> possibleOverwrite || op in c.coins || op !in base
  {
    var was := if op in c.coins then c.coins[op] else Entry(Spent, false, false);
    var e := Entry(coin, true, was.isFresh || (!possibleOverwrite && !was.isDirty));
    assert EntryOk(c, base, op);
    StoreOk(c, base, op, e);
  }

  lemma AddCoinShows(c: Cache, base: CoinMap, view: CoinMap, op: OutPoint, coin: Coin, possibleOverwrite: bool)
    requires Shows(c, base, view) && coin.Unspent? && !coin.unspendable
    requires AddCoin(c, op, coin, possibleOverwrite).Done?
    ensures Shows(AddCoin(c, op, coin, possibleOverwrite).cache, base, view[op := coin])
  {
    var was := if op in c.coins then c.coins[op] else Entry(Spent, false, false);
    StoreShows(c, base, view, op, Entry(coin, true, was.isFresh || (!possibleOverwrite && !was.isDirty)));
  }

  lemma SpendOk(c: Cache, base: CoinMap, view: CoinMap, op: OutPoint)
    requires CacheOk(c, base) && Shows(c, base, view) && op in c.coins
    ensures CacheOk(Spend(c, op), base) && Shows(Spend(c, op), base, view - {op})
  {
    assert EntryOk(c, base, op);
    if c.coins[op].isFresh {
      DropOk(c, base, op);
      DropShows(c, base, view, op);
    } else {
      StoreOk(c, base, op, Entry(Spent, true, false));
      StoreShows(c, base, view, op, Entry(Spent, true, false));
    }
  }

  /** What the sender's flags promise about the receiver's view. */
  ghost predicate Deliverable(view: CoinMap, op: OutPoint, e: Entry) {
    && (e.isFresh ==> op !in view) && (e.isFresh ==> e.coin.Unspent?)
  }

  lemma ReceiveOk(c: Cache, base: CoinMap, view: CoinMap, op: OutPoint, e: Entry)
    requires CacheOk(c, base) && Shows(c, base, view) && AllUnspent(view) && AllUnspent(base)
    requires Deliverable(view, op, e)
    ensures Receive(c, op, e).Done?
    ensures CacheOk(Receive(c, op, e).cache, base)
    ensures Shows(Receive(c, op, e).cache, base, PutCoin(view, op, e.coin))
  {
    assert EntryOk(c, base, op);
    assert ShownAt(c, base, view, op);
    if op in c.coins && c.coins[op].isFresh && e.coin.Spent? {
      DropOk(c, base, op);
      DropShows(c, base, view, op);
    } else {
      var f := Entry(e.coin, true, if op in c.coins then c.coins[op].isFresh else e.isFresh);
      StoreOk(c, base, op, f);
      StoreShows(c, base, view, op, f);
    }
  }

  lemma UncacheOk(c: Cache, base: CoinMap, view: CoinMap, op: OutPoint)
    requires CacheOk(c, base) && Shows(c, base, view) && AllUnspent(view) && AllUnspent(base)
    ensures CacheOk(Uncache(c, op), base) && Shows(Uncache(c, op), base, view)
  {
    assert EntryOk(c, base, op);
    assert ShownAt(c, base, view, op);
    if op in c.coins && !c.coins[op].isDirty {
      DropOk(c, base, op);
      DropShows(c, base, view, op);
      assert PutCoin(view, op, Lookup(base, op)) == view;
    }
  }

  lemma EmptyOk(base: CoinMap)
    requires AllUnspent(base)
    ensures CacheOk(EMPTY, base) && Shows(EMPTY, base, base)
  {
    forall op ensures EntryOk(EMPTY, base, op) {}
    forall op ensures FlagOk(EMPTY, op) {}
    forall op ensures ShownAt(EMPTY, base, base, op) {}
  }
}
