/** Which entries a cache keeps and with which flags: what the views above and below do
    not show, but the next flush depends on (src/coins.cpp). */
module CoinsFlags {
  import opened CoinsModel

  /** Only the entry for op may differ. */
  ghost predicate OnlyAt(c: Cache, d: Cache, op: OutPoint) {
    forall x {:trigger x in d.coins} :: x != op ==> (x in d.coins <==> x in c.coins) && (x in c.coins ==> d.coins[x] == c.coins[x])
  }

  /** Uncache drops exactly a clean entry. */
  lemma UncacheExact(c: Cache, op: OutPoint)
    ensures var d := Uncache(c, op);
      OnlyAt(c, d, op) && (op in d.coins <==> op in c.coins && c.coins[op].isDirty) && (op in d.coins ==> d.coins[op] == c.coins[op])
  {
  }

  /** A coin that the layer below never had leaves no trace when it is spent; any other is kept as spent until
      that is written. */
  lemma SpendExact(c: Cache, op: OutPoint)
    requires op in c.coins
    ensures var d := Spend(c, op);
      && OnlyAt(c, d, op) && (op in d.coins <==> !c.coins[op].isFresh)
      && (op in d.coins ==> d.coins[op].coin.Spent? && d.coins[op].isDirty && !d.coins[op].isFresh)
  {
  }

  /** AddCoin ignores an unspendable coin and refuses exactly to replace an unspent one without permission. It marks
      its coin as new to the layer below if it was so marked, or if it may not overwrite and knows of no unwritten
      spend. */
  lemma AddCoinExact(c: Cache, op: OutPoint, coin: Coin, possibleOverwrite: bool)
    requires coin.Unspent?
    ensures coin.unspendable ==> AddCoin(c, op, coin, possibleOverwrite) == Done(c)
    ensures var o := AddCoin(c, op, coin, possibleOverwrite);
      && (o.LogicError? <==> !coin.unspendable && !possibleOverwrite && op in c.coins && c.coins[op].coin.Unspent?)
      && (o.Done? && !coin.unspendable ==>
            && OnlyAt(c, o.cache, op) && op in o.cache.coins
            && o.cache.coins[op].coin == coin && o.cache.coins[op].isDirty
            && (o.cache.coins[op].isFresh <==>
                  (op in c.coins && c.coins[op].isFresh) || (!possibleOverwrite && !(op in c.coins && c.coins[op].isDirty))))
  {
  }

  /** A received entry keeps the flag of the receiver if it has one, else the sender's; a spent coin that is new
      to the layer below is dropped. */
  lemma ReceiveExact(c: Cache, op: OutPoint, e: Entry)
    ensures var o := Receive(c, op, e); var isNew := if op in c.coins then c.coins[op].isFresh else e.isFresh;
      && (o.LogicError? <==> e.isFresh && op in c.coins && c.coins[op].coin.Unspent?)
      && (o.Done? ==>
            && OnlyAt(c, o.cache, op) && (op in o.cache.coins <==> !(isNew && e.coin.Spent?))
            && (op in o.cache.coins ==> o.cache.coins[op].coin == e.coin && o.cache.coins[op].isDirty && o.cache.coins[op].isFresh == isNew))
  {
  }

  lemma {:induction false} RemoveLast(q: seq<OutPoint>, op: OutPoint)
    requires op !in q
    ensures Remove(q + [op], op) == q
  {
    if q == [] {
      assert Remove([op], op) == Remove([op][1..], op);
    } else {
      assert (q + [op])[1..] == q[1..] + [op] && q[0] in q;
      RemoveLast(q[1..], op);
    }
  }

  /** A coin made and spent between two writes: the cache ends exactly as it was. */
  lemma AddThenSpendUndone(c: Cache, base: CoinMap, op: OutPoint, coin: Coin)
    requires CacheOk(c, base) && op !in c.coins && coin.Unspent? && !coin.unspendable
    ensures AddCoin(c, op, coin, false).Done? && op in AddCoin(c, op, coin, false).cache.coins
    ensures Spend(AddCoin(c, op, coin, false).cache, op) == c
  {
    assert FlagOk(c, op);
    RemoveLast(c.flagged, op);
    assert c.coins[op := Entry(coin, true, true)] - {op} == c.coins;
  }

  /** A coin pulled up and dropped again: the cache ends exactly as it was. */
  lemma FetchThenUncacheUndone(c: Cache, base: CoinMap, op: OutPoint, coin: Coin)
    requires CacheOk(c, base) && op !in c.coins
    ensures Uncache(Fetch(c, op, coin), op) == c
  {
    assert FlagOk(c, op);
    assert c.coins[op := Entry(coin, false, false)] - {op} == c.coins;
  }
}
