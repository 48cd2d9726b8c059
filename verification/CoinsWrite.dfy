/** Handing the flagged entries of one layer to the layer below, entry by entry
    (the cursor of src/coins.h and the loops of BatchWrite). */
module CoinsWrite {
  import opened CoinsModel
  import opened CoinsLemmas

  /** The receiver's view after the first i flagged entries of c. */
  ghost predicate DeliveredAt(c: Cache, before: CoinMap, now: CoinMap, i: nat, op: OutPoint)
    requires i <= |c.flagged|
  {
    Lookup(now, op) == if op in c.flagged[..i] && op in c.coins then c.coins[op].coin else Lookup(before, op)
  }

  ghost predicate Delivered(c: Cache, before: CoinMap, now: CoinMap, i: nat)
    requires i <= |c.flagged|
  {
    forall op {:trigger DeliveredAt(c, before, now, i, op)} :: DeliveredAt(c, before, now, i, op)
  }

  lemma DeliveredStart(c: Cache, before: CoinMap)
    ensures Delivered(c, before, before, 0)
  {
    forall op ensures DeliveredAt(c, before, before, 0, op) {}
  }

  lemma PrefixIn(q: seq<OutPoint>, i: nat, op: OutPoint)
    requires i < |q|
    ensures op in q[..i + 1] <==> op in q[..i] || op == q[i]
  {
    assert q[..i + 1] == q[..i] + [q[i]];
  }

  lemma FlaggedEntry(c: Cache, before: CoinMap, i: nat)
    requires CacheOk(c, before) && i < |c.flagged|
    ensures c.flagged[i] in c.coins && c.coins[c.flagged[i]].isDirty && c.flagged[i] !in c.flagged[..i]
  {
    assert FlagOk(c, c.flagged[i]);
  }

  lemma NextDeliverable(c: Cache, before: CoinMap, now: CoinMap, i: nat)
    requires CacheOk(c, before) && i < |c.flagged| && Delivered(c, before, now, i)
    requires AllUnspent(before) && AllUnspent(now)
    ensures c.flagged[i] in c.coins && c.coins[c.flagged[i]].isDirty
    ensures Deliverable(now, c.flagged[i], c.coins[c.flagged[i]])
  {
    var op := c.flagged[i];
    FlaggedEntry(c, before, i);
    assert EntryOk(c, before, op);
    assert DeliveredAt(c, before, now, i, op);
  }

  lemma DeliveredStep(c: Cache, before: CoinMap, now: CoinMap, i: nat, op: OutPoint)
    requires CacheOk(c, before) && i < |c.flagged| && Delivered(c, before, now, i)
    requires op == c.flagged[i] && op in c.coins
    ensures Delivered(c, before, PutCoin(now, op, c.coins[op].coin), i + 1)
  {
    var j, v := i + 1, PutCoin(now, op, c.coins[op].coin);
    forall x ensures DeliveredAt(c, before, v, j, x) {
      assert DeliveredAt(c, before, now, i, x);
      PrefixIn(c.flagged, i, x);
    }
  }

  /** Once every flagged entry is delivered the receiver shows what the sender shows. */
  lemma DeliveredAll(c: Cache, before: CoinMap, now: CoinMap, view: CoinMap)
    requires CacheOk(c, before) && Delivered(c, before, now, |c.flagged|)
    requires Shows(c, before, view) && AllUnspent(now) && AllUnspent(view)
    ensures now == view
  {
    assert c.flagged[..|c.flagged|] == c.flagged;
    forall op ensures Lookup(now, op) == Lookup(view, op) {
      assert DeliveredAt(c, before, now, |c.flagged|, op);
      assert ShownAt(c, before, view, op);
      assert FlagOk(c, op);
      assert EntryOk(c, before, op);
    }
    SameMap(now, view);
  }

  // ---------- The sender ----------

  /** The sender's entry for op after i steps of a cursor that does not wipe the cache:
      visited entries are gone if spent and clean otherwise. */
  ghost predicate CleanedAt(c: Cache, now: Cache, i: nat, op: OutPoint)
    requires i <= |c.flagged|
  {
    if op in c.flagged[..i] && op in c.coins then
      if c.coins[op].coin.Spent? then op !in now.coins
      else op in now.coins && now.coins[op] == Entry(c.coins[op].coin, false, false)
    else
      && (op in now.coins <==> op in c.coins)
      && (op in c.coins ==> now.coins[op] == c.coins[op])
  }

  ghost predicate Visited(c: Cache, now: Cache, i: nat, willErase: bool) {
    && i <= |c.flagged|
    && now.dirtyCount == c.dirtyCount - i && now.usage == c.usage
    && (willErase ==> now.coins == c.coins && now.flagged == c.flagged)
    && (!willErase ==>
          && now.flagged == c.flagged[i..] && Usage(now.coins) == Usage(c.coins)
          && forall op {:trigger CleanedAt(c, now, i, op)} :: CleanedAt(c, now, i, op))
  }

  /** One NextAndMaybeErase at the cursor's position. */
  function Advance(c: Cache, pos: nat, willErase: bool): Cache
    requires pos < |c.flagged| && c.flagged[pos] in c.coins
  {
    var op := c.flagged[pos];
    var e := c.coins[op];
    var d := c.(dirtyCount := c.dirtyCount - if e.isDirty then 1 else 0);
    if willErase then d
    else if e.coin.Spent? then d.(coins := c.coins - {op}, flagged := Remove(c.flagged, op))
    else d.(coins := c.coins[op := Entry(e.coin, false, false)], flagged := Remove(c.flagged, op))
  }

  lemma VisitedStart(c: Cache, willErase: bool)
    ensures Visited(c, c, 0, willErase)
  {
    forall op ensures CleanedAt(c, c, 0, op) {}
  }

  /** Where the cursor stands after i steps: a non-wiping cursor always at the front. */
  function Position(i: nat, willErase: bool): nat { if willErase then i else 0 }

  lemma AtCursor(c: Cache, before: CoinMap, now: Cache, i: nat, willErase: bool)
    requires CacheOk(c, before) && Visited(c, now, i, willErase) && i < |c.flagged|
    ensures var pos := Position(i, willErase);
            && pos < |now.flagged| && now.flagged[pos] == c.flagged[i]
            && c.flagged[i] in c.coins && c.flagged[i] in now.coins
            && now.coins[c.flagged[i]] == c.coins[c.flagged[i]] && c.coins[c.flagged[i]].isDirty
  {
    FlaggedEntry(c, before, i);
    assert !willErase ==> CleanedAt(c, now, i, c.flagged[i]);
  }

  lemma RemoveFront(q: seq<OutPoint>)
    requires Distinct(q) && q != []
    ensures Remove(q, q[0]) == q[1..]
  {
    assert q[0] !in q[1..];
  }

  lemma VisitedStep(c: Cache, before: CoinMap, now: Cache, i: nat, willErase: bool)
    requires CacheOk(c, before) && Visited(c, now, i, willErase) && i < |c.flagged|
    requires Position(i, willErase) < |now.flagged| && now.flagged[Position(i, willErase)] in now.coins
    ensures Visited(c, Advance(now, Position(i, willErase), willErase), i + 1, willErase)
  {
    AtCursor(c, before, now, i, willErase);
    if !willErase {
      var op, next, j := c.flagged[i], Advance(now, 0, willErase), i + 1;
      RemoveFront(now.flagged);
      UsageRemove(now.coins, op);
      UsageUpdate(now.coins, op, Entry(now.coins[op].coin, false, false));
      forall x ensures CleanedAt(c, next, j, x) {
        assert CleanedAt(c, now, i, x);
        PrefixIn(c.flagged, i, x);
      }
    }
  }

  /** After Sync nothing is flagged, nothing spent is left, and the layer shows what it
      showed, now above a parent that shows the same. */
  lemma SyncedOk(c: Cache, before: CoinMap, now: Cache, view: CoinMap)
    requires CacheOk(c, before) && Shows(c, before, view) && AllUnspent(view)
    requires Visited(c, now, |c.flagged|, false)
    ensures now.flagged == [] && now.dirtyCount == 0
    ensures CacheOk(now, view) && Shows(now, view, view)
  {
    var n := |c.flagged|;
    assert c.flagged[..n] == c.flagged;
    forall op ensures EntryOk(now, view, op) && FlagOk(now, op) && ShownAt(now, view, view, op) {
      assert CleanedAt(c, now, n, op);
      assert FlagOk(c, op);
      assert EntryOk(c, before, op);
      assert ShownAt(c, before, view, op);
    }
  }
}
