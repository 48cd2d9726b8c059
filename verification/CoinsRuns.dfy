/** Whole runs on a stack of caches against the plain picture: one map of unspent coins
    per layer. */
module CoinsRuns {
  import opened CoinsModel
  import opened CoinsLemmas
  import opened Coins

  datatype Op =
    | Get(level: nat, op: OutPoint)
    | Add(op: OutPoint, coin: Coin, possibleOverwrite: bool)
    | Spend(op: OutPoint)
    | Uncache(level: nat, op: OutPoint)
    | Flush(level: nat, hash: int)
    | Sync(level: nat, hash: int)

  /** What callers promise: coins are added and spent on top of the stack only, an
      overwrite is announced, and a block hash is set before writing back. */
  predicate Legal(v: seq<CoinMap>, o: Op) {
    |v| >= 2 &&
    match o
    case Get(k, _) => k < |v| - 1
    case Add(op, coin, over) => coin.Unspent? && (coin.unspendable || over || op !in v[0])
    case Spend(_) => true
    case Uncache(k, _) => k < |v| - 1
    case Flush(k, h) => k < |v| - 1 && h != NULL_HASH
    case Sync(k, h) => k < |v| - 1 && h != NULL_HASH
  }

  /** The same operation on plain maps: only Add and Spend change a set of coins, and
      Flush and Sync copy a layer to the one below. */
  function Plain(v: seq<CoinMap>, o: Op): (r: seq<CoinMap>)
    requires Legal(v, o)
    ensures |r| == |v|
  {
    match o
    case Get(_, _) => v
    case Add(op, coin, _) => if coin.unspendable then v else v[0 := v[0][op := coin]]
    case Spend(op) => v[0 := v[0] - {op}]
    case Uncache(_, _) => v
    case Flush(k, _) => v[k + 1 := v[k]]
    case Sync(k, _) => v[k + 1 := v[k]]
  }

  function Answer(v: seq<CoinMap>, o: Op): Coin
    requires Legal(v, o)
  {
    match o
    case Get(k, op) => Lookup(v[k], op)
    case Spend(op) => Lookup(v[0], op)
    case _ => Coin.Spent
  }

  predicate LegalRun(v: seq<CoinMap>, ops: seq<Op>)
    decreases |ops|
  {
    ops == [] || (Legal(v, ops[0]) && LegalRun(Plain(v, ops[0]), ops[1..]))
  }

  function PlainRun(v: seq<CoinMap>, ops: seq<Op>): seq<CoinMap>
    requires LegalRun(v, ops)
    decreases |ops|
  {
    if ops == [] then v else PlainRun(Plain(v, ops[0]), ops[1..])
  }

  function Answers(v: seq<CoinMap>, ops: seq<Op>): seq<Coin>
    requires LegalRun(v, ops)
    decreases |ops|
  {
    if ops == [] then [] else [Answer(v, ops[0])] + Answers(Plain(v, ops[0]), ops[1..])
  }

  method GetAt(c: CoinsCache, level: nat, op: OutPoint) returns (coin: Coin)
    requires c.Valid() && level < |c.Views()| - 1
    modifies c.repr
    ensures c.Valid() && c.Views() == old(c.Views())
    ensures coin == Lookup(c.Views()[level], op)
    decreases level
  {
    if level == 0 {
      coin := c.GetCoin(op);
    } else {
      var below := c.base.cache;
      coin := GetAt(below, level - 1, op);
    }
  }

  method UncacheAt(c: CoinsCache, level: nat, op: OutPoint)
    requires c.Valid() && level < |c.Views()| - 1
    modifies c.repr
    ensures c.Valid() && c.Views() == old(c.Views())
    decreases level
  {
    if level == 0 {
      c.Uncache(op);
    } else {
      var below := c.base.cache;
      UncacheAt(below, level - 1, op);
    }
  }

  method WriteAt(c: CoinsCache, level: nat, hash: int, willErase: bool) returns (ok: bool)
    requires c.Valid() && level < |c.Views()| - 1 && hash != NULL_HASH
    modifies c.repr
    ensures ok && c.Valid() && c.Views() == old(c.Views())[level + 1 := old(c.Views())[level]]
    decreases level
  {
    if level == 0 {
      c.SetBestBlock(hash);
      if willErase {
        ok := c.Flush();
      } else {
        ok := c.Sync();
      }
    } else {
      var below := c.base.cache;
      ok := WriteAt(below, level - 1, hash, willErase);
    }
  }

  method Step(c: CoinsCache, o: Op) returns (coin: Coin)
    requires c.Valid() && Legal(c.Views(), o)
    modifies c.repr
    ensures c.Valid() && c.Views() == Plain(old(c.Views()), o)
    ensures coin == Answer(old(c.Views()), o)
  {
    coin := Coin.Spent;
    match o
    case Get(k, op) => coin := GetAt(c, k, op);
    case Add(op, added, over) =>
      assert ShownAt(c.State(), c.BaseView(), c.view, op);
      var ok := c.AddCoin(op, added, over);
    case Spend(op) =>
      var found;
      found, coin := c.SpendCoin(op);
    case Uncache(k, op) => UncacheAt(c, k, op);
    case Flush(k, h) => var ok := WriteAt(c, k, h, true);
    case Sync(k, h) => var ok := WriteAt(c, k, h, false);
  }

  /** Whatever mixture of reads, changes, evictions and write-backs, at whatever level:
      the stack shows what the plain maps show and gives the same answers. */
  method RunStack(c: CoinsCache, ops: seq<Op>) returns (coins: seq<Coin>)
    requires c.Valid() && LegalRun(c.Views(), ops)
    modifies c.repr
    ensures c.Valid() && c.Views() == PlainRun(old(c.Views()), ops)
    ensures coins == Answers(old(c.Views()), ops)
  {
    coins := [];
    var i := 0;
    while i < |ops|
      invariant 0 <= i <= |ops| && c.Valid()
      invariant LegalRun(c.Views(), ops[i..])
      invariant PlainRun(c.Views(), ops[i..]) == PlainRun(old(c.Views()), ops)
      invariant coins + Answers(c.Views(), ops[i..]) == Answers(old(c.Views()), ops)
    {
      assert ops[i..][0] == ops[i] && ops[i..][1..] == ops[i + 1..];
      var coin := Step(c, ops[i]);
      coins := coins + [coin];
      i := i + 1;
    }
  }

  /** Adding without announcing an overwrite and then spending removes the coin exactly
      when no unspent coin was hidden below; otherwise the spend is lost. */
  lemma AddThenSpend(c: Cache, base: CoinMap, op: OutPoint, coin: Coin, possibleOverwrite: bool)
    requires CacheOk(c, base) && AllUnspent(base) && coin.Unspent? && !coin.unspendable
    requires AddCoin(c, op, coin, possibleOverwrite).Done?
    ensures var d := AddCoin(c, op, coin, possibleOverwrite).cache;
            op in d.coins &&
            (Through(CoinsModel.Spend(d, op), base, op).Spent? <==> possibleOverwrite || op in c.coins || op !in base)
  {
    assert EntryOk(c, base, op);
  }

  /** The failing side exists: over a base that has the coin, an empty cache takes the new coin
      as FRESH, and spending it brings the coin of the base back. */
  lemma AddCoinResurrects(op: OutPoint, below: Coin, coin: Coin)
    requires below.Unspent? && coin.Unspent? && !coin.unspendable
    ensures var base := map[op := below]; var d := AddCoin(EMPTY, op, coin, false);
            && CacheOk(EMPTY, base) && d.Done? && op in d.cache.coins
            && Through(CoinsModel.Spend(d.cache, op), base, op) == below
  {
    EmptyOk(map[op := below]);
  }

  /** A coin of the base can be spent twice with success; the second time there is nothing to move. */
  method SpendTwice(c: CoinsCache, op: OutPoint) returns (first: bool, second: bool, moved: Coin)
    requires c.Valid() && op in c.BaseView() && op !in c.cacheCoins
    modifies c.repr
    ensures c.Valid() && c.view == old(c.view) - {op}
    ensures first && second && moved.Spent?
  {
    assert ShownAt(c.State(), c.BaseView(), c.view, op);
    first, moved := c.SpendCoin(op);
    second, moved := c.SpendCoin(op);
  }
}
