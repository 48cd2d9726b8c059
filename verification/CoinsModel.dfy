/** One layer of the UTXO cache stack (src/coins.cpp, src/coins.h) on values: its
    entries with their DIRTY and FRESH flags, the list of flagged entries and the two
    running totals, relative to what the layer below shows. */
module CoinsModel {

  datatype OutPoint = OutPoint(txid: int, n: nat)

  /** A coin is spent (or never existed) or holds an output; mem is the dynamic memory
      its script takes. */
  datatype Coin = Spent | Unspent(amount: int, script: int, mem: nat, height: nat, coinBase: bool, unspendable: bool)

  datatype Entry = Entry(coin: Coin, isDirty: bool, isFresh: bool)

  type CoinMap = map<OutPoint, Coin>

  /** cacheCoins, the linked list of flagged entries, m_dirty_count, cachedCoinsUsage. */
  datatype Cache = Cache(coins: map<OutPoint, Entry>, flagged: seq<OutPoint>, dirtyCount: int, usage: int)

  const EMPTY := Cache(map[], [], 0, 0)

  function Mem(c: Coin): nat { if c.Spent? then 0 else c.mem }

  /** A set of unspent coins, read as a total function. */
  function Lookup(m: CoinMap, op: OutPoint): Coin { if op in m then m[op] else Spent }

  function PutCoin(m: CoinMap, op: OutPoint, c: Coin): CoinMap {
    if c.Spent? then m - {op} else m[op := c]
  }

  /** The coin a layer shows, given what the layer below shows. */
  function Through(c: Cache, base: CoinMap, op: OutPoint): Coin {
    if op in c.coins then c.coins[op].coin else Lookup(base, op)
  }

  // ---------- Entry updates ----------

  function Remove(q: seq<OutPoint>, op: OutPoint): (r: seq<OutPoint>)
    ensures op !in q ==> r == q
    ensures forall x :: x in r <==> x in q && x != op
  {
    if q == [] then []
    else if q[0] == op then Remove(q[1..], op)
    else [q[0]] + Remove(q[1..], op)
  }

  function Drop(c: Cache, op: OutPoint): Cache
    requires op in c.coins
  {
    var e := c.coins[op];
    Cache(c.coins - {op}, Remove(c.flagged, op), c.dirtyCount - (if e.isDirty then 1 else 0), c.usage - Mem(e.coin))
  }

  /** The entry for op becomes e; entries enter the list of flagged entries at its end. */
  function Store(c: Cache, op: OutPoint, e: Entry): Cache {
    var was := if op in c.coins then c.coins[op] else Entry(Spent, false, false);
    Cache(c.coins[op := e],
          if e.isDirty then (if op in c.flagged then c.flagged else c.flagged + [op]) else Remove(c.flagged, op),
          c.dirtyCount - (if was.isDirty then 1 else 0) + (if e.isDirty then 1 else 0),
          c.usage - Mem(was.coin) + Mem(e.coin))
  }

  // ---------- Operations ----------

  /** FetchCoin after a miss that the layer below could answer. */
  function Fetch(c: Cache, op: OutPoint, coin: Coin): Cache { Store(c, op, Entry(coin, false, false)) }

  datatype Outcome = LogicError | Done(cache: Cache)

  function AddCoin(c: Cache, op: OutPoint, coin: Coin, possibleOverwrite: bool): Outcome {
    if coin.Unspent? && coin.unspendable then Done(c)
    else
      var was := if op in c.coins then c.coins[op] else Entry(Spent, false, false);
      if !possibleOverwrite && was.coin.Unspent? then LogicError
      else Done(Store(c, op, Entry(coin, true, was.isFresh || (!possibleOverwrite && !was.isDirty))))
  }

  /** SpendCoin on an entry that FetchCoin found. */
  function Spend(c: Cache, op: OutPoint): Cache
    requires op in c.coins
  {
    if c.coins[op].isFresh then Drop(c, op) else Store(c, op, Entry(Spent, true, false))
  }

  /** One entry of BatchWrite in the receiving cache. */
  function Receive(c: Cache, op: OutPoint, e: Entry): Outcome {
    if op !in c.coins then
      if e.isFresh && e.coin.Spent? then Done(c) else Done(Store(c, op, Entry(e.coin, true, e.isFresh)))
    else
      var us := c.coins[op];
      if e.isFresh && us.coin.Unspent? then LogicError
      else if us.isFresh && e.coin.Spent? then Done(Drop(c, op))
      else Done(Store(c, op, Entry(e.coin, true, us.isFresh)))
  }

  function Uncache(c: Cache, op: OutPoint): Cache {
    if op in c.coins && !c.coins[op].isDirty then Drop(c, op) else c
  }

  // ---------- The invariant ----------

  /** Flags say the truth about the layer below: a clean entry repeats it, a fresh one
      has nothing below, and only dirty entries hold a spent coin. */
  ghost predicate EntryOk(c: Cache, base: CoinMap, op: OutPoint) {
    op in c.coins ==>
      var e := c.coins[op];
      && (e.coin.Spent? ==> e.isDirty && !e.isFresh)
      && (e.isFresh ==> e.isDirty && op !in base)
      && (!e.isDirty ==> op in base && e.coin == base[op])
  }

  ghost predicate FlagOk(c: Cache, op: OutPoint) {
    op in c.flagged <==> op in c.coins && c.coins[op].isDirty
  }

  ghost predicate FreshIsDirty(c: Cache, op: OutPoint) {
    op in c.coins && c.coins[op].isFresh ==> c.coins[op].isDirty
  }

  ghost predicate Distinct(q: seq<OutPoint>) { forall i, j :: 0 <= i < j < |q| ==> q[i] != q[j] }

  /** Sum of the dynamic memory of all coins. */
  ghost function Usage(m: map<OutPoint, Entry>): int
    decreases |m|
  {
    if m == map[] then 0 else
      var op :| op in m;
      Mem(m[op].coin) + Usage(m - {op})
  }

  ghost predicate CacheOk(c: Cache, base: CoinMap) {
    && (forall op {:trigger EntryOk(c, base, op)} :: EntryOk(c, base, op))
    && (forall op {:trigger FlagOk(c, op)} :: FlagOk(c, op))
    && Distinct(c.flagged) && c.dirtyCount == |c.flagged|
    && c.usage == Usage(c.coins)
  }

  ghost predicate ShownAt(c: Cache, base: CoinMap, view: CoinMap, op: OutPoint) {
    Lookup(view, op) == Through(c, base, op)
  }

  /** The plain map `view` is what the cache shows above `base`. */
  ghost predicate Shows(c: Cache, base: CoinMap, view: CoinMap) {
    forall op {:trigger ShownAt(c, base, view, op)} :: ShownAt(c, base, view, op)
  }

  ghost predicate AllUnspent(m: CoinMap) { forall op {:trigger m[op]} :: op in m ==> m[op].Unspent? }
}
