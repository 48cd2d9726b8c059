/** The UTXO cache stack of src/coins.cpp: caches that read through to a base, which is
    another cache or the coins database, and write back on Flush and Sync. */
module Coins {
  import opened CoinsModel
  import opened CoinsLemmas
  import opened CoinsWrite

  const NULL_HASH := 0

  datatype Base = OnStore(store: CoinsStore) | OnCache(cache: CoinsCache)

  lemma Overwritten(m: map<OutPoint, Entry>, op: OutPoint, d: Entry, e: Entry)
    ensures m[op := d][op := e] == m[op := e]
  {
  }

  /** The coins database: unspent coins only. */
  class CoinsStore {
    var coins: CoinMap
    var blockHash: int

    constructor ()
      ensures coins == map[] && blockHash == NULL_HASH
    {
      coins, blockHash := map[], NULL_HASH;
    }

    method BatchWrite(child: CoinsCache, willErase: bool, hash: int)
      requires AllUnspent(coins) && CacheOk(child.State(), coins)
      requires Shows(child.State(), coins, child.view) && AllUnspent(child.view)
      modifies this, child`cacheCoins, child`flagged, child`dirtyCount
      ensures coins == child.view && blockHash == hash
      ensures Visited(old(child.State()), child.State(), |old(child.flagged)|, willErase)
    {
      ghost var c, before, i := child.State(), coins, 0;
      DeliveredStart(c, before);
      VisitedStart(c, willErase);
      var pos := 0;
      while pos < |child.flagged|
        invariant i <= |c.flagged| && pos == Position(i, willErase)
        invariant Visited(c, child.State(), i, willErase)
        invariant AllUnspent(coins) && Delivered(c, before, coins, i)
        invariant child.usage == c.usage && child.view == old(child.view)
        decreases |c.flagged| - i
      {
        AtCursor(c, before, child.State(), i, willErase);
        var op := child.flagged[pos];
        var e := child.cacheCoins[op];
        DeliveredStep(c, before, coins, i, op);
        VisitedStep(c, before, child.State(), i, willErase);
        if e.isDirty {
          if e.coin.Spent? {
            coins := coins - {op};
          } else {
            coins := coins[op := e.coin];
          }
        }
        pos := child.NextAndMaybeErase(pos, willErase);
        i := i + 1;
      }
      DeliveredAll(c, before, coins, child.view);
      blockHash := hash;
    }
  }

  class CoinsCache {
    const base: Base
    var cacheCoins: map<OutPoint, Entry>
    var flagged: seq<OutPoint>
    var dirtyCount: int
    var usage: int
    var blockHash: int
    ghost const depth: nat
    ghost const repr: set<object>
    /** The unspent coins this cache shows. */
    ghost var view: CoinMap

    constructor (base: Base)
      requires base.OnStore? ==> AllUnspent(base.store.coins)
      requires base.OnCache? ==> base.cache.Valid()
      ensures Valid() && this.base == base && view == BaseView() && cacheCoins == map[] && blockHash == NULL_HASH
    {
      this.base := base;
      cacheCoins, flagged, dirtyCount, usage, blockHash := map[], [], 0, 0, NULL_HASH;
      depth := if base.OnStore? then 0 else base.cache.depth + 1;
      repr := if base.OnStore? then {this, base.store} else {this} + base.cache.repr;
      view := if base.OnStore? then base.store.coins else base.cache.view;
      new;
      EmptyOk(view);
    }

    ghost function State(): Cache
      reads this
    {
      Cache(cacheCoins, flagged, dirtyCount, usage)
    }

    /** The objects below this cache. */
    ghost function Below(): set<object> {
      match base
      case OnStore(s) => {s}
      case OnCache(c) => c.repr
    }

    /** The stack below is made of distinct objects. */
    ghost predicate Shape()
      decreases depth
    {
      && this !in Below() && repr == {this} + Below()
      && match base
         case OnStore(s) => true
         case OnCache(c) => c.depth < depth && c in c.repr && c.Shape()
    }

    ghost function BaseView(): CoinMap
      requires Shape()
      reads Below()
    {
      match base
      case OnStore(s) => s.coins
      case OnCache(c) => c.view
    }

    ghost function BaseHash(): int
      requires Shape()
      reads Below()
    {
      match base
      case OnStore(s) => s.blockHash
      case OnCache(c) => c.blockHash
    }

    ghost predicate BaseValid()
      requires Shape()
      reads Below()
      decreases depth, 0
    {
      match base
      case OnStore(s) => AllUnspent(s.coins)
      case OnCache(c) => c.Valid()
    }

    ghost predicate LayerOk()
      requires Shape()
      reads this, Below()
    {
      CacheOk(State(), BaseView()) && Shows(State(), BaseView(), view) && AllUnspent(view) && AllUnspent(BaseView())
    }

    ghost predicate Valid()
      reads this, repr
      decreases depth, 1
    {
      Shape() && BaseValid() && LayerOk()
    }

    ghost function BelowViews(): (v: seq<CoinMap>)
      requires Shape()
      reads Below()
      ensures |v| >= 1 && v[0] == BaseView()
      decreases depth, 0
    {
      match base
      case OnStore(s) => [s.coins]
      case OnCache(c) => c.Views()
    }

    /** What every layer shows, top first, the database last. */
    ghost function Views(): (v: seq<CoinMap>)
      requires Shape()
      reads repr
      ensures |v| >= 2 && v[0] == view && v[1..] == BelowViews()
      decreases depth, 1
    {
      [view] + BelowViews()
    }

    /** A change of this layer alone leaves the layers below as they were. */
    twostate lemma LayerChanged()
      requires old(Valid()) && unchanged(repr - {this}) && LayerOk()
      ensures Valid() && BaseView() == old(BaseView()) && Views() == [view] + old(Views())[1..]
    {
    }

    // ---------- Entries and flags ----------

    method SetDirty(op: OutPoint)
      requires op in cacheCoins
      modifies `cacheCoins, `flagged
      ensures cacheCoins == old(cacheCoins)[op := old(cacheCoins[op]).(isDirty := true)]
      ensures flagged == if old(cacheCoins[op].isDirty || cacheCoins[op].isFresh) then old(flagged) else old(flagged) + [op]
    {
      var e := cacheCoins[op];
      if !e.isDirty && !e.isFresh {
        flagged := flagged + [op];
      }
      cacheCoins := cacheCoins[op := e.(isDirty := true)];
    }

    method SetFresh(op: OutPoint)
      requires op in cacheCoins
      modifies `cacheCoins, `flagged
      ensures cacheCoins == old(cacheCoins)[op := old(cacheCoins[op]).(isFresh := true)]
      ensures flagged == if old(cacheCoins[op].isDirty || cacheCoins[op].isFresh) then old(flagged) else old(flagged) + [op]
    {
      var e := cacheCoins[op];
      if !e.isDirty && !e.isFresh {
        flagged := flagged + [op];
      }
      cacheCoins := cacheCoins[op := e.(isFresh := true)];
    }

    method SetClean(op: OutPoint)
      requires op in cacheCoins
      modifies `cacheCoins, `flagged
      ensures cacheCoins == old(cacheCoins)[op := Entry(old(cacheCoins[op].coin), false, false)]
      ensures flagged == if old(cacheCoins[op].isDirty || cacheCoins[op].isFresh) then Remove(old(flagged), op) else old(flagged)
    {
      var e := cacheCoins[op];
      if e.isDirty || e.isFresh {
        flagged := Remove(flagged, op);
      }
      cacheCoins := cacheCoins[op := Entry(e.coin, false, false)];
    }

    /** The entry's destructor takes it off the list. */
    method Erase(op: OutPoint)
      requires op in cacheCoins
      modifies `cacheCoins, `flagged
      ensures cacheCoins == old(cacheCoins) - {op}
      ensures flagged == if old(cacheCoins[op].isDirty || cacheCoins[op].isFresh) then Remove(old(flagged), op) else old(flagged)
    {
      SetClean(op);
      cacheCoins := cacheCoins - {op};
    }

    method NextAndMaybeErase(pos: nat, willErase: bool) returns (next: nat)
      requires pos < |flagged| && flagged[pos] in cacheCoins
      requires cacheCoins[flagged[pos]].isDirty
      modifies `cacheCoins, `flagged, `dirtyCount
      ensures State() == Advance(old(State()), pos, willErase)
      ensures next == if willErase then pos + 1 else pos
    {
      var op := flagged[pos];
      var e := cacheCoins[op];
      next := if willErase then pos + 1 else pos;
      if e.isDirty {
        dirtyCount := dirtyCount - 1;
      }
      if !willErase {
        if e.coin.Spent? {
          Erase(op);
        } else {
          SetClean(op);
        }
      }
    }

    // ---------- Reading ----------

    method PeekCoin(op: OutPoint) returns (coin: Coin)
      requires Valid()
      ensures coin == Lookup(view, op)
      decreases depth
    {
      assert ShownAt(State(), BaseView(), view, op);
      if op in cacheCoins {
        return cacheCoins[op].coin;
      }
      match base
      case OnStore(s) => coin := Lookup(s.coins, op);
      case OnCache(c) => coin := c.PeekCoin(op);
    }

    method FetchCoinFromBase(op: OutPoint) returns (coin: Coin)
      requires Valid()
      modifies repr
      ensures Valid() && Views() == old(Views()) && State() == old(State()) && blockHash == old(blockHash)
      ensures view == old(view) && BaseView() == old(BaseView())
      ensures coin == Lookup(BaseView(), op)
      decreases depth, 0
    {
      match base
      case OnStore(s) => coin := Lookup(s.coins, op);
      case OnCache(c) => coin := c.GetCoin(op);
    }

    method InsertClean(op: OutPoint, coin: Coin)
      requires Valid() && op !in cacheCoins && op in BaseView() && coin == BaseView()[op]
      modifies `cacheCoins, `usage
      ensures Valid() && Views() == old(Views()) && BaseView() == old(BaseView())
      ensures State() == Fetch(old(State()), op, coin)
    {
      FetchOk(State(), BaseView(), view, op);
      assert FlagOk(State(), op);
      cacheCoins := cacheCoins[op := Entry(coin, false, false)];
      usage := usage + Mem(coin);
      LayerChanged();
    }

    method FetchCoin(op: OutPoint) returns (found: bool)
      requires Valid()
      modifies repr
      ensures Valid() && Views() == old(Views()) && blockHash == old(blockHash)
      ensures view == old(view) && BaseView() == old(BaseView())
      ensures found <==> op in cacheCoins
      ensures found ==> cacheCoins[op].coin == Lookup(view, op)
      ensures found <==> op in view || op in old(cacheCoins)
      ensures State() == if op !in old(cacheCoins) && found then Fetch(old(State()), op, Lookup(view, op)) else old(State())
      decreases depth, 1
    {
      assert ShownAt(State(), BaseView(), view, op);
      if op !in cacheCoins {
        var coin := FetchCoinFromBase(op);
        if coin.Spent? {
          return false;
        }
        InsertClean(op, coin);
      }
      return true;
    }

    method GetCoin(op: OutPoint) returns (coin: Coin)
      requires Valid()
      modifies repr
      ensures Valid() && Views() == old(Views()) && blockHash == old(blockHash)
      ensures view == old(view) && BaseView() == old(BaseView())
      ensures coin == Lookup(view, op)
      decreases depth, 2
    {
      var found := FetchCoin(op);
      coin := if found then cacheCoins[op].coin else Spent;
    }

    method AccessCoin(op: OutPoint) returns (coin: Coin)
      requires Valid()
      modifies repr
      ensures Valid() && Views() == old(Views())
      ensures coin == Lookup(view, op)
    {
      var found := FetchCoin(op);
      coin := if found then cacheCoins[op].coin else Spent;
    }

    method HaveCoin(op: OutPoint) returns (have: bool)
      requires Valid()
      modifies repr
      ensures Valid() && Views() == old(Views())
      ensures have <==> op in view
    {
      var found := FetchCoin(op);
      have := found && cacheCoins[op].coin.Unspent?;
    }

    method HaveCoinInCache(op: OutPoint) returns (have: bool)
      requires Valid()
      ensures have ==> op in view
      ensures op in view && !have ==> op in BaseView()
    {
      assert ShownAt(State(), BaseView(), view, op);
      have := op in cacheCoins && cacheCoins[op].coin.Unspent?;
    }

    // ---------- Changing coins ----------

    /** Refuses to overwrite an unspent coin unless told to; otherwise puts the coin. The
        caller promises that without possibleOverwrite no unspent coin lies hidden below. */
    method AddCoin(op: OutPoint, coin: Coin, possibleOverwrite: bool) returns (ok: bool)
      requires Valid() && coin.Unspent?
      requires !coin.unspendable && !possibleOverwrite && op !in cacheCoins ==> op !in BaseView()
      modifies `cacheCoins, `flagged, `dirtyCount, `usage, `view
      ensures Valid() && Views() == [view] + old(Views())[1..]
      ensures ok <==> coin.unspendable || possibleOverwrite || op !in old(view)
      ensures view == if ok && !coin.unspendable then old(view)[op := coin] else old(view)
      ensures !ok ==> State() == old(State())
    {
      assert ShownAt(State(), BaseView(), view, op);
      if coin.unspendable {
        return true;
      }
      ghost var c := State();
      var was := if op in cacheCoins then cacheCoins[op] else Entry(Spent, false, false);
      if !possibleOverwrite && was.coin.Unspent? {
        return false;
      }
      var isFresh := !possibleOverwrite && !was.isDirty;
      assert EntryOk(c, BaseView(), op);
      AddCoinOk(c, BaseView(), op, coin, possibleOverwrite);
      AddCoinShows(c, BaseView(), view, op, coin, possibleOverwrite);
      PutEntry(op, coin, isFresh);
      view := view[op := coin];
      LayerChanged();
      return true;
    }

    /** The tail of AddCoin: account for the old entry, set the coin and the flags. */
    method PutEntry(op: OutPoint, coin: Coin, isFresh: bool)
      requires FlagOk(State(), op) && FreshIsDirty(State(), op)
      modifies `cacheCoins, `flagged, `dirtyCount, `usage
      ensures var was := if op in old(cacheCoins) then old(cacheCoins[op]) else Entry(Spent, false, false);
              State() == Store(old(State()), op, Entry(coin, true, was.isFresh || isFresh))
    {
      ghost var m := cacheCoins;
      var was := if op in cacheCoins then cacheCoins[op] else Entry(Spent, false, false);
      if op in cacheCoins {
        dirtyCount := dirtyCount - if was.isDirty then 1 else 0;
        usage := usage - Mem(was.coin);
      }
      cacheCoins := cacheCoins[op := was.(coin := coin)];
      SetDirty(op);
      Overwritten(m, op, was.(coin := coin), Entry(coin, true, was.isFresh));
      dirtyCount := dirtyCount + 1;
      if isFresh {
        SetFresh(op);
        Overwritten(m, op, Entry(coin, true, was.isFresh), Entry(coin, true, true));
      }
      usage := usage + Mem(coin);
    }

    /** Reports success for a cached entry even when it is already spent. */
    method SpendCoin(op: OutPoint) returns (found: bool, moved: Coin)
      requires Valid()
      modifies repr
      ensures Valid() && Views() == [view] + old(Views())[1..]
      ensures view == old(view) - {op}
      ensures found <==> op in old(view) || op in old(cacheCoins)
      ensures moved == Lookup(old(view), op)
      ensures State() == if !found then old(State())
                         else if op in old(cacheCoins) then Spend(old(State()), op)
                         else Spend(Fetch(old(State()), op, moved), op)
    {
      found := FetchCoin(op);
      moved := Spent;
      if !found {
        return;
      }
      moved := cacheCoins[op].coin;
      SpendEntry(op);
    }

    method ClearEntry(op: OutPoint)
      requires op in cacheCoins && FlagOk(State(), op) && FreshIsDirty(State(), op)
      modifies `cacheCoins, `flagged, `dirtyCount, `usage
      ensures State() == Spend(old(State()), op)
    {
      var e := cacheCoins[op];
      dirtyCount := dirtyCount - if e.isDirty then 1 else 0;
      usage := usage - Mem(e.coin);
      if e.isFresh {
        Erase(op);
      } else {
        SetDirty(op);
        dirtyCount := dirtyCount + 1;
        Overwritten(old(cacheCoins), op, e.(isDirty := true), Entry(Spent, true, false));
        cacheCoins := cacheCoins[op := cacheCoins[op].(coin := Spent)];
      }
    }

    method SpendEntry(op: OutPoint)
      requires Valid() && op in cacheCoins
      modifies `cacheCoins, `flagged, `dirtyCount, `usage, `view
      ensures Valid() && Views() == [view] + old(Views())[1..] && view == old(view) - {op}
      ensures State() == Spend(old(State()), op)
    {
      SpendOk(State(), BaseView(), view, op);
      assert EntryOk(State(), BaseView(), op);
      assert FlagOk(State(), op);
      ClearEntry(op);
      view := view - {op};
      LayerChanged();
    }

    method Uncache(op: OutPoint)
      requires Valid()
      modifies `cacheCoins, `flagged, `usage
      ensures Valid() && Views() == old(Views())
      ensures State() == CoinsModel.Uncache(old(State()), op)
      ensures op in cacheCoins <==> op in old(cacheCoins) && old(cacheCoins)[op].isDirty
    {
      UncacheOk(State(), BaseView(), view, op);
      assert EntryOk(State(), BaseView(), op);
      assert FlagOk(State(), op);
      if op in cacheCoins && !cacheCoins[op].isDirty {
        usage := usage - Mem(cacheCoins[op].coin);
        Erase(op);
      }
      LayerChanged();
    }

    /** Forgets every change: the cache shows its base again. */
    method Reset()
      requires Valid()
      modifies this
      ensures Valid() && view == BaseView() && Views() == [view] + old(Views())[1..]
      ensures State() == EMPTY && blockHash == NULL_HASH
    {
      EmptyOk(BaseView());
      cacheCoins, flagged, usage, dirtyCount, blockHash := map[], [], 0, 0, NULL_HASH;
      view := BaseView();
      LayerChanged();
    }

    /** The hash set here or, failing that, the one the layers below report. */
    ghost function Best(): int
      requires Shape()
      reads repr
      decreases depth
    {
      if blockHash != NULL_HASH then blockHash
      else match base
           case OnStore(s) => s.blockHash
           case OnCache(c) => c.Best()
    }

    method GetBestBlock() returns (hash: int)
      requires Valid()
      modifies repr
      ensures Valid() && Views() == old(Views()) && State() == old(State())
      ensures view == old(view) && hash == Best() == old(Best())
      decreases depth
    {
      if blockHash == NULL_HASH {
        match base
        case OnStore(s) => blockHash := s.blockHash;
        case OnCache(c) => blockHash := c.GetBestBlock();
      }
      return blockHash;
    }

    method SetBestBlock(hash: int)
      requires Valid()
      modifies `blockHash
      ensures Valid() && Views() == old(Views()) && State() == old(State()) && blockHash == hash
    {
      blockHash := hash;
      LayerChanged();
    }

    // ---------- Writing back ----------

    /** One entry of BatchWrite; fails on a misapplied FRESH flag. */
    method ReceiveEntry(op: OutPoint, e: Entry) returns (ok: bool)
      requires e.isDirty && FlagOk(State(), op) && FreshIsDirty(State(), op)
      modifies `cacheCoins, `flagged, `dirtyCount, `usage
      ensures ok <==> Receive(old(State()), op, e).Done?
      ensures State() == if ok then Receive(old(State()), op, e).cache else old(State())
    {
      if op !in cacheCoins {
        if !(e.isFresh && e.coin.Spent?) {
          PutEntry(op, e.coin, e.isFresh);
        }
        return true;
      }
      var us := cacheCoins[op];
      if e.isFresh && us.coin.Unspent? {
        return false;
      }
      usage := usage - Mem(us.coin);
      if us.isFresh && e.coin.Spent? {
        dirtyCount := dirtyCount - if us.isDirty then 1 else 0;
        Erase(op);
      } else {
        cacheCoins := cacheCoins[op := us.(coin := e.coin)];
        usage := usage + Mem(e.coin);
        if !us.isDirty {
          SetDirty(op);
          Overwritten(old(cacheCoins), op, us.(coin := e.coin), Entry(e.coin, true, us.isFresh));
          dirtyCount := dirtyCount + 1;
        }
      }
      return true;
    }

    /** Takes over every flagged entry of a child and then shows what the child shows;
        the child's FRESH flags never make it throw. */
    method BatchWrite(child: CoinsCache, willErase: bool, hash: int) returns (ok: bool)
      requires Valid() && child !in repr
      requires CacheOk(child.State(), view) && Shows(child.State(), view, child.view) && AllUnspent(child.view)
      modifies this, child`cacheCoins, child`flagged, child`dirtyCount
      ensures ok && Valid() && blockHash == hash
      ensures view == child.view && Views() == [view] + old(Views())[1..]
      ensures Visited(old(child.State()), child.State(), |old(child.flagged)|, willErase)
    {
      ghost var c, before, i := child.State(), view, 0;
      DeliveredStart(c, before);
      VisitedStart(c, willErase);
      var pos := 0;
      while pos < |child.flagged|
        invariant i <= |c.flagged| && pos == Position(i, willErase)
        invariant Visited(c, child.State(), i, willErase)
        invariant LayerOk() && Delivered(c, before, view, i)
        invariant child.view == old(child.view) && unchanged(repr - {this})
        decreases |c.flagged| - i
      {
        ok, pos := TakeNext(child, pos, willErase, c, before, i);
        i := i + 1;
      }
      DeliveredAll(c, before, view, child.view);
      blockHash := hash;
      LayerChanged();
      return true;
    }

    /** One round of the loop of BatchWrite, at the i-th flagged entry the child had. */
    method TakeNext(child: CoinsCache, pos: nat, willErase: bool, ghost c: Cache, ghost before: CoinMap, ghost i: nat)
      returns (ok: bool, next: nat)
      requires Shape() && LayerOk() && child !in repr && pos < |child.flagged|
      requires CacheOk(c, before) && AllUnspent(before) && i < |c.flagged| && pos == Position(i, willErase)
      requires Visited(c, child.State(), i, willErase) && Delivered(c, before, view, i)
      modifies `cacheCoins, `flagged, `dirtyCount, `usage, `view, child`cacheCoins, child`flagged, child`dirtyCount
      ensures ok && LayerOk() && next == Position(i + 1, willErase) && child.view == old(child.view)
      ensures Visited(c, child.State(), i + 1, willErase) && Delivered(c, before, view, i + 1)
    {
      AtCursor(c, before, child.State(), i, willErase);
      NextDeliverable(c, before, view, i);
      var op := child.flagged[pos];
      var e := child.cacheCoins[op];
      DeliveredStep(c, before, view, i, op);
      VisitedStep(c, before, child.State(), i, willErase);
      ok := ReceiveNext(op, e);
      next := child.NextAndMaybeErase(pos, willErase);
    }

    method ReceiveNext(op: OutPoint, e: Entry) returns (ok: bool)
      requires Shape() && LayerOk() && e.isDirty && Deliverable(view, op, e)
      modifies `cacheCoins, `flagged, `dirtyCount, `usage, `view
      ensures ok && LayerOk() && view == PutCoin(old(view), op, e.coin)
    {
      ReceiveOk(State(), BaseView(), view, op, e);
      assert EntryOk(State(), BaseView(), op);
      assert FlagOk(State(), op);
      ok := ReceiveEntry(op, e);
      view := PutCoin(view, op, e.coin);
    }

    method WriteToBase(willErase: bool) returns (ok: bool)
      requires Valid() && (base.OnStore? ==> blockHash != NULL_HASH)
      modifies repr
      ensures ok && BaseValid() && view == old(view) == BaseView() && blockHash == old(blockHash)
      ensures BelowViews() == [view] + old(BelowViews())[1..]
      ensures Visited(old(State()), State(), |old(flagged)|, willErase)
      ensures BaseHash() == blockHash
    {
      match base
      case OnStore(s) =>
        s.BatchWrite(this, willErase, blockHash);
        ok := true;
      case OnCache(c) =>
        ok := c.BatchWrite(this, willErase, blockHash);
    }

    /** The layer below now shows what this cache shows, and the cache is empty. */
    method Flush() returns (ok: bool)
      requires Valid() && (base.OnStore? ==> blockHash != NULL_HASH)
      modifies repr
      ensures ok && Valid() && State() == EMPTY && blockHash == old(blockHash) == BaseHash()
      ensures view == old(view) && Views() == [view, view] + old(Views())[2..]
    {
      ok := WriteToBase(true);
      Clear();
    }

    /** cacheCoins.clear() once the base shows the same coins. */
    method Clear()
      requires Shape() && BaseValid() && BaseView() == view && AllUnspent(view) && dirtyCount == 0
      modifies `cacheCoins, `flagged, `usage
      ensures Valid() && State() == EMPTY && BelowViews() == old(BelowViews())
    {
      EmptyOk(view);
      cacheCoins, flagged, usage := map[], [], 0;
      assert State() == EMPTY && BaseView() == view;
    }

    /** As Flush, but unspent entries stay in the cache, all clean. */
    method Sync() returns (ok: bool)
      requires Valid() && (base.OnStore? ==> blockHash != NULL_HASH)
      modifies repr
      ensures ok && Valid() && flagged == [] && dirtyCount == 0 && blockHash == old(blockHash) == BaseHash()
      ensures view == old(view) && Views() == [view, view] + old(Views())[2..]
      ensures Visited(old(State()), State(), |old(flagged)|, false)
    {
      ghost var c, before := State(), BaseView();
      ok := WriteToBase(false);
      SyncedOk(c, before, State(), view);
      if flagged != [] {
        ok := false;
      }
    }
  }
}
