/** A block being put together from a compact block message (src/blockencodings.cpp). */
module CompactBlockBuild {
  import opened CompactBlock
  import opened CompactBlockIds
  import opened CompactBlockFill

  const NO_HEADER := 0

  // ---------- Assembly ----------

  /** Slots in order, with missing transactions in the gaps; TooFew when not enough are given. */
  datatype Assembly = TooFew | Assembled(vtx: seq<Tx>, used: nat)

  function Assemble(s: seq<Slot>, missing: seq<Tx>): Assembly {
    if s == [] then Assembled([], 0)
    else
      var k := |s| - 1;
      match Assemble(s[..k], missing)
      case TooFew => TooFew
      case Assembled(vtx, used) =>
        match s[k]
        case Have(tx) => Assembled(vtx + [tx], used)
        case Empty => if used < |missing| then Assembled(vtx + [missing[used]], used + 1) else TooFew
  }

  lemma {:induction false} AssembleShape(s: seq<Slot>, missing: seq<Tx>)
    ensures Assemble(s, missing).Assembled? <==> |s| - Filled(s) <= |missing|
    ensures Assemble(s, missing).Assembled? ==> Assemble(s, missing).used == |s| - Filled(s) && |Assemble(s, missing).vtx| == |s|
  {
    if s != [] {
      AssembleShape(s[..|s| - 1], missing);
    }
  }

  /** A failed prefix fails the whole. */
  lemma {:induction false} AssemblePrefix(s: seq<Slot>, missing: seq<Tx>, i: nat)
    requires i <= |s| && Assemble(s[..i], missing).TooFew?
    ensures Assemble(s, missing).TooFew?
    decreases |s|
  {
    if i < |s| {
      assert s[..|s| - 1][..i] == s[..i];
      AssemblePrefix(s[..|s| - 1], missing, i);
    } else {
      assert s[..i] == s;
    }
  }

  /** Slot i is the first gap for which no missing transaction is left. */
  ghost predicate Stuck(s: seq<Slot>, missing: seq<Tx>, i: nat) {
    i < |s| && Assemble(s[..i], missing).Assembled? && Assemble(s[..i + 1], missing).TooFew?
  }

  /** The slots before i have been moved out. */
  function Emptied(s: seq<Slot>, i: nat): seq<Slot> { seq(|s|, j requires 0 <= j < |s| => if j < i then Empty else s[j]) }

  // ---------- The class ----------

  /** What InitData leaves behind: prefilled transactions in place, short ids one to one on
      the other slots, and only transactions with the right short id in those. */
  ghost predicate Initialised(msg: Message, shortId: int -> ShortId, known: set<Tx>, base: seq<Slot>, m: map<ShortId, nat>, w: Work, start: int) {
    && |base| == BlockTxCount(msg) && Placed(base, msg.prefilled, |msg.prefilled|) && Mapped(base, msg.shortIds, m)
    && Good(w, m, shortId, base, known, start)
  }

  /** A message that is refused whatever the state of the object. */
  ghost predicate Malformed(msg: Message) {
    || msg.header == NO_HEADER || BlockTxCount(msg) == 0 || BlockTxCount(msg) > MAX_COUNT
    || exists i {:trigger PrefilledOk(msg.prefilled, |msg.shortIds|, i)} ::
         0 <= i < |msg.prefilled| && !PrefilledOk(msg.prefilled, |msg.shortIds|, i)
  }

  class PartiallyDownloadedBlock {
    var header: int
    var txnAvailable: seq<Slot>
    var prefilledCount: nat
    var mempoolCount: int
    var extraCount: int

    constructor ()
      ensures header == NO_HEADER && txnAvailable == [] && prefilledCount == 0 && mempoolCount == 0 && extraCount == 0
    {
      header, txnAvailable, prefilledCount, mempoolCount, extraCount := NO_HEADER, [], 0, 0, 0;
    }

    /** The first loop of InitData. */
    method PlacePrefilled(ps: seq<Prefilled>, ids: nat) returns (ok: bool)
      modifies `txnAvailable
      ensures ok <==> forall i {:trigger PrefilledOk(ps, ids, i)} :: 0 <= i < |ps| ==> PrefilledOk(ps, ids, i)
      ensures ok ==> |txnAvailable| == ids + |ps| && Placed(txnAvailable, ps, |ps|)
    {
      txnAvailable := seq(ids + |ps|, _ => Empty);
      FilledNone(txnAvailable);
      forall k ensures PlacedAt(txnAvailable, ps, 0, k) {}
      forall j ensures FreeAt(txnAvailable, ps, 0, j) {}
      var last := -1;
      for i := 0 to |ps|
        invariant last == if i == 0 then -1 else Place(ps, i - 1)
        invariant |txnAvailable| == ids + |ps| && Placed(txnAvailable, ps, i)
        invariant i == 0 ==> forall j :: 0 <= j < |txnAvailable| ==> txnAvailable[j].Empty?
        invariant forall k {:trigger PrefilledOk(ps, ids, k)} :: 0 <= k < i ==> PrefilledOk(ps, ids, k)
      {
        if ps[i].tx.isNull {
          assert !PrefilledOk(ps, ids, i);
          return false;
        }
        last := last + ps[i].index + 1;
        assert last == Place(ps, i);
        if last > MAX_INDEX || last > ids + i {
          assert !PrefilledOk(ps, ids, i);
          return false;
        }
        PlaceNext(txnAvailable, ps, i);
        txnAvailable := txnAvailable[last := Have(ps[i].tx)];
      }
      return true;
    }

    /** A message read from the network has at most MAX_INDEX transactions, and slot numbers are
        kept in 16 bits. Rejects malformed messages, then lays out the slots and fills what the mempool and
        the extra transactions offer. */
    method InitData(msg: Message, shortId: int -> ShortId, pool: seq<Tx>, extra: seq<Tx>, crowded: nat -> bool, ghost known: set<Tx>)
      returns (status: Status, ghost base: seq<Slot>, ghost m: map<ShortId, nat>, ghost have: seq<bool>)
      requires BlockTxCount(msg) <= MAX_INDEX || BlockTxCount(msg) > MAX_COUNT
      requires (forall t :: t in pool ==> t in known) && (forall t :: t in extra ==> t in known)
      modifies this
      ensures status == INVALID <==> Malformed(msg) || old(header) != NO_HEADER || old(txnAvailable) != []
      ensures status == OK ==>
                && header == msg.header && prefilledCount == |msg.prefilled|
                && Initialised(msg, shortId, known, base, m, Work(txnAvailable, have, mempoolCount, extraCount), old(mempoolCount))
                && Work(txnAvailable, have, mempoolCount, extraCount) == AfterExtra(base, m, shortId, pool, extra, old(mempoolCount), old(extraCount))
      ensures status == OK ==> Distinct(msg.shortIds) && Calm(crowded, |msg.shortIds|)
      ensures status == FAILED ==> !(Distinct(msg.shortIds) && Calm(crowded, |msg.shortIds|))
    {
      base, m, have := [], map[], [];
      if msg.header == NO_HEADER || (msg.shortIds == [] && msg.prefilled == []) {
        return INVALID, base, m, have;
      }
      if |msg.shortIds| + |msg.prefilled| > MAX_COUNT {
        return INVALID, base, m, have;
      }
      if header != NO_HEADER || txnAvailable != [] {
        return INVALID, base, m, have;
      }
      header := msg.header;
      var ok := PlacePrefilled(msg.prefilled, |msg.shortIds|);
      if !ok {
        return INVALID, base, m, have;
      }
      prefilledCount := |msg.prefilled|;
      base := txnAvailable;
      assert base[..|base|] == base;
      var idMap;
      status, idMap := MapShortIds(txnAvailable, msg.shortIds, crowded);
      m := idMap;
      if status != OK {
        return status, base, m, have;
      }
      var w := StartWork(txnAvailable, mempoolCount, extraCount);
      StartGood(base, m, shortId, known, mempoolCount, extraCount);
      MappedIntoFree(base, msg.shortIds, m);
      w := MatchAll(w, idMap, shortId, pool, false, base, known, old(mempoolCount));
      w := MatchAll(w, idMap, shortId, extra, true, base, known, old(mempoolCount));
      txnAvailable, mempoolCount, extraCount := w.slots, w.mempoolCount, w.extraCount;
      have := w.have;
    }

    method IsTxAvailable(index: nat) returns (available: bool)
      requires header != NO_HEADER ==> index < |txnAvailable|
      ensures available <==> header != NO_HEADER && index < |txnAvailable| && txnAvailable[index].Have?
    {
      if header == NO_HEADER {
        return false;
      }
      return txnAvailable[index] != Empty;
    }

    /** Moves the slots out into a block; can succeed only once. */
    method FillBlock(missing: seq<Tx>, mutated: seq<Tx> -> bool) returns (status: Status, vtx: seq<Tx>)
      modifies `header, `txnAvailable
      ensures old(header) == NO_HEADER ==> status == INVALID && header == NO_HEADER && txnAvailable == old(txnAvailable)
      ensures old(header) != NO_HEADER ==>
                match Assemble(old(txnAvailable), missing)
                case TooFew =>
                  && status == INVALID && header == old(header)
                  && exists i {:trigger Stuck(old(txnAvailable), missing, i)} ::
                       Stuck(old(txnAvailable), missing, i) && txnAvailable == Emptied(old(txnAvailable), i)
                case Assembled(whole, used) =>
                  && header == NO_HEADER && txnAvailable == [] && vtx == whole
                  && status == if used != |missing| then INVALID else if mutated(whole) then FAILED else OK
    {
      vtx := [];
      if header == NO_HEADER {
        return INVALID, vtx;
      }
      ghost var slots := txnAvailable;
      var offset := 0;
      for i := 0 to |txnAvailable|
        invariant header == old(header) && txnAvailable == Emptied(slots, i)
        invariant Assemble(slots[..i], missing) == Assembled(vtx, offset)
      {
        assert slots[..i + 1][..i] == slots[..i] && txnAvailable[i] == slots[i];
        if txnAvailable[i] == Empty {
          if offset >= |missing| {
            AssemblePrefix(slots, missing, i + 1);
            assert Stuck(slots, missing, i);
            return INVALID, vtx;
          }
          vtx := vtx + [missing[offset]];
          offset := offset + 1;
        } else {
          vtx := vtx + [txnAvailable[i].tx];
          txnAvailable := txnAvailable[i := Empty];
        }
      }
      assert slots[..|slots|] == slots;
      header := NO_HEADER;
      txnAvailable := [];
      if |missing| != offset {
        return INVALID, vtx;
      }
      if mutated(vtx) {
        return FAILED, vtx;
      }
      return OK, vtx;
    }
  }

  lemma MappedIntoFree(base: seq<Slot>, ids: seq<ShortId>, m: map<ShortId, nat>)
    requires Mapped(base, ids, m)
    ensures IntoFree(m, base)
  {
    forall x | x in m ensures m[x] < |base| && base[m[x]].Empty? { assert KeyOk(base, ids, |ids|, m, x); }
  }
}
