/** From the announcement of a block to the block: everything at hand is found, and the rest is
    exactly what has to be asked for (src/blockencodings.cpp). */
module CompactBlockRelay {
  import opened CompactBlock
  import opened CompactBlockIds
  import opened CompactBlockFill
  import opened CompactBlockBuild
  import opened CompactBlockRebuild

  // ---------- Everything at hand is found ----------

  ghost predicate HomeAt(vtx: seq<Tx>, shortId: int -> ShortId, m: map<ShortId, nat>, j: int) {
    1 <= j < |vtx| ==> shortId(vtx[j].wtxid) in m && m[shortId(vtx[j].wtxid)] == j
  }

  ghost predicate KeyAt(vtx: seq<Tx>, shortId: int -> ShortId, m: map<ShortId, nat>, x: ShortId) {
    x in m ==> 1 <= m[x] < |vtx| && shortId(vtx[m[x]].wtxid) == x
  }

  /** Every transaction but the first has its own slot. */
  ghost predicate Homes(vtx: seq<Tx>, shortId: int -> ShortId, m: map<ShortId, nat>) {
    && |m| == |vtx| - 1
    && (forall j {:trigger HomeAt(vtx, shortId, m, j)} :: HomeAt(vtx, shortId, m, j))
    && (forall x {:trigger KeyAt(vtx, shortId, m, x)} :: KeyAt(vtx, shortId, m, x))
  }

  lemma HomesOf(vtx: seq<Tx>, shortId: int -> ShortId, base: seq<Slot>, m: map<ShortId, nat>)
    requires |base| == |vtx| > 0 && base[0].Have? && forall j :: 1 <= j < |base| ==> base[j].Empty?
    requires Mapped(base, IdsOf(vtx[1..], shortId), m)
    ensures Homes(vtx, shortId, m)
  {
    var ids := IdsOf(vtx[1..], shortId);
    forall j ensures HomeAt(vtx, shortId, m, j) {
      if 1 <= j < |vtx| {
        assert MappedAt(base, ids, m, j - 1);
        assert ids[j - 1] == shortId(vtx[j].wtxid);
        FreeAfterFirst(base, j);
        FreeSlotUnique(base, j - 1, j, m[ids[j - 1]]);
      }
    }
    forall x ensures KeyAt(vtx, shortId, m, x) {
      assert KeyOk(base, ids, |ids|, m, x);
      if x in m {
        var k: nat :| Source(base, ids, |ids|, m, x, k);
        FreeAfterFirst(base, k + 1);
        FreeSlotUnique(base, k, k + 1, m[x]);
      }
    }
  }

  /** Slot j is matched exactly when its transaction has been seen, and then holds it. */
  ghost predicate SlotExact(w: Work, vtx: seq<Tx>, seen: set<Tx>, j: int) {
    1 <= j < |vtx| == |w.slots| == |w.have| ==>
      && (w.have[j] <==> vtx[j] in seen)
      && w.slots[j] == if w.have[j] then Have(vtx[j]) else Empty
  }

  ghost predicate Exact(w: Work, vtx: seq<Tx>, seen: set<Tx>) {
    |vtx| == |w.slots| == |w.have| && forall j {:trigger SlotExact(w, vtx, seen, j)} :: SlotExact(w, vtx, seen, j)
  }

  lemma StepExact(w: Work, vtx: seq<Tx>, shortId: int -> ShortId, m: map<ShortId, nat>, known: set<Tx>, seen: set<Tx>, tx: Tx, extra: bool)
    requires Homes(vtx, shortId, m) && NoCollision(vtx, known, shortId) && tx in known
    requires Exact(w, vtx, seen) && (extra || tx !in seen)
    ensures Exact(MatchTx(w, m, shortId, tx, extra), vtx, seen + {tx})
  {
    var id := shortId(tx.wtxid);
    var v := MatchTx(w, m, shortId, tx, extra);
    assert KeyAt(vtx, shortId, m, id);
    if id in m {
      assert tx == vtx[m[id]];
      assert SlotExact(w, vtx, seen, m[id]);
    }
    forall k ensures SlotExact(v, vtx, seen + {tx}, k) {
      assert SlotExact(w, vtx, seen, k) && HomeAt(vtx, shortId, m, k);
    }
  }

  lemma {:induction false} AllFilled(s: seq<Slot>)
    requires Filled(s) == |s|
    ensures forall j :: 0 <= j < |s| ==> s[j].Have?
  {
    if s != [] {
      AllFilled(s[..|s| - 1]);
      assert forall j :: 0 <= j < |s| - 1 ==> s[j] == s[..|s| - 1][j];
    }
  }

  /** The loop stops early only when every slot is filled. */
  lemma EarlyExit(base: seq<Slot>, w: Work, vtx: seq<Tx>, seen: set<Tx>, more: set<Tx>, n: nat)
    requires WorkOk(base, w, 0) && Exact(w, vtx, seen) && seen <= more && Filled(base) == 1 && w.mempoolCount == n == |vtx| - 1
    ensures Exact(w, vtx, more)
  {
    AllFilled(w.slots);
    forall k ensures SlotExact(w, vtx, more, k) { assert SlotExact(w, vtx, seen, k); }
  }

  function SetOf(txs: seq<Tx>): set<Tx> { set t | t in txs }

  predicate AllDifferent(txs: seq<Tx>) { forall i, j :: 0 <= i < j < |txs| ==> txs[i] != txs[j] }

  lemma {:induction false} MatchedExact(base: seq<Slot>, w: Work, vtx: seq<Tx>, shortId: int -> ShortId, m: map<ShortId, nat>, known: set<Tx>, seen: set<Tx>, txs: seq<Tx>, extra: bool)
    requires Homes(vtx, shortId, m) && NoCollision(vtx, known, shortId) && SetOf(txs) <= known
    requires Good(w, m, shortId, base, known, 0) && IntoFree(m, base) && Filled(base) == 1
    requires Exact(w, vtx, seen) && (extra || (AllDifferent(txs) && SetOf(txs) !! seen))
    ensures Exact(Matched(w, m, shortId, txs, extra), vtx, seen + SetOf(txs))
    ensures Good(Matched(w, m, shortId, txs, extra), m, shortId, base, known, 0)
    decreases |txs|
  {
    if txs == [] {
      assert seen + SetOf(txs) == seen;
    } else {
      var w1 := MatchTx(w, m, shortId, txs[0], extra);
      var rest := SetOf(txs[1..]);
      assert txs == [txs[0]] + txs[1..];
      assert SetOf(txs) == {txs[0]} + rest;
      StepExact(w, vtx, shortId, m, known, seen, txs[0], extra);
      MatchTxGood(w, m, shortId, base, known, 0, txs[0], extra);
      if w1.mempoolCount == |m| {
        EarlyExit(base, w1, vtx, seen + {txs[0]}, seen + SetOf(txs), |m|);
      } else {
        MatchedExact(base, w1, vtx, shortId, m, known, seen + {txs[0]}, txs[1..], extra);
        assert seen + {txs[0]} + rest == seen + SetOf(txs);
      }
    }
  }

  /** After InitData, a slot is filled if and only if its transaction is in the mempool or among the extra ones. */
  lemma FoundIfAtHand(vtx: seq<Tx>, shortId: int -> ShortId, base: seq<Slot>, m: map<ShortId, nat>, pool: seq<Tx>, extra: seq<Tx>, extraCount: int)
    requires |base| == |vtx| > 0 && base[0].Have? && (forall j :: 1 <= j < |base| ==> base[j].Empty?) && Filled(base) == 1
    requires Mapped(base, IdsOf(vtx[1..], shortId), m) && AllDifferent(pool)
    requires NoCollision(vtx, SetOf(pool) + SetOf(extra), shortId)
    ensures Exact(AfterExtra(base, m, shortId, pool, extra, 0, extraCount), vtx, SetOf(pool) + SetOf(extra))
  {
    var known := SetOf(pool) + SetOf(extra);
    var w := StartWork(base, 0, extraCount);
    HomesOf(vtx, shortId, base, m);
    MappedIntoFree(base, IdsOf(vtx[1..], shortId), m);
    StartGood(base, m, shortId, known, 0, extraCount);
    forall j ensures SlotExact(w, vtx, {}, j) {}
    MatchedExact(base, w, vtx, shortId, m, known, {}, pool, false);
    MatchedExact(base, AfterPool(base, m, shortId, pool, 0, extraCount), vtx, shortId, m, known, {} + SetOf(pool), extra, true);
    assert {} + SetOf(pool) + SetOf(extra) == known;
  }

  // ---------- What has to be asked for ----------

  /** The transactions of the block, but for the first, that are not at hand. */
  function Lacking(vtx: seq<Tx>, hand: set<Tx>): seq<Tx> {
    if |vtx| <= 1 then []
    else
      var k := |vtx| - 1;
      Lacking(vtx[..k], hand) + if vtx[k] in hand then [] else [vtx[k]]
  }

  lemma {:induction false} MissingIsLacking(s: seq<Slot>, vtx: seq<Tx>, hand: set<Tx>)
    requires |s| == |vtx| > 0 && s[0].Have? && forall j :: 1 <= j < |s| ==> (s[j].Have? <==> vtx[j] in hand)
    ensures MissingOf(s, vtx) == Lacking(vtx, hand)
  {
    var k := |s| - 1;
    if k > 0 {
      MissingIsLacking(s[..k], vtx[..k], hand);
    } else {
      assert MissingOf(s[..0], vtx[..0]) == [];
    }
  }

  lemma IdsDistinct(vtx: seq<Tx>, known: set<Tx>, shortId: int -> ShortId)
    requires |vtx| > 0 && NoCollision(vtx, known, shortId)
    ensures Distinct(IdsOf(vtx[1..], shortId))
  {
  }

  /**
   * A block is announced, what is at hand is filled in, exactly the other transactions are asked for,
   * and the block is there.
   */
  method Relay(header: int, vtx: seq<Tx>, shortId: int -> ShortId, pool: seq<Tx>, extra: seq<Tx>, crowded: nat -> bool, mutated: seq<Tx> -> bool)
    returns (status: Status, missing: seq<Tx>, block: seq<Tx>)
    requires 0 < |vtx| <= MAX_INDEX && !vtx[0].isNull && header != NO_HEADER
    requires AllDifferent(pool) && NoCollision(vtx, SetOf(pool) + SetOf(extra), shortId) && Calm(crowded, |vtx| - 1)
    ensures missing == Lacking(vtx, SetOf(pool) + SetOf(extra))
    ensures block == vtx && status == if mutated(vtx) then FAILED else OK
  {
    ghost var known := SetOf(pool) + SetOf(extra);
    var msg := MakeMessage(header, vtx, shortId);
    MessageAccepted(header, vtx, shortId);
    IdsDistinct(vtx, known, shortId);
    var partial := new PartiallyDownloadedBlock();
    ghost var base, m, have;
    status, base, m, have := partial.InitData(msg, shortId, pool, extra, crowded, known);
    BaseOf(base, vtx, msg.prefilled);
    ghost var w := Work(partial.txnAvailable, have, partial.mempoolCount, partial.extraCount);
    FoundIfAtHand(vtx, shortId, base, m, pool, extra, 0);
    Reconstruction(header, vtx, shortId, known, base, m, w, 0);
    FirstStays(base, w);
    forall j | 1 <= j < |vtx| ensures w.slots[j].Have? <==> vtx[j] in known { assert SlotExact(w, vtx, known, j); }
    MissingIsLacking(w.slots, vtx, known);
    missing := MissingOf(partial.txnAvailable, vtx);
    status, block := partial.FillBlock(missing, mutated);
  }

  lemma FirstStays(base: seq<Slot>, w: Work)
    requires WorkOk(base, w, 0) && |base| > 0 && base[0].Have?
    ensures |w.slots| == |base| && w.slots[0].Have?
  {
    assert SlotOk(base, w, 0);
  }
}
