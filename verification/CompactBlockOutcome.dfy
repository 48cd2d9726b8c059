/** What ends up in a free slot, told by the transactions that have its short id
    (src/blockencodings.cpp, InitData), with the two early exits. */
module CompactBlockOutcome {
  import opened CompactBlock
  import opened CompactBlockFill

  /** Transaction tx has the short id of slot j. */
  predicate IsFor(m: map<ShortId, nat>, shortId: int -> ShortId, tx: Tx, j: nat) {
    shortId(tx.wtxid) in m && m[shortId(tx.wtxid)] == j
  }

  /** Those of the transactions that have the short id of slot j, in order. */
  function Candidates(m: map<ShortId, nat>, shortId: int -> ShortId, txs: seq<Tx>, j: nat): seq<Tx> {
    if txs == [] then []
    else (if IsFor(m, shortId, txs[0], j) then [txs[0]] else []) + Candidates(m, shortId, txs[1..], j)
  }

  predicate SameWtxid(txs: seq<Tx>, wtxid: int) { forall t :: t in txs ==> t.wtxid == wtxid }

  // ---------- Prefilled transactions ----------

  /** The demands on the single prefilled transactions amount to this: none is null, and the last has its place
      inside the block and within 16 bits. */
  lemma PrefilledFit(ps: seq<Prefilled>, ids: nat)
    ensures (forall i {:trigger PrefilledOk(ps, ids, i)} :: 0 <= i < |ps| ==> PrefilledOk(ps, ids, i)) <==>
            (forall i :: 0 <= i < |ps| ==> !ps[i].tx.isNull) && (ps != [] ==> Place(ps, |ps| - 1) < ids + |ps| && Place(ps, |ps| - 1) <= MAX_INDEX)
  {
    if ps != [] {
      var last := |ps| - 1;
      assert PrefilledOk(ps, ids, last) <==> !ps[last].tx.isNull && Place(ps, last) <= MAX_INDEX && Place(ps, last) <= ids + last;
      forall i: nat | i <= last ensures Place(ps, i) + (last - i) <= Place(ps, last) { PlacesApart(ps, i, last); }
      if forall i {:trigger PrefilledOk(ps, ids, i)} :: 0 <= i < |ps| ==> PrefilledOk(ps, ids, i) {
        forall i | 0 <= i < |ps| ensures !ps[i].tx.isNull { assert PrefilledOk(ps, ids, i); }
      }
    }
  }

  lemma {:induction false} PlacesApart(ps: seq<Prefilled>, i: nat, j: nat)
    requires i <= j < |ps|
    ensures Place(ps, i) + (j - i) <= Place(ps, j)
    decreases j
  {
    if i < j {
      PlacesApart(ps, i, j - 1);
    }
  }

  /** The index of a prefilled transaction counts the free slots between it and the one before. */
  lemma SkippedSlots(s: seq<Slot>, ps: seq<Prefilled>, i: nat)
    requires i < |ps| && Placed(s, ps, |ps|)
    ensures Place(ps, i) < |s| && s[Place(ps, i)] == Have(ps[i].tx)
    ensures FreeBelow(s, Place(ps, i)) == (if i == 0 then 0 else FreeBelow(s, Place(ps, i - 1))) + ps[i].index
  {
    assert PlacedAt(s, ps, |ps|, i) && PlacedAt(s, ps, |ps|, i - 1);
    var from := if i == 0 then 0 else Place(ps, i - 1) + 1;
    if i > 0 {
      FreeNext(s, Place(ps, i - 1));
    } else {
      assert s[..0] == [];
    }
    forall j | from <= j < Place(ps, i) ensures s[j].Empty? {
      forall k | 0 <= k < |ps| ensures Place(ps, k) != j {
        if k < i {
          PlacesApart(ps, k, i - 1);
        } else {
          PlacesApart(ps, i, k);
        }
      }
      assert FreeAt(s, ps, |ps|, j);
    }
    AllFree(s, from, Place(ps, i));
  }

  lemma {:induction false} AllFree(s: seq<Slot>, a: nat, b: nat)
    requires a <= b <= |s| && forall j :: a <= j < b ==> s[j].Empty?
    ensures FreeBelow(s, b) == FreeBelow(s, a) + (b - a)
    decreases b
  {
    if a < b {
      AllFree(s, a, b - 1);
      FreeNext(s, b - 1);
    }
  }

  // ---------- The early exit ----------

  /** The loop stops after the first transaction that accounts for every short id, and only there. */
  lemma {:induction false} StopsAtFirst(w: Work, m: map<ShortId, nat>, shortId: int -> ShortId, txs: seq<Tx>, extra: bool)
    ensures var n := Reached(w, m, shortId, txs, extra);
      && (n < |txs| ==> Matched(w, m, shortId, txs, extra).mempoolCount == |m|)
      && (txs != [] ==> n >= 1)
      && forall k :: 1 <= k < n ==> Matched(w, m, shortId, txs[..k], extra).mempoolCount != |m|
    decreases |txs|
  {
    if txs != [] {
      var w1 := MatchTx(w, m, shortId, txs[0], extra);
      var n := Reached(w, m, shortId, txs, extra);
      if w1.mempoolCount != |m| {
        StopsAtFirst(w1, m, shortId, txs[1..], extra);
        forall k | 1 <= k < n ensures Matched(w, m, shortId, txs[..k], extra).mempoolCount != |m| {
          assert txs[..k][0] == txs[0] && txs[..k][1..] == txs[1..][..k - 1];
          assert Matched(w, m, shortId, txs[..k], extra) == Matched(w1, m, shortId, txs[1..][..k - 1], extra);
          assert k == 1 ==> txs[1..][..k - 1] == [];
        }
      }
    }
  }

  // ---------- The mempool ----------

  /** Slot j after the candidates h of the mempool: filled by a single one, and given up for more. */
  ghost predicate PoolAt(w: Work, j: nat, h: seq<Tx>) {
    && j < |w.slots| == |w.have| && (w.have[j] <==> h != [])
    && w.slots[j] == if |h| == 1 then Have(h[0]) else Empty
  }

  lemma {:induction false} PoolSlots(w: Work, m: map<ShortId, nat>, shortId: int -> ShortId, txs: seq<Tx>, j: nat, h: seq<Tx>)
    requires PoolAt(w, j, h)
    ensures PoolAt(Matched(w, m, shortId, txs, false), j, h + Candidates(m, shortId, txs[..Reached(w, m, shortId, txs, false)], j))
    decreases |txs|
  {
    var n := Reached(w, m, shortId, txs, false);
    if txs == [] {
      assert h + [] == h;
    } else {
      var w1 := MatchTx(w, m, shortId, txs[0], false);
      var h1 := if IsFor(m, shortId, txs[0], j) then h + [txs[0]] else h;
      assert PoolAt(w1, j, h1);
      CandidatesStep(m, shortId, txs, j, h, n);
      if w1.mempoolCount != |m| {
        PoolSlots(w1, m, shortId, txs[1..], j, h1);
      } else {
        assert txs[1..][..0] == [] && h1 + [] == h1;
      }
    }
  }

  lemma CandidatesStep(m: map<ShortId, nat>, shortId: int -> ShortId, txs: seq<Tx>, j: nat, h: seq<Tx>, n: nat)
    requires 1 <= n <= |txs|
    ensures h + Candidates(m, shortId, txs[..n], j) ==
            (if IsFor(m, shortId, txs[0], j) then h + [txs[0]] else h) + Candidates(m, shortId, txs[1..][..n - 1], j)
  {
    assert txs[..n][0] == txs[0] && txs[..n][1..] == txs[1..][..n - 1];
  }

  // ---------- Extra transactions ----------

  /** Slot j after the extra candidates h, from what the mempool left: another transaction empties it for good,
      the same one again does not. */
  ghost predicate ExtraAt(w0: Work, w: Work, j: nat, h: seq<Tx>) {
    && j < |w0.slots| == |w0.have| == |w.slots| == |w.have| && (w.have[j] <==> w0.have[j] || h != [])
    && w.slots[j] == if w0.slots[j].Have? then (if SameWtxid(h, w0.slots[j].tx.wtxid) then w0.slots[j] else Empty)
                     else if !w0.have[j] && h != [] && SameWtxid(h, h[0].wtxid) then Have(h[0])
                     else Empty
  }

  lemma ExtraStep(w0: Work, w: Work, j: nat, h: seq<Tx>, tx: Tx)
    requires ExtraAt(w0, w, j, h) && (w0.slots[j].Have? ==> w0.have[j])
    ensures ExtraAt(w0, MatchExtra(w, j, tx), j, h + [tx])
  {
    assert forall t :: t in h + [tx] <==> t in h || t == tx;
    assert h != [] ==> (h + [tx])[0] == h[0] && h[0] in h;
  }

  lemma {:induction false} ExtraSlots(w0: Work, w: Work, m: map<ShortId, nat>, shortId: int -> ShortId, txs: seq<Tx>, j: nat, h: seq<Tx>)
    requires ExtraAt(w0, w, j, h) && (w0.slots[j].Have? ==> w0.have[j])
    ensures ExtraAt(w0, Matched(w, m, shortId, txs, true), j, h + Candidates(m, shortId, txs[..Reached(w, m, shortId, txs, true)], j))
    decreases |txs|
  {
    var n := Reached(w, m, shortId, txs, true);
    if txs == [] {
      assert h + [] == h;
    } else {
      var w1 := MatchTx(w, m, shortId, txs[0], true);
      var h1 := if IsFor(m, shortId, txs[0], j) then h + [txs[0]] else h;
      ExtraStep(w0, w, j, h, txs[0]);
      assert ExtraAt(w0, w1, j, h1);
      CandidatesStep(m, shortId, txs, j, h, n);
      if w1.mempoolCount != |m| {
        ExtraSlots(w0, w1, m, shortId, txs[1..], j, h1);
      } else {
        assert txs[1..][..0] == [] && h1 + [] == h1;
      }
    }
  }

  // ---------- Both ----------

  /**
   * What InitData leaves in a free slot. Let p be the transactions with its short id among those of the mempool
   * that the first loop looks at, and e among the extra ones that the second looks at. The slot is filled exactly
   * when p is a single transaction and e only repeats it, or p is empty and e is some transaction repeated.
   */
  lemma SlotOutcome(base: seq<Slot>, m: map<ShortId, nat>, shortId: int -> ShortId, pool: seq<Tx>, extra: seq<Tx>, mempoolCount: int, extraCount: int, j: nat)
    requires j < |base| && base[j].Empty?
    ensures var w0 := AfterPool(base, m, shortId, pool, mempoolCount, extraCount);
      var w := AfterExtra(base, m, shortId, pool, extra, mempoolCount, extraCount);
      var p := Candidates(m, shortId, pool[..Reached(StartWork(base, mempoolCount, extraCount), m, shortId, pool, false)], j);
      var e := Candidates(m, shortId, extra[..Reached(w0, m, shortId, extra, true)], j);
      && |w.slots| == |base|
      && w.slots[j] == if |p| == 1 && SameWtxid(e, p[0].wtxid) then Have(p[0])
                       else if p == [] && e != [] && SameWtxid(e, e[0].wtxid) then Have(e[0])
                       else Empty
  {
    var start := StartWork(base, mempoolCount, extraCount);
    var w0 := AfterPool(base, m, shortId, pool, mempoolCount, extraCount);
    assert PoolAt(start, j, []);
    PoolSlots(start, m, shortId, pool, j, []);
    assert ExtraAt(w0, w0, j, []);
    ExtraSlots(w0, w0, m, shortId, extra, j, []);
    MatchedKeepsSize(start, m, shortId, pool, false);
    MatchedKeepsSize(w0, m, shortId, extra, true);
  }

  lemma {:induction false} MatchedKeepsSize(w: Work, m: map<ShortId, nat>, shortId: int -> ShortId, txs: seq<Tx>, extra: bool)
    ensures |Matched(w, m, shortId, txs, extra).slots| == |w.slots|
    decreases |txs|
  {
    if txs != [] {
      MatchedKeepsSize(MatchTx(w, m, shortId, txs[0], extra), m, shortId, txs[1..], extra);
    }
  }
}
