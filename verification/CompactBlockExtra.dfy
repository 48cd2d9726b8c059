/** The counter of extra transactions of a compact block (src/blockencodings.cpp, InitData). */
module CompactBlockExtra {
  import opened CompactBlock
  import opened CompactBlockIds
  import opened CompactBlockFill
  import opened CompactBlockBuild

  // ---------- What the loop over the extra transactions has done since w0 ----------

  /** Slots that an extra transaction fills. */
  ghost function FilledByExtra(w0: Work, w: Work): set<nat> {
    set j: nat | j < |w0.have| && j < |w.slots| && j < |w.have| && !w0.have[j] && w.have[j] && w.slots[j].Have?
  }

  /** Slots that the mempool had filled and that are empty again. */
  ghost function Displaced(w0: Work, w: Work): set<nat> {
    set j: nat | j < |w0.have| && j < |w0.slots| && j < |w.slots| && w0.have[j] && w0.slots[j].Have? && w.slots[j].Empty?
  }

  ghost predicate LaterAt(w0: Work, w: Work, j: int) {
    0 <= j < |w0.slots| == |w0.have| == |w.slots| == |w.have| && w0.have[j] ==>
      w.have[j] && (w.slots[j] == w0.slots[j] || w.slots[j].Empty?)
  }

  /** Slots once matched stay matched, and keep their transaction or lose it. */
  ghost predicate Later(w0: Work, w: Work) {
    |w0.slots| == |w0.have| == |w.slots| == |w.have| && forall j {:trigger LaterAt(w0, w, j)} :: LaterAt(w0, w, j)
  }

  /** The counter is the number of slots filled by extra transactions less the number of displaced
      transactions of the mempool, in 64 bits. */
  ghost predicate Counted(w0: Work, w: Work) {
    Later(w0, w) && w.extraCount == (w0.extraCount + |FilledByExtra(w0, w)| - |Displaced(w0, w)|) % MAX_SIZE
  }

  lemma CountedStart(w0: Work)
    requires |w0.slots| == |w0.have| && 0 <= w0.extraCount < MAX_SIZE
    ensures Counted(w0, w0)
  {
    forall j ensures LaterAt(w0, w0, j) {}
    assert FilledByExtra(w0, w0) == {} && Displaced(w0, w0) == {};
  }

  lemma Added(s: set<nat>, t: set<nat>, j: nat)
    requires j !in s && forall i :: i in t <==> i in s || i == j
    ensures |t| == |s| + 1
  {
    assert t == s + {j};
  }

  lemma Same(s: set<nat>, t: set<nat>)
    requires forall i :: i in t <==> i in s
    ensures |t| == |s|
  {
    assert t == s;
  }

  lemma StepLater(w0: Work, w: Work, j: nat, tx: Tx)
    requires Later(w0, w) && j < |w.slots|
    ensures Later(w0, MatchExtra(w, j, tx))
  {
    forall k ensures LaterAt(w0, MatchExtra(w, j, tx), k) { assert LaterAt(w0, w, k); }
  }

  lemma StepFills(w0: Work, w: Work, j: nat, tx: Tx)
    requires Counted(w0, w) && j < |w.slots| && !w.have[j]
    ensures Counted(w0, MatchExtra(w, j, tx))
  {
    var v := MatchExtra(w, j, tx);
    assert LaterAt(w0, w, j);
    StepLater(w0, w, j, tx);
    Added(FilledByExtra(w0, w), FilledByExtra(w0, v), j);
    Same(Displaced(w0, w), Displaced(w0, v));
    Shifted(w0.extraCount + |FilledByExtra(w0, w)| - |Displaced(w0, w)|, 1);
  }

  lemma StepEmpties(w0: Work, w: Work, j: nat, tx: Tx)
    requires Counted(w0, w) && j < |w.slots| && w.have[j] && w.slots[j].Have? && w.slots[j].tx.wtxid != tx.wtxid
    ensures Counted(w0, MatchExtra(w, j, tx))
  {
    var v := MatchExtra(w, j, tx);
    assert LaterAt(w0, w, j);
    StepLater(w0, w, j, tx);
    if w0.have[j] {
      Added(Displaced(w0, w), Displaced(w0, v), j);
      Same(FilledByExtra(w0, w), FilledByExtra(w0, v));
    } else {
      Added(FilledByExtra(w0, v), FilledByExtra(w0, w), j);
      Same(Displaced(w0, w), Displaced(w0, v));
    }
    Shifted(w0.extraCount + |FilledByExtra(w0, w)| - |Displaced(w0, w)|, -1);
  }

  lemma Shifted(x: int, d: int)
    ensures (x % MAX_SIZE + d) % MAX_SIZE == (x + d) % MAX_SIZE
  {
    var q, r := x / MAX_SIZE, x % MAX_SIZE;
    assert x + d == MAX_SIZE * q + (r + d);
  }

  lemma StepCounted(w0: Work, w: Work, m: map<ShortId, nat>, shortId: int -> ShortId, tx: Tx)
    requires Counted(w0, w)
    ensures Counted(w0, MatchTx(w, m, shortId, tx, true))
  {
    var id := shortId(tx.wtxid);
    if id in m && m[id] < |w.slots| {
      var j := m[id];
      if !w.have[j] {
        StepFills(w0, w, j, tx);
      } else if w.slots[j].Have? && w.slots[j].tx.wtxid != tx.wtxid {
        StepEmpties(w0, w, j, tx);
      }
    }
  }

  /** The whole loop, wherever it stops. */
  lemma {:induction false} ExtraCounted(w0: Work, w: Work, m: map<ShortId, nat>, shortId: int -> ShortId, txs: seq<Tx>)
    requires Counted(w0, w)
    ensures Counted(w0, Matched(w, m, shortId, txs, true))
    decreases |txs|
  {
    if txs != [] {
      StepCounted(w0, w, m, shortId, txs[0]);
      ExtraCounted(w0, MatchTx(w, m, shortId, txs[0], true), m, shortId, txs[1..]);
    }
  }

  // ---------- When the counter is right ----------

  lemma {:induction false} PoolKeeps(w: Work, m: map<ShortId, nat>, shortId: int -> ShortId, txs: seq<Tx>)
    requires |w.slots| == |w.have|
    ensures var v := Matched(w, m, shortId, txs, false); v.extraCount == w.extraCount && |v.slots| == |v.have| == |w.slots|
    decreases |txs|
  {
    if txs != [] {
      PoolKeeps(MatchTx(w, m, shortId, txs[0], false), m, shortId, txs[1..]);
    }
  }

  lemma {:induction false} BelowSize(s: set<nat>, n: nat)
    requires forall j :: j in s ==> j < n
    ensures |s| <= n
  {
    if n > 0 {
      BelowSize(s - {n - 1}, n - 1);
      assert s <= s - {n - 1} + {n - 1};
      assert n - 1 in s ==> |s - {n - 1}| == |s| - 1;
      assert n - 1 !in s ==> s - {n - 1} == s;
    } else {
      assert s == {};
    }
  }

  lemma Wraps(f: nat, d: nat)
    requires f < MAX_SIZE && d < MAX_SIZE
    ensures (f - d) % MAX_SIZE == f <==> d == 0
  {
    if f >= d {
      assert (f - d) % MAX_SIZE == f - d;
    } else {
      assert f - d == MAX_SIZE * -1 + (f - d + MAX_SIZE);
    }
  }

  /** After InitData on a fresh object: the counter of extra transactions counts the slots they fill if and
      only if none of them displaced a transaction of the mempool. */
  lemma ExtraCountExact(base: seq<Slot>, m: map<ShortId, nat>, shortId: int -> ShortId, pool: seq<Tx>, extra: seq<Tx>, mempoolCount: int)
    requires |base| <= MAX_INDEX
    ensures var w0 := AfterPool(base, m, shortId, pool, mempoolCount, 0);
            var w := AfterExtra(base, m, shortId, pool, extra, mempoolCount, 0);
            && w.extraCount == (|FilledByExtra(w0, w)| - |Displaced(w0, w)|) % MAX_SIZE
            && (w.extraCount == |FilledByExtra(w0, w)| <==> Displaced(w0, w) == {})
  {
    var w0 := AfterPool(base, m, shortId, pool, mempoolCount, 0);
    var w := AfterExtra(base, m, shortId, pool, extra, mempoolCount, 0);
    PoolKeeps(StartWork(base, mempoolCount, 0), m, shortId, pool);
    CountedStart(w0);
    ExtraCounted(w0, w0, m, shortId, extra);
    ExactIf(w0, w);
  }

  lemma ExactIf(w0: Work, w: Work)
    requires Counted(w0, w) && w0.extraCount == 0 && |w0.slots| <= MAX_INDEX
    ensures w.extraCount == (|FilledByExtra(w0, w)| - |Displaced(w0, w)|) % MAX_SIZE
    ensures w.extraCount == |FilledByExtra(w0, w)| <==> Displaced(w0, w) == {}
  {
    BelowSize(FilledByExtra(w0, w), |w0.slots|);
    BelowSize(Displaced(w0, w), |w0.slots|);
    Wraps(|FilledByExtra(w0, w)|, |Displaced(w0, w)|);
  }

  // ---------- Which transactions are displaced ----------

  /** The mempool put another transaction of the same short id into slot j. */
  ghost predicate Clash(w0: Work, m: map<ShortId, nat>, shortId: int -> ShortId, tx: Tx, j: nat) {
    && shortId(tx.wtxid) in m && m[shortId(tx.wtxid)] == j < |w0.slots| == |w0.have|
    && w0.have[j] && w0.slots[j].Have? && w0.slots[j].tx.wtxid != tx.wtxid
  }

  ghost predicate ClashAmong(w0: Work, m: map<ShortId, nat>, shortId: int -> ShortId, txs: seq<Tx>, n: nat, j: nat) {
    exists i :: 0 <= i < n <= |txs| && Clash(w0, m, shortId, txs[i], j)
  }

  ghost predicate Clear(w0: Work, m: map<ShortId, nat>, shortId: int -> ShortId, txs: seq<Tx>, n: nat) {
    forall j: nat :: !ClashAmong(w0, m, shortId, txs, n, j)
  }

  lemma DisplacedStep(w0: Work, w: Work, m: map<ShortId, nat>, shortId: int -> ShortId, tx: Tx, j: nat)
    requires Later(w0, w)
    ensures var v := MatchTx(w, m, shortId, tx, true);
      Later(w0, v) && (j in Displaced(w0, v) <==> j in Displaced(w0, w) || Clash(w0, m, shortId, tx, j))
  {
    var id := shortId(tx.wtxid);
    assert LaterAt(w0, w, j);
    if id in m && m[id] < |w.slots| {
      StepLater(w0, w, m[id], tx);
    }
  }

  /** A transaction of the mempool is displaced exactly when the loop looks at an extra transaction with
      its short id and another witness hash. */
  lemma {:induction false} DisplacedIs(w0: Work, w: Work, m: map<ShortId, nat>, shortId: int -> ShortId, txs: seq<Tx>, j: nat)
    requires Later(w0, w)
    ensures j in Displaced(w0, Matched(w, m, shortId, txs, true)) <==>
      j in Displaced(w0, w) || ClashAmong(w0, m, shortId, txs, Reached(w, m, shortId, txs, true), j)
    decreases |txs|
  {
    if txs != [] {
      var w1 := MatchTx(w, m, shortId, txs[0], true);
      var n := Reached(w, m, shortId, txs, true);
      DisplacedStep(w0, w, m, shortId, txs[0], j);
      if w1.mempoolCount != |m| {
        DisplacedIs(w0, w1, m, shortId, txs[1..], j);
        if ClashAmong(w0, m, shortId, txs[1..], n - 1, j) {
          var i :| 0 <= i < n - 1 && Clash(w0, m, shortId, txs[1..][i], j);
          assert Clash(w0, m, shortId, txs[i + 1], j);
        }
        if i :| 0 < i < n && Clash(w0, m, shortId, txs[i], j) {
          assert Clash(w0, m, shortId, txs[1..][i - 1], j);
        }
      }
    }
  }

  /** In terms of the transactions themselves: the counter is right if and only if the loop looks at no
      extra transaction that clashes with one the mempool put in place. */
  lemma ExtraCountRight(base: seq<Slot>, m: map<ShortId, nat>, shortId: int -> ShortId, pool: seq<Tx>, extra: seq<Tx>, mempoolCount: int)
    requires |base| <= MAX_INDEX
    ensures var w0 := AfterPool(base, m, shortId, pool, mempoolCount, 0);
            var w := AfterExtra(base, m, shortId, pool, extra, mempoolCount, 0);
            w.extraCount == |FilledByExtra(w0, w)| <==>
              Clear(w0, m, shortId, extra, Reached(w0, m, shortId, extra, true))
  {
    var w0 := AfterPool(base, m, shortId, pool, mempoolCount, 0);
    var w := AfterExtra(base, m, shortId, pool, extra, mempoolCount, 0);
    ExtraCountExact(base, m, shortId, pool, extra, mempoolCount);
    PoolKeeps(StartWork(base, mempoolCount, 0), m, shortId, pool);
    CountedStart(w0);
    ClearIs(w0, w, m, shortId, extra);
  }

  lemma ClearIs(w0: Work, w: Work, m: map<ShortId, nat>, shortId: int -> ShortId, txs: seq<Tx>)
    requires Later(w0, w0) && w == Matched(w0, m, shortId, txs, true)
    ensures Displaced(w0, w) == {} <==> Clear(w0, m, shortId, txs, Reached(w0, m, shortId, txs, true))
  {
    var n := Reached(w0, m, shortId, txs, true);
    forall j: nat ensures j in Displaced(w0, w) <==> ClashAmong(w0, m, shortId, txs, n, j) {
      DisplacedIs(w0, w0, m, shortId, txs, j);
      assert j !in Displaced(w0, w0);
    }
    NoMember(Displaced(w0, w));
  }

  lemma NoMember(s: set<nat>)
    ensures s == {} <==> forall j: nat :: j !in s
  {
    if forall j: nat :: j !in s {
      assert s <= {};
    }
  }

  // ---------- The wrap ----------

  lemma TwoSlots(base: seq<Slot>, msg: Message, m: map<ShortId, nat>, coinbase: Tx, id: ShortId)
    requires msg.shortIds == [id] && msg.prefilled == [Prefilled(0, coinbase)]
    requires |base| == 2 && Placed(base, msg.prefilled, 1) && Mapped(base, msg.shortIds, m)
    ensures base == [Have(coinbase), Empty] && id in m && m[id] == 1 && |m| == 1
  {
    assert Place(msg.prefilled, 0) == 0;
    assert PlacedAt(base, msg.prefilled, 1, 0);
    assert MappedAt(base, msg.shortIds, m, 0);
  }

  /** One call is enough: the mempool fills the only slot and the only extra transaction displaces it. */
  method ExtraCountWraps(header: int, coinbase: Tx, a: Tx, b: Tx, shortId: int -> ShortId) returns (o: PartiallyDownloadedBlock, status: Status)
    requires header != NO_HEADER && !coinbase.isNull && shortId(a.wtxid) == shortId(b.wtxid) && a.wtxid != b.wtxid
    ensures status == OK && o.extraCount == MAX_SIZE - 1 && o.mempoolCount == 0
  {
    o := new PartiallyDownloadedBlock();
    var id := shortId(a.wtxid);
    var msg := Message(header, [id], [Prefilled(0, coinbase)]);
    assert PrefilledOk(msg.prefilled, 1, 0);
    ghost var base, m, have;
    status, base, m, have := o.InitData(msg, shortId, [a], [b], k => false, {a, b});
    TwoSlots(base, msg, m, coinbase, id);
    WrapSteps(base, m, shortId, coinbase, a, b);
  }

  lemma WrapSteps(base: seq<Slot>, m: map<ShortId, nat>, shortId: int -> ShortId, coinbase: Tx, a: Tx, b: Tx)
    requires base == [Have(coinbase), Empty] && |m| == 1 && shortId(a.wtxid) in m && m[shortId(a.wtxid)] == 1
    requires shortId(a.wtxid) == shortId(b.wtxid) && a.wtxid != b.wtxid
    ensures var w := AfterExtra(base, m, shortId, [a], [b], 0, 0); w.extraCount == MAX_SIZE - 1 && w.mempoolCount == 0
  {
    var w0 := StartWork(base, 0, 0);
    var w1 := MatchTx(w0, m, shortId, a, false);
    assert AfterPool(base, m, shortId, [a], 0, 0) == w1;
    assert w1.slots[1] == Have(a) && w1.have[1];
    var w2 := MatchTx(w1, m, shortId, b, true);
    assert Matched(w1, m, shortId, [b], true) == Matched(w2, m, shortId, [], true);
  }
}
