/** Filling free slots from the mempool and from extra transactions
    (src/blockencodings.cpp, InitData). */
module CompactBlockFill {
  import opened CompactBlock

  const MAX_SIZE: int := 0x1_0000_0000_0000_0000

  /** The slots, which of them were ever matched, and the two counters. */
  datatype Work = Work(slots: seq<Slot>, have: seq<bool>, mempoolCount: int, extraCount: int)

  /** base are the slots with only prefilled transactions in them. */
  ghost predicate SlotOk(base: seq<Slot>, w: Work, j: int) {
    0 <= j < |base| == |w.slots| == |w.have| ==>
      && (base[j].Have? ==> w.slots[j] == base[j] && !w.have[j])
      && (base[j].Empty? && w.slots[j].Have? ==> w.have[j])
  }

  /** Prefilled slots are untouched, and mempoolCount, from its value at the start, counts the
      other filled slots. */
  ghost predicate WorkOk(base: seq<Slot>, w: Work, start: int) {
    && |base| == |w.slots| == |w.have|
    && (forall j {:trigger SlotOk(base, w, j)} :: SlotOk(base, w, j))
    && w.mempoolCount == start + Filled(w.slots) - Filled(base)
  }

  /** One mempool transaction that matches the short id of slot j. */
  function MatchPool(w: Work, j: nat, tx: Tx): Work
    requires j < |w.slots| == |w.have|
  {
    if !w.have[j] then Work(w.slots[j := Have(tx)], w.have[j := true], w.mempoolCount + 1, w.extraCount)
    else if w.slots[j].Have? then w.(slots := w.slots[j := Empty], mempoolCount := w.mempoolCount - 1)
    else w
  }

  /** One extra transaction that matches the short id of slot j; size_t counters wrap. */
  function MatchExtra(w: Work, j: nat, tx: Tx): Work
    requires j < |w.slots| == |w.have|
  {
    if !w.have[j] then Work(w.slots[j := Have(tx)], w.have[j := true], w.mempoolCount + 1, (w.extraCount + 1) % MAX_SIZE)
    else if w.slots[j].Have? && w.slots[j].tx.wtxid != tx.wtxid then
      w.(slots := w.slots[j := Empty], mempoolCount := w.mempoolCount - 1, extraCount := (w.extraCount - 1) % MAX_SIZE)
    else w
  }

  lemma MatchOk(base: seq<Slot>, w: Work, start: int, j: nat, tx: Tx)
    requires WorkOk(base, w, start) && j < |base| && base[j].Empty?
    ensures WorkOk(base, MatchPool(w, j, tx), start) && WorkOk(base, MatchExtra(w, j, tx), start)
  {
    var u, v := MatchPool(w, j, tx), MatchExtra(w, j, tx);
    assert SlotOk(base, w, j);
    FilledUpdate(w.slots, j, Have(tx));
    FilledUpdate(w.slots, j, Empty);
    forall k ensures SlotOk(base, u, k) && SlotOk(base, v, k) { assert SlotOk(base, w, k); }
  }

  /** A match only ever puts a transaction with the slot's own short id there. */
  ghost predicate IdOk(w: Work, m: map<ShortId, nat>, shortId: int -> ShortId, base: seq<Slot>, j: int) {
    0 <= j < |w.slots| == |base| && base[j].Empty? && w.slots[j].Have? ==>
      shortId(w.slots[j].tx.wtxid) in m && m[shortId(w.slots[j].tx.wtxid)] == j
  }

  ghost predicate IdsOk(w: Work, m: map<ShortId, nat>, shortId: int -> ShortId, base: seq<Slot>) {
    forall j {:trigger IdOk(w, m, shortId, base, j)} :: IdOk(w, m, shortId, base, j)
  }

  lemma MatchIds(w: Work, m: map<ShortId, nat>, shortId: int -> ShortId, base: seq<Slot>, j: nat, tx: Tx)
    requires IdsOk(w, m, shortId, base) && j < |base| == |w.slots| == |w.have|
    requires shortId(tx.wtxid) in m && m[shortId(tx.wtxid)] == j
    ensures IdsOk(MatchPool(w, j, tx), m, shortId, base) && IdsOk(MatchExtra(w, j, tx), m, shortId, base)
  {
    var u, v := MatchPool(w, j, tx), MatchExtra(w, j, tx);
    forall k ensures IdOk(u, m, shortId, base, k) && IdOk(v, m, shortId, base, k) { assert IdOk(w, m, shortId, base, k); }
  }

  /** Every filled slot that was free holds one of the given transactions. */
  ghost predicate FromAt(w: Work, base: seq<Slot>, known: set<Tx>, j: int) {
    0 <= j < |w.slots| == |base| && base[j].Empty? && w.slots[j].Have? ==> w.slots[j].tx in known
  }

  ghost predicate From(w: Work, base: seq<Slot>, known: set<Tx>) {
    forall j {:trigger FromAt(w, base, known, j)} :: FromAt(w, base, known, j)
  }

  lemma MatchFrom(w: Work, base: seq<Slot>, known: set<Tx>, j: nat, tx: Tx)
    requires From(w, base, known) && j < |base| == |w.slots| == |w.have| && tx in known
    ensures From(MatchPool(w, j, tx), base, known) && From(MatchExtra(w, j, tx), base, known)
  {
    var u, v := MatchPool(w, j, tx), MatchExtra(w, j, tx);
    forall k ensures FromAt(u, base, known, k) && FromAt(v, base, known, k) { assert FromAt(w, base, known, k); }
  }

  /** All that the two loops keep. */
  ghost predicate Good(w: Work, m: map<ShortId, nat>, shortId: int -> ShortId, base: seq<Slot>, known: set<Tx>, start: int) {
    WorkOk(base, w, start) && IdsOk(w, m, shortId, base) && From(w, base, known)
  }

  lemma MatchGood(w: Work, m: map<ShortId, nat>, shortId: int -> ShortId, base: seq<Slot>, known: set<Tx>, start: int, j: nat, tx: Tx)
    requires Good(w, m, shortId, base, known, start) && tx in known && j < |base| && base[j].Empty?
    requires shortId(tx.wtxid) in m && m[shortId(tx.wtxid)] == j
    ensures Good(MatchPool(w, j, tx), m, shortId, base, known, start) && Good(MatchExtra(w, j, tx), m, shortId, base, known, start)
  {
    MatchOk(base, w, start, j, tx);
    MatchIds(w, m, shortId, base, j, tx);
    MatchFrom(w, base, known, j, tx);
  }

  ghost predicate IntoFree(m: map<ShortId, nat>, base: seq<Slot>) {
    forall x {:trigger m[x]} :: x in m ==> m[x] < |base| && base[m[x]].Empty?
  }

  /** One transaction of the mempool, or one extra transaction. */
  function MatchTx(w: Work, m: map<ShortId, nat>, shortId: int -> ShortId, tx: Tx, extra: bool): Work {
    var id := shortId(tx.wtxid);
    if id !in m || m[id] >= |w.slots| || |w.slots| != |w.have| then w
    else if extra then MatchExtra(w, m[id], tx)
    else MatchPool(w, m[id], tx)
  }

  /** All of them in order, up to the point where every short id is accounted for. */
  function Matched(w: Work, m: map<ShortId, nat>, shortId: int -> ShortId, txs: seq<Tx>, extra: bool): Work
    decreases |txs|
  {
    if txs == [] then w
    else
      var w1 := MatchTx(w, m, shortId, txs[0], extra);
      if w1.mempoolCount == |m| then w1 else Matched(w1, m, shortId, txs[1..], extra)
  }

  /** How many of the transactions the loop looks at before it stops. */
  function Reached(w: Work, m: map<ShortId, nat>, shortId: int -> ShortId, txs: seq<Tx>, extra: bool): (n: nat)
    ensures n <= |txs|
    decreases |txs|
  {
    if txs == [] then 0
    else
      var w1 := MatchTx(w, m, shortId, txs[0], extra);
      if w1.mempoolCount == |m| then 1 else 1 + Reached(w1, m, shortId, txs[1..], extra)
  }

  /** Only prefilled transactions. */
  function StartWork(base: seq<Slot>, mempoolCount: int, extraCount: int): Work {
    Work(base, seq(|base|, _ => false), mempoolCount, extraCount)
  }

  function AfterPool(base: seq<Slot>, m: map<ShortId, nat>, shortId: int -> ShortId, pool: seq<Tx>, mempoolCount: int, extraCount: int): Work {
    Matched(StartWork(base, mempoolCount, extraCount), m, shortId, pool, false)
  }

  function AfterExtra(base: seq<Slot>, m: map<ShortId, nat>, shortId: int -> ShortId, pool: seq<Tx>, extra: seq<Tx>, mempoolCount: int, extraCount: int): Work {
    Matched(AfterPool(base, m, shortId, pool, mempoolCount, extraCount), m, shortId, extra, true)
  }

  lemma MatchTxGood(w: Work, m: map<ShortId, nat>, shortId: int -> ShortId, base: seq<Slot>, known: set<Tx>, start: int, tx: Tx, extra: bool)
    requires Good(w, m, shortId, base, known, start) && IntoFree(m, base) && tx in known
    ensures Good(MatchTx(w, m, shortId, tx, extra), m, shortId, base, known, start)
  {
    var id := shortId(tx.wtxid);
    if id in m {
      MatchGood(w, m, shortId, base, known, start, m[id], tx);
    }
  }

  lemma StartGood(base: seq<Slot>, m: map<ShortId, nat>, shortId: int -> ShortId, known: set<Tx>, mempoolCount: int, extraCount: int)
    ensures Good(StartWork(base, mempoolCount, extraCount), m, shortId, base, known, mempoolCount)
  {
    var w := StartWork(base, mempoolCount, extraCount);
    forall j ensures SlotOk(base, w, j) {}
    forall j ensures IdOk(w, m, shortId, base, j) {}
    forall j ensures FromAt(w, base, known, j) {}
  }

  /** The loop over the mempool, or over the extra transactions. */
  method MatchAll(w0: Work, m: map<ShortId, nat>, shortId: int -> ShortId, txs: seq<Tx>, extra: bool, ghost base: seq<Slot>, ghost known: set<Tx>, ghost start: int)
    returns (w: Work)
    requires Good(w0, m, shortId, base, known, start) && IntoFree(m, base) && forall t :: t in txs ==> t in known
    ensures w == Matched(w0, m, shortId, txs, extra)
    ensures Good(w, m, shortId, base, known, start)
  {
    w := w0;
    ghost var target := Matched(w0, m, shortId, txs, extra);
    for i := 0 to |txs|
      invariant target == Matched(w, m, shortId, txs[i..], extra)
      invariant Good(w, m, shortId, base, known, start)
    {
      MatchTxGood(w, m, shortId, base, known, start, txs[i], extra);
      assert txs[i..][0] == txs[i] && txs[i..][1..] == txs[i + 1..];
      var id := shortId(txs[i].wtxid);
      if id in m {
        w := if extra then MatchExtra(w, m[id], txs[i]) else MatchPool(w, m[id], txs[i]);
      }
      if w.mempoolCount == |m| {
        return;
      }
    }
  }
}
