/** Without short id collisions, a compact block is rebuilt exactly. */
module CompactBlockRebuild {
  import opened CompactBlock
  import opened CompactBlockIds
  import opened CompactBlockFill
  import opened CompactBlockBuild

  function IdsOf(vtx: seq<Tx>, shortId: int -> ShortId): seq<ShortId> {
    seq(|vtx|, i requires 0 <= i < |vtx| => shortId(vtx[i].wtxid))
  }

  /** The message made from a block: the coinbase in full, short ids for the rest. */
  function FromBlock(header: int, vtx: seq<Tx>, shortId: int -> ShortId): Message
    requires |vtx| > 0
  {
    Message(header, IdsOf(vtx[1..], shortId), [Prefilled(0, vtx[0])])
  }

  method MakeMessage(header: int, vtx: seq<Tx>, shortId: int -> ShortId) returns (msg: Message)
    requires |vtx| > 0
    ensures msg == FromBlock(header, vtx, shortId)
  {
    var ids: seq<ShortId> := [];
    for i := 1 to |vtx|
      invariant |ids| == i - 1 && forall j :: 0 <= j < i - 1 ==> ids[j] == shortId(vtx[j + 1].wtxid)
    {
      ids := ids + [shortId(vtx[i].wtxid)];
    }
    msg := Message(header, ids, [Prefilled(0, vtx[0])]);
  }

  /** The message of a block is refused exactly for a null header, a null first transaction or too
      many transactions. */
  lemma MessageAccepted(header: int, vtx: seq<Tx>, shortId: int -> ShortId)
    requires |vtx| > 0
    ensures Malformed(FromBlock(header, vtx, shortId)) <==> header == NO_HEADER || vtx[0].isNull || |vtx| > MAX_COUNT
  {
    var msg := FromBlock(header, vtx, shortId);
    assert PrefilledOk(msg.prefilled, |msg.shortIds|, 0) <==> !vtx[0].isNull;
  }

  /** No short id collision among block, mempool and extra transactions. */
  ghost predicate NoCollision(vtx: seq<Tx>, known: set<Tx>, shortId: int -> ShortId) {
    && (forall i, j :: 1 <= i < j < |vtx| ==> shortId(vtx[i].wtxid) != shortId(vtx[j].wtxid))
    && (forall i, t :: 1 <= i < |vtx| && t in known && shortId(t.wtxid) == shortId(vtx[i].wtxid) ==> t == vtx[i])
  }

  lemma BaseOf(base: seq<Slot>, vtx: seq<Tx>, ps: seq<Prefilled>)
    requires |vtx| > 0 && |base| == |vtx| && ps == [Prefilled(0, vtx[0])] && Placed(base, ps, 1)
    ensures base[0] == Have(vtx[0]) && forall j :: 1 <= j < |base| ==> base[j].Empty?
  {
    assert Place(ps, 0) == 0;
    assert PlacedAt(base, ps, 1, 0);
  }

  lemma {:induction false} FreeAfterFirst(base: seq<Slot>, p: nat)
    requires 1 <= p <= |base| && base[0].Have? && forall j :: 1 <= j < |base| ==> base[j].Empty?
    ensures FreeBelow(base, p) == p - 1
  {
    FreeNext(base, p - 1);
    if p > 1 {
      FreeAfterFirst(base, p - 1);
    } else {
      assert base[..0] == [];
    }
  }

  /** Every filled slot holds the block's own transaction. */
  lemma SlotIsRight(header: int, vtx: seq<Tx>, shortId: int -> ShortId, known: set<Tx>, base: seq<Slot>, m: map<ShortId, nat>, w: Work, start: int, j: nat)
    requires |vtx| > 0 && NoCollision(vtx, known, shortId) && j < |vtx|
    requires Initialised(FromBlock(header, vtx, shortId), shortId, known, base, m, w, start)
    ensures |w.slots| == |vtx| && (w.slots[j].Have? ==> w.slots[j].tx == vtx[j]) && (j == 0 ==> w.slots[j].Have?)
  {
    var msg := FromBlock(header, vtx, shortId);
    BaseOf(base, vtx, msg.prefilled);
    assert SlotOk(base, w, j);
    if j > 0 && w.slots[j].Have? {
      var t := w.slots[j].tx;
      var x := shortId(t.wtxid);
      assert IdOk(w, m, shortId, base, j) && FromAt(w, base, known, j);
      assert KeyOk(base, msg.shortIds, |msg.shortIds|, m, x);
      var k: nat :| Source(base, msg.shortIds, |msg.shortIds|, m, x, k);
      FreeAfterFirst(base, j);
      assert msg.shortIds[k] == shortId(vtx[k + 1].wtxid);
    }
  }

  ghost predicate Agrees(s: seq<Slot>, vtx: seq<Tx>) {
    |s| == |vtx| && forall j {:trigger s[j]} :: 0 <= j < |s| && s[j].Have? ==> s[j].tx == vtx[j]
  }

  /** The transactions a peer is asked for: those of the empty slots, in order. */
  function MissingOf(s: seq<Slot>, vtx: seq<Tx>): seq<Tx>
    requires |s| == |vtx|
  {
    if s == [] then []
    else
      var k := |s| - 1;
      MissingOf(s[..k], vtx[..k]) + if s[k].Empty? then [vtx[k]] else []
  }

  /** Only the missing transactions that are used matter. */
  lemma {:induction false} AssembleMore(s: seq<Slot>, missing: seq<Tx>, more: seq<Tx>)
    requires Assemble(s, missing).Assembled?
    ensures Assemble(s, missing + more) == Assemble(s, missing)
  {
    AssembleShape(s, missing);
    if s != [] {
      var k := |s| - 1;
      AssembleShape(s[..k], missing);
      AssembleMore(s[..k], missing, more);
    }
  }

  lemma {:induction false} AssembleRight(s: seq<Slot>, vtx: seq<Tx>)
    requires Agrees(s, vtx)
    ensures Assemble(s, MissingOf(s, vtx)) == Assembled(vtx, |MissingOf(s, vtx)|)
  {
    if s != [] {
      var k := |s| - 1;
      var front := MissingOf(s[..k], vtx[..k]);
      AssembleRight(s[..k], vtx[..k]);
      AssembleMore(s[..k], front, if s[k].Empty? then [vtx[k]] else []);
      assert vtx == vtx[..k] + [vtx[k]];
      assert s[k].Have? ==> s[k].tx == vtx[k];
    }
  }

  /** After InitData on the message of a block, supplying the transactions of the empty slots
      in order makes FillBlock assemble exactly that block. */
  lemma Reconstruction(header: int, vtx: seq<Tx>, shortId: int -> ShortId, known: set<Tx>, base: seq<Slot>, m: map<ShortId, nat>, w: Work, start: int)
    requires |vtx| > 0 && NoCollision(vtx, known, shortId)
    requires Initialised(FromBlock(header, vtx, shortId), shortId, known, base, m, w, start)
    ensures |w.slots| == |vtx| && Assemble(w.slots, MissingOf(w.slots, vtx)) == Assembled(vtx, |MissingOf(w.slots, vtx)|)
  {
    forall j | 0 <= j < |vtx| ensures |w.slots| == |vtx| && (w.slots[j].Have? ==> w.slots[j].tx == vtx[j]) {
      SlotIsRight(header, vtx, shortId, known, base, m, w, start, j);
    }
    SlotIsRight(header, vtx, shortId, known, base, m, w, start, 0);
    AssembleRight(w.slots, vtx);
  }
}
