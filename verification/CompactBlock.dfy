/** Compact blocks (src/blockencodings.cpp, src/blockencodings.h; BIP 152): slots of a
    block being put together and how a message lays them out. */
module CompactBlock {

  datatype Tx = Tx(wtxid: int, body: int, isNull: bool)

  datatype Slot = Empty | Have(tx: Tx)

  datatype ShortId = ShortId(id: int)

  /** index counts the transactions skipped since the previous prefilled one. */
  datatype Prefilled = Prefilled(index: nat, tx: Tx)

  /** A header of 0 stands for the null header. */
  datatype Message = Message(header: int, shortIds: seq<ShortId>, prefilled: seq<Prefilled>)

  const MAX_INDEX: nat := 65535
  const MAX_COUNT: nat := 100000

  function BlockTxCount(m: Message): nat { |m.shortIds| + |m.prefilled| }

  // ---------- Counting slots ----------

  function Filled(s: seq<Slot>): (n: nat)
    ensures n <= |s|
  {
    if s == [] then 0 else (if s[|s| - 1].Have? then 1 else 0) + Filled(s[..|s| - 1])
  }

  lemma {:induction false} FilledUpdate(s: seq<Slot>, j: nat, x: Slot)
    requires j < |s|
    ensures Filled(s[j := x]) == Filled(s) - (if s[j].Have? then 1 else 0) + if x.Have? then 1 else 0
    decreases |s|
  {
    var t := s[j := x];
    if j == |s| - 1 {
      assert t[..|s| - 1] == s[..|s| - 1];
    } else {
      FilledUpdate(s[..|s| - 1], j, x);
      assert t[..|s| - 1] == s[..|s| - 1][j := x];
    }
  }

  lemma {:induction false} FilledNone(s: seq<Slot>)
    requires forall j :: 0 <= j < |s| ==> s[j].Empty?
    ensures Filled(s) == 0
  {
    if s != [] {
      FilledNone(s[..|s| - 1]);
    }
  }

  /** Number of free slots before position k. */
  function FreeBelow(s: seq<Slot>, k: nat): nat
    requires k <= |s|
  {
    k - Filled(s[..k])
  }

  lemma FreeNext(s: seq<Slot>, k: nat)
    requires k < |s|
    ensures FreeBelow(s, k + 1) == FreeBelow(s, k) + if s[k].Empty? then 1 else 0
  {
    assert s[..k + 1][..k] == s[..k];
  }

  lemma {:induction false} FreeGrows(s: seq<Slot>, j: nat, k: nat)
    requires j <= k <= |s|
    ensures FreeBelow(s, j) <= FreeBelow(s, k)
    decreases k
  {
    if j < k {
      FreeGrows(s, j, k - 1);
      FreeNext(s, k - 1);
    }
  }

  // ---------- Prefilled transactions ----------

  /** Place of the i-th prefilled transaction in the block. */
  function Place(ps: seq<Prefilled>, i: nat): nat
    requires i < |ps|
  {
    if i == 0 then ps[0].index else Place(ps, i - 1) + ps[i].index + 1
  }

  /** What InitData demands of the i-th prefilled transaction. */
  predicate PrefilledOk(ps: seq<Prefilled>, ids: nat, i: nat)
    requires i < |ps|
  {
    !ps[i].tx.isNull && Place(ps, i) <= MAX_INDEX && Place(ps, i) <= ids + i
  }

  lemma {:induction false} PlacesAscend(ps: seq<Prefilled>, i: nat, j: nat)
    requires i < j < |ps|
    ensures Place(ps, i) < Place(ps, j)
    decreases j
  {
    if i < j - 1 {
      PlacesAscend(ps, i, j - 1);
    }
  }

  ghost predicate PlacedAt(s: seq<Slot>, ps: seq<Prefilled>, i: nat, k: int) {
    0 <= k < i <= |ps| ==> Place(ps, k) < |s| && s[Place(ps, k)] == Have(ps[k].tx)
  }

  ghost predicate FreeAt(s: seq<Slot>, ps: seq<Prefilled>, i: nat, j: int) {
    0 <= j < |s| && i <= |ps| && (forall k {:trigger Place(ps, k)} :: 0 <= k < i ==> Place(ps, k) != j) ==> s[j].Empty?
  }

  /** The first i prefilled transactions are in their places and nothing else is. */
  ghost predicate Placed(s: seq<Slot>, ps: seq<Prefilled>, i: nat) {
    && i <= |ps| && Filled(s) == i
    && (forall k {:trigger PlacedAt(s, ps, i, k)} :: PlacedAt(s, ps, i, k))
    && (forall j {:trigger FreeAt(s, ps, i, j)} :: FreeAt(s, ps, i, j))
    && (i > 0 ==> Place(ps, i - 1) < |s| && forall j :: Place(ps, i - 1) < j < |s| ==> s[j].Empty?)
  }

  lemma PlaceNext(s: seq<Slot>, ps: seq<Prefilled>, i: nat)
    requires i < |ps| && Placed(s, ps, i) && Place(ps, i) < |s| && (i == 0 ==> forall j :: 0 <= j < |s| ==> s[j].Empty?)
    ensures Placed(s[Place(ps, i) := Have(ps[i].tx)], ps, i + 1)
  {
    var p := Place(ps, i);
    var t, n := s[p := Have(ps[i].tx)], i + 1;
    FilledUpdate(s, p, Have(ps[i].tx));
    forall k ensures PlacedAt(t, ps, n, k) {
      assert PlacedAt(s, ps, i, k);
      if 0 <= k < i {
        PlacesAscend(ps, k, i);
      }
    }
    forall j ensures FreeAt(t, ps, n, j) { assert FreeAt(s, ps, i, j); }
  }
}
