/** What GetAddr returns (src/addrman.cpp). */
module AddrManGetAddr {
  import opened AddrManModel
  import opened AddrManInvariant

  // ---------- How many ----------

  ghost predicate Allowed(n: nat, size: nat, maxAddresses: nat, maxPct: nat) {
    && n <= size
    && (maxAddresses != 0 ==> n <= maxAddresses)
    && (maxPct != 0 ==> 100 * n <= maxPct * size)
  }

  /** The limit is the largest number that neither cap forbids. */
  lemma AddrLimitIs(size: nat, maxAddresses: nat, maxPct: nat)
    ensures Allowed(AddrLimit(size, maxAddresses, maxPct), size, maxAddresses, maxPct)
    ensures forall n: nat :: Allowed(n, size, maxAddresses, maxPct) ==> n <= AddrLimit(size, maxAddresses, maxPct)
  {
    var pct := if maxPct < 100 then maxPct else 100;
    PctBound(pct, size, maxPct);
    forall n: nat | Allowed(n, size, maxAddresses, maxPct) ensures n <= AddrLimit(size, maxAddresses, maxPct) {
      if maxPct != 0 {
        PctLargest(n, pct, size, maxPct);
      }
    }
  }

  lemma PctBound(pct: nat, size: nat, maxPct: nat)
    requires pct <= 100 && pct <= maxPct
    ensures pct * size / 100 <= size && 100 * (pct * size / 100) <= maxPct * size
  {
    assert pct * size <= 100 * size;
    assert pct * size <= maxPct * size;
  }

  lemma PctLargest(n: nat, pct: nat, size: nat, maxPct: nat)
    requires n <= size && 100 * n <= maxPct * size && (pct == maxPct || pct == 100)
    ensures n <= pct * size / 100
  {
    assert 100 * n <= pct * size;
  }

  // ---------- The shuffle ----------

  lemma SwapRandomIs(s: State, i: int, j: int)
    requires Indexed(s) && 0 <= i < |s.vRandom| && 0 <= j < |s.vRandom|
    ensures SwapRandom(s, i, j).vRandom == s.vRandom[i := s.vRandom[j]][j := s.vRandom[i]]
  {
    assert RandomIndexed(s, i) && RandomIndexed(s, j);
  }

  /** What is asked for, of an entry as it is when the call begins. */
  ghost predicate Asked(h: Hashing, q: AddrQuery, info: Info) {
    && (q.byNetwork ==> h.netClass(info.service) == q.network)
    && !(q.filtered && IsTerrible(info, q.now))
  }

  ghost predicate SameEntries(s0: State, s: State) {
    forall j {:trigger OnlyMoved(s0.mapInfo, s.mapInfo, j)} :: OnlyMoved(s0.mapInfo, s.mapInfo, j)
  }

  ghost predicate GotOk(h: Hashing, s0: State, q: AddrQuery, s: State, n: nat, id: Id) {
    id in s0.mapInfo && Asked(h, q, s0.mapInfo[id]) && id in s.mapInfo && s.mapInfo[id].randomPos < n
  }

  ghost predicate SeenAt(h: Hashing, s0: State, q: AddrQuery, s: State, got: seq<Id>, k: int) {
    0 <= k < |s.vRandom| && s.vRandom[k] in s0.mapInfo && Asked(h, q, s0.mapInfo[s.vRandom[k]]) ==> s.vRandom[k] in got
  }

  predicate Distinct(got: seq<Id>) { forall i, j :: 0 <= i < j < |got| ==> got[i] != got[j] }

  /** n places are drawn, and got are those of them that are asked for. */
  ghost predicate Drawn(h: Hashing, s0: State, q: AddrQuery, s: State, n: nat, got: seq<Id>) {
    && Indexed(s) && SameEntries(s0, s) && n <= |s.vRandom| && |got| <= q.limit && Distinct(got)
    && (forall id :: id in got ==> GotOk(h, s0, q, s, n, id))
    && (forall k {:trigger SeenAt(h, s0, q, s, got, k)} :: k < n ==> SeenAt(h, s0, q, s, got, k))
  }

  lemma SwapSame(s0: State, s: State, i: int, j: int)
    requires SameEntries(s0, s)
    ensures SameEntries(s0, SwapRandom(s, i, j))
  {
    forall k ensures OnlyMoved(s0.mapInfo, SwapRandom(s, i, j).mapInfo, k) {
      assert OnlyMoved(s0.mapInfo, s.mapInfo, k);
      SwapRandomMoves(s, i, j, k);
    }
  }

  /** Swapping at or behind n leaves what was drawn alone. */
  lemma SwapBehind(h: Hashing, s0: State, q: AddrQuery, s: State, n: nat, got: seq<Id>, k: nat)
    requires Drawn(h, s0, q, s, n, got) && n <= k < |s.vRandom|
    ensures Drawn(h, s0, q, SwapRandom(s, n, k), n, got)
  {
    var t := SwapRandom(s, n, k);
    SwapRandomIndexed(s, n, k);
    SwapRandomIs(s, n, k);
    SwapSame(s0, s, n, k);
    forall id | id in got ensures GotOk(h, s0, q, t, n, id) {
      assert GotOk(h, s0, q, s, n, id);
      SwapRandomMoves(s, n, k, id);
      assert InfoIndexed(s, id) && InfoIndexed(t, id) && RandomIndexed(t, s.mapInfo[id].randomPos);
    }
    forall i | i < n ensures SeenAt(h, s0, q, t, got, i) { assert SeenAt(h, s0, q, s, got, i); }
  }

  lemma TakeNext(h: Hashing, s0: State, q: AddrQuery, t: State, n: nat, got: seq<Id>, got': seq<Id>)
    requires Drawn(h, s0, q, t, n, got) && n < |t.vRandom| && |got| < q.limit
    requires got' == if t.vRandom[n] in t.mapInfo && Wanted(h, q, t.mapInfo[t.vRandom[n]]) then got + [t.vRandom[n]] else got
    ensures Drawn(h, s0, q, t, n + 1, got')
  {
    var id := t.vRandom[n];
    assert RandomIndexed(t, n) && OnlyMoved(s0.mapInfo, t.mapInfo, id);
    assert id in got ==> GotOk(h, s0, q, t, n, id);
    forall j | j in got' ensures GotOk(h, s0, q, t, n + 1, j) { assert j in got ==> GotOk(h, s0, q, t, n, j); }
    forall k | k < n + 1 ensures SeenAt(h, s0, q, t, got', k) { assert k < n ==> SeenAt(h, s0, q, t, got, k); }
  }

  /** All entries of the answer are asked for, none comes twice, and none is left out unless the limit is reached. */
  ghost predicate Answer(h: Hashing, s0: State, q: AddrQuery, got: seq<Id>) {
    && |got| <= q.limit && Distinct(got)
    && (forall id :: id in got ==> id in s0.mapInfo && Asked(h, q, s0.mapInfo[id]))
    && (|got| < q.limit ==> forall id :: id in s0.mapInfo && Asked(h, q, s0.mapInfo[id]) ==> id in got)
  }

  lemma {:induction false} DrawnAll(h: Hashing, s0: State, q: AddrQuery, s: State, rand: nat -> nat, n: nat, got: seq<Id>)
    requires Drawn(h, s0, q, s, n, got)
    ensures Answer(h, s0, q, GetAddrFrom(h, s, q, rand, n, got).1)
    decreases |s.vRandom| - n
  {
    if n >= |s.vRandom| || |got| >= q.limit {
      forall id | id in got ensures id in s0.mapInfo && Asked(h, q, s0.mapInfo[id]) { assert GotOk(h, s0, q, s, n, id); }
      if |got| < q.limit {
        forall id | id in s0.mapInfo && Asked(h, q, s0.mapInfo[id]) ensures id in got {
          assert OnlyMoved(s0.mapInfo, s.mapInfo, id) && InfoIndexed(s, id);
          assert SeenAt(h, s0, q, s, got, s.mapInfo[id].randomPos);
        }
      }
    } else {
      var k := DrawIndex(rand, n, |s.vRandom|);
      var t := SwapRandom(s, n, k);
      SwapBehind(h, s0, q, s, n, got, k);
      SwapRandomIs(s, n, k);
      var id := t.vRandom[n];
      var got' := if id in t.mapInfo && Wanted(h, q, t.mapInfo[id]) then got + [id] else got;
      TakeNext(h, s0, q, t, n, got, got');
      DrawnAll(h, s0, q, t, rand, n + 1, got');
    }
  }

  /** The answer of GetAddr, whatever is drawn. */
  lemma GetAddrIs(h: Hashing, s: State, q: AddrQuery, rand: nat -> nat)
    requires Indexed(s)
    ensures Answer(h, s, q, GetAddrFrom(h, s, q, rand, 0, []).1)
  {
    forall j ensures OnlyMoved(s.mapInfo, s.mapInfo, j) {}
    DrawnAll(h, s, q, s, rand, 0, []);
  }

  /** The first place goes to the entry that is drawn for it. */
  lemma FirstDrawn(h: Hashing, s: State, q: AddrQuery, rand: nat -> nat, n: nat, got: seq<Id>)
    requires Indexed(s) && n < |s.vRandom| && |got| < q.limit
    ensures var s' := GetAddrFrom(h, s, q, rand, n, got).0;
      |s'.vRandom| == |s.vRandom| && s'.vRandom[n] == s.vRandom[n + rand(n) % (|s.vRandom| - n)]
  {
    var k := DrawIndex(rand, n, |s.vRandom|);
    var t := SwapRandom(s, n, k);
    SwapRandomIndexed(s, n, k);
    SwapRandomIs(s, n, k);
    var id := t.vRandom[n];
    EarlierStay(h, t, q, rand, n + 1, if id in t.mapInfo && Wanted(h, q, t.mapInfo[id]) then got + [id] else got, n);
  }

  lemma {:induction false} EarlierStay(h: Hashing, s: State, q: AddrQuery, rand: nat -> nat, n: nat, got: seq<Id>, k: nat)
    requires Indexed(s) && k < n <= |s.vRandom|
    ensures var s' := GetAddrFrom(h, s, q, rand, n, got).0; |s'.vRandom| == |s.vRandom| && s'.vRandom[k] == s.vRandom[k]
    decreases |s.vRandom| - n
  {
    if n < |s.vRandom| && |got| < q.limit {
      var i := DrawIndex(rand, n, |s.vRandom|);
      var t := SwapRandom(s, n, i);
      SwapRandomIndexed(s, n, i);
      SwapRandomIs(s, n, i);
      var id := t.vRandom[n];
      EarlierStay(h, t, q, rand, n + 1, if id in t.mapInfo && Wanted(h, q, t.mapInfo[id]) then got + [id] else got, k);
    }
  }
}
