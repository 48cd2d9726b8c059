/** The map from short ids to free slots (src/blockencodings.cpp, InitData). */
module CompactBlockIds {
  import opened CompactBlock

  /** p is the k-th free slot. */
  ghost predicate FreeSlot(s: seq<Slot>, k: nat, p: nat) { p < |s| && s[p].Empty? && FreeBelow(s, p) == k }

  lemma FreeSlotUnique(s: seq<Slot>, k: nat, p: nat, q: nat)
    requires FreeSlot(s, k, p) && FreeSlot(s, k, q)
    ensures p == q
  {
    if p < q {
      FreeNext(s, p);
      FreeGrows(s, p + 1, q);
    } else if q < p {
      FreeNext(s, q);
      FreeGrows(s, q + 1, p);
    }
  }

  predicate Distinct(ids: seq<ShortId>) { forall i, j :: 0 <= i < j < |ids| ==> ids[i] != ids[j] }

  ghost predicate Source(s: seq<Slot>, ids: seq<ShortId>, i: nat, m: map<ShortId, nat>, x: ShortId, k: nat) {
    k < i <= |ids| && ids[k] == x && x in m && FreeSlot(s, k, m[x])
  }

  ghost predicate KeyOk(s: seq<Slot>, ids: seq<ShortId>, i: nat, m: map<ShortId, nat>, x: ShortId) {
    x in m ==> exists k: nat :: Source(s, ids, i, m, x, k)
  }

  ghost predicate Known(ids: seq<ShortId>, m: map<ShortId, nat>, k: int) { 0 <= k < |ids| ==> ids[k] in m }

  /** The first i short ids are entered; equal ids have been overwritten. */
  ghost predicate Mapping(s: seq<Slot>, ids: seq<ShortId>, i: nat, m: map<ShortId, nat>) {
    && i <= |ids| && |m| <= i
    && (forall k {:trigger Known(ids[..i], m, k)} :: Known(ids[..i], m, k))
    && (forall x {:trigger KeyOk(s, ids, i, m, x)} :: KeyOk(s, ids, i, m, x))
    && (|m| == i <==> Distinct(ids[..i]))
  }

  lemma MapSize(m: map<ShortId, nat>, x: ShortId, p: nat)
    ensures |m[x := p]| == if x in m then |m| else |m| + 1
  {
    assert m[x := p].Keys == m.Keys + {x};
    assert |m| == |m.Keys| && |m[x := p]| == |m[x := p].Keys|;
  }

  lemma DistinctNext(ids: seq<ShortId>, i: nat)
    requires i < |ids|
    ensures Distinct(ids[..i + 1]) <==> Distinct(ids[..i]) && forall k :: 0 <= k < i ==> ids[k] != ids[i]
  {
    if Distinct(ids[..i + 1]) {
      forall k | 0 <= k < i ensures ids[k] != ids[i] { assert ids[..i + 1][k] != ids[..i + 1][i]; }
      forall j, k | 0 <= j < k < i ensures ids[..i][j] != ids[..i][k] { assert ids[..i + 1][j] != ids[..i + 1][k]; }
    }
  }

  lemma MappingNext(s: seq<Slot>, ids: seq<ShortId>, i: nat, m: map<ShortId, nat>, p: nat)
    requires i < |ids| && Mapping(s, ids, i, m) && FreeSlot(s, i, p)
    ensures Mapping(s, ids, i + 1, m[ids[i] := p])
  {
    var m', n := m[ids[i] := p], i + 1;
    MapSize(m, ids[i], p);
    DistinctNext(ids, i);
    forall k ensures Known(ids[..n], m', k) { assert Known(ids[..i], m, k); }
    forall x ensures KeyOk(s, ids, n, m', x) {
      assert KeyOk(s, ids, i, m, x);
      if x == ids[i] {
        assert Source(s, ids, n, m', x, i);
      } else if x in m {
        var k: nat :| Source(s, ids, i, m, x, k);
        assert Source(s, ids, n, m', x, k);
      }
    }
    if ids[i] in m {
      assert KeyOk(s, ids, i, m, ids[i]);
      var k: nat :| Source(s, ids, i, m, ids[i], k);
      assert ids[k] == ids[i];
    } else {
      forall k | 0 <= k < i ensures ids[k] != ids[i] { assert Known(ids[..i], m, k); }
    }
  }

  /** The finished map takes the k-th short id to the k-th free slot. */
  ghost predicate MappedAt(s: seq<Slot>, ids: seq<ShortId>, m: map<ShortId, nat>, k: int) {
    0 <= k < |ids| ==> ids[k] in m && FreeSlot(s, k, m[ids[k]])
  }

  ghost predicate Mapped(s: seq<Slot>, ids: seq<ShortId>, m: map<ShortId, nat>) {
    && |m| == |ids| && Distinct(ids)
    && (forall k {:trigger MappedAt(s, ids, m, k)} :: MappedAt(s, ids, m, k))
    && (forall x {:trigger KeyOk(s, ids, |ids|, m, x)} :: KeyOk(s, ids, |ids|, m, x))
  }

  lemma MappingDone(s: seq<Slot>, ids: seq<ShortId>, m: map<ShortId, nat>)
    requires Mapping(s, ids, |ids|, m) && |m| == |ids|
    ensures Mapped(s, ids, m)
  {
    assert ids[..|ids|] == ids;
    forall k ensures MappedAt(s, ids, m, k) {
      if 0 <= k < |ids| {
        assert Known(ids, m, k);
        assert KeyOk(s, ids, |ids|, m, ids[k]);
        var j: nat :| Source(s, ids, |ids|, m, ids[k], j);
        assert j == k;
      }
    }
  }

  /** Short ids and free slots correspond one to one. */
  lemma OneToOne(s: seq<Slot>, ids: seq<ShortId>, m: map<ShortId, nat>, p: nat)
    requires Mapped(s, ids, m) && FreeBelow(s, |s|) == |ids| && p < |s|
    ensures s[p].Empty? <==> exists x :: x in m && m[x] == p
    ensures forall x, y :: x in m && y in m && m[x] == m[y] ==> x == y
  {
    if s[p].Empty? {
      var k := FreeBelow(s, p);
      FreeNext(s, p);
      FreeGrows(s, p + 1, |s|);
      assert MappedAt(s, ids, m, k);
      FreeSlotUnique(s, k, p, m[ids[k]]);
    }
    forall x | x in m ensures m[x] < |s| && s[m[x]].Empty? { assert KeyOk(s, ids, |ids|, m, x); }
    forall x, y | x in m && y in m && m[x] == m[y] ensures x == y {
      assert KeyOk(s, ids, |ids|, m, x) && KeyOk(s, ids, |ids|, m, y);
    }
  }

  datatype Status = OK | INVALID | FAILED

  /** The inner loop: the next free slot from p on, with k free slots before p. */
  method NextFree(s: seq<Slot>, start: nat, k: nat) returns (p: nat)
    requires start <= |s| && FreeBelow(s, start) == k < FreeBelow(s, |s|)
    ensures start <= p && FreeSlot(s, k, p) && FreeBelow(s, p + 1) == k + 1
  {
    p := start;
    while s[p].Have?
      invariant start <= p < |s| && FreeBelow(s, p) == k
      decreases |s| - p
    {
      FreeNext(s, p);
      p := p + 1;
    }
    FreeNext(s, p);
  }

  lemma MappingStart(s: seq<Slot>, ids: seq<ShortId>)
    ensures Mapping(s, ids, 0, map[])
  {
    forall x ensures KeyOk(s, ids, 0, map[], x) {}
    forall k ensures Known(ids[..0], map[], k) {}
  }

  ghost predicate Calm(crowded: nat -> bool, n: nat) { forall k: nat {:trigger crowded(k)} :: k < n ==> !crowded(k) }

  /** Walks the slots once, giving each short id the next free one; crowded stands for the
      hash map's bucket limit. */
  method MapShortIds(s: seq<Slot>, ids: seq<ShortId>, crowded: nat -> bool) returns (status: Status, m: map<ShortId, nat>)
    requires FreeBelow(s, |s|) == |ids| && |s| <= MAX_INDEX
    ensures status == OK ==> Mapped(s, ids, m)
    ensures status != INVALID
    ensures status == OK <==> Distinct(ids) && Calm(crowded, |ids|)
  {
    m := map[];
    var offset := 0;
    MappingStart(s, ids);
    for i := 0 to |ids|
      invariant 0 <= offset && i + offset <= |s| && FreeBelow(s, i + offset) == i
      invariant Mapping(s, ids, i, m) && Calm(crowded, i)
    {
      var p := NextFree(s, i + offset, i);
      offset := p - i;
      assert offset <= MAX_INDEX;
      MappingNext(s, ids, i, m, p);
      m := m[ids[i] := i + offset];
      if crowded(i) {
        return FAILED, m;
      }
    }
    assert ids[..|ids|] == ids;
    if |m| != |ids| {
      return FAILED, m;
    }
    MappingDone(s, ids, m);
    return OK, m;
  }
}
