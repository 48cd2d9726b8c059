/** The active chain as an array by height, forks and locators (src/chain.cpp). */
module Chain {
  import opened ChainIndex
  import ArithShift

  // ---------- Common ancestors ----------

  function Lower(a: int, b: int): int { if a < b then a else b }

  ghost predicate AgreeAt(a: BlockIndex, b: BlockIndex, h: int)
    requires a.Linked() && b.Linked()
  {
    0 <= h <= a.nHeight && h <= b.nHeight && a.Ancestor(h) == b.Ancestor(h)
  }

  /** f is the highest block that is an ancestor of both; null when there is none. */
  ghost predicate IsFork(a: BlockIndex, b: BlockIndex, f: BlockIndex?)
    requires a.Linked() && b.Linked()
  {
    if f == null then forall h {:trigger AgreeAt(a, b, h)} :: !AgreeAt(a, b, h)
    else
      && f.Linked() && AgreeAt(a, b, f.nHeight) && f == a.Ancestor(f.nHeight)
      && forall h {:trigger AgreeAt(a, b, h)} :: AgreeAt(a, b, h) ==> h <= f.nHeight
  }

  /** Branches that meet stay together below. */
  lemma MeetOnce(a: BlockIndex, b: BlockIndex, h: int, k: int)
    requires a.Linked() && b.Linked() && AgreeAt(a, b, h) && 0 <= k <= h
    ensures AgreeAt(a, b, k)
  {
    a.AncestorTwice(h, k);
    b.AncestorTwice(h, k);
  }

  lemma ForkUnique(a: BlockIndex, b: BlockIndex, f: BlockIndex?, g: BlockIndex?)
    requires a.Linked() && b.Linked() && IsFork(a, b, f) && IsFork(a, b, g)
    ensures f == g
  {
    assert f != null ==> AgreeAt(a, b, f.nHeight);
    assert g != null ==> AgreeAt(a, b, g.nHeight);
  }

  /** The branches meet at or below height n, if at all. */
  ghost predicate MeetBelow(a: BlockIndex, b: BlockIndex, n: int)
    requires a.Linked() && b.Linked()
  {
    forall x {:trigger AgreeAt(a, b, x)} :: AgreeAt(a, b, x) ==> x <= n
  }

  lemma DifferAt(a: BlockIndex, b: BlockIndex, h: int)
    requires a.Linked() && b.Linked() && 0 <= h && !AgreeAt(a, b, h)
    ensures MeetBelow(a, b, h - 1)
  {
    forall x | AgreeAt(a, b, x) ensures x <= h - 1 {
      if h <= x {
        MeetOnce(a, b, x, h);
      }
    }
  }

  lemma AgreeOfAncestors(a: BlockIndex, b: BlockIndex, c: BlockIndex, d: BlockIndex, x: int)
    requires a.Linked() && b.Linked() && 0 <= c.nHeight <= a.nHeight && 0 <= d.nHeight <= b.nHeight
    requires c == a.Ancestor(c.nHeight) && d == b.Ancestor(d.nHeight)
    ensures AgreeAt(c, d, x) <==> AgreeAt(a, b, x) && x <= c.nHeight && x <= d.nHeight
  {
    if 0 <= x <= c.nHeight && x <= d.nHeight {
      a.AncestorTwice(c.nHeight, x);
      b.AncestorTwice(d.nHeight, x);
    }
  }

  /** Rewinding to a height below which the branches meet keeps the fork. */
  lemma ForkOfAncestors(a: BlockIndex, b: BlockIndex, c: BlockIndex, d: BlockIndex, f: BlockIndex?)
    requires a.Linked() && b.Linked() && 0 <= c.nHeight <= a.nHeight && 0 <= d.nHeight <= b.nHeight
    requires c == a.Ancestor(c.nHeight) && d == b.Ancestor(d.nHeight)
    requires MeetBelow(a, b, c.nHeight) && MeetBelow(a, b, d.nHeight) && IsFork(c, d, f)
    ensures IsFork(a, b, f)
  {
    forall x ensures AgreeAt(a, b, x) <==> AgreeAt(c, d, x) { AgreeOfAncestors(a, b, c, d, x); }
    if f != null {
      a.AncestorTwice(c.nHeight, f.nHeight);
    }
  }

  method LastCommonAncestor(a: BlockIndex, b: BlockIndex) returns (f: BlockIndex?)
    requires a.Linked() && b.Linked() && a.Built() && b.Built()
    ensures IsFork(a, b, f)
  {
    a.BuiltSkips();
    b.BuiltSkips();
    var pa, pb := a, b;
    var height := Lower(a.nHeight, b.nHeight);
    if a.nHeight > b.nHeight {
      pa := a.GetAncestor(b.nHeight);
    } else if b.nHeight > a.nHeight {
      pb := b.GetAncestor(a.nHeight);
    }
    a.AncestorBuilt(height);
    b.AncestorBuilt(height);
    f := Meet(pa, pb);
    ForkOfAncestors(a, b, pa, pb, f);
  }

  /** The rewinding loop for two blocks of the same height. */
  method Meet(a: BlockIndex, b: BlockIndex) returns (f: BlockIndex?)
    requires a.Linked() && b.Linked() && a.nHeight == b.nHeight && a.Built() && b.Built()
    ensures IsFork(a, b, f)
    decreases a.nHeight
  {
    var pa: BlockIndex, pb: BlockIndex := a, b;
    while pa != pb
      invariant pa.Linked() && pb.Linked() && pa.nHeight == pb.nHeight <= a.nHeight
      invariant pa == a.Ancestor(pa.nHeight) && pb == b.Ancestor(pb.nHeight) && pa.Built() && pb.Built()
      invariant MeetBelow(a, b, pa.nHeight)
      decreases pa.nHeight
    {
      pa, pb := SkipTogether(a, b, pa, pb);
      DifferAt(a, b, pa.nHeight);
      if pa.pprev == null {
        return null;
      }
      a.AncestorParent(pa.nHeight);
      b.AncestorParent(pa.nHeight);
      pa, pb := pa.pprev, pb.pprev;
    }
    assert AgreeAt(a, b, pa.nHeight);
    return pa;
  }

  /** The inner loop: follow skip pointers while they differ. */
  method SkipTogether(a: BlockIndex, b: BlockIndex, fromA: BlockIndex, fromB: BlockIndex)
    returns (pa: BlockIndex, pb: BlockIndex)
    requires a.Linked() && b.Linked() && fromA.nHeight == fromB.nHeight <= a.nHeight == b.nHeight
    requires fromA.Linked() && fromB.Linked() && fromA.Built() && fromB.Built() && fromA != fromB
    requires fromA == a.Ancestor(fromA.nHeight) && fromB == b.Ancestor(fromB.nHeight)
    ensures pa.Linked() && pb.Linked() && pa.Built() && pb.Built() && pa.nHeight == pb.nHeight <= fromA.nHeight
    ensures pa == a.Ancestor(pa.nHeight) && pb == b.Ancestor(pb.nHeight) && pa != pb && pa.pskip == pb.pskip
  {
    pa, pb := fromA, fromB;
    while pa.pskip != pb.pskip
      invariant pa.Linked() && pb.Linked() && pa.Built() && pb.Built() && pa.nHeight == pb.nHeight <= fromA.nHeight
      invariant pa == a.Ancestor(pa.nHeight) && pb == b.Ancestor(pb.nHeight) && pa != pb
      decreases pa.nHeight
    {
      var h := GetSkipHeight(pa.nHeight);
      a.AncestorTwice(pa.nHeight, h);
      b.AncestorTwice(pb.nHeight, h);
      pa.AncestorBuilt(h);
      pb.AncestorBuilt(h);
      pa, pb := pa.pskip, pb.pskip;
    }
  }

  // ---------- The active chain ----------

  /** The entry at height h is linked to the one below. */
  ghost predicate EntryAt(v: seq<BlockIndex?>, h: int) {
    0 <= h < |v| ==> v[h] != null && v[h].Linked() && v[h].nHeight == h && (h > 0 ==> v[h].pprev == v[h - 1])
  }

  ghost predicate IsChain(v: seq<BlockIndex?>) {
    forall h {:trigger EntryAt(v, h)} :: EntryAt(v, h)
  }

  /** A chain is its tip's branch. */
  lemma {:induction false} ChainIsBranch(v: seq<BlockIndex?>, t: int, h: int)
    requires IsChain(v) && 0 <= h <= t < |v|
    ensures v[t] != null && v[t].Linked() && v[t].nHeight == t && v[h] == v[t].Ancestor(h)
    decreases t
  {
    assert EntryAt(v, t);
    if h < t {
      ChainIsBranch(v, t - 1, h);
    }
  }

  class ActiveChain {
    var vChain: seq<BlockIndex?>

    constructor ()
      ensures IsChain(vChain) && vChain == []
    {
      vChain := [];
    }

    function Height(): int
      reads this
    {
      |vChain| - 1
    }

    function At(h: int): BlockIndex?
      reads this
    {
      if h < 0 || h >= |vChain| then null else vChain[h]
    }

    predicate Contains(b: BlockIndex)
      reads this
    {
      At(b.nHeight) == b
    }

    /** In a chain with a tip, the blocks it contains are the tip's ancestors. */
    lemma ContainsIsAncestor(b: BlockIndex)
      requires IsChain(vChain) && vChain != [] && b.Linked()
      ensures var tip := vChain[|vChain| - 1];
              && tip != null && tip.Linked()
              && (Contains(b) <==> b.nHeight <= tip.nHeight && b == tip.Ancestor(b.nHeight))
    {
      ChainIsBranch(vChain, |vChain| - 1, |vChain| - 1);
      if b.nHeight < |vChain| {
        ChainIsBranch(vChain, |vChain| - 1, b.nHeight);
      }
    }

    /** Rewrites entries only down to the first that already agrees, and still ends with
        the whole branch of the new tip. */
    method SetTip(block: BlockIndex)
      requires IsChain(vChain) && block.Linked()
      modifies this
      ensures IsChain(vChain) && IsBranchOf(vChain, block, 0)
    {
      ghost var before := vChain;
      var n := block.nHeight + 1;
      if n <= |vChain| {
        vChain := vChain[..n];
      } else {
        vChain := vChain + seq(n - |vChain|, _ => null);
      }
      var pindex: BlockIndex? := block;
      ghost var k := n;
      while pindex != null && vChain[pindex.nHeight] != pindex
        invariant 0 <= k <= n && IsBranchOf(vChain, block, k)
        invariant pindex == if k == 0 then null else block.Ancestor(k - 1)
        invariant forall h {:trigger vChain[h]} :: 0 <= h < k ==> vChain[h] == if h < |before| then before[h] else null
        decreases k
      {
        vChain := vChain[pindex.nHeight := pindex];
        block.AncestorParent(k - 1);
        pindex := pindex.pprev;
        k := k - 1;
      }
      if k > 0 {
        RestIsBranch(before, vChain, block, k);
      }
      BranchIsChain(vChain, block);
    }

    /** The highest block of the chain that is an ancestor of index. */
    method FindFork(index: BlockIndex) returns (f: BlockIndex?)
      requires IsChain(vChain) && index.Linked() && index.SkipsOk()
      ensures vChain == [] ==> f == null
      ensures vChain != [] ==> vChain[|vChain| - 1] != null && vChain[|vChain| - 1].Linked()
                               && IsFork(index, vChain[|vChain| - 1], f)
    {
      var pindex: BlockIndex? := index;
      if index.nHeight > Height() {
        pindex := index.GetAncestor(Height());
      }
      if vChain == [] {
        return pindex;
      }
      ChainIsBranch(vChain, |vChain| - 1, |vChain| - 1);
      ghost var tip: BlockIndex := vChain[|vChain| - 1];
      while pindex != null && !Contains(pindex)
        invariant pindex == null ==> MeetBelow(index, tip, -1)
        invariant pindex != null ==>
                    && 0 <= pindex.nHeight <= index.nHeight && pindex == index.Ancestor(pindex.nHeight)
                    && MeetBelow(index, tip, pindex.nHeight)
        decreases pindex != null, if pindex == null then 0 else pindex.nHeight
      {
        ContainsIsAncestor(pindex);
        DifferAt(index, tip, pindex.nHeight);
        index.AncestorParent(pindex.nHeight);
        pindex := pindex.pprev;
      }
      if pindex != null {
        ContainsIsAncestor(pindex);
        assert AgreeAt(index, tip, pindex.nHeight);
      }
      return pindex;
    }
  }

  /** From height k up, v is the branch of tip. */
  ghost predicate IsBranchOf(v: seq<BlockIndex?>, tip: BlockIndex, k: int) {
    && tip.Linked() && |v| == tip.nHeight + 1
    && forall h {:trigger v[h]} :: 0 <= h < |v| && k <= h ==> v[h] == tip.Ancestor(h)
  }

  lemma BranchIsChain(v: seq<BlockIndex?>, tip: BlockIndex)
    requires IsBranchOf(v, tip, 0)
    ensures IsChain(v)
  {
    forall h ensures EntryAt(v, h) {
      if 0 < h < |v| {
        tip.AncestorParent(h);
        assert v[h] == tip.Ancestor(h) && v[h - 1] == tip.Ancestor(h - 1);
      }
    }
  }

  /** Below an entry where an old chain agrees with the branch, it agrees everywhere. */
  lemma RestIsBranch(before: seq<BlockIndex?>, v: seq<BlockIndex?>, tip: BlockIndex, k: int)
    requires IsChain(before) && IsBranchOf(v, tip, k) && 0 < k <= |v| && v[k - 1] == tip.Ancestor(k - 1)
    requires forall h {:trigger v[h]} :: 0 <= h < k ==> v[h] == if h < |before| then before[h] else null
    ensures IsBranchOf(v, tip, 0)
  {
    forall h | 0 <= h < k ensures v[h] == tip.Ancestor(h) {
      assert before[k - 1] == v[k - 1];
      ChainIsBranch(before, k - 1, h);
      tip.AncestorTwice(k - 1, h);
    }
  }

  // ---------- Locators ----------

  /** The k-th step back: eleven single steps, then doubling. */
  function StepBack(k: nat): (r: nat)
    ensures r >= 1
  {
    if k <= 10 then 1 else 2 * StepBack(k - 1)
  }

  function StepsBack(k: nat): nat { if k == 0 then 0 else StepsBack(k - 1) + StepBack(k - 1) }

  /** Height of the k-th locator entry of a block at height h. */
  function LocatorHeight(h: nat, k: nat): nat { if StepsBack(k) >= h then 0 else h - StepsBack(k) }

  method LocatorEntries(index: BlockIndex) returns (have: seq<BlockIndex>)
    requires index.Linked() && index.SkipsOk()
    ensures |have| > 0 && have[0] == index && have[|have| - 1].nHeight == 0
    ensures forall k {:trigger have[k]} :: 0 <= k < |have| ==> have[k] == index.Ancestor(LocatorHeight(index.nHeight, k))
    ensures forall k {:trigger have[k]} :: 0 <= k < |have| - 1 ==> have[k].nHeight > 0
  {
    var step, at: BlockIndex := 1, index;
    have := [];
    while true
      invariant at.Linked() && at == index.Ancestor(LocatorHeight(index.nHeight, |have|)) && at.SkipsOk()
      invariant step == StepBack(|have|)
      invariant |have| > 0 ==> have[0] == index
      invariant forall k {:trigger have[k]} :: 0 <= k < |have| ==>
                  have[k] == index.Ancestor(LocatorHeight(index.nHeight, k)) && have[k].nHeight > 0
      decreases at.nHeight
    {
      have := have + [at];
      if at.nHeight == 0 {
        break;
      }
      var height := if at.nHeight - step > 0 then at.nHeight - step else 0;
      index.AncestorTwice(at.nHeight, height);
      at.AncestorSkipsOk(height);
      at := at.GetAncestor(height);
      if |have| > 10 {
        step := step * 2;
      }
    }
  }

  lemma {:induction false} StepsBackGrow(k: nat)
    ensures k <= 10 ==> StepsBack(k) == k
    ensures k >= 11 ==> StepBack(k) == ArithShift.Pow2(k - 10) && StepsBack(k) == 9 + ArithShift.Pow2(k - 10)
  {
    if k > 0 {
      StepsBackGrow(k - 1);
    }
  }

  /** A locator has a number of entries logarithmic in the height: with n > 12 entries the
      block is higher than 2^(n - 12). */
  lemma LocatorIsShort(h: nat, n: nat)
    requires n > 12 && LocatorHeight(h, n - 2) > 0
    ensures h > 9 + ArithShift.Pow2(n - 12)
  {
    StepsBackGrow(n - 2);
  }
}
