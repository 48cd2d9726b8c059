/** Block index entries (src/chain.h, src/chain.cpp): the tree of blocks, its skip
    pointers and the searches that use them. */
module ChainIndex {

  // ---------- Skip heights ----------

  /** Bitwise and. */
  function BitAnd(a: nat, b: nat): (r: nat)
    ensures r <= a && r <= b
  {
    if a == 0 || b == 0 then 0
    else 2 * BitAnd(a / 2, b / 2) + if a % 2 == 1 && b % 2 == 1 then 1 else 0
  }

  function InvertLowestOne(n: nat): nat { if n == 0 then 0 else BitAnd(n, n - 1) }

  function GetSkipHeight(height: nat): (r: nat)
    ensures height > 0 ==> r < height
  {
    if height < 2 then 0
    else if height % 2 == 1 then InvertLowestOne(InvertLowestOne(height - 1)) + 1
    else InvertLowestOne(height)
  }

  // ---------- Entries ----------

  class BlockIndex {
    const pprev: BlockIndex?
    const nHeight: int
    var pskip: BlockIndex?
    /** The blocks from here back to the root. */
    ghost const branch: set<BlockIndex>

    constructor (pprev: BlockIndex?)
      requires pprev != null ==> pprev.Linked()
      ensures Linked() && this.pprev == pprev && pskip == null
    {
      this.pprev := pprev;
      nHeight := if pprev == null then 0 else pprev.nHeight + 1;
      pskip := null;
      branch := {this} + if pprev == null then {} else pprev.branch;
    }

    /** Heights count the steps to a block without predecessor. */
    ghost predicate Linked()
      decreases nHeight
    {
      && nHeight >= 0
      && branch == {this} + (if pprev == null then {} else pprev.branch)
      && if pprev == null then nHeight == 0 else pprev.nHeight == nHeight - 1 && pprev.Linked()
    }

    /** Walking pprev down to a height. */
    ghost function Ancestor(height: nat): (a: BlockIndex)
      requires Linked() && height <= nHeight
      ensures a.Linked() && a.nHeight == height && a.branch <= branch
      decreases nHeight
    {
      if height == nHeight then this else pprev.Ancestor(height)
    }

    ghost predicate SkipOk()
      requires Linked()
      reads this
    {
      if pprev == null then pskip == null
      else pskip == null || pskip == pprev.Ancestor(GetSkipHeight(nHeight))
    }

    /** Along the whole branch, skip pointers that are set are right. */
    ghost predicate SkipsOk()
      requires Linked()
      reads branch
      decreases nHeight
    {
      SkipOk() && (pprev != null ==> pprev.SkipsOk())
    }

    /** Along the whole branch, every skip pointer is set. */
    ghost predicate Built()
      requires Linked()
      reads branch
      decreases nHeight
    {
      SkipOk() && (pprev != null ==> pskip != null && pprev.Built())
    }

    lemma {:induction false} AncestorTwice(h: nat, k: nat)
      requires Linked() && k <= h <= nHeight
      ensures Ancestor(h).Ancestor(k) == Ancestor(k)
      decreases nHeight
    {
      if h < nHeight {
        pprev.AncestorTwice(h, k);
      }
    }

    lemma AncestorParent(h: nat)
      requires Linked() && h <= nHeight
      ensures Ancestor(h).pprev == if h == 0 then null else Ancestor(h - 1)
    {
      var a := Ancestor(h);
      assert a.Linked() && (a.pprev != null ==> a.pprev.Linked());
      if h > 0 {
        AncestorTwice(h, h - 1);
        assert a.Ancestor(h - 1) == a.pprev.Ancestor(h - 1) == a.pprev;
      }
    }

    lemma {:induction false} AncestorSkipsOk(h: nat)
      requires Linked() && h <= nHeight && SkipsOk()
      ensures Ancestor(h).SkipsOk()
      decreases nHeight
    {
      if h < nHeight {
        pprev.AncestorSkipsOk(h);
      }
    }

    lemma {:induction false} AncestorBuilt(h: nat)
      requires Linked() && h <= nHeight && Built()
      ensures Ancestor(h).Built()
      decreases nHeight
    {
      if h < nHeight {
        pprev.AncestorBuilt(h);
      }
    }

    lemma {:induction false} BuiltSkips()
      requires Linked() && Built()
      ensures SkipsOk()
      decreases nHeight
    {
      if pprev != null {
        pprev.BuiltSkips();
      }
    }

    /** Blocks of the same height, on whatever branches, skip to the same height. */
    lemma EqualSkips(b: BlockIndex)
      requires Linked() && b.Linked() && Built() && b.Built() && nHeight == b.nHeight
      ensures pskip == null <==> b.pskip == null
      ensures pskip != null && b.pskip != null ==> pskip.nHeight == b.pskip.nHeight < nHeight
    {
    }

    /** The skip list finds the block that walking one step at a time finds, whatever
        part of the skip pointers is set. */
    method GetAncestor(height: int) returns (a: BlockIndex?)
      requires Linked() && SkipsOk()
      ensures a == if 0 <= height <= nHeight then Ancestor(height) else null
    {
      if height > nHeight || height < 0 {
        return null;
      }
      var walk: BlockIndex := this;
      var heightWalk := nHeight;
      while heightWalk > height
        invariant height <= heightWalk <= nHeight && walk == Ancestor(heightWalk) && walk.SkipsOk()
      {
        var heightSkip, heightSkipPrev := GetSkipHeight(heightWalk), GetSkipHeight(heightWalk - 1);
        if walk.pskip != null
           && (heightSkip == height
               || (heightSkip > height && !(heightSkipPrev < heightSkip - 2 && heightSkipPrev >= height))) {
          AncestorTwice(heightWalk, heightSkip);
          walk.AncestorSkipsOk(heightSkip);
          walk := walk.pskip;
          heightWalk := heightSkip;
        } else {
          AncestorTwice(heightWalk, heightWalk - 1);
          walk := walk.pprev;
          heightWalk := heightWalk - 1;
        }
      }
      return walk;
    }

    lemma {:induction false} BranchHeights(b: BlockIndex)
      requires Linked() && b in branch
      ensures b.nHeight <= nHeight
      decreases nHeight
    {
      if b != this {
        pprev.BranchHeights(b);
      }
    }

    lemma NotBelowItself()
      requires Linked() && pprev != null
      ensures this !in pprev.branch
    {
      if this in pprev.branch {
        pprev.BranchHeights(this);
      }
    }

    method BuildSkip()
      requires Linked() && (pprev != null ==> pprev.Built())
      requires pprev == null ==> pskip == null
      modifies this
      ensures Built()
    {
      if pprev != null {
        var prev: BlockIndex, height := pprev, GetSkipHeight(nHeight);
        prev.BuiltSkips();
        var skip := prev.GetAncestor(height);
        SetSkip(skip);
      }
    }

    method SetSkip(skip: BlockIndex)
      requires Linked() && pprev != null && pprev.Built()
      requires skip == pprev.Ancestor(GetSkipHeight(nHeight))
      modifies this
      ensures Built()
    {
      NotBelowItself();
      pskip := skip;
    }
  }
}
