module BlockIndex {

  /**
   The block index: a tree of blocks under one genesis block, with a skip pointer per block.

   Everything the skip pointers speed up is specified by the naive walk along `pprev`.
   */

  import opened SkipHeights

  // ----- blocks

  class Block {
    const pprev: Block?
    const nHeight: int
    var pskip: Block?

    constructor (pprev: Block?)
      ensures this.pprev == pprev && pskip == null
      ensures nHeight == if pprev == null then 0 else pprev.nHeight + 1
    {
      this.pprev := pprev;
      nHeight := if pprev == null then 0 else pprev.nHeight + 1;
      pskip := null;
    }
  }

  /** Following `pprev` counts the height down to a block without a predecessor. */
  ghost predicate Rooted(b: Block)
    decreases b.nHeight
  {
    && b.nHeight >= 0
    && (b.pprev == null ==> b.nHeight == 0)
    && (b.pprev != null ==> b.pprev.nHeight == b.nHeight - 1 && b.nHeight > 0 && Rooted(b.pprev))
  }

  /** The naive walk: the ancestor of `b` at height `h`. */
  ghost function Walk(b: Block, h: nat): (r: Block)
    requires Rooted(b) && h <= b.nHeight
    ensures Rooted(r) && r.nHeight == h
    decreases b.nHeight
  {
    if b.nHeight == h then b else Walk(b.pprev, h)
  }

  ghost predicate IsAncestor(a: Block, b: Block)
    requires Rooted(b)
  {
    0 <= a.nHeight <= b.nHeight && Walk(b, a.nHeight) == a
  }

  lemma {:induction false} WalkTwice(b: Block, h: nat, g: nat)
    requires Rooted(b) && g <= h <= b.nHeight
    ensures Walk(Walk(b, h), g) == Walk(b, g)
    decreases b.nHeight
  {
    if b.nHeight != h { WalkTwice(b.pprev, h, g); }
  }

  /** Two chains that meet at some height agree at every lower height. */
  lemma AgreeBelow(a: Block, b: Block, h: nat, g: nat)
    requires Rooted(a) && Rooted(b) && g <= h <= a.nHeight && h <= b.nHeight
    requires Walk(a, h) == Walk(b, h)
    ensures Walk(a, g) == Walk(b, g)
  {
    WalkTwice(a, h, g);
    WalkTwice(b, h, g);
  }

  // ----- trees

  ghost predicate BlockOk(b: Block, genesis: Block, blocks: set<Block>)
    reads b
  {
    && Rooted(b)
    && (b.pprev == null ==> b == genesis && b.pskip == null)
    && (b.pprev != null ==> b.pprev in blocks && b.pskip == Walk(b.pprev, GetSkipHeight(b.nHeight)))
  }

  ghost predicate TreeOk(genesis: Block, blocks: set<Block>)
    reads blocks
  {
    genesis in blocks && forall b :: b in blocks ==> BlockOk(b, genesis, blocks)
  }

  lemma {:induction false} WalkStays(genesis: Block, blocks: set<Block>, b: Block, h: nat)
    requires TreeOk(genesis, blocks) && b in blocks && h <= b.nHeight
    ensures Rooted(b) && Walk(b, h) in blocks
    decreases b.nHeight
  {
    assert BlockOk(b, genesis, blocks);
    if b.nHeight != h { WalkStays(genesis, blocks, b.pprev, h); }
  }

  /** The skip pointer is the ancestor at the skip height, and it stays in the tree. */
  lemma SkipIsWalk(genesis: Block, blocks: set<Block>, b: Block)
    requires TreeOk(genesis, blocks) && b in blocks && b.nHeight > 0
    ensures Rooted(b) && b.pprev != null && b.pprev in blocks
    ensures b.pskip == Walk(b, GetSkipHeight(b.nHeight)) && b.pskip in blocks
  {
    assert BlockOk(b, genesis, blocks);
    WalkStays(genesis, blocks, b.pprev, GetSkipHeight(b.nHeight));
  }

  lemma RootIsGenesis(genesis: Block, blocks: set<Block>, b: Block)
    requires TreeOk(genesis, blocks) && b in blocks
    ensures Rooted(b) && Walk(b, 0) == genesis
  {
    WalkStays(genesis, blocks, b, 0);
    assert BlockOk(Walk(b, 0), genesis, blocks);
  }

  // ----- CBlockIndex::GetAncestor

  /**
   Skip pointers and `pprev` steps in any mix lead to the block the naive walk finds, in fewer steps than the square of
   the number of bits of the height, plus one.
   */
  method GetAncestor(ghost genesis: Block, ghost blocks: set<Block>, b: Block, height: int)
    returns (r: Block?, ghost steps: nat)
    requires TreeOk(genesis, blocks) && b in blocks
    ensures b.nHeight >= 0 && steps < SquareOfLength(b.nHeight)
    ensures height < 0 || height > b.nHeight ==> r == null
    ensures 0 <= height <= b.nHeight ==> Rooted(b) && r == Walk(b, height) && r in blocks
  {
    assert BlockOk(b, genesis, blocks);
    steps := 0;
    FewSteps(b.nHeight, if height < 0 then 0 else height);
    if height > b.nHeight || height < 0 { return null, steps; }
    var walk := b;
    while walk.nHeight > height
      invariant walk in blocks && Rooted(walk) && walk.nHeight >= height && Walk(walk, height) == Walk(b, height)
      invariant steps + Steps(walk.nHeight, height) == Steps(b.nHeight, height)
      decreases walk.nHeight
    {
      walk := Follow(genesis, blocks, walk, height);
      steps := steps + 1;
    }
    WalkStays(genesis, blocks, b, height);
    r := walk;
  }

  /** One step of the walk; `pskip` is only followed if the `pskip` of the block before is not better. */
  method Follow(ghost genesis: Block, ghost blocks: set<Block>, walk: Block, height: nat) returns (next: Block)
    requires TreeOk(genesis, blocks) && walk in blocks && Rooted(walk) && walk.nHeight > height
    ensures next in blocks && Rooted(next) && height <= next.nHeight == NextHeight(walk.nHeight, height)
    ensures Walk(next, height) == Walk(walk, height)
  {
    SkipIsWalk(genesis, blocks, walk);
    var heightSkip := GetSkipHeight(walk.nHeight);
    var heightSkipPrev := GetSkipHeight(walk.nHeight - 1);
    if walk.pskip != null &&
       (heightSkip == height ||
        (heightSkip > height && !(heightSkipPrev < heightSkip - 2 && heightSkipPrev >= height))) {
      WalkTwice(walk, heightSkip, height);
      next := walk.pskip;
    } else {
      next := walk.pprev;
    }
  }

  // ----- growing the tree

  class BlockTree {
    const genesis: Block
    ghost var blocks: set<Block>

    ghost predicate Valid()
      reads this, blocks
    {
      TreeOk(genesis, blocks)
    }

    constructor ()
      ensures Valid() && fresh(blocks) && blocks == {genesis}
    {
      var g := new Block(null);
      genesis := g;
      blocks := {g};
    }

    /** A block entering the index: link it to its predecessor, then CBlockIndex::BuildSkip. */
    method Insert(prev: Block) returns (b: Block)
      requires Valid() && prev in blocks
      modifies this
      ensures fresh(b) && blocks == old(blocks) + {b} && Valid()
      ensures b.pprev == prev && Rooted(b)
      ensures b.pskip == Walk(b, GetSkipHeight(b.nHeight))
    {
      assert BlockOk(prev, genesis, blocks);
      b := new Block(prev);
      BuildSkip(genesis, blocks, b);
      forall x | x in blocks ensures BlockOk(x, genesis, blocks + {b}) { assert BlockOk(x, genesis, blocks); }
      blocks := blocks + {b};
    }
  }

  /** CBlockIndex::BuildSkip. */
  method BuildSkip(ghost genesis: Block, ghost blocks: set<Block>, b: Block)
    requires TreeOk(genesis, blocks) && b !in blocks && b.pprev != null && b.pprev in blocks
    requires b.nHeight == b.pprev.nHeight + 1
    modifies b
    ensures Rooted(b) && b.pskip == Walk(b, GetSkipHeight(b.nHeight))
  {
    assert BlockOk(b.pprev, genesis, blocks);
    ghost var steps;
    var skip: Block?;
    skip, steps := GetAncestor(genesis, blocks, b.pprev, GetSkipHeight(b.nHeight));
    b.pskip := skip;
  }

  // ----- LastCommonAncestor

  /** Above height `h` the two chains differ. */
  ghost predicate Apart(a: Block, b: Block, h: int)
    requires Rooted(a) && Rooted(b)
  {
    forall g :: 0 <= g && h < g <= a.nHeight && g <= b.nHeight ==> Walk(a, g) != Walk(b, g)
  }

  lemma ApartBelow(a: Block, b: Block, low: nat)
    requires Rooted(a) && Rooted(b) && low <= a.nHeight && low <= b.nHeight
    requires Walk(a, low) != Walk(b, low)
    ensures Apart(a, b, low - 1)
  {
    forall g | 0 <= g && low - 1 < g <= a.nHeight && g <= b.nHeight ensures Walk(a, g) != Walk(b, g) {
      if Walk(a, g) == Walk(b, g) { AgreeBelow(a, b, g, low); }
    }
  }

  /** The highest block that is an ancestor of (or equal to) both. */
  ghost predicate IsLastCommon(a: Block, b: Block, r: Block)
    requires Rooted(a) && Rooted(b)
  {
    IsAncestor(r, a) && IsAncestor(r, b) && Apart(a, b, r.nHeight)
  }

  method LastCommonAncestor(ghost genesis: Block, ghost blocks: set<Block>, a: Block, b: Block) returns (r: Block)
    requires TreeOk(genesis, blocks) && a in blocks && b in blocks
    ensures r in blocks && Rooted(a) && Rooted(b) && IsLastCommon(a, b, r)
  {
    assert BlockOk(a, genesis, blocks) && BlockOk(b, genesis, blocks);
    var pa, pb: Block := a, b;
    ghost var steps;
    if pa.nHeight > pb.nHeight {
      pa, steps := GetAncestor(genesis, blocks, pa, pb.nHeight);
    } else if pb.nHeight > pa.nHeight {
      pb, steps := GetAncestor(genesis, blocks, pb, pa.nHeight);
    }
    while pa != pb
      invariant pa in blocks && pb in blocks && pa.nHeight == pb.nHeight
      invariant IsAncestor(pa, a) && IsAncestor(pb, b) && Apart(a, b, pa.nHeight)
      decreases pa.nHeight
    {
      pa, pb := SkipApart(genesis, blocks, a, b, pa, pb);
      SkipIsWalk(genesis, blocks, pa);
      SkipIsWalk(genesis, blocks, pb);
      ApartBelow(a, b, pa.nHeight);
      WalkTwice(a, pa.nHeight, pa.nHeight - 1);
      WalkTwice(b, pb.nHeight, pb.nHeight - 1);
      pa, pb := pa.pprev, pb.pprev;
    }
    r := pa;
  }

  /** The inner loop: jump back until both have a common skip pointer. */
  method SkipApart(ghost genesis: Block, ghost blocks: set<Block>, ghost a: Block, ghost b: Block, pa0: Block,
                   pb0: Block)
    returns (pa: Block, pb: Block)
    requires TreeOk(genesis, blocks) && Rooted(a) && Rooted(b)
    requires pa0 in blocks && pb0 in blocks && pa0.nHeight == pb0.nHeight && pa0 != pb0
    requires IsAncestor(pa0, a) && IsAncestor(pb0, b)
    ensures pa in blocks && pb in blocks && pa.nHeight == pb.nHeight <= pa0.nHeight && pa != pb
    ensures IsAncestor(pa, a) && IsAncestor(pb, b) && pa.nHeight > 0
    ensures pa.pskip == pb.pskip
  {
    pa, pb := pa0, pb0;
    DifferentAreHigh(genesis, blocks, pa, pb);
    while pa.pskip != pb.pskip
      invariant pa in blocks && pb in blocks && pa.nHeight == pb.nHeight <= pa0.nHeight && pa != pb
      invariant IsAncestor(pa, a) && IsAncestor(pb, b) && pa.nHeight > 0
      decreases pa.nHeight
    {
      SkipIsWalk(genesis, blocks, pa);
      SkipIsWalk(genesis, blocks, pb);
      WalkTwice(a, pa.nHeight, GetSkipHeight(pa.nHeight));
      WalkTwice(b, pb.nHeight, GetSkipHeight(pb.nHeight));
      pa, pb := pa.pskip, pb.pskip;
      DifferentAreHigh(genesis, blocks, pa, pb);
    }
  }

  /** There is only one block at height 0, so distinct blocks of equal height have predecessors and skips. */
  lemma DifferentAreHigh(genesis: Block, blocks: set<Block>, a: Block, b: Block)
    requires TreeOk(genesis, blocks) && a in blocks && b in blocks && a.nHeight == b.nHeight && a != b
    ensures a.nHeight > 0
  {
    RootIsGenesis(genesis, blocks, a);
    RootIsGenesis(genesis, blocks, b);
  }

  /** The specification determines the block. */
  lemma LastCommonIsUnique(a: Block, b: Block, r: Block, q: Block)
    requires Rooted(a) && Rooted(b) && IsLastCommon(a, b, r)
    requires IsAncestor(q, a) && IsAncestor(q, b)
    ensures Rooted(r) && IsAncestor(q, r)
    ensures IsLastCommon(a, b, q) ==> q == r
  {
    assert Walk(a, q.nHeight) == Walk(b, q.nHeight);
    WalkTwice(a, r.nHeight, q.nHeight);
  }
}
