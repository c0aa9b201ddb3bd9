module ActiveChain {

  /** The active chain as a vector indexed by height, and block locators. */

  import Bits
  import opened BlockIndex

  /** `chain` lists the ancestors of its last block, each at the index of its height. */
  ghost predicate IsChain(chain: seq<Block?>) {
    chain == [] || IsChainTo(chain, chain[|chain| - 1])
  }

  ghost predicate IsChainTo(chain: seq<Block?>, tip: Block?) {
    && tip != null && Rooted(tip) && |chain| == tip.nHeight + 1
    && forall i :: 0 <= i < |chain| ==> chain[i] == Walk(tip, i)
  }

  /** A chain prefix that reaches `b` at its height agrees with the ancestors of `b` below it. */
  lemma PrefixAgrees(chain: seq<Block?>, b: Block, i: nat)
    requires IsChain(chain) && Rooted(b) && i <= b.nHeight < |chain| && chain[b.nHeight] == b
    ensures chain[i] == Walk(b, i)
  {
    WalkTwice(chain[|chain| - 1], b.nHeight, i);
  }

  class Chain {
    var vChain: seq<Block?>

    ghost predicate Valid()
      reads this
    {
      IsChain(vChain)
    }

    constructor ()
      ensures Valid() && vChain == []
    {
      vChain := [];
    }

    function Height(): int
      reads this
    {
      |vChain| - 1
    }

    predicate Contains(b: Block)
      reads this
    {
      0 <= b.nHeight < |vChain| && vChain[b.nHeight] == b
    }

    /** CChain::SetTip: it stops at the first block already in place, and that is enough. */
    method SetTip(block: Block)
      requires Valid() && Rooted(block)
      modifies this
      ensures IsChainTo(vChain, block) && Valid()
    {
      var before := vChain;
      vChain := if block.nHeight + 1 <= |vChain| then vChain[..block.nHeight + 1]
                else vChain + seq(block.nHeight + 1 - |vChain|, _ => null);
      ghost var resized := vChain;
      var pindex: Block? := block;
      while pindex != null && vChain[pindex.nHeight] != pindex
        invariant |vChain| == block.nHeight + 1 == |resized|
        invariant pindex != null ==> Rooted(pindex) && IsAncestor(pindex, block)
        invariant forall i :: (if pindex == null then -1 else pindex.nHeight) < i <= block.nHeight ==>
                    vChain[i] == Walk(block, i)
        invariant pindex != null ==> forall i :: 0 <= i <= pindex.nHeight ==> vChain[i] == resized[i]
        decreases if pindex == null then 0 else pindex.nHeight + 1
      {
        vChain := vChain[pindex.nHeight := pindex];
        if pindex.nHeight > 0 { WalkTwice(block, pindex.nHeight, pindex.nHeight - 1); }
        pindex := pindex.pprev;
      }
      if pindex != null {
        assert pindex.nHeight < |before| && before[pindex.nHeight] == pindex;
        forall i | 0 <= i <= pindex.nHeight ensures vChain[i] == Walk(block, i) {
          PrefixAgrees(before, pindex, i);
          WalkTwice(block, pindex.nHeight, i);
        }
      }
    }

    /** CChain::FindFork: the last block of this chain that is an ancestor of (or equal to) `b`. */
    method FindFork(ghost genesis: Block, ghost blocks: set<Block>, b: Block?) returns (r: Block?)
      requires Valid() && TreeOk(genesis, blocks)
      requires b != null ==> b in blocks
      requires vChain != [] ==> vChain[|vChain| - 1] in blocks
      ensures b == null || vChain == [] ==> r == null
      ensures b != null && vChain != [] ==>
                && r != null && Rooted(b) && Contains(r)
                && IsLastCommon(vChain[|vChain| - 1], b, r)
    {
      if b == null { return null; }
      assert BlockOk(b, genesis, blocks);
      var p: Block? := b;
      if p.nHeight > Height() {
        ghost var steps;
        p, steps := GetAncestor(genesis, blocks, p, Height());
      }
      if vChain == [] { return p; }
      ghost var tip := vChain[|vChain| - 1];
      while p != null && !Contains(p)
        invariant p != null && p in blocks && IsAncestor(p, b) && p.nHeight < |vChain|
        invariant Apart(tip, b, p.nHeight)
        decreases if p == null then 0 else p.nHeight + 1
      {
        assert BlockOk(p, genesis, blocks);
        ApartBelow(tip, b, p.nHeight);
        RootIsGenesis(genesis, blocks, tip);
        RootIsGenesis(genesis, blocks, p);
        WalkTwice(b, p.nHeight, p.nHeight - 1);
        p := p.pprev;
      }
      r := p;
    }
  }

  // ----- block locators

  /** Blocks going back from `b`, each an ancestor of `b`, in strictly descending order. */
  ghost predicate Descends(have: seq<Block>, b: Block)
    requires Rooted(b)
  {
    && (forall x :: x in have ==> IsAncestor(x, b))
    && (forall i, j :: 0 <= i < j < |have| ==> have[i].nHeight > have[j].nHeight)
  }

  lemma DescendsFurther(have: seq<Block>, b: Block, p: Block)
    requires Rooted(b) && Descends(have, b) && IsAncestor(p, b)
    requires have != [] ==> have[|have| - 1].nHeight > p.nHeight
    ensures Descends(have + [p], b)
  {
  }

  /** The height of the n-th entry in the locator of a block of height h. */
  function LocatorHeight(h: nat, n: nat): nat {
    var back := if n <= 10 then n else 9 + Bits.Pow2(n - 10);
    if h > back then h - back else 0
  }

  /** `step` is the distance from the n-th entry's successor to the one after it (or 1 for the first ones). */
  ghost predicate Spaced(h: nat, n: nat, height: nat, step: nat) {
    && height == LocatorHeight(h, n)
    && step == (if n <= 10 then 1 else Bits.Pow2(n - 10))
    && (n > 0 ==> LocatorHeight(h, n - 1) > 0)
  }

  lemma SpacedNext(h: nat, n: nat, height: nat, step: nat)
    requires Spaced(h, n, height, step) && height > 0
    ensures Spaced(h, n + 1, if height > step then height - step else 0, if n >= 10 then 2 * step else step)
    ensures n >= 10 ==> 2 * step < 2 * h + 2  // the doubled step fits an int for every height below 2^30
  {
  }

  /** `have` is the locator of `index` so far, and `p` the block that comes next. */
  ghost predicate Listing(have: seq<Block>, index: Block, p: Block, step: nat) {
    && Rooted(index) && IsAncestor(p, index) && Descends(have, index)
    && (if have == [] then p == index else have[0] == index && have[|have| - 1].nHeight > p.nHeight)
    && Spaced(index.nHeight, |have|, p.nHeight, step)
    && (forall i :: 0 <= i < |have| ==> have[i].nHeight == LocatorHeight(index.nHeight, i))
  }

  ghost predicate IsLocator(have: seq<Block>, index: Block) {
    && Rooted(index) && Descends(have, index)
    && |have| > 0 && have[0] == index && have[|have| - 1].nHeight == 0
    && (|have| > 12 ==> Bits.Pow2(|have| - 12) + 9 < index.nHeight)
    && (forall i :: 0 <= i < |have| ==> have[i].nHeight == LocatorHeight(index.nHeight, i))
  }

  lemma ListingNext(have: seq<Block>, index: Block, p: Block, step: nat, height: nat)
    requires Listing(have, index, p, step) && p.nHeight > 0
    requires height == if p.nHeight > step then p.nHeight - step else 0
    requires step > 0
    ensures Rooted(p)
    ensures Listing(have + [p], index, Walk(p, height), if |have| >= 10 then 2 * step else step)
  {
    DescendsFurther(have, index, p);
    SpacedNext(index.nHeight, |have|, p.nHeight, step);
    WalkTwice(index, p.nHeight, height);
  }

  lemma ListingEnds(have: seq<Block>, index: Block, p: Block, step: nat)
    requires Listing(have, index, p, step) && p.nHeight == 0
    ensures IsLocator(have + [p], index)
  {
    DescendsFurther(have, index, p);
  }

  /**
   LocatorEntries.  A locator lists the block, its nearest ancestors one by one, then ancestors at doubling
   distances, and ends with the genesis block; its length is logarithmic in the height.
   */
  method LocatorEntries(ghost genesis: Block, ghost blocks: set<Block>, index: Block?) returns (have: seq<Block>)
    requires TreeOk(genesis, blocks)
    requires index != null ==> index in blocks
    ensures index == null ==> have == []
    ensures index != null ==> IsLocator(have, index) && have[|have| - 1] == genesis
  {
    have := [];
    if index == null { return; }
    assert BlockOk(index, genesis, blocks);
    var p: Block, step: nat := index, 1;
    while true
      invariant p in blocks && step > 0 && Listing(have, index, p, step)
      decreases p.nHeight
    {
      if p.nHeight == 0 {
        ListingEnds(have, index, p, step);
        RootIsGenesis(genesis, blocks, p);
        have := have + [p];
        break;
      }
      var before := p;
      p, step := StepBack(genesis, blocks, have, index, p, step);
      have := have + [before];
    }
  }

  /** One turn of the loop: the entry after `p`, and the distance to the one after that. */
  method StepBack(ghost genesis: Block, ghost blocks: set<Block>, have: seq<Block>, ghost index: Block, p: Block,
                  step: nat)
    returns (next: Block, step': nat)
    requires TreeOk(genesis, blocks) && p in blocks && step > 0 && Listing(have, index, p, step) && p.nHeight > 0
    ensures next in blocks && step' > 0 && next.nHeight < p.nHeight && Listing(have + [p], index, next, step')
  {
    var height := if p.nHeight - step > 0 then p.nHeight - step else 0;
    ListingNext(have, index, p, step, height);
    assert BlockOk(p, genesis, blocks);
    ghost var steps;
    var r: Block?;
    r, steps := GetAncestor(genesis, blocks, p, height);
    next := r;
    step' := if |have| + 1 > 10 then step * 2 else step;
  }
}
