/** The block tree of chain.cpp: blocks that point to their predecessor and, through pskip, far
    back; the active chain; forks and locators. */
module BlockIndex {
  import opened Limbs
  import opened SkipList

  // ---------- blocks ----------

  type Hash = nat

  class Block {
    const hash: Hash
    const pprev: Block?
    const nHeight: nat
    var pskip: Block?

    /** A block on top of `prev`, or a genesis block; pskip is set by BuildSkip. */
    constructor (hash: Hash, prev: Block?)
      requires prev != null ==> Linked(prev)
      ensures Linked(this) && this.hash == hash && pprev == prev && pskip == null
    {
      this.hash := hash;
      pprev := prev;
      nHeight := if prev == null then 0 else prev.nHeight + 1;
      pskip := null;
    }

    method BuildSkip()
      requires Linked(this) && (pprev != null ==> SkipsOk(pprev)) && pskip == null
      modifies this`pskip
      ensures SkipsOk(this) && (pprev != null ==> pskip == Ancestor(this, GetSkipHeight(nHeight)))
    {
      LineBelow(this);
      if pprev != null {
        var skip, steps := pprev.GetAncestor(GetSkipHeight(nHeight));
        pskip := skip;
      }
    }

    /** The ancestor at a height, or null when there is none; the skip list is only a shortcut.
        Where all skip pointers are built, the walk has the length that SkipList computes. */
    method GetAncestor(height: int) returns (r: Block?, ghost steps: nat)
      requires Linked(this) && SkipsOk(this)
      ensures SkipsOk(this)
      ensures 0 <= height <= nHeight ==> r == Ancestor(this, height)
      ensures 0 <= height <= nHeight && Built(this) ==> steps == WalkSteps(nHeight, height)
      ensures !(0 <= height <= nHeight) ==> r == null && steps == 0
    {
      hide GetSkipHeight;
      steps := 0;
      if height > nHeight || height < 0 {
        return null, steps;
      }
      var walk: Block := this;
      while walk.nHeight > height
        invariant SkipsOk(this)
        invariant Linked(walk) && height <= walk.nHeight <= nHeight && walk == Ancestor(this, walk.nHeight)
        invariant Built(this) ==> steps + WalkSteps(walk.nHeight, height) == WalkSteps(nHeight, height)
        decreases walk.nHeight
      {
        var skip := GetSkipHeight(walk.nHeight);
        var skipPrev := GetSkipHeight(walk.nHeight - 1);
        SkipsBelow(this, walk.nHeight);
        if walk.pskip != null && (skip == height || (skip > height && !(skipPrev < skip - 2 && skipPrev >= height))) {
          AncestorOfAncestor(this, walk.nHeight, skip);
          AncestorLinked(walk, skip);
          walk := walk.pskip;
        } else {
          AncestorOfAncestor(this, walk.nHeight, walk.nHeight - 1);
          walk := walk.pprev;
        }
        steps := steps + 1;
      }
      return walk, steps;
    }
  }

  /** Heights count the predecessors. */
  ghost predicate Linked(b: Block)
    decreases b.nHeight
  {
    if b.pprev == null then b.nHeight == 0 else b.nHeight == b.pprev.nHeight + 1 && Linked(b.pprev)
  }

  /** The walk along pprev. */
  ghost function Ancestor(b: Block, h: int): Block
    requires Linked(b) && 0 <= h <= b.nHeight
    decreases b.nHeight
  {
    if h == b.nHeight then b else Ancestor(b.pprev, h)
  }

  /** A block and all its ancestors. */
  ghost function Line(b: Block): set<Block>
    requires Linked(b)
    decreases b.nHeight
  {
    if b.pprev == null then {b} else {b} + Line(b.pprev)
  }

  lemma {:induction false} AncestorLinked(b: Block, h: int)
    requires Linked(b) && 0 <= h <= b.nHeight
    ensures Linked(Ancestor(b, h)) && Ancestor(b, h).nHeight == h
    decreases b.nHeight
  {
    if h < b.nHeight {
      AncestorLinked(b.pprev, h);
    }
  }

  lemma {:induction false} AncestorOfAncestor(b: Block, h: int, h': int)
    requires Linked(b) && 0 <= h' <= h <= b.nHeight
    ensures Linked(Ancestor(b, h)) && Ancestor(b, h).nHeight == h && Ancestor(Ancestor(b, h), h') == Ancestor(b, h')
    decreases b.nHeight
  {
    if h < b.nHeight {
      AncestorOfAncestor(b.pprev, h, h');
    }
  }

  lemma {:induction false} LineIs(b: Block, x: Block)
    requires Linked(b) && x in Line(b)
    ensures x.nHeight <= b.nHeight && Linked(x) && Ancestor(b, x.nHeight) == x
    decreases b.nHeight
  {
    if x != b {
      LineIs(b.pprev, x);
    }
  }

  lemma LineBelow(b: Block)
    requires Linked(b)
    ensures b.pprev != null ==> b !in Line(b.pprev)
  {
    if b.pprev != null && b in Line(b.pprev) {
      LineIs(b.pprev, b);
    }
  }

  ghost predicate SkipOk(b: Block)
    reads b
  {
    b.pskip != null ==> Linked(b) && b.nHeight > 0 && b.pskip == Ancestor(b, GetSkipHeight(b.nHeight))
  }

  ghost predicate SkipsOk(b: Block)
    requires Linked(b)
    reads Line(b)
    decreases b.nHeight
  {
    SkipOk(b) && (b.pprev != null ==> SkipsOk(b.pprev))
  }

  /** Every block but the genesis block has its skip pointer. */
  ghost predicate Built(b: Block)
    requires Linked(b)
    reads Line(b)
    decreases b.nHeight
  {
    b.pprev != null ==> b.pskip != null && Built(b.pprev)
  }

  lemma {:induction false} SkipsBelow(b: Block, h: int)
    requires Linked(b) && SkipsOk(b) && 0 <= h <= b.nHeight
    ensures Linked(Ancestor(b, h)) && SkipsOk(Ancestor(b, h)) && (Built(b) ==> Built(Ancestor(b, h)))
    decreases b.nHeight
  {
    if h < b.nHeight {
      SkipsBelow(b.pprev, h);
    }
  }

  // ---------- trees ----------

  /** Blocks closed under predecessors, with every skip pointer built and right. */
  ghost predicate Tree(blocks: set<Block>)
    reads blocks
  {
    forall x :: x in blocks ==> Linked(x) && SkipOk(x) && (x.pprev != null ==> x.pskip != null && x.pprev in blocks)
  }

  lemma {:induction false} TreeSkips(blocks: set<Block>, b: Block)
    requires Tree(blocks) && b in blocks
    ensures SkipsOk(b) && Built(b)
    decreases b.nHeight
  {
    if b.pprev != null {
      TreeSkips(blocks, b.pprev);
    }
  }

  /** A block is added on top of any block, or as a genesis block. */
  method AddBlock(ghost blocks: set<Block>, hash: Hash, prev: Block?) returns (b: Block)
    requires Tree(blocks) && (prev != null ==> prev in blocks)
    ensures fresh(b) && b.hash == hash && b.pprev == prev && Tree(blocks + {b})
  {
    b := new Block(hash, prev);
    if prev != null {
      TreeSkips(blocks, prev);
    }
    b.BuildSkip();
  }

  // ---------- the active chain ----------

  ghost predicate IsChain(v: seq<Block?>) {
    forall i :: 0 <= i < |v| ==>
      v[i] != null && Linked(v[i]) && v[i].nHeight == i && (i > 0 ==> v[i].pprev == v[i - 1])
  }

  lemma {:induction false} ChainAncestor(v: seq<Block?>, i: nat, j: nat)
    requires IsChain(v) && j <= i < |v|
    ensures v[i] != null && v[j] != null && Linked(v[i]) && v[i].nHeight == i && v[j] == Ancestor(v[i], j)
    decreases i
  {
    if j < i {
      ChainAncestor(v, i - 1, j);
    }
  }

  /** v lists the ancestors of a block by height. */
  ghost predicate ChainOf(v: seq<Block?>, b: Block)
    requires Linked(b)
  {
    |v| == b.nHeight + 1 && forall i :: 0 <= i < |v| ==> v[i] == Ancestor(b, i)
  }

  lemma ChainOfIsChain(v: seq<Block?>, b: Block)
    requires Linked(b) && ChainOf(v, b)
    ensures IsChain(v)
  {
    forall i | 0 <= i < |v|
      ensures v[i] != null && Linked(v[i]) && v[i].nHeight == i && (i > 0 ==> v[i].pprev == v[i - 1])
    {
      AncestorLinked(b, i);
      if i > 0 {
        AncestorOfAncestor(b, i, i - 1);
      }
    }
  }

  /** Below a common block a chain already lists the block's ancestors. */
  lemma BelowCommon(v: seq<Block?>, b: Block, h: nat)
    requires IsChain(v) && Linked(b) && h < |v| && h <= b.nHeight && v[h] == Ancestor(b, h)
    ensures forall i :: 0 <= i <= h ==> v[i] == Ancestor(b, i)
  {
    forall i | 0 <= i <= h ensures v[i] == Ancestor(b, i) {
      ChainAncestor(v, h, i);
      AncestorOfAncestor(b, h, i);
    }
  }

  class Chain {
    var vChain: seq<Block?>

    constructor ()
      ensures vChain == []
    {
      vChain := [];
    }

    function Height(): int
      reads this
    {
      |vChain| - 1
    }

    function At(h: int): Block?
      reads this
    {
      if h < 0 || h >= |vChain| then null else vChain[h]
    }

    predicate Contains(b: Block)
      reads this
    {
      At(b.nHeight) == b
    }

    /** Walks back from the new tip only until it meets the old chain. */
    method SetTip(block: Block)
      requires IsChain(vChain) && Linked(block)
      modifies this
      ensures ChainOf(vChain, block) && IsChain(vChain)
    {
      ghost var was := vChain;
      var n := block.nHeight + 1;
      vChain := if n <= |vChain| then vChain[..n] else vChain + seq(n - |vChain|, i => null);
      var pindex: Block? := block;
      var h := n;
      while pindex != null && vChain[pindex.nHeight] != pindex
        invariant 0 <= h <= n == |vChain| && (pindex == null <==> h == 0)
        invariant pindex != null ==> Linked(pindex) && pindex.nHeight == h - 1 && pindex == Ancestor(block, h - 1)
        invariant forall i :: h <= i < n ==> vChain[i] == Ancestor(block, i)
        invariant forall i :: 0 <= i < h ==> vChain[i] == if i < |was| then was[i] else null
        decreases h
      {
        AncestorOfAncestor(block, h - 1, if h >= 2 then h - 2 else 0);
        vChain := vChain[pindex.nHeight := pindex];
        pindex := pindex.pprev;
        h := h - 1;
      }
      if pindex != null {
        assert h <= |was| && was[h - 1] == Ancestor(block, h - 1);
        BelowCommon(was, block, h - 1);
      }
      ChainOfIsChain(vChain, block);
    }

    /** The highest ancestor of a block that is in this chain. */
    method FindFork(start: Block?) returns (r: Block?)
      requires IsChain(vChain) && (start != null ==> Linked(start) && SkipsOk(start))
      ensures r != null
              ==> start != null && r.nHeight <= start.nHeight && r == Ancestor(start, r.nHeight) && Contains(r)
      ensures start != null ==>
                forall h :: 0 <= h <= start.nHeight && Contains(Ancestor(start, h)) ==> r != null && h <= r.nHeight
    {
      if start == null {
        return null;
      }
      r := start;
      if start.nHeight > Height() {
        ghost var steps;
        r, steps := start.GetAncestor(Height());
      }
      forall h | 0 <= h <= start.nHeight ensures Linked(Ancestor(start, h)) && Ancestor(start, h).nHeight == h {
        AncestorLinked(start, h);
      }
      while r != null && !Contains(r)
        invariant IsChain(vChain)
        invariant r != null ==> Linked(r) && r.nHeight <= start.nHeight && r == Ancestor(start, r.nHeight)
        invariant forall h :: 0 <= h <= start.nHeight && Contains(Ancestor(start, h)) ==> r != null && h <= r.nHeight
        decreases if r == null then 0 else r.nHeight + 1
      {
        if r.nHeight > 0 {
          AncestorOfAncestor(start, r.nHeight, r.nHeight - 1);
        }
        r := r.pprev;
      }
    }
  }

  // ---------- common ancestors ----------

  /** The highest block that both blocks descend from, or null when they have different genesis
      blocks. */
  method LastCommonAncestor(a: Block, b: Block) returns (r: Block?)
    requires Linked(a) && SkipsOk(a) && Linked(b) && SkipsOk(b)
    ensures r != null ==>
              r.nHeight <= a.nHeight && r.nHeight <= b.nHeight && Ancestor(a, r.nHeight) == r == Ancestor(b, r.nHeight)
    ensures forall h :: 0 <= h <= a.nHeight && h <= b.nHeight && Ancestor(a, h) == Ancestor(b, h) ==>
              r != null && h <= r.nHeight
  {
    var pa: Block?, pb: Block? := a, b;
    ghost var steps;
    if a.nHeight > b.nHeight {
      pa, steps := a.GetAncestor(b.nHeight);
    } else if b.nHeight > a.nHeight {
      pb, steps := b.GetAncestor(a.nHeight);
    }
    ghost var top := if a.nHeight < b.nHeight then a.nHeight else b.nHeight;
    AncestorLinked(a, top);
    AncestorLinked(b, top);
    ghost var k: int := top;
    while pa != pb && pa != null && pb != null
      invariant -1 <= k <= top && (pa == null <==> k == -1) && (pb == null <==> k == -1)
      invariant k >= 0 ==> pa == Ancestor(a, k) && pb == Ancestor(b, k)
      invariant k >= 0 ==> Linked(pa) && Linked(pb) && pa.nHeight == k == pb.nHeight
      invariant forall h :: k < h <= top ==> Ancestor(a, h) != Ancestor(b, h)
      decreases k
    {
      if k > 0 {
        AncestorOfAncestor(a, k, k - 1);
        AncestorOfAncestor(b, k, k - 1);
      }
      pa, pb := pa.pprev, pb.pprev;
      k := k - 1;
    }
    return pa;
  }

  // ---------- locators ----------

  /** How far below the start entry i lies: single steps first, then doubling ones. */
  function Gone(i: nat): nat { if i < 10 then i else Two(i - 10) + 9 }

  function StepAt(i: nat): nat { if i <= 10 then 1 else Two(i - 10) }

  function EntryHeight(height: nat, i: nat): (r: nat)
    ensures r <= height
  {
    if Gone(i) < height then height - Gone(i) else 0
  }

  lemma GoneNext(i: nat)
    ensures Gone(i + 1) == Gone(i) + StepAt(i)
    ensures i >= 10 ==> StepAt(i + 1) == 2 * StepAt(i)
    ensures i < 10 ==> StepAt(i + 1) == StepAt(i)
  {
    TwoStep(if i >= 10 then i - 10 else 0);
    assert Two(0) == 1;
  }

  lemma EntryNext(height: nat, i: nat)
    requires EntryHeight(height, i) > 0
    ensures EntryHeight(height, i + 1) ==
            if EntryHeight(height, i) > StepAt(i) then EntryHeight(height, i) - StepAt(i) else 0
    ensures StepAt(i) > 0 && StepAt(i + 1) == if i >= 10 then 2 * StepAt(i) else StepAt(i)
  {
    hide Gone, StepAt;
    GoneNext(i);
    StepPositive(i);
  }

  lemma EntryStart(height: nat)
    ensures EntryHeight(height, 0) == height && StepAt(0) == 1
  {
    FirstStep();
  }

  /** The blocks whose hashes make up a locator. */
  ghost predicate IsLocator(r: seq<Block>, b: Block)
    requires Linked(b)
  {
    && |r| > 0
    && (forall i :: 0 <= i < |r| ==> r[i] == Ancestor(b, EntryHeight(b.nHeight, i)))
    && (forall i :: 0 <= i < |r| - 1 ==> EntryHeight(b.nHeight, i) > 0)
    && EntryHeight(b.nHeight, |r| - 1) == 0
  }

  predicate HashesOf(have: seq<Hash>, blocks: seq<Block>) {
    |have| == |blocks| && forall i :: 0 <= i < |have| ==> have[i] == blocks[i].hash
  }

  method LocatorEntries(start: Block?) returns (have: seq<Hash>, ghost blocks: seq<Block>)
    requires start != null ==> Linked(start) && SkipsOk(start)
    ensures HashesOf(have, blocks)
    ensures start == null ==> have == []
    ensures start != null ==> IsLocator(blocks, start)
  {
    hide EntryHeight, StepAt;
    have, blocks := [], [];
    if start == null {
      return;
    }
    var index: Block := start;
    var step := 1;
    EntryStart(start.nHeight);
    while true
      invariant Linked(index) && SkipsOk(index) && step == StepAt(|have|) && HashesOf(have, blocks)
      invariant index == Ancestor(start, EntryHeight(start.nHeight, |have|))
                && index.nHeight == EntryHeight(start.nHeight, |have|)
      invariant forall i :: 0 <= i < |have| ==>
                  blocks[i] == Ancestor(start, EntryHeight(start.nHeight, i)) && EntryHeight(start.nHeight, i) > 0
      decreases index.nHeight
    {
      have, blocks := have + [index.hash], blocks + [index];
      if index.nHeight == 0 {
        return;
      }
      EntryNext(start.nHeight, |have| - 1);
      var height := if index.nHeight - step > 0 then index.nHeight - step else 0;
      AncestorOfAncestor(start, index.nHeight, height);
      AncestorLinked(start, height);
      var next, steps := index.GetAncestor(height);
      SkipsBelow(index, height);
      index := next;
      if |have| > 10 {
        step := step * 2;
      }
    }
  }

  lemma FirstStep()
    ensures Gone(0) == 0 && StepAt(0) == 1
  {
  }

  lemma StepPositive(i: nat)
    ensures StepAt(i) > 0
  {
  }

  /** A locator runs strictly down from the block to the genesis block. */
  lemma LocatorDescends(r: seq<Block>, b: Block)
    requires Linked(b) && IsLocator(r, b)
    ensures r[0] == b && r[|r| - 1].nHeight == 0
    ensures forall i :: 0 <= i < |r| - 1 ==> r[i].nHeight > r[i + 1].nHeight
  {
    hide Gone, StepAt;
    FirstStep();
    forall i | 0 <= i < |r| ensures r[i].nHeight == EntryHeight(b.nHeight, i) {
      AncestorLinked(b, EntryHeight(b.nHeight, i));
    }
    forall i | 0 <= i < |r| - 1 ensures r[i].nHeight > r[i + 1].nHeight {
      GoneNext(i);
      StepPositive(i);
      assert EntryHeight(b.nHeight, i) > 0;
    }
  }

  /** Its length is logarithmic in the height. */
  lemma LocatorShort(r: seq<Block>, b: Block)
    requires Linked(b) && IsLocator(r, b) && |r| >= 12
    ensures b.nHeight >= Two(|r| - 12) + 10
  {
    assert EntryHeight(b.nHeight, |r| - 2) > 0;
  }

  /** The doubling step fits in 31 bits for every chain of up to 2^30 blocks. */
  lemma LocatorStepFits(height: nat, i: nat)
    requires height <= Two(30) && EntryHeight(height, i) > 0
    ensures StepAt(i + 1) <= Two(30)
  {
    hide Two;
    TwoOne();
    if i >= 10 {
      TwoOrder(i - 10, 30);
      TwoOrder(i - 9, 30);
    } else {
      TwoOrder(0, 30);
      TwoOrder(1, 30);
    }
  }

  lemma {:induction false} TwoOrder(m: nat, n: nat)
    ensures m <= n <==> Two(m) <= Two(n)
  {
    if m > 0 && n > 0 {
      TwoOrder(m - 1, n - 1);
      TwoStep(m - 1);
      TwoStep(n - 1);
    } else {
      assert Two(0) == 1;
      if m > 0 {
        TwoStep(m - 1);
      }
    }
  }
}
