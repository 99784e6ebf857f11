/** What an accepted merged-mining proof shows, and which proofs are accepted: the script read as a whole, the two
    merkle trees behind the branches, and the leaf of a chain. */
module AuxPowProof {
  import opened Options
  import opened Arithmetic
  import opened Radix
  import opened Limbs
  import opened AuxPow
  import opened Merkle

  // ---------- the script ----------

  function Little32(n: nat): Bytes
    requires n < BASE
  {
    [n % 0x100, n / 0x100 % 0x100, n / 0x1_0000 % 0x100, n / 0x100_0000]
  }

  lemma ReadLittle(s: Bytes, i: nat, n: nat)
    requires n < BASE && i + 4 <= |s| && s[i..i + 4] == Little32(n)
    ensures Read32(s, i) == n
  {
    var l := s[i..i + 4];
    assert l[0] == s[i] && l[1] == s[i + 1] && l[2] == s[i + 2] && l[3] == s[i + 3];
    Recomposed(n);
  }

  lemma Recomposed(n: nat)
    ensures n == n % 0x100 + 0x100 * (n / 0x100 % 0x100) + 0x1_0000 * (n / 0x1_0000 % 0x100)
                 + 0x100_0000 * (n / 0x100_0000)
  {
    var a, b, c, d := n % 0x100, n / 0x100 % 0x100, n / 0x100 / 0x100 % 0x100, n / 0x100 / 0x100 / 0x100;
    assert n == 0x100 * (n / 0x100) + a && n / 0x100 == 0x100 * (n / 0x100 / 0x100) + b;
    assert n / 0x100 / 0x100 == 0x100 * d + c;
    DivModUnique(n, 0x1_0000, 0x100 * d + c, 0x100 * b + a);
    DivModUnique(n, 0x100_0000, d, 0x1_0000 * c + 0x100 * b + a);
  }

  lemma LittleRead(s: Bytes, i: nat)
    requires i + 4 <= |s|
    ensures Read32(s, i) < BASE && Little32(Read32(s, i)) == s[i..i + 4]
  {
    FourBytes(s[i] as nat, s[i + 1] as nat, s[i + 2] as nat, s[i + 3] as nat);
  }

  lemma FourBytes(a: nat, b: nat, c: nat, d: nat)
    requires a < 0x100 && b < 0x100 && c < 0x100 && d < 0x100
    ensures var n := a + 0x100 * b + 0x1_0000 * c + 0x100_0000 * d;
            n < BASE && n % 0x100 == a && n / 0x100 % 0x100 == b && n / 0x1_0000 % 0x100 == c && n / 0x100_0000 == d
  {
    var n := a + 0x100 * b + 0x1_0000 * c + 0x100_0000 * d;
    DivModUnique(n, 0x100, b + 0x100 * c + 0x1_0000 * d, a);
    DivModUnique(b + 0x100 * c + 0x1_0000 * d, 0x100, c + 0x100 * d, b);
    DivModUnique(n, 0x1_0000, c + 0x100 * d, a + 0x100 * b);
    DivModUnique(c + 0x100 * d, 0x100, d, c);
    DivModUnique(n, 0x100_0000, d, a + 0x100 * b + 0x1_0000 * c);
  }

  /** The root, the tree size and the nonce stand in the script one after the other. The root is not found earlier.
      Either the header is in the script once, just before the root, or it is not there and the root starts in the
      first twenty bytes or just after them. */
  ghost predicate Layout(script: Bytes, root: Bytes, size: nat, nonce: nat, pre: Bytes, post: Bytes)
    requires size < BASE && nonce < BASE
  {
    && script == pre + root + Little32(size) + Little32(nonce) + post
    && (forall k :: 0 <= k < |pre| ==> !Occurs(script, root, k))
    && (|| (forall k :: Occurs(script, HEADER, k) <==> k == |pre| - 4)
        || (|pre| <= 20 && forall k :: !Occurs(script, HEADER, k)))
  }

  ghost predicate Carries(script: Bytes, root: Bytes, size: nat, chainId: int, index: nat, height: nat)
    requires size < BASE
  {
    exists pre: Bytes, nonce: nat, post: Bytes ::
      nonce < BASE && Layout(script, root, size, nonce, pre, post) && index == ExpectedIndex(nonce, chainId, height)
  }

  /** Where the first occurrence is, if there is one. */
  lemma SearchIs(s: Bytes, pattern: Bytes, at: nat)
    requires |pattern| > 0 && Occurs(s, pattern, at) && forall k :: 0 <= k < at ==> !Occurs(s, pattern, k)
    ensures Search(s, pattern, 0) == at
  {
    var i := Search(s, pattern, 0);
    assert i < at ==> Occurs(s, pattern, i);
  }

  lemma HeaderPlaced(script: Bytes, at: nat)
    requires at <= |script|
    ensures RootPlaced(script, at) <==>
            || (at >= 4 && forall k :: Occurs(script, HEADER, k) <==> k == at - 4)
            || (at <= 20 && forall k :: !Occurs(script, HEADER, k))
  {
    var i := Search(script, HEADER, 0);
    if i < |script| {
      assert Occurs(script, HEADER, i);
      var j := Search(script, HEADER, i + 1);
      assert j < |script| ==> Occurs(script, HEADER, j);
      assert forall k :: Occurs(script, HEADER, k) ==> i <= k < |script|;
      if j == |script| {
        assert forall k :: Occurs(script, HEADER, k) <==> k == i;
      }
    } else {
      assert forall k :: Occurs(script, HEADER, k) ==> 0 <= k < |script|;
      assert !Occurs(script, HEADER, at - 4);
    }
  }

  lemma Split(script: Bytes, at: nat, n: nat)
    requires at + n + 8 <= |script|
    ensures script == script[..at] + script[at..at + n] + script[at + n..at + n + 4] + script[at + n + 4..at + n + 8]
                      + script[at + n + 8..]
  {
  }

  lemma Joined(pre: Bytes, root: Bytes, size: Bytes, nonce: Bytes, post: Bytes)
    requires |size| == |nonce| == 4
    ensures var s, at, end := pre + root + size + nonce + post, |pre|, |pre| + |root|;
            && |s| >= end + 8 && s[..at] == pre && s[at..end] == root
            && s[end..end + 4] == size && s[end + 4..end + 8] == nonce
  {
  }

  lemma SizeFits(height: nat)
    requires height <= MAX_HEIGHT
    ensures Two(height) < BASE
  {
    hide Pow;
    PowMonotone(2, height, MAX_HEIGHT);
    TwoThirty();
  }

  /** The script says what Check reads from it. */
  lemma ScriptExactly(script: Bytes, root: Bytes, p: Proof, chainId: int)
    requires |root| == HASH_SIZE && |p.chainBranch| <= MAX_HEIGHT
    ensures Two(|p.chainBranch|) < BASE
    ensures (var at := Search(script, root, 0);
             at != |script| && RootPlaced(script, at) && AuxPow.Committed(script, at + |root|, p, chainId)) <==>
            Carries(script, root, Two(|p.chainBranch|), chainId, p.chainIndex, |p.chainBranch|)
  {
    hide Two, ExpectedIndex, RootPlaced;
    var height := |p.chainBranch|;
    SizeFits(height);
    var size := Two(height);
    var at := Search(script, root, 0);
    if at != |script| && RootPlaced(script, at) && AuxPow.Committed(script, at + |root|, p, chainId) {
      ReadScript(script, root, size, at);
    }
    if Carries(script, root, size, chainId, p.chainIndex, height) {
      var pre: Bytes, nonce: nat, post: Bytes :|
        nonce < BASE && Layout(script, root, size, nonce, pre, post)
        && p.chainIndex == ExpectedIndex(nonce, chainId, height);
      LaidOut(script, root, size, nonce, pre, post);
    }
  }

  lemma ReadBytes(script: Bytes, root: Bytes, at: nat)
    requires Occurs(script, root, at) && at + |root| + 8 <= |script|
    ensures var size, nonce := Read32(script, at + |root|), Read32(script, at + |root| + 4);
            && size < BASE && nonce < BASE
            && script == script[..at] + root + Little32(size) + Little32(nonce) + script[at + |root| + 8..]
  {
    hide Read32, Little32;
    LittleRead(script, at + |root|);
    LittleRead(script, at + |root| + 4);
    Split(script, at, |root|);
  }

  lemma ReadScript(script: Bytes, root: Bytes, size: nat, at: nat)
    requires size < BASE && |root| == HASH_SIZE && at == Search(script, root, 0) < |script| && RootPlaced(script, at)
    requires at + |root| + 8 <= |script| && Read32(script, at + |root|) == size
    ensures var nonce := Read32(script, at + |root| + 4);
            nonce < BASE && Layout(script, root, size, nonce, script[..at], script[at + |root| + 8..])
  {
    hide Search, RootPlaced, Read32, Little32, Occurs;
    ReadBytes(script, root, at);
    HeaderPlaced(script, at);
    assert |script[..at]| == at;
  }

  lemma LaidOut(script: Bytes, root: Bytes, size: nat, nonce: nat, pre: Bytes, post: Bytes)
    requires size < BASE && nonce < BASE && |root| == HASH_SIZE && Layout(script, root, size, nonce, pre, post)
    ensures Search(script, root, 0) == |pre| && RootPlaced(script, |pre|) && |pre| + |root| + 8 <= |script|
    ensures Read32(script, |pre| + |root|) == size && Read32(script, |pre| + |root| + 4) == nonce
  {
    hide Search, RootPlaced, Read32;
    Joined(pre, root, Little32(size), Little32(nonce), post);
    HeaderPlaced(script, |pre|);
    assert Occurs(script, root, |pre|);
    SearchIs(script, root, |pre|);
    ReadLittle(script, |pre| + |root|, size);
    ReadLittle(script, |pre| + |root| + 4, nonce);
    assert Occurs(script, HEADER, |pre| - 4) ==> |pre| >= 4;
  }

  /** Main theorem. Exactly which proofs are accepted. */
  lemma CheckExactly(h: PairHash, p: Proof, aux: Hash, chainId: int, strict: bool)
    requires (forall a, b :: |h(a, b)| == HASH_SIZE) && |aux| == HASH_SIZE
    ensures Check(h, p, aux, chainId, strict) <==>
            && !(strict && p.parentChainId == chainId) && |p.chainBranch| <= 30
            && p.coinbase.Some? && Climb(h, p.coinbase.value.txid, p.merkleBranch, 0) == p.parentRoot
            && p.coinbase.value.scripts != [] && Two(|p.chainBranch|) < BASE
            && Carries(p.coinbase.value.scripts[0], Reversed(Root(h, p, aux)), Two(|p.chainBranch|), chainId,
                       p.chainIndex, |p.chainBranch|)
  {
    hide Two, Search, RootPlaced, AuxPow.Committed, Carries, Root;
    RootSize(h, p, aux);
    if |p.chainBranch| <= MAX_HEIGHT && p.coinbase.Some? && p.coinbase.value.scripts != [] {
      ScriptExactly(p.coinbase.value.scripts[0], Reversed(Root(h, p, aux)), p, chainId);
    }
  }

  // ---------- the trees behind the branches ----------

  /** The tree k levels up. */
  function Raised(h: PairHash, s: seq<Hash>, k: nat): (r: seq<Hash>)
    requires s != []
    ensures r != []
    decreases k
  {
    if k == 0 then s else Raised(h, Level(h, s), k - 1)
  }

  lemma {:induction false} RaisedRoot(h: PairHash, s: seq<Hash>, k: nat)
    requires s != [] && k <= Height(|s|)
    ensures TreeRoot(h, Raised(h, s, k)) == TreeRoot(h, s) && Height(|Raised(h, s, k)|) == Height(|s|) - k
    decreases k
  {
    if k > 0 {
      RaisedRoot(h, Level(h, s), k - 1);
    }
  }

  lemma {:induction false} ClimbOn(h: PairHash, hash: Hash, a: seq<Hash>, b: seq<Hash>)
    ensures Climb(h, hash, a + b, 0) == Climb(h, Climb(h, hash, a, 0), b, 0)
    decreases |a|
  {
    if a == [] {
      assert a + b == b;
    } else {
      assert (a + b)[1..] == a[1..] + b;
      ClimbOn(h, Parent(h, hash, a[0], 0), a[1..], b);
    }
  }

  /** The parent's coinbase. If the parent block's transactions are these and the branch has the height of their
      tree, the coinbase of an accepted proof is their first transaction. The height is not checked: a shorter branch
      starts at the first hash of a higher level, and of a longer one the first transaction is itself such a hash.
      In every case the only way out is a collision, which the two branches exhibit. */
  lemma CoinbaseProven(h: PairHash, p: Proof, aux: Hash, chainId: int, strict: bool, txs: seq<Hash>)
    requires Check(h, p, aux, chainId, strict) && txs != [] && p.parentRoot == TreeRoot(h, txs)
    ensures var txid, branch, n := p.coinbase.value.txid, p.merkleBranch, Height(|txs|);
            if |branch| <= n then
              var level := Raised(h, txs, n - |branch|);
              && |BranchOf(h, level, 0)| == |branch|
              && (txid == level[0] || FindCollision(h, txid, level[0], branch, BranchOf(h, level, 0), 0).Some?)
            else
              var low, high := branch[..|branch| - n], branch[|branch| - n..];
              var hash := Climb(h, txid, low, 0);
              hash == txs[0] || FindCollision(h, hash, txs[0], high, BranchOf(h, txs, 0), 0).Some?
  {
    hide FindCollision, BranchOf, RootPlaced, AuxPow.Committed;
    var txid, branch, n := p.coinbase.value.txid, p.merkleBranch, Height(|txs|);
    if |branch| <= n {
      RaisedRoot(h, txs, n - |branch|);
      BranchProves(h, Raised(h, txs, n - |branch|), 0, txid, branch);
    } else {
      var low, high := branch[..|branch| - n], branch[|branch| - n..];
      assert branch == low + high;
      ClimbOn(h, txid, low, high);
      BranchProves(h, txs, 0, Climb(h, txid, low, 0), high);
    }
  }

  lemma {:induction false} HeightOfTwo(n: nat)
    ensures Height(Two(n)) == n
  {
    if n > 0 {
      TwoDoubles(n);
      DivModUnique(Two(n) + 1, 2, Two(n - 1), 1);
      HeightOfTwo(n - 1);
    }
  }

  lemma TwoDoubles(n: nat)
    requires n > 0
    ensures Two(n) == 2 * Two(n - 1) > 1
  {
  }

  /** The merge-mined block. If the root in the coinbase is that of a tree of blocks of the size next to it, the
      block of an accepted proof is the one at the index that the nonce gives to the chain, or there is a collision. */
  lemma ChainProven(h: PairHash, p: Proof, aux: Hash, chainId: int, strict: bool, blocks: seq<Hash>)
    requires Check(h, p, aux, chainId, strict) && |blocks| == Two(|p.chainBranch|)
    requires Root(h, p, aux) == TreeRoot(h, blocks)
    ensures p.chainIndex < |blocks| && |BranchOf(h, blocks, p.chainIndex)| == |p.chainBranch|
    ensures aux == blocks[p.chainIndex] ||
            FindCollision(h, aux, blocks[p.chainIndex], p.chainBranch, BranchOf(h, blocks, p.chainIndex),
                          p.chainIndex).Some?
  {
    hide FindCollision, BranchOf, RootPlaced, Two, Search;
    SmallIndex(p.chainIndex, |p.chainBranch|);
    HeightOfTwo(|p.chainBranch|);
    BranchProves(h, blocks, p.chainIndex, aux, p.chainBranch);
  }

  /** The proof for a block of a tree whose root stands in the coinbase of a parent block. */
  function Honest(h: PairHash, script: Bytes, txs: seq<Hash>, blocks: seq<Hash>, index: nat, parentChainId: int): Proof
    requires txs != [] && index < |blocks|
  {
    Proof(Some(Coinbase(txs[0], [script])), BranchOf(h, txs, 0), BranchOf(h, blocks, index), index,
          TreeRoot(h, txs), parentChainId)
  }

  /** Such a proof is accepted for the block at the expected index, if the coinbase script carries the root, the
      size and the nonce of the tree as it should. */
  lemma HonestAccepted(h: PairHash, pre: Bytes, nonce: nat, post: Bytes, script: Bytes, txs: seq<Hash>,
                       blocks: seq<Hash>, height: nat, parentChainId: int, chainId: int, strict: bool)
    requires (forall a, b :: |h(a, b)| == HASH_SIZE) && forall i :: 0 <= i < |blocks| ==> |blocks[i]| == HASH_SIZE
    requires txs != [] && height <= 30 && |blocks| == Two(height) < BASE && nonce < BASE
    requires Layout(script, Reversed(TreeRoot(h, blocks)), Two(height), nonce, pre, post)
    requires !(strict && parentChainId == chainId)
    ensures var i := ExpectedIndex(nonce, chainId, height);
            Check(h, Honest(h, script, txs, blocks, i, parentChainId), blocks[i], chainId, strict)
  {
    hide Two, Layout, Check, ExpectedIndex, Reversed;
    var i := ExpectedIndex(nonce, chainId, height);
    var p := Honest(h, script, txs, blocks, i, parentChainId);
    HeightOfTwo(height);
    SmallIndex(i, height);
    BranchClimbs(h, txs, 0);
    BranchClimbs(h, blocks, i);
    assert Root(h, p, blocks[i]) == TreeRoot(h, blocks);
    CheckExactly(h, p, blocks[i], chainId, strict);
  }

  // ---------- the leaf of a chain ----------

  lemma ModMod(x: int, height: nat)
    requires height <= 32
    ensures x % BASE % Two(height) == x % Two(height)
  {
    hide Two;
    var m, k := Two(height), Two(32 - height);
    TwoAdd(height, 32 - height);
    Two32();
    var q := x / BASE;
    assert x == q * BASE + x % BASE;
    assert q * BASE == (q * k) * m by {
      MulAssociates(q, k, m);
    }
    DivAdd(x % BASE, m, q * k);
  }

  lemma {:induction false} OddCancels(a: int, d: int, height: nat)
    requires a % 2 == 1 && (a * d) % Two(height) == 0
    ensures d % Two(height) == 0
    decreases height
  {
    if height > 0 {
      TwoDoubles(height);
      var m := Two(height - 1);
      var q := (a * d) / Two(height);
      assert a * d == 2 * (q * m);
      var e := d / 2;
      EvenFactor(a, d, q * m);
      assert a * e == q * m;
      DivModUnique(a * e, m, q, 0);
      OddCancels(a, e, height - 1);
      assert e == (e / m) * m;
      DivModUnique(d, 2 * m, e / m, 0);
    }
  }

  lemma EvenFactor(a: int, d: int, n: int)
    requires a % 2 == 1 && a * d == 2 * n
    ensures d == 2 * (d / 2) && a * (d / 2) == n
  {
    var b, e, r := a / 2, d / 2, d % 2;
    assert a == 2 * b + 1 && d == 2 * e + r;
    assert a * d == 2 * (2 * (b * e) + b * r + e) + r;
    assert a * d == 2 * (a * e) + a * r;
  }

  lemma WrapBefore(x: int, k: int, c: int)
    ensures (x % BASE * k + c) % BASE == (x * k + c) % BASE
  {
    var q, r := x / BASE, x % BASE;
    assert x == q * BASE + r;
    assert x * k + c == (r * k + c) + (q * k) * BASE;
    DivAdd(r * k + c, BASE, q * k);
  }

  /** The index as one formula, without the intermediate wrap-around. */
  lemma IndexFormula(nonce: nat, chainId: int, height: nat)
    requires height <= 32
    ensures ExpectedIndex(nonce, chainId, height) ==
            ((nonce * 1103515245 + 12345 + chainId) * 1103515245 + 12345) % Two(height)
  {
    hide Two;
    var a := nonce * 1103515245 + 12345;
    WrapBefore(a, 1, chainId);
    WrapBefore(a + chainId, 1103515245, 12345);
    ModMod((a + chainId) * 1103515245 + 12345, height);
  }

  lemma SameRemainder(y: int, z: int, m: nat)
    requires m > 0
    ensures (y + z) % m == y % m <==> z % m == 0
  {
    if (y + z) % m == y % m {
      var q := (y + z) / m - y / m;
      assert z == q * m;
      DivModUnique(z, m, q, 0);
    }
    if z % m == 0 {
      assert z == (z / m) * m;
      DivAdd(y, m, z / m);
    }
  }

  lemma MultipleStays(a: int, d: int, m: nat)
    requires m > 0 && d % m == 0
    ensures (a * d) % m == 0
  {
    var q := d / m;
    assert d == q * m;
    assert a * d == (a * q) * m by {
      MulAssociates(a, q, m);
    }
    DivModUnique(a * d, m, a * q, 0);
  }

  /** Chains get different leaves: one nonce gives two chain ids the same index exactly if they agree modulo the size
      of the tree. */
  lemma IndexDistinct(nonce: nat, chainId: int, other: int, height: nat)
    requires height <= 32
    ensures ExpectedIndex(nonce, chainId, height) == ExpectedIndex(nonce, other, height) <==>
            (chainId - other) % Two(height) == 0
  {
    hide Two, ExpectedIndex;
    IndexFormula(nonce, chainId, height);
    IndexFormula(nonce, other, height);
    var m, a, d := Two(height), nonce * 1103515245 + 12345, chainId - other;
    var y := (a + other) * 1103515245 + 12345;
    assert (a + chainId) * 1103515245 + 12345 == y + 1103515245 * d;
    SameRemainder(y, 1103515245 * d, m);
    if (1103515245 * d) % m == 0 {
      OddCancels(1103515245, d, height);
    }
    if d % m == 0 {
      MultipleStays(1103515245, d, m);
    }
  }
}
