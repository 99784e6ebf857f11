/** The merged-mining proof of auxpow.cpp: a block hash committed to in the coinbase of a parent
    chain. The pair hash is arbitrary; where uniqueness fails a collision of it is exhibited. */
module AuxPow {
  import opened Options
  import opened Radix
  import opened Limbs

  type Byte = n: nat | n < 0x100
  type Bytes = seq<Byte>
  type Hash = Bytes
  type PairHash = (Hash, Hash) -> Hash

  const HASH_SIZE: nat := 32
  const MAX_HEIGHT: nat := 30
  const HEADER: Bytes := [0xfa, 0xbe, 0x6d, 0x6d]     // the merged-mining header

  function NullHash(): Hash { seq(HASH_SIZE, i => 0) }

  /** The coinbase transaction of the parent block: its hash and its input scripts. */
  datatype Coinbase = Coinbase(txid: Hash, scripts: seq<Bytes>)

  datatype Proof = Proof(coinbase: Option<Coinbase>, merkleBranch: seq<Hash>, chainBranch: seq<Hash>, chainIndex: nat,
                         parentRoot: Hash, parentChainId: int)

  // ---------- merkle branches ----------

  /** An unsigned 32-bit index passed as a signed one. */
  function Signed(n: nat): int { if n < 0x8000_0000 then n else n - 0x1_0000_0000 }

  function Parent(h: PairHash, hash: Hash, sibling: Hash, index: int): Hash {
    if index % 2 == 1 then h(sibling, hash) else h(hash, sibling)
  }

  /** The root reached from a leaf; the bits of the index say left or right. */
  function Climb(h: PairHash, hash: Hash, branch: seq<Hash>, index: int): Hash
    decreases |branch|
  {
    if branch == [] then hash else Climb(h, Parent(h, hash, branch[0], index), branch[1..], index / 2)
  }

  function BranchRoot(h: PairHash, hash: Hash, branch: seq<Hash>, index: int): Hash {
    if index == -1 then NullHash() else Climb(h, hash, branch, index)
  }

  method CheckMerkleBranch(h: PairHash, leaf: Hash, branch: seq<Hash>, index: int) returns (hash: Hash)
    ensures hash == BranchRoot(h, leaf, branch, index)
  {
    if index == -1 {
      return NullHash();
    }
    hash := leaf;
    var at := index;
    for i := 0 to |branch|
      invariant Climb(h, hash, branch[i..], at) == Climb(h, leaf, branch, index)
    {
      assert branch[i..][1..] == branch[i + 1..];
      if at % 2 == 1 {
        hash := h(branch[i], hash);
      } else {
        hash := h(hash, branch[i]);
      }
      at := at / 2;
    }
  }

  /** Two different inputs of the pair hash with the same output. */
  datatype Collision = Collision(left: Hash, right: Hash, left': Hash, right': Hash)

  predicate Collides(h: PairHash, c: Collision) {
    h(c.left, c.right) == h(c.left', c.right') && (c.left != c.left' || c.right != c.right')
  }

  function Inputs(a: Hash, x: Hash, b: Hash, y: Hash, index: int): Collision {
    if index % 2 == 1 then Collision(x, a, y, b) else Collision(a, x, b, y)
  }

  /** Climbs two branches side by side up to the first level where different pairs meet in one hash. */
  function FindCollision(h: PairHash, a: Hash, b: Hash, s: seq<Hash>, t: seq<Hash>, index: int): (r: Option<Collision>)
    requires |s| == |t|
    ensures r.Some? ==> Collides(h, r.value)
    decreases |s|
  {
    if s == [] then None
    else if Collides(h, Inputs(a, s[0], b, t[0], index)) then Some(Inputs(a, s[0], b, t[0], index))
    else FindCollision(h, Parent(h, a, s[0], index), Parent(h, b, t[0], index), s[1..], t[1..], index / 2)
  }

  /** A root, a height and an index leave room for one leaf only, unless the two branches
      themselves contain a collision of the pair hash. */
  lemma {:induction false} ClimbInjective(h: PairHash, a: Hash, b: Hash, s: seq<Hash>, t: seq<Hash>, index: int)
    requires |s| == |t| && Climb(h, a, s, index) == Climb(h, b, t, index)
    ensures (a == b && s == t) || FindCollision(h, a, b, s, t, index).Some?
    decreases |s|
  {
    if s != [] && !Collides(h, Inputs(a, s[0], b, t[0], index)) {
      ClimbInjective(h, Parent(h, a, s[0], index), Parent(h, b, t[0], index), s[1..], t[1..], index / 2);
      assert s == [s[0]] + s[1..] && t == [t[0]] + t[1..];
    }
  }

  // ---------- searching bytes ----------

  predicate Occurs(s: Bytes, pattern: Bytes, i: int) {
    0 <= i <= |s| - |pattern| && s[i..i + |pattern|] == pattern
  }

  /** The first occurrence from `start` on, or the end. */
  function Search(s: Bytes, pattern: Bytes, start: nat): (i: nat)
    requires start <= |s|
    ensures start <= i <= |s|
    ensures i < |s| ==> Occurs(s, pattern, i)
    ensures forall k :: start <= k < i ==> !Occurs(s, pattern, k)
    decreases |s| - start
  {
    if start == |s| || Occurs(s, pattern, start) then start else Search(s, pattern, start + 1)
  }

  function Reversed(s: Bytes): (r: Bytes)
    ensures |r| == |s| && forall i :: 0 <= i < |s| ==> r[i] == s[|s| - 1 - i]
  {
    seq(|s|, i requires 0 <= i < |s| => s[|s| - 1 - i])
  }

  lemma ReversedInjective(s: Bytes, t: Bytes)
    requires Reversed(s) == Reversed(t)
    ensures s == t
  {
    forall i | 0 <= i < |s| ensures s[i] == t[i] {
      assert Reversed(s)[|s| - 1 - i] == Reversed(t)[|s| - 1 - i];
    }
  }

  /** A little-endian 32-bit number. */
  function Read32(s: Bytes, i: nat): nat
    requires i + 4 <= |s|
  {
    s[i] as nat + 0x100 * (s[i + 1] as nat) + 0x1_0000 * (s[i + 2] as nat) + 0x100_0000 * (s[i + 3] as nat)
  }

  // ---------- the check ----------

  function NextRandom(x: int): nat { (x * 1103515245 + 12345) % BASE }

  /** The leaf a chain must use, in 32-bit arithmetic. */
  function ExpectedIndex(nonce: nat, chainId: int, height: nat): (i: nat)
    ensures i < Two(height)
  {
    NextRandom((NextRandom(nonce) + chainId) % BASE) % Two(height)
  }

  function Root(h: PairHash, p: Proof, aux: Hash): Hash { BranchRoot(h, aux, p.chainBranch, Signed(p.chainIndex)) }

  /** Where the root may stand in the parent's coinbase script. */
  predicate RootPlaced(script: Bytes, root: int) {
    var header := Search(script, HEADER, 0);
    if header != |script| then Search(script, HEADER, header + 1) == |script| && header + |HEADER| == root
    else root <= 20
  }

  /** The tree size and nonce that follow the root. */
  predicate Committed(script: Bytes, end: nat, p: Proof, chainId: int) {
    && |script| - end >= 8
    && Read32(script, end) == Two(|p.chainBranch|)
    && p.chainIndex == ExpectedIndex(Read32(script, end + 4), chainId, |p.chainBranch|)
  }

  predicate Check(h: PairHash, p: Proof, aux: Hash, chainId: int, strict: bool) {
    if strict && p.parentChainId == chainId then false
    else if |p.chainBranch| > MAX_HEIGHT then false
    else if p.coinbase.None? then false
    else if BranchRoot(h, p.coinbase.value.txid, p.merkleBranch, 0) != p.parentRoot then false
    else if p.coinbase.value.scripts == [] then false
    else
      var script := p.coinbase.value.scripts[0];
      var root := Reversed(Root(h, p, aux));
      var at := Search(script, root, 0);
      at != |script| && RootPlaced(script, at) && Committed(script, at + |root|, p, chainId)
  }

  lemma {:induction false} TwoInjective(m: nat, n: nat)
    requires Two(m) == Two(n)
    ensures m == n
  {
    if m > 0 && n > 0 {
      assert Two(m) == 2 * Two(m - 1) && Two(n) == 2 * Two(n - 1);
      TwoInjective(m - 1, n - 1);
    }
  }

  lemma SmallIndex(n: nat, height: nat)
    requires n < Two(height) && height <= MAX_HEIGHT
    ensures Signed(n) == n
  {
    hide Pow;
    PowMonotone(2, height, MAX_HEIGHT);
    TwoThirty();
  }

  lemma TwoThirty()
    ensures Two(MAX_HEIGHT) < 0x8000_0000 && Two(MAX_HEIGHT) == Pow(2, MAX_HEIGHT)
  {
    TwoAdd(2, MAX_HEIGHT);
    Two32();
    assert Two(2) == 4;
  }

  /** What a proof commits to, read off the script after the header. */
  lemma ReadOff(h: PairHash, p: Proof, aux: Hash, chainId: int, strict: bool)
    requires Check(h, p, aux, chainId, strict)
             && Search(p.coinbase.value.scripts[0], HEADER, 0) < |p.coinbase.value.scripts[0]|
    ensures var script := p.coinbase.value.scripts[0];
            var at := Search(script, HEADER, 0) + |HEADER|;
            var root := Reversed(Root(h, p, aux));
            && Occurs(script, root, at) && Committed(script, at + |root|, p, chainId)
            && |p.chainBranch| <= MAX_HEIGHT && Signed(p.chainIndex) == p.chainIndex
  {
    hide Two;
    SmallIndex(p.chainIndex, |p.chainBranch|);
  }

  /** Main theorem. One parent coinbase with the merged-mining header commits to one block of a
      chain: two accepted proofs agree in root, height and index, and they agree in branch and
      block hash too unless their branches exhibit a collision of the pair hash. */
  lemma CommitmentUnique(h: PairHash, p: Proof, q: Proof, aux: Hash, other: Hash, chainId: int, strict: bool)
    requires (forall a, b :: |h(a, b)| == HASH_SIZE) && |aux| == |other| == HASH_SIZE
    requires Check(h, p, aux, chainId, strict) && Check(h, q, other, chainId, strict) && p.coinbase == q.coinbase
    requires var script := p.coinbase.value.scripts[0]; Search(script, HEADER, 0) < |script|
    ensures Root(h, p, aux) == Root(h, q, other) && |p.chainBranch| == |q.chainBranch| && p.chainIndex == q.chainIndex
    ensures (aux == other && p.chainBranch == q.chainBranch) ||
            FindCollision(h, aux, other, p.chainBranch, q.chainBranch, p.chainIndex).Some?
  {
    hide Check, Two, Search, FindCollision;
    ReadOff(h, p, aux, chainId, strict);
    ReadOff(h, q, other, chainId, strict);
    RootSize(h, p, aux);
    RootSize(h, q, other);
    ReversedInjective(Root(h, p, aux), Root(h, q, other));
    TwoInjective(|p.chainBranch|, |q.chainBranch|);
    ClimbInjective(h, aux, other, p.chainBranch, q.chainBranch, p.chainIndex);
  }

  lemma {:induction false} ClimbSize(h: PairHash, hash: Hash, branch: seq<Hash>, index: int)
    requires |hash| == HASH_SIZE && forall a, b :: |h(a, b)| == HASH_SIZE
    ensures |Climb(h, hash, branch, index)| == HASH_SIZE
    decreases |branch|
  {
    if branch != [] {
      ClimbSize(h, Parent(h, hash, branch[0], index), branch[1..], index / 2);
    }
  }

  lemma RootSize(h: PairHash, p: Proof, aux: Hash)
    requires |aux| == HASH_SIZE && forall a, b :: |h(a, b)| == HASH_SIZE
    ensures |Root(h, p, aux)| == HASH_SIZE
  {
    ClimbSize(h, aux, p.chainBranch, Signed(p.chainIndex));
  }

  // ---------- the proof a node makes for itself ----------

  /** The coinbase script of a minimal parent: a push of the block hash, tree size 1 and nonce 0. */
  function InitScript(aux: Hash): Bytes { [40] + Reversed(aux) + [1, 0, 0, 0, 0, 0, 0, 0] }

  /** A parent block whose only transaction is that coinbase; its hash is the merkle root. */
  function InitProof(aux: Hash, txid: Hash, parentChainId: int): Proof {
    Proof(Some(Coinbase(txid, [InitScript(aux)])), [], [], 0, txid, parentChainId)
  }

  predicate AllPushBytes(aux: Hash) { forall i :: 0 <= i < |aux| ==> aux[i] == 40 }

  lemma {:induction false} ShiftedSame(r: Bytes, i: nat)
    requires i < |r| && r == ([40] + r)[..|r|]
    ensures r[i] == 40
  {
    if i > 0 {
      ShiftedSame(r, i - 1);
      assert r[i] == ([40] + r)[i];
    }
  }

  /** The hash is found at its own place, unless the push opcode continues it to the left. */
  lemma RootAt(aux: Hash)
    requires |aux| == HASH_SIZE
    ensures Search(InitScript(aux), Reversed(aux), 0) == if AllPushBytes(aux) then 0 else 1
  {
    var s, r := InitScript(aux), Reversed(aux);
    assert s[1..1 + HASH_SIZE] == r;
    assert s[..HASH_SIZE] == ([40] + r)[..HASH_SIZE];
    if AllPushBytes(aux) {
      assert s[0..HASH_SIZE] == r;
    } else {
      if Occurs(s, r, 0) {
        forall i | 0 <= i < |aux| ensures aux[i] == 40 {
          ShiftedSame(r, |aux| - 1 - i);
        }
      }
      assert Search(s, r, 0) == Search(s, r, 1);
    }
  }

  lemma InitCommitted(aux: Hash, p: Proof, chainId: int)
    requires |aux| == HASH_SIZE && p.chainBranch == [] && p.chainIndex == 0
    ensures Committed(InitScript(aux), 1 + HASH_SIZE, p, chainId)
    ensures AllPushBytes(aux) ==> !Committed(InitScript(aux), HASH_SIZE, p, chainId)
    ensures |InitScript(aux)| == 41 && Read32(InitScript(aux), 33) == 1 && Read32(InitScript(aux), 37) == 0
  {
    var s := InitScript(aux);
    assert Two(0) == 1;
    assert s[33] == 1 && s[34] == 0 && s[35] == 0 && s[36] == 0;
    assert s[32] == Reversed(aux)[31];
  }

  /** The self-made proof is accepted exactly when the chain ids may meet, the script does not by
      chance contain the merged-mining header, and the hash is not made of push opcodes only. */
  lemma InitAccepted(h: PairHash, aux: Hash, txid: Hash, parentChainId: int, chainId: int, strict: bool)
    requires |aux| == HASH_SIZE
    ensures Check(h, InitProof(aux, txid, parentChainId), aux, chainId, strict) <==>
            && !(strict && parentChainId == chainId)
            && Search(InitScript(aux), HEADER, 0) == |InitScript(aux)| && !AllPushBytes(aux)
  {
    hide InitScript, Search, Committed, AllPushBytes;
    var p := InitProof(aux, txid, parentChainId);
    ScriptSize(aux);
    RootAt(aux);
    InitCommitted(aux, p, chainId);
    assert Root(h, p, aux) == aux;
  }

  lemma ScriptSize(aux: Hash)
    ensures |InitScript(aux)| == |aux| + 9
  {
  }

  /** A block hash for which the self-made proof is rejected. */
  lemma InitRejected(h: PairHash, txid: Hash, parentChainId: int, chainId: int)
    ensures exists aux :: |aux| == HASH_SIZE && !Check(h, InitProof(aux, txid, parentChainId), aux, chainId, false)
  {
    hide Check;
    var aux: Hash := seq(HASH_SIZE, i => 40);
    InitAccepted(h, aux, txid, parentChainId, chainId, false);
  }
}
