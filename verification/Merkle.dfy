/** Merkle trees as merkle.cpp builds them, level by level with the last hash of an odd level repeated: what a
    branch proves, and what the check for repeated neighbours is for. */
module Merkle {
  import opened Options
  import opened AuxPow

  /** The level above: hashes of neighbours, the last one paired with itself if it has none. */
  function Level(h: PairHash, s: seq<Hash>): (r: seq<Hash>)
    ensures |r| == (|s| + 1) / 2
    ensures forall k :: 0 <= k < |r| ==> r[k] == h(s[2 * k], RightOf(s, k))
  {
    seq((|s| + 1) / 2, k requires 0 <= k < (|s| + 1) / 2 => h(s[2 * k], RightOf(s, k)))
  }

  function RightOf(s: seq<Hash>, k: nat): Hash
    requires 2 * k < |s|
  {
    if 2 * k + 1 < |s| then s[2 * k + 1] else s[2 * k]
  }

  function TreeRoot(h: PairHash, s: seq<Hash>): Hash
    decreases |s|
  {
    if |s| == 0 then NullHash() else if |s| == 1 then s[0] else TreeRoot(h, Level(h, s))
  }

  /** Two neighbours that are hashed together are equal. */
  predicate Repeats(s: seq<Hash>, n: nat) {
    exists k :: 0 <= k < n && 2 * k + 1 < |s| && s[2 * k] == s[2 * k + 1]
  }

  /** Somewhere in the tree two neighbours are equal. */
  predicate Mutated(h: PairHash, s: seq<Hash>)
    decreases |s|
  {
    |s| > 1 && (Repeats(s, |s|) || Mutated(h, Level(h, s)))
  }

  lemma RepeatsNext(s: seq<Hash>, n: nat)
    requires 2 * n + 1 < |s|
    ensures Repeats(s, n + 1) <==> Repeats(s, n) || s[2 * n] == s[2 * n + 1]
  {
  }

  lemma RepeatsAll(s: seq<Hash>)
    ensures Repeats(s, |s| / 2) <==> Repeats(s, |s|)
  {
  }

  method AnyRepeats(hashes: seq<Hash>) returns (found: bool)
    ensures found == Repeats(hashes, |hashes|)
  {
    hide Repeats;
    found := false;
    NoRepeats(hashes);
    for k := 0 to |hashes| / 2
      invariant found == Repeats(hashes, k)
    {
      RepeatsNext(hashes, k);
      if hashes[2 * k] == hashes[2 * k + 1] {
        found := true;
      }
    }
    RepeatsAll(hashes);
  }

  lemma NoRepeats(s: seq<Hash>)
    ensures !Repeats(s, 0)
  {
  }

  method NextLevel(h: PairHash, hashes: seq<Hash>) returns (next: seq<Hash>)
    ensures next == Level(h, hashes)
  {
    var padded := hashes;
    if |hashes| % 2 == 1 {
      padded := padded + [padded[|padded| - 1]];
    }
    next := [];
    for k := 0 to |padded| / 2
      invariant |next| == k && forall i :: 0 <= i < k ==> next[i] == h(hashes[2 * i], RightOf(hashes, i))
    {
      next := next + [h(padded[2 * k], padded[2 * k + 1])];
    }
  }

  method ComputeMerkleRoot(h: PairHash, leaves: seq<Hash>) returns (root: Hash, mutated: bool)
    ensures root == TreeRoot(h, leaves) && mutated == Mutated(h, leaves)
  {
    hide Repeats;
    var hashes := leaves;
    mutated := false;
    while |hashes| > 1
      invariant TreeRoot(h, hashes) == TreeRoot(h, leaves)
      invariant (mutated || Mutated(h, hashes)) == Mutated(h, leaves)
      decreases |hashes|
    {
      var found := AnyRepeats(hashes);
      mutated := mutated || found;
      hashes := NextLevel(h, hashes);
    }
    root := if |hashes| == 0 then NullHash() else hashes[0];
  }

  // ---------- branches ----------

  function Height(n: nat): nat {
    if n <= 1 then 0 else 1 + Height((n + 1) / 2)
  }

  function Sibling(s: seq<Hash>, i: nat): Hash
    requires i < |s|
  {
    if i % 2 == 1 then s[i - 1] else if i + 1 < |s| then s[i + 1] else s[i]
  }

  /** The hashes needed to climb from this leaf to the root. */
  function BranchOf(h: PairHash, s: seq<Hash>, i: nat): (b: seq<Hash>)
    requires i < |s|
    ensures |b| == Height(|s|)
    decreases |s|
  {
    if |s| <= 1 then [] else [Sibling(s, i)] + BranchOf(h, Level(h, s), i / 2)
  }

  lemma ParentInLevel(h: PairHash, s: seq<Hash>, i: nat)
    requires i < |s|
    ensures i / 2 < |Level(h, s)| && Level(h, s)[i / 2] == Parent(h, s[i], Sibling(s, i), i)
  {
    assert i == 2 * (i / 2) + i % 2;
  }

  /** Climbing the branch of a leaf leads to the root of the tree. */
  lemma {:induction false} BranchClimbs(h: PairHash, s: seq<Hash>, i: nat)
    requires i < |s|
    ensures Climb(h, s[i], BranchOf(h, s, i), i) == TreeRoot(h, s)
    decreases |s|
  {
    if |s| > 1 {
      ParentInLevel(h, s, i);
      BranchClimbs(h, Level(h, s), i / 2);
      var b := BranchOf(h, s, i);
      assert b[0] == Sibling(s, i) && b[1..] == BranchOf(h, Level(h, s), i / 2);
    }
  }

  /** A branch of the tree's height that leads from a hash to the root is that leaf's own branch, or the two
      branches contain a collision. */
  lemma BranchProves(h: PairHash, s: seq<Hash>, i: nat, leaf: Hash, branch: seq<Hash>)
    requires i < |s| && |branch| == Height(|s|) && Climb(h, leaf, branch, i) == TreeRoot(h, s)
    ensures (leaf == s[i] && branch == BranchOf(h, s, i))
            || FindCollision(h, leaf, s[i], branch, BranchOf(h, s, i), i).Some?
  {
    hide FindCollision, BranchOf;
    BranchClimbs(h, s, i);
    ClimbInjective(h, leaf, s[i], branch, BranchOf(h, s, i), i);
  }

  // ---------- repeated neighbours ----------

  /** The first place of a level where different pairs have the same hash. */
  function PairCollision(h: PairHash, s: seq<Hash>, t: seq<Hash>, k: nat): (r: Option<Collision>)
    requires |Level(h, s)| == |Level(h, t)|
    ensures r.Some? ==> Collides(h, r.value)
    ensures r.None? ==> forall i :: k <= i < |Level(h, s)| ==>
              !Collides(h, Collision(s[2 * i], RightOf(s, i), t[2 * i], RightOf(t, i)))
    decreases |s| - k
  {
    if k >= |Level(h, s)| then None else
      var c := Collision(s[2 * k], RightOf(s, k), t[2 * k], RightOf(t, k));
      if Collides(h, c) then Some(c) else PairCollision(h, s, t, k + 1)
  }

  /** Searches two trees level by level for a collision. */
  function TreeCollision(h: PairHash, s: seq<Hash>, t: seq<Hash>): (r: Option<Collision>)
    ensures r.Some? ==> Collides(h, r.value)
    decreases |s|
  {
    if |s| <= 1 || |t| <= 1 then None
    else if |Level(h, s)| == |Level(h, t)| && PairCollision(h, s, t, 0).Some? then PairCollision(h, s, t, 0)
    else TreeCollision(h, Level(h, s), Level(h, t))
  }

  lemma SamePair(h: PairHash, s: seq<Hash>, t: seq<Hash>, k: nat)
    requires Level(h, s) == Level(h, t) && PairCollision(h, s, t, 0).None? && k < |Level(h, s)|
    ensures s[2 * k] == t[2 * k] && RightOf(s, k) == RightOf(t, k)
  {
    hide PairCollision;
    assert !Collides(h, Collision(s[2 * k], RightOf(s, k), t[2 * k], RightOf(t, k)));
    assert Level(h, s)[k] == h(s[2 * k], RightOf(s, k)) && Level(h, t)[k] == h(t[2 * k], RightOf(t, k));
  }

  lemma SameSize(h: PairHash, s: seq<Hash>, t: seq<Hash>, k: nat)
    requires |s| > 1 && |Level(h, s)| == |Level(h, t)| == k + 1 && !Repeats(t, |t|)
    requires s[2 * k] == t[2 * k] && RightOf(s, k) == RightOf(t, k)
    ensures |t| <= |s|
  {
    assert 2 * k + 1 < |t| ==> t[2 * k] != t[2 * k + 1];
  }

  lemma SameHash(h: PairHash, s: seq<Hash>, t: seq<Hash>, i: nat)
    requires i < |s| == |t| && Level(h, s) == Level(h, t) && PairCollision(h, s, t, 0).None?
    ensures s[i] == t[i]
  {
    hide PairCollision;
    var k := i / 2;
    SamePair(h, s, t, k);
    assert i == 2 * k || i == 2 * k + 1;
  }

  /** Levels that agree come from lists that agree, but for a repeated last hash or a collision. */
  lemma SameLevel(h: PairHash, s: seq<Hash>, t: seq<Hash>)
    requires |s| > 1 && |t| > 1 && Level(h, s) == Level(h, t) && PairCollision(h, s, t, 0).None?
    requires !Repeats(s, |s|) && !Repeats(t, |t|)
    ensures s == t
  {
    hide Repeats, PairCollision;
    var last := |Level(h, s)| - 1;
    SamePair(h, s, t, last);
    SameSize(h, s, t, last);
    SameSize(h, t, s, last);
    forall i | 0 <= i < |s| ensures s[i] == t[i] {
      SameHash(h, s, t, i);
    }
  }

  /** Main theorem. Two lists of one height without repeated neighbours anywhere in their trees have different roots
      unless they are equal, or the trees contain a collision: no change of the transactions goes unnoticed. */
  lemma {:induction false} RootUnique(h: PairHash, s: seq<Hash>, t: seq<Hash>)
    requires s != [] && t != [] && Height(|s|) == Height(|t|) && TreeRoot(h, s) == TreeRoot(h, t)
    requires !Mutated(h, s) && !Mutated(h, t)
    ensures s == t || TreeCollision(h, s, t).Some?
    decreases |s|
  {
    hide Repeats;
    if |s| == 1 || |t| == 1 {
      assert |s| == 1 && |t| == 1;
    } else {
      RootUnique(h, Level(h, s), Level(h, t));
      if Level(h, s) == Level(h, t) && PairCollision(h, s, t, 0).None? {
        SameLevel(h, s, t);
      }
    }
  }

  /** Without the check the root does not tell: repeating the last hash of an odd list changes nothing, and the
      check is what notices it. */
  lemma RepeatedLast(h: PairHash, s: seq<Hash>)
    requires |s| > 1 && |s| % 2 == 1
    ensures var t := s + [s[|s| - 1]];
            TreeRoot(h, t) == TreeRoot(h, s) && Height(|t|) == Height(|s|) && Mutated(h, t)
  {
    var n := |s|;
    var t := s + [s[n - 1]];
    assert Level(h, t) == Level(h, s);
    assert t[2 * (n / 2)] == t[2 * (n / 2) + 1];
    assert Repeats(t, |t|);
  }

  /** Nor does the root tell the height: a list of one hash has that hash as its root. */
  lemma RootOfRoot(h: PairHash, s: seq<Hash>)
    ensures TreeRoot(h, [TreeRoot(h, s)]) == TreeRoot(h, s) && !Mutated(h, [TreeRoot(h, s)])
  {
  }
}
