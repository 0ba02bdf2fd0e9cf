/** The Merkle tree of a block, kept level after level in one vector, and its branches. */
module Merkle {
  import opened Arith
  import opened Wrappers
  import opened Ledger

  /** The hash of two hashes side by side. */
  type Hash2 = (Hash, Hash) -> Hash

  ghost predicate Injective(h: Hash2) { forall a, b, c, d :: h(a, b) == h(c, d) ==> a == c && b == d }

  /** The next level up; an odd last entry is paired with itself. */
  function Up(h: Hash2, level: seq<Hash>): (r: seq<Hash>)
    ensures |r| == (|level| + 1) / 2
  {
    seq((|level| + 1) / 2, k requires 0 <= k < (|level| + 1) / 2 => h(level[2 * k], level[Min(2 * k + 1, |level| - 1)]))
  }

  function Root(h: Hash2, level: seq<Hash>): Hash
    decreases |level|
  {
    if level == [] then 0 else if |level| == 1 then level[0] else Root(h, Up(h, level))
  }

  /** All levels, leaves first. */
  function Tree(h: Hash2, level: seq<Hash>): seq<Hash>
    decreases |level|
  {
    if |level| <= 1 then level else level + Tree(h, Up(h, level))
  }

  /** i ^ 1. */
  function Sibling(i: nat): nat { if i % 2 == 0 then i + 1 else i - 1 }

  /** The other side at every level on the way up from leaf i. */
  function Branch(h: Hash2, level: seq<Hash>, i: nat): seq<Hash>
    requires i < |level|
    decreases |level|
  {
    if |level| <= 1 then [] else [Other(level, i)] + Branch(h, Up(h, level), i / 2)
  }

  /** A hash and its other side, in the order that position i asks for. */
  function Combine(h: Hash2, i: int, hash: Hash, other: Hash): Hash { if i % 2 == 1 then h(other, hash) else h(hash, other) }

  function Other(level: seq<Hash>, i: nat): Hash
    requires i < |level|
  {
    level[Min(Sibling(i), |level| - 1)]
  }

  /** Hashing `hash` together with the other sides. */
  function Fold(h: Hash2, hash: Hash, branch: seq<Hash>, i: int): Hash
    decreases |branch|
  {
    if branch == [] then hash
    else Fold(h, Combine(h, i, hash, branch[0]), branch[1..], i / 2)
  }

  lemma TreeEnds(h: Hash2, level: seq<Hash>)
    requires level != []
    ensures Tree(h, level) != [] && Tree(h, level)[|Tree(h, level)| - 1] == Root(h, level)
    decreases |level|
  {
    if |level| > 1 { TreeEnds(h, Up(h, level)); }
  }

  lemma UpAt(h: Hash2, level: seq<Hash>, i: nat)
    requires i < |level|
    ensures i / 2 < |Up(h, level)| && Up(h, level)[i / 2] == Combine(h, i, level[i], Other(level, i))
  {}

  lemma CombineInjective(h: Hash2, i: nat, a: Hash, b: Hash, c: Hash, d: Hash)
    requires Injective(h) && Combine(h, i, a, b) == Combine(h, i, c, d)
    ensures a == c && b == d
  {}

  lemma BranchUp(h: Hash2, level: seq<Hash>, i: nat)
    requires |level| > 1 && i < |level|
    ensures i / 2 < |Up(h, level)| && Branch(h, level, i) == [Other(level, i)] + Branch(h, Up(h, level), i / 2)
    ensures Branch(h, level, i)[1..] == Branch(h, Up(h, level), i / 2) && Branch(h, level, i)[0] == Other(level, i)
  {}

  lemma FoldStep(h: Hash2, hash: Hash, branch: seq<Hash>, i: int)
    requires branch != []
    ensures Fold(h, hash, branch, i) == Fold(h, Combine(h, i, hash, branch[0]), branch[1..], i / 2)
  {}

  /** Every branch of the tree leads back to its root. */
  lemma {:induction false} BranchLeadsToRoot(h: Hash2, level: seq<Hash>, i: nat)
    requires i < |level|
    ensures Fold(h, level[i], Branch(h, level, i), i) == Root(h, level)
    decreases |level|
  {
    hide Up, Combine, Other;
    if |level| > 1 {
      UpAt(h, level, i);
      BranchUp(h, level, i);
      FoldStep(h, level[i], Branch(h, level, i), i);
      BranchLeadsToRoot(h, Up(h, level), i / 2);
    }
  }

  /** With an injective hash nothing else leads there: a branch of the right depth that reaches the root
      from position i starts at leaf i and is the branch of leaf i. */
  lemma {:induction false} OnlyBranch(h: Hash2, level: seq<Hash>, i: nat, hash: Hash, branch: seq<Hash>)
    requires Injective(h) && i < |level| && |branch| == |Branch(h, level, i)|
    requires Fold(h, hash, branch, i) == Root(h, level)
    ensures hash == level[i] && branch == Branch(h, level, i)
    decreases |level|
  {
    hide Up, Combine, Other, Injective, Fold;
    if |level| > 1 {
      UpAt(h, level, i);
      BranchUp(h, level, i);
      FoldStep(h, hash, branch, i);
      OnlyBranch(h, Up(h, level), i / 2, Combine(h, i, hash, branch[0]), branch[1..]);
      CombineInjective(h, i, hash, branch[0], level[i], Other(level, i));
      assert branch == [branch[0]] + branch[1..];
    } else {
      FoldNothing(h, hash, branch, i);
    }
  }

  lemma FoldNothing(h: Hash2, hash: Hash, branch: seq<Hash>, i: nat)
    requires branch == []
    ensures Fold(h, hash, branch, i) == hash
  {}

  /** With an injective hash the root and the number of leaves determine the leaves. */
  lemma {:induction false} RootDetermines(h: Hash2, a: seq<Hash>, b: seq<Hash>)
    requires Injective(h) && |a| == |b| && Root(h, a) == Root(h, b)
    ensures a == b
    decreases |a|
  {
    hide Up, Combine, Other, Injective;
    if |a| > 1 {
      RootDetermines(h, Up(h, a), Up(h, b));
      forall i | 0 <= i < |a| ensures a[i] == b[i] {
        UpAt(h, a, i);
        UpAt(h, b, i);
        CombineInjective(h, i, a[i], Other(a, i), b[i], Other(b, i));
      }
    }
  }

  // ----- the block's methods

  class MerkleBlock {
    const h: Hash2
    /** The transaction hashes, in order. */
    const vtx: seq<Hash>
    var vMerkleTree: seq<Hash>

    ghost predicate Valid()
      reads this
    {
      vMerkleTree == [] || vMerkleTree == Tree(h, vtx)
    }

    constructor (h: Hash2, vtx: seq<Hash>)
      ensures Valid() && this.h == h && this.vtx == vtx
    {
      this.h, this.vtx, vMerkleTree := h, vtx, [];
    }

    method BuildMerkleTree() returns (root: Hash)
      modifies this
      ensures Valid() && vMerkleTree == Tree(h, vtx) && root == Root(h, vtx)
    {
      hide Tree, Root;
      vMerkleTree := [];
      var n := 0;
      while n < |vtx|
        invariant n <= |vtx| && vMerkleTree == vtx[..n]
      {
        vMerkleTree := vMerkleTree + [vtx[n]];
        n := n + 1;
      }
      var j, nSize := 0, |vtx|;
      ghost var level := vtx;
      while nSize > 1
        invariant |level| == nSize && j + nSize == |vMerkleTree| && vMerkleTree[j..] == level
        invariant Tree(h, vtx) == vMerkleTree[..j] + Tree(h, level) && (level == [] <==> vtx == [])
        decreases nSize
      {
        AddLevel(j, nSize, level);
        TreeStep(h, level, vMerkleTree, j);
        j := j + nSize;
        nSize := (nSize + 1) / 2;
        level := Up(h, level);
      }
      LastLevel(h, level);
      assert vMerkleTree == vMerkleTree[..j] + level;
      if vtx != [] { TreeEnds(h, vtx); }
      NoLeaves(h);
      root := if vMerkleTree == [] then 0 else vMerkleTree[|vMerkleTree| - 1];
    }

    /** Appends the level above the one that starts at j. */
    method AddLevel(j: nat, nSize: nat, ghost level: seq<Hash>)
      requires nSize > 1 && j + nSize == |vMerkleTree| && vMerkleTree[j..] == level
      modifies this
      ensures vMerkleTree == old(vMerkleTree) + Up(h, level)
    {
      ghost var before := vMerkleTree;
      var i := 0;
      while i < nSize
        invariant i % 2 == 0 && i / 2 <= (nSize + 1) / 2 && i <= nSize + 1
        invariant vMerkleTree == before + Up(h, level)[..i / 2]
      {
        var i2 := Min(i + 1, nSize - 1);
        assert vMerkleTree[j + i] == level[i] && vMerkleTree[j + i2] == level[i2];
        assert Up(h, level)[..i / 2 + 1] == Up(h, level)[..i / 2] + [Up(h, level)[i / 2]];
        vMerkleTree := vMerkleTree + [h(vMerkleTree[j + i], vMerkleTree[j + i2])];
        i := i + 2;
      }
      assert Up(h, level)[..i / 2] == Up(h, level);
    }

    method GetMerkleBranch(nIndex0: nat) returns (vMerkleBranch: seq<Hash>)
      requires Valid() && nIndex0 < |vtx|
      modifies this
      ensures Valid() && vMerkleBranch == Branch(h, vtx, nIndex0)
    {
      hide Tree, Branch, Up;
      if vMerkleTree == [] { var root := BuildMerkleTree(); }
      vMerkleBranch := [];
      var j, nSize, nIndex := 0, |vtx|, nIndex0;
      ghost var level := vtx;
      assert vMerkleTree[0..] == vMerkleTree;
      while nSize > 1
        modifies {}
        invariant |level| == nSize && 0 <= nIndex < nSize && j <= |vMerkleTree| && vMerkleTree[j..] == Tree(h, level)
        invariant Branch(h, vtx, nIndex0) == vMerkleBranch + Branch(h, level, nIndex)
        decreases nSize
      {
        BranchStep(h, level, nIndex);
        assert vMerkleTree[j..][nSize..] == vMerkleTree[j + nSize..];
        var i := Min(Sibling(nIndex), nSize - 1);
        assert vMerkleTree[j + i] == vMerkleTree[j..][i];
        vMerkleBranch := vMerkleBranch + [vMerkleTree[j + i]];
        nIndex := nIndex / 2;
        j := j + nSize;
        level := Up(h, level);
        nSize := (nSize + 1) / 2;
      }
      BranchEnd(h, level, nIndex);
    }
  }

  lemma TreeStep(h: Hash2, level: seq<Hash>, tree: seq<Hash>, j: nat)
    requires |level| > 1 && j + |level| <= |tree| && tree[j..j + |level|] == level
    ensures tree[..j] + Tree(h, level) == tree[..j + |level|] + Tree(h, Up(h, level))
  {
    hide Up;
    assert tree[..j + |level|] == tree[..j] + level;
    var rest := Tree(h, Up(h, level));
    assert Tree(h, level) == level + rest;
    Regroup(tree[..j], level, rest);
  }

  lemma LastLevel(h: Hash2, level: seq<Hash>)
    requires |level| <= 1
    ensures Tree(h, level) == level
  {}

  lemma NoLeaves(h: Hash2)
    ensures Root(h, []) == 0
  {}

  lemma BranchStep(h: Hash2, level: seq<Hash>, i: nat)
    requires |level| > 1 && i < |level|
    ensures |Up(h, level)| == (|level| + 1) / 2 && i / 2 < |Up(h, level)|
    ensures Branch(h, level, i) == [Other(level, i)] + Branch(h, Up(h, level), i / 2)
    ensures Tree(h, level)[..|level|] == level && Tree(h, level)[|level|..] == Tree(h, Up(h, level))
    ensures |Tree(h, level)| >= |level| && forall k :: 0 <= k < |level| ==> Tree(h, level)[k] == level[k]
  {}

  lemma BranchEnd(h: Hash2, level: seq<Hash>, i: nat)
    requires |level| <= 1 && i < |level|
    ensures Branch(h, level, i) == []
  {}

  /** Position -1 is answered with 0; the bits of other negative positions are those of two's complement. */
  method CheckMerkleBranch(h: Hash2, hash0: Hash, vMerkleBranch: seq<Hash>, nIndex0: int) returns (hash: Hash)
    ensures hash == if nIndex0 == -1 then 0 else Fold(h, hash0, vMerkleBranch, nIndex0)
  {
    if nIndex0 == -1 { return 0; }
    hash := hash0;
    var nIndex := nIndex0;
    for n := 0 to |vMerkleBranch|
      invariant Fold(h, hash0, vMerkleBranch, nIndex0) == Fold(h, hash, vMerkleBranch[n..], nIndex)
    {
      var otherside := vMerkleBranch[n];
      assert vMerkleBranch[n..][1..] == vMerkleBranch[n + 1..];
      FoldStep(h, hash, vMerkleBranch[n..], nIndex);
      hash := if nIndex % 2 == 1 then h(otherside, hash) else h(hash, otherside);
      nIndex := nIndex / 2;
    }
  }
}
