/** Block locators: a list of hashes that thins out exponentially towards genesis, from which a node on
    another branch finds a common ancestor. */
module Locator {
  import opened Arith
  import opened Wrappers
  import opened Ledger
  import opened BlockTree

  /** How far the k-th entry of a locator is from the one after it. */
  function Step(k: nat): nat { if k <= 10 then 1 else Pow2(k - 10) }

  /** How far the k-th entry is from the block the locator was made for. */
  function Dist(k: nat): nat { if k == 0 then 0 else Dist(k - 1) + Step(k - 1) }

  lemma {:induction false} DistForm(k: nat)
    ensures Dist(k) == if k <= 11 then k else 9 + Pow2(k - 10)
  {
    if k > 0 { DistForm(k - 1); }
  }

  lemma StepNext(k: nat)
    ensures Step(0) == 1 && Dist(0) == 0
    ensures Step(k + 1) == (if k + 1 > 10 then 2 * Step(k) else Step(k)) && Dist(k + 1) == Dist(k) + Step(k)
    ensures Dist(k + 1) > Dist(k)
  {}

  /** The entries of a locator so far. */
  ghost predicate Entries(chain: seq<Hash>, h: nat, vHave: seq<Hash>) {
    |chain| == h + 1 && forall k :: 0 <= k < |vHave| ==> Dist(k) <= h && vHave[k] == chain[h - Dist(k)]
  }

  /** The next entry is less than twice as far as one that is too near. */
  lemma NextDist(k: nat, far: nat)
    requires Dist(k) < far
    ensures Dist(k + 1) <= 2 * far
  {
    DistForm(k);
    DistForm(k + 1);
  }

  /** `vHave` is what Set makes of block b. */
  ghost predicate Locates(tree: Tree, b: Hash, vHave: seq<Hash>)
    requires tree.Valid() && b in tree.nodes
  {
    var h, n := tree.Height(b), |vHave| - 1;
    && n >= 1 && Dist(n - 1) <= h < Dist(n) && vHave[n] == tree.genesis
    && Entries(tree.Chain(b), h, vHave[..n])
  }

  /** A locator has at most 12 + log2(h - 9) hashes, or 12 if that is more. */
  lemma LocatorSize(tree: Tree, b: Hash, vHave: seq<Hash>)
    requires tree.Valid() && b in tree.nodes && Locates(tree, b, vHave)
    ensures |vHave| <= 12 || Pow2(|vHave| - 12) + 9 <= tree.Height(b)
  {
    DistForm(|vHave| - 2);
  }

  // ----- the receiving node

  ghost predicate InMain(mine: Tree, best: Hash, x: Hash)
    requires mine.Valid() && best in mine.nodes
  {
    x in mine.nodes && mine.Ancestor(x, best)
  }

  /** Forward links mark the main chain below its tip. */
  ghost predicate LinksMain(mine: Tree, best: Hash, pnext: map<Hash, Hash>)
    requires mine.Valid() && best in mine.nodes
  {
    forall x <- mine.nodes :: (x in pnext || x == best) <==> mine.Ancestor(x, best)
  }

  /** Entry k is the first one on the main chain, if any is. */
  ghost predicate FirstHit(mine: Tree, best: Hash, vHave: seq<Hash>, k: nat)
    requires mine.Valid() && best in mine.nodes
  {
    && k <= |vHave| && (forall j :: 0 <= j < k ==> !InMain(mine, best, vHave[j]))
    && (k < |vHave| ==> InMain(mine, best, vHave[k]))
  }

  class CBlockLocator {
    var vHave: seq<Hash>

    constructor ()
      ensures vHave == []
    {
      vHave := [];
    }

    method Set(tree: Tree, pindex: Option<Hash>)
      requires tree.Valid() && (pindex.Some? ==> pindex.value in tree.nodes)
      modifies this
      ensures if pindex.Some? then Locates(tree, pindex.value, vHave) else vHave == [tree.genesis]
    {
      vHave := [];
      if pindex.Some? { Walk(tree, pindex.value); }
      vHave := vHave + [tree.genesis];
    }

    /** Walks back from b with exponentially larger steps. */
    method Walk(tree: Tree, b: Hash)
      requires tree.Valid() && b in tree.nodes && vHave == []
      modifies this
      ensures |vHave| > 0 && Dist(|vHave| - 1) <= tree.Height(b) < Dist(|vHave|)
      ensures Entries(tree.Chain(b), tree.Height(b), vHave)
    {
      hide Tree.Chain, Dist, Step;
      var nStep := 1;
      var pindex := Some(b);
      ghost var h, chain := tree.Height(b), tree.Chain(b);
      StepNext(0);
      while pindex.Some?
        invariant nStep == Step(|vHave|) && At(chain, h, Dist(|vHave|), pindex) && Entries(chain, h, vHave)
        invariant |vHave| > 0 ==> Dist(|vHave| - 1) <= h
        decreases h + 1 - Dist(|vHave|)
      {
        ghost var k := |vHave|;
        StepNext(k);
        vHave := vHave + [pindex.value];
        pindex := StepBack(tree, b, pindex, nStep, Dist(k));
        if |vHave| > 10 { nStep := nStep * 2; }
      }
    }

    method StepBack(tree: Tree, b: Hash, pindex0: Option<Hash>, nStep: nat, ghost d: nat) returns (pindex: Option<Hash>)
      requires tree.Valid() && b in tree.nodes && At(tree.Chain(b), tree.Height(b), d, pindex0)
      ensures At(tree.Chain(b), tree.Height(b), d + nStep, pindex)
    {
      hide Tree.Chain;
      pindex := pindex0;
      var i := 0;
      while pindex.Some? && i < nStep
        invariant i <= nStep && At(tree.Chain(b), tree.Height(b), d + i, pindex)
      {
        Back(tree, b, d + i);
        pindex := tree.nodes[pindex.value].prev;
        i := i + 1;
      }
    }

    /** The first block of the locator on this node's main chain. */
    method GetBlockIndex(mine: Tree, best: Hash, pnext: map<Hash, Hash>) returns (r: Hash)
      requires mine.Valid() && best in mine.nodes && LinksMain(mine, best, pnext)
      ensures exists k: nat :: FirstHit(mine, best, vHave, k) && r == if k < |vHave| then vHave[k] else mine.genesis
    {
      hide Tree.Chain;
      var i := 0;
      while i < |vHave|
        modifies {}
        invariant i <= |vHave| && forall j :: 0 <= j < i ==> !InMain(mine, best, vHave[j])
      {
        var hash := vHave[i];
        if hash in mine.nodes {
          if hash in pnext || hash == best {
            assert FirstHit(mine, best, vHave, i);
            return hash;
          }
        }
        i := i + 1;
      }
      assert FirstHit(mine, best, vHave, i);
      return mine.genesis;
    }

    /** How far back that was, retraced from the locator alone. */
    method GetDistanceBack(mine: Tree, best: Hash, pnext: map<Hash, Hash>) returns (nDistance: nat)
      requires mine.Valid() && best in mine.nodes && LinksMain(mine, best, pnext)
      ensures exists k: nat :: FirstHit(mine, best, vHave, k) && nDistance == Dist(k)
    {
      hide Tree.Chain;
      nDistance := 0;
      var nStep := 1;
      var i := 0;
      while i < |vHave|
        modifies {}
        invariant i <= |vHave| && nDistance == Dist(i) && nStep == Step(i)
        invariant forall j :: 0 <= j < i ==> !InMain(mine, best, vHave[j])
      {
        var hash := vHave[i];
        if hash in mine.nodes {
          if hash in pnext || hash == best {
            assert FirstHit(mine, best, vHave, i);
            return nDistance;
          }
        }
        nDistance := nDistance + nStep;
        DistForm(i + 1);
        if nDistance > 10 { nStep := nStep * 2; }
        i := i + 1;
      }
      assert FirstHit(mine, best, vHave, i);
      return nDistance;
    }
  }

  /** The pointer d blocks back from the top of a chain, which is null beyond genesis. */
  ghost predicate At(chain: seq<Hash>, h: nat, d: nat, pindex: Option<Hash>) {
    |chain| == h + 1 && pindex == if d <= h then Some(chain[h - d]) else None
  }

  lemma Back(tree: Tree, b: Hash, d: nat)
    requires tree.Valid() && b in tree.nodes && d <= tree.Height(b)
    ensures var h, chain := tree.Height(b), tree.Chain(b);
      chain[h - d] in tree.nodes && At(chain, h, d + 1, tree.nodes[chain[h - d]].prev)
  {
    var k := tree.Height(b) - d;
    tree.ChainAt(b, k);
    if k > 0 { tree.ChainStep(b, k); } else { assert tree.Linked(tree.Chain(b)[0]); }
  }

  // ----- what the receiver learns

  /** Along a branch, exactly the blocks up to the fork are on the other chain. */
  lemma {:induction false} CommonUpToFork(tree: Tree, mine: Tree, b: Hash, best: Hash, f: Hash, p: nat)
    requires tree.Valid() && mine.Valid() && Extends(mine, tree) && b in tree.nodes && best in mine.nodes
    requires tree.IsFork(f, b, best) && p <= tree.Height(b)
    ensures InMain(mine, best, tree.Chain(b)[p]) <==> p <= tree.Height(f)
  {
    hide Tree.Chain;
    ChainExtends(mine, tree, best);
    var x := tree.Chain(b)[p];
    tree.ChainAt(b, p);
    tree.AncestorAt(f, b);
    tree.AncestorAt(f, best);
    if p <= tree.Height(f) {
      tree.AncestorChain(f, b);
      tree.AncestorChain(f, best);
      assert tree.Chain(best)[..tree.Height(f) + 1][p] == tree.Chain(b)[..tree.Height(f) + 1][p];
      assert mine.Chain(best)[p] == x;
      mine.ChainAt(best, p);
    }
    if InMain(mine, best, x) {
      assert tree.Ancestor(x, best) && tree.Ancestor(x, b);
    }
  }

  /** Against any other main chain the locator yields a common ancestor at most twice as far from its block
      as the fork is, and the retraced distance is right unless the hit is the appended genesis hash. */
  lemma {:induction false} FindsCommonAncestor(tree: Tree, mine: Tree, b: Hash, best: Hash, f: Hash, vHave: seq<Hash>, k: nat)
    requires tree.Valid() && mine.Valid() && Extends(mine, tree) && b in tree.nodes && best in mine.nodes
    requires tree.IsFork(f, b, best) && Locates(tree, b, vHave) && FirstHit(mine, best, vHave, k)
    ensures k < |vHave| && vHave[k] in tree.nodes && tree.Ancestor(vHave[k], b) && tree.Ancestor(vHave[k], best)
    ensures var near, far := tree.Height(b) - tree.Height(f), tree.Height(b) - tree.Height(vHave[k]);
      near <= far <= 2 * near
    ensures Dist(k) == tree.Height(b) - tree.Height(vHave[k]) <==> k < |vHave| - 1
  {
    hide Tree.Chain, InMain;
    var h, n := tree.Height(b), |vHave| - 1;
    var near := h - tree.Height(f);
    tree.AncestorAt(f, b);
    forall j | 0 <= j < n ensures InMain(mine, best, vHave[j]) <==> Dist(j) >= near {
      CommonUpToFork(tree, mine, b, best, f, h - Dist(j));
    }
    tree.ChainAt(b, 0);
    CommonUpToFork(tree, mine, b, best, f, 0);
    assert vHave[n] == tree.Chain(b)[0];
    assert k <= n;
    if k > 0 { NextDist(k - 1, near); }
    var p := if k < n then h - Dist(k) else 0;
    tree.ChainAt(b, p);
    CommonUpToFork(tree, mine, b, best, f, p);
    MainIsCommon(tree, mine, best, vHave[k]);
  }

  lemma MainIsCommon(tree: Tree, mine: Tree, best: Hash, x: Hash)
    requires tree.Valid() && mine.Valid() && Extends(mine, tree) && best in mine.nodes && InMain(mine, best, x)
    ensures tree.Ancestor(x, best)
  {
    ChainExtends(mine, tree, best);
  }
}
