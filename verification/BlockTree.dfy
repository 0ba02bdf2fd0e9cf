/** The tree of known blocks: every node but genesis has a parent one height below. */
module BlockTree {
  import opened Wrappers
  import opened Ledger

  /** The fields of a block index entry that never change once it is in mapBlockIndex. */
  datatype Node = Node(prev: Option<Hash>, height: nat, trust: nat, nTime: int)

  datatype Tree = Tree(genesis: Hash, nodes: map<Hash, Node>) {

    ghost predicate Linked(b: Hash)
      requires b in nodes
    {
      match nodes[b].prev
      case None => b == genesis && nodes[b].height == 0
      case Some(p) => p in nodes && nodes[b].height == nodes[p].height + 1
    }

    ghost predicate Valid() {
      && genesis in nodes
      && nodes[genesis].prev.None?
      && forall b {:trigger Linked(b)} :: b in nodes ==> Linked(b)
    }

    function Height(b: Hash): nat requires b in nodes { nodes[b].height }

    /** The blocks from genesis to `b`; the block at index k has height k. */
    ghost function Chain(b: Hash): (c: seq<Hash>)
      requires Valid() && b in nodes
      ensures |c| == nodes[b].height + 1 && c[0] == genesis && c[|c| - 1] == b
      decreases nodes[b].height
    {
      assert Linked(b);
      match nodes[b].prev
      case None => [b]
      case Some(p) => Chain(p) + [b]
    }

    /** `a` is `b` or one of its ancestors. */
    ghost predicate Ancestor(a: Hash, b: Hash)
      requires Valid() && b in nodes
    {
      a in Chain(b)
    }

    lemma {:induction false} ChainAt(b: Hash, k: nat)
      requires Valid() && b in nodes && k <= nodes[b].height
      ensures Chain(b)[k] in nodes && nodes[Chain(b)[k]].height == k
      ensures Chain(Chain(b)[k]) == Chain(b)[..k + 1]
      decreases nodes[b].height
    {
      assert Linked(b);
      if k == nodes[b].height {
        assert Chain(b)[..k + 1] == Chain(b);
      } else {
        ChainAt(nodes[b].prev.value, k);
        assert Chain(b)[..k + 1] == Chain(nodes[b].prev.value)[..k + 1];
      }
    }

    lemma AncestorAt(a: Hash, b: Hash)
      requires Valid() && b in nodes
      ensures Ancestor(a, b) <==>
              a in nodes && nodes[a].height <= nodes[b].height && Chain(b)[nodes[a].height] == a
    {
      if Ancestor(a, b) {
        var k :| 0 <= k < |Chain(b)| && Chain(b)[k] == a;
        ChainAt(b, k);
      }
    }

    lemma AncestorChain(a: Hash, b: Hash)
      requires Valid() && b in nodes && Ancestor(a, b)
      ensures a in nodes && nodes[a].height <= nodes[b].height
      ensures Chain(a) == Chain(b)[..nodes[a].height + 1]
    {
      AncestorAt(a, b);
      ChainAt(b, nodes[a].height);
    }

    lemma AncestorPrefix(a: Hash, b: Hash)
      requires Valid() && b in nodes && Ancestor(a, b)
      ensures a in nodes && nodes[a].height <= nodes[b].height
      ensures forall k :: 0 <= k <= nodes[a].height ==> Chain(a)[k] == Chain(b)[k]
    {
      AncestorChain(a, b);
    }

    lemma AncestorTransitive(a: Hash, b: Hash, c: Hash)
      requires Valid() && c in nodes && Ancestor(b, c) && b in nodes && Ancestor(a, b)
      ensures Ancestor(a, c)
    {
      AncestorChain(b, c);
    }

    /** No block occurs twice on a chain. */
    lemma ChainDistinct(b: Hash)
      requires Valid() && b in nodes
      ensures Distinct(Chain(b))
    {
      forall i, j | 0 <= i < j < |Chain(b)| ensures Chain(b)[i] != Chain(b)[j] {
        ChainAt(b, i);
        ChainAt(b, j);
      }
    }

    lemma ChainPrev(b: Hash)
      requires Valid() && b in nodes && nodes[b].prev.Some?
      ensures nodes[b].prev.value in nodes
      ensures Chain(b) == Chain(nodes[b].prev.value) + [b]
      ensures Ancestor(nodes[b].prev.value, b)
    {
      assert Linked(b);
      var p := nodes[b].prev.value;
      assert Chain(b)[|Chain(p)| - 1] == p;
    }

    /** The block at height k of a branch and the parent below it. */
    lemma ChainStep(tip: Hash, k: nat)
      requires Valid() && tip in nodes && 1 <= k <= nodes[tip].height
      ensures Chain(tip)[k] in nodes && nodes[Chain(tip)[k]].height == k
      ensures nodes[Chain(tip)[k]].prev == Some(Chain(tip)[k - 1]) && Chain(tip)[k - 1] in nodes
      ensures Chain(Chain(tip)[k]) == Chain(tip)[..k + 1] && Chain(Chain(tip)[k - 1]) == Chain(tip)[..k]
    {
      var b := Chain(tip)[k];
      ChainAt(tip, k);
      ChainAt(tip, k - 1);
      assert Linked(b);
      assert Chain(b)[k - 1] == Chain(tip)[k - 1];
    }

    /** `f` is the last block two branches share. */
    ghost predicate IsFork(f: Hash, a: Hash, b: Hash)
      requires Valid() && a in nodes && b in nodes
    {
      && f in nodes && Ancestor(f, a) && Ancestor(f, b)
      && forall c <- nodes :: Ancestor(c, a) && Ancestor(c, b) ==> nodes[c].height <= nodes[f].height
    }
  }

  ghost predicate Extends(t: Tree, t': Tree) {
    && t.genesis == t'.genesis && t.nodes.Keys <= t'.nodes.Keys
    && forall b <- t.nodes :: t'.nodes[b] == t.nodes[b]
  }

  /** Adding blocks changes no chain that was there. */
  lemma {:induction false} ChainExtends(t: Tree, t': Tree, b: Hash)
    requires t.Valid() && t'.Valid() && Extends(t, t') && b in t.nodes
    ensures t'.Chain(b) == t.Chain(b)
    decreases t.nodes[b].height
  {
    assert t.Linked(b);
    match t.nodes[b].prev
    case None =>
    case Some(p) => ChainExtends(t, t', p);
  }
}
